/** The string parsing of Python's `ipaddress` module that the address, gateway and
    DNS validators rely on: `IPv4Address`, `IPv6Address`, `IPv4Network`,
    `IPv6Network`, `ip_address` and `ip_network(..., strict=False)`, applied to strings.
    Every exception of that module is a `ValueError`, caught by the validators,
    so each failure is `None` here.  The behaviour modelled is that of Python 3.9.5
    and later (octets with a leading zero are refused, an IPv6 address may carry a
    `%scope` suffix). */
module Ipaddress {
  import opened Wrappers
  import opened Text

  const IPV4_MAX_PREFIXLEN: nat := 32
  const IPV6_MAX_PREFIXLEN: nat := 128
  const HEXTET_COUNT: nat := 8
  const IPV4_ALL_ONES: nat := 4294967295

  /** A parsed host address: four octets or eight 16-bit groups. */
  datatype Address = V4Address(octets: seq<nat>) | V6Address(hextets: seq<nat>)

  /** A parsed network.  With `strict=False` Python clears the host bits of the
      address; the model keeps the address as written, since the validators read
      only the family and the prefix length. */
  datatype Network =
    | V4Network(address: seq<nat>, prefixlen: nat)
    | V6Network(address: seq<nat>, prefixlen: nat)

  // ---------------------------------------------------------------- IPv4

  /** `_BaseV4._parse_octet`. */
  function ParseOctet(s: string): (r: Option<nat>)
    ensures r.Some? ==> r.value <= 255
  {
    if s == [] then None
    else if !IsDecimal(s) then None
    else if |s| > 3 then None
    else if s != "0" && s[0] == '0' then None
    else if DecimalValue(s) > 255 then None
    else Some(DecimalValue(s))
  }

  /** The octets of `parts`, failing at the first piece that is not one. */
  function ParseOctets(parts: seq<string>): (r: Option<seq<nat>>)
    ensures r.Some? <==> forall i :: 0 <= i < |parts| ==> ParseOctet(parts[i]).Some?
    ensures r.Some? ==> |r.value| == |parts|
    ensures r.Some? ==> forall i :: 0 <= i < |parts| ==> r.value[i] == ParseOctet(parts[i]).value
  {
    if parts == [] then Some([])
    else
      match ParseOctet(parts[0])
      case None => None
      case Some(v) =>
        match ParseOctets(parts[1..])
        case None => None
        case Some(vs) => Some([v] + vs)
  }

  /** Four octets, each at most 255. */
  predicate IsOctets(o: seq<nat>) { |o| == 4 && forall i :: 0 <= i < 4 ==> o[i] <= 255 }

  /** `_BaseV4._ip_int_from_string`: the four octets of a dotted-decimal string. */
  function Ipv4IntFromString(s: string): (r: Option<seq<nat>>)
    ensures r.Some? ==> IsOctets(r.value)
  {
    if s == [] then None
    else
      var octets := Split(s, '.');
      if |octets| != 4 then None else ParseOctets(octets)
  }

  /** The 32-bit integer of four octets, most significant first. */
  function Ipv4Value(o: seq<nat>): nat
    requires |o| == 4
  {
    ((o[0] * 256 + o[1]) * 256 + o[2]) * 256 + o[3]
  }

  lemma Ipv4ValueBound(o: seq<nat>)
    requires IsOctets(o)
    ensures Ipv4Value(o) <= IPV4_ALL_ONES
  {
    var a := o[0] * 256 + o[1];
    assert a <= 65535;
    var b := a * 256 + o[2];
    assert b <= 16777215;
  }

  /** `IPv4Address(s)` for a string s. */
  function Ipv4Address(s: string): (r: Option<seq<nat>>)
    ensures r.Some? ==> IsOctets(r.value)
  {
    if '/' in s then None else Ipv4IntFromString(s)
  }

  // ---------------------------------------------------------------- prefixes

  /** `_BaseNetwork._prefix_from_prefix_string`: a decimal prefix length no larger than the maximum. */
  function PrefixFromPrefixString(s: string, maxPrefixlen: nat): (r: Option<nat>)
    ensures r.Some? ==> r.value <= maxPrefixlen
  {
    if !IsDecimal(s) then None
    else if DecimalValue(s) > maxPrefixlen then None
    else Some(DecimalValue(s))
  }

  function Pow2(k: nat): (p: nat)
    ensures p >= 1
  {
    if k == 0 then 1 else 2 * Pow2(k - 1)
  }

  /** `_count_righthand_zero_bits(n, bits)`: the trailing zero bits of n, at most `bits`. */
  function TrailingZeroBits(n: nat, bits: nat): (z: nat)
    ensures z <= bits
    decreases n
  {
    if n == 0 then bits
    else if bits == 0 then 0
    else if n % 2 == 1 then 0
    else 1 + TrailingZeroBits(n / 2, bits - 1)
  }

  /** `_BaseV4._prefix_from_ip_int`: the prefix length of a netmask of the form 1...10...0. */
  function PrefixFromIpInt(ipInt: nat): (r: Option<nat>)
    ensures r.Some? ==> r.value <= IPV4_MAX_PREFIXLEN
  {
    var trailingZeroes := TrailingZeroBits(ipInt, IPV4_MAX_PREFIXLEN);
    var prefixlen: nat := IPV4_MAX_PREFIXLEN - trailingZeroes;
    if ipInt / Pow2(trailingZeroes) != Pow2(prefixlen) - 1 then None else Some(prefixlen)
  }

  /** `_BaseV4._prefix_from_ip_string`: a dotted-quad netmask, or else a hostmask. */
  function PrefixFromIpString(s: string): (r: Option<nat>)
    ensures r.Some? ==> r.value <= IPV4_MAX_PREFIXLEN
  {
    match Ipv4IntFromString(s)
    case None => None
    case Some(o) =>
      Ipv4ValueBound(o);
      var ipInt := Ipv4Value(o);
      match PrefixFromIpInt(ipInt)
      case Some(p) => Some(p)
      case None => PrefixFromIpInt(IPV4_ALL_ONES - ipInt)
  }

  /** `_BaseV4._make_netmask` for a string: a prefix length, or else a netmask or hostmask. */
  function Ipv4Netmask(s: string): (r: Option<nat>)
    ensures r.Some? ==> r.value <= IPV4_MAX_PREFIXLEN
  {
    match PrefixFromPrefixString(s, IPV4_MAX_PREFIXLEN)
    case Some(p) => Some(p)
    case None => PrefixFromIpString(s)
  }

  /** `_split_optional_netmask`: the address and, after a single `/`, the mask. */
  function SplitOptionalNetmask(s: string): (r: Option<(string, Option<string>)>)
    ensures r.Some? ==> '/' !in r.value.0
    ensures r.Some? && r.value.1.Some? ==> '/' !in r.value.1.value
  {
    var parts := Split(s, '/');
    if |parts| > 2 then None
    else Some((parts[0], if |parts| == 2 then Some(parts[1]) else None))
  }

  /** `IPv4Network(s, strict=False)`; without a mask the prefix is the full 32 bits. */
  function Ipv4Network(s: string): (r: Option<Network>)
    ensures r.Some? ==> r.value.V4Network? && r.value.prefixlen <= IPV4_MAX_PREFIXLEN
  {
    match SplitOptionalNetmask(s)
    case None => None
    case Some((addr, mask)) =>
      match Ipv4Address(addr)
      case None => None
      case Some(o) =>
        match mask
        case None => Some(V4Network(o, IPV4_MAX_PREFIXLEN))
        case Some(m) =>
          match Ipv4Netmask(m)
          case None => None
          case Some(p) => Some(V4Network(o, p))
  }

  // ---------------------------------------------------------------- IPv6

  predicate IsHex(s: string) { forall i :: 0 <= i < |s| ==> IsHexDigit(s[i]) }

  /** `_BaseV6._parse_hextet`: one to four hexadecimal digits (`int('', 16)` fails too). */
  function ParseHextet(s: string): (r: Option<nat>)
    ensures r.Some? ==> r.value < 65536
  {
    if !IsHex(s) then None
    else if |s| > 4 then None
    else if s == [] then None
    else
      HexValueBound(s);
      Some(HexValue(s))
  }

  function ParseHextets(parts: seq<string>): (r: Option<seq<nat>>)
    ensures r.Some? <==> forall i :: 0 <= i < |parts| ==> ParseHextet(parts[i]).Some?
    ensures r.Some? ==> |r.value| == |parts|
  {
    if parts == [] then Some([])
    else
      match ParseHextet(parts[0])
      case None => None
      case Some(v) =>
        match ParseHextets(parts[1..])
        case None => None
        case Some(vs) => Some([v] + vs)
  }

  /** An IPv4-style last group is replaced by the two groups `'%x'` of its halves. */
  function ExpandIpv4Suffix(parts: seq<string>): (r: Option<seq<string>>)
    requires |parts| >= 1
    ensures '.' !in parts[|parts| - 1] ==> r == Some(parts)
  {
    var last := parts[|parts| - 1];
    if '.' !in last then Some(parts)
    else
      match Ipv4Address(last)
      case None => None
      case Some(o) =>
        Some(parts[..|parts| - 1] + [HexString(o[0] * 256 + o[1]), HexString(o[2] * 256 + o[3])])
  }

  /** The loop over the inner groups looking for the one empty group that `::` leaves:
      `Some(None)` when there is none, `None` when there are two. */
  function FindSkip(parts: seq<string>, i: nat, skip: Option<nat>): (r: Option<Option<nat>>)
    requires 1 <= i
    requires skip.Some? ==> 1 <= skip.value && skip.value + 1 < |parts|
    ensures r.Some? && r.value.Some? ==> 1 <= r.value.value && r.value.value + 1 < |parts|
    decreases |parts| - i
  {
    if i + 1 >= |parts| then Some(skip)
    else if parts[i] != "" then FindSkip(parts, i + 1, skip)
    else if skip.Some? then None
    else FindSkip(parts, i + 1, Some(i))
  }

  function Zeros(n: nat): (z: seq<nat>)
    ensures |z| == n
  {
    if n == 0 then [] else [0] + Zeros(n - 1)
  }

  /** `_BaseV6._ip_int_from_string`: the eight groups of an IPv6 text address. */
  function Ipv6IntFromString(s: string): (r: Option<seq<nat>>)
    ensures r.Some? ==> |r.value| == HEXTET_COUNT
  {
    if s == [] then None
    else
      var parts0 := Split(s, ':');
      if |parts0| < 3 then None
      else
        match ExpandIpv4Suffix(parts0)
        case None => None
        case Some(parts) =>
          if |parts| > HEXTET_COUNT + 1 then None
          else
            match FindSkip(parts, 1, None)
            case None => None
            case Some(Some(skip)) =>
              var first, last := parts[0], parts[|parts| - 1];
              var hi: nat := if first == "" then skip - 1 else skip;
              var lo: nat := if last == "" then |parts| - skip - 2 else |parts| - skip - 1;
              if first == "" && hi != 0 then None
              else if last == "" && lo != 0 then None
              else if HEXTET_COUNT - (hi + lo) < 1 then None
              else
                (match ParseHextets(parts[..hi])
                 case None => None
                 case Some(high) =>
                   match ParseHextets(parts[|parts| - lo..])
                   case None => None
                   case Some(low) => Some(high + Zeros(HEXTET_COUNT - (hi + lo)) + low))
            case Some(None) =>
              if |parts| != HEXTET_COUNT then None
              else if parts[0] == "" then None
              else if parts[|parts| - 1] == "" then None
              else ParseHextets(parts)
  }

  /** `_BaseV6._split_scope_id`: the address before a `%`, whose scope must be
      non-empty and free of further `%`. */
  function SplitScopeId(s: string): (r: Option<string>)
    ensures '%' !in s ==> r == Some(s)
  {
    var parts := Split(s, '%');
    SplitNoSeparator(s, '%');
    if |parts| == 1 then Some(s)
    else if |parts| == 2 && parts[1] != "" then Some(parts[0])
    else None
  }

  /** `IPv6Address(s)` for a string s. */
  function Ipv6Address(s: string): (r: Option<seq<nat>>)
    ensures r.Some? ==> |r.value| == HEXTET_COUNT
  {
    if '/' in s then None
    else
      match SplitScopeId(s)
      case None => None
      case Some(a) => Ipv6IntFromString(a)
  }

  /** `IPv6Network(s, strict=False)`; without a mask the prefix is the full 128 bits. */
  function Ipv6Network(s: string): (r: Option<Network>)
    ensures r.Some? ==> r.value.V6Network? && r.value.prefixlen <= IPV6_MAX_PREFIXLEN
  {
    match SplitOptionalNetmask(s)
    case None => None
    case Some((addr, mask)) =>
      match Ipv6Address(addr)
      case None => None
      case Some(h) =>
        match mask
        case None => Some(V6Network(h, IPV6_MAX_PREFIXLEN))
        case Some(m) =>
          match PrefixFromPrefixString(m, IPV6_MAX_PREFIXLEN)
          case None => None
          case Some(p) => Some(V6Network(h, p))
  }

  // ---------------------------------------------------------------- factory functions

  /** `ip_network(s, strict=False)`: IPv4 first, then IPv6. */
  function IpNetwork(s: string): (r: Option<Network>)
    ensures Ipv4Network(s).Some? ==> r == Ipv4Network(s)
    ensures Ipv4Network(s).None? ==> r == Ipv6Network(s)
    ensures r.Some? && r.value.V6Network? ==> r == Ipv6Network(s)
  {
    match Ipv4Network(s)
    case Some(n) => Some(n)
    case None => Ipv6Network(s)
  }

  /** `ip_address(s)`: IPv4 first, then IPv6. */
  function IpAddress(s: string): (r: Option<Address>)
    ensures r.Some? <==> Ipv4Address(s).Some? || Ipv6Address(s).Some?
    ensures r.Some? && r.value.V6Address? ==> Ipv4Address(s).None?
  {
    match Ipv4Address(s)
    case Some(o) => Some(V4Address(o))
    case None =>
      match Ipv6Address(s)
      case Some(h) => Some(V6Address(h))
      case None => None
  }

  // ---------------------------------------------------------------- text forms and round trips

  /** `str(IPv4Address)`: the dotted-decimal text of four octets. */
  function FormatIpv4(o: seq<nat>): string
    requires |o| == 4
  {
    Join([DecimalString(o[0]), DecimalString(o[1]), DecimalString(o[2]), DecimalString(o[3])], '.')
  }

  /** The characters of a dotted-decimal text are digits and dots. */
  lemma FormatIpv4Chars(o: seq<nat>, c: char)
    requires |o| == 4 && c in FormatIpv4(o)
    ensures c == '.' || IsDigit(c)
  {
    var parts := [DecimalString(o[0]), DecimalString(o[1]), DecimalString(o[2]), DecimalString(o[3])];
    JoinChars(parts, '.', c);
  }

  /** `str(n)` is read back as the octet n by `_parse_octet`. */
  lemma OctetRoundTrip(n: nat)
    requires n <= 255
    ensures ParseOctet(DecimalString(n)) == Some(n)
  {
    DecimalRoundTrip(n);
  }

  /** `IPv4Address(str(a)) == a`: the dotted-decimal text of four octets parses back to them. */
  lemma Ipv4RoundTrip(o: seq<nat>)
    requires IsOctets(o)
    ensures Ipv4Address(FormatIpv4(o)) == Some(o)
  {
    var parts := [DecimalString(o[0]), DecimalString(o[1]), DecimalString(o[2]), DecimalString(o[3])];
    forall i | 0 <= i < 4 ensures '.' !in parts[i] && ParseOctet(parts[i]) == Some(o[i]) {
      OctetRoundTrip(o[i]);
    }
    SplitJoin(parts, '.');
    if '/' in FormatIpv4(o) { FormatIpv4Chars(o, '/'); }
    assert FormatIpv4(o) != [] by { assert |FormatIpv4(o)| >= |parts[0]|; }
    var r := ParseOctets(parts);
    assert r.Some? && |r.value| == 4;
    assert r.value == o;
  }

  /** A text without a dot is no IPv4 address. */
  lemma NoDotNoIpv4(s: string)
    requires '.' !in s
    ensures Ipv4IntFromString(s).None? && Ipv4Address(s).None?
  {
    SplitNoSeparator(s, '.');
  }

  /** A text without a colon is no IPv6 address. */
  lemma NoColonNoIpv6(s: string)
    requires ':' !in s
    ensures Ipv6Address(s).None?
  {
    if '/' !in s {
      match SplitScopeId(s)
      case None =>
      case Some(a) =>
        assert a == s || a == Split(s, '%')[0];
        SplitFirstLacks(s, '%', ':');
        SplitNoSeparator(a, ':');
    }
  }

  /** Eight groups of one to four hexadecimal digits, as the full IPv6 text form has them. */
  predicate IsFullForm(parts: seq<string>)
  {
    |parts| == HEXTET_COUNT && forall i :: 0 <= i < |parts| ==> 1 <= |parts[i]| <= 4 && IsHex(parts[i])
  }

  /** The search for `::` finds nothing when no group is empty. */
  lemma {:induction false} NoEmptyGroupNoSkip(parts: seq<string>, i: nat)
    requires 1 <= i
    requires forall j :: 0 <= j < |parts| ==> parts[j] != ""
    ensures FindSkip(parts, i, None) == Some(None)
    decreases |parts| - i
  {
    if i + 1 < |parts| { NoEmptyGroupNoSkip(parts, i + 1); }
  }

  /** The characters of a full-form IPv6 text are hexadecimal digits and colons. */
  lemma FullFormChars(parts: seq<string>, c: char)
    requires IsFullForm(parts) && c in Join(parts, ':')
    ensures c == ':' || IsHexDigit(c)
  {
    JoinChars(parts, ':', c);
    if c != ':' {
      var i :| 0 <= i < |parts| && c in parts[i];
      var k :| 0 <= k < |parts[i]| && parts[i][k] == c;
    }
  }

  /** The full IPv6 text form (eight groups joined by colons) parses as an IPv6
      address and not as an IPv4 one. */
  lemma Ipv6FullFormParses(parts: seq<string>)
    requires IsFullForm(parts)
    ensures Ipv6Address(Join(parts, ':')).Some?
    ensures Ipv4Address(Join(parts, ':')).None?
  {
    var a := Join(parts, ':');
    assert forall i :: 0 <= i < |parts| ==> ':' !in parts[i] && '.' !in parts[i] && ParseHextet(parts[i]).Some?;
    SplitJoin(parts, ':');
    if '/' in a { FullFormChars(parts, '/'); }
    if '%' in a { FullFormChars(parts, '%'); }
    if '.' in a { FullFormChars(parts, '.'); }
    assert a != [] by { assert |a| >= |parts[0]|; }
    NoEmptyGroupNoSkip(parts, 1);
    NoDotNoIpv4(a);
  }

  /** A text that parses as an IPv4 address consists of digits and dots. */
  lemma Ipv4TextChars(s: string, c: char)
    requires Ipv4IntFromString(s).Some? && c in s
    ensures c == '.' || IsDigit(c)
  {
    var pieces := Split(s, '.');
    JoinSplit(s, '.');
    JoinChars(pieces, '.', c);
    if c != '.' {
      var i :| 0 <= i < |pieces| && c in pieces[i];
      assert ParseOctet(pieces[i]).Some?;
      var k :| 0 <= k < |pieces[i]| && pieces[i][k] == c;
    }
  }

  /** A text without `/` is a network of the full prefix length of its family. */
  lemma BareNetworkFullPrefix(s: string)
    requires '/' !in s && IpNetwork(s).Some?
    ensures IpNetwork(s).value.V4Network? ==> IpNetwork(s).value.prefixlen == IPV4_MAX_PREFIXLEN
    ensures IpNetwork(s).value.V6Network? ==> IpNetwork(s).value.prefixlen == IPV6_MAX_PREFIXLEN
  {
    SplitNoSeparator(s, '/');
    assert SplitOptionalNetmask(s) == Some((s, None));
  }
}
