/** The four address and gateway validators of the charm (src/charm.py, the static
    methods `_is_valid_ipv4_address`, `_is_valid_ipv4_gateway`, `_is_valid_ipv6_address`
    and `_is_valid_ipv6_gateway`).  Each one catches `ValueError`, so a text that
    does not parse is simply refused. */
module AddressValidators {
  import opened Wrappers
  import opened Text
  import opened Ipaddress

  /** An IPv4 address with a netmask: `ip_network(s, strict=False)` is an IPv4 network
      whose prefix is not the host length 32.  A bare address gets the implicit
      prefix 32 and is therefore refused. */
  predicate IsValidIpv4Address(s: string)
    ensures IsValidIpv4Address(s) ==> '/' in s
  {
    if '/' !in s && IpNetwork(s).Some? then BareNetworkFullPrefix(s); false
    else
      match IpNetwork(s)
      case Some(V4Network(_, p)) => p != IPV4_MAX_PREFIXLEN
      case _ => false
  }

  /** An IPv4 gateway: `ip_address(s)` is an IPv4 address, so no prefix and no colon. */
  predicate IsValidIpv4Gateway(s: string)
    ensures IsValidIpv4Gateway(s) ==> '/' !in s && ':' !in s
  {
    if ':' in s && Ipv4Address(s).Some? then Ipv4TextChars(s, ':'); false
    else
      match IpAddress(s)
      case Some(V4Address(_)) => true
      case _ => false
  }

  /** An IPv6 address with a netmask: `ip_network(s, strict=False)` is an IPv6 network
      whose prefix is not the host length 128. */
  predicate IsValidIpv6Address(s: string)
    ensures IsValidIpv6Address(s) ==> '/' in s
  {
    if '/' !in s && IpNetwork(s).Some? then BareNetworkFullPrefix(s); false
    else
      match IpNetwork(s)
      case Some(V6Network(_, p)) => p != IPV6_MAX_PREFIXLEN
      case _ => false
  }

  /** An IPv6 gateway: `ip_address(s)` is an IPv6 address, so no prefix and a colon. */
  predicate IsValidIpv6Gateway(s: string)
    ensures IsValidIpv6Gateway(s) ==> '/' !in s && ':' in s
  {
    if ':' !in s then NoColonNoIpv6(s); false
    else
      match IpAddress(s)
      case Some(V6Address(_)) => true
      case _ => false
  }

  /** `a/b` with no other slash splits into the address a and the mask b. */
  lemma SplitAtSlash(a: string, b: string)
    requires '/' !in a && '/' !in b
    ensures SplitOptionalNetmask(a + "/" + b) == Some((a, Some(b)))
  {
    SplitJoin([a, b], '/');
    assert Join([a, b], '/') == a + "/" + b;
  }

  /** A text with neither a dot nor a colon is neither an address nor a network
      ("invalidip", "not a gateway", "not ipv6"). */
  lemma NeitherDotNorColonRejected(s: string)
    requires '.' !in s && ':' !in s
    ensures IpAddress(s).None? && IpNetwork(s).None?
    ensures !IsValidIpv4Address(s) && !IsValidIpv4Gateway(s)
    ensures !IsValidIpv6Address(s) && !IsValidIpv6Gateway(s)
  {
    NoDotNoIpv4(s);
    NoColonNoIpv6(s);
    match SplitOptionalNetmask(s)
    case None =>
    case Some((a, _)) =>
      SplitFirstLacks(s, '/', '.');
      SplitFirstLacks(s, '/', ':');
      NoDotNoIpv4(a);
      NoColonNoIpv6(a);
  }

  /** "a.b.c.d/p" is accepted as an IPv4 address and netmask exactly when p < 32,
      and is never an IPv6 address or a gateway. */
  lemma Ipv4CidrValidity(o: seq<nat>, p: nat)
    requires IsOctets(o)
    ensures IsValidIpv4Address(FormatIpv4(o) + "/" + DecimalString(p)) <==> p < IPV4_MAX_PREFIXLEN
    ensures !IsValidIpv6Address(FormatIpv4(o) + "/" + DecimalString(p))
    ensures !IsValidIpv4Gateway(FormatIpv4(o) + "/" + DecimalString(p))
    ensures !IsValidIpv6Gateway(FormatIpv4(o) + "/" + DecimalString(p))
  {
    var a, m := FormatIpv4(o), DecimalString(p);
    var s := a + "/" + m;
    Ipv4RoundTrip(o);
    if '/' in a { FormatIpv4Chars(o, '/'); }
    if ':' in a { FormatIpv4Chars(o, ':'); }
    DecimalRoundTrip(p);
    SplitAtSlash(a, m);
    NoDotNoIpv4(m);
    NoColonNoIpv6(a);
    assert Ipv4IntFromString(m).None?;
    if p <= IPV4_MAX_PREFIXLEN {
      assert Ipv4Network(s) == Some(V4Network(o, p));
    } else {
      assert Ipv4Network(s).None?;
      assert Ipv6Network(s).None?;
    }
  }

  /** "a.b.c.d" is accepted as an IPv4 gateway, and refused as an IPv6 gateway and,
      having no prefix, as an address with netmask of either family. */
  lemma Ipv4GatewayValidity(o: seq<nat>)
    requires IsOctets(o)
    ensures IsValidIpv4Gateway(FormatIpv4(o)) && !IsValidIpv6Gateway(FormatIpv4(o))
    ensures !IsValidIpv4Address(FormatIpv4(o)) && !IsValidIpv6Address(FormatIpv4(o))
  {
    Ipv4RoundTrip(o);
    if '/' in FormatIpv4(o) { FormatIpv4Chars(o, '/'); }
    if ':' in FormatIpv4(o) { FormatIpv4Chars(o, ':'); }
  }

  /** The full IPv6 text form followed by "/p" is accepted as an IPv6 address and
      netmask exactly when p < 128, and is never an IPv4 address. */
  lemma Ipv6CidrValidity(parts: seq<string>, p: nat)
    requires IsFullForm(parts)
    ensures IsValidIpv6Address(Join(parts, ':') + "/" + DecimalString(p)) <==> p < IPV6_MAX_PREFIXLEN
    ensures !IsValidIpv4Address(Join(parts, ':') + "/" + DecimalString(p))
  {
    var a, m := Join(parts, ':'), DecimalString(p);
    var s := a + "/" + m;
    Ipv6FullFormParses(parts);
    if '/' in a { FullFormChars(parts, '/'); }
    DecimalRoundTrip(p);
    SplitAtSlash(a, m);
    assert Ipv4Network(s).None?;
    if p <= IPV6_MAX_PREFIXLEN {
      assert Ipv6Network(s).Some? && Ipv6Network(s).value.prefixlen == p;
    } else {
      assert Ipv6Network(s).None?;
    }
  }

  /** The full IPv6 text form is accepted as an IPv6 gateway, and refused as an IPv4
      gateway and, having no prefix, as an IPv6 address with netmask. */
  lemma Ipv6GatewayValidity(parts: seq<string>)
    requires IsFullForm(parts)
    ensures IsValidIpv6Gateway(Join(parts, ':')) && !IsValidIpv4Gateway(Join(parts, ':'))
    ensures !IsValidIpv6Address(Join(parts, ':'))
  {
    Ipv6FullFormParses(parts);
    if '/' in Join(parts, ':') { FullFormChars(parts, '/'); }
  }
}
