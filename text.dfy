/** Python string operations used by the parsers: `str.split` on one separator,
    ASCII digit tests and decimal and hexadecimal numerals. */
module Text {

  /** `s.split(sep)` for a one-character separator: the pieces between the separators,
      empty pieces included, so that a string with k separators has k + 1 pieces. */
  function Split(s: string, sep: char): (parts: seq<string>)
    ensures |parts| >= 1
    ensures forall i :: 0 <= i < |parts| ==> sep !in parts[i]
    decreases |s|
  {
    if s == [] then [""]
    else
      var rest := Split(s[1..], sep);
      if s[0] == sep then [""] + rest
      else [[s[0]] + rest[0]] + rest[1..]
  }

  /** `sep.join(parts)`. */
  function Join(parts: seq<string>, sep: char): (s: string)
    requires |parts| >= 1
    decreases |parts|
  {
    if |parts| == 1 then parts[0] else parts[0] + [sep] + Join(parts[1..], sep)
  }

  /** A join read from piece k on. */
  lemma {:induction false} JoinStep(parts: seq<string>, k: nat, sep: char)
    requires k + 1 < |parts|
    ensures Join(parts[k..], sep) == parts[k] + [sep] + Join(parts[k + 1..], sep)
  {
    assert parts[k..][1..] == parts[k + 1..];
  }

  /** Joining the pieces of a split gives back the string. */
  lemma {:induction false} JoinSplit(s: string, sep: char)
    ensures Join(Split(s, sep), sep) == s
    decreases |s|
  {
    if s != [] {
      JoinSplit(s[1..], sep);
      var rest := Split(s[1..], sep);
      if s[0] != sep {
        if |rest| > 1 {
          assert rest == [rest[0]] + rest[1..];
        }
      }
    }
  }

  /** A join whose first piece is not empty, read from its second character on. */
  lemma JoinFirstChar(parts: seq<string>, sep: char)
    requires |parts| >= 1 && parts[0] != []
    ensures Join(parts, sep)[0] == parts[0][0]
    ensures Join(parts, sep)[1..] == Join([parts[0][1..]] + parts[1..], sep)
  {
    var p := parts[0];
    var tail := [p[1..]] + parts[1..];
    if |parts| > 1 {
      assert tail[1..] == parts[1..];
      assert Join(parts, sep) == p + ([sep] + Join(parts[1..], sep));
    }
  }

  /** Splitting a string that starts with a character other than the separator. */
  lemma SplitFirstChar(s: string, sep: char)
    requires s != [] && s[0] != sep
    ensures Split(s, sep) == [[s[0]] + Split(s[1..], sep)[0]] + Split(s[1..], sep)[1..]
  {
  }

  /** Splitting a join of separator-free pieces gives back the pieces. */
  lemma {:induction false} SplitJoin(parts: seq<string>, sep: char)
    requires |parts| >= 1
    requires forall i :: 0 <= i < |parts| ==> sep !in parts[i]
    ensures Split(Join(parts, sep), sep) == parts
    decreases |parts|, |parts[0]|
  {
    if parts[0] == [] {
      if |parts| > 1 {
        SplitJoin(parts[1..], sep);
        assert Join(parts, sep) == [sep] + Join(parts[1..], sep);
        assert [""] + parts[1..] == parts;
      }
    } else {
      var p := parts[0];
      var tail := [p[1..]] + parts[1..];
      assert tail[0] == p[1..];
      assert forall i :: 1 <= i < |tail| ==> tail[i] == parts[i];
      SplitJoin(tail, sep);
      var j := Join(parts, sep);
      JoinFirstChar(parts, sep);
      SplitFirstChar(j, sep);
      assert [p[0]] + p[1..] == p;
      assert [p] + tail[1..] == parts;
    }
  }

  /** A string without the separator is a single piece. */
  lemma SplitNoSeparator(s: string, sep: char)
    ensures sep !in s ==> Split(s, sep) == [s]
  {
    if sep !in s { SplitJoin([s], sep); }
  }

  /** Every character of a piece of a split is a character of the string. */
  lemma {:induction false} SplitPieceChars(s: string, sep: char, i: nat, c: char)
    requires i < |Split(s, sep)| && c in Split(s, sep)[i]
    ensures c in s
    decreases |s|
  {
    var rest := Split(s[1..], sep);
    if s[0] == sep {
      SplitPieceChars(s[1..], sep, i - 1, c);
    } else if i == 0 {
      if c != s[0] {
        assert c in rest[0];
        SplitPieceChars(s[1..], sep, 0, c);
      }
    } else {
      SplitPieceChars(s[1..], sep, i, c);
    }
  }

  /** The first piece of a split of a string without character c has no c. */
  lemma SplitFirstLacks(s: string, sep: char, c: char)
    requires c !in s
    ensures c !in Split(s, sep)[0]
  {
    if c in Split(s, sep)[0] { SplitPieceChars(s, sep, 0, c); }
  }

  /** Every character of a join is the separator or a character of a piece. */
  lemma {:induction false} JoinChars(parts: seq<string>, sep: char, c: char)
    requires |parts| >= 1 && c in Join(parts, sep)
    ensures c == sep || exists i :: 0 <= i < |parts| && c in parts[i]
    decreases |parts|
  {
    if |parts| > 1 && c != sep && c !in parts[0] {
      JoinChars(parts[1..], sep, c);
      var i :| 0 <= i < |parts[1..]| && c in parts[1..][i];
      assert c in parts[i + 1];
    }
  }

  predicate IsDigit(c: char) { '0' <= c <= '9' }

  /** `s.isascii() and s.isdigit()`: a non-empty run of ASCII decimal digits. */
  predicate IsDecimal(s: string) { s != [] && forall i :: 0 <= i < |s| ==> IsDigit(s[i]) }

  function DigitValue(c: char): (d: nat)
    requires IsDigit(c)
    ensures d < 10
  {
    (c - '0') as nat
  }

  function DigitChar(d: nat): (c: char)
    requires d < 10
    ensures IsDigit(c) && DigitValue(c) == d
  {
    ('0' as int + d) as char
  }

  /** `int(s, 10)` of a run of decimal digits (leading zeros allowed, as `int` allows them). */
  function DecimalValue(s: string): nat
    requires forall i :: 0 <= i < |s| ==> IsDigit(s[i])
    decreases |s|
  {
    if s == [] then 0 else 10 * DecimalValue(s[..|s| - 1]) + DigitValue(s[|s| - 1])
  }

  /** `str(n)`: the shortest decimal numeral of n. */
  function DecimalString(n: nat): (s: string)
    ensures IsDecimal(s)
    decreases n
  {
    if n < 10 then [DigitChar(n)] else DecimalString(n / 10) + [DigitChar(n % 10)]
  }

  /** `str(n)` is read back by `int(_, 10)`, has no leading zero and has at most
      three digits when n is at most 255. */
  lemma {:induction false} DecimalRoundTrip(n: nat)
    ensures DecimalValue(DecimalString(n)) == n
    ensures DecimalString(n)[0] == '0' ==> n == 0 && DecimalString(n) == "0"
    ensures n < 1000 ==> |DecimalString(n)| <= 3
    decreases n
  {
    var s := DecimalString(n);
    if n >= 10 {
      DecimalRoundTrip(n / 10);
      assert s[..|s| - 1] == DecimalString(n / 10);
    }
  }

  predicate IsHexDigit(c: char) { IsDigit(c) || 'a' <= c <= 'f' || 'A' <= c <= 'F' }

  function HexDigitValue(c: char): (d: nat)
    requires IsHexDigit(c)
    ensures d < 16
  {
    if IsDigit(c) then DigitValue(c)
    else if 'a' <= c <= 'f' then (c - 'a') as nat + 10
    else (c - 'A') as nat + 10
  }

  /** `int(s, 16)` of a run of hexadecimal digits. */
  function HexValue(s: string): (v: nat)
    requires forall i :: 0 <= i < |s| ==> IsHexDigit(s[i])
    decreases |s|
  {
    if s == [] then 0 else 16 * HexValue(s[..|s| - 1]) + HexDigitValue(s[|s| - 1])
  }

  /** The value of at most four hexadecimal digits fits in 16 bits. */
  lemma {:induction false} HexValueBound(s: string)
    requires forall i :: 0 <= i < |s| ==> IsHexDigit(s[i])
    ensures HexValue(s) < Pow16(|s|)
    ensures |s| <= 4 ==> HexValue(s) < 65536
    decreases |s|
  {
    if s != [] { HexValueBound(s[..|s| - 1]); }
    if |s| == 4 {
    } else if |s| == 3 {
      assert Pow16(3) == 4096;
    } else if |s| == 2 {
      assert Pow16(2) == 256;
    }
  }

  function Pow16(k: nat): (p: nat)
    ensures p >= 1
  {
    if k == 0 then 1 else 16 * Pow16(k - 1)
  }

  function HexDigitChar(d: nat): (c: char)
    requires d < 16
    ensures IsHexDigit(c) && HexDigitValue(c) == d
  {
    if d < 10 then DigitChar(d) else ('a' as int + d - 10) as char
  }

  /** `'%x' % n`: the shortest lower-case hexadecimal numeral of n. */
  function HexString(n: nat): (s: string)
    ensures s != [] && forall i :: 0 <= i < |s| ==> IsHexDigit(s[i])
    decreases n
  {
    if n < 16 then [HexDigitChar(n)] else HexString(n / 16) + [HexDigitChar(n % 16)]
  }

  /** `'%x' % n` is read back by `int(_, 16)`, with at most four digits below 65536. */
  lemma {:induction false} HexRoundTrip(n: nat)
    ensures HexValue(HexString(n)) == n
    ensures n < 16 ==> |HexString(n)| == 1
    ensures n < 256 ==> |HexString(n)| <= 2
    ensures n < 4096 ==> |HexString(n)| <= 3
    ensures n < 65536 ==> |HexString(n)| <= 4
    decreases n
  {
    var s := HexString(n);
    if n >= 16 {
      HexRoundTrip(n / 16);
      assert s[..|s| - 1] == HexString(n / 16);
    }
  }
}
