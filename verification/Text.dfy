/** Strings cut at separators, decimal numbers and hexadecimal bytes. */
module Text {
  import opened Options

  // --- Separators ---------------------------------------------------------------------------------

  /** Cut at the first separator: the parts are determined when the left ones are free of it. */
  lemma CutFirst(a: string, x: string, b: string, y: string, c: char)
    requires a + [c] + x == b + [c] + y && c !in a && c !in b
    ensures a == b && x == y
  {
    var s := a + [c] + x;
    assert s[|a|] == c && (b + [c] + y)[|b|] == c;
    assert forall i | 0 <= i < |a| :: s[i] == a[i];
    assert forall i | 0 <= i < |b| :: (b + [c] + y)[i] == b[i];
    assert |a| == |b|;
    assert a == s[..|a|] && b == s[..|b|];
    assert x == s[|a| + 1..] && y == s[|b| + 1..];
  }

  /** Cut at the last separator: the parts are determined when the right ones are free of it. */
  lemma CutLast(x: string, a: string, y: string, b: string, c: char)
    requires x + [c] + a == y + [c] + b && c !in a && c !in b
    ensures x == y && a == b
  {
    var s, t := x + [c] + a, y + [c] + b;
    assert s[|x|] == c && t[|y|] == c;
    assert forall i | |x| < i < |s| :: s[i] == a[i - |x| - 1];
    assert forall i | |y| < i < |t| :: t[i] == b[i - |y| - 1];
    assert |x| == |y|;
    assert x == s[..|x|] && y == t[..|y|];
    assert a == s[|x| + 1..] && b == t[|y| + 1..];
  }

  /** The part before the first c, the part after it, and whether there is one. */
  function Cut(s: string, c: char): (r: (string, string, bool))
    ensures c !in r.0
    ensures if r.2 then s == r.0 + [c] + r.1 else s == r.0 && r.1 == ""
  {
    if s == "" then ("", "", false)
    else if s[0] == c then ("", s[1..], true)
    else
      var r := Cut(s[1..], c);
      ([s[0]] + r.0, r.1, r.2)
  }

  lemma CutAt(a: string, x: string, c: char)
    requires c !in a
    ensures Cut(a + [c] + x, c) == (a, x, true)
  {
    var r := Cut(a + [c] + x, c);
    assert c in a + [c] + x by { assert (a + [c] + x)[|a|] == c; }
    CutFirst(a, x, r.0, r.1, c);
  }

  lemma CutNowhere(s: string, c: char)
    requires c !in s
    ensures Cut(s, c) == (s, "", false)
  {
  }

  // --- Decimal numbers ----------------------------------------------------------------------------

  predicate IsDigit(c: char) {
    '0' <= c <= '9'
  }

  function DigitOf(c: char): (d: nat)
    requires IsDigit(c)
    ensures d < 10
  {
    c as int - '0' as int
  }

  function DigitChar(d: nat): (c: char)
    requires d < 10
    ensures IsDigit(c) && DigitOf(c) == d
  {
    ('0' as int + d) as char
  }

  predicate AllDigits(s: string) {
    forall c <- s :: IsDigit(c)
  }

  /** The number a string of digits denotes, leading zeros allowed. */
  function Value(s: string): (n: nat)
    requires AllDigits(s)
  {
    if s == "" then 0 else 10 * Value(s[..|s| - 1]) + DigitOf(s[|s| - 1])
  }

  function Decimal(n: nat): (s: string)
    ensures s != "" && AllDigits(s) && Value(s) == n
  {
    if n < 10 then
      assert [DigitChar(n)][..0] == "";
      [DigitChar(n)]
    else
      var rest := Decimal(n / 10);
      var s := rest + [DigitChar(n % 10)];
      assert s[..|s| - 1] == rest;
      s
  }

  /** strconv.FormatInt in base 10. */
  function FormatInt(n: int): (s: string)
    ensures s != "" && forall c <- s :: IsDigit(c) || c == '-'
  {
    if n < 0 then "-" + Decimal(-n) else Decimal(n)
  }

  lemma FormatIntInjective(m: int, n: int)
    requires FormatInt(m) == FormatInt(n)
    ensures m == n
  {
    assert m < 0 <==> FormatInt(m)[0] == '-' by { if m >= 0 { assert Decimal(m)[0] in Decimal(m); } }
    assert n < 0 <==> FormatInt(n)[0] == '-' by { if n >= 0 { assert Decimal(n)[0] in Decimal(n); } }
    if m < 0 {
      assert Decimal(-m) == FormatInt(m)[1..] == FormatInt(n)[1..] == Decimal(-n);
    }
  }

  // --- Hexadecimal --------------------------------------------------------------------------------

  type byte = b: int | 0 <= b < 256

  function HexChar(d: nat): (c: char)
    requires d < 16
  {
    "0123456789abcdef"[d]
  }

  /** Either case is read, lower case is written. */
  function HexDigit(c: char): (d: Option<nat>)
    ensures d.Some? ==> d.value < 16
  {
    if '0' <= c <= '9' then Some(c as int - '0' as int)
    else if 'a' <= c <= 'f' then Some(c as int - 'a' as int + 10)
    else if 'A' <= c <= 'F' then Some(c as int - 'A' as int + 10)
    else None
  }

  function HexEncode(bytes: seq<byte>): (s: string) {
    if bytes == [] then ""
    else [HexChar(bytes[0] / 16), HexChar(bytes[0] % 16)] + HexEncode(bytes[1..])
  }

  function HexDecode(s: string): (r: Option<seq<byte>>) {
    if s == "" then Some([])
    else if |s| == 1 then None
    else
      match (HexDigit(s[0]), HexDigit(s[1]), HexDecode(s[2..]))
      case (Some(h), Some(l), Some(rest)) => Some([16 * h + l] + rest)
      case _ => None
  }

  /** Sixteen digits, in either case, and no other character. */
  lemma HexDigitExact(c: char, d: nat)
    requires d < 16
    ensures HexDigit(c).Some? <==> '0' <= c <= '9' || 'a' <= c <= 'f' || 'A' <= c <= 'F'
    ensures c == "0123456789abcdef"[d] || c == "0123456789ABCDEF"[d] ==> HexDigit(c) == Some(d)
  {
  }

  /** Two digits a byte, the high one first; anything else is malformed. */
  lemma {:induction false} HexDecodeExact(s: string)
    ensures HexDecode(s).Some? <==> |s| % 2 == 0 && forall c <- s :: HexDigit(c).Some?
    ensures HexDecode(s).Some? ==> |HexDecode(s).value| == |s| / 2
    ensures HexDecode(s).Some? ==> forall k | 0 <= k < |s| / 2 ::
              HexDecode(s).value[k] == 16 * HexDigit(s[2 * k]).value + HexDigit(s[2 * k + 1]).value
  {
    if |s| >= 2 {
      HexDecodeExact(s[2..]);
      assert forall c :: c in s <==> c == s[0] || c == s[1] || c in s[2..];
    }
  }

  lemma HexDigitOfChar(d: nat)
    requires d < 16
    ensures HexDigit(HexChar(d)) == Some(d)
  {
  }

  lemma HexPair(b: byte, s: string, bytes: seq<byte>)
    requires HexDecode(s) == Some(bytes)
    ensures HexDecode([HexChar(b / 16), HexChar(b % 16)] + s) == Some([b] + bytes)
  {
    HexDigitOfChar(b / 16);
    HexDigitOfChar(b % 16);
    var t := [HexChar(b / 16), HexChar(b % 16)] + s;
    assert t[2..] == s;
  }

  lemma {:induction false} HexRoundTrip(bytes: seq<byte>)
    ensures HexDecode(HexEncode(bytes)) == Some(bytes)
  {
    if bytes != [] {
      HexRoundTrip(bytes[1..]);
      HexPair(bytes[0], HexEncode(bytes[1..]), bytes[1..]);
      assert [bytes[0]] + bytes[1..] == bytes;
    }
  }

  /** Hexadecimal text holds none of the characters that structure a URL. */
  lemma {:induction false} HexChars(bytes: seq<byte>)
    ensures forall c <- HexEncode(bytes) :: HexDigit(c).Some? && !('A' <= c <= 'F')
    ensures |HexEncode(bytes)| == 2 * |bytes|
  {
    if bytes != [] {
      HexDigitOfChar(bytes[0] / 16);
      HexDigitOfChar(bytes[0] % 16);
      HexChars(bytes[1..]);
    }
  }
}
