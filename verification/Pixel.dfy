/** Signed pixel URLs: how /vast prints them, how /track reads them back, and what a valid signature proves. */
module Pixel {
  import opened Options
  import opened Events
  import opened Text

  // --- Signing ------------------------------------------------------------------------------------

  /** mac stands for HMAC-SHA256 (RFC 2104, section 2) under the signer's key; times are in milliseconds. */
  datatype Signer = Signer(mac: string -> seq<byte>, ttl: int)

  /** The assumption on the MAC: different messages have different codes. */
  ghost predicate Unforgeable(mac: string -> seq<byte>) {
    && (forall m, n :: mac(m) == mac(n) ==> m == n)
    && (forall m :: mac(m) != [])
  }

  function NewSigner(mac: string -> seq<byte>, ttl: int): (s: Signer)
    ensures s.mac == mac && (ttl > 0 ==> s.ttl == ttl) && (ttl <= 0 ==> s.ttl == 24 * 60 * 60 * 1000)
  {
    Signer(mac, if ttl <= 0 then 86_400_000 else ttl)
  }

  /** The canonical message "{adID}|{impID}|{event}|{exp}". */
  function Message(ad: string, imp: string, event: string, exp: int): (m: string) {
    ad + "|" + imp + "|" + event + "|" + FormatInt(exp)
  }

  function Compute(s: Signer, ad: string, imp: string, event: string, exp: int): (sig: string) {
    HexEncode(s.mac(Message(ad, imp, event, exp)))
  }

  function ExpiryOf(s: Signer, now: int): (exp: int) {
    (now + s.ttl) / 1000
  }

  datatype Verdict = Accepted | MalformedExpiry | MalformedSig | SignatureMismatch | Expired

  /** now is in seconds. */
  function Verify(s: Signer, ad: string, imp: string, event: string, sig: string, exp: int, now: int): (v: Verdict) {
    if exp <= 0 then MalformedExpiry
    else
      var want := HexDecode(Compute(s, ad, imp, event, exp));
      match HexDecode(sig)
      case None => MalformedSig
      case Some(got) =>
        if want != Some(got) then SignatureMismatch
        else if exp < now then Expired
        else Accepted
  }

  /** The verdicts, in the order of the checks: the expiry's form, the signature's form, the signature, the clock. */
  lemma VerdictExact(s: Signer, ad: string, imp: string, event: string, sig: string, exp: int, now: int)
    ensures var v, code := Verify(s, ad, imp, event, sig, exp, now), s.mac(Message(ad, imp, event, exp));
            && (v == MalformedExpiry <==> exp <= 0)
            && (v == MalformedSig <==> exp > 0 && HexDecode(sig) == None)
            && (v == SignatureMismatch <==> exp > 0 && HexDecode(sig) != None && HexDecode(sig) != Some(code))
            && (v == Expired <==> exp > 0 && HexDecode(sig) == Some(code) && now > exp)
            && (v == Accepted <==> exp > 0 && HexDecode(sig) == Some(code) && now <= exp)
  {
    HexRoundTrip(s.mac(Message(ad, imp, event, exp)));
  }

  lemma EventHasNoBar(ev: Event)
    ensures '|' !in ev.Name()
  {
  }

  /** Two parts free of the separator leave room for no third. */
  lemma CutOnce(a: string, b: string, x: string, y: string, c: char)
    requires a + [c] + b == x + [c] + y && c !in a && c !in b
    ensures a == x && b == y
  {
    var s, t := a + [c] + b, x + [c] + y;
    assert t[|x|] == c && s[|a|] == c;
    assert forall i | 0 <= i < |a| :: s[i] == a[i];
    assert forall i | |a| < i < |s| :: s[i] == b[i - |a| - 1];
    assert |x| == |a|;
    assert x == t[..|a|] && a == s[..|a|];
    assert y == t[|a| + 1..] && b == s[|a| + 1..];
  }

  /** The message binds the whole tuple: a second reading of a minted message, with any ids but a tracked event, is
      the minted tuple itself. */
  lemma MessageBinds(ad: string, imp: string, ev: Event, exp: int, ad': string, imp': string, ev': Event, exp': int)
    requires '|' !in ad && '|' !in imp
    requires Message(ad, imp, ev.Name(), exp) == Message(ad', imp', ev'.Name(), exp')
    ensures ad == ad' && imp == imp' && ev == ev' && exp == exp'
  {
    var h, h' := ad + "|" + imp, ad' + "|" + imp';
    CutLast(h + "|" + ev.Name(), FormatInt(exp), h' + "|" + ev'.Name(), FormatInt(exp'), '|');
    EventHasNoBar(ev);
    EventHasNoBar(ev');
    CutLast(h, ev.Name(), h', ev'.Name(), '|');
    CutOnce(ad, imp, ad', imp', '|');
    NamesDistinct(ev, ev');
    FormatIntInjective(exp, exp');
  }

  // --- Reading a unix time ------------------------------------------------------------------------

  const MAX_UNIX := 0x4000_0000_0000_0000

  /** int64 arithmetic wraps around. */
  function Wrap64(n: int): (m: int)
    ensures -0x8000_0000_0000_0000 <= m < 0x8000_0000_0000_0000
    ensures -0x8000_0000_0000_0000 <= n < 0x8000_0000_0000_0000 ==> m == n
    ensures (m - n) % 0x1_0000_0000_0000_0000 == 0
  {
    (n + 0x8000_0000_0000_0000) % 0x1_0000_0000_0000_0000 - 0x8000_0000_0000_0000
  }

  /** What the loop returns when it stands at n with s to go. */
  function ParseFrom(n: int, s: string): (r: int)
    requires n <= MAX_UNIX
    ensures r <= MAX_UNIX
    decreases |s|
  {
    if s == "" then n
    else if !IsDigit(s[0]) then 0
    else
      var m := Wrap64(n * 10 + DigitOf(s[0]));
      if m > MAX_UNIX then 0 else ParseFrom(m, s[1..])
  }

  method ParseUnix(s: string) returns (n: int)
    ensures n == ParseFrom(0, s)
  {
    n := 0;
    for i := 0 to |s|
      invariant n <= MAX_UNIX && ParseFrom(n, s[i..]) == ParseFrom(0, s)
    {
      assert s[i..][0] == s[i] && s[i..][1..] == s[i + 1..];
      if s[i] < '0' || s[i] > '9' {
        return 0;
      }
      n := Wrap64(n * 10 + DigitOf(s[i]));
      if n > MAX_UNIX {
        return 0;
      }
    }
  }

  lemma {:induction false} ValueGrows(p: string, s: string)
    requires AllDigits(p) && AllDigits(s)
    ensures AllDigits(p + s) && Value(p) <= Value(p + s)
  {
    if s == "" {
      assert p + s == p;
    } else {
      var n := |s| - 1;
      ValueGrows(p, s[..n]);
      assert (p + s)[..|p + s| - 1] == p + s[..n];
    }
  }

  lemma {:induction false} RejectsText(n: int, s: string)
    requires n <= MAX_UNIX && !AllDigits(s)
    ensures ParseFrom(n, s) == 0
    decreases |s|
  {
    if IsDigit(s[0]) && Wrap64(n * 10 + DigitOf(s[0])) <= MAX_UNIX {
      assert s == [s[0]] + s[1..];
      RejectsText(Wrap64(n * 10 + DigitOf(s[0])), s[1..]);
    }
  }

  lemma WrapStep(v: int, d: int)
    ensures Wrap64(Wrap64(v) * 10 + d) == Wrap64(v * 10 + d)
  {
    var k := (Wrap64(v) - v) / 0x1_0000_0000_0000_0000;
    assert Wrap64(v) * 10 + d == v * 10 + d + 10 * k * 0x1_0000_0000_0000_0000;
    WrapShift(v * 10 + d, 10 * k);
  }

  lemma WrapShift(n: int, k: int)
    ensures Wrap64(n + k * 0x1_0000_0000_0000_0000) == Wrap64(n)
  {
  }

  /** No prefix of p + q from p on, wrapped, exceeds the limit. */
  ghost predicate Stays(p: string, q: string)
    requires AllDigits(p) && AllDigits(q)
    decreases |q|
  {
    Wrap64(Value(p)) <= MAX_UNIX && (q == "" || Stays(p + [q[0]], q[1..]))
  }

  lemma {:induction false} ParsesOn(p: string, q: string)
    requires AllDigits(p) && AllDigits(q) && Wrap64(Value(p)) <= MAX_UNIX
    ensures AllDigits(p + q) && ParseFrom(Wrap64(Value(p)), q) == if Stays(p, q) then Wrap64(Value(p + q)) else 0
    decreases |q|
  {
    ValueGrows(p, q);
    if q == "" {
      assert p + q == p;
    } else {
      var p' := p + [q[0]];
      assert p'[..|p|] == p && p' + q[1..] == p + q;
      WrapStep(Value(p), DigitOf(q[0]));
      if Wrap64(Value(p')) <= MAX_UNIX {
        ParsesOn(p', q[1..]);
      }
    }
  }

  lemma {:induction false} StaysExact(s: string, m: nat)
    requires AllDigits(s) && m <= |s|
    ensures Stays(s[..m], s[m..]) <==> forall n | m <= n <= |s| :: Wrap64(Value(s[..n])) <= MAX_UNIX
    decreases |s| - m
  {
    if m < |s| {
      assert s[..m] + [s[m..][0]] == s[..m + 1] && s[m..][1..] == s[m + 1..];
      StaysExact(s, m + 1);
    }
  }

  /** Every number, however long: it is read as its value modulo 2^64 if no prefix of it, wrapped that way, exceeds
      2^62, and as 0 otherwise. */
  lemma ParseUnixAllNumbers(s: string)
    requires AllDigits(s)
    ensures ParseFrom(0, s) ==
            if forall n | 0 <= n <= |s| :: Wrap64(Value(s[..n])) <= 0x4000_0000_0000_0000 then Wrap64(Value(s)) else 0
  {
    ParsesOn("", s);
    StaysExact(s, 0);
    assert "" + s == s && s[..0] == "" && s[0..] == s;
  }

  /** Text that is no number reads as zero; a number is read correctly exactly up to 2^62. */
  lemma ParseUnixExact(s: string)
    ensures !AllDigits(s) ==> ParseFrom(0, s) == 0
    ensures AllDigits(s) ==> (ParseFrom(0, s) == Value(s) <==> Value(s) <= 0x4000_0000_0000_0000)
  {
    if !AllDigits(s) {
      RejectsText(0, s);
    } else if Value(s) <= MAX_UNIX {
      PrefixesFit(s);
      ParseUnixAllNumbers(s);
    }
  }

  lemma PrefixesFit(s: string)
    requires AllDigits(s) && Value(s) <= MAX_UNIX
    ensures forall n | 0 <= n <= |s| :: Wrap64(Value(s[..n])) <= MAX_UNIX
  {
    forall n | 0 <= n <= |s| ensures Wrap64(Value(s[..n])) <= MAX_UNIX {
      PrefixSmaller(s, n);
      Fits(Value(s[..n]));
    }
  }

  lemma PrefixSmaller(s: string, n: nat)
    requires AllDigits(s) && n <= |s|
    ensures AllDigits(s[..n]) && Value(s[..n]) <= Value(s)
  {
    assert s[..n] + s[n..] == s;
    ValueGrows(s[..n], s[n..]);
  }

  lemma Fits(v: nat)
    requires v <= MAX_UNIX
    ensures Wrap64(v) == v
  {
  }

  /** One digit too many: the product wraps around, and passes whenever it lands within the limit. */
  lemma ParseUnixOverflow(n: nat, d: nat)
    requires d < 10 && n <= MAX_UNIX < 10 * n + d
    ensures var m := Wrap64(10 * n + d);
            ParseFrom(0, Decimal(10 * n + d)) == if m > MAX_UNIX then 0 else m
  {
    var p := Decimal(n);
    var s := Decimal(10 * n + d);
    assert (10 * n + d) / 10 == n && (10 * n + d) % 10 == d;
    assert s == p + [DigitChar(d)];
    PrefixesFit(p);
    ParseUnixAllNumbers(s);
    forall i | 0 <= i < |s| ensures s[..i] == p[..i] {
    }
    assert s[..|s|] == s;
  }

  /** So larger numbers are not always refused. */
  lemma ParseUnixWraps() returns (s: string)
    ensures AllDigits(s) && Value(s) == 20_000_000_000_000_000_000
    ensures ParseFrom(0, s) == 1_553_255_926_290_448_384
  {
    s := Overflowing(2_000_000_000_000_000_000, 1_553_255_926_290_448_384);
  }

  lemma Overflowing(n: nat, m: int) returns (s: string)
    requires n <= MAX_UNIX < 10 * n && m == Wrap64(10 * n) <= MAX_UNIX
    ensures AllDigits(s) && Value(s) == 10 * n && ParseFrom(0, s) == m
  {
    s := Decimal(10 * n);
    ParseUnixOverflow(n, 0);
  }

  // --- URLs ---------------------------------------------------------------------------------------

  function Pair(k: string, v: string): (p: string) {
    k + "=" + v
  }

  /** The five parameters, as printed. */
  function Query(event: string, ad: string, imp: string, exp: string, sig: string): (q: string) {
    Pair("event", event) + "&" + (Pair("ad_id", ad) + "&" + (Pair("imp_id", imp) + "&" +
    (Pair("exp", exp) + "&" + Pair("sig", sig))))
  }

  /** signedTrackingURL */
  function SignedTrackingURL(base: string, s: Signer, ad: string, imp: string, event: string, now: int): (url: string) {
    var exp := ExpiryOf(s, now);
    base + "/track?" + Query(event, ad, imp, FormatInt(exp), Compute(s, ad, imp, event, exp))
  }

  /** The query of a URL: after the first '?', before any '#'. */
  function QueryOf(url: string): (q: string) {
    Cut(Cut(url, '#').0, '?').1
  }

  function Unescape(s: string): (r: Option<string>) {
    if s == "" then Some("")
    else if s[0] == '%' then
      if |s| < 3 then None
      else
        match (HexDigit(s[1]), HexDigit(s[2]), Unescape(s[3..]))
        case (Some(h), Some(l), Some(rest)) => Some([(16 * h + l) as char] + rest)
        case _ => None
    else
      match Unescape(s[1..])
      case None => None
      case Some(rest) => Some([if s[0] == '+' then ' ' else s[0]] + rest)
  }

  /** One key=value pair; a pair with a semicolon, an empty one and a badly escaped one are dropped. */
  function ParsePair(pair: string): (r: Option<(string, string)>) {
    if ';' in pair || pair == "" then None
    else
      var c := Cut(pair, '=');
      match (Unescape(c.0), Unescape(c.1))
      case (Some(k), Some(v)) => Some((k, v))
      case _ => None
  }

  /** Two hexadecimal digits after a percent sign are one character, a plus sign is a blank, a stray percent sign spoils
      the text, and every other character stands for itself. */
  lemma UnescapeRules(c: char, h: char, l: char, rest: string)
    requires Unescape(rest).Some?
    ensures HexDigit(h).Some? && HexDigit(l).Some? ==>
              Unescape(['%', h, l] + rest) ==
              Some([(16 * HexDigit(h).value + HexDigit(l).value) as char] + Unescape(rest).value)
    ensures HexDigit(h) == None || HexDigit(l) == None ==> Unescape(['%', h, l] + rest) == None
    ensures Unescape("%") == None && Unescape(['%', h]) == None
    ensures Unescape(['+'] + rest) == Some([' '] + Unescape(rest).value)
    ensures c != '%' && c != '+' ==> Unescape([c] + rest) == Some([c] + Unescape(rest).value)
  {
    assert (['%', h, l] + rest)[3..] == rest && (['+'] + rest)[1..] == rest && ([c] + rest)[1..] == rest;
  }

  function ParseQuery(q: string): (params: seq<(string, string)>)
    decreases |q|
  {
    if q == "" then []
    else
      var c := Cut(q, '&');
      match ParsePair(c.0)
      case None => ParseQuery(c.1)
      case Some(p) => [p] + ParseQuery(c.1)
  }

  /** The first value of a key, or "". */
  function Get(params: seq<(string, string)>, key: string): (v: string) {
    if params == [] then ""
    else if params[0].0 == key then params[0].1
    else Get(params[1..], key)
  }

  /** The first value of a key; "" for a key that does not occur. */
  lemma {:induction false} GetExact(params: seq<(string, string)>, key: string)
    ensures (forall i | 0 <= i < |params| :: params[i].0 != key) ==> Get(params, key) == ""
    ensures forall i | 0 <= i < |params| && params[i].0 == key && (forall j | 0 <= j < i :: params[j].0 != key) ::
              Get(params, key) == params[i].1
  {
    if params != [] && params[0].0 != key {
      GetExact(params[1..], key);
      forall i | 0 <= i < |params| && params[i].0 == key && (forall j | 0 <= j < i :: params[j].0 != key)
        ensures Get(params, key) == params[i].1
      {
        assert params[1..][i - 1] == params[i];
        assert forall j | 0 <= j < i - 1 :: params[1..][j].0 != key;
      }
    }
  }

  lemma QueryText(event: string, ad: string, imp: string, exp: string, sig: string)
    ensures Query(event, ad, imp, exp, sig) ==
            "event=" + event + "&" + ("ad_id=" + ad + "&" + ("imp_id=" + imp + "&" +
            ("exp=" + exp + "&" + ("sig=" + sig))))
  {
    assert "event" + "=" == "event=" && "ad_id" + "=" == "ad_id=" && "imp_id" + "=" == "imp_id=";
    assert "exp" + "=" == "exp=" && "sig" + "=" == "sig=";
  }

  /** The printed URL and the signed message, piece by piece. */
  lemma UrlText(base: string, s: Signer, ad: string, imp: string, ev: Event, now: int)
    ensures var exp := FormatInt((now + s.ttl) / 1000);
            var sig := HexEncode(s.mac(ad + "|" + imp + "|" + ev.Name() + "|" + exp));
            SignedTrackingURL(base, s, ad, imp, ev.Name(), now) ==
            base + "/track?" +
            ("event=" + ev.Name() + "&" + ("ad_id=" + ad + "&" + ("imp_id=" + imp + "&" +
            ("exp=" + exp + "&" + ("sig=" + sig)))))
  {
    var exp := (now + s.ttl) / 1000;
    QueryText(ev.Name(), ad, imp, FormatInt(exp), Compute(s, ad, imp, ev.Name(), exp));
  }

  /** Characters that stand for themselves in a query and end nothing. */
  predicate Plain(s: string) {
    forall c <- s :: 'a' <= c <= 'z' || 'A' <= c <= 'Z' || '0' <= c <= '9' || c == '-' || c == '_'
  }

  lemma {:induction false} PlainUnescapes(s: string)
    requires Plain(s)
    ensures Unescape(s) == Some(s)
  {
    if s != "" {
      assert s[0] in s && forall c <- s[1..] :: c in s;
      PlainUnescapes(s[1..]);
      assert [s[0]] + s[1..] == s;
    }
  }

  lemma PairParses(k: string, v: string)
    requires Plain(k) && Plain(v)
    ensures ParsePair(Pair(k, v)) == Some((k, v))
  {
    CutAt(k, v, '=');
    PlainUnescapes(k);
    PlainUnescapes(v);
  }

  lemma PairClean(k: string, v: string)
    requires Plain(k) && Plain(v)
    ensures '&' !in Pair(k, v) && '#' !in Pair(k, v) && Pair(k, v) != ""
  {
  }

  lemma FirstPair(k: string, v: string, rest: string)
    requires Plain(k) && Plain(v)
    ensures ParseQuery(Pair(k, v) + "&" + rest) == [(k, v)] + ParseQuery(rest)
  {
    PairClean(k, v);
    CutAt(Pair(k, v), rest, '&');
    PairParses(k, v);
  }

  lemma LastPair(k: string, v: string)
    requires Plain(k) && Plain(v)
    ensures ParseQuery(Pair(k, v)) == [(k, v)]
  {
    PairClean(k, v);
    CutNowhere(Pair(k, v), '&');
    PairParses(k, v);
    assert ParseQuery("") == [];
  }

  lemma LastPairs(imp: string, exp: string, sig: string)
    requires Plain(imp) && Plain(exp) && Plain(sig)
    ensures ParseQuery(Pair("imp_id", imp) + "&" + (Pair("exp", exp) + "&" + Pair("sig", sig))) ==
            [("imp_id", imp), ("exp", exp), ("sig", sig)]
  {
    var q4 := Pair("sig", sig);
    FirstPair("imp_id", imp, Pair("exp", exp) + "&" + q4);
    FirstPair("exp", exp, q4);
    LastPair("sig", sig);
  }

  lemma QueryParses(event: string, ad: string, imp: string, exp: string, sig: string)
    requires Plain(event) && Plain(ad) && Plain(imp) && Plain(exp) && Plain(sig)
    ensures ParseQuery(Query(event, ad, imp, exp, sig)) ==
            [("event", event), ("ad_id", ad), ("imp_id", imp), ("exp", exp), ("sig", sig)]
  {
    var q2 := Pair("imp_id", imp) + "&" + (Pair("exp", exp) + "&" + Pair("sig", sig));
    FirstPair("event", event, Pair("ad_id", ad) + "&" + q2);
    FirstPair("ad_id", ad, q2);
    LastPairs(imp, exp, sig);
  }

  lemma QueryHasNoHash(event: string, ad: string, imp: string, exp: string, sig: string)
    requires Plain(event) && Plain(ad) && Plain(imp) && Plain(exp) && Plain(sig)
    ensures '#' !in Query(event, ad, imp, exp, sig)
  {
  }

  lemma QueryOfUrl(base: string, q: string)
    requires '?' !in base && '#' !in base && '#' !in q
    ensures QueryOf(base + "/track?" + q) == q
  {
    var path := base + "/track";
    assert base + "/track?" + q == path + "?" + q;
    CutNowhere(path + "?" + q, '#');
    CutAt(path, q, '?');
  }

  // --- What /track reads --------------------------------------------------------------------------

  datatype Fields = Fields(event: string, ad: string, imp: string, exp: int, sig: string)

  /** The parameters ServeTrack works with. */
  function ReadFields(query: string): (f: Fields) {
    var q := ParseQuery(query);
    Fields(Get(q, "event"), Get(q, "ad_id"), Get(q, "imp_id"), ParseFrom(0, Get(q, "exp")), Get(q, "sig"))
  }

  /** ServeTrack's first check, for a tracked event. */
  predicate Complete(f: Fields) {
    f.ad != "" && f.imp != "" && f.sig != "" && f.exp != 0
  }

  predicate Passes(s: Signer, f: Fields, now: int) {
    Complete(f) && Verify(s, f.ad, f.imp, f.event, f.sig, f.exp, now) == Accepted
  }

  /** A request passes exactly if nothing is missing, its signature is that of its tuple, and it is in time. */
  lemma PassesExact(s: Signer, f: Fields, now: int)
    ensures Passes(s, f, now) <==>
            && f.ad != "" && f.imp != "" && f.sig != "" && f.exp > 0 && now <= f.exp
            && HexDecode(f.sig) == Some(s.mac(Message(f.ad, f.imp, f.event, f.exp)))
  {
    VerdictExact(s, f.ad, f.imp, f.event, f.sig, f.exp, now);
  }

  lemma DecimalPlain(n: nat)
    ensures Plain(Decimal(n)) && ParseFrom(0, Decimal(n)) == (if n <= MAX_UNIX then n else ParseFrom(0, Decimal(n)))
  {
    ParseUnixExact(Decimal(n));
  }

  lemma EventPlain(ev: Event)
    ensures Plain(ev.Name()) && ev.Name() != ""
  {
  }

  /** A minted URL is read back as the tuple that was printed. */
  lemma UrlRoundTrip(base: string, s: Signer, ad: string, imp: string, ev: Event, now: int)
    requires '?' !in base && '#' !in base && Plain(ad) && Plain(imp)
    requires 0 < ExpiryOf(s, now) <= MAX_UNIX
    ensures var exp := ExpiryOf(s, now);
            ReadFields(QueryOf(SignedTrackingURL(base, s, ad, imp, ev.Name(), now))) ==
            Fields(ev.Name(), ad, imp, exp, Compute(s, ad, imp, ev.Name(), exp))
  {
    var exp := ExpiryOf(s, now);
    var sig := Compute(s, ad, imp, ev.Name(), exp);
    var q := Query(ev.Name(), ad, imp, FormatInt(exp), sig);
    EventPlain(ev);
    DecimalPlain(exp);
    HexPlain(s.mac(Message(ad, imp, ev.Name(), exp)));
    QueryHasNoHash(ev.Name(), ad, imp, FormatInt(exp), sig);
    QueryOfUrl(base, q);
    QueryParses(ev.Name(), ad, imp, FormatInt(exp), sig);
    GetsAll(ev.Name(), ad, imp, FormatInt(exp), sig);
  }

  lemma HexPlain(bytes: seq<byte>)
    ensures Plain(HexEncode(bytes))
  {
  }

  lemma GetsAll(event: string, ad: string, imp: string, exp: string, sig: string)
    ensures var p := [("event", event), ("ad_id", ad), ("imp_id", imp), ("exp", exp), ("sig", sig)];
            Get(p, "event") == event && Get(p, "ad_id") == ad && Get(p, "imp_id") == imp
            && Get(p, "exp") == exp && Get(p, "sig") == sig
  {
    var p := [("event", event), ("ad_id", ad), ("imp_id", imp), ("exp", exp), ("sig", sig)];
    assert p[1..][1..] == p[2..] && p[2..][1..] == p[3..] && p[3..][1..] == p[4..];
    assert Get(p, "ad_id") == Get(p[1..], "ad_id");
    assert Get(p, "imp_id") == Get(p[1..], "imp_id") == Get(p[2..], "imp_id");
    assert Get(p, "exp") == Get(p[1..], "exp") == Get(p[2..], "exp") == Get(p[3..], "exp");
    assert Get(p, "sig") == Get(p[1..], "sig") == Get(p[2..], "sig") == Get(p[3..], "sig") == Get(p[4..], "sig");
  }

  /** A minted URL passes exactly until its last valid second is over. */
  lemma MintedPassesUntilExpiry(base: string, s: Signer, ad: string, imp: string, ev: Event, now: int, later: int)
    requires '?' !in base && '#' !in base && Plain(ad) && Plain(imp) && ad != "" && imp != ""
    requires 0 < ExpiryOf(s, now) <= MAX_UNIX && Unforgeable(s.mac)
    ensures Passes(s, ReadFields(QueryOf(SignedTrackingURL(base, s, ad, imp, ev.Name(), now))), later)
            <==> later <= (now + s.ttl) / 1000
  {
    UrlRoundTrip(base, s, ad, imp, ev, now);
    var m := Message(ad, imp, ev.Name(), ExpiryOf(s, now));
    HexRoundTrip(s.mac(m));
    HexChars(s.mac(m));
  }

  /** A signature speaks for one tuple: whatever request passes with the signature of a minted pixel, in whatever
      spelling, carries exactly that pixel's ad, impression, event and expiry, and is in time. */
  lemma SignatureBinds(s: Signer, ad: string, imp: string, ev: Event, exp: int, f: Fields, ev': Event, now: int)
    requires Unforgeable(s.mac) && '|' !in ad && '|' !in imp
    requires f.event == ev'.Name() && Passes(s, f, now)
    requires HexDecode(f.sig) == HexDecode(Compute(s, ad, imp, ev.Name(), exp))
    ensures f.ad == ad && f.imp == imp && ev' == ev && f.exp == exp && now <= exp
  {
    HexRoundTrip(s.mac(Message(ad, imp, ev.Name(), exp)));
    HexRoundTrip(s.mac(Message(f.ad, f.imp, f.event, f.exp)));
    MessageBinds(ad, imp, ev, exp, f.ad, f.imp, ev', f.exp);
  }
}
