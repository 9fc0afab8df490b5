/**
 * Hosts of urls: lower-casing, what Url::normalize makes of a host, and the
 * host that a request reaches. Hosts may hold percent-escapes.
 */
module Hosts {
  import opened Bytes
  import opened UrlEscapes

  function LowerByte(c: Byte): (r: Byte) {
    if 'A' <= c <= 'Z' then c + 32 as char else c
  }

  /** Letter by letter; nothing else changes. */
  lemma LowerLetters(c: Byte, k: nat)
    requires k < 26
    ensures LowerByte("ABCDEFGHIJKLMNOPQRSTUVWXYZ"[k]) == "abcdefghijklmnopqrstuvwxyz"[k]
    ensures c !in "ABCDEFGHIJKLMNOPQRSTUVWXYZ" ==> LowerByte(c) == c
  {
  }

  /** normalize_host: ASCII letters become lower case. */
  function Lower(h: Text): (r: Text)
    ensures |r| == |h| && forall k :: 0 <= k < |h| ==> r[k] == LowerByte(h[k])
  {
    seq(|h|, k requires 0 <= k < |h| => LowerByte(h[k]))
  }

  /** The host after Url::normalize: letters are lowered first, escapes decoded afterwards. */
  function NormalHost(h: Text): (r: Text) {
    NormalizeEscapes(Lower(h))
  }

  /** Names are looked up regardless of case. */
  function NetworkHost(h: Text): (r: Text) {
    Lower(NormalHost(h))
  }

  /** Normalising again changes nothing. */
  predicate Steady(h: Text) {
    NormalHost(NormalHost(h)) == NormalHost(h)
  }

  /** The host as Url::host stores it: everything masked in an authority is escaped. */
  predicate Stored(h: Text) {
    Escape(h, AUTH) == h
  }

  // ---------------------------------------------------------------- token by token

  function LowerToken(t: Token): (r: Token) {
    match t
    case Lit(c) => Lit(LowerByte(c))
    case Esc(h, l) => Esc(LowerByte(h), LowerByte(l))
  }

  function HostToken(t: Token): (r: Token) {
    UpperToken(SafeToken(LowerToken(t)))
  }

  /** An escape of an upper-case letter, which lower-casing does not see. */
  predicate UpperEscape(t: Token) {
    t.Esc? && 'A' <= Meaning(t) <= 'Z'
  }

  lemma {:induction false} LowerTokens(s: Text)
    ensures Tokens(Lower(s)) == Map(LowerToken, Tokens(s))
  {
    if s != [] {
      var n := if EscapeAt(s) then 3 else 1;
      LowerTokens(s[n..]);
      assert Lower(s)[n..] == Lower(s[n..]);
      assert EscapeAt(Lower(s)) <==> EscapeAt(s);
    }
  }

  lemma LowerKeepsMeaning(t: Token)
    requires t.Esc?
    ensures LowerToken(t).Esc? && Meaning(LowerToken(t)) == Meaning(t)
  {
    assert HexValue(LowerByte(t.h)) == HexValue(t.h) && HexValue(LowerByte(t.l)) == HexValue(t.l);
  }

  lemma PlainLower(ts: seq<Token>)
    requires Lit('%') !in ts
    ensures Lit('%') !in Map(LowerToken, ts) && Lit('%') !in Map(HostToken, ts)
  {
    var a, b := Map(LowerToken, ts), Map(HostToken, ts);
    forall i | 0 <= i < |ts| ensures a[i] != Lit('%') && b[i] != Lit('%') {
      assert ts[i] in ts;
      NotPercent(ts[i]);
    }
  }

  lemma NotPercent(t: Token)
    requires t != Lit('%')
    ensures LowerToken(t) != Lit('%') && HostToken(t) != Lit('%')
  {
    assert !Safe('%');
  }

  /** On a host without stray percent signs normalising works token by token. */
  lemma HostTokens(h: Text)
    requires Lit('%') !in Tokens(h)
    ensures Tokens(NormalHost(h)) == Map(HostToken, Tokens(h)) && Lit('%') !in Tokens(NormalHost(h))
  {
    var ts := Map(LowerToken, Tokens(h));
    LowerTokens(h);
    PlainLower(Tokens(h));
    NoPercentNoJoin(ts);
    NormalizeTokens(Lower(h));
    RereadTokens(ts);
    MapThrice(Tokens(h));
  }

  lemma MapThrice(ts: seq<Token>)
    ensures Map(UpperToken, Map(SafeToken, Map(LowerToken, ts))) == Map(HostToken, ts)
  {
  }

  // ---------------------------------------------------------------- when normalising settles

  lemma HostTokenTwice(t: Token)
    ensures HostToken(HostToken(t)) == HostToken(t) <==> !UpperEscape(t)
  {
    if t.Esc? {
      LowerKeepsMeaning(t);
      SafeMeans(Meaning(t));
      if !Safe(Meaning(t)) {
        UnsafeTwice(t);
      }
    }
  }

  lemma UnsafeTwice(t: Token)
    requires t.Esc? && !Safe(Meaning(t))
    ensures HostToken(HostToken(t)) == HostToken(t)
  {
    LowerKeepsMeaning(t);
    var x := UpperToken(LowerToken(t));
    UpperKeepsMeaning(LowerToken(t));
    LowerKeepsMeaning(x);
    assert UpperToken(LowerToken(x)) == x;
  }

  /** One normalisation is enough exactly when no escape of the host is an upper-case letter. */
  lemma SteadyExactly(h: Text)
    requires WellFormed(h)
    ensures Steady(h) <==> forall t :: t in Tokens(h) ==> !UpperEscape(t)
  {
    var ts := Tokens(h);
    WellFormedTokens(h);
    HostTokens(h);
    HostTokens(NormalHost(h));
    var once, twice := Map(HostToken, ts), Map(HostToken, Map(HostToken, ts));
    forall i | 0 <= i < |ts| ensures twice[i] == once[i] <==> !UpperEscape(ts[i]) {
      HostTokenTwice(ts[i]);
    }
    SameText(NormalHost(NormalHost(h)), NormalHost(h));
    if once == twice {
      forall t | t in ts ensures !UpperEscape(t) {
        var i :| 0 <= i < |ts| && ts[i] == t;
      }
    }
  }

  lemma SameText(a: Text, b: Text)
    ensures a == b <==> Tokens(a) == Tokens(b)
  {
    FlattenTokens(a);
    FlattenTokens(b);
  }

  // ---------------------------------------------------------------- the host a request reaches

  ghost predicate SafeEscapes(h: Text) {
    forall t :: t in Tokens(h) && t.Esc? ==> Safe(Meaning(t))
  }

  lemma HostTokenSafe(t: Token)
    requires t.Esc? ==> Safe(Meaning(t))
    ensures HostToken(t).Lit? && LowerByte(HostToken(t).c) == LowerByte(Meaning(t))
  {
    if t.Esc? {
      LowerKeepsMeaning(t);
    }
  }

  lemma SafeHostDecoded(h: Text)
    requires Lit('%') !in Tokens(h) && SafeEscapes(h)
    ensures NormalHost(h) == Decode(Map(HostToken, Tokens(h)))
  {
    var ts := Tokens(h);
    var ns := Map(HostToken, ts);
    HostTokens(h);
    forall t | t in ns ensures t.Lit? {
      var i :| 0 <= i < |ts| && t == ns[i];
      HostTokenSafe(ts[i]);
    }
    DecodeShort(ns);
    FlattenTokens(NormalHost(h));
  }

  lemma LowerDecoded(ts: seq<Token>)
    requires forall t :: t in ts && t.Esc? ==> Safe(Meaning(t))
    ensures Lower(Decode(Map(HostToken, ts))) == Lower(Decode(ts))
  {
    forall i | 0 <= i < |ts| ensures LowerByte(Meaning(HostToken(ts[i]))) == LowerByte(Meaning(ts[i])) {
      HostTokenSafe(ts[i]);
    }
  }

  /** A host whose escapes all decode reaches the decoded name, in lower case. */
  lemma NetworkHostIs(h: Text)
    requires WellFormed(h) && SafeEscapes(h)
    ensures NetworkHost(h) == Lower(Unescape(h))
  {
    WellFormedTokens(h);
    SafeHostDecoded(h);
    LowerDecoded(Tokens(h));
  }

  function Width(s: Text): (n: nat)
    requires s != []
    ensures n <= |s|
  {
    if EscapeAt(s) then 3 else 1
  }

  function First(s: Text): (t: Token)
    requires s != []
  {
    if EscapeAt(s) then Esc(s[1], s[2]) else Lit(s[0])
  }

  lemma FirstStays(a: Text, b: Text)
    requires a != [] && WellFormed(a)
    ensures First(a + b) == First(a) && Width(a + b) == Width(a) && (a + b)[Width(a)..] == a[Width(a)..] + b
  {
    assert a[0..] == a;
    if EscapeAt(a) {
      assert (a + b)[1..] == a[1..] + b;
    }
  }

  lemma {:induction false} TokensConcat(a: Text, b: Text)
    requires WellFormed(a)
    ensures Tokens(a + b) == Tokens(a) + Tokens(b)
  {
    if a == [] {
      assert a + b == b;
    } else {
      FirstStays(a, b);
      WellFormedRest(a, Width(a));
      TokensConcat(a[Width(a)..], b);
      assert Tokens(a + b) == [First(a)] + Tokens(a[Width(a)..] + b);
      Regroup(First(a), Tokens(a[Width(a)..]), Tokens(b));
    }
  }

  lemma Regroup(t: Token, a: seq<Token>, b: seq<Token>)
    ensures [t] + (a + b) == ([t] + a) + b
  {
  }

  /** The host a, t, b. */
  function Around(a: Text, t: Token, b: Text): (h: Text) {
    a + (Spelled(t) + b)
  }

  /** The tokens of a host with one token in the middle. */
  lemma TokensAround(a: Text, t: Token, b: Text)
    requires WellFormed(a) && t != Lit('%')
    ensures Tokens(Around(a, t, b)) == Tokens(a) + ([t] + Tokens(b))
  {
    TokensConcat(a, Spelled(t) + b);
    var s := Spelled(t) + b;
    match t
    case Lit(c) => assert s[1..] == b;
    case Esc(h, l) => assert s[3..] == b && EscapeAt(s);
  }

  function NetworkToken(t: Token): (r: Token) {
    LowerToken(HostToken(t))
  }

  lemma NetworkTokens(h: Text)
    requires Lit('%') !in Tokens(h)
    ensures Tokens(NetworkHost(h)) == Map(NetworkToken, Tokens(h))
  {
    HostTokens(h);
    LowerTokens(NormalHost(h));
  }

  lemma SwapOne(a: seq<Token>, t: Token, u: Token, b: seq<Token>)
    ensures a + ([u] + b) == (a + ([t] + b))[|a| := u] && (a + ([t] + b))[|a|] == t
  {
  }

  lemma MapSwap(f: Token -> Token, ts: seq<Token>, k: nat, u: Token)
    requires k < |ts| && f(ts[k]) == f(u)
    ensures Map(f, ts[k := u]) == Map(f, ts)
  {
  }

  lemma NetworkTokenSafe(t: Token)
    requires t.Esc? && Safe(Meaning(t))
    ensures Lit(Meaning(t)) != Lit('%') && NetworkToken(t) == NetworkToken(Lit(Meaning(t)))
  {
    HostTokenSafe(t);
    assert !Safe('%');
  }

  /** Spelling a safe byte as an escape does not change the host that is reached, only the host as written. */
  lemma EscapeReachesSame(a: Text, t: Token, b: Text)
    requires WellFormed(a) && WellFormed(b) && t.Esc? && Safe(Meaning(t))
    ensures Around(a, t, b) != Around(a, Lit(Meaning(t)), b)
    ensures NetworkHost(Around(a, t, b)) == NetworkHost(Around(a, Lit(Meaning(t)), b))
  {
    var u: Token := Lit(Meaning(t));
    var x, y := Around(a, t, b), Around(a, u, b);
    assert |x| == |y| + 2;
    WellFormedTokens(a);
    WellFormedTokens(b);
    NetworkTokenSafe(t);
    TokensAround(a, t, b);
    TokensAround(a, u, b);
    NetworkTokens(x);
    NetworkTokens(y);
    SwapOne(Tokens(a), t, u, Tokens(b));
    MapSwap(NetworkToken, Tokens(x), |Tokens(a)|, u);
    SameText(NetworkHost(x), NetworkHost(y));
  }

  /** A host with an escaped upper-case letter is still changed by a second normalisation. */
  lemma UpperNotSteady(a: Text, t: Token, b: Text)
    requires WellFormed(a) && WellFormed(b) && UpperEscape(t)
    ensures WellFormed(Around(a, t, b)) && !Steady(Around(a, t, b))
  {
    var h := Around(a, t, b);
    WellFormedTokens(a);
    WellFormedTokens(b);
    TokensAround(a, t, b);
    assert t in Tokens(h);
    forall i | 0 <= i < |h| && h[i] == '%' ensures EscapeAt(h[i..]) {
      PlainTokens(h, i);
    }
    SteadyExactly(h);
  }

  lemma NoPercent(s: Text)
    requires '%' !in s
    ensures WellFormed(s)
  {
  }

  lemma HexPairs()
    ensures Meaning(Esc('3', '3')) == '3' && Meaning(Esc('4', '1')) == 'A'
  {
    assert HexValue('3') == 3 && HexValue('4') == 4 && HexValue('1') == 1;
  }

  /** f%33oo.com and f3oo.com are two hosts to the classifier and one to the network. */
  lemma EscapedDigitPair(x: Text, y: Text)
    requires x == "f%33oo.com" && y == "f3oo.com"
    ensures x != y && NetworkHost(x) == NetworkHost(y)
  {
    var a: Text, b: Text, t: Token := x[..1], x[4..], Esc('3', '3');
    HexPairs();
    SafeMeans('3');
    NoPercent(a);
    NoPercent(b);
    assert x == Around(a, t, b) && y == Around(a, Lit('3'), b);
    EscapeReachesSame(a, t, b);
  }

  /** ex%41mple.com becomes exAmple.com at first, and example.com only the second time. */
  lemma EscapedUpperLetter(h: Text)
    requires h == "ex%41mple.com"
    ensures WellFormed(h) && !Steady(h)
  {
    var a: Text, b: Text, t: Token := h[..2], h[5..], Esc('4', '1');
    HexPairs();
    NoPercent(a);
    NoPercent(b);
    assert h == Around(a, t, b);
    UpperNotSteady(a, t, b);
  }

  lemma CaseReachesSame(a: Text, b: Text)
    requires Lower(a) == Lower(b)
    ensures NetworkHost(a) == NetworkHost(b)
  {
  }

  /** The network keeps apart what the classifier keeps apart. */
  ghost predicate NetworkDistinct(hosts: iset<Text>) {
    forall a, b :: a in hosts && b in hosts && NetworkHost(a) == NetworkHost(b) ==> a == b
  }

  /** For valid hosts, whose escapes all decode: no two of them are the same name up to case. */
  lemma DistinctNames(hosts: iset<Text>)
    requires forall h :: h in hosts ==> WellFormed(h) && SafeEscapes(h)
    ensures NetworkDistinct(hosts) <==>
      forall a, b :: a in hosts && b in hosts && Lower(Unescape(a)) == Lower(Unescape(b)) ==> a == b
  {
    forall h | h in hosts ensures NetworkHost(h) == Lower(Unescape(h)) {
      NetworkHostIs(h);
    }
  }

  // ---------------------------------------------------------------- hosts as they are stored

  lemma StoredTokens(h: Text)
    requires Stored(h)
    ensures WellFormed(h) && forall t :: t in Tokens(h) && t.Lit? ==> !Masked(t.c, AUTH)
  {
    MaskMeans('%');
    EscapeWellFormed(h, AUTH);
    forall t | t in Tokens(h) && t.Lit? ensures !Masked(t.c, AUTH) {
      EscapeCovers(h, AUTH, t);
    }
  }

  lemma HostTokenUnmasked(t: Token)
    requires t.Lit? ==> !Masked(t.c, AUTH)
    ensures HostToken(t).Lit? ==> !Masked(HostToken(t).c, AUTH)
  {
    var r := HostToken(t);
    if r.Lit? {
      MaskMeans(r.c);
      SafeMeans(r.c);
      if t.Lit? {
        MaskMeans(t.c);
      }
    }
  }

  /** Parsing the normalised url again, which escapes its host, leaves the host alone. */
  lemma NormalHostStored(h: Text)
    requires Stored(h)
    ensures Stored(NormalHost(h))
  {
    StoredTokens(h);
    WellFormedTokens(h);
    HostTokens(h);
    var ts, ns := Tokens(h), Tokens(NormalHost(h));
    forall i | 0 <= i < |ns| ensures EscapeToken(AUTH)(ns[i]) == ns[i] {
      assert ts[i] in ts;
      HostTokenUnmasked(ts[i]);
    }
    assert Map(EscapeToken(AUTH), ns) == ns;
    FlattenTokens(NormalHost(h));
  }
}
