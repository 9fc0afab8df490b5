/**
 * Percent-encoding of urls. A string is read as tokens: %HH escapes and single
 * bytes. Escaping, unescaping and normalising are maps over tokens; the loops
 * that work byte by byte are proved to compute them.
 */
module UrlEscapes {
  import opened Bytes

  // ---------------------------------------------------------------- the character table

  const RESERVED: bv8 := 0x1
  const UNSAFE: bv8 := 0x2
  const ESC: bv8 := 0x4
  const AUTH: bv8 := 0x8
  const PATH: bv8 := 0x10
  const QUERY: bv8 := 0x20
  const FRAGMENT: bv8 := 0x40

  /** url_char_table: 0x7e marks what must be escaped everywhere. */
  function CharMask(c: Byte): (m: bv8) {
    if c <= ' ' || c >= '\U{7f}' then 0x7e
    else if c in "\"%<>\\^`{|}" then 0x7e
    else if c == '#' then 0x3b
    else if c in "$&+,;=" then 0x1
    else if c == '/' then 0x9
    else if c == '?' then 0x19
    else if c in ":@[]" then 0x3
    else 0
  }

  /** url_char_test. */
  predicate Masked(c: Byte, mask: bv8) {
    CharMask(c) & mask != 0
  }

  /** Neither reserved nor unsafe: unescape_safe decodes it. */
  predicate Safe(c: Byte) {
    CharMask(c) & (RESERVED | UNSAFE) == 0
  }

  predicate Alphanumeric(c: Byte) {
    '0' <= c <= '9' || 'A' <= c <= 'Z' || 'a' <= c <= 'z'
  }

  /** Control characters, space, non-ASCII bytes and the delimiters of RFC 2396, section 2.4.3. */
  predicate Excluded(c: Byte) {
    c <= ' ' || c >= '\U{7f}' || c in "\"%<>\\^`{|}"
  }

  /** What each part of a url has to escape: / ? # in the authority, ? # in the path, # in the query. */
  lemma MaskMeans(c: Byte)
    ensures Masked(c, AUTH) <==> Excluded(c) || c == '/' || c == '?' || c == '#'
    ensures Masked(c, PATH) <==> Excluded(c) || c == '?' || c == '#'
    ensures Masked(c, QUERY) <==> Excluded(c) || c == '#'
    ensures Masked(c, FRAGMENT) <==> Excluded(c)
    ensures Masked(c, ESC) <==> Excluded(c)
  {
  }

  /** Safe bytes are the unreserved characters of RFC 2396, section 2.3. */
  lemma SafeMeans(c: Byte)
    ensures Safe(c) <==> Alphanumeric(c) || c in "-_.!~*'()"
  {
    if Alphanumeric(c) || c in "-_.!~*'()" {
      assert CharMask(c) == 0;
    }
  }

  // ---------------------------------------------------------------- hex digits

  predicate IsHex(c: Byte) {
    '0' <= c <= '9' || 'A' <= c <= 'F' || 'a' <= c <= 'f'
  }

  function Upper(c: Byte): (u: Byte) {
    if 'a' <= c <= 'z' then c - 32 as char else c
  }

  /** xdigit_to_num. */
  function HexValue(c: Byte): (v: nat)
    requires IsHex(c)
    ensures v < 16
  {
    if c < 'A' then c as int - '0' as int else Upper(c) as int - 'A' as int + 10
  }

  /** digit_to_xnum. */
  function HexDigit(v: nat): (c: Byte)
    requires v < 16
    ensures IsHex(c) && HexValue(c) == v && Upper(c) == c
  {
    if v < 10 then '0' + v as char else 'A' + (v - 10) as char
  }

  /** x2digits_to_num. */
  function Decoded(h: Byte, l: Byte): (c: Byte)
    requires IsHex(h) && IsHex(l)
  {
    (16 * HexValue(h) + HexValue(l)) as char
  }

  /** The digits against the literal: both ways, in both cases of the letters. */
  lemma HexTable(v: nat)
    requires v < 16
    ensures HexDigit(v) == "0123456789ABCDEF"[v]
    ensures HexValue("0123456789ABCDEF"[v]) == v && HexValue("0123456789abcdef"[v]) == v
    ensures Upper("0123456789abcdef"[v]) == "0123456789ABCDEF"[v]
  {
  }

  lemma HexLetters(c: Byte)
    ensures IsHex(c) <==> c in "0123456789ABCDEFabcdef"
  {
  }

  /** Hex digits carry no mark in the table, and are not percent signs. */
  lemma HexIsPlain(c: Byte)
    requires IsHex(c)
    ensures CharMask(c) == 0 && c != '%'
  {
  }

  // ---------------------------------------------------------------- tokens

  datatype RawToken = Lit(c: Byte) | Esc(h: Byte, l: Byte)

  type Token = t: RawToken | t.Esc? ==> IsHex(t.h) && IsHex(t.l) witness Lit('a')

  predicate HexPair(s: Text) {
    |s| >= 2 && IsHex(s[0]) && IsHex(s[1])
  }

  /** A valid escape starts here. */
  predicate EscapeAt(s: Text) {
    s != [] && s[0] == '%' && HexPair(s[1..])
  }

  function Tokens(s: Text): (ts: seq<Token>) {
    if s == [] then []
    else if EscapeAt(s) then [Esc(s[1], s[2])] + Tokens(s[3..])
    else [Lit(s[0])] + Tokens(s[1..])
  }

  function Spelled(t: Token): (s: Text) {
    match t
    case Lit(c) => [c]
    case Esc(h, l) => ['%', h, l]
  }

  function Flatten(ts: seq<Token>): (s: Text) {
    if ts == [] then [] else Spelled(ts[0]) + Flatten(ts[1..])
  }

  function Map(f: Token -> Token, ts: seq<Token>): (r: seq<Token>)
    ensures |r| == |ts| && forall i :: 0 <= i < |ts| ==> r[i] == f(ts[i])
  {
    if ts == [] then [] else [f(ts[0])] + Map(f, ts[1..])
  }

  /** The byte a token stands for. */
  function Meaning(t: Token): (c: Byte) {
    match t
    case Lit(c) => c
    case Esc(h, l) => Decoded(h, l)
  }

  function Decode(ts: seq<Token>): (s: Text)
    ensures |s| == |ts| && forall i :: 0 <= i < |ts| ==> s[i] == Meaning(ts[i])
  {
    if ts == [] then [] else [Meaning(ts[0])] + Decode(ts[1..])
  }

  // ---------------------------------------------------------------- the operations on strings

  function Escaped(c: Byte): (t: Token)
    ensures t.Esc? && Meaning(t) == c
  {
    Esc(HexDigit(c as int / 16), HexDigit(c as int % 16))
  }

  function EscapeToken(mask: bv8): Token -> Token {
    (t: Token) => if t.Lit? && Masked(t.c, mask) then Escaped(t.c) else t
  }

  function SafeToken(t: Token): (r: Token) {
    if t.Esc? && Safe(Meaning(t)) then Lit(Meaning(t)) else t
  }

  function UpperToken(t: Token): (r: Token) {
    if t.Esc? then Esc(Upper(t.h), Upper(t.l)) else t
  }

  function Escape(s: Text, mask: bv8): (r: Text) {
    Flatten(Map(EscapeToken(mask), Tokens(s)))
  }

  function Unescape(s: Text): (r: Text) {
    Decode(Tokens(s))
  }

  function UnescapeSafe(s: Text): (r: Text) {
    Flatten(Map(SafeToken, Tokens(s)))
  }

  function NormalizeEscapes(s: Text): (r: Text) {
    Flatten(Map(UpperToken, Tokens(UnescapeSafe(s))))
  }

  // ---------------------------------------------------------------- tokens and strings

  lemma {:induction false} FlattenTokens(s: Text)
    ensures Flatten(Tokens(s)) == s
  {
    if s != [] {
      if EscapeAt(s) {
        FlattenTokens(s[3..]);
        assert s == ['%', s[1], s[2]] + s[3..];
      } else {
        FlattenTokens(s[1..]);
        assert s == [s[0]] + s[1..];
      }
    }
  }

  /** No percent token is followed by two hex digits, so the string falls apart into these tokens. */
  ghost predicate Stable(ts: seq<Token>) {
    ts == [] || ((ts[0] == Lit('%') ==> !HexPair(Flatten(ts[1..]))) && Stable(ts[1..]))
  }

  lemma {:induction false} TokensStable(s: Text)
    ensures Stable(Tokens(s))
  {
    if s != [] {
      if EscapeAt(s) {
        TokensStable(s[3..]);
      } else {
        TokensStable(s[1..]);
        FlattenTokens(s[1..]);
        assert Tokens(s)[1..] == Tokens(s[1..]);
      }
    }
  }

  lemma {:induction false} TokensOfFlatten(ts: seq<Token>)
    requires Stable(ts)
    ensures Tokens(Flatten(ts)) == ts
  {
    if ts != [] {
      TokensOfFlatten(ts[1..]);
      var s, rest := Flatten(ts), Flatten(ts[1..]);
      match ts[0]
      case Lit(c) =>
        assert s[1..] == rest;
        assert !EscapeAt(s);
      case Esc(h, l) =>
        assert s[1..] == [h, l] + rest && s[3..] == rest;
        assert EscapeAt(s);
      assert ts == [ts[0]] + ts[1..];
    }
  }

  /** A map that leaves percent and hex literals alone and spells everything else without making new hex digits. */
  ghost predicate KeepsHex(f: Token -> Token) {
    && f(Lit('%')) in {Lit('%'), Escaped('%')}
    && (forall c: Byte :: IsHex(c) ==> f(Lit(c)) == Lit(c))
    && (forall t: Token :: (t.Lit? ==> !IsHex(t.c)) ==> !IsHex(Spelled(f(t))[0]))
    && (forall t: Token :: f(t) == Lit('%') ==> t == Lit('%'))
  }

  lemma {:induction false} HexPairKept(f: Token -> Token, ts: seq<Token>)
    requires KeepsHex(f)
    ensures HexPair(Flatten(Map(f, ts))) ==> HexPair(Flatten(ts))
  {
    if ts != [] && HexPair(Flatten(Map(f, ts))) {
      var m := Map(f, ts);
      assert m[1..] == Map(f, ts[1..]);
      assert Flatten(m) == Spelled(f(ts[0])) + Flatten(Map(f, ts[1..]));
      if ts[0].Lit? && IsHex(ts[0].c) {
        if |ts| > 1 {
          assert m[1..][1..] == Map(f, ts[1..][1..]);
          assert Flatten(m[1..]) == Spelled(f(ts[1])) + Flatten(m[1..][1..]);
          assert Flatten(m)[1] == Spelled(f(ts[1]))[0];
        }
      }
    }
  }

  /** Such a map keeps a token list stable. */
  lemma {:induction false} MapStable(f: Token -> Token, ts: seq<Token>)
    requires KeepsHex(f) && Stable(ts)
    ensures Stable(Map(f, ts))
  {
    if ts != [] {
      MapStable(f, ts[1..]);
      HexPairKept(f, ts[1..]);
      assert Map(f, ts)[1..] == Map(f, ts[1..]);
    }
  }

  // ---------------------------------------------------------------- escape

  lemma EscapeKeepsHex(mask: bv8)
    ensures KeepsHex(EscapeToken(mask))
  {
    forall c: Byte | IsHex(c) ensures EscapeToken(mask)(Lit(c)) == Lit(c) {
      HexIsPlain(c);
    }
  }

  lemma EscapeTokens(s: Text, mask: bv8)
    ensures Tokens(Escape(s, mask)) == Map(EscapeToken(mask), Tokens(s))
  {
    EscapeKeepsHex(mask);
    TokensStable(s);
    MapStable(EscapeToken(mask), Tokens(s));
    TokensOfFlatten(Map(EscapeToken(mask), Tokens(s)));
  }

  /** Escaping, for any mask, does not change what the string decodes to. */
  lemma EscapeKeepsMeaning(s: Text, mask: bv8)
    ensures Unescape(Escape(s, mask)) == Unescape(s)
  {
    EscapeTokens(s, mask);
  }

  lemma EscapeIdempotent(s: Text, mask: bv8)
    ensures Escape(Escape(s, mask), mask) == Escape(s, mask)
  {
    EscapeTokens(s, mask);
    var once := Map(EscapeToken(mask), Tokens(s));
    assert Map(EscapeToken(mask), once) == once;
  }

  /** The result holds masked bytes only inside valid escapes. */
  lemma EscapeCovers(s: Text, mask: bv8, t: Token)
    requires t in Tokens(Escape(s, mask)) && t.Lit?
    ensures !Masked(t.c, mask)
  {
    EscapeTokens(s, mask);
  }

  ghost predicate HasEscape(s: Text) {
    exists t :: t in Tokens(s) && t.Esc?
  }

  lemma {:induction false} DecodeShort(ts: seq<Token>)
    ensures |ts| <= |Flatten(ts)|
    ensures (exists t :: t in ts && t.Esc?) ==> |ts| < |Flatten(ts)|
    ensures !(exists t :: t in ts && t.Esc?) ==> Flatten(ts) == Decode(ts)
  {
    if ts != [] {
      DecodeShort(ts[1..]);
      assert ts == [ts[0]] + ts[1..];
    }
  }

  /** Unescaping gives the string back exactly when it held no escape. */
  lemma UnescapeFixed(s: Text)
    ensures Unescape(s) == s <==> !HasEscape(s)
  {
    FlattenTokens(s);
    DecodeShort(Tokens(s));
  }

  /** The round trip of escape and unescape, for any mask. */
  lemma EscapeRoundTrip(s: Text, mask: bv8)
    ensures Unescape(Escape(s, mask)) == s <==> !HasEscape(s)
  {
    EscapeKeepsMeaning(s, mask);
    UnescapeFixed(s);
  }

  // ---------------------------------------------------------------- unescape_safe and normalize_escapes

  predicate HexLit(t: Token) {
    t.Lit? && IsHex(t.c)
  }

  /** A percent sign that ends up before two hex digits it did not stand before. */
  predicate JoinAt(ts: seq<Token>) {
    && |ts| >= 3 && ts[0] == Lit('%')
    && HexLit(SafeToken(ts[1])) && HexLit(SafeToken(ts[2]))
  }

  predicate Joins(ts: seq<Token>) {
    ts != [] && (JoinAt(ts) || Joins(ts[1..]))
  }

  /** Such a percent sign, and the two digits spell a byte that unescape_safe decodes. */
  predicate Clashes(ts: seq<Token>) {
    ts != [] && ((JoinAt(ts) && Safe(Decoded(SafeToken(ts[1]).c, SafeToken(ts[2]).c))) || Clashes(ts[1..]))
  }

  ghost predicate Settled(ts: seq<Token>) {
    forall t :: t in ts ==> SafeToken(t) == t
  }

  /** What the second reading of an unescaped string sees. */
  function Reread(ts: seq<Token>): (r: seq<Token>) {
    Tokens(Flatten(Map(SafeToken, ts)))
  }

  lemma HexPairAhead(ts: seq<Token>)
    ensures HexPair(Flatten(ts)) <==> |ts| >= 2 && HexLit(ts[0]) && HexLit(ts[1])
  {
    if |ts| >= 2 {
      assert Flatten(ts) == Spelled(ts[0]) + (Spelled(ts[1]) + Flatten(ts[1..][1..]));
    }
  }

  lemma RereadStep(ts: seq<Token>)
    requires ts != []
    ensures JoinAt(ts) ==> Reread(ts) == [Esc(SafeToken(ts[1]).c, SafeToken(ts[2]).c)] + Reread(ts[3..])
    ensures !JoinAt(ts) ==> Reread(ts) == [SafeToken(ts[0])] + Reread(ts[1..])
  {
    var m := Map(SafeToken, ts);
    assert m[1..] == Map(SafeToken, ts[1..]);
    var s, rest := Flatten(m), Flatten(m[1..]);
    assert s == Spelled(m[0]) + rest;
    HexPairAhead(m[1..]);
    assert JoinAt(ts) <==> m[0] == Lit('%') && HexPair(rest);
    if JoinAt(ts) {
      assert m[3..] == Map(SafeToken, ts[3..]);
      assert m[1..][1..][1..] == m[3..];
      assert rest == Spelled(m[1]) + (Spelled(m[2]) + Flatten(m[3..]));
      assert s[1..] == rest && s[3..] == Flatten(m[3..]);
    } else if m[0].Lit? {
      assert s[1..] == rest;
    } else {
      assert s[1..] == [m[0].h, m[0].l] + rest && s[3..] == rest;
    }
  }

  lemma SettledCons(t: Token, ts: seq<Token>)
    ensures Settled([t] + ts) <==> SafeToken(t) == t && Settled(ts)
  {
    if Settled([t] + ts) {
      assert t in [t] + ts;
      assert forall x :: x in ts ==> x in [t] + ts;
    }
  }

  lemma {:induction false} RereadTokens(ts: seq<Token>)
    ensures Settled(Reread(ts)) <==> !Clashes(ts)
    ensures Joins(ts) ==> |Reread(ts)| < |ts|
    ensures !Joins(ts) ==> Reread(ts) == Map(SafeToken, ts)
    decreases |ts|
  {
    if ts != [] {
      RereadStep(ts);
      RereadTokens(ts[1..]);
      if JoinAt(ts) {
        RereadTokens(ts[3..]);
        assert ts[1..][1..] == ts[2..] && ts[2..][1..] == ts[3..];
        assert Clashes(ts[1..]) <==> Clashes(ts[3..]);
        assert Joins(ts[1..]) <==> Joins(ts[3..]);
        SettledCons(Reread(ts)[0], Reread(ts[3..]));
      } else {
        SettledCons(SafeToken(ts[0]), Reread(ts[1..]));
      }
    }
  }

  lemma {:induction false} SafeShort(ts: seq<Token>)
    ensures |Flatten(Map(SafeToken, ts))| <= |Flatten(ts)|
    ensures Settled(ts) ==> Map(SafeToken, ts) == ts
    ensures !Settled(ts) ==> |Flatten(Map(SafeToken, ts))| < |Flatten(ts)|
  {
    if ts != [] {
      SafeShort(ts[1..]);
      assert ts == [ts[0]] + ts[1..];
      assert Map(SafeToken, ts)[1..] == Map(SafeToken, ts[1..]);
    }
  }

  /** unescape_safe settles in one pass exactly when no percent sign clashes. */
  lemma UnescapeSafeIdempotentExactly(s: Text)
    ensures UnescapeSafe(UnescapeSafe(s)) == UnescapeSafe(s) <==> !Clashes(Tokens(s))
  {
    RereadTokens(Tokens(s));
    SafeShort(Reread(Tokens(s)));
    FlattenTokens(UnescapeSafe(s));
  }

  /** It keeps what the string decodes to exactly when no percent sign is joined to new digits. */
  lemma UnescapeSafeMeaningExactly(s: Text)
    ensures Unescape(UnescapeSafe(s)) == Unescape(s) <==> !Joins(Tokens(s))
  {
    RereadTokens(Tokens(s));
  }

  function Stray(): (ts: seq<Token>) {
    [Lit('%'), Esc('3', '4'), Lit('1')]
  }

  lemma StrayTokens()
    ensures Tokens("%%341") == Stray()
  {
    assert "%%341"[1..] == "%341" && "%341"[3..] == "1" && "1"[1..] == "";
    assert Tokens("1") == [Lit('1')];
    assert Tokens("%341") == [Esc('3', '4')] + Tokens("1");
  }

  lemma DigitFour()
    ensures SafeToken(Esc('3', '4')) == Lit('4') && SafeToken(Lit('1')) == Lit('1')
    ensures Safe(Decoded('4', '1'))
  {
    assert HexValue('3') == 3 && HexValue('4') == 4 && HexValue('1') == 1;
  }

  /** The smallest clash: a stray percent sign before an escaped digit. */
  lemma ClashExample()
    ensures Clashes(Tokens("%%341"))
    ensures UnescapeSafe("%%341") == "%41"
  {
    StrayTokens();
    DigitFour();
    var m := Map(SafeToken, Stray());
    assert m == [Lit('%'), Lit('4'), Lit('1')];
    assert m[1..] == [Lit('4'), Lit('1')] && m[1..][1..] == [Lit('1')];
    assert Flatten(m[1..][1..]) == "1";
    assert Flatten(m[1..]) == "4" + "1";
  }

  lemma UpperKeepsMeaning(t: Token)
    ensures Meaning(UpperToken(t)) == Meaning(t) && UpperToken(UpperToken(t)) == UpperToken(t)
    ensures SafeToken(UpperToken(t)) == UpperToken(t) <==> SafeToken(t) == t
  {
  }

  lemma NormalizeTokens(s: Text)
    ensures Tokens(NormalizeEscapes(s)) == Map(UpperToken, Reread(Tokens(s)))
  {
    TokensStable(UnescapeSafe(s));
    MapStable(UpperToken, Reread(Tokens(s)));
    TokensOfFlatten(Map(UpperToken, Reread(Tokens(s))));
  }

  lemma UpperSettled(ts: seq<Token>)
    ensures Settled(Map(UpperToken, ts)) <==> Settled(ts)
    ensures Map(UpperToken, Map(UpperToken, ts)) == Map(UpperToken, ts)
    ensures Decode(Map(UpperToken, ts)) == Decode(ts)
  {
    var u := Map(UpperToken, ts);
    forall i | 0 <= i < |ts| ensures UpperToken(u[i]) == u[i] && Meaning(u[i]) == Meaning(ts[i])
      ensures SafeToken(u[i]) == u[i] <==> SafeToken(ts[i]) == ts[i]
    {
      UpperKeepsMeaning(ts[i]);
    }
    if Settled(u) {
      forall t | t in ts ensures SafeToken(t) == t {
        var i :| 0 <= i < |ts| && ts[i] == t;
        assert u[i] in u;
      }
    }
  }

  lemma {:induction false} UpperLength(ts: seq<Token>)
    ensures |Flatten(Map(UpperToken, ts))| == |Flatten(ts)|
  {
    if ts != [] {
      UpperLength(ts[1..]);
      assert Map(UpperToken, ts)[1..] == Map(UpperToken, ts[1..]);
    }
  }

  /** Normalising twice changes nothing exactly when no percent sign clashes. */
  lemma NormalizeIdempotentExactly(s: Text)
    ensures NormalizeEscapes(NormalizeEscapes(s)) == NormalizeEscapes(s) <==> !Clashes(Tokens(s))
  {
    var once := NormalizeEscapes(s);
    var r := Reread(Tokens(s));
    RereadTokens(Tokens(s));
    NormalizeTokens(s);
    UpperSettled(r);
    SafeShort(Tokens(once));
    FlattenTokens(once);
    UpperLength(Tokens(UnescapeSafe(once)));
    FlattenTokens(UnescapeSafe(once));
  }

  /** Normalising keeps what the string decodes to exactly when no percent sign is joined to new digits. */
  lemma NormalizeMeaningExactly(s: Text)
    ensures Unescape(NormalizeEscapes(s)) == Unescape(s) <==> !Joins(Tokens(s))
  {
    NormalizeTokens(s);
    UpperSettled(Reread(Tokens(s)));
    RereadTokens(Tokens(s));
  }

  /** The same byte, spelled the same way unless it is safe or only the case of hex digits differs. */
  predicate SameToken(a: Token, b: Token) {
    Meaning(a) == Meaning(b) && (Safe(Meaning(a)) || (a.Esc? <==> b.Esc?))
  }

  ghost predicate SameTokens(a: seq<Token>, b: seq<Token>) {
    |a| == |b| && forall i :: 0 <= i < |a| ==> SameToken(a[i], b[i])
  }

  lemma SameDigit(c: Byte, d: Byte)
    requires IsHex(c) && IsHex(d)
    ensures Upper(c) == Upper(d) <==> HexValue(c) == HexValue(d)
  {
  }

  lemma DecodedEqual(h: Byte, l: Byte, h': Byte, l': Byte)
    requires IsHex(h) && IsHex(l) && IsHex(h') && IsHex(l')
    ensures Decoded(h, l) == Decoded(h', l') <==> HexValue(h) == HexValue(h') && HexValue(l) == HexValue(l')
  {
    assert Decoded(h, l) as int == 16 * HexValue(h) + HexValue(l);
    assert Decoded(h', l') as int == 16 * HexValue(h') + HexValue(l');
  }

  lemma SameEscapes(a: Token, b: Token)
    requires a.Esc? && b.Esc?
    ensures Meaning(a) == Meaning(b) <==> UpperToken(a) == UpperToken(b)
  {
    DecodedEqual(a.h, a.l, b.h, b.l);
    SameDigit(a.h, b.h);
    SameDigit(a.l, b.l);
  }

  lemma SafeTokenIs(t: Token)
    ensures Meaning(SafeToken(t)) == Meaning(t)
    ensures SafeToken(t).Esc? <==> t.Esc? && !Safe(Meaning(t))
  {
  }

  function Normal(t: Token): (n: Token) {
    UpperToken(SafeToken(t))
  }

  lemma SameTokenNormal(a: Token, b: Token)
    ensures SameToken(a, b) <==> Normal(a) == Normal(b)
  {
    SafeTokenIs(a);
    SafeTokenIs(b);
    var x, y := SafeToken(a), SafeToken(b);
    if x.Esc? && y.Esc? {
      SameEscapes(x, y);
    }
  }

  lemma NormalTokens(a: seq<Token>, b: seq<Token>)
    ensures Map(UpperToken, Map(SafeToken, a)) == Map(UpperToken, Map(SafeToken, b)) <==> SameTokens(a, b)
  {
    var na, nb := Map(UpperToken, Map(SafeToken, a)), Map(UpperToken, Map(SafeToken, b));
    forall i | 0 <= i < |a| && i < |b| ensures SameToken(a[i], b[i]) <==> na[i] == nb[i] {
      SameTokenNormal(a[i], b[i]);
      assert na[i] == Normal(a[i]) && nb[i] == Normal(b[i]);
    }
  }

  /** Spelled alike but for the case of hex digits. */
  ghost predicate SameSpelling(a: seq<Token>, b: seq<Token>) {
    |a| == |b| && forall i :: 0 <= i < |a| ==> a[i].Esc? == b[i].Esc? && Meaning(a[i]) == Meaning(b[i])
  }

  lemma UpperEqual(a: seq<Token>, b: seq<Token>)
    ensures Map(UpperToken, a) == Map(UpperToken, b) <==> SameSpelling(a, b)
  {
    var x, y := Map(UpperToken, a), Map(UpperToken, b);
    forall i | 0 <= i < |a| && i < |b|
      ensures x[i] == y[i] <==> a[i].Esc? == b[i].Esc? && Meaning(a[i]) == Meaning(b[i])
    {
      if a[i].Esc? && b[i].Esc? {
        SameEscapes(a[i], b[i]);
      }
    }
  }

  /** For all strings: equal results exactly when unescape_safe leaves the same spelling up to hex case. */
  lemma NormalizeEqualAlways(s: Text, t: Text)
    ensures NormalizeEscapes(s) == NormalizeEscapes(t) <==>
      SameSpelling(Tokens(UnescapeSafe(s)), Tokens(UnescapeSafe(t)))
  {
    NormalizeTokens(s);
    NormalizeTokens(t);
    UpperEqual(Reread(Tokens(s)), Reread(Tokens(t)));
    FlattenTokens(NormalizeEscapes(s));
    FlattenTokens(NormalizeEscapes(t));
  }

  /** Without joins two strings normalise to the same one exactly when they are token by token the same. */
  lemma NormalizeEqualExactly(s: Text, t: Text)
    requires !Joins(Tokens(s)) && !Joins(Tokens(t))
    ensures NormalizeEscapes(s) == NormalizeEscapes(t) <==> SameTokens(Tokens(s), Tokens(t))
  {
    NormalizeTokens(s);
    NormalizeTokens(t);
    RereadTokens(Tokens(s));
    RereadTokens(Tokens(t));
    NormalTokens(Tokens(s), Tokens(t));
    FlattenTokens(NormalizeEscapes(s));
    FlattenTokens(NormalizeEscapes(t));
  }

  // ---------------------------------------------------------------- well-formed strings

  /** Every percent sign starts an escape. */
  ghost predicate WellFormed(s: Text) {
    forall i :: 0 <= i < |s| && s[i] == '%' ==> EscapeAt(s[i..])
  }

  lemma WellFormedRest(s: Text, n: nat)
    requires n <= |s| && WellFormed(s)
    ensures WellFormed(s[n..])
  {
    forall i | 0 <= i < |s[n..]| && s[n..][i] == '%' ensures EscapeAt(s[n..][i..]) {
      assert s[n..][i..] == s[n + i..];
      assert s[n + i] == '%';
    }
  }

  lemma {:induction false} WellFormedTokens(s: Text)
    requires WellFormed(s)
    ensures Lit('%') !in Tokens(s)
  {
    if s != [] {
      assert s[0..] == s;
      if EscapeAt(s) {
        WellFormedRest(s, 3);
        WellFormedTokens(s[3..]);
      } else {
        assert s[0] != '%';
        WellFormedRest(s, 1);
        WellFormedTokens(s[1..]);
      }
    }
  }

  lemma {:induction false} PlainTokens(s: Text, i: nat)
    requires Lit('%') !in Tokens(s) && i < |s| && s[i] == '%'
    ensures EscapeAt(s[i..])
    decreases |s|
  {
    assert s[0..] == s;
    if EscapeAt(s) {
      HexIsPlain(s[1]);
      HexIsPlain(s[2]);
      if i > 0 {
        assert s[3..][i - 3..] == s[i..];
        PlainTokens(s[3..], i - 3);
      }
    } else {
      assert Tokens(s)[0] in Tokens(s);
      assert s[1..][i - 1..] == s[i..];
      PlainTokens(s[1..], i - 1);
    }
  }

  /** Escaping under a mask that holds the percent sign makes every string well-formed. */
  lemma EscapeWellFormed(s: Text, mask: bv8)
    requires Masked('%', mask)
    ensures WellFormed(Escape(s, mask))
  {
    var r := Escape(s, mask);
    if Lit('%') in Tokens(r) {
      EscapeCovers(s, mask, Lit('%'));
    }
    forall i | 0 <= i < |r| && r[i] == '%' ensures EscapeAt(r[i..]) {
      PlainTokens(r, i);
    }
  }

  lemma {:induction false} NoPercentNoJoin(ts: seq<Token>)
    requires Lit('%') !in ts
    ensures !Joins(ts) && !Clashes(ts)
  {
    if ts != [] {
      assert ts[0] in ts;
      NoPercentNoJoin(ts[1..]);
    }
  }

  /** On well-formed strings normalize_escapes picks one spelling of each meaning. */
  lemma CanonicalForm(s: Text, t: Text)
    requires WellFormed(s) && WellFormed(t)
    ensures NormalizeEscapes(NormalizeEscapes(s)) == NormalizeEscapes(s)
    ensures Unescape(NormalizeEscapes(s)) == Unescape(s)
    ensures NormalizeEscapes(s) == NormalizeEscapes(t) <==> SameTokens(Tokens(s), Tokens(t))
  {
    WellFormedTokens(s);
    WellFormedTokens(t);
    NoPercentNoJoin(Tokens(s));
    NoPercentNoJoin(Tokens(t));
    NormalizeIdempotentExactly(s);
    NormalizeMeaningExactly(s);
    NormalizeEqualExactly(s, t);
  }

  // ---------------------------------------------------------------- single bytes

  /** Every byte, written as an escape in either case, decodes to that byte and nothing else. */
  lemma DecodeByte(b: nat)
    requires b < 256
    ensures Unescape(['%', "0123456789ABCDEF"[b / 16], "0123456789ABCDEF"[b % 16]]) == [b as char]
    ensures Unescape(['%', "0123456789abcdef"[b / 16], "0123456789abcdef"[b % 16]]) == [b as char]
  {
    HexTable(b / 16);
    HexTable(b % 16);
    DecodeEscape("0123456789ABCDEF"[b / 16], "0123456789ABCDEF"[b % 16]);
    DecodeEscape("0123456789abcdef"[b / 16], "0123456789abcdef"[b % 16]);
  }

  lemma OneEscape(h: Byte, l: Byte)
    requires IsHex(h) && IsHex(l)
    ensures Tokens(['%', h, l]) == [Esc(h, l)]
  {
    assert EscapeAt(['%', h, l]) && ['%', h, l][3..] == [];
  }

  lemma DecodeEscape(h: Byte, l: Byte)
    requires IsHex(h) && IsHex(l)
    ensures Unescape(['%', h, l]) == [(16 * HexValue(h) + HexValue(l)) as char]
  {
    OneEscape(h, l);
  }

  lemma OneByte(c: Byte)
    ensures Tokens([c]) == [Lit(c)]
  {
    assert !EscapeAt([c]) && [c][1..] == [];
  }

  /** A masked byte is escaped with upper-case digits, any other byte is left alone. */
  lemma EscapeByte(c: Byte, mask: bv8)
    ensures Masked(c, mask) ==>
      Escape([c], mask) == ['%', "0123456789ABCDEF"[c as int / 16], "0123456789ABCDEF"[c as int % 16]]
    ensures !Masked(c, mask) ==> Escape([c], mask) == [c]
  {
    OneByte(c);
    HexTable(c as int / 16);
    HexTable(c as int % 16);
    var t := EscapeToken(mask)(Lit(c));
    assert Map(EscapeToken(mask), [Lit(c)]) == [t];
    FlattenOne(t);
  }

  /** An escape of an unreserved character is decoded; any other keeps its place, with upper-case digits. */
  lemma NormalizeByte(b: nat, h: Byte, l: Byte)
    requires b < 256 && h in {"0123456789ABCDEF"[b / 16], "0123456789abcdef"[b / 16]}
    requires l in {"0123456789ABCDEF"[b % 16], "0123456789abcdef"[b % 16]}
    ensures Safe(b as char) ==> NormalizeEscapes(['%', h, l]) == [b as char]
    ensures !Safe(b as char) ==>
      NormalizeEscapes(['%', h, l]) == ['%', "0123456789ABCDEF"[b / 16], "0123456789ABCDEF"[b % 16]]
  {
    EitherCase(b / 16, h);
    EitherCase(b % 16, l);
    NormalizeOne(h, l);
    NormalizeValue(b, h, l);
  }

  lemma EitherCase(v: nat, h: Byte)
    requires v < 16 && h in {"0123456789ABCDEF"[v], "0123456789abcdef"[v]}
    ensures IsHex(h) && HexValue(h) == v && Upper(h) == "0123456789ABCDEF"[v]
  {
    HexTable(v);
  }

  lemma NormalizeValue(b: nat, h: Byte, l: Byte)
    requires b < 256 && IsHex(h) && IsHex(l) && HexValue(h) == b / 16 && HexValue(l) == b % 16
    ensures Spelled(UpperToken(SafeToken(Esc(h, l)))) == if Safe(b as char) then [b as char] else ['%', Upper(h), Upper(l)]
  {
  }

  lemma NormalizeOne(h: Byte, l: Byte)
    requires IsHex(h) && IsHex(l)
    ensures NormalizeEscapes(['%', h, l]) == Spelled(UpperToken(SafeToken(Esc(h, l))))
  {
    var t: Token := Esc(h, l);
    OneEscape(h, l);
    assert Map(SafeToken, [t]) == [SafeToken(t)];
    FlattenOne(SafeToken(t));
    if SafeToken(t).Lit? {
      OneByte(SafeToken(t).c);
    }
    assert Map(UpperToken, [SafeToken(t)]) == [UpperToken(SafeToken(t))];
    FlattenOne(UpperToken(SafeToken(t)));
  }

  lemma FlattenOne(t: Token)
    ensures Flatten([t]) == Spelled(t)
  {
    assert [t][1..] == [];
  }
}
