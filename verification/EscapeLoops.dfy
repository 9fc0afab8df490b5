/**
 * The byte loops of Url::escape, unescape, unescape_safe and normalize_escapes,
 * proved to compute the token maps.
 */
module UrlEscapeLoops {
  import opened Bytes
  import opened UrlEscapes

  /** The tokens of s, one byte or one escape further on. */
  lemma TokensAhead(s: Text)
    requires s != []
    ensures EscapeAt(s) ==> Tokens(s) == [Esc(s[1], s[2])] + Tokens(s[3..])
    ensures EscapeAt(s) ==> Tokens(s[1..]) == [Lit(s[1]), Lit(s[2])] + Tokens(s[3..])
    ensures !EscapeAt(s) ==> Tokens(s) == [Lit(s[0])] + Tokens(s[1..])
  {
    if EscapeAt(s) {
      HexIsPlain(s[1]);
      HexIsPlain(s[2]);
      assert s[1..][1..] == s[2..] && s[2..][1..] == s[3..];
      assert Tokens(s[2..]) == [Lit(s[2])] + Tokens(s[3..]);
    }
  }

  lemma FlattenAhead(f: Token -> Token, t: Token, ts: seq<Token>)
    ensures Flatten(Map(f, [t] + ts)) == Spelled(f(t)) + Flatten(Map(f, ts))
  {
    assert Map(f, [t] + ts)[1..] == Map(f, ts);
  }

  lemma FlattenTwo(f: Token -> Token, x: Byte, y: Byte, ts: seq<Token>)
    requires f(Lit(x)) == Lit(x) && f(Lit(y)) == Lit(y)
    ensures Flatten(Map(f, [Lit(x), Lit(y)] + ts)) == [x, y] + Flatten(Map(f, ts))
  {
    FlattenAhead(f, Lit(y), ts);
    FlattenAhead(f, Lit(x), [Lit(y)] + ts);
    assert [Lit(x), Lit(y)] + ts == [Lit(x)] + ([Lit(y)] + ts);
  }

  /** A map over tokens, one step of the loop further on. */
  lemma MapAhead(f: Token -> Token, s: Text)
    requires s != []
    ensures EscapeAt(s) ==> Flatten(Map(f, Tokens(s))) == Spelled(f(Esc(s[1], s[2]))) + Flatten(Map(f, Tokens(s[3..])))
    ensures !EscapeAt(s) ==> Flatten(Map(f, Tokens(s))) == Spelled(f(Lit(s[0]))) + Flatten(Map(f, Tokens(s[1..])))
  {
    TokensAhead(s);
    if EscapeAt(s) {
      FlattenAhead(f, Esc(s[1], s[2]), Tokens(s[3..]));
    } else {
      FlattenAhead(f, Lit(s[0]), Tokens(s[1..]));
    }
  }

  /** An escape that the map leaves alone may be copied byte by byte. */
  lemma MapInside(f: Token -> Token, s: Text)
    requires s != [] && EscapeAt(s)
    requires f(Esc(s[1], s[2])) == Esc(s[1], s[2]) && f(Lit(s[1])) == Lit(s[1]) && f(Lit(s[2])) == Lit(s[2])
    ensures Flatten(Map(f, Tokens(s))) == ['%'] + Flatten(Map(f, Tokens(s[1..])))
  {
    TokensAhead(s);
    FlattenAhead(f, Esc(s[1], s[2]), Tokens(s[3..]));
    FlattenTwo(f, s[1], s[2], Tokens(s[3..]));
  }

  /** The guard of the loops: an escape starts at i. */
  predicate EscapeHere(s: Text, i: nat) {
    i + 2 < |s| && s[i] == '%' && IsHex(s[i + 1]) && IsHex(s[i + 2])
  }

  lemma Here(s: Text, i: nat)
    requires i < |s|
    ensures EscapeHere(s, i) <==> EscapeAt(s[i..])
    ensures s[i..] != [] && s[i..][0] == s[i] && s[i..][1..] == s[i + 1..]
    ensures EscapeHere(s, i) ==> s[i..][1] == s[i + 1] && s[i..][2] == s[i + 2] && s[i..][3..] == s[i + 3..]
  {
  }

  /** A map over the tokens from i on. */
  function Rest(f: Token -> Token, s: Text, i: nat): (r: Text)
    requires i <= |s|
  {
    Flatten(Map(f, Tokens(s[i..])))
  }

  lemma RestStep(f: Token -> Token, s: Text, i: nat)
    requires i < |s|
    ensures EscapeHere(s, i) ==> Rest(f, s, i) == Spelled(f(Esc(s[i + 1], s[i + 2]))) + Rest(f, s, i + 3)
    ensures !EscapeHere(s, i) ==> Rest(f, s, i) == Spelled(f(Lit(s[i]))) + Rest(f, s, i + 1)
  {
    Here(s, i);
    MapAhead(f, s[i..]);
  }

  lemma RestInside(f: Token -> Token, s: Text, i: nat)
    requires EscapeHere(s, i)
    requires f(Esc(s[i + 1], s[i + 2])) == Esc(s[i + 1], s[i + 2])
    requires f(Lit(s[i + 1])) == Lit(s[i + 1]) && f(Lit(s[i + 2])) == Lit(s[i + 2])
    ensures Rest(f, s, i) == ['%'] + Rest(f, s, i + 1)
  {
    Here(s, i);
    MapInside(f, s[i..]);
  }

  lemma RestWhole(f: Token -> Token, s: Text)
    ensures Rest(f, s, 0) == Flatten(Map(f, Tokens(s))) && Rest(f, s, |s|) == []
  {
    assert s[0..] == s && s[|s|..] == [];
  }

  /** The loop has written piece and goes on at k. */
  lemma Took(f: Token -> Token, s: Text, done: Text, i: nat, piece: Text, k: nat)
    requires i <= |s| && k <= |s| && Rest(f, s, i) == piece + Rest(f, s, k)
    ensures done + Rest(f, s, i) == (done + piece) + Rest(f, s, k)
  {
  }

  lemma Extend(done: Text, piece: Text, rest: Text)
    ensures done + (piece + rest) == (done + piece) + rest
  {
  }

  // ---------------------------------------------------------------- escape

  lemma EscapeInside(s: Text, mask: bv8, i: nat)
    requires EscapeHere(s, i)
    ensures Rest(EscapeToken(mask), s, i) == ['%'] + Rest(EscapeToken(mask), s, i + 1)
  {
    HexIsPlain(s[i + 1]);
    HexIsPlain(s[i + 2]);
    RestInside(EscapeToken(mask), s, i);
  }

  /** The size that escape reserves is the size of its result. */
  method ReserveAhead(s: Text, mask: bv8) returns (n: nat)
    ensures n == |Escape(s, mask)|
  {
    ghost var f := EscapeToken(mask);
    n := |s|;
    var j := 0;
    RestWhole(f, s);
    while j < |s|
      invariant 0 <= j <= |s| <= n
      invariant n - (|s| - j) + |Rest(f, s, j)| == |Escape(s, mask)|
    {
      RestStep(f, s, j);
      if EscapeHere(s, j) {
        EscapeInside(s, mask, j);
      }
      if Masked(s[j], mask) {
        if s[j] == '%' && j + 1 < |s| && j + 2 < |s| && IsHex(s[j + 1]) && IsHex(s[j + 2]) {
        } else {
          n := n + 2;
        }
      }
      j := j + 1;
    }
  }

  function HexEscape(c: Byte): (s: Text)
    ensures s == Spelled(Escaped(c))
  {
    ['%', HexDigit(c as int / 16), HexDigit(c as int % 16)]
  }

  /** The three branches of the loop. */
  lemma EscapeStep(s: Text, mask: bv8, done: Text, i: nat)
    requires i < |s|
    ensures var f := EscapeToken(mask);
      var all := done + Rest(f, s, i);
      && (Masked(s[i], mask) && EscapeHere(s, i) ==> all == done + s[i..i + 3] + Rest(f, s, i + 3))
      && (Masked(s[i], mask) && !EscapeHere(s, i) ==> all == done + HexEscape(s[i]) + Rest(f, s, i + 1))
      && (!Masked(s[i], mask) ==> all == done + [s[i]] + Rest(f, s, i + 1))
  {
    var f := EscapeToken(mask);
    RestStep(f, s, i);
    if Masked(s[i], mask) {
      if EscapeHere(s, i) {
        assert s[i..i + 3] == Spelled(Esc(s[i + 1], s[i + 2]));
        Took(f, s, done, i, s[i..i + 3], i + 3);
      } else {
        Took(f, s, done, i, HexEscape(s[i]), i + 1);
      }
    } else {
      if EscapeHere(s, i) {
        EscapeInside(s, mask, i);
      }
      Took(f, s, done, i, [s[i]], i + 1);
    }
  }

  method EscapeText(s: Text, mask: bv8) returns (result: Text)
    ensures result == Escape(s, mask)
  {
    if s == [] {
      return s;
    }
    var reserved := ReserveAhead(s, mask);
    result := [];
    ghost var f := EscapeToken(mask);
    ghost var want := Rest(f, s, 0);
    var i := 0;
    while i < |s|
      invariant 0 <= i <= |s|
      invariant result + Rest(f, s, i) == want
    {
      EscapeStep(s, mask, result, i);
      if Masked(s[i], mask) {
        if s[i] == '%' && i + 1 < |s| && i + 2 < |s| && IsHex(s[i + 1]) && IsHex(s[i + 2]) {
          result := result + s[i..i + 3];
          i := i + 2;
        } else {
          result := result + HexEscape(s[i]);
        }
      } else {
        result := result + [s[i]];
      }
      i := i + 1;
    }
    RestWhole(f, s);
    assert |result| == reserved;
  }

  // ---------------------------------------------------------------- unescape

  lemma {:induction false} NothingToUnescape(s: Text)
    requires '%' !in s
    ensures Unescape(s) == s && UnescapeSafe(s) == s
  {
    if s != [] {
      NothingToUnescape(s[1..]);
      MapAhead(SafeToken, s);
      TokensAhead(s);
      assert Tokens(s)[1..] == Tokens(s[1..]);
    }
  }

  lemma UnescapeStep(s: Text, i: nat)
    requires i < |s|
    ensures EscapeHere(s, i) ==> Unescape(s[i..]) == [Decoded(s[i + 1], s[i + 2])] + Unescape(s[i + 3..])
    ensures !EscapeHere(s, i) ==> Unescape(s[i..]) == [s[i]] + Unescape(s[i + 1..])
  {
    Here(s, i);
    TokensAhead(s[i..]);
  }

  /** Compares the digits themselves with zero, so it holds of every escape: %00 is decoded too. */
  predicate NotNull(h: Byte, l: Byte) {
    h != '\0' || l != '\0'
  }

  method UnescapeText(s: Text) returns (result: Text)
    ensures result == Unescape(s)
  {
    if s == [] || '%' !in s {
      NothingToUnescape(s);
      return s;
    }
    result := [];
    var i := 0;
    assert s[0..] == s && s[|s|..] == [];
    while i < |s|
      invariant 0 <= i <= |s|
      invariant result + Unescape(s[i..]) == Unescape(s)
    {
      UnescapeStep(s, i);
      if s[i] == '%' && i + 1 < |s| && i + 2 < |s| && IsHex(s[i + 1]) && IsHex(s[i + 2])
        && NotNull(s[i + 1], s[i + 2])
      {
        var c := Decoded(s[i + 1], s[i + 2]);
        Extend(result, [c], Unescape(s[i + 3..]));
        result := result + [c];
        i := i + 2;
      } else {
        Extend(result, [s[i]], Unescape(s[i + 1..]));
        result := result + [s[i]];
      }
      i := i + 1;
    }
  }

  method UnescapeSafeText(s: Text) returns (result: Text)
    ensures result == UnescapeSafe(s)
  {
    if s == [] || '%' !in s {
      NothingToUnescape(s);
      return s;
    }
    result := [];
    var i := 0;
    RestWhole(SafeToken, s);
    while i < |s|
      invariant 0 <= i <= |s|
      invariant result + Rest(SafeToken, s, i) == UnescapeSafe(s)
    {
      RestStep(SafeToken, s, i);
      if s[i] == '%' && i + 1 < |s| && i + 2 < |s| && IsHex(s[i + 1]) && IsHex(s[i + 2])
        && NotNull(s[i + 1], s[i + 2])
      {
        var c := Decoded(s[i + 1], s[i + 2]);
        if Safe(c) {
          Took(SafeToken, s, result, i, [c], i + 3);
          result := result + [c];
          i := i + 2;
        } else {
          RestInside(SafeToken, s, i);
          Took(SafeToken, s, result, i, [s[i]], i + 1);
          result := result + [s[i]];
        }
      } else {
        Took(SafeToken, s, result, i, [s[i]], i + 1);
        result := result + [s[i]];
      }
      i := i + 1;
    }
  }

  // ---------------------------------------------------------------- normalize_escapes

  lemma UpperStep(s: Text, t: Text, i: nat, n: nat)
    requires i + n <= |s| == |t| && s[..i] == t[..i] && s[i + n..] == t[i + n..]
    requires Rest(UpperToken, s, i) == t[i..i + n] + Rest(UpperToken, s, i + n)
    ensures s[..i] + Rest(UpperToken, s, i) == t[..i + n] + Rest(UpperToken, t, i + n)
  {
    assert t[..i + n] == s[..i] + t[i..i + n];
    Took(UpperToken, s, s[..i], i, t[i..i + n], i + n);
  }

  lemma UpperPlain(s: Text, i: nat)
    requires i < |s| && !EscapeHere(s, i)
    ensures s[..i] + Rest(UpperToken, s, i) == s[..i + 1] + Rest(UpperToken, s, i + 1)
  {
    RestStep(UpperToken, s, i);
    UpperStep(s, s, i, 1);
  }

  lemma UpperEscape(s: Text, t: Text, i: nat)
    requires EscapeHere(s, i) && t == s[i + 1 := Upper(s[i + 1])][i + 2 := Upper(s[i + 2])]
    ensures s[..i] + Rest(UpperToken, s, i) == t[..i + 3] + Rest(UpperToken, t, i + 3)
  {
    RestStep(UpperToken, s, i);
    assert t[i..i + 3] == ['%', Upper(s[i + 1]), Upper(s[i + 2])];
    UpperStep(s, t, i, 3);
  }

  method NormalizeEscapesText(s: Text) returns (res: Text)
    ensures res == NormalizeEscapes(s)
  {
    res := UnescapeSafeText(s);
    ghost var want := NormalizeEscapes(s);
    var i := 0;
    RestWhole(UpperToken, res);
    while i < |res|
      invariant 0 <= i <= |res|
      invariant res[..i] + Rest(UpperToken, res, i) == want
    {
      ghost var was := res;
      if res[i] == '%' && i + 1 < |res| && i + 2 < |res| && IsHex(res[i + 1]) && IsHex(res[i + 2]) {
        res := res[i + 1 := Upper(res[i + 1])];
        res := res[i + 2 := Upper(res[i + 2])];
        UpperEscape(was, res, i);
        i := i + 2;
      } else {
        UpperPlain(res, i);
      }
      i := i + 1;
    }
    RestWhole(UpperToken, res);
    assert res[..i] == res;
  }
}
