/**
 * Backward tables read without reversing them: comparing words from their last
 * symbol, and the longest entry a word ends with.
 */
module BackwardTables {
  import opened Bytes
  import opened AmongTables

  /** a sorts before b when both are read from their last symbol, given that their last n symbols agree. */
  predicate LessB(a: string, b: string, n: nat)
    decreases |b| - n
  {
    n < |b| &&
    (n >= |a| || a[|a| - 1 - n] < b[|b| - 1 - n] || (a[|a| - 1 - n] == b[|b| - 1 - n] && LessB(a, b, n + 1)))
  }

  /** w ends with s, given that their last n symbols agree. */
  predicate EndsWithB(w: string, s: string, n: nat)
    decreases |s| - n
  {
    n >= |s| || (n < |w| && w[|w| - 1 - n] == s[|s| - 1 - n] && EndsWithB(w, s, n + 1))
  }

  predicate ProperSuffix(w: string, s: string) {
    |s| < |w| && EndsWithB(w, s, 0)
  }

  /** First entry on the link chain from i that is a proper suffix of w. */
  function ChainB(e: int -> Among, i: int, w: string): int
    decreases i
  {
    if i < 0 then -1
    else if ProperSuffix(w, e(i).s) then i
    else if e(i).substringI < i then ChainB(e, e(i).substringI, w)
    else -1
  }

  predicate EntryOk(e: int -> Among, i: int) {
    LessB(e(i - 1).s, e(i).s, 0) && e(i).substringI == ChainB(e, i - 1, e(i).s)
  }

  ghost predicate TableOk(e: int -> Among, n: nat) {
    && 0 < n && e(0).substringI == -1
    && (forall i :: 1 <= i < n ==> EntryOk(e, i))
    && (forall i :: 0 <= i < n ==> e(i).condition.None?)
  }

  function Table(e: int -> Among, n: nat): (v: seq<Among>)
    ensures |v| == n && forall i :: 0 <= i < n ==> v[i] == e(i)
  {
    seq(n, i requires 0 <= i < n => e(i))
  }

  lemma {:induction false} LessBMeaning(a: string, b: string, n: nat)
    requires n <= |a| && n <= |b| && Reverse(a)[..n] == Reverse(b)[..n]
    requires LessB(a, b, n)
    ensures Less(Reverse(a), Reverse(b))
    decreases |b| - n
  {
    var x, y := Reverse(a), Reverse(b);
    if n < |a| && a[|a| - 1 - n] == b[|b| - 1 - n] {
      assert x[..n + 1] == x[..n] + [x[n]] && y[..n + 1] == y[..n] + [y[n]];
      LessBMeaning(a, b, n + 1);
    } else {
      CommonPrefixIs(x, y, n);
    }
  }

  lemma {:induction false} EndsWithBMeaning(w: string, s: string, n: nat)
    requires n <= |s| && n <= |w| && w[|w| - n..] == s[|s| - n..]
    ensures EndsWithB(w, s, n) <==> EndsWith(w, s)
    decreases |s| - n
  {
    if n < |s| && n < |w| {
      if w[|w| - 1 - n] == s[|s| - 1 - n] {
        assert w[|w| - (n + 1)..] == [w[|w| - 1 - n]] + w[|w| - n..];
        assert s[|s| - (n + 1)..] == [s[|s| - 1 - n]] + s[|s| - n..];
        EndsWithBMeaning(w, s, n + 1);
      }
    }
  }

  lemma ProperSuffixMeaning(w: string, s: string)
    ensures ProperSuffix(w, s) <==> Reverse(s) < Reverse(w)
  {
    EndsWithBMeaning(w, s, 0);
    ReversePrefix(s, w);
  }

  lemma {:induction false} ChainBMeaning(e: int -> Among, n: nat, i: int, w: string)
    requires i < n
    ensures var v := Table(e, n);
            ChainB(e, i, w) == FirstOnChain(ReversedKeys(v), Links(v), i, Reverse(w))
    decreases i
  {
    if 0 <= i {
      ProperSuffixMeaning(w, e(i).s);
      if e(i).substringI < i { ChainBMeaning(e, n, e(i).substringI, w); }
    }
  }

  /** The symbol-by-symbol check is enough for find_among_b. */
  lemma TableOkSuffices(e: int -> Among, n: nat)
    requires TableOk(e, n)
    ensures WellFormed(ReversedKeys(Table(e, n)), Links(Table(e, n)))
  {
    var v := Table(e, n);
    var keys, links := ReversedKeys(v), Links(v);
    forall i | 1 <= i < n ensures FollowsOn(keys, links, i) {
      assert EntryOk(e, i);
      LessBMeaning(e(i - 1).s, e(i).s, 0);
      ChainBMeaning(e, n, i - 1, e(i).s);
    }
    LocalCheckSuffices(keys, links);
  }

  // ---------------------------------------------------------------- the longest suffix

  /** Index of the longest of the first n suffixes that w ends with, -1 when there is none. */
  function LongestSuffix(suffix: int -> string, n: nat, w: string): (b: int)
    ensures -1 <= b < n && (b >= 0 ==> EndsWith(w, suffix(b)))
  {
    if n == 0 then -1
    else
      var b := LongestSuffix(suffix, n - 1, w);
      if EndsWith(w, suffix(n - 1)) && (b < 0 || |suffix(b)| < |suffix(n - 1)|) then n - 1 else b
  }

  /** No suffix of w in the list is longer than the one found. */
  lemma {:induction false} LongestSuffixIsLongest(suffix: int -> string, n: nat, w: string, x: nat)
    requires x < n && EndsWith(w, suffix(x))
    ensures var b := LongestSuffix(suffix, n, w); b >= 0 && |suffix(x)| <= |suffix(b)|
  {
    if x < n - 1 { LongestSuffixIsLongest(suffix, n - 1, w, x); }
  }

  lemma {:induction false} SameSuffixes(f: int -> string, g: int -> string, n: nat, w: string)
    requires forall i :: 0 <= i < n ==> f(i) == g(i)
    ensures LongestSuffix(f, n, w) == LongestSuffix(g, n, w)
  {
    if n > 0 { SameSuffixes(f, g, n - 1, w); }
  }

  function Suffixes(e: int -> Among): int -> string {
    i => e(i).s
  }

  lemma {:induction false} LongestHitIsLongestSuffix(e: int -> Among, n: nat, m: nat, text: string, c: int, w: string)
    requires m <= n && forall i :: 0 <= i < n ==> e(i).condition.None?
    ensures var v := Table(e, n);
            LongestHit(ReversedKeys(v), Conditions(v, text, c, -1), Reverse(w), m) == LongestSuffix(Suffixes(e), m, w)
  {
    if m > 0 {
      LongestHitIsLongestSuffix(e, n, m - 1, text, c, w);
      ReversePrefix(e(m - 1).s, w);
      var v := Table(e, n);
      assert ReversedKeys(v)[m - 1] == Reverse(e(m - 1).s) && Conditions(v, text, c, -1)[m - 1];
      assert Hit(ReversedKeys(v), Conditions(v, text, c, -1), Reverse(w), m - 1) == EndsWith(w, Suffixes(e)(m - 1));
    }
  }
}
