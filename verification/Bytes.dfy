/**
 * Byte strings as the C and C++ sources compare them: the order of memcmp and
 * std::string::operator<, common prefixes, and reversal for backward searches.
 */
module Bytes {

  datatype Option<+T> = None | Some(value: T)

  type Byte = c: char | c as int < 256

  type Text = seq<Byte>

  /** Length of the longest common prefix of a and b. */
  function CommonPrefix(a: string, b: string): (n: nat)
    ensures n <= |a| && n <= |b| && a[..n] == b[..n]
    ensures n < |a| && n < |b| ==> a[n] != b[n]
  {
    if a != [] && b != [] && a[0] == b[0] then
      var n := CommonPrefix(a[1..], b[1..]);
      assert a[..n + 1] == [a[0]] + a[1..][..n];
      assert b[..n + 1] == [b[0]] + b[1..][..n];
      n + 1
    else 0
  }

  /** Strict lexicographic order: a proper prefix is smaller. */
  predicate Less(a: string, b: string) {
    var n := CommonPrefix(a, b);
    n < |b| && (n == |a| || a[n] < b[n])
  }

  predicate Leq(a: string, b: string) {
    !Less(b, a)
  }

  /** The common prefix length is pinned down by what it means. */
  lemma CommonPrefixIs(a: string, b: string, n: nat)
    requires n <= |a| && n <= |b| && a[..n] == b[..n]
    requires n == |a| || n == |b| || a[n] != b[n]
    ensures CommonPrefix(a, b) == n && CommonPrefix(b, a) == n
  {
    assert forall i :: 0 <= i < n ==> a[i] == a[..n][i] == b[..n][i] == b[i];
    var m := CommonPrefix(a, b);
    assert forall i :: 0 <= i < m ==> a[i] == a[..m][i] == b[..m][i] == b[i];
    var k := CommonPrefix(b, a);
    assert forall i :: 0 <= i < k ==> a[i] == a[..k][i] == b[..k][i] == b[i];
  }

  lemma LessAsymmetric(a: string, b: string)
    ensures Less(a, b) ==> a != b && Leq(a, b)
    ensures Less(a, b) || Less(b, a) || a == b
  {
    CommonPrefixIs(a, b, CommonPrefix(a, b));
    if !Less(a, b) && !Less(b, a) { assert a == a[..|a|] && b == b[..|b|]; }
    if a == b { CommonPrefixIs(a, b, |a|); }
  }

  lemma LessTransitive(a: string, b: string, c: string)
    requires Less(a, b) && Less(b, c)
    ensures Less(a, c)
  {
    var m, n := CommonPrefix(a, b), CommonPrefix(b, c);
    var k := if m < n then m else n;
    assert a[..k] == b[..m][..k] && b[..m][..k] == b[..n][..k] && b[..n][..k] == c[..k];
    CommonPrefixIs(a, c, k);
  }

  lemma LeqOrder(a: string, b: string, c: string)
    ensures Leq(a, a) && (Leq(a, b) || Leq(b, a))
    ensures Leq(a, b) && Leq(b, c) ==> Leq(a, c)
    ensures Leq(a, b) && Leq(b, a) ==> a == b
  {
    LessAsymmetric(a, a);
    LessAsymmetric(a, b);
    LessAsymmetric(b, c);
    if Less(c, a) && Leq(a, b) && Leq(b, c) {
      if a != b { LessTransitive(c, a, b); }
    }
  }

  /** Whatever lies between two strings that share a prefix shares it too. */
  lemma Between(a: string, b: string, c: string, m: nat)
    requires Leq(a, b) && Leq(b, c)
    requires m <= |a| && m <= |c| && a[..m] == c[..m]
    ensures m <= |b| && b[..m] == a[..m]
  {
    var n := CommonPrefix(a, b);
    CommonPrefixIs(a, b, n);
    if n < m {
      assert a[n] == a[..m][n] && c[n] == c[..m][n];
      assert c[..n] == a[..m][..n] == a[..n];
      CommonPrefixIs(c, b, n);
    } else {
      assert b[..m] == b[..n][..m] && a[..m] == a[..n][..m];
    }
  }

  /** A prefix of t does not sort after t. */
  lemma PrefixLeq(p: string, t: string)
    requires p <= t
    ensures Leq(p, t)
  {
    CommonPrefixIs(t, p, |p|);
  }

  function Reverse(s: string): (r: string)
    ensures |r| == |s|
    ensures forall k :: 0 <= k < |s| ==> r[k] == s[|s| - 1 - k]
  {
    if s == [] then [] else Reverse(s[1..]) + [s[0]]
  }

  predicate EndsWith(w: string, s: string) {
    |s| <= |w| && w[|w| - |s|..] == s
  }

  /** Reversal turns suffixes into prefixes. */
  lemma ReversePrefix(s: string, w: string)
    ensures Reverse(s) <= Reverse(w) <==> EndsWith(w, s)
  {
    var r, t := Reverse(s), Reverse(w);
    if EndsWith(w, s) {
      forall k | 0 <= k < |s| ensures r[k] == t[k] {
        assert w[|w| - |s|..][|s| - 1 - k] == s[|s| - 1 - k];
      }
    }
    if r <= t {
      forall k | 0 <= k < |s| ensures w[|w| - |s|..][k] == s[k] {
        assert r[|s| - 1 - k] == t[|s| - 1 - k];
      }
    }
  }
}
