/**
 * The theory behind find_among and find_among_b: tables of strings sorted
 * lexicographically, each entry linked to the longest entry that is a proper
 * prefix of it. A forward search reads entries left to right; a backward
 * search is the same search over reversed entries and reversed text.
 */
module AmongTables {
  import opened Bytes

  /** A condition attached to an entry: it sees the text and the cursor. */
  type Condition = (string, int) -> bool

  datatype Among = Among(s: string, substringI: int, result: int, condition: Option<Condition>)

  function Keys(v: seq<Among>): (keys: seq<string>)
  {
    seq(|v|, x requires 0 <= x < |v| => v[x].s)
  }

  function ReversedKeys(v: seq<Among>): (keys: seq<string>)
  {
    seq(|v|, x requires 0 <= x < |v| => Reverse(v[x].s))
  }

  function Links(v: seq<Among>): (links: seq<int>)
  {
    seq(|v|, x requires 0 <= x < |v| => v[x].substringI)
  }

  /** Outcome of each entry's condition when the cursor has moved past the entry (sign 1) or before it (sign -1). */
  function Conditions(v: seq<Among>, text: string, c: int, sign: int): (q: seq<bool>)
  {
    seq(|v|, x requires 0 <= x < |v| =>
      v[x].condition.None? || v[x].condition.value(text, c + sign * |v[x].s|))
  }

  // ---------------------------------------------------------------- well-formed tables

  ghost predicate Sorted(keys: seq<string>) {
    forall i, j {:trigger Less(keys[i], keys[j])} :: 0 <= i < j < |keys| ==> Less(keys[i], keys[j])
  }

  /** p names the longest entry that is a proper prefix of entry i, or is negative when there is none. */
  ghost predicate LinkOk(keys: seq<string>, i: int, p: int)
    requires 0 <= i < |keys|
  {
    if p < 0 then forall x :: 0 <= x < |keys| ==> !(keys[x] < keys[i])
    else
      p < |keys| && keys[p] < keys[i] &&
      forall x :: 0 <= x < |keys| && keys[x] < keys[i] ==> |keys[x]| <= |keys[p]|
  }

  ghost predicate WellFormed(keys: seq<string>, links: seq<int>) {
    && 0 < |keys| == |links|
    && Sorted(keys)
    && forall i :: 0 <= i < |keys| ==> LinkOk(keys, i, links[i])
  }

  /** First entry on the link chain from i that is a proper prefix of k; -1 when the chain runs out. */
  function FirstOnChain(keys: seq<string>, links: seq<int>, i: int, k: string): (p: int)
    requires |keys| == |links|
    ensures -1 <= p < |keys|
    ensures p >= 0 ==> keys[p] < k
    decreases i
  {
    if i < 0 || i >= |keys| then -1
    else if keys[i] < k then i
    else if links[i] < i then FirstOnChain(keys, links, links[i], k) else -1
  }

  /** Well-formedness checked entry by entry, looking only at the entry before. */
  predicate LocallyWellFormed(keys: seq<string>, links: seq<int>) {
    && 0 < |keys| == |links|
    && links[0] == -1
    && forall i :: 1 <= i < |keys| ==> FollowsOn(keys, links, i)
  }

  /** Entry i sorts after the entry before it, and its link is found on that entry's chain. */
  predicate FollowsOn(keys: seq<string>, links: seq<int>, i: int)
    requires 1 <= i < |keys| == |links|
  {
    Less(keys[i - 1], keys[i]) && links[i] == FirstOnChain(keys, links, i - 1, keys[i])
  }

  lemma {:induction false} LocallySorted(keys: seq<string>, links: seq<int>, i: int, j: int)
    requires LocallyWellFormed(keys, links)
    requires 0 <= i < j < |keys|
    ensures Less(keys[i], keys[j])
    decreases j - i
  {
    assert FollowsOn(keys, links, j);
    if i + 1 < j {
      LocallySorted(keys, links, i, j - 1);
      LessTransitive(keys[i], keys[j - 1], keys[j]);
    }
  }

  /** An entry that is a proper prefix of another comes before it. */
  lemma PrefixBefore(keys: seq<string>, x: int, i: int)
    requires Sorted(keys) && 0 <= x < |keys| && 0 <= i < |keys|
    requires keys[x] <= keys[i]
    ensures x <= i
  {
    PrefixLeq(keys[x], keys[i]);
  }

  /** Entries that are prefixes of k and not above entry i are all prefixes of entry i, when entry i is not above k. */
  lemma PrefixesShared(keys: seq<string>, x: int, i: int, k: string)
    requires Sorted(keys) && 0 <= x <= i < |keys|
    requires keys[x] <= k && Leq(keys[i], k)
    ensures keys[x] <= keys[i]
  {
    if x < i {
      LessAsymmetric(keys[x], keys[i]);
      assert k[..|keys[x]|] == keys[x][..|keys[x]|];
      Between(keys[x], keys[i], k, |keys[x]|);
      assert keys[i][..|keys[x]|] == keys[x];
    }
  }

  /** The links of the first n entries point downwards and are right. */
  ghost predicate LinkedBelow(keys: seq<string>, links: seq<int>, n: int) {
    && |keys| == |links|
    && forall x {:trigger links[x]} :: 0 <= x < n <= |keys| ==> -1 <= links[x] < x && LinkOk(keys, x, links[x])
  }

  /** The chain from i meets a prefix of k at least as long as any entry x that entry i and k both extend. */
  lemma {:induction false} ChainFindsLongest(keys: seq<string>, links: seq<int>, i: int, k: string, x: int)
    requires Sorted(keys) && 0 <= x <= i < |keys| && LinkedBelow(keys, links, i + 1)
    requires keys[x] <= keys[i] && keys[x] < k
    ensures var p := FirstOnChain(keys, links, i, k); p >= 0 && |keys[x]| <= |keys[p]|
    decreases i
  {
    if !(keys[i] < k) {
      assert keys[x] < keys[i];
      var p := links[i];
      assert LinkOk(keys, i, p);
      PrefixBefore(keys, x, p);
      ChainFindsLongest(keys, links, p, k, x);
    }
  }

  lemma {:induction false} ChainGoesDown(keys: seq<string>, links: seq<int>, i: int, k: string)
    requires |keys| == |links|
    ensures FirstOnChain(keys, links, i, k) <= if i < 0 then -1 else i
    decreases i
  {
    if 0 <= i < |keys| && links[i] < i { ChainGoesDown(keys, links, links[i], k); }
  }

  /** The entry-by-entry check is enough: it implies the global property the searches rely on. */
  lemma LocalCheckSuffices(keys: seq<string>, links: seq<int>)
    requires LocallyWellFormed(keys, links)
    ensures WellFormed(keys, links)
  {
    forall i, j | 0 <= i < j < |keys| ensures Less(keys[i], keys[j]) {
      LocallySorted(keys, links, i, j);
    }
    LocalLinks(keys, links, |keys|);
  }

  lemma {:induction false} LocalLinks(keys: seq<string>, links: seq<int>, n: int)
    requires LocallyWellFormed(keys, links) && Sorted(keys) && 0 <= n <= |keys|
    ensures LinkedBelow(keys, links, n)
  {
    if n > 0 {
      LocalLinks(keys, links, n - 1);
      if n == 1 {
        FirstLink(keys);
      } else {
        assert FollowsOn(keys, links, n - 1);
        LocalLink(keys, links, n - 1);
      }
    }
  }

  lemma FirstLink(keys: seq<string>)
    requires Sorted(keys) && 0 < |keys|
    ensures LinkOk(keys, 0, -1)
  {
    forall x | 0 <= x < |keys| && keys[x] < keys[0] ensures false { PrefixBefore(keys, x, 0); }
  }

  lemma LocalLink(keys: seq<string>, links: seq<int>, i: int)
    requires Sorted(keys) && 1 <= i < |keys| && LinkedBelow(keys, links, i)
    requires links[i] == FirstOnChain(keys, links, i - 1, keys[i])
    ensures -1 <= links[i] < i && LinkOk(keys, i, links[i])
  {
    ChainGoesDown(keys, links, i - 1, keys[i]);
    forall x | 0 <= x < |keys| && keys[x] < keys[i] ensures links[i] >= 0 && |keys[x]| <= |keys[links[i]]| {
      PrefixBefore(keys, x, i);
      LessAsymmetric(keys[i - 1], keys[i]);
      PrefixesShared(keys, x, i - 1, keys[i]);
      ChainFindsLongest(keys, links, i - 1, keys[i], x);
    }
  }

  // ---------------------------------------------------------------- the reference: a linear scan

  /** Entry x is a prefix of the text and its condition holds. */
  predicate Hit(keys: seq<string>, q: seq<bool>, t: string, x: int)
    requires |q| == |keys|
  {
    0 <= x < |keys| && keys[x] <= t && q[x]
  }

  /** Index of the longest hit among the first n entries, -1 when there is none. */
  function LongestHit(keys: seq<string>, q: seq<bool>, t: string, n: nat): (b: int)
    requires |q| == |keys| && n <= |keys|
    ensures b == -1 || Hit(keys, q, t, b)
    ensures forall x :: 0 <= x < n && Hit(keys, q, t, x) ==> b >= 0 && |keys[x]| <= |keys[b]|
  {
    if n == 0 then -1
    else
      var b := LongestHit(keys, q, t, n - 1);
      if Hit(keys, q, t, n - 1) && (b < 0 || |keys[b]| < |keys[n - 1]|) then n - 1 else b
  }

  /** In a sorted table the longest hit is unique. */
  lemma LongestHitUnique(keys: seq<string>, q: seq<bool>, t: string, b: int)
    requires Sorted(keys) && |q| == |keys|
    requires Hit(keys, q, t, b)
    requires forall x :: Hit(keys, q, t, x) ==> |keys[x]| <= |keys[b]|
    ensures LongestHit(keys, q, t, |keys|) == b
  {
    var a := LongestHit(keys, q, t, |keys|);
    assert keys[a] == t[..|keys[a]|] && keys[b] == t[..|keys[b]|];
    LessAsymmetric(keys[a], keys[b]);
  }

  /** y is the shortest entry that is a prefix of the text, or is -1 when no entry is. */
  ghost predicate ShortestText(keys: seq<string>, t: string, y: int) {
    if y < 0 then y == -1 && forall x :: 0 <= x < |keys| ==> !(keys[x] <= t)
    else y < |keys| && keys[y] <= t && forall x :: 0 <= x < |keys| && keys[x] <= t ==> |keys[y]| <= |keys[x]|
  }

  // ---------------------------------------------------------------- invariants of the two loops

  /**
   * Binary search: the text sorts below entry j and, once entry i has been
   * inspected, not below entry i; ci and cj are lengths already known to agree.
   */
  ghost predicate Bracket(keys: seq<string>, t: string, i: int, j: int, ci: int, cj: int) {
    && 0 <= i <= j <= |keys| && i < |keys|
    && (if j < |keys| then Less(t, keys[j]) && cj == CommonPrefix(t, keys[j]) else cj == 0)
    && (if i > 0 || ci != 0 then Leq(keys[i], t) && ci == CommonPrefix(t, keys[i]) else ci == 0)
  }

  /** The lengths carried along are safe starting points for comparing the middle entry. */
  lemma SkipIsSound(keys: seq<string>, t: string, i: int, j: int, ci: int, cj: int, k: int)
    requires Sorted(keys) && Bracket(keys, t, i, j, ci, cj) && i <= k < j
    ensures var m := if ci < cj then ci else cj;
            0 <= m <= |t| && m <= |keys[k]| && t[..m] == keys[k][..m]
  {
    var m := if ci < cj then ci else cj;
    if m > 0 {
      CommonPrefixIs(t, keys[i], ci);
      assert keys[i][..m] == t[..ci][..m] == t[..m];
      assert keys[j][..m] == t[..cj][..m] == t[..m];
      if i < k { LessAsymmetric(keys[i], keys[k]); } else { LessAsymmetric(keys[i], keys[i]); }
      LessAsymmetric(keys[k], keys[j]);
      Between(keys[i], keys[k], keys[j], m);
    }
  }

  /** One round of the binary search keeps the bracket and moves one end of it to k. */
  lemma Narrow(keys: seq<string>, t: string, i: int, j: int, ci: int, cj: int, k: int, m: int, below: bool)
    requires Bracket(keys, t, i, j, ci, cj) && i <= k < j
    requires m == CommonPrefix(t, keys[k])
    requires if below then Less(t, keys[k]) else Leq(keys[k], t)
    ensures if below then Bracket(keys, t, i, k, ci, m) else Bracket(keys, t, k, j, m, cj)
  {
  }

  /** What the byte-by-byte comparison establishes about one entry. */
  lemma Compared(t: string, key: string, m: nat, below: bool)
    requires m <= |t| && m <= |key| && t[..m] == key[..m]
    requires below ==> m < |key| && (m == |t| || t[m] < key[m])
    requires !below ==> m == |key| || (m < |t| && t[m] > key[m])
    ensures CommonPrefix(t, key) == m
    ensures below ==> Less(t, key)
    ensures !below ==> Leq(key, t)
  {
    CommonPrefixIs(t, key, m);
  }

  /**
   * Chain walk at entry m with agreed length ci: longer text matches have
   * failed their condition, shorter ones lie ahead on the chain, and tried is
   * the shortest one passed so far.
   */
  ghost predicate Walk(keys: seq<string>, q: seq<bool>, t: string, m: int, ci: int, tried: int)
    requires |q| == |keys|
  {
    && 0 <= m < |keys| && -1 <= tried < |keys|
    && (forall x :: 0 <= x < |keys| && keys[x] <= t && |keys[m]| < |keys[x]| ==> !q[x])
    && (forall x :: 0 <= x < |keys| && keys[x] <= t && |keys[x]| <= |keys[m]| ==> keys[x] <= keys[m])
    && (forall x :: 0 <= x < |keys| && keys[x] <= keys[m] ==> (keys[x] <= t <==> |keys[x]| <= ci))
    && (tried >= 0 ==> keys[tried] <= t && |keys[m]| < |keys[tried]|)
    && (forall x :: 0 <= x < |keys| && keys[x] <= t && |keys[m]| < |keys[x]| ==>
          tried >= 0 && |keys[tried]| <= |keys[x]|)
  }

  /**
   * Where the binary search stops: at the last entry not above the text, with
   * the exact agreed length, or at entry 0 with length 0 when even entry 0 is above.
   */
  ghost predicate Start(keys: seq<string>, t: string, i: int, ci: int) {
    && 0 <= i < |keys|
    && (|| (i == 0 && ci == 0 && Less(t, keys[0]))
        || (Leq(keys[i], t) && ci == CommonPrefix(t, keys[i]) && (i + 1 < |keys| ==> Less(t, keys[i + 1]))))
  }

  /** The three ways out of the binary search all give a correct start. */
  lemma Stop(keys: seq<string>, t: string, i: int, j: int, ci: int, cj: int)
    requires Bracket(keys, t, i, j, ci, cj) && j - i <= 1
    requires i == j ==> i == 0
    requires i == 0 < j ==> Leq(keys[0], t) && ci == CommonPrefix(t, keys[0])
    ensures Start(keys, t, i, ci)
  {
  }

  lemma WalkStart(keys: seq<string>, q: seq<bool>, t: string, i: int, ci: int)
    requires Sorted(keys) && |q| == |keys| && Start(keys, t, i, ci)
    ensures Walk(keys, q, t, i, ci, -1)
  {
    if Less(t, keys[0]) && i == 0 && ci == 0 {
      WalkStartBelow(keys, q, t);
    } else {
      forall x | 0 <= x < |keys| && keys[x] <= t ensures keys[x] <= keys[i] {
        PrefixLeq(keys[x], t);
        if x > i + 1 { LessTransitive(t, keys[i + 1], keys[x]); }
        PrefixesShared(keys, x, i, t);
      }
      forall x | 0 <= x < |keys| && keys[x] <= keys[i] ensures keys[x] <= t <==> |keys[x]| <= ci {
        PrefixWithin(keys[x], keys[i], t, ci);
      }
    }
  }

  lemma PrefixWithin(u: string, key: string, t: string, ci: nat)
    requires u <= key && ci == CommonPrefix(t, key)
    ensures u <= t <==> |u| <= ci
  {
    if |u| <= ci {
      assert u == key[..|u|] == key[..ci][..|u|] == t[..ci][..|u|] == t[..|u|];
    }
  }

  /** When even entry 0 is above the text, nothing matches. */
  lemma WalkStartBelow(keys: seq<string>, q: seq<bool>, t: string)
    requires Sorted(keys) && |q| == |keys| > 0 && Less(t, keys[0])
    ensures Walk(keys, q, t, 0, 0, -1)
  {
    forall x | 0 <= x < |keys| ensures !(keys[x] <= t) {
      if x > 0 { LessTransitive(t, keys[0], keys[x]); }
      if keys[x] <= t { PrefixLeq(keys[x], t); }
    }
    forall x | 0 <= x < |keys| && keys[x] <= keys[0] ensures x == 0 {
      PrefixBefore(keys, x, 0);
    }
  }

  /** Following the link keeps the walk invariant. */
  lemma WalkStep(keys: seq<string>, links: seq<int>, q: seq<bool>, t: string, m: int, ci: int, tried: int)
    requires WellFormed(keys, links) && |q| == |keys| && Walk(keys, q, t, m, ci, tried)
    requires keys[m] <= t ==> !q[m]
    requires links[m] >= 0
    ensures Walk(keys, q, t, links[m], ci, if |keys[m]| <= ci then m else tried)
    ensures |keys[links[m]]| < |keys[m]|
  {
    var p := links[m];
    assert LinkOk(keys, m, p);
    forall x | 0 <= x < |keys| && keys[x] <= t && |keys[p]| < |keys[x]| ensures |keys[m]| <= |keys[x]| {
    }
    forall x | 0 <= x < |keys| && keys[x] <= t && |keys[x]| == |keys[m]| ensures x == m {
      SameLength(keys, x, m);
    }
  }

  lemma SameLength(keys: seq<string>, x: int, m: int)
    requires Sorted(keys) && 0 <= x < |keys| && 0 <= m < |keys|
    requires keys[x] <= keys[m] && |keys[x]| == |keys[m]|
    ensures x == m
  {
    LessAsymmetric(keys[x], keys[m]);
  }

  /** Stopping at a hit returns the longest one. */
  lemma WalkHit(keys: seq<string>, q: seq<bool>, t: string, m: int, ci: int, tried: int)
    requires Sorted(keys) && |q| == |keys| && Walk(keys, q, t, m, ci, tried)
    requires |keys[m]| <= ci && q[m]
    ensures LongestHit(keys, q, t, |keys|) == m
  {
    LongestHitUnique(keys, q, t, m);
  }

  /** Running off the chain means there was no hit, and leaves the cursor at the shortest text match tried. */
  lemma WalkEnd(keys: seq<string>, links: seq<int>, q: seq<bool>, t: string, m: int, ci: int, tried: int)
    requires WellFormed(keys, links) && |q| == |keys| && Walk(keys, q, t, m, ci, tried)
    requires keys[m] <= t ==> !q[m]
    requires links[m] < 0
    ensures LongestHit(keys, q, t, |keys|) == -1
    ensures ShortestText(keys, t, if |keys[m]| <= ci then m else tried)
  {
    assert LinkOk(keys, m, links[m]);
    forall x | 0 <= x < |keys| && keys[x] <= t && |keys[x]| <= |keys[m]| ensures x == m {
      if |keys[x]| == |keys[m]| { SameLength(keys, x, m); }
    }
    assert keys[m] <= t <==> |keys[m]| <= ci;
  }
}
