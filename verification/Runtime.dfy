/**
 * The Snowball runtime environment: a growing symbol buffer with a cursor and
 * limits, in-place splicing, character groupings and table searches.
 */
module SnowballRuntime {
  import opened Bytes
  import opened AmongTables

  /** Membership test of the grouping routines: false outside [min, max] or past the table. */
  predicate InGroup(s: seq<bv8>, min: int, max: int, ch: char)
  {
    var k := ch as int - min;
    ch as int <= max && 0 <= k && k / 8 < |s| && s[k / 8] & (1 << (k % 8)) != 0
  }

  /** First position from c on whose symbol is (member true) or is not (member false) in the grouping, else |t|. */
  function SeekForward(s: seq<bv8>, min: int, max: int, t: string, c: nat, member: bool): (k: nat)
    requires c <= |t|
    ensures c <= k <= |t|
    ensures forall x :: c <= x < k ==> InGroup(s, min, max, t[x]) != member
    ensures k < |t| ==> InGroup(s, min, max, t[k]) == member
    decreases |t| - c
  {
    if c == |t| || InGroup(s, min, max, t[c]) == member then c
    else SeekForward(s, min, max, t, c + 1, member)
  }

  /** Splicing s over t[bra..ket]. */
  function Splice(t: string, bra: nat, ket: nat, s: string): (r: string)
    requires bra <= ket <= |t|
    ensures |r| == |t| + |s| - (ket - bra)
  {
    t[..bra] + s + t[ket..]
  }

  /** Moving the tail (with the spare symbol) from cKet to cBra + n keeps both ends of the text. */
  lemma GapMoved(was: string, now: string, cBra: nat, cKet: nat, n: nat, len: nat)
    requires 0 < len <= |was| == |now| && cBra <= cKet < len && cBra + n + len - cKet <= |now|
    requires now[cBra + n..cBra + n + len - cKet] == was[cKet..len]
    requires now[..cBra + n] == was[..cBra + n]
    ensures var l := len - 1 + n - (cKet - cBra);
            now[..l][..cBra] == was[..len - 1][..cBra] && now[..l][cBra + n..] == was[..len - 1][cKet..]
  {
    var l := len - 1 + n - (cKet - cBra);
    assert now[..l][..cBra] == now[..cBra + n][..cBra];
    assert now[..l][cBra + n..] == now[cBra + n..cBra + n + len - cKet][..len - 1 - cKet];
    assert was[..len - 1][cKet..] == was[cKet..len][..len - 1 - cKet];
  }

  lemma TextAfterCopy(was: string, now: string, l: nat, dst: nat, s: string)
    requires dst + |s| <= l <= |was|
    requires now == was[..dst] + s + was[dst + |s|..]
    ensures now[..l] == was[..l][..dst] + s + was[..l][dst + |s|..]
  {
  }

  /**
   * Result r and final cursor c1 of a search from cursor c0: the longest hit's
   * result with the cursor past it, or 0 with the cursor left at the shortest
   * text match whose condition was tried and failed.
   */
  ghost predicate Found(v: seq<Among>, keys: seq<string>, q: seq<bool>, t: string, sign: int, c0: int, r: int, c1: int)
    requires |v| == |keys| == |q|
  {
    var b := LongestHit(keys, q, t, |v|);
    if b >= 0 then r == v[b].result && c1 == c0 + sign * |v[b].s|
    else r == 0 && exists y :: ShortestText(keys, t, y) && c1 == c0 + sign * (if y < 0 then 0 else |v[y].s|)
  }

  class Env {
    var p: array<char>
    var size: nat       // SIZE(p)
    var capacity: nat   // CAPACITY(p); the allocation holds one symbol more
    var c: int
    var l: nat
    var lb: int
    var bra: int
    var ket: int
    var I: seq<int>
    var B: seq<bool>

    /** The buffer always holds one symbol beyond the text, inside its capacity. */
    ghost predicate Valid()
      reads this
    {
      size == l + 1 <= capacity && p.Length == capacity + 1
    }

    ghost function Text(): (t: string)
      reads this, p
      requires Valid()
      ensures |t| == l
    {
      p[..l]
    }

    /** SN_create_env with create_s: everything zeroed, an empty text, SIZE 1. */
    constructor (iSize: nat, bSize: nat)
      ensures Valid() && fresh(p) && Text() == ""
      ensures c == 0 && lb == 0 && bra == 0 && ket == 0
      ensures |I| == iSize && (forall k :: 0 <= k < iSize ==> I[k] == 0)
      ensures |B| == bSize && (forall k :: 0 <= k < bSize ==> !B[k])
    {
      p := new char[2];
      size, capacity := 1, 1;
      c, l, lb, bra, ket := 0, 0, 0, 0, 0;
      I, B := seq(iSize, _ => 0), seq(bSize, _ => false);
    }

    /** increase_size: reallocate to n + 20 symbols, keeping the first size of them. */
    method IncreaseSize(n: nat)
      requires Valid() && size <= n
      modifies this`p, this`capacity
      ensures fresh(p) && capacity == n + 20 && p.Length == capacity + 1
      ensures p[..size] == old(p[..size])
    {
      var q := new char[n + 21];
      forall k | 0 <= k < size { q[k] := p[k]; }
      p, capacity := q, n + 20;
    }

    /** memmove within the buffer: n symbols from src to dst, which may overlap. */
    method Move(dst: nat, src: nat, n: nat)
      requires dst + n <= p.Length && src + n <= p.Length
      modifies p
      ensures p[dst..dst + n] == old(p[src..src + n])
      ensures p[..dst] == old(p[..dst]) && p[dst + n..] == old(p[dst + n..])
    {
      forall k | 0 <= k < n { p[dst + k] := p[src + k]; }
    }

    /** memmove of a constant string into the buffer. */
    method CopyIn(dst: nat, s: string)
      requires dst + |s| <= p.Length
      modifies p
      ensures p[..] == old(p[..dst]) + s + old(p[dst + |s|..])
    {
      forall k | 0 <= k < |s| { p[dst + k] := s[k]; }
    }

    /** replace_s, growing the buffer when n symbols do not fit. */
    method Reserve(n: int)
      requires Valid()
      modifies this`p, this`capacity
      ensures Valid() && (p == old(p) || fresh(p)) && n <= capacity
      ensures Text() == old(Text())
    {
      if n > capacity {
        IncreaseSize(n);
        assert p[..l] == p[..size][..l];
        assert old(p[..l]) == old(p[..size])[..l];
      }
    }

    /** replace_s, the part that opens or closes the gap and moves the cursor. */
    method Resize(cBra: nat, cKet: nat, sSize: nat)
      requires Valid() && cBra <= cKet <= l && size + sSize - (cKet - cBra) <= capacity
      modifies this`size, this`l, this`c, p
      ensures Valid() && l == old(l) + sSize - (cKet - cBra)
      ensures Text()[..cBra] == old(Text())[..cBra] && Text()[cBra + sSize..] == old(Text())[cKet..]
      ensures c == if old(c) >= cKet then old(c) + sSize - (cKet - cBra)
                   else if old(c) > cBra then cBra
                   else old(c)
    {
      var adjustment := sSize - (cKet - cBra);
      var len := size;
      ghost var was := p[..];
      Move(cKet + adjustment, cKet, len - cKet);
      size := adjustment + len;
      l := l + adjustment;
      if c >= cKet {
        c := c + adjustment;
      } else if c > cBra {
        c := cBra;
      }
      GapMoved(was, p[..], cBra, cKet, sSize, len);
    }

    /** replace_s: put s in place of the symbols between cBra and cKet, moving the cursor with the text. */
    method ReplaceS(cBra: nat, cKet: nat, s: string) returns (adjustment: int)
      requires Valid() && cBra <= cKet <= l
      modifies this`p, this`size, this`capacity, this`l, this`c, p
      ensures Valid() && (p == old(p) || fresh(p))
      ensures adjustment == |s| - (cKet - cBra)
      ensures Text() == Splice(old(Text()), cBra, cKet, s)
      ensures c == if adjustment == 0 then old(c)
                   else if old(c) >= cKet then old(c) + adjustment
                   else if old(c) > cBra then cBra
                   else old(c)
    {
      adjustment := |s| - (cKet - cBra);
      if adjustment != 0 {
        Reserve(adjustment + size);
        Resize(cBra, cKet, |s|);
      }
      assert Text()[..cBra] == old(Text())[..cBra] && Text()[cBra + |s|..] == old(Text())[cKet..];
      ghost var now := p[..];
      CopyIn(cBra, s);
      TextAfterCopy(now, p[..], l, cBra, s);
    }

    /** slice_check followed by replace_s; -1 when the slice is faulty. */
    method SliceFromS(s: string) returns (ret: int)
      requires Valid()
      modifies this`p, this`size, this`capacity, this`l, this`c, p
      ensures Valid() && (p == old(p) || fresh(p))
      ensures ret == if 0 <= bra <= ket <= old(l) then 0 else -1
      ensures ret == 0 ==> Text() == Splice(old(Text()), bra, ket, s)
      ensures ret == 0 ==> c == if |s| == ket - bra then old(c)
                                else if old(c) >= ket then old(c) + |s| - (ket - bra)
                                else if old(c) > bra then bra
                                else old(c)
      ensures ret != 0 ==> p == old(p) && l == old(l) && Text() == old(Text()) && c == old(c)
    {
      if bra < 0 || bra > ket || ket > l || l > size {
        return -1;
      }
      var _ := ReplaceS(bra, ket, s);
      ret := 0;
    }

    method SliceDel() returns (ret: int)
      requires Valid()
      modifies this`p, this`size, this`capacity, this`l, this`c, p
      ensures Valid() && (p == old(p) || fresh(p))
      ensures ret == if 0 <= bra <= ket <= old(l) then 0 else -1
      ensures ret == 0 ==> Text() == Splice(old(Text()), bra, ket, "")
      ensures ret == 0 ==> c == if ket == bra then old(c)
                                else if old(c) >= ket then old(c) - (ket - bra)
                                else if old(c) > bra then bra
                                else old(c)
      ensures ret != 0 ==> p == old(p) && l == old(l) && Text() == old(Text()) && c == old(c)
    {
      ret := SliceFromS("");
    }

    /** insert_s: splice, then shift the marks that lie at or after the insertion. */
    method InsertS(cBra: nat, cKet: nat, s: string) returns (ret: int)
      requires Valid() && cBra <= cKet <= l
      modifies this`p, this`size, this`capacity, this`l, this`c, this`bra, this`ket, p
      ensures Valid() && (p == old(p) || fresh(p)) && ret == 0
      ensures Text() == Splice(old(Text()), cBra, cKet, s)
      ensures var adjustment := |s| - (cKet - cBra);
              && c == (if adjustment == 0 then old(c)
                       else if old(c) >= cKet then old(c) + adjustment
                       else if old(c) > cBra then cBra
                       else old(c))
              && bra == (if cBra <= old(bra) then old(bra) + adjustment else old(bra))
              && ket == (if cBra <= old(ket) then old(ket) + adjustment else old(ket))
    {
      var adjustment := ReplaceS(cBra, cKet, s);
      if cBra <= bra { bra := bra + adjustment; }
      if cBra <= ket { ket := ket + adjustment; }
      ret := 0;
    }

    /** SN_set_current: replace the whole text and rewind. */
    method SetCurrent(s: string) returns (err: int)
      requires Valid()
      modifies this`p, this`size, this`capacity, this`l, this`c, p
      ensures Valid() && (p == old(p) || fresh(p))
      ensures err == 0 && Text() == s && c == 0
    {
      var _ := ReplaceS(0, l, s);
      c := 0;
      err := 0;
    }

    // -------------------------------------------------------------- matching at the cursor

    method EqS(s: string) returns (ok: bool)
      requires Valid() && 0 <= c <= l
      modifies this`c
      ensures ok == (s <= Text()[old(c)..])
      ensures c == if ok then old(c) + |s| else old(c)
    {
      ok := l - c >= |s| && p[c..c + |s|] == s;
      if ok {
        assert p[c..c + |s|] == p[..l][c..][..|s|];
        c := c + |s|;
      }
    }

    method EqSB(s: string) returns (ok: bool)
      requires Valid() && 0 <= lb <= c <= l
      modifies this`c
      ensures ok == EndsWith(Text()[lb..old(c)], s)
      ensures c == if ok then old(c) - |s| else old(c)
    {
      ok := c - lb >= |s| && p[c - |s|..c] == s;
      assert c - lb >= |s| ==> Text()[lb..c][c - lb - |s|..] == p[c - |s|..c];
      if ok {
        c := c - |s|;
      }
    }

    /** in_grouping (member false stops) and out_grouping (member true stops) with repeat. */
    method SkipGroup(s: seq<bv8>, min: int, max: int, member: bool) returns (ret: int)
      requires Valid() && 0 <= c <= l
      modifies this`c
      ensures c == SeekForward(s, min, max, Text(), old(c), member)
      ensures ret == if c == l then -1 else 1
    {
      while true
        invariant old(c) <= c <= l
        invariant SeekForward(s, min, max, Text(), old(c), member) == SeekForward(s, min, max, Text(), c, member)
        decreases l - c
      {
        if c >= l { return -1; }
        if InGroup(s, min, max, p[c]) == member { return 1; }
        c := c + 1;
      }
    }

    /** in_grouping without repeat: 0 and one step forward on success. */
    method StepInGroup(s: seq<bv8>, min: int, max: int) returns (ret: int)
      requires Valid() && 0 <= c <= l
      modifies this`c
      ensures ret == if old(c) == l then -1 else if InGroup(s, min, max, Text()[old(c)]) then 0 else 1
      ensures c == if ret == 0 then old(c) + 1 else old(c)
    {
      if c >= l { return -1; }
      if !InGroup(s, min, max, p[c]) { return 1; }
      c := c + 1;
      ret := 0;
    }

    /** out_grouping_b with repeat: back up to just after the last member in [lb, c). */
    method SkipBackToGroup(s: seq<bv8>, min: int, max: int) returns (ret: int)
      requires Valid() && 0 <= lb <= c <= l
      modifies this`c
      ensures lb <= c <= old(c)
      ensures forall x :: c <= x < old(c) ==> !InGroup(s, min, max, Text()[x])
      ensures ret == (if c == lb then -1 else 1)
      ensures c > lb ==> InGroup(s, min, max, Text()[c - 1])
    {
      while true
        invariant lb <= c <= old(c)
        invariant forall x :: c <= x < old(c) ==> !InGroup(s, min, max, Text()[x])
        decreases c
      {
        if c <= lb { return -1; }
        assert Text()[c - 1] == p[c - 1];
        if InGroup(s, min, max, p[c - 1]) { return 1; }
        c := c - 1;
      }
    }

    /** in_grouping_b (member true) and out_grouping_b (member false) without repeat: 0 and one step back on success. */
    method StepBackGroup(s: seq<bv8>, min: int, max: int, member: bool) returns (ret: int)
      requires Valid() && 0 <= lb <= c <= l
      modifies this`c
      ensures ret == if old(c) == lb then -1 else if InGroup(s, min, max, Text()[old(c) - 1]) == member then 0 else 1
      ensures c == if ret == 0 then old(c) - 1 else old(c)
    {
      if c <= lb { return -1; }
      if InGroup(s, min, max, p[c - 1]) != member { return 1; }
      c := c - 1;
      ret := 0;
    }

    // -------------------------------------------------------------- table searches

    /** The comparison inside find_among: extend common while entry s agrees with the text from start on. */
    method CompareForward(start: nat, s: string, from: nat) returns (common: nat, below: bool)
      requires Valid() && start <= l
      requires from <= |s| && from <= l - start && Text()[start..][..from] == s[..from]
      ensures common == CommonPrefix(Text()[start..], s)
      ensures below ==> Less(Text()[start..], s)
      ensures !below ==> Leq(s, Text()[start..])
    {
      ghost var t := Text()[start..];
      common, below := from, false;
      while common < |s|
        invariant from <= common <= |s| && common <= |t| && t[..common] == s[..common]
        invariant !below
      {
        if start + common == l { below := true; break; }
        if p[start + common] != s[common] {
          below := p[start + common] < s[common];
          break;
        }
        common := common + 1;
      }
      Compared(t, s, common, below);
    }

    /** The comparison inside find_among_b: entry s read right to left against the text before start. */
    method CompareBackward(start: nat, s: string, from: nat) returns (common: nat, below: bool)
      requires Valid() && 0 <= lb <= start <= l
      requires from <= |s| && from <= start - lb && Reverse(Text()[lb..start])[..from] == Reverse(s)[..from]
      ensures common == CommonPrefix(Reverse(Text()[lb..start]), Reverse(s))
      ensures below ==> Less(Reverse(Text()[lb..start]), Reverse(s))
      ensures !below ==> Leq(Reverse(s), Reverse(Text()[lb..start]))
    {
      ghost var t, key := Reverse(Text()[lb..start]), Reverse(s);
      common, below := from, false;
      while common < |s|
        invariant from <= common <= |s| && common <= |t| && t[..common] == key[..common]
        invariant !below
      {
        if start - common == lb { below := true; break; }
        if p[start - 1 - common] != s[|s| - 1 - common] {
          below := p[start - 1 - common] < s[|s| - 1 - common];
          break;
        }
        common := common + 1;
      }
      Compared(t, key, common, below);
    }

    /** Binary search of find_among: the entry where the chain walk starts, and how much of it agrees. */
    method LocateForward(v: seq<Among>) returns (i: nat, commonI: nat)
      requires Valid() && 0 <= c <= l
      requires WellFormed(Keys(v), Links(v))
      ensures Start(Keys(v), Text()[c..], i, commonI)
    {
      ghost var keys, t := Keys(v), Text()[c..];
      var j := |v|;
      var commonJ := 0;
      i, commonI := 0, 0;
      var firstKeyInspected := false;
      while true
        invariant Bracket(keys, t, i, j, commonI, commonJ) && i < j
        invariant firstKeyInspected ==> i == 0 && j == 1
        decreases j - i + if firstKeyInspected then 0 else 1
      {
        var k := i + (j - i) / 2;
        SkipIsSound(keys, t, i, j, commonI, commonJ, k);
        var common, below := CompareForward(c, v[k].s, if commonI < commonJ then commonI else commonJ);
        Narrow(keys, t, i, j, commonI, commonJ, k, common, below);
        if below { j, commonJ := k, common; } else { i, commonI := k, common; }
        if j - i <= 1 {
          if i > 0 || j == i || firstKeyInspected {
            Stop(keys, t, i, j, commonI, commonJ);
            break;
          }
          firstKeyInspected := true;
        }
      }
    }

    /** Binary search of find_among_b. */
    method LocateBackward(v: seq<Among>) returns (i: nat, commonI: nat)
      requires Valid() && 0 <= lb <= c <= l
      requires WellFormed(ReversedKeys(v), Links(v))
      ensures Start(ReversedKeys(v), Reverse(Text()[lb..c]), i, commonI)
    {
      ghost var keys, t := ReversedKeys(v), Reverse(Text()[lb..c]);
      var j := |v|;
      var commonJ := 0;
      i, commonI := 0, 0;
      var firstKeyInspected := false;
      while true
        invariant Bracket(keys, t, i, j, commonI, commonJ) && i < j
        invariant firstKeyInspected ==> i == 0 && j == 1
        decreases j - i + if firstKeyInspected then 0 else 1
      {
        var k := i + (j - i) / 2;
        SkipIsSound(keys, t, i, j, commonI, commonJ, k);
        var common, below := CompareBackward(c, v[k].s, if commonI < commonJ then commonI else commonJ);
        Narrow(keys, t, i, j, commonI, commonJ, k, common, below);
        if below { j, commonJ := k, common; } else { i, commonI := k, common; }
        if j - i <= 1 {
          if i > 0 || j == i || firstKeyInspected {
            Stop(keys, t, i, j, commonI, commonJ);
            break;
          }
          firstKeyInspected := true;
        }
      }
    }

    /** The second loop of both searches: follow the links, trying conditions, moving the cursor by sign. */
    method WalkChain(v: seq<Among>, sign: int, first: nat, commonI: nat, ghost keys: seq<string>, ghost t: string)
      returns (r: int)
      requires Valid() && |keys| == |v| && forall x :: 0 <= x < |v| ==> |keys[x]| == |v[x].s|
      requires WellFormed(keys, Links(v)) && Start(keys, t, first, commonI)
      modifies this`c
      ensures Found(v, keys, Conditions(v, Text(), old(c), sign), t, sign, old(c), r, c)
    {
      var i, start := first, c;
      ghost var q := Conditions(v, Text(), c, sign);
      ghost var tried := -1;
      WalkStart(keys, q, t, i, commonI);
      while true
        invariant Walk(keys, q, t, i, commonI, tried)
        invariant c == start + sign * if tried < 0 then 0 else |v[tried].s|
        decreases |v[i].s|
      {
        var w := v[i];
        ghost var before := tried;
        assert keys[i] <= t <==> |keys[i]| <= commonI by { assert keys[i] <= keys[i]; }
        if commonI >= |w.s| {
          c := start + sign * |w.s|;
          var res := w.condition.None? || w.condition.value(p[..l], c);
          assert q[i] == res;
          if res {
            WalkHit(keys, q, t, i, commonI, before);
            return w.result;
          }
          tried := i;
        }
        if w.substringI < 0 {
          WalkEnd(keys, Links(v), q, t, i, commonI, before);
          return 0;
        }
        WalkStep(keys, Links(v), q, t, i, commonI, before);
        i := w.substringI;
      }
    }

    /** find_among: equal to the linear scan for the longest entry at the cursor whose condition holds. */
    method FindAmong(v: seq<Among>) returns (r: int)
      requires Valid() && 0 <= c <= l
      requires WellFormed(Keys(v), Links(v))
      modifies this`c
      ensures Found(v, Keys(v), Conditions(v, Text(), old(c), 1), Text()[old(c)..], 1, old(c), r, c)
    {
      var i, commonI := LocateForward(v);
      r := WalkChain(v, 1, i, commonI, Keys(v), Text()[c..]);
    }

    /** find_among_b: the same for the entries that end at the cursor. */
    method FindAmongB(v: seq<Among>) returns (r: int)
      requires Valid() && 0 <= lb <= c <= l
      requires WellFormed(ReversedKeys(v), Links(v))
      modifies this`c
      ensures Found(v, ReversedKeys(v), Conditions(v, Text(), old(c), -1), Reverse(Text()[lb..old(c)]), -1, old(c), r, c)
    {
      var i, commonI := LocateBackward(v);
      r := WalkChain(v, -1, i, commonI, ReversedKeys(v), Reverse(Text()[lb..c]));
    }
  }
}
