/** The loops of class Path, piece by piece. */
module PathLoops {

  import opened PathSegments
  import opened Rfc3986
  import opened PathModel
  import opened PathNormal

  // ---------------------------------------------------------------- assign

  /** The segments still to come from begin on. */
  function Pieces(s: string, begin: nat): (segs: seq<string>)
    requires begin <= |s|
  {
    NonEmpty(Split(s[begin..]))
  }

  lemma StartPieces(s: string)
    requires s != ""
    ensures Pieces(s, 0) == NonEmpty(Split(s))
    ensures s[0] == '/' ==> Pieces(s, 1) == NonEmpty(Split(s))
  {
    assert s[0..] == s;
    FirstOfSplit(s);
    if s[0] == '/' {
      assert s == "/" + s[1..];
      SplitSlash(s[1..]);
    }
  }

  lemma WordPiece(w: string)
    requires '/' !in w
    ensures NonEmpty(Split(w)) == if w == "" then [] else [w]
  {
    SplitWord(w);
    assert [w][1..] == [];
  }

  lemma LastPiece(s: string, begin: nat)
    requires begin <= |s| && '/' !in s[begin..|s|]
    ensures Pieces(s, begin) == if begin == |s| then [] else [s[begin..|s|]]
  {
    assert s[begin..|s|] == s[begin..];
    WordPiece(s[begin..]);
  }

  lemma NextPiece(s: string, begin: nat, end: nat)
    requires begin <= end < |s| && '/' !in s[begin..end] && s[end] == '/'
    ensures Pieces(s, end) == Pieces(s, end + 1)
    ensures Pieces(s, begin) == (if begin == end then [] else [s[begin..end]]) + Pieces(s, end)
  {
    var w, rest := s[begin..end], s[end + 1..];
    assert s[begin..] == w + ("/" + rest) && s[end..] == "/" + rest;
    SplitConcat(w, rest);
    SplitSlash(rest);
    NonEmptyConcat(Split(w), Split(rest));
    NonEmptyConcat([""], Split(rest));
    assert NonEmpty([""]) == [];
    WordPiece(w);
  }

  /** done holds the segments before begin, and no slash lies between begin and end. */
  ghost predicate Cutting(s: string, begin: nat, end: nat, done: seq<string>) {
    begin <= end <= |s| && '/' !in s[begin..end] && done + Pieces(s, begin) == NonEmpty(Split(s))
  }

  lemma CutStart(s: string)
    requires s != ""
    ensures Cutting(s, 0, 0, []) && (s[0] == '/' ==> Cutting(s, 1, 1, []))
  {
    StartPieces(s);
    assert [] + Pieces(s, 0) == Pieces(s, 0) && [] + Pieces(s, 1) == Pieces(s, 1);
  }

  lemma CutOn(s: string, begin: nat, end: nat, done: seq<string>)
    requires Cutting(s, begin, end, done) && end < |s| && s[end] != '/'
    ensures Cutting(s, begin, end + 1, done)
  {
    assert s[begin..end + 1] == s[begin..end] + [s[end]];
  }

  lemma CutSkip(s: string, end: nat, done: seq<string>)
    requires Cutting(s, end, end, done) && end < |s| && s[end] == '/'
    ensures Cutting(s, end + 1, end + 1, done)
  {
    NextPiece(s, end, end);
  }

  lemma CutPush(s: string, begin: nat, end: nat, done: seq<string>)
    requires Cutting(s, begin, end, done) && begin < end && (end == |s| || s[end] == '/')
    ensures Cutting(s, end, end, done + [s[begin..end]])
  {
    if end < |s| {
      NextPiece(s, begin, end);
    } else {
      LastPiece(s, begin);
      LastPiece(s, end);
    }
  }

  lemma CutEnd(s: string, done: seq<string>)
    requires Cutting(s, |s|, |s|, done)
    ensures done == NonEmpty(Split(s))
  {
    LastPiece(s, |s|);
  }

  // ---------------------------------------------------------------- size and get

  function Total(segs: seq<string>): (n: nat) {
    if segs == [] then 0 else |segs[0]| + Total(segs[1..])
  }

  lemma {:induction false} TotalSnoc(segs: seq<string>, w: string)
    ensures Total(segs + [w]) == Total(segs) + |w|
  {
    if segs == [] {
      assert segs + [w] == [w];
    } else {
      TotalSnoc(segs[1..], w);
      assert (segs + [w])[1..] == segs[1..] + [w];
    }
  }

  lemma {:induction false} JoinLength(segs: seq<string>)
    requires segs != []
    ensures |Join(segs)| == Total(segs) + |segs| - 1
  {
    if |segs| > 1 {
      JoinLength(segs[1..]);
    }
  }

  /** Each segment with a slash behind it. */
  function Slashed(segs: seq<string>): (s: string) {
    if segs == [] then "" else segs[0] + "/" + Slashed(segs[1..])
  }

  lemma {:induction false} SlashedSnoc(segs: seq<string>, w: string)
    ensures Slashed(segs + [w]) == Slashed(segs) + w + "/"
  {
    if segs == [] {
      assert segs + [w] == [w];
    } else {
      SlashedSnoc(segs[1..], w);
      assert (segs + [w])[1..] == segs[1..] + [w];
    }
  }

  lemma {:induction false} SlashedJoin(segs: seq<string>)
    requires segs != []
    ensures Slashed(segs) == Join(segs) + "/"
  {
    if |segs| > 1 {
      SlashedJoin(segs[1..]);
    }
  }

  lemma NotTwoSlashes(p: PathValue)
    requires p.segs != [] && ValidSegs(p.segs)
    ensures Got(p) != "//"
  {
    MadeByAssign(p);
    assert "//" == "/" + "/" && "/" + "" == "/";
    SplitSlash("/");
    SplitSlash("");
    assert NonEmpty(Split("//")) == [];
  }

  // ---------------------------------------------------------------- merge

  lemma StepValid(p: PathValue, w: string)
    requires ValidSegs(p.segs) && w != "" && '/' !in w
    ensures ValidSegs(Step(p, w).segs)
  {
    PopValid(p.segs);
  }

  lemma PopValid(segs: seq<string>)
    requires ValidSegs(segs)
    ensures ValidSegs(Pop(segs))
  {
    assert forall w :: w in Pop(segs) ==> w in segs;
  }

  lemma WalkOn(p: PathValue, ref: seq<string>, i: nat)
    requires i < |ref|
    ensures Walk(p, ref[i..]) == Walk(Step(p, ref[i]), ref[i + 1..])
  {
    assert ref[i..][1..] == ref[i + 1..];
  }

  // ---------------------------------------------------------------- normalize

  /** The first n segments are normalised into the first i, the others are still as they were. */
  ghost predicate At(was: seq<string>, n: nat, segs: seq<string>, i: nat) {
    && 1 <= n <= |was| && i <= |segs|
    && segs[..i] == Spell(Lead(was), RouteOf(was[..n])) && segs[i..] == was[n..]
  }

  lemma AtNext(was: seq<string>, n: nat, segs: seq<string>, i: nat)
    requires At(was, n, segs, i) && i < |segs|
    ensures n < |was| && segs[i] == was[n] && was[n + 1..] == segs[i + 1..]
    ensures RouteOf(was[..n + 1]) == Enter(RouteOf(was[..n]), segs[i])
  {
    assert segs[i] == segs[i..][0] && was[n] == was[n..][0];
    assert was[n + 1..] == was[n..][1..] && segs[i + 1..] == segs[i..][1..];
    RouteSnoc(was[..n], was[n]);
    assert was[..n + 1] == was[..n] + [was[n]];
  }

  /** The segment before i is a name exactly when the route so far has names. */
  lemma NameBefore(was: seq<string>, n: nat, segs: seq<string>, i: nat)
    requires At(was, n, segs, i)
    ensures i > 0 && !Dot(segs[i - 1]) <==> RouteOf(was[..n]).names != []
    ensures RouteOf(was[..n]).names != [] ==> segs[..i - 1] == Spell(Lead(was), Enter(RouteOf(was[..n]), ".."))
  {
    var m := RouteOf(was[..n]);
    var s := Spell(Lead(was), m);
    NamesNoDots(was[..n]);
    if m.names != [] {
      assert segs[i - 1] == s[i - 1] == Last(m.names);
      assert Last(m.names) in m.names;
      assert segs[..i - 1] == s[..i - 1];
      assert s[..|s| - 1] == Spell(Lead(was), m.(names := Pop(m.names)));
    } else if i > 0 {
      assert segs[i - 1] == s[i - 1];
    }
  }

  lemma Drop(segs: seq<string>, k: nat, i: nat)
    requires k <= i < |segs|
    ensures (segs[..k] + segs[i + 1..])[..k] == segs[..k] && (segs[..k] + segs[i + 1..])[k..] == segs[i + 1..]
  {
  }

  lemma TakeOne(segs: seq<string>, i: nat)
    requires i < |segs|
    ensures segs[..i + 1] == segs[..i] + [segs[i]]
  {
  }

  lemma NormalizeUp(was: seq<string>, n: nat, segs: seq<string>, i: nat)
    requires At(was, n, segs, i) && 0 < i < |segs| && segs[i] == ".." && !Dot(segs[i - 1])
    ensures At(was, n + 1, segs[..i - 1] + segs[i + 1..], i - 1)
  {
    AtNext(was, n, segs, i);
    NameBefore(was, n, segs, i);
    Drop(segs, i - 1, i);
  }

  lemma NormalizeDot(was: seq<string>, n: nat, segs: seq<string>, i: nat)
    requires At(was, n, segs, i) && i < |segs| && segs[i] == "."
    ensures At(was, n + 1, segs[..i] + segs[i + 1..], i)
  {
    AtNext(was, n, segs, i);
    Drop(segs, i, i);
  }

  lemma NormalizeKeep(was: seq<string>, n: nat, segs: seq<string>, i: nat)
    requires At(was, n, segs, i) && i < |segs| && segs[i] != "."
    requires segs[i] == ".." ==> i == 0 || Dot(segs[i - 1])
    ensures At(was, n + 1, segs, i + 1)
  {
    AtNext(was, n, segs, i);
    NameBefore(was, n, segs, i);
    SpellEnter(Lead(was), RouteOf(was[..n]), segs[i]);
    TakeOne(segs, i);
  }

  /** Whether the segment at i is the last one, and is dropped. */
  lemma AtLast(was: seq<string>, n: nat, segs: seq<string>, i: nat)
    requires At(was, n, segs, i) && i < |segs|
    ensures n + 1 == |was| <==> i + 1 == |segs|
    ensures n + 1 == |was| ==> (LastDropped(was) <==> segs[i] == "." || (segs[i] == ".." && i > 0 && !Dot(segs[i - 1])))
  {
    AtNext(was, n, segs, i);
    NameBefore(was, n, segs, i);
    assert |was[n..]| == |segs[i..]|;
    if n + 1 == |was| {
      assert was[..n] == Pop(was);
    }
  }

  lemma AtStart(was: seq<string>)
    requires was != []
    ensures At(was, 1, was, 1)
    ensures |was| == 1 ==> !LastDropped(was)
  {
    OneSpelled(was[0]);
    assert was[..1] == [was[0]];
    assert |was| == 1 ==> Pop(was) == [];
  }

  lemma AtEnd(was: seq<string>, n: nat, segs: seq<string>, i: nat)
    requires At(was, n, segs, i) && i == |segs|
    ensures n == |was| && segs == Spell(Lead(was), RouteOf(was))
  {
    assert |was[n..]| == |segs[i..]|;
    assert segs[..i] == segs && was[..|was|] == was;
  }
}
