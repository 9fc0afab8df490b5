/** Url paths as lists of segments, and what assign, get and merge mean for the strings. */
module PathModel {

  import opened PathSegments
  import opened Rfc3986

  datatype PathValue = PathValue(segs: seq<string>, slashBegin: bool, slashEnd: bool)

  predicate ValidSegs(segs: seq<string>) {
    forall w :: w in segs ==> w != "" && '/' !in w
  }

  predicate Empty(p: PathValue) {
    !p.slashEnd && p.segs == [] && !p.slashBegin
  }

  function NonEmpty(segs: seq<string>): (r: seq<string>)
    ensures |r| <= |segs|
  {
    if segs == [] then [] else if segs[0] == "" then NonEmpty(segs[1..]) else [segs[0]] + NonEmpty(segs[1..])
  }

  lemma {:induction false} NonEmptyHas(segs: seq<string>, w: string)
    ensures w in NonEmpty(segs) <==> w in segs && w != ""
  {
    if segs != [] {
      NonEmptyHas(segs[1..], w);
      assert segs == [segs[0]] + segs[1..];
    }
  }

  function Last<T>(s: seq<T>): (x: T)
    requires s != []
  {
    s[|s| - 1]
  }

  function Assigned(s: string): (p: PathValue) {
    if s == "" then PathValue([], false, false)
    else PathValue(NonEmpty(Split(s)), s[0] == '/', Last(s) == '/')
  }

  function Body(p: PathValue): (s: string)
    requires p.segs != []
  {
    if p.slashEnd then Join(p.segs) + "/" else Join(p.segs)
  }

  function Got(p: PathValue): (s: string) {
    if p.segs == [] then if p.slashBegin || p.slashEnd then "/" else ""
    else if p.slashBegin then "/" + Body(p) else Body(p)
  }

  function Step(p: PathValue, w: string): (r: PathValue) {
    if w == "." then p.(slashEnd := true)
    else if w == ".." then if p.segs == [] then p else p.(segs := Pop(p.segs), slashEnd := true)
    else p.(segs := p.segs + [w], slashEnd := false)
  }

  function Walk(p: PathValue, ref: seq<string>): (r: PathValue)
    decreases |ref|
  {
    if ref == [] then p else Walk(Step(p, ref[0]), ref[1..])
  }

  function Base(p: PathValue, q: PathValue): (r: PathValue) {
    if !p.slashEnd && p.segs != [] && !Empty(q) then p.(segs := Pop(p.segs)) else p
  }

  function EndIf(p: PathValue, slash: bool): (r: PathValue) {
    if slash then p.(slashEnd := true) else p
  }

  function Merged(p: PathValue, q: PathValue): (r: PathValue) {
    if q.slashBegin then q else EndIf(Walk(Base(p, q), q.segs), q.slashEnd)
  }

  // ---------------------------------------------------------------- assign and get

  /** Runs of slashes shrunk to one slash. */
  function Squeeze(s: string): (r: string) {
    if |s| < 2 then s
    else if s[0] == '/' && s[1] == '/' then Squeeze(s[1..])
    else [s[0]] + Squeeze(s[1..])
  }

  predicate DoubleSlash(s: string) {
    |s| >= 2 && ((s[0] == '/' && s[1] == '/') || DoubleSlash(s[1..]))
  }

  lemma {:induction false} SqueezeFixed(s: string)
    ensures |Squeeze(s)| <= |s| && (Squeeze(s) == s <==> !DoubleSlash(s))
  {
    if |s| >= 2 {
      SqueezeFixed(s[1..]);
      assert s == [s[0]] + s[1..];
    }
  }

  lemma {:induction false} LastOfSplit(s: string)
    requires s != ""
    ensures Last(s) == '/' <==> Last(Split(s)) == ""
  {
    if |s| > 1 {
      LastOfSplit(s[1..]);
    }
  }

  /** The pieces of a path that starts with a slash, as get spells them. */
  function Shown(p: PathValue): (segs: seq<string>) {
    p.segs + (if p.slashEnd || p.segs == [] then [""] else [])
  }

  lemma {:induction false} JoinSnoc(segs: seq<string>)
    requires segs != []
    ensures Join(segs + [""]) == Join(segs) + "/"
  {
    if |segs| == 1 {
      assert (segs + [""])[1..] == [""];
    } else {
      JoinSnoc(segs[1..]);
      assert (segs + [""])[1..] == segs[1..] + [""];
    }
  }

  lemma GotIsText(p: PathValue)
    requires p.slashBegin
    ensures Got(p) == Text(Shown(p))
  {
    if p.segs == [] {
      assert Text([""]) == "/";
    } else {
      TextJoin(Shown(p));
      JoinSnoc(p.segs);
      assert p.segs + [] == p.segs;
    }
  }

  lemma FirstOfSplit(s: string)
    requires s != ""
    ensures s[0] == '/' <==> Split(s)[0] == ""
    ensures s[0] == '/' ==> NonEmpty(Split(s)) == NonEmpty(Split(s)[1..])
    ensures s[0] != '/' ==> NonEmpty(Split(s)) == [Split(s)[0]] + NonEmpty(Split(s)[1..])
  {
  }

  lemma {:induction false} JoinLonger(c: char, segs: seq<string>)
    requires segs != []
    ensures Join([[c] + segs[0]] + segs[1..]) == [c] + Join(segs)
    ensures Join([[c]] + segs) == [c] + ("/" + Join(segs))
  {
    assert ([[c] + segs[0]] + segs[1..])[1..] == segs[1..];
    assert ([[c]] + segs)[1..] == segs;
  }

  /** One more character in front. */
  lemma AssignedLonger(c: char, t: string)
    requires t != ""
    ensures var p, q := Assigned([c] + t), Assigned(t);
      && p.slashBegin == (c == '/') && p.slashEnd == q.slashEnd
      && (c == '/' ==> p.segs == q.segs)
      && (c != '/' && t[0] == '/' ==> p.segs == [[c]] + q.segs)
      && (t[0] != '/' ==> q.segs != [])
      && (c != '/' && t[0] != '/' ==> p.segs == [[c] + q.segs[0]] + q.segs[1..])
  {
    var s := [c] + t;
    assert s[1..] == t && Last(s) == Last(t);
    FirstOfSplit(t);
    if c == '/' {
      assert ([""] + Split(t))[1..] == Split(t);
    } else {
      SplitChar(c, t);
      assert Split(s)[1..] == Split(t)[1..];
      assert [c] + "" == [c];
      assert NonEmpty(Split(s)) == [[c] + Split(t)[0]] + NonEmpty(Split(t)[1..]);
    }
  }

  lemma AssignedEnd(t: string)
    requires t != ""
    ensures Assigned(t).segs == [] ==> Assigned(t).slashEnd
  {
    LastOfSplit(t);
    NonEmptyHas(Split(t), Last(Split(t)));
  }

  lemma BodyLonger(c: char, p: PathValue, q: PathValue)
    requires p.segs != [] && q.segs != [] && p.slashEnd == q.slashEnd
    ensures p.segs == [[c] + q.segs[0]] + q.segs[1..] ==> Body(p) == [c] + Body(q)
    ensures p.segs == [[c]] + q.segs ==> Body(p) == [c] + ("/" + Body(q))
  {
    JoinLonger(c, q.segs);
    assert [c] + Join(q.segs) + "/" == [c] + (Join(q.segs) + "/");
    assert [c] + ("/" + Join(q.segs)) + "/" == [c] + ("/" + (Join(q.segs) + "/"));
  }

  /** The same for assign and get together. */
  lemma GotLonger(c: char, t: string)
    requires t != ""
    ensures Got(Assigned([c] + t)) == if c == '/' && t[0] == '/' then Got(Assigned(t)) else [c] + Got(Assigned(t))
  {
    AssignedLonger(c, t);
    AssignedEnd(t);
    var p, q := Assigned([c] + t), Assigned(t);
    if c != '/' && q.segs != [] {
      BodyLonger(c, p, q);
    }
  }

  lemma AssignedOne(c: char)
    ensures Got(Assigned([c])) == [c]
  {
    if c == '/' {
      SplitSlash("");
      assert "/" + "" == [c];
      assert NonEmpty(Split([c])) == [];
    } else {
      SplitWord([c]);
      assert NonEmpty([[c]]) == [[c]];
    }
  }

  /** get after assign gives the string with its runs of slashes shrunk. */
  lemma {:induction false} GotAssigned(s: string)
    ensures Got(Assigned(s)) == Squeeze(s)
  {
    if |s| > 1 {
      GotAssigned(s[1..]);
      assert s == [s[0]] + s[1..];
      GotLonger(s[0], s[1..]);
    } else if |s| == 1 {
      AssignedOne(s[0]);
      assert s == [s[0]];
    }
  }

  lemma AssignGotExactly(s: string)
    ensures Got(Assigned(s)) == s <==> !DoubleSlash(s)
  {
    GotAssigned(s);
    SqueezeFixed(s);
  }

  lemma {:induction false} NonEmptySame(segs: seq<string>)
    requires ValidSegs(segs)
    ensures NonEmpty(segs) == segs
  {
    if segs != [] {
      assert segs == [segs[0]] + segs[1..];
      assert segs[0] in segs && forall w :: w in segs[1..] ==> w in segs;
      NonEmptySame(segs[1..]);
    }
  }

  lemma {:induction false} NonEmptyConcat(a: seq<string>, b: seq<string>)
    ensures NonEmpty(a + b) == NonEmpty(a) + NonEmpty(b)
  {
    if a == [] {
      assert a + b == b;
    } else {
      NonEmptyConcat(a[1..], b);
      assert (a + b)[1..] == a[1..] + b;
    }
  }

  lemma AssignedValid(s: string)
    ensures ValidSegs(Assigned(s).segs) && (Assigned(s).segs == [] ==> Assigned(s).slashBegin == Assigned(s).slashEnd)
  {
    if s != "" {
      SplitSlashFree(s);
      forall w | w in Assigned(s).segs ensures w != "" && '/' !in w {
        NonEmptyHas(Split(s), w);
      }
      FirstOfSplit(s);
      AssignedEnd(s);
    }
  }

  lemma SplitJoin(segs: seq<string>)
    requires segs != [] && ValidSegs(segs)
    ensures Split(Join(segs)) == segs
  {
    SplitText(segs);
    TextJoin(segs);
    SplitSlash(Join(segs));
    assert ([""] + segs)[1..] == segs;
  }

  function Slash(b: bool): (segs: seq<string>) {
    if b then [""] else []
  }

  lemma SplitGot(p: PathValue)
    requires p.segs != [] && ValidSegs(p.segs)
    ensures Split(Got(p)) == Slash(p.slashBegin) + (p.segs + Slash(p.slashEnd))
  {
    SplitJoin(p.segs);
    SplitConcat(Join(p.segs), "");
    assert "/" + "" == "/";
    SplitSlash(Body(p));
    assert p.segs + [] == p.segs;
  }

  lemma NonEmptyTrim(a: bool, segs: seq<string>, b: bool)
    requires ValidSegs(segs)
    ensures NonEmpty(Slash(a) + (segs + Slash(b))) == segs
  {
    NonEmptyConcat(Slash(a), segs + Slash(b));
    NonEmptyConcat(segs, Slash(b));
    NonEmptySame(segs);
    assert NonEmpty(Slash(a)) == [] && NonEmpty(Slash(b)) == [];
    assert segs + [] == segs && [] + segs == segs;
  }

  lemma EndsOfSplit(a: bool, segs: seq<string>, b: bool)
    requires segs != [] && ValidSegs(segs)
    ensures var all := Slash(a) + (segs + Slash(b));
      all != [""] && (all[0] == "" <==> a) && (Last(all) == "" <==> b)
  {
    var all := Slash(a) + (segs + Slash(b));
    assert segs[0] in segs && Last(segs) in segs;
    assert all[0] == "" <==> a;
    assert |all| == 1 ==> all[0] != "";
  }

  lemma MadeByAssign(p: PathValue)
    requires p.segs != [] && ValidSegs(p.segs)
    ensures Assigned(Got(p)) == p
  {
    SplitGot(p);
    NonEmptyTrim(p.slashBegin, p.segs, p.slashEnd);
    EndsOfSplit(p.slashBegin, p.segs, p.slashEnd);
    assert Got(p) != "";
    FirstOfSplit(Got(p));
    LastOfSplit(Got(p));
  }

  /** assign after get gives the path back exactly for the paths that assign can make. */
  lemma GotAssignExactly(p: PathValue)
    ensures Assigned(Got(p)) == p <==>
      ValidSegs(p.segs) && (p.segs == [] ==> p.slashBegin == p.slashEnd)
  {
    AssignedValid(Got(p));
    if p.segs == [] {
      AssignedSlash();
    } else if ValidSegs(p.segs) {
      MadeByAssign(p);
    }
  }

  lemma AssignedSlash()
    ensures Assigned("/") == PathValue([], true, true)
  {
    SplitSlash("");
    assert "/" + "" == "/";
    assert NonEmpty(Split("/")) == [];
  }

  // ---------------------------------------------------------------- merge against the standard

  /** The reference walked segment by segment, with the slash at its end. */
  function Followed(p: PathValue, ref: seq<string>): (r: PathValue)
    requires ref != []
  {
    EndIf(Walk(p, NonEmpty(ref)), Last(ref) == "")
  }

  lemma FollowedStep(p: PathValue, ref: seq<string>)
    requires |ref| > 1
    ensures Followed(p, ref) == Followed(if ref[0] == "" then p else Step(p, ref[0]), ref[1..])
  {
    assert Last(ref) == Last(ref[1..]);
    if ref[0] != "" {
      var rest := NonEmpty(ref[1..]);
      assert NonEmpty(ref) == [ref[0]] + rest;
      assert ([ref[0]] + rest)[1..] == rest;
    }
  }

  /** Empty segments before the last one: they come from double slashes. */
  function InnerEmpty(segs: seq<string>): (n: nat)
    requires segs != []
  {
    if |segs| == 1 then 0 else (if segs[0] == "" then 1 else 0) + InnerEmpty(segs[1..])
  }

  /** merge does what the standard does with the pieces, if none of them is empty inside. */
  lemma {:induction false} FollowedIsResolve(p: PathValue, ref: seq<string>)
    requires ref != [] && InnerEmpty(ref) == 0
    ensures Shown(Followed(p, ref)) == Resolve(ref, p.segs)
    decreases |ref|
  {
    if |ref| == 1 {
      FollowedOne(p, ref[0]);
      assert ref == [ref[0]];
    } else {
      FollowedStep(p, ref);
      FollowedIsResolve(Step(p, ref[0]), ref[1..]);
    }
  }

  lemma FollowedOne(p: PathValue, w: string)
    ensures Shown(Followed(p, [w])) == Resolve([w], p.segs)
    ensures Resolve([w], p.segs) == if Dot(w) then (if w == "." then p.segs else Pop(p.segs)) + [""] else p.segs + [w]
  {
    assert NonEmpty([w]) == if w == "" then [] else [w];
    if w != "" {
      assert Walk(p, [w]) == Step(p, w);
    }
    assert [w][1..] == [];
  }
}
