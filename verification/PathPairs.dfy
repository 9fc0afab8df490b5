/** Merge against RFC 3986 for one base and one reference: exactly when the two agree. */
module PathPairs {

  import opened PathSegments
  import opened Rfc3986
  import opened PathModel
  import opened PathNormal
  import opened PathMerge

  /** A directory so many levels up, staying at the root. */
  function Up(segs: seq<string>, levels: nat): (r: seq<string>) {
    if levels >= |segs| then [] else segs[..|segs| - levels]
  }

  /** Where a route leads from a directory. */
  function From(segs: seq<string>, m: Route): (r: seq<string>) {
    Up(segs, m.ups) + m.names
  }

  lemma FromStep(segs: seq<string>, m: Route, w: string)
    ensures From(segs, Enter(m, w)) ==
      if w == "." then From(segs, m) else if w == ".." then Pop(From(segs, m)) else From(segs, m) + [w]
  {
    if w == ".." {
      if m.names == [] {
        assert From(segs, m) == Up(segs, m.ups);
        assert Pop(Up(segs, m.ups)) == Up(segs, m.ups + 1);
      } else {
        assert Pop(From(segs, m)) == Up(segs, m.ups) + Pop(m.names);
      }
    } else if w != "." {
      assert Up(segs, m.ups) + (m.names + [w]) == From(segs, m) + [w];
    }
  }

  lemma {:induction false} WalkSnoc(p: PathValue, ref: seq<string>, w: string)
    ensures Walk(p, ref + [w]) == Step(Walk(p, ref), w)
    decreases |ref|
  {
    if ref == [] {
      assert ref + [w] == [w] && [w][1..] == [];
      assert Walk(p, [w]) == Walk(Step(p, w), []);
    } else {
      assert (ref + [w])[1..] == ref[1..] + [w];
      WalkSnoc(Step(p, ref[0]), ref[1..], w);
    }
  }

  /** The loop of merge goes where the reference leads. */
  lemma {:induction false} WalkIsFrom(p: PathValue, ref: seq<string>)
    ensures Walk(p, ref).segs == From(p.segs, RouteOf(ref))
  {
    if ref == [] {
      assert From(p.segs, Route(0, [])) == p.segs;
    } else {
      var init, w := Pop(ref), Last(ref);
      PopLast(ref);
      WalkIsFrom(p, init);
      WalkSnoc(p, init, w);
      FromStep(p.segs, RouteOf(init), w);
    }
  }

  /** What both sides add behind a reference that ends with a dot segment or a slash. */
  function Tail(ref: seq<string>): (t: seq<string>)
    requires ref != []
  {
    if Dot(Last(ref)) || Last(ref) == "" then [""] else []
  }

  /** The reference without the empty piece behind its last slash. */
  function Core(ref: seq<string>): (r: seq<string>)
    requires ref != []
  {
    if Last(ref) == "" then Pop(ref) else ref
  }

  /** The standard also walks, and adds a slash behind a dot segment at the end. */
  lemma {:induction false} ResolveIsWalk(p: PathValue, ref: seq<string>)
    requires ref != []
    ensures Resolve(ref, p.segs) == Walk(p, ref).segs + if Dot(Last(ref)) then [""] else []
    decreases |ref|
  {
    var q := Step(p, ref[0]);
    if |ref| == 1 {
      assert ref[1..] == [] && Walk(p, ref) == q;
    } else {
      assert Last(ref[1..]) == Last(ref);
      ResolveIsWalk(q, ref[1..]);
    }
  }

  lemma ResolveIsFrom(segs: seq<string>, ref: seq<string>)
    requires ref != []
    ensures Resolve(ref, segs) == From(segs, RouteOf(Core(ref))) + Tail(ref)
  {
    var p := PathValue(segs, true, false);
    ResolveIsWalk(p, ref);
    WalkIsFrom(p, ref);
    if Last(ref) == "" {
      PopLast(ref);
      RouteSnoc(Pop(ref), "");
      FromStep(segs, RouteOf(Pop(ref)), "");
    }
  }

  lemma WalkFlag(p: PathValue, ref: seq<string>)
    requires ref != []
    ensures Shown(Walk(p, ref)) == Walk(p, ref).segs + if Dot(Last(ref)) then [""] else []
  {
    PopLast(ref);
    WalkSnoc(p, Pop(ref), Last(ref));
  }

  lemma ShownIsFrom(p: PathValue, ref: seq<string>)
    requires ref != [] && NonEmpty(ref) != []
    ensures Shown(Followed(p, ref)) == From(p.segs, RouteOf(NonEmpty(ref))) + Tail(ref)
  {
    WalkIsFrom(p, NonEmpty(ref));
    if Last(ref) != "" {
      PopLast(ref);
      NonEmptyConcat(Pop(ref), [Last(ref)]);
      assert NonEmpty([Last(ref)]) == [Last(ref)];
      WalkFlag(p, NonEmpty(ref));
    }
  }

  /** The folders of a base as the standard resolves them. */
  lemma {:induction false} ResolveFolders(segs: seq<string>, ref: seq<string>, output: seq<string>)
    requires ref != []
    ensures Resolve(segs + ref, output) == Resolve(ref, From(output, RouteOf(segs)))
    decreases |segs|
  {
    var p := PathValue(output, true, false);
    WalkIsFrom(p, segs);
    ResolveIsWalk(p, segs + ref);
    ResolveIsWalk(Walk(p, segs), ref);
    WalkConcat(p, segs, ref);
    assert Last(segs + ref) == Last(ref);
  }

  lemma {:induction false} WalkConcat(p: PathValue, a: seq<string>, b: seq<string>)
    ensures Walk(p, a + b) == Walk(Walk(p, a), b)
    decreases |a|
  {
    if a == [] {
      assert a + b == b;
    } else {
      assert (a + b)[1..] == a[1..] + b;
      WalkConcat(Step(p, a[0]), a[1..], b);
    }
  }

  /** The folders of the base that count, and where the reference leads from them: for merge and for the standard. */
  function MergedSegs(base: string, ref: string): (segs: seq<string>)
    requires Rooted(base)
  {
    From(NonEmpty(Folders(base)), RouteOf(NonEmpty(Split(ref))))
  }

  function TargetSegs(base: string, ref: string): (segs: seq<string>)
    requires Rooted(base)
  {
    From(RouteOf(Folders(base)).names, RouteOf(Core(Split(ref))))
  }

  lemma TargetIsFrom(base: string, ref: string)
    requires Rooted(base) && Relative(ref)
    ensures Resolve(Folders(base) + Split(ref), []) == TargetSegs(base, ref) + Tail(Split(ref))
  {
    var f, r := Folders(base), Split(ref);
    ResolveFolders(f, r, []);
    assert From([], RouteOf(f)) == RouteOf(f).names;
    ResolveIsFrom(RouteOf(f).names, r);
  }

  lemma MergedIsFrom(base: string, ref: string)
    requires Rooted(base) && Relative(ref)
    ensures var b := Base(Assigned(base), Assigned(ref));
      Shown(Followed(b, Split(ref))) == MergedSegs(base, ref) + Tail(Split(ref))
  {
    BaseIs(base, ref);
    FirstOfSplit(ref);
    ShownIsFrom(Base(Assigned(base), Assigned(ref)), Split(ref));
  }

  lemma SameCore(a: seq<string>, b: seq<string>, t: seq<string>)
    ensures a + t == b + t <==> a == b
  {
    if a + t == b + t {
      assert a == (a + t)[..|a|] && b == (b + t)[..|b|];
    }
  }

  /**
   * For every rooted base and every relative reference: merge gives the path of
   * the standard exactly when going up from the folders as written, ignoring
   * empty segments, ends where going up from the resolved folders does.
   */
  lemma PairExactly(base: string, ref: string)
    requires Rooted(base) && Relative(ref)
    ensures Resolved(base, ref) == Target(base, ref) <==> MergedSegs(base, ref) == TargetSegs(base, ref)
  {
    ResolvedIs(base, ref);
    TargetIs(base, ref);
    MergedIsFrom(base, ref);
    TargetIsFrom(base, ref);
    Different(base, ref);
    SameCore(MergedSegs(base, ref), TargetSegs(base, ref), Tail(Split(ref)));
  }

  lemma {:induction false} NonEmptyCore(ref: seq<string>)
    requires ref != [] && InnerEmpty(ref) == 0
    ensures NonEmpty(ref) == Core(ref)
  {
    if |ref| == 1 {
      assert ref == [ref[0]] && ref[1..] == [] && Pop(ref) == [];
    } else {
      NonEmptyCore(ref[1..]);
      assert Last(ref[1..]) == Last(ref);
      assert ref == [ref[0]] + ref[1..] && Pop(ref) == [ref[0]] + Pop(ref[1..]);
    }
  }

  /**
   * Without double slash in the reference it only matters how far the reference
   * goes up: what is left then of the folders as written must be what is left
   * of the resolved folders.
   */
  lemma LevelsExactly(base: string, ref: string)
    requires Rooted(base) && Relative(ref) && !DoubleSlash(ref)
    ensures var f, k := Folders(base), RouteOf(Core(Split(ref))).ups;
      Resolved(base, ref) == Target(base, ref) <==> Up(NonEmpty(f), k) == Up(RouteOf(f).names, k)
  {
    var f, m := Folders(base), RouteOf(Core(Split(ref)));
    InnerEmptyIs(ref);
    NonEmptyCore(Split(ref));
    PairExactly(base, ref);
    SameCore(Up(NonEmpty(f), m.ups), Up(RouteOf(f).names, m.ups), m.names);
  }
}
