/** Path::merge against reference resolution of RFC 3986, on the strings. */
module PathMerge {

  import opened PathSegments
  import opened Rfc3986
  import opened PathModel

  predicate Rooted(s: string) {
    s != "" && s[0] == '/'
  }

  /** A reference with a path that does not start with a slash. */
  predicate Relative(s: string) {
    s != "" && s[0] != '/'
  }

  /** What merge and get make of a base and a reference. */
  function Resolved(base: string, ref: string): (s: string) {
    Got(Merged(Assigned(base), Assigned(ref)))
  }

  /** The segments of a rooted path before its last slash. */
  function Folders(s: string): (segs: seq<string>)
    requires Rooted(s)
  {
    Pop(Split(s[1..]))
  }

  function File(s: string): (w: string)
    requires Rooted(s)
  {
    Last(Split(s[1..]))
  }

  predicate Clean(segs: seq<string>) {
    forall w :: w in segs ==> w != "" && !Dot(w)
  }

  // ---------------------------------------------------------------- the standard's side

  lemma RootedText(s: string)
    requires Rooted(s)
    ensures s == Text(Folders(s) + [File(s)]) && SlashFree(Folders(s) + [File(s)])
    ensures Split(s) == [""] + (Folders(s) + [File(s)])
  {
    TextOfSplit(s);
    SplitSlashFree(s[1..]);
    assert Split(s[1..]) == Folders(s) + [File(s)];
  }

  lemma {:induction false} DirectoryWord(t: string, w: string)
    requires '/' !in w
    ensures Directory(t + "/" + w) == t + "/"
  {
    var s := t + "/" + w;
    if w == "" {
      assert s == t + "/";
    } else {
      assert s[|s| - 1] == w[|w| - 1];
      assert s[..|s| - 1] == t + "/" + w[..|w| - 1];
      DirectoryWord(t, w[..|w| - 1]);
    }
  }

  lemma TextSnoc(segs: seq<string>, w: string)
    ensures Text(segs + [w]) == Text(segs) + "/" + w
  {
    TextConcat(segs, [w]);
    assert Text([w]) == "/" + w;
    assert Text(segs) + ("/" + w) == Text(segs) + "/" + w;
  }

  lemma DirectoryOf(base: string)
    requires Rooted(base)
    ensures Directory(base) == Text(Folders(base)) + "/"
  {
    var f, w := Folders(base), File(base);
    RootedText(base);
    assert w in f + [w];
    TextSnoc(f, w);
    DirectoryWord(Text(f), w);
  }

  lemma AppendRef(segs: seq<string>, ref: string)
    ensures Text(segs) + "/" + ref == Text(segs + Split(ref))
  {
    JoinSplit(ref);
    TextJoin(Split(ref));
    TextConcat(segs, Split(ref));
    assert Text(segs) + "/" + ref == Text(segs) + ("/" + ref);
  }

  lemma DirectoryIs(base: string, ref: string)
    requires Rooted(base)
    ensures Directory(base) + ref == Text(Folders(base) + Split(ref))
  {
    DirectoryOf(base);
    AppendRef(Folders(base), ref);
  }

  lemma TargetIs(base: string, ref: string)
    requires Rooted(base) && Relative(ref)
    ensures Target(base, ref) == Text(Resolve(Folders(base) + Split(ref), []))
  {
    var segs := Folders(base) + Split(ref);
    DirectoryIs(base, ref);
    RootedText(base);
    SplitSlashFree(ref);
    assert forall w :: w in Folders(base) ==> w in Folders(base) + [File(base)];
    assert SlashFree(segs);
    RemoveDotsOfText(segs, []);
    assert Text([]) == "";
  }

  lemma {:induction false} ResolveKeeps(segs: seq<string>, output: seq<string>)
    requires SlashFree(segs) && SlashFree(output)
    ensures SlashFree(Resolve(segs, output))
    decreases |segs|
  {
    if segs != [] {
      var w, rest := segs[0], segs[1..];
      assert w in segs && forall x :: x in rest ==> x in segs;
      assert forall x :: x in Pop(output) ==> x in output;
      if Dot(w) {
        ResolveKeeps(rest, if w == "." then output else Pop(output));
      } else {
        ResolveKeeps(rest, output + [w]);
      }
    }
  }

  lemma {:induction false} ResolveNoDots(segs: seq<string>, output: seq<string>)
    requires NoDots(output)
    ensures NoDots(Resolve(segs, output))
    decreases |segs|
  {
    if segs != [] {
      var w, rest := segs[0], segs[1..];
      assert forall x :: x in Pop(output) ==> x in output;
      if Dot(w) {
        ResolveNoDots(rest, if w == "." then output else Pop(output));
      } else {
        ResolveNoDots(rest, output + [w]);
      }
    }
  }

  /** Segments that are no dots go to the output one by one. */
  lemma {:induction false} ResolvePast(segs: seq<string>, more: seq<string>, output: seq<string>)
    requires NoDots(segs)
    ensures Resolve(segs + more, output) == Resolve(more, output + segs)
    decreases |segs|
  {
    if segs == [] {
      assert segs + more == more && output + segs == output;
    } else {
      var w, rest := segs[0], segs[1..];
      assert w in segs && forall x :: x in rest ==> x in segs;
      assert (segs + more)[1..] == rest + more && (segs + more)[0] == w;
      ResolvePast(rest, more, output + [w]);
      assert output + [w] + rest == output + segs;
    }
  }

  // ---------------------------------------------------------------- the program's side

  lemma BaseIs(base: string, ref: string)
    requires Rooted(base) && Relative(ref)
    ensures var b := Base(Assigned(base), Assigned(ref));
      b.segs == NonEmpty(Folders(base)) && b.slashBegin
  {
    var f, w := Folders(base), File(base);
    RootedText(base);
    NonEmptyConcat(f, [w]);
    LastOfSplit(base);
    FirstOfSplit(ref);
    assert NonEmpty([w]) == if w == "" then [] else [w];
    assert NonEmpty(f) + [] == NonEmpty(f);
    assert ([""] + (f + [w]))[1..] == f + [w];
    assert Assigned(base).segs == NonEmpty(f) + NonEmpty([w]);
  }

  lemma MergedIs(base: string, ref: string)
    requires Rooted(base) && Relative(ref)
    ensures Merged(Assigned(base), Assigned(ref)) == Followed(Base(Assigned(base), Assigned(ref)), Split(ref))
  {
    LastOfSplit(ref);
  }

  lemma {:induction false} WalkBegin(p: PathValue, ref: seq<string>)
    ensures Walk(p, ref).slashBegin == p.slashBegin
    decreases |ref|
  {
    if ref != [] {
      WalkBegin(Step(p, ref[0]), ref[1..]);
    }
  }

  lemma ResolvedIs(base: string, ref: string)
    requires Rooted(base) && Relative(ref)
    ensures var b := Base(Assigned(base), Assigned(ref));
      Resolved(base, ref) == Text(Shown(Followed(b, Split(ref))))
  {
    BaseIs(base, ref);
    MergedIs(base, ref);
    var b := Base(Assigned(base), Assigned(ref));
    WalkBegin(b, NonEmpty(Split(ref)));
    GotIsText(Followed(b, Split(ref)));
  }

  // ---------------------------------------------------------------- together

  lemma CleanSame(segs: seq<string>)
    requires Clean(segs) && SlashFree(segs)
    ensures NonEmpty(segs) == segs
  {
    NonEmptySame(segs);
  }

  lemma InnerEmptyStep(c: char, t: string)
    ensures c == '/' ==> InnerEmpty(Split([c] + t)) > 0
    ensures c != '/' && t == "" ==> InnerEmpty(Split([c] + t)) == 0
    ensures c != '/' && Rooted(t) ==> InnerEmpty(Split([c] + t)) == InnerEmpty(Split(t[1..]))
    ensures c != '/' && Relative(t) ==> InnerEmpty(Split([c] + t)) == InnerEmpty(Split(t))
  {
    if c == '/' {
      SplitSlash(t);
    } else {
      SplitChar(c, t);
      var a := Split(t);
      var first := [c] + a[0];
      assert ([first] + a[1..])[1..] == a[1..];
      if Rooted(t) {
        assert t == "/" + t[1..];
        SplitSlash(t[1..]);
      } else if t != "" {
        FirstOfSplit(t);
      }
    }
  }

  lemma DoubleSlashStep(c: char, t: string)
    ensures DoubleSlash([c] + t) <==> (c == '/' && Rooted(t)) || DoubleSlash(t)
  {
    assert ([c] + t)[1..] == t;
  }

  lemma {:induction false} InnerEmptyIs(s: string)
    ensures InnerEmpty(Split(s)) > 0 <==> Rooted(s) || DoubleSlash(s)
  {
    if s != "" {
      var c, t := s[0], s[1..];
      assert s == [c] + t;
      InnerEmptyStep(c, t);
      DoubleSlashStep(c, t);
      InnerEmptyIs(t);
      if Rooted(t) {
        InnerEmptyIs(t[1..]);
        assert t == [t[0]] + t[1..];
        DoubleSlashStep(t[0], t[1..]);
      }
    }
  }

  /** Merging equals the standard's resolution on a base whose folders are plain names. */
  lemma MergeIsTarget(base: string, ref: string)
    requires Rooted(base) && Clean(Folders(base))
    requires Relative(ref) && !DoubleSlash(ref)
    ensures Resolved(base, ref) == Target(base, ref)
  {
    var f, r := Folders(base), Split(ref);
    var b := Base(Assigned(base), Assigned(ref));
    RootedText(base);
    assert forall w :: w in f ==> w in f + [File(base)];
    BaseIs(base, ref);
    CleanSame(f);
    InnerEmptyIs(ref);
    FollowedIsResolve(b, r);
    ResolvedIs(base, ref);
    TargetIs(base, ref);
    ResolvePast(f, r, []);
    assert [] + f == f;
  }

  /** Nothing is changed by either side exactly when there is nothing to remove. */
  lemma KeptExactly(segs: seq<string>, w: string)
    ensures NonEmpty(segs) + [w] == Resolve(segs + [w], []) <==> Clean(segs) && !Dot(w)
  {
    var a, r := NonEmpty(segs) + [w], Resolve(segs + [w], []);
    ResolveNoDots(segs + [w], []);
    assert w in a;
    forall d | d in segs && d != "" ensures d in a {
      NonEmptyHas(segs, d);
    }
    if NoDots(segs) && !Dot(w) {
      ResolvePast(segs, [w], []);
      assert [] + segs == segs;
      assert [w][1..] == [];
      assert r == segs + [w];
      NonEmptyExactly(segs);
      assert NonEmpty(segs) == a[..|a| - 1] && segs == r[..|r| - 1];
    }
  }

  lemma {:induction false} NonEmptyExactly(segs: seq<string>)
    ensures NonEmpty(segs) == segs <==> "" !in segs
  {
    if segs != [] {
      NonEmptyExactly(segs[1..]);
      assert segs == [segs[0]] + segs[1..];
    }
  }

  /** With a plain name as reference. */
  lemma NameMerged(base: string, w: string)
    requires Rooted(base) && w != "" && '/' !in w && !Dot(w)
    ensures Relative(w) && !DoubleSlash(w)
    ensures Resolved(base, w) == Target(base, w) <==> Clean(Folders(base))
  {
    var f := Folders(base);
    var b := Base(Assigned(base), Assigned(w));
    assert w[0] in w;
    SplitWord(w);
    InnerEmptyIs(w);
    BaseIs(base, w);
    ResolvedIs(base, w);
    FollowedOne(b, w);
    TargetIs(base, w);
    KeptExactly(f, w);
    SameText(base, w);
  }

  /** Both sides are slash free, so their texts differ when they do. */
  lemma SameText(base: string, w: string)
    requires Rooted(base) && '/' !in w
    ensures var a, r := NonEmpty(Folders(base)) + [w], Resolve(Folders(base) + [w], []);
      Text(a) == Text(r) <==> a == r
  {
    var f := Folders(base);
    var a, r := NonEmpty(f) + [w], Resolve(f + [w], []);
    RootedText(base);
    assert forall x :: x in f ==> x in f + [File(base)];
    forall x | x in a ensures '/' !in x {
      NonEmptyHas(f, x);
    }
    ResolveKeeps(f + [w], []);
    if Text(a) == Text(r) {
      TextInjective(a, r);
    }
  }

  /** The bases on which merging equals the standard for every reference without double slash. */
  lemma BaseExactly(base: string)
    requires Rooted(base)
    ensures (forall ref :: Relative(ref) && !DoubleSlash(ref) ==> Resolved(base, ref) == Target(base, ref))
      <==> Clean(Folders(base))
  {
    NameMerged(base, "x");
    forall ref | Clean(Folders(base)) && Relative(ref) && !DoubleSlash(ref)
      ensures Resolved(base, ref) == Target(base, ref)
    {
      MergeIsTarget(base, ref);
    }
  }

  /** A rooted reference is taken as it is: right exactly when there is nothing to remove from it. */
  lemma RootedExactly(base: string, ref: string)
    requires Rooted(ref)
    ensures Resolved(base, ref) == Target(base, ref) <==> Clean(Folders(ref)) && !Dot(File(ref))
  {
    var f, w := Folders(ref), File(ref);
    RootedText(ref);
    assert w in f + [w];
    NonEmptyConcat(f, [w]);
    LastOfSplit(ref);
    assert ([""] + (f + [w]))[1..] == f + [w];
    assert NonEmpty([w]) == if w == "" then [] else [w];
    var p := Assigned(ref);
    assert Shown(p) == NonEmpty(f) + [w];
    GotIsText(p);
    RemoveDotsOfText(f + [w], []);
    KeptExactly(f, w);
    SameText(ref, w);
  }

  // ---------------------------------------------------------------- references with double slashes

  /** Each inner empty segment makes the standard's result one segment longer than merge's. */
  lemma {:induction false} Depths(p: PathValue, ref: seq<string>, output: seq<string>)
    requires ref != [] && |p.segs| >= |ref| && |output| >= |ref|
    ensures |Resolve(ref, output)| - |Shown(Followed(p, ref))| == |output| - |p.segs| + InnerEmpty(ref)
    decreases |ref|
  {
    if |ref| == 1 {
      FollowedOne(p, ref[0]);
      FollowedOne(p.(segs := output), ref[0]);
      assert ref == [ref[0]];
    } else {
      var w := ref[0];
      FollowedStep(p, ref);
      var q := if w == "" then p else Step(p, w);
      var o := if w == "." then output else if w == ".." then Pop(output) else output + [w];
      Depths(q, ref[1..], o);
    }
  }

  function Names(n: nat): (segs: seq<string>) {
    seq(n, i => "x")
  }

  lemma DeepBase(n: nat) returns (base: string)
    ensures Rooted(base) && Folders(base) == Names(n) && Clean(Folders(base))
  {
    var segs := Names(n) + [""];
    base := Text(segs);
    SplitText(segs);
    TextOfSplit(base);
    assert ([""] + segs)[1..] == segs;
    assert Pop(segs) == Names(n);
  }

  /** The references on which merging equals the standard for every such base. */
  lemma ReferenceExactly(ref: string)
    requires Relative(ref)
    ensures (forall base :: Rooted(base) && Clean(Folders(base)) ==> Resolved(base, ref) == Target(base, ref))
      <==> !DoubleSlash(ref)
  {
    forall base | !DoubleSlash(ref) && Rooted(base) && Clean(Folders(base))
      ensures Resolved(base, ref) == Target(base, ref)
    {
      MergeIsTarget(base, ref);
    }
    if DoubleSlash(ref) {
      var r := Split(ref);
      var base := DeepBase(|r|);
      var f, b := Folders(base), Base(Assigned(base), Assigned(ref));
      BaseIs(base, ref);
      NonEmptyExactly(f);
      InnerEmptyIs(ref);
      Depths(b, r, f);
      ResolvePast(f, r, []);
      assert [] + f == f;
      ResolvedIs(base, ref);
      TargetIs(base, ref);
      Different(base, ref);
    }
  }

  lemma Different(base: string, ref: string)
    requires Rooted(base) && Relative(ref)
    ensures var b := Base(Assigned(base), Assigned(ref));
      var x, y := Shown(Followed(b, Split(ref))), Resolve(Folders(base) + Split(ref), []);
      Text(x) == Text(y) ==> x == y
  {
    var b := Base(Assigned(base), Assigned(ref));
    var x, y := Shown(Followed(b, Split(ref))), Resolve(Folders(base) + Split(ref), []);
    RootedText(base);
    BaseIs(base, ref);
    SplitSlashFree(ref);
    assert forall w :: w in Folders(base) ==> w in Folders(base) + [File(base)];
    ResolveKeeps(Folders(base) + Split(ref), []);
    forall w | w in NonEmpty(Folders(base)) ensures '/' !in w {
      NonEmptyHas(Folders(base), w);
    }
    forall w | w in NonEmpty(Split(ref)) ensures '/' !in w {
      NonEmptyHas(Split(ref), w);
    }
    WalkSlashFree(b, NonEmpty(Split(ref)));
    if Text(x) == Text(y) {
      TextInjective(x, y);
    }
  }

  lemma {:induction false} WalkSlashFree(p: PathValue, ref: seq<string>)
    requires SlashFree(p.segs) && SlashFree(ref)
    ensures SlashFree(Walk(p, ref).segs)
    decreases |ref|
  {
    if ref != [] {
      assert ref[0] in ref && forall w :: w in ref[1..] ==> w in ref;
      assert forall w :: w in Pop(p.segs) ==> w in p.segs;
      WalkSlashFree(Step(p, ref[0]), ref[1..]);
    }
  }
}
