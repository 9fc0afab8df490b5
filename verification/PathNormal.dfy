/** What Path::normalize makes of a path: its meaning spelled in one way. */
module PathNormal {

  import opened PathSegments
  import opened Rfc3986
  import opened PathModel

  /** Where a list of segments leads: so many levels up, then down these names. */
  datatype Route = Route(ups: nat, names: seq<string>)

  function Enter(m: Route, w: string): (r: Route) {
    if w == "." then m
    else if w != ".." then m.(names := m.names + [w])
    else if m.names == [] then m.(ups := m.ups + 1)
    else m.(names := Pop(m.names))
  }

  function RouteOf(segs: seq<string>): (m: Route) {
    if segs == [] then Route(0, []) else Enter(RouteOf(Pop(segs)), Last(segs))
  }

  function Ups(n: nat): (segs: seq<string>)
    ensures |segs| == n && forall i :: 0 <= i < n ==> segs[i] == ".."
  {
    seq(n, i => "..")
  }

  function Lead(segs: seq<string>): (r: seq<string>) {
    if segs != [] && segs[0] == "." then ["."] else []
  }

  function Spell(lead: seq<string>, m: Route): (segs: seq<string>) {
    lead + (Ups(m.ups) + m.names)
  }

  /** The last segment is taken away, alone or together with a name. */
  predicate LastDropped(segs: seq<string>)
    requires segs != []
  {
    (|segs| > 1 && Last(segs) == ".") || (Last(segs) == ".." && RouteOf(Pop(segs)).names != [])
  }

  function Normalized(p: PathValue): (r: PathValue)
    requires p.segs != []
  {
    PathValue(Spell(Lead(p.segs), RouteOf(p.segs)), p.slashBegin, p.slashEnd || LastDropped(p.segs))
  }

  // ---------------------------------------------------------------- the spelling has its route

  lemma {:induction false} NamesNoDots(segs: seq<string>)
    ensures NoDots(RouteOf(segs).names)
  {
    if segs != [] {
      NamesNoDots(Pop(segs));
      assert forall w :: w in Pop(RouteOf(Pop(segs)).names) ==> w in RouteOf(Pop(segs)).names;
    }
  }

  lemma RouteSnoc(segs: seq<string>, w: string)
    ensures RouteOf(segs + [w]) == Enter(RouteOf(segs), w)
  {
    assert Pop(segs + [w]) == segs;
  }

  lemma {:induction false} RouteUps(lead: seq<string>, n: nat)
    requires lead in [[], ["."]]
    ensures RouteOf(lead + Ups(n)) == Route(n, [])
  {
    if n == 0 {
      assert lead + Ups(0) == lead;
      if lead == ["."] {
        assert [] + ["."] == ["."];
        RouteSnoc([], ".");
      }
    } else {
      RouteUps(lead, n - 1);
      assert lead + Ups(n) == (lead + Ups(n - 1)) + [".."];
      RouteSnoc(lead + Ups(n - 1), "..");
    }
  }

  lemma {:induction false} RouteNames(segs: seq<string>, names: seq<string>)
    requires NoDots(names)
    ensures RouteOf(segs + names) == Route(RouteOf(segs).ups, RouteOf(segs).names + names)
    decreases |names|
  {
    if names == [] {
      assert segs + names == segs && RouteOf(segs).names + names == RouteOf(segs).names;
    } else {
      var w, rest := names[0], names[1..];
      assert w in names && forall x :: x in rest ==> x in names;
      RouteSnoc(segs, w);
      RouteNames(segs + [w], rest);
      Regroup(segs, names);
      Regroup(RouteOf(segs).names, names);
    }
  }

  lemma Regroup(a: seq<string>, b: seq<string>)
    requires b != []
    ensures (a + [b[0]]) + b[1..] == a + b
  {
  }

  lemma RouteOfSpell(lead: seq<string>, m: Route)
    requires lead in [[], ["."]] && NoDots(m.names)
    ensures RouteOf(Spell(lead, m)) == m
  {
    RouteUps(lead, m.ups);
    RouteNames(lead + Ups(m.ups), m.names);
    assert Spell(lead, m) == (lead + Ups(m.ups)) + m.names;
  }

  /** normalize leads where the path led. */
  lemma NormalizeKeepsRoute(p: PathValue)
    requires p.segs != []
    ensures RouteOf(Normalized(p).segs) == RouteOf(p.segs)
  {
    NamesNoDots(p.segs);
    RouteOfSpell(Lead(p.segs), RouteOf(p.segs));
  }

  // ---------------------------------------------------------------- the normal form

  /** A dot only in front, and no dots after a name. */
  predicate NormalForm(segs: seq<string>) {
    forall i :: 0 < i < |segs| ==> segs[i] != "." && (segs[i] == ".." ==> Dot(segs[i - 1]))
  }

  lemma LeadOfSpell(lead: seq<string>, m: Route)
    requires lead in [[], ["."]] && NoDots(m.names)
    ensures Lead(Spell(lead, m)) == lead
  {
    var s := Spell(lead, m);
    if lead == [] && s != [] && m.ups == 0 {
      assert s[0] == m.names[0] && m.names[0] in m.names;
    }
  }

  lemma SpellNormal(lead: seq<string>, m: Route)
    requires lead in [[], ["."]] && NoDots(m.names)
    ensures NormalForm(Spell(lead, m))
  {
    var s := Spell(lead, m);
    var k := |lead| + m.ups;
    forall i | 0 < i < |s| ensures s[i] != "." && (s[i] == ".." ==> Dot(s[i - 1])) {
      assert i >= k ==> s[i] == m.names[i - k] && s[i] in m.names;
      assert |lead| <= i < k ==> s[i] == Ups(m.ups)[i - |lead|];
      assert |lead| <= i - 1 < k ==> s[i - 1] == Ups(m.ups)[i - 1 - |lead|];
    }
  }

  /** Names are left over exactly when the last segment is one. */
  predicate EndsAsRoute(segs: seq<string>) {
    segs != [] ==> (RouteOf(segs).names == [] <==> Dot(Last(segs)))
  }

  lemma OneSpelled(w: string)
    ensures Spell(Lead([w]), RouteOf([w])) == [w] && EndsAsRoute([w])
  {
    RouteSnoc([], w);
    assert [] + [w] == [w] && RouteOf([]) == Route(0, []);
    assert Ups(1) == [".."];
  }

  lemma {:induction false} NormalIsSpelled(segs: seq<string>)
    requires NormalForm(segs)
    ensures Spell(Lead(segs), RouteOf(segs)) == segs
    ensures EndsAsRoute(segs)
  {
    if |segs| == 1 {
      OneSpelled(segs[0]);
    } else if |segs| > 1 {
      var init, w := Pop(segs), Last(segs);
      assert NormalForm(init);
      NormalIsSpelled(init);
      NormalEnd(segs);
      SpellEnter(Lead(segs), RouteOf(init), w);
      PopLast(segs);
    }
  }

  lemma PopLast(segs: seq<string>)
    requires segs != []
    ensures segs == Pop(segs) + [Last(segs)]
  {
  }

  lemma NormalEnd(segs: seq<string>)
    requires |segs| > 1 && NormalForm(segs) && EndsAsRoute(Pop(segs))
    ensures Lead(segs) == Lead(Pop(segs)) && Last(segs) != "."
    ensures Last(segs) == ".." ==> RouteOf(Pop(segs)).names == []
    ensures EndsAsRoute(segs)
  {
    assert Last(Pop(segs)) == segs[|segs| - 2] && Last(segs) == segs[|segs| - 1];
  }

  lemma SpellEnter(lead: seq<string>, m: Route, w: string)
    requires w != "." && (w == ".." ==> m.names == [])
    ensures Spell(lead, Enter(m, w)) == Spell(lead, m) + [w]
  {
    if w == ".." {
      assert Ups(m.ups + 1) == Ups(m.ups) + [".."];
    }
  }

  /** normalize leaves the segments alone exactly when they are in normal form. */
  lemma NormalizeFixedExactly(p: PathValue)
    requires p.segs != []
    ensures Normalized(p).segs == p.segs <==> NormalForm(p.segs)
  {
    NamesNoDots(p.segs);
    SpellNormal(Lead(p.segs), RouteOf(p.segs));
    if NormalForm(p.segs) {
      NormalIsSpelled(p.segs);
    }
  }

  /** Nothing is left exactly of a path that leads nowhere and has no dot in front. */
  lemma NormalizeEmptyExactly(p: PathValue)
    requires p.segs != []
    ensures Normalized(p).segs == [] <==> Lead(p.segs) == [] && RouteOf(p.segs) == Route(0, [])
  {
    assert |Ups(RouteOf(p.segs).ups)| == RouteOf(p.segs).ups;
  }

  /** a/.. is such a path: it becomes the empty directory, which cannot be normalised again. */
  lemma UpAndBack(p: PathValue)
    requires p.segs == ["a", ".."]
    ensures Normalized(p) == PathValue([], p.slashBegin, true)
  {
    assert Pop(p.segs) == ["a"] && Pop(["a"]) == [];
    assert RouteOf([]) == Route(0, []);
    assert RouteOf(["a"]) == Route(0, ["a"]);
    assert RouteOf(p.segs) == Route(0, []);
    NormalizeEmptyExactly(p);
  }

  /** Normalising again, where it can be done, changes neither segments nor flags. */
  lemma NormalizeIdempotent(p: PathValue)
    requires p.segs != [] && !(Lead(p.segs) == [] && RouteOf(p.segs) == Route(0, []))
    ensures Normalized(p).segs != [] && Normalized(Normalized(p)) == Normalized(p)
  {
    var r := Normalized(p);
    NormalizeEmptyExactly(p);
    NamesNoDots(p.segs);
    SpellNormal(Lead(p.segs), RouteOf(p.segs));
    NormalizeFixedExactly(r);
    NothingDropped(r.segs);
  }

  lemma NothingDropped(segs: seq<string>)
    requires segs != [] && NormalForm(segs)
    ensures !LastDropped(segs)
  {
    var init := Pop(segs);
    assert |segs| > 1 ==> Last(segs) == segs[|segs| - 1] && Last(init) == segs[|segs| - 2];
    NormalIsSpelled(init);
  }

  /** Two paths normalise to the same segments exactly when they lead to the same place, dot in front or not. */
  lemma NormalizeEqualExactly(p: PathValue, q: PathValue)
    requires p.segs != [] && q.segs != []
    ensures Normalized(p).segs == Normalized(q).segs <==>
      Lead(p.segs) == Lead(q.segs) && RouteOf(p.segs) == RouteOf(q.segs)
  {
    NamesNoDots(p.segs);
    NamesNoDots(q.segs);
    LeadOfSpell(Lead(p.segs), RouteOf(p.segs));
    LeadOfSpell(Lead(q.segs), RouteOf(q.segs));
    NormalizeKeepsRoute(p);
    NormalizeKeepsRoute(q);
  }

  /** A slash, a dot or nothing at the end: the path names a directory. */
  predicate IsDirectory(p: PathValue) {
    p.slashEnd || p.segs == [] || Dot(Last(p.segs))
  }

  lemma NormalizeKeepsKind(p: PathValue)
    requires p.segs != []
    ensures IsDirectory(Normalized(p)) <==> IsDirectory(p)
  {
    var segs := p.segs;
    var init, w := Pop(segs), Last(segs);
    var m := RouteOf(init);
    NamesNoDots(segs);
    if !Dot(w) {
      assert RouteOf(segs).names == m.names + [w];
      assert Last(Normalized(p).segs) == w;
    } else if !LastDropped(segs) {
      assert RouteOf(segs).names == [] by {
        if w == "." {
          assert init == [];
        }
      }
      var s := Normalized(p).segs;
      assert s == Lead(segs) + Ups(RouteOf(segs).ups);
    }
  }
}
