/** What the stemmer does in step 1, to plurals, past forms and a last y: one law for each rule and every word x before the suffix. */
module PorterLawsFirst {
  import opened Bytes
  import opened BackwardTables
  import opened PorterTables
  import opened PorterSpec
  import opened PorterMeasure
  import opened PorterEndings
  import opened PorterStages
  import opened PorterMarks

  // ---------------------------------------------------------------- marked words

  lemma SameFirst(v: string, w: string)
    requires First(v) == First(w)
    ensures ByMeasure(v) == ByMeasure(w)
  {
  }

  /** What is longer than s among the suffixes of step 1a. */
  predicate OnlyS(x: string) {
    !EndsWith(x, "ie") && !EndsWith(x, "sse") && !EndsWith(x, "s")
  }

  lemma SEnds(x: string)
    requires OnlyS(x)
    ensures !EndsWith(x + "s", "ies") && !EndsWith(x + "s", "sses") && !EndsWith(x + "s", "ss")
  {
    EndsTail(x, "ie", "s");
    EndsTail(x, "sse", "s");
    EndsTail(x, "s", "s");
    assert "ie" + "s" == "ies" && "sse" + "s" == "sses" && "s" + "s" == "ss";
  }

  lemma Others1a(x: string, i: int, j: int)
    requires 0 <= i < 3 && 1 <= j < 4 && i != j && (i == 0 ==> OnlyS(x))
    ensures !EndsWith(x + Step1aRule(i).suffix, Step1aRule(j).suffix)
  {
    var s, t := Step1aRule(i).suffix, Step1aRule(j).suffix;
    if i == 0 {
      SEnds(x);
    } else {
      BackConcat(x, s, 1);
      BackConcat(x, s, 2);
      EndsBack(x + s, t, 1);
      if j < 3 { EndsBack(x + s, t, 2); }
    }
  }

  lemma Applies1a(x: string, i: int)
    requires 0 <= i < 3 && (i == 0 ==> OnlyS(x))
    ensures Step1a(x + Step1aRule(i).suffix) == x + Step1aRule(i).replacement
  {
    var w := x + Step1aRule(i).suffix;
    var f := RuleSuffixes(Step1aRule);
    EndsConcat(x, Step1aRule(i).suffix);
    PorterEndings.Step1aEntries();
    forall j | 1 <= j < 4 && j != i ensures !EndsWith(w, f(j)) {
      Others1a(x, i, j);
    }
    LongestIs(Step1aEntry, f, 4, w, i);
  }

  /** A word that ends with d, g or y has no rule behind step 1. */
  lemma NoRules(w: string)
    requires w != "" && Back(w, 0) in "dgyY"
    ensures Onward(1, w) == w
  {
    assert Back(w, 0) != 'e' && Back(w, 0) != 'l';
    SecondLeavesLast(w);
    ThirdLeavesLast(w);
    DeleteLeavesLast(w);
    EndLeavesChar(w);
    assert Onward(2, w) == Onward(3, w);
  }

  lemma SecondLeavesLast(w: string)
    requires w != "" && Back(w, 0) in "dgyY"
    ensures Second(w) == w
  {
    forall i | 0 <= i < 20 ensures !EndsWith(w, RuleSuffixes(Step2Rule)(i)) {
      assert Step2Group(i)[1] !in "dgyY";
      Step2Ends(i);
      EndsBack(w, Step2Rule(i).suffix, 0);
    }
    NoneIsLongest(RuleSuffixes(Step2Rule), 20, w);
  }

  lemma ThirdLeavesLast(w: string)
    requires w != "" && Back(w, 0) in "dgyY"
    ensures Third(w) == w
  {
    forall i | 0 <= i < 7 && |w| >= 2 ensures Step3Group(i) != Two(w) {
      assert Step3Group(i)[1] !in "dgyY";
      assert Two(w)[1] == Back(w, 0);
    }
    ThirdLeaves(w);
  }

  lemma DeleteLeavesLast(w: string)
    requires w != "" && Back(w, 0) in "dgyY"
    ensures Delete(w) == w
  {
    forall i | 0 <= i < 19 && |w| >= 2 ensures Step4Group(i) != Two(w) {
      assert Step4Group(i)[1] !in "dgyY";
      assert Two(w)[1] == Back(w, 0);
    }
    DeleteLeaves(w);
  }

  // ---------------------------------------------------------------- plurals

  lemma ByIes(m: string)
    ensures ByMeasure(m + "ies") == ByMeasure(m + "i")
  {
    assert Step1aRule(1) == Rule("ies", "i");
    Applies1a(m, 1);
    BackConcat(m, "i", 0);
    FirstLeaves(m + "i");
    PastLeaves(m + "i");
    Step1cLeaves(m + "i");
    SameFirst(m + "ies", m + "i");
  }

  lemma BySses(m: string)
    ensures ByMeasure(m + "sses") == ByMeasure(m + "ss")
  {
    assert Step1aRule(2) == Rule("sses", "ss");
    Applies1a(m, 2);
    BackConcat(m, "ss", 0);
    EndsConcat(m, "ss");
    FirstLeaves(m + "ss");
    PastLeaves(m + "ss");
    Step1cLeaves(m + "ss");
    SameFirst(m + "sses", m + "ss");
  }

  lemma ByS(m: string)
    requires OnlyS(m)
    ensures ByMeasure(m + "s") == ByMeasure(m)
  {
    assert Step1aRule(0) == Rule("s", "");
    assert m + "" == m;
    Applies1a(m, 0);
    LastNot(m, "s");
    Step1aLeaves(m);
    SameFirst(m + "s", m);
  }

  lemma LastNot(m: string, t: string)
    requires |t| == 1 && !EndsWith(m, t)
    ensures m == "" || Back(m, 0) != t[0]
  {
    if m != "" { assert m[|m| - 1..] == [Back(m, 0)]; }
  }

  lemma Ies(x: string)
    ensures Stem(x + "ies") == Stem(x + "i")
  {
    ByIes(Mark(x));
    SameStem(x, "ies", "i");
  }

  lemma Sses(x: string)
    ensures Stem(x + "sses") == Stem(x + "ss")
  {
    BySses(Mark(x));
    SameStem(x, "sses", "ss");
  }

  lemma S(x: string)
    requires OnlyS(x)
    ensures Stem(x + "s") == Stem(x)
  {
    MarkEnds(x, "ie");
    MarkEnds(x, "sse");
    MarkEnds(x, "s");
    ByS(Mark(x));
    SameAsBare(x, "s");
  }

  lemma NessOnly(x: string)
    requires !EndsWith(x, "ne")
    ensures !EndsWith(x + "ss", "ness")
    ensures !EndsWith(x + "ss", "iveness") && !EndsWith(x + "ss", "fulness") && !EndsWith(x + "ss", "ousness")
  {
    EndsTail(x, "ne", "ss");
    assert "ne" + "ss" == "ness";
    assert EndsWith("iveness", "ness") && EndsWith("fulness", "ness") && EndsWith("ousness", "ness");
    Shorter(x + "ss", "iveness", "ness");
    Shorter(x + "ss", "fulness", "ness");
    Shorter(x + "ss", "ousness", "ness");
  }

  lemma SecondLeavesNe(m: string)
    requires !EndsWith(m, "ne")
    ensures Second(m + "ss") == m + "ss" && Third(m + "ss") == m + "ss"
  {
    NessOnly(m);
    TwoConcat(m, "ss");
    SecondLeavesSs(m + "ss");
    assert Step3Rule(6).suffix == "ness";
    ThirdLeavesGroup(m + "ss", 6, "ness");
  }

  lemma BySs(m: string)
    requires !EndsWith(m, "ne")
    ensures ByMeasure(m + "ss") == m + "ss"
  {
    TwoConcat(m, "ss");
    EndsConcat(m, "ss");
    NoLater3(m + "ss");
    SecondLeavesNe(m);
    FirstLeaves(m + "ss");
    Comes3(m + "ss");
  }

  /** ss stays. */
  lemma Ss(x: string)
    requires !EndsWith(x, "ne")
    ensures Stem(x + "ss") == Kept(x) + "ss"
  {
    MarkEnds(x, "ne");
    BySs(Mark(x));
    OwnStem(x, "ss", "ss");
  }

  // ---------------------------------------------------------------- past forms

  lemma ByEed(m: string)
    ensures ByMeasure(m + "eed") == if Measure(m) > 0 then ByMeasure(m + "ee") else m + "eed"
  {
    var w := m + "eed";
    BackConcat(m, "eed", 0);
    BackConcat(m, "ee", 0);
    Step1aLeaves(w);
    EndsConcat(m, "eed");
    assert Cut(w, 1) == m + "ee";
    if Measure(m) > 0 {
      FirstLeaves(m + "ee");
      Step1cLeaves(m + "ee");
      SameFirst(w, m + "ee");
    } else {
      Step1cLeaves(w);
      Comes1(w);
      NoRules(w);
    }
  }

  lemma Eed(x: string)
    ensures Stem(x + "eed") == if Pairs(x) > 0 then Stem(x + "ee") else Kept(x) + "eed"
  {
    ByEed(Mark(x));
    if Pairs(x) > 0 { SameStem(x, "eed", "ee"); } else { OwnStem(x, "eed", "eed"); }
  }

  /** The word has a vowel; y counts behind a consonant. */
  predicate Voiced(x: string) {
    exists k :: 0 <= k < |x| && Mark(x)[k] in "aeiouy"
  }

  lemma VoicedMeans(x: string)
    ensures Voiced(x) <==> HasVowel(Mark(x))
  {
  }

  /** ed not after e, or ing. */
  predicate PastSuffix(x: string, s: string) {
    s == "ing" || (s == "ed" && !EndsWith(x, "e"))
  }

  lemma PastEnds(m: string)
    requires !EndsWith(m, "e")
    ensures !EndsWith(m + "ed", "eed") && EndsWith(m + "ed", "ed") && Cut(m + "ed", 2) == m
  {
    EndsTail(m, "e", "ed");
    assert "e" + "ed" == "eed";
    EndsConcat(m, "ed");
  }

  lemma IngEnds(m: string)
    ensures !EndsWith(m + "ing", "eed") && !EndsWith(m + "ing", "ed") && EndsWith(m + "ing", "ing") && Cut(m + "ing", 3) == m
  {
    EndsConcat(m, "ing");
    EndsBack(m + "ing", "eed", 0);
    EndsBack(m + "ing", "ed", 0);
  }

  lemma ByPast(m: string, s: string)
    requires PastSuffix(m, s)
    ensures First(m + s) == if HasVowel(m) then Step1c(Tidied(m)) else m + s
    ensures Back(m + s, 0) in "dg"
  {
    if s == "ing" { ByIng(m); } else { ByEd(m); }
    BackConcat(m, s, 0);
  }

  lemma ByIng(m: string)
    ensures First(m + "ing") == if HasVowel(m) then Step1c(Tidied(m)) else m + "ing"
  {
    BackConcat(m, "ing", 0);
    Step1aLeaves(m + "ing");
    Step1cLeaves(m + "ing");
    IngEnds(m);
  }

  lemma ByEd(m: string)
    requires !EndsWith(m, "e")
    ensures First(m + "ed") == if HasVowel(m) then Step1c(Tidied(m)) else m + "ed"
  {
    BackConcat(m, "ed", 0);
    Step1aLeaves(m + "ed");
    Step1cLeaves(m + "ed");
    PastEnds(m);
  }

  lemma ByPastStays(m: string, s: string)
    requires PastSuffix(m, s) && !HasVowel(m)
    ensures ByMeasure(m + s) == m + s
  {
    ByPast(m, s);
    Comes1(m + s);
    NoRules(m + s);
  }

  lemma ByPastE(m: string, s: string)
    requires PastSuffix(m, s) && HasVowel(m) && Tidied(m) == m + "e"
    ensures ByMeasure(m + s) == ByMeasure(m + "e")
  {
    ByPast(m, s);
    BackConcat(m, "e", 0);
    Step1cLeaves(m + "e");
    FirstLeaves(m + "e");
    SameFirst(m + s, m + "e");
  }

  /** Step 1 as far as its last part leaves m alone. */
  predicate Steady(m: string) {
    (!EndsWith(m, "s") || EndsWith(m, "ss")) && !EndsWith(m, "ed") && !EndsWith(m, "ing")
  }

  lemma SteadyFirst(m: string)
    requires Steady(m)
    ensures First(m) == Step1c(m)
  {
    if !EndsWith(m, "s") { LastNot(m, "s"); }
    Step1aLeaves(m);
    assert EndsWith("eed", "ed");
    Shorter(m, "eed", "ed");
  }

  lemma ByPastPlain(m: string, s: string, r: string)
    requires PastSuffix(m, s) && HasVowel(m) && Tidied(m) == r && Steady(r)
    ensures ByMeasure(m + s) == ByMeasure(r)
  {
    ByPast(m, s);
    SteadyFirst(r);
    SameFirst(m + s, r);
  }

  lemma PastMark(x: string, s: string)
    requires PastSuffix(x, s)
    ensures PastSuffix(Mark(x), s) && 'y' !in s && 'Y' !in s
  {
    MarkEnds(x, "e");
  }

  /** Without a vowel the suffix stays. */
  lemma PastStays(x: string, s: string)
    requires PastSuffix(x, s) && !Voiced(x)
    ensures Stem(x + s) == Kept(x) + s
  {
    PastMark(x, s);
    VoicedMeans(x);
    ByPastStays(Mark(x), s);
    OwnStem(x, s, s);
  }

  predicate WantsE(x: string) {
    EndsWith(x, "at") || EndsWith(x, "bl") || EndsWith(x, "iz") || (Pairs(x) == 1 && Cvc(Mark(x)))
  }

  lemma TidiedE(x: string)
    requires WantsE(x)
    ensures Tidied(Mark(x)) == Mark(x) + "e"
  {
    MarkEnds(x, "at");
    MarkEnds(x, "bl");
    MarkEnds(x, "iz");
    CvcMeans(Mark(x));
  }

  /** After at, bl and iz, and after a short word of one pair, an e takes its place. */
  lemma PastE(x: string, s: string)
    requires PastSuffix(x, s) && Voiced(x) && WantsE(x)
    ensures Stem(x + s) == Stem(x + "e")
  {
    PastMark(x, s);
    VoicedMeans(x);
    TidiedE(x);
    ByPastE(Mark(x), s);
    SameStem(x, s, "e");
  }

  predicate Doubles(x: string) {
    |x| >= 2 && x[|x| - 2] == x[|x| - 1] && x[|x| - 1] in "bdfgmnprt"
  }

  lemma DoublesMark(x: string)
    ensures Doubles(Mark(x)) <==> Doubles(x)
  {
    if |x| >= 2 {
      MarkMeans(x, |x| - 2);
      MarkMeans(x, |x| - 1);
    }
  }

  /** Otherwise the word before the suffix is stemmed, unless step 1 would change it again. */
  lemma PastPlain(x: string, s: string)
    requires PastSuffix(x, s) && Voiced(x) && !WantsE(x) && !Doubles(x) && Steady(x)
    ensures Stem(x + s) == Stem(x)
  {
    PastMark(x, s);
    VoicedMeans(x);
    DoublesMark(x);
    SteadyMark(x);
    TidiedPlain(x);
    ByPastPlain(Mark(x), s, Mark(x));
    SameAsBare(x, s);
  }

  lemma SteadyMark(x: string)
    requires Steady(x)
    ensures Steady(Mark(x))
  {
    MarkEnds(x, "s");
    MarkEnds(x, "ss");
    MarkEnds(x, "ed");
    MarkEnds(x, "ing");
  }

  lemma TidiedPlain(x: string)
    requires !WantsE(x) && !Doubles(Mark(x))
    ensures Tidied(Mark(x)) == Mark(x)
  {
    MarkEnds(x, "at");
    MarkEnds(x, "bl");
    MarkEnds(x, "iz");
    CvcMeans(Mark(x));
  }

  lemma DoubleEnds(m: string, c: char)
    requires c in "bdfgmnprt"
    ensures Tidied(m + [c, c]) == m + [c]
  {
    var w := m + [c, c];
    EndsBack(w, "at", 0);
    EndsBack(w, "at", 1);
    EndsBack(w, "bl", 0);
    EndsBack(w, "iz", 0);
    assert w[|w| - 2] == c && w[|w| - 1] == c;
    assert Cut(w, 1) == m + [c];
  }

  lemma ByDouble(m: string, c: char, s: string)
    requires c in "bdfgmnprt" && PastSuffix(m + [c, c], s) && HasVowel(m + [c, c]) && Steady(m + [c])
    ensures ByMeasure((m + [c, c]) + s) == ByMeasure(m + [c])
  {
    DoubleEnds(m, c);
    ByPastPlain(m + [c, c], s, m + [c]);
  }

  lemma DoubleMark(x: string, c: char, s: string)
    requires c in "bdfgmnprt" && PastSuffix(x + [c, c], s) && Voiced(x + [c, c]) && Steady(x + [c])
    ensures PastSuffix(Mark(x) + [c, c], s) && HasVowel(Mark(x) + [c, c]) && Steady(Mark(x) + [c])
    ensures Plain([c]) && Plain([c, c]) && 'y' !in s
  {
    PlainDouble(c);
    KeptConcat(x, [c]);
    KeptConcat(x, [c, c]);
    PastMark(x + [c, c], s);
    VoicedMeans(x + [c, c]);
    SteadyMark(x + [c]);
  }

  lemma PlainDouble(c: char)
    requires c in "bdfgmnprt"
    ensures Plain([c]) && Plain([c, c])
  {
  }

  /** One of a double consonant goes. */
  lemma PastDouble(x: string, c: char, s: string)
    requires c in "bdfgmnprt" && PastSuffix(x + [c, c], s) && Voiced(x + [c, c]) && Steady(x + [c])
    ensures Stem((x + [c, c]) + s) == Stem(x + [c])
  {
    DoubleMark(x, c, s);
    ByDouble(Mark(x), c, s);
    BothWritten(x, [c, c], [c], s);
  }

  lemma BothWritten(x: string, u: string, v: string, s: string)
    requires Plain(u) && Plain(v) && 'y' !in s && ByMeasure((Mark(x) + u) + s) == ByMeasure(Mark(x) + v)
    ensures Stem((x + u) + s) == Stem(x + v)
  {
    KeptConcat(x, u);
    SameMark(x, u);
    StemIs(x + u, s);
    PlainHas(v);
    StemIs(x, v);
  }

  // ---------------------------------------------------------------- y

  lemma MarkY(x: string) returns (c: char)
    ensures c in "yY" && Mark(x + "y") == Mark(x) + [c]
  {
    c := Mark(x + "y")[|x|];
    MarkMeans(x + "y", |x|);
    MarkPrefix(x, "y");
    assert Mark(x + "y") == Mark(x + "y")[..|x|] + [c];
  }

  lemma {:induction false} MarkFromPrefix(a: bool, x: string, s: string)
    ensures MarkFrom(a, x + s)[..|x|] == MarkFrom(a, x)
    decreases |x|
  {
    if x != "" {
      var next := if x[0] == 'y' && a then false else IsVowel(x[0]);
      assert (x + s)[1..] == x[1..] + s;
      MarkFromPrefix(next, x[1..], s);
      var l, r := MarkFrom(a, x + s), MarkFrom(a, x);
      assert l[1..] == MarkFrom(next, x[1..] + s) && r[1..] == MarkFrom(next, x[1..]);
      assert l[..|x|] == [l[0]] + l[1..][..|x| - 1];
      assert r == [r[0]] + r[1..];
    }
  }

  lemma MarkPrefix(x: string, s: string)
    ensures Mark(x + s)[..|x|] == Mark(x)
  {
    MarkFromPrefix(true, x, s);
  }

  lemma FirstY(m: string, c: char)
    requires c in "yY"
    ensures First(m + [c]) == if HasVowel(m) then m + "i" else m + [c]
  {
    BackConcat(m, [c], 0);
    Step1aLeaves(m + [c]);
    PastLeaves(m + [c]);
    YEnds(m, c);
  }

  lemma FirstI(m: string)
    ensures First(m + "i") == m + "i"
  {
    BackConcat(m, "i", 0);
    FirstLeaves(m + "i");
  }

  lemma ByY(m: string, c: char)
    requires c in "yY"
    ensures ByMeasure(m + [c]) == if HasVowel(m) then ByMeasure(m + "i") else m + [c]
  {
    var w := m + [c];
    assert Back(w, 0) == c;
    FirstY(m, c);
    if HasVowel(m) {
      FirstI(m);
      SameFirst(w, m + "i");
    } else {
      NoRules(w);
      Comes1(w);
    }
  }

  lemma YEnds(m: string, c: char)
    requires c in "yY"
    ensures Step1c(m + [c]) == if HasVowel(m) then m + "i" else m + [c]
  {
    EndsConcat(m, [c]);
    assert [c] == "y" || [c] == "Y";
  }

  /** In a word without Y the stem can be written again or not: it has no Y. */
  lemma NoMarks(m: string)
    ensures 'Y' !in m ==> Unmark(ByMeasure(m)) == ByMeasure(m)
  {
    StepsByMeasure(m);
    StepsShrink(m, P1(m), P2(m));
    if 'Y' !in m {
      assert forall k :: 0 <= k < |ByMeasure(m)| ==> ByMeasure(m)[k] in ByMeasure(m);
    }
  }

  lemma KeptY(x: string)
    requires 'Y' !in x
    ensures Mark(x + "y") != x + "y" || Mark(x) == x
    ensures Mark(x) == x ==> 'Y' !in Mark(x) + "i"
  {
    MarkPrefix(x, "y");
    if Mark(x + "y") == x + "y" {
      assert (x + "y")[..|x|] == x;
    }
  }

  lemma VoicedY(x: string, c: char)
    requires 'Y' !in x && Mark(x + "y") == Mark(x) + [c] && ByMeasure(Mark(x) + [c]) == ByMeasure(Mark(x) + "i")
    ensures Stem(x + "y") == Stem(x + "i")
  {
    StemOf(x + "y");
    StemIs(x, "i");
    KeptY(x);
    if Mark(x) == x { NoMarks(Mark(x) + "i"); }
  }

  /** A last y becomes i if a vowel is before it, and else stays. */
  lemma Y(x: string)
    requires 'Y' !in x
    ensures Stem(x + "y") == if Voiced(x) then Stem(x + "i") else x + "y"
  {
    var c := MarkY(x);
    VoicedMeans(x);
    ByY(Mark(x), c);
    if Voiced(x) {
      VoicedY(x, c);
    } else {
      StemOf(x + "y");
      KeptPlain(x + "y");
    }
  }
}
