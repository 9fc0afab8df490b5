/** Words that the earlier stages have no part in, by their ending: their stem is what the later stages make of them. */
module PorterStages {
  import opened Bytes
  import opened BackwardTables
  import opened PorterSpec
  import opened PorterMeasure
  import opened PorterEndings

  /** The stages before k have no part in the stem of w. */
  ghost predicate Comes(k: nat, w: string) {
    ByMeasure(w) == Onward(k, w)
  }

  lemma Comes1(w: string)
    requires First(w) == w
    ensures Comes(1, w)
  {
  }

  lemma Comes2(w: string)
    requires First(w) == w && Second(w) == w
    ensures Comes(2, w)
  {
    Comes1(w);
  }

  lemma Comes3(w: string)
    requires First(w) == w && Second(w) == w && Third(w) == w
    ensures Comes(3, w)
  {
    Comes2(w);
  }

  lemma Comes4(w: string)
    requires First(w) == w && Second(w) == w && Third(w) == w && Delete(w) == w
    ensures Comes(4, w)
  {
    Comes3(w);
  }

  lemma TwoEnds(w: string, t: string)
    requires |w| >= 2 && |t| == 2 && Two(w) == t
    ensures EndsWith(w, t)
  {
    assert w[|w| - 2..] == [w[|w| - 2], w[|w| - 1]];
  }

  // ---------------------------------------------------------------- before step 3

  lemma FirstLeaves2(x: string, i: int)
    requires 0 <= i < 20
    ensures First(x + Step2Rule(i).suffix) == x + Step2Rule(i).suffix
  {
    var w := x + Step2Rule(i).suffix;
    Step2Ends(i);
    TwoConcat(x, Step2Rule(i).suffix);
    if i >= 17 {
      TwoEnds(w, "ss");
    }
    FirstLeaves(w);
  }

  /** Rule i of step 2 on the stem: what is before it, and then the later stages on the result. */
  lemma ByRule2(x: string, i: int)
    requires 0 <= i < 20 && (i == 10 ==> !EndsWith(x, "a")) && (i == 13 ==> !EndsWith(x, "iz"))
    ensures Measure(x) > 0 ==> ByMeasure(x + Step2Rule(i).suffix) == Onward(2, x + Step2Rule(i).replacement)
    ensures Measure(x) == 0 ==> Comes(2, x + Step2Rule(i).suffix)
  {
    FirstLeaves2(x, i);
    SecondApplies(x, i);
    Comes1(x + Step2Rule(i).suffix);
  }

  /** A word that ends with e or t. */
  lemma ComesET(x: string, s: string)
    requires s != "" && Back(s, 0) in "et"
    ensures Comes(2, x + s)
  {
    BackConcat(x, s, 0);
    FirstLeaves(x + s);
    SecondLeaves(x + s);
    Comes2(x + s);
  }

  lemma ComesFul(x: string)
    ensures Comes(2, x + "ful")
  {
    TwoConcat(x, "ful");
    FirstLeaves(x + "ful");
    SecondLeaves(x + "ful");
    Comes2(x + "ful");
  }

  lemma ComesAl(x: string)
    requires !EndsWith(x, "tion")
    ensures Comes(2, x + "al")
  {
    TwoConcat(x, "al");
    FirstLeaves(x + "al");
    AlEnds(x);
    SecondLeavesAl(x + "al");
    Comes2(x + "al");
  }

  lemma ComesTion(x: string)
    requires !EndsWith(x, "a")
    ensures Comes(2, x + "tion")
  {
    TwoConcat(x, "tion");
    FirstLeaves(x + "tion");
    TionEnds(x);
    SecondLeavesOn(x + "tion");
    Comes2(x + "tion");
  }

  lemma ComesIciti(x: string)
    ensures Comes(2, x + "iciti")
  {
    var w := x + "iciti";
    TwoConcat(x, "iciti");
    BackConcat(x, "iciti", 3);
    FirstLeaves(w);
    EndsBack(w, "aliti", 3);
    EndsBack(w, "biliti", 3);
    EndsBack(w, "iviti", 3);
    SecondLeavesTi(w);
    Comes2(w);
  }

  lemma ComesIcal(x: string)
    ensures Comes(2, x + "ical")
  {
    var w := x + "ical";
    TwoConcat(x, "ical");
    BackConcat(x, "ical", 2);
    FirstLeaves(w);
    EndsBack(w, "tional", 2);
    SecondLeavesAl(w);
    Comes2(w);
  }

  lemma NessEnds(x: string)
    ensures EndsWith(x + "ness", "iveness") <==> EndsWith(x, "ive")
    ensures EndsWith(x + "ness", "fulness") <==> EndsWith(x, "ful")
    ensures EndsWith(x + "ness", "ousness") <==> EndsWith(x, "ous")
  {
    EndsTail(x, "ive", "ness");
    EndsTail(x, "ful", "ness");
    EndsTail(x, "ous", "ness");
    assert "ive" + "ness" == "iveness" && "ful" + "ness" == "fulness" && "ous" + "ness" == "ousness";
  }

  lemma ComesNess(x: string)
    requires !EndsWith(x, "ive") && !EndsWith(x, "ful") && !EndsWith(x, "ous")
    ensures Comes(2, x + "ness")
  {
    var w := x + "ness";
    TwoConcat(x, "ness");
    TwoEnds(w, "ss");
    FirstLeaves(w);
    NessEnds(x);
    SecondLeavesSs(w);
    Comes2(w);
  }

  /** Rule i of step 3. */
  lemma ByRule3(x: string, i: int)
    requires 0 <= i < 7 && Comes(2, x + Step3Rule(i).suffix)
    ensures Measure(x) > 0 ==> ByMeasure(x + Step3Rule(i).suffix) == Onward(3, x + Step3Rule(i).replacement)
    ensures Measure(x) == 0 ==> Comes(3, x + Step3Rule(i).suffix)
  {
    ThirdApplies(x, i);
  }

  // ---------------------------------------------------------------- before step 4

  predicate EasyTwo(two: string) {
    two == "ic" || two == "ce" || two == "le" || two == "nt" || two == "ou"
  }

  /** An ending that no rule of steps 1, 2 and 3 has. */
  lemma ComesEasy(x: string, s: string)
    requires |s| >= 2 && EasyTwo(Two(s))
    ensures Comes(3, x + s)
  {
    TwoConcat(x, s);
    FirstLeaves(x + s);
    SecondLeaves(x + s);
    ThirdLeaves(x + s);
    Comes3(x + s);
  }

  /** An ending that step 3 leaves alone: ate, ive, ize, iti and al, where the longer suffix of step 3 is not there. */
  lemma ComesPast3(w: string)
    requires Comes(2, w) && Third(w) == w
    ensures Comes(3, w)
  {
  }

  lemma Step3Longer()
    ensures Step3Rule(0).suffix == "icate" && Step3Rule(1).suffix == "ative" && Step3Rule(2).suffix == "alize"
    ensures Step3Rule(3).suffix == "iciti" && Step3Rule(4).suffix == "ical"
  {
  }

  lemma IcateEnds(x: string)
    ensures EndsWith(x + "ate", "icate") <==> EndsWith(x, "ic")
    ensures EndsWith(x + "ive", "ative") <==> EndsWith(x, "at")
    ensures EndsWith(x + "ize", "alize") <==> EndsWith(x, "al")
    ensures EndsWith(x + "iti", "iciti") <==> EndsWith(x, "ic")
    ensures EndsWith(x + "al", "ical") <==> EndsWith(x, "ic")
  {
    EndsTail(x, "ic", "ate");
    EndsTail(x, "at", "ive");
    EndsTail(x, "al", "ize");
    EndsTail(x, "ic", "iti");
    EndsTail(x, "ic", "al");
    assert "ic" + "ate" == "icate" && "at" + "ive" == "ative" && "al" + "ize" == "alize";
    assert "ic" + "iti" == "iciti" && "ic" + "al" == "ical";
  }

  lemma ThirdLeavesGroup(w: string, i: int, s: string)
    requires 0 <= i < 7 && |w| >= 2 && Two(w) == Step3Group(i) && s == Step3Rule(i).suffix && !EndsWith(w, s)
    ensures Third(w) == w
  {
    forall j | 0 <= j < 7 && Step3Group(j) == Two(w) ensures !EndsWith(w, Step3Rule(j).suffix) {
      assert j == i;
    }
    ThirdLeaves(w);
  }

  lemma ComesAte(x: string)
    requires !EndsWith(x, "ic")
    ensures Comes(3, x + "ate")
  {
    ComesET(x, "ate");
    TwoConcat(x, "ate");
    IcateEnds(x);
    Step3Longer();
    ThirdLeavesGroup(x + "ate", 0, "icate");
    ComesPast3(x + "ate");
  }

  lemma ComesIve(x: string)
    requires !EndsWith(x, "at")
    ensures Comes(3, x + "ive")
  {
    ComesET(x, "ive");
    TwoConcat(x, "ive");
    IcateEnds(x);
    Step3Longer();
    ThirdLeavesGroup(x + "ive", 1, "ative");
    ComesPast3(x + "ive");
  }

  lemma ComesIze(x: string)
    requires !EndsWith(x, "al")
    ensures Comes(3, x + "ize")
  {
    ComesET(x, "ize");
    TwoConcat(x, "ize");
    IcateEnds(x);
    Step3Longer();
    ThirdLeavesGroup(x + "ize", 2, "alize");
    ComesPast3(x + "ize");
  }

  lemma ItiEnds(x: string)
    ensures EndsWith(x + "iti", "aliti") <==> EndsWith(x, "al")
    ensures EndsWith(x + "iti", "biliti") <==> EndsWith(x, "bil")
    ensures EndsWith(x + "iti", "iviti") <==> EndsWith(x, "iv")
  {
    EndsTail(x, "al", "iti");
    EndsTail(x, "bil", "iti");
    EndsTail(x, "iv", "iti");
    assert "al" + "iti" == "aliti" && "bil" + "iti" == "biliti" && "iv" + "iti" == "iviti";
  }

  lemma ComesIti(x: string)
    requires !EndsWith(x, "al") && !EndsWith(x, "bil") && !EndsWith(x, "iv") && !EndsWith(x, "ic")
    ensures Comes(3, x + "iti")
  {
    var w := x + "iti";
    TwoConcat(x, "iti");
    FirstLeaves(w);
    ItiEnds(x);
    SecondLeavesTi(w);
    Comes2(w);
    IcateEnds(x);
    Step3Longer();
    ThirdLeavesGroup(w, 3, "iciti");
    ComesPast3(w);
  }

  lemma ComesAl3(x: string)
    requires !EndsWith(x, "tion") && !EndsWith(x, "ic")
    ensures Comes(3, x + "al")
  {
    ComesAl(x);
    TwoConcat(x, "al");
    IcateEnds(x);
    Step3Longer();
    ThirdLeavesGroup(x + "al", 4, "ical");
    ComesPast3(x + "al");
  }

  lemma ShortEnds(x: string)
    ensures EndsWith(x + "ism", "alism") <==> EndsWith(x, "al")
    ensures EndsWith(x + "er", "izer") <==> EndsWith(x, "iz")
    ensures EndsWith(x + "ion", "ation") <==> EndsWith(x, "at")
  {
    EndsTail(x, "al", "ism");
    EndsTail(x, "iz", "er");
    EndsTail(x, "at", "ion");
    assert "al" + "ism" == "alism" && "iz" + "er" == "izer" && "at" + "ion" == "ation";
  }

  lemma ThirdLeavesTwo(w: string)
    requires |w| >= 2 && (Two(w) == "sm" || Two(w) == "er" || Two(w) == "on")
    ensures Third(w) == w
  {
    forall i | 0 <= i < 7 ensures Step3Group(i) != Two(w) {
      assert Step3Group(i)[1] != Two(w)[1];
    }
    ThirdLeaves(w);
  }

  lemma ComesIsm(x: string)
    requires !EndsWith(x, "al")
    ensures Comes(3, x + "ism")
  {
    TwoConcat(x, "ism");
    FirstLeaves(x + "ism");
    ShortEnds(x);
    SecondLeavesSmEr(x + "ism");
    ThirdLeavesTwo(x + "ism");
    Comes3(x + "ism");
  }

  lemma ComesEr(x: string)
    requires !EndsWith(x, "iz")
    ensures Comes(3, x + "er")
  {
    TwoConcat(x, "er");
    FirstLeaves(x + "er");
    ShortEnds(x);
    SecondLeavesSmEr(x + "er");
    ThirdLeavesTwo(x + "er");
    Comes3(x + "er");
  }

  lemma ComesIon(x: string)
    requires !EndsWith(x, "at")
    ensures Comes(3, x + "ion")
  {
    TwoConcat(x, "ion");
    FirstLeaves(x + "ion");
    ShortEnds(x);
    SecondLeavesOn(x + "ion");
    ThirdLeavesTwo(x + "ion");
    Comes3(x + "ion");
  }

  /** Suffix i of step 4. */
  lemma ByRule4(x: string, i: int)
    requires 0 <= i < 19 && (i == 15 ==> !EndsWith(x, "m")) && (i == 16 ==> !EndsWith(x, "e"))
    requires Comes(3, x + Step4Suffix(i))
    ensures ByMeasure(x + Step4Suffix(i)) ==
      Onward(4, if Measure(x) > 1 && (i == 11 ==> EndsWith(x, "s") || EndsWith(x, "t")) then x else x + Step4Suffix(i))
  {
    DeleteApplies(x, i);
  }

  // ---------------------------------------------------------------- step 5

  /** Step 5 leaves a word alone that ends with neither e nor ll. */
  lemma EndLeaves(w: string)
    requires !EndsWith(w, "e") && !EndsWith(w, "ll")
    ensures Onward(4, w) == w
  {
    assert DropE(w) == w && DropL(w) == w;
    assert Onward(5, w) == w;
  }

  lemma EndLeavesChar(w: string)
    requires w != "" && Back(w, 0) != 'e' && Back(w, 0) != 'l'
    ensures Onward(4, w) == w
  {
    EndsBack(w, "e", 0);
    EndsBack(w, "ll", 0);
    EndLeaves(w);
  }

  lemma EndIs(w: string)
    ensures Onward(4, w) == DropL(DropE(w))
  {
    assert Onward(4, w) == Onward(5, DropE(w));
  }

  // ---------------------------------------------------------------- endings of no later rule

  predicate NotFour(two: string) {
    two == "ci" || two == "li" || two == "or" || two == "ul" || two == "ss" || two == "ll"
  }

  lemma NotGroup(i: int, two: string)
    requires NotFour(two)
    ensures Step4Group(i) != two
  {
    assert two[0] != Step4Group(i)[0] || two[1] != Step4Group(i)[1];
  }

  lemma DeleteLeavesTwo(w: string)
    requires |w| >= 2 && NotFour(Two(w))
    ensures Delete(w) == w
  {
    forall i | 0 <= i < 19 ensures Step4Group(i) != Two(w) {
      NotGroup(i, Two(w));
    }
    DeleteLeaves(w);
  }

  lemma NoLater2(w: string)
    requires |w| >= 2 && (Two(w) == "ci" || Two(w) == "li" || Two(w) == "or")
    ensures Onward(2, w) == w
  {
    ThirdLeaves(w);
    DeleteLeavesTwo(w);
    EndLeavesChar(w);
    assert Onward(2, w) == Onward(3, w);
  }

  lemma NoLater3(w: string)
    requires |w| >= 2 && (Two(w) == "ul" || Two(w) == "ss")
    ensures Onward(3, w) == w
  {
    DeleteLeavesTwo(w);
    EndsBack(w, "e", 0);
    EndsBack(w, "ll", 0);
    EndsBack(w, "ll", 1);
    EndLeaves(w);
  }

  lemma ComesLL(x: string)
    ensures Comes(4, x + "ll")
  {
    var w := x + "ll";
    TwoConcat(x, "ll");
    FirstLeaves(w);
    SecondLeaves(w);
    ThirdLeaves(w);
    DeleteLeavesTwo(w);
    Comes4(w);
  }

  /** ous is deleted if there are two pairs before it. */
  lemma AfterOus(x: string)
    ensures Onward(2, x + "ous") == if Measure(x) > 1 then DropL(DropE(x)) else x + "ous"
  {
    var w := x + "ous";
    TwoConcat(x, "ous");
    ThirdLeaves(w);
    assert Step4Suffix(13) == "ous";
    DeleteApplies(x, 13);
    assert Onward(3, w) == Onward(4, Delete(w));
    EndIs(Delete(w));
    EndsBack(w, "e", 0);
    EndsBack(w, "ll", 0);
  }
}
