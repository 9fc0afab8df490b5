/** What the stemmer does in steps 3, 4 and 5: one law for each rule and every word x before the suffix, as for step 2. */
module PorterLawsLate {
  import opened Bytes
  import opened BackwardTables
  import opened PorterSpec
  import opened PorterMeasure
  import opened PorterEndings
  import opened PorterStages
  import opened PorterMarks

  // ---------------------------------------------------------------- the suffixes of steps 3 and 4

  /** The seven suffixes of step 4 that end with e, without it. */
  function Step4E(i: int): (t: string) {
    if i == 1 then "anc" else if i == 2 then "enc" else if i == 3 then "abl" else if i == 4 then "ibl" else
    if i == 5 then "at" else if i == 6 then "iv" else "iz"
  }

  lemma Step4Es(i: int)
    requires 1 <= i < 8
    ensures Step4Suffix(i) == Step4E(i) + "e"
  {
  }

  /** A vowel and then one or two consonants. */
  predicate OnePair(t: string) {
    2 <= |t| <= 3 && Vowel(t[0]) && !Vowel(t[1]) && (|t| == 3 ==> !Vowel(t[2]))
  }

  lemma Step4EShape(i: int)
    requires 1 <= i < 8
    ensures Plain(Step4E(i)) && OnePair(Step4E(i)) && Back(Step4E(i), 1) != 'l'
    ensures |Step4E(i)| == (if i < 5 then 3 else 2) && (5 <= i ==> Step4E(i)[1] !in "wxY")
  {
  }

  lemma Step4Plain1(i: int)
    requires 0 <= i < 10
    ensures Plain(Step4Suffix(i))
  {
  }

  lemma Step4Plain2(i: int)
    requires 10 <= i < 19
    ensures Plain(Step4Suffix(i))
  {
  }

  lemma Step4Plain(i: int)
    requires 0 <= i < 19
    ensures Plain(Step4Suffix(i))
  {
    if i < 10 { Step4Plain1(i); } else { Step4Plain2(i); }
  }

  lemma Step3Plain(i: int)
    requires 0 <= i < 7
    ensures Plain(Step3Rule(i).suffix) && Plain(Step3Rule(i).replacement)
  {
  }

  /** Five suffixes of step 3 are one pair and a suffix of step 4. */
  function Step3Head(i: int): (u: string) {
    if i == 1 then "at" else if i == 2 then "al" else "ic"
  }

  lemma Step3Heads(i: int)
    requires 0 <= i < 5
    ensures Step3Rule(i).suffix == Step3Head(i) + Step4Suffix(5 + i)
    ensures Plain(Step3Head(i)) && OnePair(Step3Head(i))
  {
  }

  // ---------------------------------------------------------------- step 4

  /** Suffix i of step 4, given that the steps before have no part in the word. */
  lemma Rule4(x: string, i: int)
    requires 0 <= i < 19 && (i == 15 ==> !EndsWith(x, "m")) && (i == 16 ==> !EndsWith(x, "e"))
    requires Comes(3, Mark(x) + Step4Suffix(i))
    ensures Stem(x + Step4Suffix(i)) ==
      Ended(if Pairs(x) > 1 && (i == 11 ==> EndsWith(x, "s") || EndsWith(x, "t")) then x else x + Step4Suffix(i))
  {
    var s := Step4Suffix(i);
    Step4Plain(i);
    PlainHas(s);
    MarkEnds(x, "m");
    MarkEnds(x, "e");
    MarkEnds(x, "s");
    MarkEnds(x, "t");
    ByRule4(Mark(x), i);
    StemIs(x, s);
    EndIs(Mark(x));
    EndIs(Mark(x) + s);
    KeptConcat(x, s);
    SameMark(x, s);
  }

  /** The suffixes that end with neither e nor ll. */
  lemma EndedSuffix(x: string, i: int)
    requires 0 <= i < 19 && (i == 0 || i >= 8)
    ensures Ended(x + Step4Suffix(i)) == Kept(x) + Step4Suffix(i)
  {
    var s := Step4Suffix(i);
    Step4Ends(i);
    Step4Plain(i);
    BackConcat(x, s, 0);
    BackConcat(x, s, 1);
    EndsBack(x + s, "e", 0);
    EndsBack(x + s, "ll", 0);
    EndsBack(x + s, "ll", 1);
    assert Back(s, 0) == Step4Group(i)[1] && Back(s, 1) == Step4Group(i)[0];
    EndedPlain(x + s);
    KeptConcat(x, s);
  }

  lemma Rule4Stays(x: string, i: int)
    requires (i == 0 || 8 <= i < 19) && (i == 15 ==> !EndsWith(x, "m")) && (i == 16 ==> !EndsWith(x, "e"))
    requires Comes(3, Mark(x) + Step4Suffix(i))
    ensures Stem(x + Step4Suffix(i)) ==
      if Pairs(x) > 1 && (i == 11 ==> EndsWith(x, "s") || EndsWith(x, "t")) then Ended(x) else Kept(x) + Step4Suffix(i)
  {
    Rule4(x, i);
    EndedSuffix(x, i);
  }

  lemma Rule4Easy(x: string, i: int)
    requires (i == 0 || 14 <= i < 19) && (i == 15 ==> !EndsWith(x, "m")) && (i == 16 ==> !EndsWith(x, "e"))
    ensures Stem(x + Step4Suffix(i)) == if Pairs(x) > 1 then Ended(x) else Kept(x) + Step4Suffix(i)
  {
    Step4Ends(i);
    ComesEasy(Mark(x), Step4Suffix(i));
    Rule4Stays(x, i);
  }

  /** One pair more, whatever comes before. */
  lemma PairMore(w: string, t: string)
    requires OnePair(t)
    ensures Measure(w + t) == Measure(w) + 1
  {
    var a, b := w + t[..1], w + t[..2];
    assert a[..|a| - 1] == w && b[..|b| - 1] == a;
    if |t| == 3 {
      assert (w + t)[..|w| + 2] == b;
    } else {
      assert w + t == b;
    }
  }

  /** The word ends with a consonant. */
  predicate ConsonantLast(x: string) {
    x != "" && Mark(x)[|x| - 1] !in "aeiouy"
  }

  lemma CvcAt(w: string, t: string)
    requires OnePair(t) && (|t| == 2 ==> t[1] !in "wxY")
    ensures Cvc(w + t) <==> |t| == 2 && w != "" && w[|w| - 1] !in "aeiouy"
  {
    var v := w + t;
    assert |t| == 2 ==> v[|v| - 2] == t[0] && v[|v| - 1] == t[1];
    assert |t| == 3 ==> v[|v| - 2] == t[1];
  }

  /** A suffix that ends with e and stays loses the e, unless that leaves a short syllable in a word with no pair before. */
  lemma EndedSuffixE(x: string, i: int)
    requires 1 <= i < 8 && Pairs(x) <= 1
    ensures Ended(x + Step4Suffix(i)) ==
      Kept(x) + if Pairs(x) == 0 && 5 <= i && ConsonantLast(x) then Step4Suffix(i) else Step4E(i)
  {
    var t := Step4E(i);
    Step4Es(i);
    Step4EShape(i);
    Joined(x, t, "e");
    Joined(Kept(x), t, "e");
    KeptConcat(x, t);
    PairMore(Mark(x), t);
    CvcAt(Mark(x), t);
    BackConcat(x, t, 1);
    EndsBack(x + t, "ll", 1);
    EndedE(x + t);
  }

  lemma Rule4E(x: string, i: int)
    requires 1 <= i < 8 && Comes(3, Mark(x) + Step4Suffix(i))
    ensures Stem(x + Step4Suffix(i)) ==
      if Pairs(x) > 1 then Ended(x)
      else Kept(x) + if Pairs(x) == 0 && 5 <= i && ConsonantLast(x) then Step4Suffix(i) else Step4E(i)
  {
    Rule4(x, i);
    if Pairs(x) <= 1 { EndedSuffixE(x, i); }
  }

  lemma Rule4EEasy(x: string, i: int)
    requires 1 <= i < 5
    ensures Stem(x + Step4Suffix(i)) == if Pairs(x) > 1 then Ended(x) else Kept(x) + Step4E(i)
  {
    Step4Ends(i);
    ComesEasy(Mark(x), Step4Suffix(i));
    Rule4E(x, i);
  }

  lemma Ic(x: string)
    ensures Stem(x + "ic") == if Pairs(x) > 1 then Ended(x) else Kept(x) + "ic"
  {
    assert Step4Suffix(0) == "ic";
    Rule4Easy(x, 0);
  }

  lemma Ant(x: string)
    ensures Stem(x + "ant") == if Pairs(x) > 1 then Ended(x) else Kept(x) + "ant"
  {
    assert Step4Suffix(14) == "ant";
    Rule4Easy(x, 14);
  }

  lemma Ent(x: string)
    requires !EndsWith(x, "m")
    ensures Stem(x + "ent") == if Pairs(x) > 1 then Ended(x) else Kept(x) + "ent"
  {
    assert Step4Suffix(15) == "ent";
    Rule4Easy(x, 15);
  }

  lemma Ment(x: string)
    requires !EndsWith(x, "e")
    ensures Stem(x + "ment") == if Pairs(x) > 1 then Ended(x) else Kept(x) + "ment"
  {
    assert Step4Suffix(16) == "ment";
    Rule4Easy(x, 16);
  }

  lemma Ement(x: string)
    ensures Stem(x + "ement") == if Pairs(x) > 1 then Ended(x) else Kept(x) + "ement"
  {
    assert Step4Suffix(17) == "ement";
    Rule4Easy(x, 17);
  }

  lemma Ou(x: string)
    ensures Stem(x + "ou") == if Pairs(x) > 1 then Ended(x) else Kept(x) + "ou"
  {
    assert Step4Suffix(18) == "ou";
    Rule4Easy(x, 18);
  }

  lemma Iti(x: string)
    requires !EndsWith(x, "al") && !EndsWith(x, "bil") && !EndsWith(x, "iv") && !EndsWith(x, "ic")
    ensures Stem(x + "iti") == if Pairs(x) > 1 then Ended(x) else Kept(x) + "iti"
  {
    assert Step4Suffix(8) == "iti";
    MarkEnds(x, "al");
    MarkEnds(x, "bil");
    MarkEnds(x, "iv");
    MarkEnds(x, "ic");
    ComesIti(Mark(x));
    Rule4Stays(x, 8);
  }

  lemma Al(x: string)
    requires !EndsWith(x, "tion") && !EndsWith(x, "ic")
    ensures Stem(x + "al") == if Pairs(x) > 1 then Ended(x) else Kept(x) + "al"
  {
    assert Step4Suffix(9) == "al";
    MarkEnds(x, "tion");
    MarkEnds(x, "ic");
    ComesAl3(Mark(x));
    Rule4Stays(x, 9);
  }

  lemma Ism(x: string)
    requires !EndsWith(x, "al")
    ensures Stem(x + "ism") == if Pairs(x) > 1 then Ended(x) else Kept(x) + "ism"
  {
    assert Step4Suffix(10) == "ism";
    MarkEnds(x, "al");
    ComesIsm(Mark(x));
    Rule4Stays(x, 10);
  }

  lemma Er(x: string)
    requires !EndsWith(x, "iz")
    ensures Stem(x + "er") == if Pairs(x) > 1 then Ended(x) else Kept(x) + "er"
  {
    assert Step4Suffix(12) == "er";
    MarkEnds(x, "iz");
    ComesEr(Mark(x));
    Rule4Stays(x, 12);
  }

  /** ion goes only after s or t. */
  lemma Ion(x: string)
    requires !EndsWith(x, "at")
    ensures Stem(x + "ion") ==
      if Pairs(x) > 1 && (EndsWith(x, "s") || EndsWith(x, "t")) then Ended(x) else Kept(x) + "ion"
  {
    assert Step4Suffix(11) == "ion";
    MarkEnds(x, "at");
    ComesIon(Mark(x));
    Rule4Stays(x, 11);
  }

  lemma Ance(x: string)
    ensures Stem(x + "ance") == if Pairs(x) > 1 then Ended(x) else Kept(x) + "anc"
  {
    Rule4EEasy(x, 1);
  }

  lemma Ence(x: string)
    ensures Stem(x + "ence") == if Pairs(x) > 1 then Ended(x) else Kept(x) + "enc"
  {
    Rule4EEasy(x, 2);
  }

  lemma Able(x: string)
    ensures Stem(x + "able") == if Pairs(x) > 1 then Ended(x) else Kept(x) + "abl"
  {
    Rule4EEasy(x, 3);
  }

  lemma Ible(x: string)
    ensures Stem(x + "ible") == if Pairs(x) > 1 then Ended(x) else Kept(x) + "ibl"
  {
    Rule4EEasy(x, 4);
  }

  lemma Ate(x: string)
    requires !EndsWith(x, "ic")
    ensures Stem(x + "ate") ==
      if Pairs(x) > 1 then Ended(x)
      else Kept(x) + if Pairs(x) == 0 && ConsonantLast(x) then "ate" else "at"
  {
    MarkEnds(x, "ic");
    ComesAte(Mark(x));
    Rule4E(x, 5);
  }

  lemma Ive(x: string)
    requires !EndsWith(x, "at")
    ensures Stem(x + "ive") ==
      if Pairs(x) > 1 then Ended(x)
      else Kept(x) + if Pairs(x) == 0 && ConsonantLast(x) then "ive" else "iv"
  {
    MarkEnds(x, "at");
    ComesIve(Mark(x));
    Rule4E(x, 6);
  }

  lemma Ize(x: string)
    requires !EndsWith(x, "al")
    ensures Stem(x + "ize") ==
      if Pairs(x) > 1 then Ended(x)
      else Kept(x) + if Pairs(x) == 0 && ConsonantLast(x) then "ize" else "iz"
  {
    MarkEnds(x, "al");
    ComesIze(Mark(x));
    Rule4E(x, 7);
  }

  // ---------------------------------------------------------------- step 3

  /** The word as steps 4 and 5 alone leave it. */
  function Late(x: string): (r: string) {
    var r := Onward(3, Mark(x));
    if Mark(x) == x then r else Unmark(r)
  }

  /** Steps 1, 2 and 3 leave x alone. */
  ghost predicate LeftAlone(x: string) {
    First(Mark(x)) == Mark(x) && Second(Mark(x)) == Mark(x) && Third(Mark(x)) == Mark(x)
  }

  lemma LateIs(x: string)
    requires LeftAlone(x)
    ensures Stem(x) == Late(x)
  {
    Comes3(Mark(x));
    StemOf(x);
  }

  /** Rule i of step 3 with a replacement that no step before 4 changes. */
  lemma Rule3(x: string, i: int)
    requires 0 <= i < 7 && Pairs(x) > 0 && Comes(2, Mark(x) + Step3Rule(i).suffix) && Comes(3, Mark(x) + Step3Rule(i).replacement)
    ensures Stem(x + Step3Rule(i).suffix) == Stem(x + Step3Rule(i).replacement)
  {
    Step3Plain(i);
    PlainHas(Step3Rule(i).suffix);
    PlainHas(Step3Rule(i).replacement);
    ByRule3(Mark(x), i);
    SameStem(x, Step3Rule(i).suffix, Step3Rule(i).replacement);
  }

  lemma Rule3Ic(x: string, i: int)
    requires (i == 0 || i == 3 || i == 4) && Pairs(x) > 0 && Comes(2, Mark(x) + Step3Rule(i).suffix)
    ensures Stem(x + Step3Rule(i).suffix) == Stem(x + "ic")
  {
    ComesEasy(Mark(x), "ic");
    assert Step3Rule(i).replacement == "ic";
    Rule3(x, i);
  }

  lemma Rule3None(x: string, i: int)
    requires (i == 1 || i == 5 || i == 6) && Pairs(x) > 0 && Comes(2, Mark(x) + Step3Rule(i).suffix)
    ensures Stem(x + Step3Rule(i).suffix) == Late(x)
  {
    Step3Plain(i);
    PlainHas(Step3Rule(i).suffix);
    ByRule3(Mark(x), i);
    assert Mark(x) + Step3Rule(i).replacement == Mark(x);
    StemIs(x, Step3Rule(i).suffix);
  }

  /** Without a pair the suffix stays, and so does the shorter one of step 4 within it. */
  lemma Stays3(x: string, i: int)
    requires 0 <= i < 5 && Pairs(x) == 0 && Comes(2, Mark(x) + Step3Rule(i).suffix)
    ensures Stem(x + Step3Rule(i).suffix) == Kept(x) + if i < 3 then Step3Head(i) + Step4E(5 + i) else Step3Rule(i).suffix
  {
    var u, v := Step3Head(i), Step4Suffix(5 + i);
    Step3Heads(i);
    Joined(Mark(x), u, v);
    Joined(x, u, v);
    Joined(Kept(x), u, if i < 3 then Step4E(5 + i) else v);
    ByRule3(Mark(x), i);
    KeptConcat(x, u);
    PairMore(Mark(x), u);
    if i < 3 { Rule4E(x + u, 5 + i); } else { Rule4Stays(x + u, 5 + i); }
  }

  lemma Stays3Plain(x: string, i: int)
    requires (i == 5 || i == 6) && Pairs(x) == 0 && Comes(2, Mark(x) + Step3Rule(i).suffix)
    ensures Stem(x + Step3Rule(i).suffix) == Kept(x) + Step3Rule(i).suffix
  {
    var s := Step3Rule(i).suffix;
    Step3Plain(i);
    PlainHas(s);
    Step3Ends(i);
    TwoConcat(Mark(x), s);
    NoLater3(Mark(x) + s);
    ByRule3(Mark(x), i);
    OwnStem(x, s, s);
  }

  lemma Icate(x: string)
    ensures Stem(x + "icate") == if Pairs(x) > 0 then Stem(x + "ic") else Kept(x) + "icat"
  {
    assert Step3Head(0) + Step4E(5) == "icat";
    ComesET(Mark(x), "icate");
    if Pairs(x) > 0 { Rule3Ic(x, 0); } else { Stays3(x, 0); }
  }

  lemma Ative(x: string)
    ensures Stem(x + "ative") == if Pairs(x) > 0 then Late(x) else Kept(x) + "ativ"
  {
    assert Step3Head(1) + Step4E(6) == "ativ";
    ComesET(Mark(x), "ative");
    if Pairs(x) > 0 { Rule3None(x, 1); } else { Stays3(x, 1); }
  }

  lemma RuleAlize(x: string)
    requires Pairs(x) > 0 && !EndsWith(x, "tion") && !EndsWith(x, "ic")
    ensures Stem(x + Step3Rule(2).suffix) == Stem(x + "al")
  {
    assert Step3Rule(2) == Rule("alize", "al");
    MarkEnds(x, "tion");
    MarkEnds(x, "ic");
    ComesET(Mark(x), "alize");
    ComesAl3(Mark(x));
    Rule3(x, 2);
  }

  lemma Alize(x: string)
    ensures Pairs(x) > 0 && !EndsWith(x, "tion") && !EndsWith(x, "ic") ==> Stem(x + "alize") == Stem(x + "al")
    ensures Pairs(x) == 0 ==> Stem(x + "alize") == Kept(x) + "aliz"
  {
    assert Step3Rule(2) == Rule("alize", "al");
    if Pairs(x) == 0 {
      assert Step3Head(2) + Step4E(7) == "aliz";
      ComesET(Mark(x), "alize");
      Stays3(x, 2);
    } else if !EndsWith(x, "tion") && !EndsWith(x, "ic") {
      RuleAlize(x);
    }
  }

  lemma Iciti(x: string)
    ensures Stem(x + "iciti") == if Pairs(x) > 0 then Stem(x + "ic") else Kept(x) + "iciti"
  {
    ComesIciti(Mark(x));
    if Pairs(x) > 0 { Rule3Ic(x, 3); } else { Stays3(x, 3); }
  }

  lemma Ical(x: string)
    ensures Stem(x + "ical") == if Pairs(x) > 0 then Stem(x + "ic") else Kept(x) + "ical"
  {
    ComesIcal(Mark(x));
    if Pairs(x) > 0 { Rule3Ic(x, 4); } else { Stays3(x, 4); }
  }

  lemma Ful(x: string)
    ensures Stem(x + "ful") == if Pairs(x) > 0 then Late(x) else Kept(x) + "ful"
    ensures Pairs(x) > 0 && LeftAlone(x) ==> Stem(x + "ful") == Stem(x)
  {
    ComesFul(Mark(x));
    if Pairs(x) > 0 { Rule3None(x, 5); } else { Stays3Plain(x, 5); }
    if LeftAlone(x) { LateIs(x); }
  }

  lemma Ness(x: string)
    requires !EndsWith(x, "ive") && !EndsWith(x, "ful") && !EndsWith(x, "ous")
    ensures Stem(x + "ness") == if Pairs(x) > 0 then Late(x) else Kept(x) + "ness"
    ensures Pairs(x) > 0 && LeftAlone(x) ==> Stem(x + "ness") == Stem(x)
  {
    MarkEnds(x, "ive");
    MarkEnds(x, "ful");
    MarkEnds(x, "ous");
    ComesNess(Mark(x));
    if Pairs(x) > 0 { Rule3None(x, 6); } else { Stays3Plain(x, 6); }
    if LeftAlone(x) { LateIs(x); }
  }

  // ---------------------------------------------------------------- step 5

  /** No suffix of step 4 that ends with e is there without it. */
  predicate OnlyE(x: string) {
    !EndsWith(x, "anc") && !EndsWith(x, "enc") && !EndsWith(x, "abl") && !EndsWith(x, "ibl") &&
    !EndsWith(x, "at") && !EndsWith(x, "iv") && !EndsWith(x, "iz")
  }

  lemma NotLastE(i: int)
    requires i == 0 || 8 <= i < 19
    ensures |Step4Suffix(i)| >= 2 && Back(Step4Suffix(i), 0) != 'e'
  {
    Step4Ends(i);
    assert Back(Step4Suffix(i), 0) == Step4Group(i)[1];
  }

  lemma DeleteLeavesE(x: string)
    requires OnlyE(x)
    ensures Delete(x + "e") == x + "e"
  {
    var w := x + "e";
    BackConcat(x, "e", 0);
    forall i | 0 <= i < 19 ensures !EndsWith(w, Step4Suffix(i)) {
      if 1 <= i < 8 {
        Step4Es(i);
        EndsTail(x, Step4E(i), "e");
      } else {
        NotLastE(i);
        EndsBack(w, Step4Suffix(i), 0);
      }
    }
    NoneIsLongest(Step4Suffix, 19, w);
  }

  lemma LongerE(w: string)
    ensures EndsWith(w, "icate") ==> EndsWith(w, "ate")
    ensures EndsWith(w, "ative") ==> EndsWith(w, "ive")
    ensures EndsWith(w, "alize") ==> EndsWith(w, "ize")
  {
    assert EndsWith("icate", "ate") && EndsWith("ative", "ive") && EndsWith("alize", "ize");
    Shorter(w, "icate", "ate");
    Shorter(w, "ative", "ive");
    Shorter(w, "alize", "ize");
  }

  lemma ThirdLeavesE(x: string)
    requires OnlyE(x)
    ensures Third(x + "e") == x + "e"
  {
    var w := x + "e";
    EndsTail(x, "at", "e");
    EndsTail(x, "iv", "e");
    EndsTail(x, "iz", "e");
    assert "at" + "e" == "ate" && "iv" + "e" == "ive" && "iz" + "e" == "ize";
    LongerE(w);
    Step3Longer();
    forall i | 0 <= i < 7 && |w| >= 2 && Step3Group(i) == Two(w) ensures !EndsWith(w, Step3Rule(i).suffix) {
      assert Back(w, 0) == 'e';
      assert i < 3;
    }
    ThirdLeaves(w);
  }

  lemma ComesE(x: string)
    requires OnlyE(x)
    ensures Comes(4, x + "e")
  {
    ComesET(x, "e");
    ThirdLeavesE(x);
    DeleteLeavesE(x);
  }

  lemma E(x: string)
    requires OnlyE(x)
    ensures Stem(x + "e") ==
      if Pairs(x) > 1 then (if EndsWith(x, "ll") then Cut(Kept(x), 1) else Kept(x))
      else if Pairs(x) == 1 && !Cvc(Mark(x)) then Kept(x)
      else Kept(x) + "e"
  {
    OnlyEMark(x);
    ComesE(Mark(x));
    ComesLast(x, "e");
    EndedE(x);
  }

  lemma OnlyEMark(x: string)
    requires OnlyE(x)
    ensures OnlyE(Mark(x))
  {
    MarkEnds(x, "anc");
    MarkEnds(x, "enc");
    MarkEnds(x, "abl");
    MarkEnds(x, "ibl");
    MarkEnds(x, "at");
    MarkEnds(x, "iv");
    MarkEnds(x, "iz");
  }

  lemma ComesLast(x: string, s: string)
    requires Plain(s) && Comes(4, Mark(x) + s)
    ensures Stem(x + s) == Ended(x + s)
  {
    PlainHas(s);
    StemIs(x, s);
    EndIs(Mark(x) + s);
    KeptConcat(x, s);
    SameMark(x, s);
  }

  lemma LL(x: string)
    ensures Stem(x + "ll") == if Measure(Mark(x) + "l") > 1 then Kept(x) + "l" else Kept(x) + "ll"
  {
    ComesLL(Mark(x));
    ComesLast(x, "ll");
    EndedLL(x);
  }
}
