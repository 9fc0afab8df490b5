/**
 * What the stemmer does in step 2: one law for each rule and every word x
 * before the suffix, stated on the stem itself in literal suffixes. m is the
 * measure of x, its consonant y marked.
 */
module PorterLaws {
  import opened Bytes
  import opened BackwardTables
  import opened PorterSpec
  import opened PorterMeasure
  import opened PorterEndings
  import opened PorterStages
  import opened PorterMarks

  // ---------------------------------------------------------------- step 2

  /** Rule i of step 2, given that steps 1 and 2 have no part in the result. */
  lemma Rule2(x: string, i: int, s: string, r: string)
    requires 0 <= i < 20 && Step2Rule(i) == Rule(s, r) && Plain(s) && Plain(r)
    requires (i == 10 ==> !EndsWith(x, "a")) && (i == 13 ==> !EndsWith(x, "iz"))
    requires Pairs(x) > 0 && Comes(2, Mark(x) + r)
    ensures Stem(x + s) == Stem(x + r)
  {
    PlainHas(s);
    PlainHas(r);
    MarkEnds(x, "a");
    MarkEnds(x, "iz");
    ByRule2(Mark(x), i);
    SameStem(x, s, r);
  }

  lemma RuleET(x: string, i: int, s: string, r: string)
    requires 0 <= i < 20 && i != 10 && (i == 13 ==> !EndsWith(x, "iz")) && Step2Rule(i) == Rule(s, r)
    requires Pairs(x) > 0 && Plain(s) && Plain(r) && r != "" && Back(r, 0) in "et"
    ensures Stem(x + s) == Stem(x + r)
  {
    ComesET(Mark(x), r);
    Rule2(x, i, s, r);
  }

  lemma RuleAl(x: string, i: int, s: string)
    requires 0 <= i < 20 && i != 10 && i != 13 && Step2Rule(i) == Rule(s, "al") && Plain(s)
    requires Pairs(x) > 0 && !EndsWith(x, "tion")
    ensures Stem(x + s) == Stem(x + "al")
  {
    assert Plain("al");
    MarkEnds(x, "tion");
    ComesAl(Mark(x));
    Rule2(x, i, s, "al");
  }

  lemma RuleFul(x: string, i: int, s: string)
    requires 0 <= i < 20 && i != 10 && i != 13 && Step2Rule(i) == Rule(s, "ful") && Plain(s) && Pairs(x) > 0
    ensures Stem(x + s) == Stem(x + "ful")
  {
    assert Plain("ful");
    ComesFul(Mark(x));
    Rule2(x, i, s, "ful");
  }

  lemma RuleTion(x: string, s: string)
    requires Step2Rule(10) == Rule(s, "tion") && Plain(s) && Pairs(x) > 0 && !EndsWith(x, "a")
    ensures Stem(x + s) == Stem(x + "tion")
  {
    assert Plain("tion");
    MarkEnds(x, "a");
    ComesTion(Mark(x));
    Rule2(x, 10, s, "tion");
  }

  /** ous is then deleted if there are two pairs. */
  lemma RuleOus(x: string, i: int, s: string)
    requires 0 <= i < 20 && i != 10 && i != 13 && Step2Rule(i) == Rule(s, "ous") && Plain(s)
    ensures Pairs(x) > 1 ==> Stem(x + s) == Ended(x)
    ensures Pairs(x) == 1 ==> Stem(x + s) == Kept(x) + "ous"
  {
    assert 'Y' !in "ous";
    PlainHas(s);
    AfterOus(Mark(x));
    if Pairs(x) > 0 {
      ByRule2(Mark(x), i);
      if Pairs(x) > 1 { StemIs(x, s); } else { OwnStem(x, s, "ous"); }
    }
  }

  /** Without a pair the suffix stays; no later rule has such an ending. */
  lemma Stays2(x: string, i: int, s: string, r: string)
    requires 0 <= i < 20 && i != 10 && i != 13 && Step2Rule(i) == Rule(s, r) && Plain(s)
    requires Step2Group(i) == "ci" || Step2Group(i) == "li" || Step2Group(i) == "or"
    ensures Pairs(x) == 0 ==> Stem(x + s) == Kept(x) + s
  {
    PlainHas(s);
    if Pairs(x) == 0 {
      Step2Ends(i);
      TwoConcat(Mark(x), s);
      NoLater2(Mark(x) + s);
      ByRule2(Mark(x), i);
      OwnStem(x, s, s);
    }
  }

  lemma Anci(x: string)
    ensures Pairs(x) > 0 ==> Stem(x + "anci") == Stem(x + "ance")
    ensures Pairs(x) == 0 ==> Stem(x + "anci") == Kept(x) + "anci"
  {
    if Pairs(x) > 0 { RuleET(x, 0, "anci", "ance"); }
    Stays2(x, 0, "anci", "ance");
  }

  lemma Enci(x: string)
    ensures Pairs(x) > 0 ==> Stem(x + "enci") == Stem(x + "ence")
    ensures Pairs(x) == 0 ==> Stem(x + "enci") == Kept(x) + "enci"
  {
    if Pairs(x) > 0 { RuleET(x, 1, "enci", "ence"); }
    Stays2(x, 1, "enci", "ence");
  }

  lemma Abli(x: string)
    ensures Pairs(x) > 0 ==> Stem(x + "abli") == Stem(x + "able")
    ensures Pairs(x) == 0 ==> Stem(x + "abli") == Kept(x) + "abli"
  {
    if Pairs(x) > 0 { RuleET(x, 2, "abli", "able"); }
    Stays2(x, 2, "abli", "able");
  }

  lemma Eli(x: string)
    ensures Pairs(x) > 0 ==> Stem(x + "eli") == Stem(x + "e")
    ensures Pairs(x) == 0 ==> Stem(x + "eli") == Kept(x) + "eli"
  {
    if Pairs(x) > 0 { RuleET(x, 3, "eli", "e"); }
    Stays2(x, 3, "eli", "e");
  }

  lemma Alli(x: string)
    ensures Pairs(x) > 0 && !EndsWith(x, "tion") ==> Stem(x + "alli") == Stem(x + "al")
    ensures Pairs(x) == 0 ==> Stem(x + "alli") == Kept(x) + "alli"
  {
    if Pairs(x) > 0 && !EndsWith(x, "tion") { RuleAl(x, 4, "alli"); }
    Stays2(x, 4, "alli", "al");
  }

  lemma Ousli(x: string)
    ensures Pairs(x) > 1 ==> Stem(x + "ousli") == Ended(x)
    ensures Pairs(x) == 1 ==> Stem(x + "ousli") == Kept(x) + "ous"
    ensures Pairs(x) == 0 ==> Stem(x + "ousli") == Kept(x) + "ousli"
  {
    RuleOus(x, 5, "ousli");
    Stays2(x, 5, "ousli", "ous");
  }

  lemma Entli(x: string)
    ensures Pairs(x) > 0 ==> Stem(x + "entli") == Stem(x + "ent")
    ensures Pairs(x) == 0 ==> Stem(x + "entli") == Kept(x) + "entli"
  {
    if Pairs(x) > 0 { RuleET(x, 6, "entli", "ent"); }
    Stays2(x, 6, "entli", "ent");
  }

  lemma Aliti(x: string)
    ensures Pairs(x) > 0 && !EndsWith(x, "tion") ==> Stem(x + "aliti") == Stem(x + "al")
  {
    if Pairs(x) > 0 && !EndsWith(x, "tion") { RuleAl(x, 7, "aliti"); }
  }

  lemma Biliti(x: string)
    ensures Pairs(x) > 0 ==> Stem(x + "biliti") == Stem(x + "ble")
  {
    if Pairs(x) > 0 { RuleET(x, 8, "biliti", "ble"); }
  }

  lemma Iviti(x: string)
    ensures Pairs(x) > 0 ==> Stem(x + "iviti") == Stem(x + "ive")
  {
    if Pairs(x) > 0 { RuleET(x, 9, "iviti", "ive"); }
  }

  lemma Tional(x: string)
    requires Pairs(x) > 0 && !EndsWith(x, "a")
    ensures Stem(x + "tional") == Stem(x + "tion")
  {
    RuleTion(x, "tional");
  }

  lemma Ational(x: string)
    ensures Pairs(x) > 0 ==> Stem(x + "ational") == Stem(x + "ate")
  {
    if Pairs(x) > 0 { RuleET(x, 11, "ational", "ate"); }
  }

  lemma Alism(x: string)
    ensures Pairs(x) > 0 && !EndsWith(x, "tion") ==> Stem(x + "alism") == Stem(x + "al")
  {
    if Pairs(x) > 0 && !EndsWith(x, "tion") { RuleAl(x, 12, "alism"); }
  }

  lemma Ation(x: string)
    ensures Pairs(x) > 0 && !EndsWith(x, "iz") ==> Stem(x + "ation") == Stem(x + "ate")
  {
    if Pairs(x) > 0 && !EndsWith(x, "iz") { RuleET(x, 13, "ation", "ate"); }
  }

  lemma Ization(x: string)
    ensures Pairs(x) > 0 ==> Stem(x + "ization") == Stem(x + "ize")
  {
    if Pairs(x) > 0 { RuleET(x, 14, "ization", "ize"); }
  }

  lemma Izer(x: string)
    ensures Pairs(x) > 0 ==> Stem(x + "izer") == Stem(x + "ize")
  {
    if Pairs(x) > 0 { RuleET(x, 15, "izer", "ize"); }
  }

  lemma Ator(x: string)
    ensures Pairs(x) > 0 ==> Stem(x + "ator") == Stem(x + "ate")
    ensures Pairs(x) == 0 ==> Stem(x + "ator") == Kept(x) + "ator"
  {
    if Pairs(x) > 0 { RuleET(x, 16, "ator", "ate"); }
    Stays2(x, 16, "ator", "ate");
  }

  lemma Iveness(x: string)
    ensures Pairs(x) > 0 ==> Stem(x + "iveness") == Stem(x + "ive")
  {
    if Pairs(x) > 0 { RuleET(x, 17, "iveness", "ive"); }
  }

  lemma Fulness(x: string)
    requires Pairs(x) > 0
    ensures Stem(x + "fulness") == Stem(x + "ful")
  {
    RuleFul(x, 18, "fulness");
  }

  lemma Ousness(x: string)
    ensures Pairs(x) > 1 ==> Stem(x + "ousness") == Ended(x)
    ensures Pairs(x) == 1 ==> Stem(x + "ousness") == Kept(x) + "ous"
  {
    RuleOus(x, 19, "ousness");
  }
}
