/** What the last symbols of a word decide: which rule of a step applies, and when a step leaves the word alone. */
module PorterEndings {
  import opened Bytes
  import opened AmongTables
  import opened BackwardTables
  import opened PorterTables
  import opened PorterSpec
  import opened PorterMeasure

  // ---------------------------------------------------------------- suffixes

  /** The symbol so far from the end. */
  function Back(w: string, i: nat): (c: char)
    requires i < |w|
  {
    w[|w| - 1 - i]
  }

  function Two(w: string): (s: string)
    requires |w| >= 2
  {
    [Back(w, 1), Back(w, 0)]
  }

  lemma BackConcat(x: string, s: string, i: nat)
    requires i < |s|
    ensures Back(x + s, i) == Back(s, i)
  {
  }

  lemma TwoConcat(x: string, s: string)
    requires |s| >= 2
    ensures Two(x + s) == Two(s)
  {
  }

  lemma EndsBack(w: string, t: string, i: nat)
    requires i < |t|
    ensures EndsWith(w, t) ==> i < |w| && Back(w, i) == Back(t, i)
  {
    if EndsWith(w, t) {
      assert w[|w| - |t|..][|t| - 1 - i] == t[|t| - 1 - i];
    }
  }

  lemma EndsTwo(w: string, t: string)
    requires |t| >= 2
    ensures EndsWith(w, t) ==> |w| >= 2 && Two(w) == Two(t)
  {
    EndsBack(w, t, 0);
    EndsBack(w, t, 1);
  }

  lemma EndsConcat(x: string, s: string)
    ensures EndsWith(x + s, s) && Cut(x + s, |s|) == x
  {
  }

  /** A longer suffix reaches into what stands before. */
  lemma EndsTail(x: string, t: string, s: string)
    ensures EndsWith(x + s, t + s) <==> EndsWith(x, t)
  {
    if |t| <= |x| {
      assert (x + s)[|x + s| - |t + s|..] == x[|x| - |t|..] + s;
      if x[|x| - |t|..] + s == t + s {
        assert x[|x| - |t|..] == (x[|x| - |t|..] + s)[..|t|] && t == (t + s)[..|t|];
      }
    }
  }

  /** Of two suffixes of one word the shorter is a suffix of the longer. */
  lemma EndsNested(w: string, s: string, t: string)
    requires EndsWith(w, s) && EndsWith(w, t) && |s| <= |t|
    ensures EndsWith(t, s)
  {
    assert t[|t| - |s|..] == w[|w| - |t|..][|t| - |s|..] == w[|w| - |s|..];
  }

  // ---------------------------------------------------------------- the longest of a table

  /** In a table in order, an entry without link has no other entry as its suffix. */
  lemma NoLinkNoSuffix(e: int -> Among, n: nat, i: nat, j: nat)
    requires TableOk(e, n) && i < n && j < n && i != j && e(i).substringI < 0
    ensures !EndsWith(e(i).s, e(j).s)
  {
    TableOkSuffices(e, n);
    var v := Table(e, n);
    var keys := ReversedKeys(v);
    ReversePrefix(e(j).s, e(i).s);
    assert LinkOk(keys, i, Links(v)[i]);
    LessAsymmetric(keys[i], keys[i]);
    assert keys[i] != keys[j] by {
      if i < j { assert Less(keys[i], keys[j]); } else { assert Less(keys[j], keys[i]); }
    }
  }

  lemma {:induction false} NoneIsLongest(f: int -> string, n: nat, w: string)
    requires forall i :: 0 <= i < n ==> !EndsWith(w, f(i))
    ensures LongestSuffix(f, n, w) == -1
  {
    if n > 0 {
      NoneIsLongest(f, n - 1, w);
    }
  }

  /** The entry that w ends with is the longest, if no entry with a link is. */
  lemma LongestIs(e: int -> Among, f: int -> string, n: nat, w: string, b: nat)
    requires TableOk(e, n) && b < n && (forall i :: 0 <= i < n ==> f(i) == e(i).s) && EndsWith(w, f(b))
    requires forall i :: 0 <= i < n && i != b && e(i).substringI >= 0 ==> !EndsWith(w, f(i)) || |f(i)| < |f(b)|
    ensures LongestSuffix(f, n, w) == b
  {
    var a := LongestSuffix(f, n, w);
    LongestSuffixIsLongest(f, n, w, b);
    if a != b {
      EndsNested(w, f(b), f(a));
      NoLinkNoSuffix(e, n, a, b);
    }
  }

  // ---------------------------------------------------------------- step 1

  lemma Step1aEntries()
    ensures TableOk(Step1aEntry, 4) && forall i :: 0 <= i < 4 ==> RuleSuffixes(Step1aRule)(i) == Step1aEntry(i).s
  {
    Step1aTableOk();
    forall i | 0 <= i < 4 ensures RuleSuffixes(Step1aRule)(i) == Step1aEntry(i).s {
      assert Step1aRule(i).suffix == Step1aEntry(i).s;
    }
  }

  lemma Step1aLeaves(w: string)
    requires w == "" || Back(w, 0) != 's' || EndsWith(w, "ss")
    ensures Step1a(w) == w
  {
    var f := RuleSuffixes(Step1aRule);
    if w != "" && EndsWith(w, "ss") {
      Step1aEntries();
      assert f(3) == "ss";
      forall i | 1 <= i < 3 ensures !EndsWith(w, f(i)) {
        EndsBack(w, "ss", 1);
        EndsBack(w, f(i), 1);
      }
      LongestIs(Step1aEntry, f, 4, w, 3);
    } else {
      forall i | 0 <= i < 4 ensures !EndsWith(w, f(i)) {
        assert f(i) == Step1aRule(i).suffix;
        EndsBack(w, f(i), 0);
      }
      NoneIsLongest(f, 4, w);
    }
  }

  lemma PastLeaves(w: string)
    requires w == "" || Back(w, 0) !in "dg"
    ensures Past(w) == w
  {
    EndsBack(w, "ed", 0);
    EndsBack(w, "eed", 0);
    EndsBack(w, "ing", 0);
  }

  lemma Step1cLeaves(w: string)
    requires w == "" || Back(w, 0) !in "yY"
    ensures Step1c(w) == w
  {
    EndsBack(w, "y", 0);
    EndsBack(w, "Y", 0);
  }

  lemma FirstLeaves(w: string)
    requires w == "" || Back(w, 0) !in "sdgyY" || EndsWith(w, "ss")
    ensures First(w) == w
  {
    EndsBack(w, "ss", 0);
    Step1aLeaves(w);
    PastLeaves(w);
    Step1cLeaves(w);
  }

  // ---------------------------------------------------------------- step 2

  lemma Step2Entries()
    ensures TableOk(Step2Entry, 20) && forall i :: 0 <= i < 20 ==> RuleSuffixes(Step2Rule)(i) == Step2Entry(i).s
  {
    Step2TableOk();
    forall i | 0 <= i < 20 ensures RuleSuffixes(Step2Rule)(i) == Step2Entry(i).s {
      assert Step2Rule(i).suffix == Step2Entry(i).s;
    }
  }

  function Step2Group(i: int): (s: string) {
    if i < 2 then "ci" else if i < 7 then "li" else if i < 10 then "ti" else if i < 12 then "al" else
    if i < 13 then "sm" else if i < 15 then "on" else if i < 16 then "er" else if i < 17 then "or" else "ss"
  }

  predicate EndsLike(s: string, two: string) {
    |s| >= 2 && |two| == 2 && s[|s| - 2] == two[0] && s[|s| - 1] == two[1]
  }

  lemma Step2Ends1(i: int)
    requires 0 <= i < 10
    ensures EndsLike(Step2Rule(i).suffix, Step2Group(i))
  {
  }

  lemma Step2Ends2(i: int)
    requires 10 <= i < 20
    ensures EndsLike(Step2Rule(i).suffix, Step2Group(i))
  {
  }

  /** How the suffixes of step 2 end. */
  lemma Step2Ends(i: int)
    requires 0 <= i < 20
    ensures |Step2Rule(i).suffix| >= 2 && Two(Step2Rule(i).suffix) == Step2Group(i)
  {
    if i < 10 { Step2Ends1(i); } else { Step2Ends2(i); }
  }

  predicate Plain(s: string) {
    forall i :: 0 <= i < |s| ==> s[i] != 'y' && s[i] != 'Y'
  }

  lemma PlainHas(s: string)
    ensures Plain(s) ==> 'y' !in s && 'Y' !in s
  {
  }

  /** A word that ends otherwise is left alone. */
  lemma SecondLeaves(w: string)
    requires |w| >= 2 ==> Two(w) !in {"ci", "li", "ti", "al", "sm", "on", "er", "or", "ss"}
    ensures Second(w) == w
  {
    var f := RuleSuffixes(Step2Rule);
    forall i | 0 <= i < 20 ensures !EndsWith(w, f(i)) {
      Step2Ends(i);
      EndsTwo(w, f(i));
    }
    NoneIsLongest(f, 20, w);
  }

  lemma Step2Nested()
    ensures Step2Rule(10).suffix == "tional" && Step2Rule(11).suffix == "ational"
    ensures Step2Rule(13).suffix == "ation" && Step2Rule(14).suffix == "ization"
  {
  }

  lemma Shorter(w: string, t: string, s: string)
    requires EndsWith(t, s)
    ensures EndsWith(w, t) ==> EndsWith(w, s)
  {
    if EndsWith(w, t) {
      assert w[|w| - |s|..] == w[|w| - |t|..][|t| - |s|..];
    }
  }

  lemma NestedLiterals()
    ensures EndsWith("ational", "tional") && EndsWith("ization", "ation")
  {
  }

  /** Of words that end like tional or ation, those that do not end so are left alone. */
  lemma SecondLeavesAl(w: string)
    requires |w| >= 2 && Two(w) == "al" && !EndsWith(w, "tional")
    ensures Second(w) == w
  {
    var f := RuleSuffixes(Step2Rule);
    NestedLiterals();
    Shorter(w, "ational", "tional");
    forall i | 0 <= i < 20 ensures !EndsWith(w, f(i)) {
      NotInGroup(w, i);
      Step2Nested();
    }
    NoneIsLongest(f, 20, w);
  }

  lemma SecondLeavesOn(w: string)
    requires |w| >= 2 && Two(w) == "on" && !EndsWith(w, "ation")
    ensures Second(w) == w
  {
    var f := RuleSuffixes(Step2Rule);
    NestedLiterals();
    Shorter(w, "ization", "ation");
    forall i | 0 <= i < 20 ensures !EndsWith(w, f(i)) {
      NotInGroup(w, i);
      Step2Nested();
    }
    NoneIsLongest(f, 20, w);
  }

  lemma NotInGroup(w: string, i: int)
    requires 0 <= i < 20 && |w| >= 2
    ensures Two(w) != Step2Group(i) ==> !EndsWith(w, Step2Rule(i).suffix)
  {
    Step2Ends(i);
    EndsTwo(w, Step2Rule(i).suffix);
  }

  lemma Step2Iti()
    ensures Step2Rule(7).suffix == "aliti" && Step2Rule(8).suffix == "biliti" && Step2Rule(9).suffix == "iviti"
  {
  }

  lemma SecondLeavesTi(w: string)
    requires |w| >= 2 && Two(w) == "ti" && !EndsWith(w, "aliti") && !EndsWith(w, "biliti") && !EndsWith(w, "iviti")
    ensures Second(w) == w
  {
    var f := RuleSuffixes(Step2Rule);
    forall i | 0 <= i < 20 ensures !EndsWith(w, f(i)) {
      NotInGroup(w, i);
      Step2Iti();
    }
    NoneIsLongest(f, 20, w);
  }

  lemma Step2Ness()
    ensures Step2Rule(17).suffix == "iveness" && Step2Rule(18).suffix == "fulness" && Step2Rule(19).suffix == "ousness"
  {
  }

  lemma SecondLeavesSs(w: string)
    requires |w| >= 2 && Two(w) == "ss" && !EndsWith(w, "iveness") && !EndsWith(w, "fulness") && !EndsWith(w, "ousness")
    ensures Second(w) == w
  {
    var f := RuleSuffixes(Step2Rule);
    forall i | 0 <= i < 20 ensures !EndsWith(w, f(i)) {
      NotInGroup(w, i);
      Step2Ness();
    }
    NoneIsLongest(f, 20, w);
  }

  lemma Step2Single()
    ensures Step2Rule(12).suffix == "alism" && Step2Rule(15).suffix == "izer"
  {
  }

  lemma SecondLeavesSmEr(w: string)
    requires |w| >= 2 && ((Two(w) == "sm" && !EndsWith(w, "alism")) || (Two(w) == "er" && !EndsWith(w, "izer")))
    ensures Second(w) == w
  {
    var f := RuleSuffixes(Step2Rule);
    forall i | 0 <= i < 20 ensures !EndsWith(w, f(i)) {
      NotInGroup(w, i);
      Step2Single();
    }
    NoneIsLongest(f, 20, w);
  }

  lemma TionEnds(x: string)
    ensures EndsWith(x + "tion", "ation") <==> EndsWith(x, "a")
  {
    EndsTail(x, "a", "tion");
    assert "a" + "tion" == "ation";
  }

  lemma AlEnds(x: string)
    ensures EndsWith(x + "al", "tional") <==> EndsWith(x, "tion")
  {
    EndsTail(x, "tion", "al");
    assert "tion" + "al" == "tional";
  }

  lemma TionalLonger(x: string, i: int)
    requires 0 <= i < 20 && (i == 10 ==> !EndsWith(x, "a")) && (i == 13 ==> !EndsWith(x, "iz"))
    ensures i == 10 ==> !EndsWith(x + Step2Rule(i).suffix, Step2Rule(11).suffix)
    ensures i == 13 ==> !EndsWith(x + Step2Rule(i).suffix, Step2Rule(14).suffix)
  {
    if i == 10 {
      EndsTail(x, "a", "tional");
      assert "a" + "tional" == "ational";
    } else if i == 13 {
      EndsTail(x, "iz", "ation");
      assert "iz" + "ation" == "ization";
    }
  }

  /** Rule i applies to x with its suffix, if there is no longer one. */
  lemma SecondApplies(x: string, i: int)
    requires 0 <= i < 20 && (i == 10 ==> !EndsWith(x, "a")) && (i == 13 ==> !EndsWith(x, "iz"))
    ensures Second(x + Step2Rule(i).suffix) ==
      if Measure(x) > 0 then x + Step2Rule(i).replacement else x + Step2Rule(i).suffix
  {
    var w := x + Step2Rule(i).suffix;
    EndsConcat(x, Step2Rule(i).suffix);
    TionalLonger(x, i);
    LinkedTwo(w, i);
    Step2Entries();
    LongestIs(Step2Entry, RuleSuffixes(Step2Rule), 20, w, i);
  }

  /** Only ational and ization have a shorter entry as their suffix. */
  lemma LinkedTwo(w: string, i: int)
    requires 0 <= i < 20 && EndsWith(w, Step2Rule(i).suffix)
    requires i == 10 ==> !EndsWith(w, Step2Rule(11).suffix)
    requires i == 13 ==> !EndsWith(w, Step2Rule(14).suffix)
    ensures forall j :: 0 <= j < 20 && j != i && Step2Entry(j).substringI >= 0 ==> !EndsWith(w, Step2Rule(j).suffix) || |Step2Rule(j).suffix| < |Step2Rule(i).suffix|
  {
    forall j | 0 <= j < 20 && j != i && Step2Entry(j).substringI >= 0
      ensures !EndsWith(w, Step2Rule(j).suffix) || |Step2Rule(j).suffix| < |Step2Rule(i).suffix|
    {
      Step2Ends(i);
      Step2Ends(j);
      EndsTwo(w, Step2Rule(i).suffix);
      if EndsWith(w, Step2Rule(j).suffix) {
        EndsTwo(w, Step2Rule(j).suffix);
      }
    }
  }

  // ---------------------------------------------------------------- step 3

  lemma Step3Entries()
    ensures TableOk(Step3Entry, 7) && forall i :: 0 <= i < 7 ==> RuleSuffixes(Step3Rule)(i) == Step3Entry(i).s
  {
    Step3TableOk();
    forall i | 0 <= i < 7 ensures RuleSuffixes(Step3Rule)(i) == Step3Entry(i).s {
      assert Step3Rule(i).suffix == Step3Entry(i).s;
    }
  }

  function Step3Group(i: int): (s: string) {
    if i < 1 then "te" else if i < 2 then "ve" else if i < 3 then "ze" else
    if i < 4 then "ti" else if i < 5 then "al" else if i < 6 then "ul" else "ss"
  }

  lemma Step3EndsLike(i: int)
    requires 0 <= i < 7
    ensures EndsLike(Step3Rule(i).suffix, Step3Group(i))
  {
  }

  /** How the suffixes of step 3 end. */
  lemma Step3Ends(i: int)
    requires 0 <= i < 7
    ensures |Step3Rule(i).suffix| >= 2 && Two(Step3Rule(i).suffix) == Step3Group(i)
  {
    Step3EndsLike(i);
  }

  /** A word is left alone if it does not end with the suffix that its last two symbols belong to. */
  lemma ThirdLeaves(w: string)
    requires |w| >= 2 ==> forall i :: 0 <= i < 7 && Step3Group(i) == Two(w) ==> !EndsWith(w, Step3Rule(i).suffix)
    ensures Third(w) == w
  {
    var f := RuleSuffixes(Step3Rule);
    forall i | 0 <= i < 7 ensures !EndsWith(w, f(i)) {
      Step3Ends(i);
      EndsTwo(w, f(i));
    }
    NoneIsLongest(f, 7, w);
  }

  lemma ThirdApplies(x: string, i: int)
    requires 0 <= i < 7
    ensures Third(x + Step3Rule(i).suffix) ==
      if Measure(x) > 0 then x + Step3Rule(i).replacement else x + Step3Rule(i).suffix
  {
    var f, s := RuleSuffixes(Step3Rule), Step3Rule(i).suffix;
    EndsConcat(x, s);
    Step3Entries();
    LongestIs(Step3Entry, f, 7, x + s, i);
  }

  // ---------------------------------------------------------------- step 4

  lemma Step4Entries()
    ensures TableOk(Step4Entry, 19) && forall i :: 0 <= i < 19 ==> Step4Suffix(i) == Step4Entry(i).s
  {
    Step4TableOk();
  }

  function Step4Group(i: int): (s: string) {
    if i < 1 then "ic" else if i < 3 then "ce" else if i < 5 then "le" else if i < 6 then "te" else
    if i < 7 then "ve" else if i < 8 then "ze" else if i < 9 then "ti" else if i < 10 then "al" else
    if i < 11 then "sm" else if i < 12 then "on" else if i < 13 then "er" else if i < 14 then "us" else
    if i < 18 then "nt" else "ou"
  }

  lemma Step4Ends1(i: int)
    requires 0 <= i < 10
    ensures EndsLike(Step4Suffix(i), Step4Group(i))
  {
  }

  lemma Step4Ends2(i: int)
    requires 10 <= i < 19
    ensures EndsLike(Step4Suffix(i), Step4Group(i))
  {
  }

  /** How the suffixes of step 4 end. */
  lemma Step4Ends(i: int)
    requires 0 <= i < 19
    ensures |Step4Suffix(i)| >= 2 && Two(Step4Suffix(i)) == Step4Group(i)
  {
    if i < 10 { Step4Ends1(i); } else { Step4Ends2(i); }
  }

  lemma DeleteLeaves(w: string)
    requires |w| >= 2 ==> forall i :: 0 <= i < 19 && Step4Group(i) == Two(w) ==> !EndsWith(w, Step4Suffix(i))
    ensures Delete(w) == w
  {
    forall i | 0 <= i < 19 ensures !EndsWith(w, Step4Suffix(i)) {
      Step4Ends(i);
      EndsTwo(w, Step4Suffix(i));
    }
    NoneIsLongest(Step4Suffix, 19, w);
  }

  /** Only ment and ement have a shorter entry as their suffix. */
  lemma LinkedFour(w: string, i: int)
    requires 0 <= i < 19 && EndsWith(w, Step4Suffix(i))
    requires i == 15 ==> !EndsWith(w, Step4Suffix(16))
    requires i == 15 || i == 16 ==> !EndsWith(w, Step4Suffix(17))
    ensures forall j :: 0 <= j < 19 && j != i && Step4Entry(j).substringI >= 0 ==> !EndsWith(w, Step4Suffix(j)) || |Step4Suffix(j)| < |Step4Suffix(i)|
  {
    forall j | 0 <= j < 19 && j != i && Step4Entry(j).substringI >= 0
      ensures !EndsWith(w, Step4Suffix(j)) || |Step4Suffix(j)| < |Step4Suffix(i)|
    {
      Step4Ends(i);
      EndsTwo(w, Step4Suffix(i));
      EndsTwo(w, Step4Suffix(j));
      if i == 14 {
        EndsBack(w, "ant", 2);
        EndsBack(w, Step4Suffix(j), 2);
      }
    }
  }

  lemma MentLonger(x: string, i: int)
    requires 0 <= i < 19 && (i == 15 ==> !EndsWith(x, "m")) && (i == 16 ==> !EndsWith(x, "e"))
    ensures i == 15 ==> !EndsWith(x + Step4Suffix(i), Step4Suffix(16))
    ensures i == 15 || i == 16 ==> !EndsWith(x + Step4Suffix(i), Step4Suffix(17))
  {
    if i == 15 {
      EndsTail(x, "m", "ent");
      assert "m" + "ent" == "ment";
      Ementful(x + "ent");
    } else if i == 16 {
      EndsTail(x, "e", "ment");
      assert "e" + "ment" == "ement";
    }
  }

  lemma Ementful(w: string)
    ensures EndsWith(w, "ement") ==> EndsWith(w, "ment")
  {
    if EndsWith(w, "ement") {
      assert w[|w| - 4..] == w[|w| - 5..][1..];
      assert "ement"[1..] == "ment";
    }
  }

  lemma DeleteLongest(x: string, i: int)
    requires 0 <= i < 19 && (i == 15 ==> !EndsWith(x, "m")) && (i == 16 ==> !EndsWith(x, "e"))
    ensures LongestSuffix(Step4Suffix, 19, x + Step4Suffix(i)) == i
  {
    var w := x + Step4Suffix(i);
    EndsConcat(x, Step4Suffix(i));
    MentLonger(x, i);
    LinkedFour(w, i);
    Step4Entries();
    LongestIs(Step4Entry, Step4Suffix, 19, w, i);
  }

  /** Suffix i is deleted if two pairs stand before it; ion only after s or t. */
  lemma DeleteApplies(x: string, i: int)
    requires 0 <= i < 19 && (i == 15 ==> !EndsWith(x, "m")) && (i == 16 ==> !EndsWith(x, "e"))
    ensures Delete(x + Step4Suffix(i)) ==
      if Measure(x) > 1 && (i == 11 ==> EndsWith(x, "s") || EndsWith(x, "t")) then x else x + Step4Suffix(i)
  {
    EndsConcat(x, Step4Suffix(i));
    DeleteLongest(x, i);
    IonOnly(i);
  }

  lemma IonOnly(i: int)
    requires 0 <= i < 19
    ensures Step4Suffix(i) == "ion" <==> i == 11
  {
    Step4Ends(i);
    assert Two("ion") == "on";
  }

}
