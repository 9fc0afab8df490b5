/**
 * The stemmer by the measure of what stands before a suffix, as Porter states
 * it: a word is consonants and vowels with m vowel-consonant pairs between. The
 * program works with two positions fixed at the start; both give one stem.
 */
module PorterMeasure {
  import opened Bytes
  import opened BackwardTables
  import opened PorterSpec

  predicate Vowel(c: char) {
    c in "aeiouy"
  }

  /** The number of places where a vowel is followed by a consonant. */
  function Measure(w: string): (m: nat) {
    if |w| < 2 then 0
    else Measure(w[..|w| - 1]) + if Vowel(w[|w| - 2]) && !Vowel(w[|w| - 1]) then 1 else 0
  }

  // ---------------------------------------------------------------- the regions are measures

  lemma {:induction false} MeasureGrows(w: string, k: nat)
    requires k <= |w|
    ensures Measure(w[..k]) <= Measure(w)
  {
    if k == |w| {
      assert w[..k] == w;
    } else {
      MeasureGrows(w[..|w| - 1], k);
      assert w[..|w| - 1][..k] == w[..k];
      assert |w| < 2 ==> Measure(w[..|w| - 1]) == 0;
    }
  }

  lemma PairCounts(w: string, j: nat)
    requires j + 1 < |w| && Vowel(w[j]) && !Vowel(w[j + 1])
    ensures Measure(w) > 0
  {
    var p := w[..j + 2];
    assert p[..j + 1] == w[..j + 1];
    assert Measure(p) >= 1;
    MeasureGrows(w, j + 2);
  }

  lemma {:induction false} CountedPair(w: string) returns (j: nat)
    requires Measure(w) > 0
    ensures j + 1 < |w| && Vowel(w[j]) && !Vowel(w[j + 1])
  {
    if Vowel(w[|w| - 2]) && !Vowel(w[|w| - 1]) {
      j := |w| - 2;
    } else {
      j := CountedPair(w[..|w| - 1]);
    }
  }

  /** No pair lies across a place behind a consonant. */
  lemma {:induction false} MeasureSplit(w: string, k: nat)
    requires k <= |w| && (k == 0 || !Vowel(w[k - 1]))
    ensures Measure(w) == Measure(w[..k]) + Measure(w[k..])
  {
    if k == |w| {
      assert w[..k] == w;
    } else {
      var init := w[..|w| - 1];
      MeasureSplit(init, k);
      assert init[..k] == w[..k] && init[k..] == w[k..][..|w[k..]| - 1];
      assert k == |w| - 1 ==> init[..k] == init;
    }
  }

  lemma AfterPair(w: string, i: nat, k: nat)
    requires i <= k < |w|
    ensures AfterVC(w, i) <= k <==> Measure(w[i..k]) > 0
  {
    var v := Seek(w, i, true);
    var part := w[i..k];
    if AfterVC(w, i) <= k {
      var n := Seek(w, v + 1, false);
      assert Vowel(w[n - 1]) && !Vowel(w[n]);
      assert part[n - 1 - i] == w[n - 1] && part[n - i] == w[n];
      PairCounts(part, n - 1 - i);
    }
    if Measure(part) > 0 {
      var j := CountedPair(part);
      assert part[j] == w[i + j] && part[j + 1] == w[i + j + 1];
    }
  }

  /** The first region begins behind the first pair, and this is a consonant. */
  lemma FirstPair(w: string)
    requires P1(w) < |w|
    ensures P1(w) >= 2 && !Vowel(w[P1(w) - 1]) && Measure(w[..P1(w)]) == 1
  {
    var k := P1(w);
    var v := Seek(w, 0, true);
    var n := Seek(w, v + 1, false);
    assert Vowel(w[n - 1]) && !Vowel(w[n]);
    AfterPair(w, 0, k - 1);
    assert w[0..k - 1] == w[..k - 1] && w[..k][..k - 1] == w[..k - 1];
  }

  /** For every word and every place in it: the regions are where the measure of what comes before is positive, and more than one. */
  lemma RegionsAreMeasures(w: string, k: nat)
    requires k < |w|
    ensures P1(w) <= k <==> Measure(w[..k]) > 0
    ensures P2(w) <= k <==> Measure(w[..k]) > 1
  {
    AfterPair(w, 0, k);
    assert w[0..k] == w[..k];
    if P1(w) <= k {
      FirstPair(w);
      AfterPair(w, P1(w), k);
      MeasureSplit(w[..k], P1(w));
      assert w[..k][..P1(w)] == w[..P1(w)] && w[..k][P1(w)..] == w[P1(w)..k];
    }
  }

  // ---------------------------------------------------------------- the steps by measure

  /** The longest suffix with a rule is replaced if there is a pair before it. */
  function Rewrite(rule: int -> Rule, n: nat, w: string): (r: string) {
    var b := LongestSuffix(RuleSuffixes(rule), n, w);
    if b < 0 || Measure(Cut(w, |rule(b).suffix|)) == 0 then w
    else Cut(w, |rule(b).suffix|) + rule(b).replacement
  }

  function Tidied(w: string): (r: string) {
    if EndsWith(w, "at") || EndsWith(w, "bl") || EndsWith(w, "iz") then w + "e"
    else if DoubleConsonant(w) then Cut(w, 1)
    else if Measure(w) == 1 && ShortV(w) then w + "e"
    else w
  }

  function Past(w: string): (r: string) {
    if EndsWith(w, "eed") then (if Measure(Cut(w, 3)) > 0 then Cut(w, 1) else w)
    else if EndsWith(w, "ed") then (if HasVowel(Cut(w, 2)) then Tidied(Cut(w, 2)) else w)
    else if EndsWith(w, "ing") then (if HasVowel(Cut(w, 3)) then Tidied(Cut(w, 3)) else w)
    else w
  }

  function Delete(w: string): (r: string) {
    var b := LongestSuffix(Step4Suffix, Step4Count, w);
    if b < 0 then w else
    var stem := Cut(w, |Step4Suffix(b)|);
    if Measure(stem) <= 1 then w
    else if Step4Suffix(b) == "ion" && !EndsWith(stem, "s") && !EndsWith(stem, "t") then w
    else stem
  }

  function DropE(w: string): (r: string) {
    if EndsWith(w, "e") && (Measure(Cut(w, 1)) > 1 || (Measure(Cut(w, 1)) == 1 && !ShortV(Cut(w, 1)))) then Cut(w, 1)
    else w
  }

  function DropL(w: string): (r: string) {
    if EndsWith(w, "ll") && Measure(Cut(w, 1)) > 1 then Cut(w, 1) else w
  }

  function First(w: string): (r: string) {
    Step1c(Past(Step1a(w)))
  }

  function Second(w: string): (r: string) {
    Rewrite(Step2Rule, Step2Count, w)
  }

  function Third(w: string): (r: string) {
    Rewrite(Step3Rule, Step3Count, w)
  }

  function Stage(k: nat, w: string): (r: string) {
    if k == 0 then First(w) else if k == 1 then Second(w) else if k == 2 then Third(w) else
    if k == 3 then Delete(w) else if k == 4 then DropE(w) else DropL(w)
  }

  /** The stages in order, from number k on. */
  function Onward(k: nat, w: string): (r: string)
    decreases 6 - k
  {
    if k >= 6 then w else Onward(k + 1, Stage(k, w))
  }

  function ByMeasure(w: string): (r: string) {
    Onward(0, w)
  }

  // ---------------------------------------------------------------- both give one stem

  /** In w the two positions still separate the places as the measure does. */
  ghost predicate Regions(w: string, p1: nat, p2: nat) {
    forall k :: 0 <= k < |w| ==> RegionAt(w, k, p1, p2)
  }

  ghost predicate RegionAt(w: string, k: nat, p1: nat, p2: nat)
    requires k <= |w|
  {
    (p1 <= k <==> Measure(w[..k]) > 0) && (p2 <= k <==> Measure(w[..k]) > 1)
  }

  lemma RegionsStart(w: string)
    ensures Regions(w, P1(w), P2(w))
  {
    forall k | 0 <= k < |w| ensures RegionAt(w, k, P1(w), P2(w)) {
      RegionsAreMeasures(w, k);
    }
  }

  /** A changed end keeps the regions if all of it but the last symbol was there before. */
  lemma RegionsKept(w: string, r: string, p1: nat, p2: nat)
    requires Regions(w, p1, p2) && (r == "" || (|r| <= |w| && r[..|r| - 1] <= w))
    ensures Regions(r, p1, p2)
  {
    forall k | 0 <= k < |r| ensures RegionAt(r, k, p1, p2) {
      assert r[..k] == r[..|r| - 1][..k] == w[..k];
      assert RegionAt(w, k, p1, p2);
    }
  }

  /** A replacement of which all but the last symbol was there before. */
  predicate Shortens(r: Rule) {
    r.suffix != "" && (r.replacement == "" || (|r.replacement| <= |r.suffix| && Cut(r.replacement, 1) <= r.suffix))
  }

  lemma ShortensKeeps(w: string, r: Rule, p1: nat, p2: nat)
    requires Regions(w, p1, p2) && Shortens(r) && EndsWith(w, r.suffix)
    ensures Regions(Cut(w, |r.suffix|) + r.replacement, p1, p2)
  {
    var y := Cut(w, |r.suffix|);
    var v := y + r.replacement;
    assert w == y + r.suffix;
    if v != "" && r.replacement != "" {
      assert v[..|v| - 1] == y + Cut(r.replacement, 1);
    }
    RegionsKept(w, v, p1, p2);
  }

  /** The one rule of step 2 that does not shorten: between b and the last e, i and l are no pair either way. */
  lemma BlityKeeps(w: string, p1: nat, p2: nat)
    requires Regions(w, p1, p2) && EndsWith(w, "biliti")
    ensures Regions(Cut(w, 6) + "ble", p1, p2)
  {
    var y := Cut(w, 6);
    var v, k := y + "ble", |y| + 2;
    assert w == y + "biliti";
    assert v[..k][..k - 1] == w[..k][..k - 1];
    assert Measure(v[..k]) == Measure(w[..k]);
    forall x | 0 <= x < |v| ensures RegionAt(v, x, p1, p2) {
      assert RegionAt(w, x, p1, p2);
      assert x < k ==> v[..x] == w[..x];
    }
  }

  lemma Step2Shortens(i: int)
    requires 0 <= i < Step2Count && i != 8
    ensures Shortens(Step2Rule(i))
  {
  }

  lemma Step13Shortens(i: int)
    ensures Shortens(Step1aRule(i)) && Shortens(Step3Rule(i))
  {
  }

  lemma SameRewrite(rule: int -> Rule, n: nat, w: string, p1: nat, p2: nat)
    requires Regions(w, p1, p2) && forall i :: 0 <= i < n ==> rule(i).suffix != ""
    ensures ApplyLongest(rule, n, w, p1) == Rewrite(rule, n, w)
  {
    var b := LongestSuffix(RuleSuffixes(rule), n, w);
    if b >= 0 {
      assert RegionAt(w, |w| - |rule(b).suffix|, p1, p2);
    }
  }

  lemma Step2Same(w: string, p1: nat, p2: nat)
    requires Regions(w, p1, p2)
    ensures Step2(w, p1) == Second(w) && Regions(Second(w), p1, p2)
  {
    SameRewrite(Step2Rule, Step2Count, w, p1, p2);
    var b := LongestSuffix(RuleSuffixes(Step2Rule), Step2Count, w);
    if b == 8 {
      BlityKeeps(w, p1, p2);
    } else if b >= 0 {
      Step2Shortens(b);
      ShortensKeeps(w, Step2Rule(b), p1, p2);
    }
  }

  lemma Step3Same(w: string, p1: nat, p2: nat)
    requires Regions(w, p1, p2)
    ensures Step3(w, p1) == Third(w) && Regions(Third(w), p1, p2)
  {
    SameRewrite(Step3Rule, Step3Count, w, p1, p2);
    var b := LongestSuffix(RuleSuffixes(Step3Rule), Step3Count, w);
    if b >= 0 {
      Step13Shortens(b);
      ShortensKeeps(w, Step3Rule(b), p1, p2);
    }
  }

  lemma Step1aRegions(w: string, p1: nat, p2: nat)
    requires Regions(w, p1, p2)
    ensures Regions(Step1a(w), p1, p2)
  {
    var b := LongestSuffix(RuleSuffixes(Step1aRule), Step1aCount, w);
    if b >= 0 {
      Step13Shortens(b);
      ShortensKeeps(w, Step1aRule(b), p1, p2);
    }
  }

  /** A short word has measure one exactly when the first region begins at its end. */
  lemma ShortMeasure(w: string, y: string, p1: nat, p2: nat)
    requires Regions(w, p1, p2) && y < w && ShortV(y)
    ensures Measure(y) == 1 <==> |y| == p1
  {
    var k := |y|;
    assert RegionAt(w, k, p1, p2) && RegionAt(w, k - 1, p1, p2);
    assert w[..k] == y && w[..k - 1] == y[..k - 1];
    assert Vowel(y[k - 2]) && !Vowel(y[k - 1]);
  }

  lemma TidySame(w: string, y: string, p1: nat, p2: nat)
    requires Regions(w, p1, p2) && y < w
    ensures Tidy(y, p1) == Tidied(y) && Regions(Tidied(y), p1, p2)
  {
    if ShortV(y) {
      ShortMeasure(w, y, p1, p2);
    }
    TidiedEnd(y);
    RegionsKept(w, Tidied(y), p1, p2);
  }

  lemma TidiedEnd(y: string)
    ensures var r := Tidied(y); |r| <= |y| + 1 && (r == "" || r[..|r| - 1] <= y)
  {
    assert (y + "e")[..|y|] == y;
  }

  lemma Step1bSame(w: string, p1: nat, p2: nat)
    requires Regions(w, p1, p2)
    ensures Step1b(w, p1) == Past(w) && Regions(Past(w), p1, p2)
  {
    if EndsWith(w, "eed") {
      assert RegionAt(w, |w| - 3, p1, p2);
      RegionsKept(w, Cut(w, 1), p1, p2);
    } else if EndsWith(w, "ed") {
      TidySame(w, Cut(w, 2), p1, p2);
    } else if EndsWith(w, "ing") {
      TidySame(w, Cut(w, 3), p1, p2);
    }
  }

  lemma Step1cRegions(w: string, p1: nat, p2: nat)
    requires Regions(w, p1, p2)
    ensures Regions(Step1c(w), p1, p2)
  {
    var r := Step1c(w);
    if r != w {
      assert r[..|r| - 1] == Cut(w, 1);
      RegionsKept(w, r, p1, p2);
    }
  }

  lemma Step4Same(w: string, p1: nat, p2: nat)
    requires Regions(w, p1, p2)
    ensures Step4(w, p2) == Delete(w) && Regions(Delete(w), p1, p2)
  {
    var b := LongestSuffix(Step4Suffix, Step4Count, w);
    if b >= 0 {
      assert Step4Suffix(b) != "";
      assert RegionAt(w, |w| - |Step4Suffix(b)|, p1, p2);
    }
    RegionsKept(w, Delete(w), p1, p2);
  }

  lemma Step5Same(w: string, p1: nat, p2: nat)
    requires Regions(w, p1, p2)
    ensures Step5b(Step5a(w, p1, p2), p2) == DropL(DropE(w))
  {
    if w != "" {
      assert RegionAt(w, |w| - 1, p1, p2);
    }
    var r := DropE(w);
    RegionsKept(w, r, p1, p2);
    if r != "" {
      assert RegionAt(r, |r| - 1, p1, p2);
    }
  }

  /** For every word: the steps by the two positions and the steps by the measure agree. */
  lemma StepsByMeasure(w: string)
    ensures Steps(w, P1(w), P2(w)) == ByMeasure(w)
  {
    var p1, p2 := P1(w), P2(w);
    RegionsStart(w);
    Step1aRegions(w, p1, p2);
    Step1bSame(Step1a(w), p1, p2);
    Step1cRegions(Past(Step1a(w)), p1, p2);
    var a := First(w);
    Step2Same(a, p1, p2);
    var b := Second(a);
    Step3Same(b, p1, p2);
    var c := Third(b);
    Step4Same(c, p1, p2);
    Step5Same(Delete(c), p1, p2);
    StepsInOrder(w, p1, p2);
    InOrder(w);
  }

  lemma InOrder(w: string)
    ensures ByMeasure(w) == DropL(DropE(Delete(Third(Second(First(w))))))
  {
    var b := Second(First(w));
    var d := Delete(Third(b));
    assert Onward(1, First(w)) == Onward(2, b);
    assert Onward(2, b) == Onward(3, Third(b));
    assert Onward(3, Third(b)) == Onward(4, d);
    assert Onward(4, d) == Onward(5, DropE(d));
  }
}
