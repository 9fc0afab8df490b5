/**
 * The Porter stemmer on whole words: suffixes cut and replaced, with no
 * cursor, no buffer and no lookup shortcuts. The imperative stemmer is proved
 * equal to Stem, and what it promises is proved here.
 */
module PorterSpec {
  import opened Bytes
  import opened BackwardTables

  predicate IsVowel(ch: char) {
    ch == 'a' || ch == 'e' || ch == 'i' || ch == 'o' || ch == 'u' || ch == 'y'
  }

  predicate HasVowel(w: string) {
    exists k :: 0 <= k < |w| && IsVowel(w[k])
  }

  /** w without its last n symbols. */
  function Cut(w: string, n: nat): (r: string)
    requires n <= |w|
    ensures |r| == |w| - n && r <= w
  {
    w[..|w| - n]
  }

  // ---------------------------------------------------------------- y as a consonant

  /** y at the start of the word or after a vowel is a consonant, written Y; afterVowel speaks of the symbol before w. */
  function MarkFrom(afterVowel: bool, w: string): (m: string)
    ensures |m| == |w|
    decreases |w|
  {
    if w == [] then []
    else if w[0] == 'y' && afterVowel then ['Y'] + MarkFrom(false, w[1..])
    else [w[0]] + MarkFrom(IsVowel(w[0]), w[1..])
  }

  function Mark(w: string): (m: string)
    ensures |m| == |w|
  {
    MarkFrom(true, w)
  }

  function Unmark(w: string): (m: string)
    ensures |m| == |w|
    ensures forall k :: 0 <= k < |w| ==> m[k] == if w[k] == 'Y' then 'y' else w[k]
  {
    seq(|w|, k requires 0 <= k < |w| => if w[k] == 'Y' then 'y' else w[k])
  }

  // ---------------------------------------------------------------- regions

  /** First position from i on where the symbol is a vowel (or is not), else |w|. */
  function Seek(w: string, i: nat, vowel: bool): (k: nat)
    requires i <= |w|
    ensures i <= k <= |w|
    ensures forall x :: i <= x < k ==> IsVowel(w[x]) != vowel
    ensures k < |w| ==> IsVowel(w[k]) == vowel
    decreases |w| - i
  {
    if i == |w| || IsVowel(w[i]) == vowel then i else Seek(w, i + 1, vowel)
  }

  /** The end of the first vowel-consonant pair at or after i, else |w|. */
  function AfterVC(w: string, i: nat): (k: nat)
    requires i <= |w|
    ensures i <= k <= |w|
  {
    var v := Seek(w, i, true);
    if v == |w| then |w| else
    var n := Seek(w, v + 1, false);
    if n == |w| then |w| else n + 1
  }

  function P1(w: string): (k: nat)
    ensures k <= |w|
  {
    AfterVC(w, 0)
  }

  function P2(w: string): (k: nat)
    ensures k <= |w|
  {
    AfterVC(w, P1(w))
  }

  // ---------------------------------------------------------------- the steps

  /** consonant, vowel, consonant other than w, x or Y at the end. */
  predicate ShortV(w: string) {
    var n := |w|;
    n >= 3 && !IsVowel(w[n - 3]) && IsVowel(w[n - 2]) && !IsVowel(w[n - 1]) &&
    w[n - 1] != 'w' && w[n - 1] != 'x' && w[n - 1] != 'Y'
  }

  datatype Rule = Rule(suffix: string, replacement: string)

  function RuleSuffixes(rule: int -> Rule): int -> string {
    i => rule(i).suffix
  }

  /** Replace the longest suffix that has a rule, provided it lies in the region from p on. */
  function ApplyLongest(rule: int -> Rule, n: nat, w: string, p: nat): (r: string) {
    var b := LongestSuffix(RuleSuffixes(rule), n, w);
    if b < 0 || |w| - |rule(b).suffix| < p then w
    else Cut(w, |rule(b).suffix|) + rule(b).replacement
  }

  const Step1aCount: nat := 4

  function Step1aRule(i: int): (r: Rule)
    ensures |r.replacement| <= |r.suffix| && 'Y' !in r.replacement
  {
    if i == 0 then Rule("s", "") else
    if i == 1 then Rule("ies", "i") else
    if i == 2 then Rule("sses", "ss") else
    Rule("ss", "ss")
  }

  function Step1a(w: string): (r: string) {
    ApplyLongest(Step1aRule, Step1aCount, w, 0)
  }

  predicate DoubleConsonant(w: string) {
    var n := |w|;
    n >= 2 && w[n - 2] == w[n - 1] && w[n - 1] in "bdfgmnprt"
  }

  /** What step 1b does after removing ed or ing. */
  function Tidy(w: string, p1: nat): (r: string) {
    if EndsWith(w, "at") || EndsWith(w, "bl") || EndsWith(w, "iz") then w + "e"
    else if DoubleConsonant(w) then Cut(w, 1)
    else if |w| == p1 && ShortV(w) then w + "e"
    else w
  }

  function Step1b(w: string, p1: nat): (r: string) {
    if EndsWith(w, "eed") then (if p1 <= |w| - 3 then Cut(w, 1) else w)
    else if EndsWith(w, "ed") then (if HasVowel(Cut(w, 2)) then Tidy(Cut(w, 2), p1) else w)
    else if EndsWith(w, "ing") then (if HasVowel(Cut(w, 3)) then Tidy(Cut(w, 3), p1) else w)
    else w
  }

  function Step1c(w: string): (r: string) {
    if (EndsWith(w, "y") || EndsWith(w, "Y")) && HasVowel(Cut(w, 1)) then Cut(w, 1) + "i" else w
  }

  const Step2Count: nat := 20

  function Step2Rule(i: int): (r: Rule)
    ensures |r.replacement| <= |r.suffix| && 'Y' !in r.replacement
  {
    if i == 0 then Rule("anci", "ance") else
    if i == 1 then Rule("enci", "ence") else
    if i == 2 then Rule("abli", "able") else
    if i == 3 then Rule("eli", "e") else
    if i == 4 then Rule("alli", "al") else
    if i == 5 then Rule("ousli", "ous") else
    if i == 6 then Rule("entli", "ent") else
    if i == 7 then Rule("aliti", "al") else
    if i == 8 then Rule("biliti", "ble") else
    if i == 9 then Rule("iviti", "ive") else
    if i == 10 then Rule("tional", "tion") else
    if i == 11 then Rule("ational", "ate") else
    if i == 12 then Rule("alism", "al") else
    if i == 13 then Rule("ation", "ate") else
    if i == 14 then Rule("ization", "ize") else
    if i == 15 then Rule("izer", "ize") else
    if i == 16 then Rule("ator", "ate") else
    if i == 17 then Rule("iveness", "ive") else
    if i == 18 then Rule("fulness", "ful") else
    Rule("ousness", "ous")
  }

  function Step2(w: string, p1: nat): (r: string) {
    ApplyLongest(Step2Rule, Step2Count, w, p1)
  }

  const Step3Count: nat := 7

  function Step3Rule(i: int): (r: Rule)
    ensures |r.replacement| <= |r.suffix| && 'Y' !in r.replacement
  {
    if i == 0 then Rule("icate", "ic") else
    if i == 1 then Rule("ative", "") else
    if i == 2 then Rule("alize", "al") else
    if i == 3 then Rule("iciti", "ic") else
    if i == 4 then Rule("ical", "ic") else
    if i == 5 then Rule("ful", "") else
    Rule("ness", "")
  }

  function Step3(w: string, p1: nat): (r: string) {
    ApplyLongest(Step3Rule, Step3Count, w, p1)
  }

  const Step4Count: nat := 19

  function Step4Suffix(i: int): (r: string)
  {
    if i == 0 then "ic" else
    if i == 1 then "ance" else
    if i == 2 then "ence" else
    if i == 3 then "able" else
    if i == 4 then "ible" else
    if i == 5 then "ate" else
    if i == 6 then "ive" else
    if i == 7 then "ize" else
    if i == 8 then "iti" else
    if i == 9 then "al" else
    if i == 10 then "ism" else
    if i == 11 then "ion" else
    if i == 12 then "er" else
    if i == 13 then "ous" else
    if i == 14 then "ant" else
    if i == 15 then "ent" else
    if i == 16 then "ment" else
    if i == 17 then "ement" else
    "ou"
  }

  /** Delete the longest suffix inside the region; ion only after s or t. */
  function Step4(w: string, p2: nat): (r: string) {
    var b := LongestSuffix(Step4Suffix, Step4Count, w);
    if b < 0 then w else
    var stem := Cut(w, |Step4Suffix(b)|);
    if |stem| < p2 then w
    else if Step4Suffix(b) == "ion" && !EndsWith(stem, "s") && !EndsWith(stem, "t") then w
    else stem
  }

  function Step5a(w: string, p1: nat, p2: nat): (r: string) {
    if EndsWith(w, "e") && (p2 <= |w| - 1 || (p1 <= |w| - 1 && !ShortV(Cut(w, 1)))) then Cut(w, 1) else w
  }

  function Step5b(w: string, p2: nat): (r: string) {
    if EndsWith(w, "ll") && p2 <= |w| - 1 then Cut(w, 1) else w
  }

  function FirstSteps(m: string, p1: nat): (r: string) {
    Step1c(Step1b(Step1a(m), p1))
  }

  function MiddleSteps(w: string, p1: nat, p2: nat): (r: string) {
    Step4(Step3(Step2(w, p1), p1), p2)
  }

  function LastSteps(w: string, p1: nat, p2: nat): (r: string) {
    Step5b(Step5a(w, p1, p2), p2)
  }

  function StepNumber(k: nat, w: string, p1: nat, p2: nat): (r: string) {
    if k == 0 then Step1a(w) else if k == 1 then Step1b(w, p1) else if k == 2 then Step1c(w) else
    if k == 3 then Step2(w, p1) else if k == 4 then Step3(w, p1) else if k == 5 then Step4(w, p2) else
    if k == 6 then Step5a(w, p1, p2) else Step5b(w, p2)
  }

  /** The eight steps in order, from number k on. */
  function StepsFrom(k: nat, w: string, p1: nat, p2: nat): (r: string)
    decreases 8 - k
  {
    if k >= 8 then w else StepsFrom(k + 1, StepNumber(k, w, p1, p2), p1, p2)
  }

  /** All the steps on a word whose consonant y are marked. */
  function Steps(m: string, p1: nat, p2: nat): (r: string) {
    StepsFrom(0, m, p1, p2)
  }

  lemma StepsInOrder(m: string, p1: nat, p2: nat)
    ensures Steps(m, p1, p2) == LastSteps(MiddleSteps(FirstSteps(m, p1), p1, p2), p1, p2)
  {
    var c := FirstSteps(m, p1);
    var f := MiddleSteps(c, p1, p2);
    StepsSplit(m, p1, p2);
    assert StepsFrom(3, c, p1, p2) == StepsFrom(4, Step2(c, p1), p1, p2);
    assert StepsFrom(4, Step2(c, p1), p1, p2) == StepsFrom(5, Step3(Step2(c, p1), p1), p1, p2);
    assert StepsFrom(5, Step3(Step2(c, p1), p1), p1, p2) == StepsFrom(6, f, p1, p2);
    assert StepsFrom(6, f, p1, p2) == StepsFrom(7, Step5a(f, p1, p2), p1, p2);
  }

  lemma StepsSplit(m: string, p1: nat, p2: nat)
    ensures Steps(m, p1, p2) == StepsFrom(3, FirstSteps(m, p1), p1, p2)
  {
    var b := Step1b(Step1a(m), p1);
    assert StepsFrom(1, Step1a(m), p1, p2) == StepsFrom(2, b, p1, p2);
    assert StepsFrom(2, b, p1, p2) == StepsFrom(3, Step1c(b), p1, p2);
  }

  function Stem(w: string): (r: string) {
    var m := Mark(w);
    var r := Steps(m, P1(m), P2(m));
    if m != w then Unmark(r) else r
  }

  // ---------------------------------------------------------------- what the stemmer promises

  /** r is no longer than w, and has no Y if w has none. */
  ghost predicate Shrinks(w: string, r: string) {
    |r| <= |w| && ('Y' !in w ==> 'Y' !in r)
  }

  lemma PrefixShrinks(w: string, r: string, tail: string, n: nat)
    requires n <= |w| && r == Cut(w, n) + tail && |tail| <= n && 'Y' !in tail
    ensures Shrinks(w, r)
  {
  }

  lemma ApplyLongestShrinks(rule: int -> Rule, n: nat, w: string, p: nat)
    requires forall i :: |rule(i).replacement| <= |rule(i).suffix| && 'Y' !in rule(i).replacement
    ensures Shrinks(w, ApplyLongest(rule, n, w, p))
  {
    var b := LongestSuffix(RuleSuffixes(rule), n, w);
    if b >= 0 && |w| - |rule(b).suffix| >= p {
      PrefixShrinks(w, ApplyLongest(rule, n, w, p), rule(b).replacement, |rule(b).suffix|);
    }
  }

  lemma TidyShrinks(w: string, p1: nat)
    ensures |Tidy(w, p1)| <= |w| + 1 && ('Y' !in w ==> 'Y' !in Tidy(w, p1))
  {
  }

  lemma Step1bShrinks(w: string, p1: nat)
    ensures Shrinks(w, Step1b(w, p1))
  {
    if EndsWith(w, "eed") {
    } else if EndsWith(w, "ed") {
      TidyShrinks(Cut(w, 2), p1);
    } else if EndsWith(w, "ing") {
      TidyShrinks(Cut(w, 3), p1);
    }
  }

  lemma Step1cShrinks(w: string)
    ensures Shrinks(w, Step1c(w))
  {
  }

  lemma Step45Shrinks(w: string, p1: nat, p2: nat)
    ensures Shrinks(w, Step4(w, p2)) && Shrinks(w, Step5a(w, p1, p2)) && Shrinks(w, Step5b(w, p2))
  {
  }

  lemma StepsShrink(m: string, p1: nat, p2: nat)
    ensures Shrinks(m, Steps(m, p1, p2))
  {
    StepsInOrder(m, p1, p2);
    var a := Step1a(m);
    var b := Step1b(a, p1);
    var c := Step1c(b);
    ApplyLongestShrinks(Step1aRule, Step1aCount, m, 0);
    Step1bShrinks(a, p1);
    Step1cShrinks(b);
    var d := Step2(c, p1);
    ApplyLongestShrinks(Step2Rule, Step2Count, c, p1);
    var e := Step3(d, p1);
    ApplyLongestShrinks(Step3Rule, Step3Count, d, p1);
    var f := Step4(e, p2);
    Step45Shrinks(e, p1, p2);
    Step45Shrinks(f, p1, p2);
    Step45Shrinks(Step5a(f, p1, p2), p1, p2);
  }

  /** For every word: the stem is no longer, and a word without Y has a stem without Y. */
  lemma StemShrinks(w: string)
    ensures |Stem(w)| <= |w|
    ensures 'Y' !in w ==> 'Y' !in Stem(w)
  {
    var m := Mark(w);
    StepsShrink(m, P1(m), P2(m));
    assert m == w ==> Stem(w) == Steps(m, P1(m), P2(m));
  }
}
