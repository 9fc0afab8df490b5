/** Words before and after their consonant y are marked, and the stem of a word in terms of its marked form. */
module PorterMarks {
  import opened Bytes
  import opened PorterSpec
  import opened PorterMeasure
  import opened PorterEndings

  lemma {:induction false} MarkPlain(a: bool, s: string)
    requires 'y' !in s
    ensures MarkFrom(a, s) == s
    decreases |s|
  {
    if s != "" {
      assert s[0] in s && forall c :: c in s[1..] ==> c in s;
      MarkPlain(IsVowel(s[0]), s[1..]);
    }
  }

  lemma {:induction false} MarkConcat(a: bool, x: string, s: string)
    requires 'y' !in s
    ensures MarkFrom(a, x + s) == MarkFrom(a, x) + s
    decreases |x|
  {
    if x == "" {
      assert x + s == s;
      MarkPlain(a, s);
    } else {
      var next := if x[0] == 'y' && a then false else IsVowel(x[0]);
      assert (x + s)[1..] == x[1..] + s;
      MarkConcat(next, x[1..], s);
    }
  }

  lemma {:induction false} MarkAt(a: bool, x: string, k: nat)
    requires k < |x|
    ensures var m := MarkFrom(a, x);
      m[k] == if x[k] == 'y' && (if k == 0 then a else Vowel(m[k - 1])) then 'Y' else x[k]
    decreases |x|
  {
    var next := if x[0] == 'y' && a then false else IsVowel(x[0]);
    if k > 0 {
      MarkAt(next, x[1..], k - 1);
    }
  }

  /** y counts as a consonant, and is written Y, at the start of a word and after a vowel; nothing else changes. */
  lemma MarkMeans(x: string, k: nat)
    requires k < |x|
    ensures Mark(x)[k] == if x[k] == 'y' && (k == 0 || Mark(x)[k - 1] in "aeiouy") then 'Y' else x[k]
  {
    MarkAt(true, x, k);
  }

  lemma MarkEnds(x: string, t: string)
    requires 'y' !in t && 'Y' !in t
    ensures EndsWith(Mark(x), t) <==> EndsWith(x, t)
  {
    var m := Mark(x);
    forall k | 0 <= k < |x| ensures m[k] == x[k] || (x[k] == 'y' && m[k] == 'Y') { MarkMeans(x, k); }
    if |t| <= |x| {
      var d := |x| - |t|;
      forall k | 0 <= k < |t| ensures m[d..][k] == t[k] <==> x[d..][k] == t[k] {
        assert t[k] in t;
        assert m[d..][k] == m[d + k] && x[d..][k] == x[d + k];
      }
    }
  }

  /** The word as it is written again at the end. */
  function Kept(x: string): (r: string) {
    if Mark(x) == x then x else Unmark(Mark(x))
  }

  lemma KeptPlain(x: string)
    ensures 'Y' !in x ==> Kept(x) == x
  {
    if 'Y' !in x {
      var m := Mark(x);
      forall k | 0 <= k < |x| ensures (if m[k] == 'Y' then 'y' else m[k]) == x[k] {
        MarkMeans(x, k);
        assert x[k] in x;
      }
    }
  }

  lemma StemIs(x: string, s: string)
    requires 'y' !in s
    ensures Stem(x + s) == if Mark(x) == x then ByMeasure(Mark(x) + s) else Unmark(ByMeasure(Mark(x) + s))
  {
    var w := x + s;
    MarkConcat(true, x, s);
    StepsByMeasure(Mark(w));
    if Mark(w) == w {
      assert Mark(x) == Mark(w)[..|x|] == x;
    }
  }

  lemma SameStem(x: string, s: string, t: string)
    requires 'y' !in s && 'y' !in t && ByMeasure(Mark(x) + s) == ByMeasure(Mark(x) + t)
    ensures Stem(x + s) == Stem(x + t)
  {
    StemIs(x, s);
    StemIs(x, t);
  }

  lemma StemOf(w: string)
    ensures Stem(w) == if Mark(w) == w then ByMeasure(Mark(w)) else Unmark(ByMeasure(Mark(w)))
  {
    StemIs(w, "");
    assert w + "" == w && Mark(w) + "" == Mark(w);
  }

  lemma SameAsBare(x: string, s: string)
    requires 'y' !in s && ByMeasure(Mark(x) + s) == ByMeasure(Mark(x))
    ensures Stem(x + s) == Stem(x)
  {
    StemIs(x, s);
    StemOf(x);
  }

  lemma OwnStem(x: string, s: string, t: string)
    requires 'y' !in s && 'Y' !in t && ByMeasure(Mark(x) + s) == Mark(x) + t
    ensures Stem(x + s) == Kept(x) + t
  {
    UnmarkJoined(Mark(x), t);
    StemIs(x, s);
  }

  lemma UnmarkJoined(m: string, t: string)
    requires 'Y' !in t
    ensures Unmark(m + t) == Unmark(m) + t
  {
    forall k | 0 <= k < |t| ensures t[k] != 'Y' { assert t[k] in t; }
  }

  lemma KeptConcat(x: string, s: string)
    requires Plain(s)
    ensures Mark(x + s) == Mark(x) + s && Kept(x + s) == Kept(x) + s
  {
    PlainHas(s);
    UnmarkJoined(Mark(x), s);
    MarkConcat(true, x, s);
    if Mark(x + s) == x + s {
      assert Mark(x) == Mark(x + s)[..|x|] == x;
    }
  }

  /** m, the number of vowel-consonant pairs of a word. */
  function Pairs(x: string): (m: nat) {
    Measure(Mark(x))
  }

  lemma Joined(x: string, u: string, v: string)
    ensures (x + u) + v == x + (u + v)
  {
  }

  // ---------------------------------------------------------------- step 5 alone

  /** The word as step 5 alone leaves it. */
  function Ended(x: string): (r: string) {
    var r := DropL(DropE(Mark(x)));
    if Mark(x) == x then r else Unmark(r)
  }

  /** Consonant, vowel, consonant at the end, the last not w, x or a consonant y. */
  predicate Cvc(w: string) {
    |w| >= 3 && w[|w| - 3] !in "aeiouy" && w[|w| - 2] in "aeiouy" && w[|w| - 1] !in "aeiouywxY"
  }

  lemma CvcMeans(w: string)
    ensures ShortV(w) <==> Cvc(w)
  {
  }

  lemma EndedPlain(x: string)
    requires !EndsWith(x, "e") && !EndsWith(x, "ll")
    ensures Ended(x) == Kept(x)
  {
    MarkEnds(x, "e");
    MarkEnds(x, "ll");
  }

  /** A last e goes after two pairs, and after one pair unless a short syllable is before it; then ll becomes l. */
  lemma EndedE(x: string)
    ensures Ended(x + "e") ==
      if Measure(Mark(x)) > 1 then (if EndsWith(x, "ll") then Cut(Kept(x), 1) else Kept(x))
      else if Measure(Mark(x)) == 1 && !Cvc(Mark(x)) then Kept(x)
      else Kept(x) + "e"
  {
    var m := Mark(x);
    KeptConcat(x, "e");
    EndsConcat(m, "e");
    CvcMeans(m);
    MarkEnds(x, "ll");
    UnmarkCut(m);
    UnmarkConcat(m, "e");
    SameMark(x, "e");
    DropAfterE(m);
  }

  lemma DropAfterE(m: string)
    ensures DropL(DropE(m + "e")) ==
      if Measure(m) > 1 then (if EndsWith(m, "ll") then Cut(m, 1) else m)
      else if Measure(m) == 1 && !ShortV(m) then m
      else m + "e"
  {
    EndsConcat(m, "e");
    EndsBack(m + "e", "ll", 0);
    BackConcat(m, "e", 0);
    EndsBack(m, "ll", 0);
    EndsBack(m, "ll", 1);
  }

  lemma UnmarkConcat(m: string, s: string)
    requires Plain(s)
    ensures Unmark(m + s) == Unmark(m) + s
  {
  }

  lemma UnmarkCut(m: string)
    ensures m != "" ==> Unmark(Cut(m, 1)) == Cut(Unmark(m), 1)
  {
  }

  lemma SameMark(x: string, s: string)
    requires Plain(s)
    ensures Mark(x + s) == x + s <==> Mark(x) == x
  {
    KeptConcat(x, s);
    if Mark(x + s) == x + s {
      assert Mark(x) == Mark(x + s)[..|x|] == x;
    }
  }

  /** A last ll loses one l after two pairs. */
  lemma EndedLL(x: string)
    ensures Ended(x + "ll") == if Measure(Mark(x) + "l") > 1 then Kept(x) + "l" else Kept(x) + "ll"
  {
    assert Plain("l") && Plain("ll");
    KeptConcat(x, "ll");
    SameMark(x, "ll");
    UnmarkConcat(Mark(x), "l");
    UnmarkConcat(Mark(x), "ll");
    DropLL(Mark(x));
  }

  lemma DropLL(m: string)
    ensures DropL(DropE(m + "ll")) == if Measure(m + "l") > 1 then m + "l" else m + "ll"
  {
    EndsConcat(m, "ll");
    EndsBack(m + "ll", "e", 0);
    assert Cut(m + "ll", 1) == m + "l";
  }
}
