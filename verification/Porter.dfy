/**
 * The generated Porter stemmer: cursor moves, table lookups guarded by length
 * and byte masks, and slices of the buffer. Every step is proved to compute
 * the word-level step of PorterSpec.
 */
module Porter {
  import opened Bytes
  import opened AmongTables
  import opened BackwardTables
  import opened SnowballRuntime
  import opened PorterSpec
  import opened PorterTables

  const GV: seq<bv8> := [17, 65, 16, 1]
  const GVWXY: seq<bv8> := [1, 17, 65, 208, 1]

  /** The packed grouping g_v holds exactly the vowels. */
  lemma GroupIsVowels(ch: char)
    ensures InGroup(GV, 97, 121, ch) <==> IsVowel(ch)
  {
    if 'a' <= ch <= 'y' {
      LetterInGroup(ch);
    }
  }

  lemma LetterInGroup(ch: char)
    requires 'a' <= ch <= 'y'
    ensures InGroup(GV, 97, 121, ch) <==> IsVowel(ch)
  {
    var k := ch as int - 97;
    if k / 8 == 0 {
    } else if k / 8 == 1 {
    } else if k / 8 == 2 {
    } else {
    }
  }

  /** The packed grouping g_v_WXY holds exactly the vowels, w, x and Y. */
  lemma GroupIsVowelsWXY(ch: char)
    ensures InGroup(GVWXY, 89, 121, ch) <==> IsVowel(ch) || ch == 'w' || ch == 'x' || ch == 'Y'
  {
    if 'Y' <= ch <= 'y' {
      var k := ch as int - 89;
      if k / 8 == 0 {
      } else if k / 8 == 1 {
      } else if k / 8 == 2 {
      } else if k / 8 == 3 {
      } else {
      }
    }
  }

  // ---------------------------------------------------------------- guards before lookups

  /** (ch >> 5) == 3 and bit (ch & 0x1f) of the mask is set. */
  predicate MaskAllows(mask: bv32, ch: char) {
    ch as int / 32 == 3 && (mask >> (ch as int % 32)) & 1 == 1
  }

  /** Every entry from the first on is longer than k and ends in a symbol the mask allows. */
  ghost predicate Covered(e: int -> Among, first: int, n: nat, k: nat, mask: bv32) {
    forall i :: first <= i < n ==> |e(i).s| > k && MaskAllows(mask, e(i).s[|e(i).s| - 1])
  }

  lemma LastSymbol(w: string, s: string)
    requires EndsWith(w, s) && s != []
    ensures |w| >= |s| && w[|w| - 1] == s[|s| - 1]
  {
    assert w[|w| - |s|..][|s| - 1] == s[|s| - 1];
  }

  /** A word that fails a length and mask guard ends with none of the guarded entries. */
  lemma GuardHarmless(e: int -> Among, first: int, n: nat, k: nat, mask: bv32, w: string)
    requires Covered(e, first, n, k, mask)
    requires |w| <= k || !MaskAllows(mask, w[|w| - 1])
    ensures forall i :: first <= i < n ==> !EndsWith(w, e(i).s)
  {
    forall i | first <= i < n ensures !EndsWith(w, e(i).s) {
      if EndsWith(w, e(i).s) { LastSymbol(w, e(i).s); }
    }
  }

  lemma Step1bTidyCovered()
    ensures Covered(Step1bTidyEntry, 1, 13, 1, 68514004)
  {
    assert forall ch :: ch in "bdfglmnprtz" ==> MaskAllows(68514004, ch);
    forall i | 1 <= i < 13 ensures var s := Step1bTidyEntry(i).s; |s| > 1 && s[|s| - 1] in "bdfglmnprtz" { }
  }

  lemma Step2Covered()
    ensures Covered(Step2Entry, 0, 20, 2, 815616)
  {
    assert forall ch :: ch in "ilmnrs" ==> MaskAllows(815616, ch);
    forall i | 0 <= i < 20 ensures var s := Step2Entry(i).s; |s| > 2 && s[|s| - 1] in "ilmnrs" { }
  }

  lemma Step3Covered()
    ensures Covered(Step3Entry, 0, 7, 2, 528928)
  {
    assert forall ch :: ch in "eils" ==> MaskAllows(528928, ch);
    forall i | 0 <= i < 7 ensures var s := Step3Entry(i).s; |s| > 2 && s[|s| - 1] in "eils" { }
  }

  lemma Step4Covered()
    ensures Covered(Step4Entry, 0, 19, 1, 3961384)
  {
    assert forall ch :: ch in "ceilmnrstu" ==> MaskAllows(3961384, ch);
    forall i | 0 <= i < 19 ensures var s := Step4Entry(i).s; |s| > 1 && s[|s| - 1] in "ceilmnrstu" { }
  }

  // ---------------------------------------------------------------- the steps

  /** Backward mode between steps: the limit is at the start and the cursor at the end. */
  ghost predicate Ready(z: Env)
    reads z
  {
    z.Valid() && z.lb == 0 && z.c == z.l
  }

  /** find_among_b on a Porter table finds the longest suffix of the word. */
  method Lookup(z: Env, e: int -> Among, n: nat) returns (r: int)
    requires Ready(z) && TableOk(e, n)
    modifies z`c
    ensures var b := LongestSuffix(Suffixes(e), n, z.Text());
            if b < 0 then r == 0 && z.c == z.l else r == e(b).result && z.c == z.l - |e(b).s|
  {
    ghost var w, v := z.Text(), Table(e, n);
    ghost var keys, q := ReversedKeys(v), Conditions(v, w, z.c, -1);
    TableOkSuffices(e, n);
    LongestHitIsLongestSuffix(e, n, n, w, z.c, w);
    assert w[z.lb..z.c] == w;
    assert forall x :: 0 <= x < n && keys[x] <= Reverse(w) ==> Hit(keys, q, Reverse(w), x);
    r := z.FindAmongB(Table(e, n));
  }

  /** slice_from_s on a slice that reaches the end of the word: the suffix from bra on becomes s. */
  method ReplaceSuffix(z: Env, s: string) returns (ret: int)
    requires z.Valid() && 0 <= z.bra <= z.ket == z.l
    modifies z`p, z`size, z`capacity, z`l, z`c, z.p
    ensures z.Valid() && (z.p == old(z.p) || fresh(z.p))
    ensures ret == 0 && z.Text() == old(z.Text())[..z.bra] + s
  {
    ret := z.SliceFromS(s);
  }

  /** One case of a switch: the slice from bra to the end replaced, or nothing done. */
  method Act(z: Env, act: Option<string>) returns (ret: int)
    requires z.Valid() && 0 <= z.bra <= z.ket == z.l
    modifies z`p, z`size, z`capacity, z`l, z`c, z.p
    ensures z.Valid() && (z.p == old(z.p) || fresh(z.p))
    ensures ret == 0 && z.Text() == Acted(old(z.Text()), z.bra, act)
  {
    if act.Some? { ret := ReplaceSuffix(z, act.value); } else { ret := 0; }
  }

  /** The word after a switch: the suffix from c on replaced, or nothing done. */
  function Acted(w: string, c: nat, act: Option<string>): (r: string)
    requires c <= |w|
  {
    if act.None? then w else w[..c] + act.value
  }

  /** The table and the switch over its results say what the rules say, entry by entry. */
  ghost predicate SameRules(e: int -> Among, switch: int -> Option<string>, rule: int -> Rule, n: nat) {
    forall i :: 0 <= i < n ==>
      && e(i).s == rule(i).suffix && e(i).result != 0
      && (switch(e(i).result) == Some(rule(i).replacement) ||
          (switch(e(i).result).None? && rule(i).replacement == rule(i).suffix))
  }

  /** find_among_b and a switch compute the longest rule, when it lies in the region. */
  method LookupRule(z: Env, e: int -> Among, switch: int -> Option<string>, ghost rule: int -> Rule, n: nat, p: nat)
    returns (amongVar: int)
    requires Ready(z) && TableOk(e, n) && SameRules(e, switch, rule, n)
    modifies z`c
    ensures amongVar == 0 ==> ApplyLongest(rule, n, z.Text(), p) == z.Text()
    ensures amongVar != 0 ==>
              0 <= z.c <= z.l &&
              ApplyLongest(rule, n, z.Text(), p) == if p <= z.c then Acted(z.Text(), z.c, switch(amongVar)) else z.Text()
  {
    ghost var w := z.Text();
    amongVar := Lookup(z, e, n);
    SameSuffixes(Suffixes(e), RuleSuffixes(rule), n, w);
    ghost var b := LongestSuffix(Suffixes(e), n, w);
    if b >= 0 {
      assert w[|w| - |e(b).s|..] == e(b).s;
      assert w == w[..|w| - |e(b).s|] + e(b).s;
    }
  }

  /** No entry ends the word: the rules leave it alone. */
  lemma NoRule(e: int -> Among, rule: int -> Rule, n: nat, w: string, p: nat)
    requires forall i :: 0 <= i < n ==> e(i).s == rule(i).suffix && !EndsWith(w, e(i).s)
    ensures ApplyLongest(rule, n, w, p) == w
  {
  }

  function Step1aSwitch(amongVar: int): Option<string> {
    if amongVar == 1 then Some("ss") else if amongVar == 2 then Some("i") else if amongVar == 3 then Some("") else None
  }

  lemma Step1aSameRules()
    ensures SameRules(Step1aEntry, Step1aSwitch, Step1aRule, 4)
  {
  }

  lemma Step1aGuard(w: string)
    requires w == [] || w[|w| - 1] != 's'
    ensures Step1a(w) == w
  {
    forall i | 0 <= i < 4 ensures Step1aEntry(i).s == Step1aRule(i).suffix && !EndsWith(w, Step1aEntry(i).s) {
      var s := Step1aEntry(i).s;
      assert s[|s| - 1] == 's';
      if EndsWith(w, s) { LastSymbol(w, s); }
    }
    NoRule(Step1aEntry, Step1aRule, 4, w, 0);
  }

  method RStep1a(z: Env) returns (ret: int)
    requires Ready(z)
    modifies z`p, z`size, z`capacity, z`l, z`c, z`bra, z`ket, z.p
    ensures z.Valid() && (z.p == old(z.p) || fresh(z.p))
    ensures ret >= 0 && z.Text() == Step1a(old(z.Text()))
  {
    z.ket := z.c;
    if z.c <= z.lb || z.p[z.c - 1] != 's' { Step1aGuard(z.Text()); return 0; }
    Step1aTableOk();
    Step1aSameRules();
    var amongVar := LookupRule(z, Step1aEntry, Step1aSwitch, Step1aRule, 4, 0);
    if amongVar == 0 { return 0; }
    z.bra := z.c;
    ret := Act(z, Step1aSwitch(amongVar));
    if ret < 0 { return; }
    ret := 1;
  }

  function Step2Switch(amongVar: int): Option<string> {
    if amongVar == 1 then Some("tion") else
    if amongVar == 2 then Some("ence") else
    if amongVar == 3 then Some("ance") else
    if amongVar == 4 then Some("able") else
    if amongVar == 5 then Some("ent") else
    if amongVar == 6 then Some("e") else
    if amongVar == 7 then Some("ize") else
    if amongVar == 8 then Some("ate") else
    if amongVar == 9 then Some("al") else
    if amongVar == 10 then Some("al") else
    if amongVar == 11 then Some("ful") else
    if amongVar == 12 then Some("ous") else
    if amongVar == 13 then Some("ive") else
    if amongVar == 14 then Some("ble") else None
  }

  lemma Step2SameRules()
    ensures SameRules(Step2Entry, Step2Switch, Step2Rule, 20)
  {
  }

  method RStep2(z: Env) returns (ret: int)
    requires Ready(z) && |z.I| == 2 && z.I[0] >= 0
    modifies z`p, z`size, z`capacity, z`l, z`c, z`bra, z`ket, z.p
    ensures z.Valid() && (z.p == old(z.p) || fresh(z.p))
    ensures ret >= 0 && z.Text() == Step2(old(z.Text()), z.I[0])
  {
    z.ket := z.c;
    Step2SameRules();
    if z.c - 2 <= z.lb || !MaskAllows(815616, z.p[z.c - 1]) {
      Step2Covered();
      GuardHarmless(Step2Entry, 0, 20, 2, 815616, z.Text());
      NoRule(Step2Entry, Step2Rule, 20, z.Text(), z.I[0]);
      return 0;
    }
    Step2TableOk();
    var amongVar := LookupRule(z, Step2Entry, Step2Switch, Step2Rule, 20, z.I[0]);
    if amongVar == 0 { return 0; }
    z.bra := z.c;
    if !(z.I[0] <= z.c) { return 0; }
    ret := Act(z, Step2Switch(amongVar));
    if ret < 0 { return; }
    ret := 1;
  }

  function Step3Switch(amongVar: int): Option<string> {
    if amongVar == 1 then Some("al") else if amongVar == 2 then Some("ic") else if amongVar == 3 then Some("") else None
  }

  lemma Step3SameRules()
    ensures SameRules(Step3Entry, Step3Switch, Step3Rule, 7)
  {
  }

  method RStep3(z: Env) returns (ret: int)
    requires Ready(z) && |z.I| == 2 && z.I[0] >= 0
    modifies z`p, z`size, z`capacity, z`l, z`c, z`bra, z`ket, z.p
    ensures z.Valid() && (z.p == old(z.p) || fresh(z.p))
    ensures ret >= 0 && z.Text() == Step3(old(z.Text()), z.I[0])
  {
    z.ket := z.c;
    Step3SameRules();
    if z.c - 2 <= z.lb || !MaskAllows(528928, z.p[z.c - 1]) {
      Step3Covered();
      GuardHarmless(Step3Entry, 0, 7, 2, 528928, z.Text());
      NoRule(Step3Entry, Step3Rule, 7, z.Text(), z.I[0]);
      return 0;
    }
    Step3TableOk();
    var amongVar := LookupRule(z, Step3Entry, Step3Switch, Step3Rule, 7, z.I[0]);
    if amongVar == 0 { return 0; }
    z.bra := z.c;
    if !(z.I[0] <= z.c) { return 0; }
    ret := Act(z, Step3Switch(amongVar));
    if ret < 0 { return; }
    ret := 1;
  }

  /** One symbol or the other before the cursor. */
  method EqEither(z: Env, a: string, b: string) returns (ok: bool)
    requires z.Valid() && z.lb == 0 <= z.c <= z.l && |a| == |b| == 1
    modifies z`c
    ensures var w := z.Text()[..old(z.c)]; ok == (EndsWith(w, a) || EndsWith(w, b))
    ensures z.c == if ok then old(z.c) - 1 else old(z.c)
  {
    assert z.Text()[z.lb..z.c] == z.Text()[..z.c];
    var m1 := z.l - z.c;
    ok := z.EqSB(a);
    if !ok {
      z.c := z.l - m1;
      ok := z.EqSB(b);
    }
  }

  lemma Step4Same(i: int)
    requires 0 <= i < 19
    ensures Step4Entry(i).s == Step4Suffix(i)
    ensures Step4Entry(i).result == if Step4Suffix(i) == "ion" then 2 else 1
  {
    var s := Step4Suffix(i);
    assert i != 11 ==> |s| != 3 || s[1] != 'o';
  }

  lemma Step4Guard(w: string, p2: nat)
    requires |w| <= 1 || !MaskAllows(3961384, w[|w| - 1])
    ensures Step4(w, p2) == w
  {
    Step4Covered();
    GuardHarmless(Step4Entry, 0, 19, 1, 3961384, w);
    var b := LongestSuffix(Step4Suffix, 19, w);
    if b >= 0 { Step4Same(b); }
  }

  method LookupStep4(z: Env, ghost p2: nat) returns (amongVar: int)
    requires Ready(z)
    modifies z`c
    ensures amongVar == 0 ==> Step4(z.Text(), p2) == z.Text()
    ensures amongVar != 0 ==>
              && 0 <= z.c <= z.l && (amongVar == 1 || amongVar == 2)
              && var stem := z.Text()[..z.c];
                 Step4(z.Text(), p2) ==
                 if z.c < p2 || (amongVar == 2 && !EndsWith(stem, "s") && !EndsWith(stem, "t")) then z.Text() else stem
  {
    Step4TableOk();
    amongVar := Lookup(z, Step4Entry, 19);
    ghost var w := z.Text();
    forall i | 0 <= i < 19 ensures Suffixes(Step4Entry)(i) == Step4Suffix(i) { Step4Same(i); }
    SameSuffixes(Suffixes(Step4Entry), Step4Suffix, 19, w);
    ghost var b := LongestSuffix(Step4Suffix, 19, w);
    if b >= 0 { Step4Same(b); }
  }

  method RStep4(z: Env) returns (ret: int)
    requires Ready(z) && |z.I| == 2 && z.I[1] >= 0
    modifies z`p, z`size, z`capacity, z`l, z`c, z`bra, z`ket, z.p
    ensures z.Valid() && (z.p == old(z.p) || fresh(z.p))
    ensures ret >= 0 && z.Text() == Step4(old(z.Text()), z.I[1])
  {
    z.ket := z.c;
    if z.c - 1 <= z.lb || !MaskAllows(3961384, z.p[z.c - 1]) { Step4Guard(z.Text(), z.I[1]); return 0; }
    var amongVar := LookupStep4(z, z.I[1]);
    if amongVar == 0 { return 0; }
    z.bra := z.c;
    if !(z.I[1] <= z.c) { return 0; }
    if amongVar == 2 {
      var ok := EqEither(z, "s", "t");
      if !ok { return 0; }
    }
    ret := ReplaceSuffix(z, "");
    if ret < 0 { return; }
    ret := 1;
  }

  /** shortv: consonant, vowel, consonant other than w, x, Y, read leftwards from the cursor. */
  method RShortV(z: Env) returns (ok: bool)
    requires z.Valid() && z.lb == 0 <= z.c <= z.l
    modifies z`c
    ensures 0 <= z.c <= z.l && ok == ShortV(z.Text()[..old(z.c)])
  {
    ghost var w, n := z.Text()[..z.c], z.c;
    if n >= 1 { GroupIsVowelsWXY(w[n - 1]); }
    if n >= 2 { GroupIsVowels(w[n - 2]); }
    if n >= 3 { GroupIsVowels(w[n - 3]); }
    var ret := z.StepBackGroup(GVWXY, 89, 121, false);
    if ret != 0 { return false; }
    ret := z.StepBackGroup(GV, 97, 121, true);
    if ret != 0 { return false; }
    ret := z.StepBackGroup(GV, 97, 121, false);
    ok := ret == 0;
  }

  method RStep5a(z: Env) returns (ret: int)
    requires Ready(z) && |z.I| == 2 && z.I[0] >= 0 && z.I[1] >= 0
    modifies z`p, z`size, z`capacity, z`l, z`c, z`bra, z`ket, z.p
    ensures z.Valid() && (z.p == old(z.p) || fresh(z.p))
    ensures ret >= 0 && z.Text() == Step5a(old(z.Text()), z.I[0], z.I[1])
  {
    assert z.Text()[z.lb..z.c] == z.Text();
    z.ket := z.c;
    var ok := z.EqSB("e");
    if !ok { return 0; }
    z.bra := z.c;
    var m1 := z.l - z.c;
    if !(z.I[1] <= z.c) {
      z.c := z.l - m1;
      if !(z.I[0] <= z.c) { return 0; }
      var m2 := z.l - z.c;
      var short := RShortV(z);
      if short { return 0; }
      z.c := z.l - m2;
    }
    ret := ReplaceSuffix(z, "");
    if ret < 0 { return; }
    ret := 1;
  }

  /** The last letter before k is an l. */
  predicate LBefore(w: string, k: int) {
    0 < k <= |w| && w[k - 1] == 'l'
  }

  lemma EndsWithL(w: string, k: nat)
    requires k <= |w|
    ensures EndsWith(w[0..k], "l") <==> LBefore(w, k)
  {
    if k > 0 {
      assert w[0..k][k - 1..] == [w[k - 1]];
      assert "l" == ['l'];
    }
  }

  lemma EndsWithTwo(w: string)
    ensures EndsWith(w, "ll") <==> LBefore(w, |w|) && LBefore(w, |w| - 1)
  {
    if |w| > 1 {
      assert w[|w| - 2..] == [w[|w| - 2], w[|w| - 1]];
      assert "ll" == ['l', 'l'];
    }
  }

  /** eq_s_b with a single l. */
  method EqL(z: Env) returns (ok: bool)
    requires z.Valid() && z.lb == 0 <= z.c <= z.l
    modifies z`c
    ensures ok == LBefore(z.Text(), old(z.c)) && z.c == if ok then old(z.c) - 1 else old(z.c)
  {
    EndsWithL(z.Text(), z.c);
    ok := z.EqSB("l");
  }

  /** The test of step 5b: a double l, the second one inside region R2; bra and ket enclose it. */
  method MarkDoubleL(z: Env) returns (ok: bool)
    requires Ready(z) && |z.I| == 2 && z.I[1] >= 0
    modifies z`c, z`bra, z`ket
    ensures ok == (EndsWith(z.Text(), "ll") && z.I[1] <= z.l - 1)
    ensures ok ==> z.bra == z.l - 1 >= 0 && z.ket == z.l
  {
    EndsWithTwo(z.Text());
    z.ket := z.c;
    ok := EqL(z);
    if !ok { return; }
    z.bra := z.c;
    if !(z.I[1] <= z.c) { return false; }
    ok := EqL(z);
  }

  method RStep5b(z: Env) returns (ret: int)
    requires Ready(z) && |z.I| == 2 && z.I[1] >= 0
    modifies z`p, z`size, z`capacity, z`l, z`c, z`bra, z`ket, z.p
    ensures z.Valid() && (z.p == old(z.p) || fresh(z.p))
    ensures ret >= 0 && z.Text() == Step5b(old(z.Text()), z.I[1])
  {
    var ok := MarkDoubleL(z);
    if !ok { return 0; }
    ret := ReplaceSuffix(z, "");
    if ret < 0 { return; }
    ret := 1;
  }

  // ---------------------------------------------------------------- steps 1b and 1c

  /** out_grouping_b(g_v) with repeat finds a vowel exactly when there is one, and stays inside. */
  method BackToVowel(z: Env) returns (ret: int)
    requires z.Valid() && z.lb == 0 <= z.c <= z.l
    modifies z`c
    ensures 0 <= z.c <= old(z.c)
    ensures ret == if HasVowel(z.Text()[..old(z.c)]) then 1 else -1
    ensures ret == 1 ==> z.c >= 1
  {
    ghost var w := z.Text()[..z.c];
    ret := z.SkipBackToGroup(GV, 97, 121);
    forall k | 0 <= k < |w| ensures InGroup(GV, 97, 121, w[k]) <==> IsVowel(w[k]) { GroupIsVowels(w[k]); }
    if ret == 1 { assert IsVowel(w[z.c - 1]); }
  }

  method RStep1c(z: Env) returns (ret: int)
    requires Ready(z)
    modifies z`p, z`size, z`capacity, z`l, z`c, z`bra, z`ket, z.p
    ensures z.Valid() && (z.p == old(z.p) || fresh(z.p))
    ensures ret >= 0 && z.Text() == Step1c(old(z.Text()))
  {
    assert z.Text()[..z.c] == z.Text();
    z.ket := z.c;
    var ok := EqEither(z, "y", "Y");
    if !ok { return 0; }
    z.bra := z.c;
    ret := BackToVowel(z);
    if ret < 0 { return 0; }
    z.c := z.c - ret;
    ret := ReplaceSuffix(z, "i");
    if ret < 0 { return; }
    ret := 1;
  }

  lemma TidyEntryFacts(i: int)
    requires 1 <= i < 13
    ensures var a := Step1bTidyEntry(i);
            |a.s| == 2 &&
            (if a.s == "at" || a.s == "bl" || a.s == "iz" then a.result == 1
             else a.result == 2 && a.s[0] == a.s[1] && a.s[1] in "bdfgmnprt")
  {
    var s := Step1bTidyEntry(i).s;
    assert s == [s[0], s[1]];
  }

  lemma TidyEntryFor(w: string) returns (i: int)
    requires EndsWith(w, "at") || EndsWith(w, "bl") || EndsWith(w, "iz") || DoubleConsonant(w)
    ensures 1 <= i < 13 && EndsWith(w, Step1bTidyEntry(i).s)
  {
    if EndsWith(w, "at") { return 10; }
    if EndsWith(w, "bl") { return 5; }
    if EndsWith(w, "iz") { return 12; }
    var ch := w[|w| - 1];
    i := if ch == 'b' then 1 else if ch == 'd' then 2 else if ch == 'f' then 3 else if ch == 'g' then 4
         else if ch == 'm' then 6 else if ch == 'n' then 7 else if ch == 'p' then 8 else if ch == 'r' then 9 else 11;
    assert w[|w| - 2..] == [ch, ch] == Step1bTidyEntry(i).s;
  }

  /** Result 1 exactly after at, bl or iz, result 2 exactly after a double consonant, 3 otherwise. */
  lemma TidyByTable(w: string)
    ensures var b := LongestSuffix(Suffixes(Step1bTidyEntry), 13, w);
            b >= 0 &&
            Step1bTidyEntry(b).result ==
            if EndsWith(w, "at") || EndsWith(w, "bl") || EndsWith(w, "iz") then 1 else if DoubleConsonant(w) then 2 else 3
  {
    var f := Suffixes(Step1bTidyEntry);
    var b := LongestSuffix(f, 13, w);
    assert EndsWith(w, f(0));
    LongestSuffixIsLongest(f, 13, w, 0);
    if EndsWith(w, "at") || EndsWith(w, "bl") || EndsWith(w, "iz") || DoubleConsonant(w) {
      var i := TidyEntryFor(w);
      TidyEntryFacts(i);
      assert f(i) == Step1bTidyEntry(i).s;
      LongestSuffixIsLongest(f, 13, w, i);
      assert b != 0;
    }
    if b >= 1 {
      TidyEntryFacts(b);
      assert EndsWith(w, Step1bTidyEntry(b).s);
    }
  }

  /** The guard of the second lookup of step 1b stands for the default result 3. */
  lemma TidyGuard(w: string)
    requires |w| <= 1 || !MaskAllows(68514004, w[|w| - 1])
    ensures !EndsWith(w, "at") && !EndsWith(w, "bl") && !EndsWith(w, "iz") && !DoubleConsonant(w)
  {
    Step1bTidyCovered();
    GuardHarmless(Step1bTidyEntry, 1, 13, 1, 68514004, w);
    if EndsWith(w, "at") || EndsWith(w, "bl") || EndsWith(w, "iz") || DoubleConsonant(w) {
      var i := TidyEntryFor(w);
    }
  }

  method LookupTidy(z: Env) returns (amongVar: int)
    requires Ready(z)
    modifies z`c
    ensures 0 <= z.c <= z.l
    ensures var w := z.Text();
            amongVar ==
            if EndsWith(w, "at") || EndsWith(w, "bl") || EndsWith(w, "iz") then 1 else if DoubleConsonant(w) then 2 else 3
  {
    ghost var w := z.Text();
    if z.c - 1 <= z.lb || !MaskAllows(68514004, z.p[z.c - 1]) {
      TidyGuard(w);
      amongVar := 3;
    } else {
      Step1bTidyTableOk();
      amongVar := Lookup(z, Step1bTidyEntry, 13);
      TidyByTable(w);
    }
  }

  /** insert_s of e at the cursor, which is at the end of the word and stays put. */
  method AppendE(z: Env) returns (ret: int)
    requires Ready(z)
    modifies z`p, z`size, z`capacity, z`l, z`c, z`bra, z`ket, z.p
    ensures z.Valid() && (z.p == old(z.p) || fresh(z.p)) && z.c == old(z.c)
    ensures ret == 0 && z.Text() == old(z.Text()) + "e"
  {
    var cKeep := z.c;
    ret := z.InsertS(z.c, z.c, "e");
    z.c := cKeep;
  }

  /** The part of step 1b after ed or ing has been removed. */
  method RTidy(z: Env) returns (ret: int)
    requires Ready(z) && |z.I| == 2 && z.I[0] >= 0
    modifies z`p, z`size, z`capacity, z`l, z`c, z`bra, z`ket, z.p
    ensures z.Valid() && (z.p == old(z.p) || fresh(z.p))
    ensures ret >= 0 && z.Text() == Tidy(old(z.Text()), z.I[0])
  {
    ghost var w := z.Text();
    assert w[..z.l] == w;
    var mTest := z.l - z.c;
    var amongVar := LookupTidy(z);
    if amongVar == 0 { return 0; }
    z.c := z.l - mTest;
    if amongVar == 1 {
      ret := AppendE(z);
      if ret < 0 { return; }
    } else if amongVar == 2 {
      z.ket := z.c;
      if z.c <= z.lb { return 0; }
      z.c := z.c - 1;
      z.bra := z.c;
      ret := ReplaceSuffix(z, "");
      if ret < 0 { return; }
    } else if amongVar == 3 {
      if z.c != z.I[0] { return 0; }
      mTest := z.l - z.c;
      var short := RShortV(z);
      if !short { return 0; }
      z.c := z.l - mTest;
      ret := AppendE(z);
      if ret < 0 { return; }
    }
    ret := 1;
  }

  lemma Step1bLongest(w: string)
    ensures LongestSuffix(Suffixes(Step1bEntry), 3, w) ==
            if EndsWith(w, "eed") then 1 else if EndsWith(w, "ed") then 0 else if EndsWith(w, "ing") then 2 else -1
  {
    var f := Suffixes(Step1bEntry);
    assert f(0) == "ed" && f(1) == "eed" && f(2) == "ing";
    assert LongestSuffix(f, 0, w) == -1;
    assert LongestSuffix(f, 1, w) == if EndsWith(w, "ed") then 0 else -1;
    assert LongestSuffix(f, 2, w) == if EndsWith(w, "eed") then 1 else LongestSuffix(f, 1, w);
    if EndsWith(w, "ing") { LastSymbol(w, "ing"); }
    if EndsWith(w, "ed") { LastSymbol(w, "ed"); }
    if EndsWith(w, "eed") { LastSymbol(w, "eed"); }
  }

  lemma Step1bGuard(w: string, p1: nat)
    requires |w| <= 1 || (w[|w| - 1] != 'd' && w[|w| - 1] != 'g')
    ensures Step1b(w, p1) == w
  {
    if EndsWith(w, "ing") { LastSymbol(w, "ing"); }
    if EndsWith(w, "ed") { LastSymbol(w, "ed"); }
    if EndsWith(w, "eed") { LastSymbol(w, "eed"); }
  }

  method LookupStep1b(z: Env, ghost p1: nat) returns (amongVar: int)
    requires Ready(z)
    modifies z`c
    ensures amongVar == 0 ==> Step1b(z.Text(), p1) == z.Text()
    ensures amongVar != 0 ==> 0 <= z.c <= z.l && (amongVar == 1 || amongVar == 2)
    ensures amongVar == 1 ==> Step1b(z.Text(), p1) == if p1 <= z.c then z.Text()[..z.c] + "ee" else z.Text()
    ensures amongVar == 2 ==>
              Step1b(z.Text(), p1) == if HasVowel(z.Text()[..z.c]) then Tidy(z.Text()[..z.c], p1) else z.Text()
  {
    ghost var w := z.Text();
    Step1bTableOk();
    amongVar := Lookup(z, Step1bEntry, 3);
    Step1bLongest(w);
    if EndsWith(w, "eed") {
      assert Cut(w, 1) == Cut(w, 3) + "ee";
    }
  }

  /** slice_del with the cursor at the slice: backward mode again, on the shortened word. */
  method CutHere(z: Env) returns (ret: int)
    requires z.Valid() && z.lb == 0 <= z.c == z.bra <= z.ket == z.l
    modifies z`p, z`size, z`capacity, z`l, z`c, z.p
    ensures Ready(z) && (z.p == old(z.p) || fresh(z.p))
    ensures ret == 0 && z.Text() == old(z.Text())[..z.bra]
  {
    ret := z.SliceDel();
  }

  method RStep1b(z: Env) returns (ret: int)
    requires Ready(z) && |z.I| == 2 && z.I[0] >= 0
    modifies z`p, z`size, z`capacity, z`l, z`c, z`bra, z`ket, z.p
    ensures z.Valid() && (z.p == old(z.p) || fresh(z.p))
    ensures ret >= 0 && z.Text() == Step1b(old(z.Text()), z.I[0])
  {
    z.ket := z.c;
    if z.c - 1 <= z.lb || (z.p[z.c - 1] != 'd' && z.p[z.c - 1] != 'g') { Step1bGuard(z.Text(), z.I[0]); return 0; }
    var amongVar := LookupStep1b(z, z.I[0]);
    if amongVar == 0 { return 0; }
    z.bra := z.c;
    if amongVar == 1 {
      if !(z.I[0] <= z.c) { return 0; }
      ret := ReplaceSuffix(z, "ee");
      if ret < 0 { return; }
    } else if amongVar == 2 {
      var mTest := z.l - z.c;
      ret := BackToVowel(z);
      if ret < 0 { return 0; }
      z.c := z.c - ret;
      z.c := z.l - mTest;
      ret := CutHere(z);
      if ret < 0 { return; }
      ret := RTidy(z);
    }
  }

  // ---------------------------------------------------------------- the whole stemmer

  lemma {:induction false} MarkFromAt(afterVowel: bool, w: string, i: nat)
    requires i < |w|
    ensures var m := MarkFrom(afterVowel, w);
            m[i] == if w[i] == 'y' && (if i == 0 then afterVowel else IsVowel(m[i - 1])) then 'Y' else w[i]
    decreases i
  {
    if i > 0 {
      var marked := w[0] == 'y' && afterVowel;
      MarkFromAt(if marked then false else IsVowel(w[0]), w[1..], i - 1);
    }
  }

  /** The first k symbols carry their marks, the others are untouched. */
  ghost predicate MarkedUpTo(t: string, w: string, k: nat) {
    k <= |w| && t == Mark(w)[..k] + w[k..]
  }

  /** A vowel followed by y: the second symbol is a consonant. */
  predicate VowelY(t: string, j: int) {
    0 <= j < |t| - 1 && IsVowel(t[j]) && t[j + 1] == 'y'
  }

  /** Where no y follows a vowel there is nothing to mark. */
  lemma {:induction false} MarksSkip(t: string, w: string, k: nat, x: nat)
    requires 1 <= k <= x <= |w| && MarkedUpTo(t, w, k)
    requires forall j :: k - 1 <= j < x - 1 ==> !VowelY(t, j)
    ensures MarkedUpTo(t, w, x)
    decreases x - k
  {
    if k < x {
      MarkFromAt(true, w, k);
      assert !VowelY(t, k - 1);
      assert Mark(w)[..k + 1] == Mark(w)[..k] + [Mark(w)[k]] && w[k..] == [w[k]] + w[k + 1..];
      MarksSkip(t, w, k + 1, x);
    }
  }

  /** A y after a vowel is where the next mark goes. */
  lemma MarkNext(t: string, w: string, x: nat)
    requires 1 <= x < |w| && MarkedUpTo(t, w, x) && VowelY(t, x - 1)
    ensures MarkedUpTo(Splice(t, x, x + 1, "Y"), w, x + 1)
    ensures w[x] == 'y'
  {
    MarkFromAt(true, w, x);
    assert t[x] == w[x] && t[x - 1] == Mark(w)[x - 1];
    assert Mark(w)[..x + 1] == Mark(w)[..x] + ['Y'];
  }

  /** The initial y. */
  method MarkInitial(z: Env) returns (ret: int)
    requires z.Valid() && z.c == 0 && |z.B| == 1
    modifies z`p, z`size, z`capacity, z`l, z`c, z`bra, z`ket, z`B, z.p
    ensures z.Valid() && (z.p == old(z.p) || fresh(z.p)) && z.c == 0 && |z.B| == 1
    ensures ret >= 0
    ensures MarkedUpTo(z.Text(), old(z.Text()), if z.l == 0 then 0 else 1)
    ensures z.B[0] == (z.Text() != old(z.Text()))
  {
    ghost var w := z.Text();
    if w != [] { MarkFromAt(true, w, 0); }
    z.B := z.B[0 := false];
    z.bra := z.c;
    ret := 0;
    var ok := z.EqS("y");
    if ok {
      z.ket := z.c;
      ret := z.SliceFromS("Y");
      if ret < 0 { return; }
      z.B := z.B[0 := true];
    }
    z.c := 0;
  }

  /** goto (v 'y'): the cursor moves to the first vowel followed by y, with the slice on the y. */
  method GotoVowelY(z: Env) returns (found: bool)
    requires z.Valid() && 0 <= z.c <= z.l
    modifies z`c, z`bra, z`ket
    ensures old(z.c) <= z.c <= z.l
    ensures forall j :: old(z.c) <= j < z.c ==> !VowelY(z.Text(), j)
    ensures if found then VowelY(z.Text(), z.c) && z.bra == z.c + 1 && z.ket == z.c + 2 else z.c == z.l
  {
    ghost var t := z.Text();
    while true
      invariant old(z.c) <= z.c <= z.l && z.Text() == t
      invariant forall j :: old(z.c) <= j < z.c ==> !VowelY(t, j)
      decreases z.l - z.c
    {
      var c4 := z.c;
      if c4 < z.l { GroupIsVowels(t[c4]); }
      var ret := z.StepInGroup(GV, 97, 121);
      if ret == 0 {
        z.bra := z.c;
        var ok := z.EqS("y");
        assert ok <==> c4 + 1 < |t| && t[c4 + 1] == 'y';
        if ok {
          z.ket := z.c;
          z.c := c4;
          return true;
        }
      }
      z.c := c4;
      if z.c >= z.l { return false; }
      z.c := z.c + 1;
    }
  }

  /** Marks are set up to k, and nothing between the cursor and k is left to mark. */
  ghost predicate Marking(t: string, w: string, c: int, k: nat) {
    && MarkedUpTo(t, w, k) && 0 <= c <= |w|
    && (if w == [] then k == 0 else 1 <= k) && k <= c + 2 && (if c < |w| then c + 1 <= k else k == |w|)
    && (k == c + 2 ==> !VowelY(t, c))
  }

  lemma MarkingDone(t: string, w: string, c: int, k: nat)
    requires Marking(t, w, c, k) && forall j :: c <= j < |t| ==> !VowelY(t, j)
    ensures t == Mark(w)
  {
    if k < |w| { MarksSkip(t, w, k, |w|); }
  }

  lemma MarkingStep(t: string, w: string, c: int, k: nat, x: int)
    requires Marking(t, w, c, k) && c <= x && VowelY(t, x) && forall j :: c <= j < x ==> !VowelY(t, j)
    ensures k < x + 2 <= |w| == |t|
    ensures var u := Splice(t, x + 1, x + 2, "Y"); Marking(u, w, x, x + 2) && u != w
  {
    MarksSkip(t, w, k, x + 1);
    MarkNext(t, w, x + 1);
    assert Splice(t, x + 1, x + 2, "Y")[x + 1] == 'Y';
  }

  /** goto (v [ 'y' ]) <- 'Y', once. */
  method MarkOne(z: Env, ghost w: string, ghost k: nat) returns (found: bool)
    requires z.Valid() && |z.B| == 1 && Marking(z.Text(), w, z.c, k) && z.B[0] == (z.Text() != w)
    modifies z`p, z`size, z`capacity, z`l, z`c, z`bra, z`ket, z`B, z.p
    ensures z.Valid() && (z.p == old(z.p) || fresh(z.p)) && |z.B| == 1 && z.B[0] == (z.Text() != w)
    ensures found ==> k < z.c + 2 <= |w| && Marking(z.Text(), w, z.c, z.c + 2)
    ensures !found ==> z.Text() == Mark(w)
  {
    ghost var t, c := z.Text(), z.c;
    found := GotoVowelY(z);
    assert z.Text() == t;
    if found {
      MarkingStep(t, w, c, k, z.c);
      var ret := z.SliceFromS("Y");
      assert ret == 0;
      z.B := z.B[0 := true];
    } else {
      MarkingDone(t, w, c, k);
    }
  }

  /** repeat (goto (v [ 'y' ]) <- 'Y'): every y after a vowel is marked. */
  method MarkRest(z: Env, ghost w: string)
    requires z.Valid() && z.c == 0 && |z.B| == 1
    requires MarkedUpTo(z.Text(), w, if z.l == 0 then 0 else 1) && z.B[0] == (z.Text() != w)
    modifies z`p, z`size, z`capacity, z`l, z`c, z`bra, z`ket, z`B, z.p
    ensures z.Valid() && (z.p == old(z.p) || fresh(z.p)) && z.c == 0 && |z.B| == 1
    ensures z.Text() == Mark(w) && z.B[0] == (Mark(w) != w)
  {
    ghost var k := if z.l == 0 then 0 else 1;
    var c2 := z.c;
    while true
      invariant z.Valid() && (z.p == old(z.p) || fresh(z.p)) && |z.B| == 1
      invariant Marking(z.Text(), w, z.c, k) && z.B[0] == (z.Text() != w)
      decreases |w| - k
    {
      var found := MarkOne(z, w, k);
      if !found { break; }
      k := z.c + 2;
    }
    z.c := c2;
  }

  lemma {:induction false} SeekSame(t: string, i: nat, vowel: bool)
    requires i <= |t|
    ensures SeekForward(GV, 97, 121, t, i, vowel) == Seek(t, i, vowel)
    decreases |t| - i
  {
    if i < |t| {
      GroupIsVowels(t[i]);
      if IsVowel(t[i]) != vowel { SeekSame(t, i + 1, vowel); }
    }
  }

  /** gopast v gopast non-v: the cursor moves past the next vowel-consonant pair, or the search fails. */
  method GopastVC(z: Env) returns (ok: bool)
    requires z.Valid() && 0 <= z.c <= z.l
    modifies z`c
    ensures 0 <= z.c <= z.l
    ensures ok ==> z.c == AfterVC(z.Text(), old(z.c))
    ensures !ok ==> AfterVC(z.Text(), old(z.c)) == z.l
  {
    SeekSame(z.Text(), z.c, true);
    var ret := z.SkipGroup(GV, 97, 121, true);
    if ret < 0 { return false; }
    z.c := z.c + ret;
    SeekSame(z.Text(), z.c, false);
    ret := z.SkipGroup(GV, 97, 121, false);
    if ret < 0 { return false; }
    z.c := z.c + ret;
    ok := true;
  }

  method SetRegions(z: Env)
    requires z.Valid() && z.c == 0 && |z.I| == 2
    modifies z`c, z`I
    ensures z.c == 0 && z.I == [P1(z.Text()), P2(z.Text())]
  {
    z.I := [z.l, z.l];
    var c5 := z.c;
    var ok := GopastVC(z);
    if ok {
      z.I := z.I[0 := z.c];
      ok := GopastVC(z);
      if ok { z.I := z.I[1 := z.c]; }
    }
    z.c := c5;
  }

  /** goto 'Y': the cursor moves to the first Y, with the slice on it. */
  method GotoY(z: Env) returns (found: bool)
    requires z.Valid() && 0 <= z.c <= z.l
    modifies z`c, z`bra, z`ket
    ensures old(z.c) <= z.c <= z.l
    ensures forall j :: old(z.c) <= j < z.c ==> z.Text()[j] != 'Y'
    ensures if found then z.c < z.l && z.Text()[z.c] == 'Y' && z.bra == z.c && z.ket == z.c + 1 else z.c == z.l
  {
    ghost var t := z.Text();
    while true
      invariant old(z.c) <= z.c <= z.l && z.Text() == t
      invariant forall j :: old(z.c) <= j < z.c ==> t[j] != 'Y'
      decreases z.l - z.c
    {
      var c16 := z.c;
      z.bra := z.c;
      var ok := z.EqS("Y");
      assert ok <==> c16 < |t| && t[c16] == 'Y';
      if ok {
        z.ket := z.c;
        z.c := c16;
        return true;
      }
      z.c := c16;
      if z.c >= z.l { return false; }
      z.c := z.c + 1;
    }
  }

  /** Symbols before k are unmarked, the others are as they were. */
  ghost predicate UnmarkedUpTo(t: string, r: string, c: int, k: nat) {
    && 0 <= c <= k <= |r| == |t|
    && (forall j :: 0 <= j < k ==> t[j] == Unmark(r)[j])
    && (forall j :: k <= j < |r| ==> t[j] == r[j])
    && forall j :: c <= j < k ==> t[j] != 'Y'
  }

  method UnmarkOne(z: Env, ghost r: string, ghost k: nat) returns (found: bool)
    requires z.Valid() && UnmarkedUpTo(z.Text(), r, z.c, k)
    modifies z`p, z`size, z`capacity, z`l, z`c, z`bra, z`ket, z.p
    ensures z.Valid() && (z.p == old(z.p) || fresh(z.p))
    ensures found ==> k <= z.c && UnmarkedUpTo(z.Text(), r, z.c, z.c + 1)
    ensures !found ==> z.Text() == Unmark(r)
  {
    ghost var t := z.Text();
    found := GotoY(z);
    assert z.Text() == t;
    if found {
      var ret := z.SliceFromS("y");
      assert ret == 0;
    }
  }

  /** repeat (goto [ 'Y' ] <- 'y') when a y was marked. */
  method UnmarkAll(z: Env)
    requires z.Valid() && z.c == 0 && |z.B| == 1
    modifies z`p, z`size, z`capacity, z`l, z`c, z`bra, z`ket, z.p
    ensures z.Valid() && (z.p == old(z.p) || fresh(z.p)) && z.c == 0
    ensures z.Text() == if z.B[0] then Unmark(old(z.Text())) else old(z.Text())
  {
    var c14 := z.c;
    if z.B[0] {
      ghost var r, k := z.Text(), 0;
      while true
        invariant z.Valid() && (z.p == old(z.p) || fresh(z.p))
        invariant UnmarkedUpTo(z.Text(), r, z.c, k)
        decreases |r| - k
      {
        var found := UnmarkOne(z, r, k);
        if !found { break; }
        k := z.c + 1;
      }
    }
    z.c := c14;
  }

  /** Steps 1a to 1c, each started with the cursor at the end of the word. */
  method RFirstSteps(z: Env) returns (ret: int)
    requires Ready(z) && |z.I| == 2 && z.I[0] >= 0 && z.I[1] >= 0
    modifies z`p, z`size, z`capacity, z`l, z`c, z`bra, z`ket, z.p
    ensures z.Valid() && (z.p == old(z.p) || fresh(z.p))
    ensures ret >= 0 && z.Text() == FirstSteps(old(z.Text()), z.I[0])
  {
    ret := RStep1a(z);
    if ret < 0 { return; }
    z.c := z.l;
    ret := RStep1b(z);
    if ret < 0 { return; }
    z.c := z.l;
    ret := RStep1c(z);
  }

  /** Steps 2 to 4. */
  method RMiddleSteps(z: Env) returns (ret: int)
    requires Ready(z) && |z.I| == 2 && z.I[0] >= 0 && z.I[1] >= 0
    modifies z`p, z`size, z`capacity, z`l, z`c, z`bra, z`ket, z.p
    ensures z.Valid() && (z.p == old(z.p) || fresh(z.p))
    ensures ret >= 0 && z.Text() == MiddleSteps(old(z.Text()), z.I[0], z.I[1])
  {
    ret := RStep2(z);
    if ret < 0 { return; }
    z.c := z.l;
    ret := RStep3(z);
    if ret < 0 { return; }
    z.c := z.l;
    ret := RStep4(z);
  }

  /** Steps 5a and 5b. */
  method RLastSteps(z: Env) returns (ret: int)
    requires Ready(z) && |z.I| == 2 && z.I[0] >= 0 && z.I[1] >= 0
    modifies z`p, z`size, z`capacity, z`l, z`c, z`bra, z`ket, z.p
    ensures z.Valid() && (z.p == old(z.p) || fresh(z.p))
    ensures ret >= 0 && z.Text() == LastSteps(old(z.Text()), z.I[0], z.I[1])
  {
    ret := RStep5a(z);
    if ret < 0 { return; }
    z.c := z.l;
    ret := RStep5b(z);
  }

  /** Steps 1a to 4. */
  method RFirstAndMiddle(z: Env) returns (ret: int)
    requires Ready(z) && |z.I| == 2 && z.I[0] >= 0 && z.I[1] >= 0
    modifies z`p, z`size, z`capacity, z`l, z`c, z`bra, z`ket, z.p
    ensures z.Valid() && (z.p == old(z.p) || fresh(z.p))
    ensures ret >= 0 && z.Text() == MiddleSteps(FirstSteps(old(z.Text()), z.I[0]), z.I[0], z.I[1])
  {
    ret := RFirstSteps(z);
    if ret < 0 { return; }
    z.c := z.l;
    ret := RMiddleSteps(z);
  }

  /** All of them. */
  method REightSteps(z: Env) returns (ret: int)
    requires Ready(z) && |z.I| == 2 && z.I[0] >= 0 && z.I[1] >= 0
    modifies z`p, z`size, z`capacity, z`l, z`c, z`bra, z`ket, z.p
    ensures z.Valid() && (z.p == old(z.p) || fresh(z.p))
    ensures ret >= 0 && z.Text() == LastSteps(MiddleSteps(FirstSteps(old(z.Text()), z.I[0]), z.I[0], z.I[1]), z.I[0], z.I[1])
  {
    ret := RFirstAndMiddle(z);
    if ret < 0 { return; }
    z.c := z.l;
    ret := RLastSteps(z);
  }

  /** The eight steps in order, on the word between its marks. */
  method BackwardSteps(z: Env) returns (ret: int)
    requires Ready(z) && |z.I| == 2 && z.I[0] >= 0 && z.I[1] >= 0
    modifies z`p, z`size, z`capacity, z`l, z`c, z`bra, z`ket, z.p
    ensures z.Valid() && (z.p == old(z.p) || fresh(z.p))
    ensures ret >= 0 && z.Text() == Steps(old(z.Text()), z.I[0], z.I[1])
  {
    ghost var w := z.Text();
    ret := REightSteps(z);
    StepsInOrder(w, z.I[0], z.I[1]);
  }

  /** Marks, regions, and the switch to backward mode. */
  method Prelude(z: Env) returns (ret: int)
    requires z.Valid() && z.c == 0 && |z.I| == 2 && |z.B| == 1
    modifies z, z.p
    ensures Ready(z) && (z.p == old(z.p) || fresh(z.p)) && |z.B| == 1
    ensures var m := Mark(old(z.Text()));
            ret >= 0 && z.Text() == m && z.I == [P1(m), P2(m)] && z.B[0] == (m != old(z.Text()))
  {
    ghost var w := z.Text();
    ret := MarkInitial(z);
    if ret < 0 { return; }
    MarkRest(z, w);
    SetRegions(z);
    z.lb := z.c;
    z.c := z.l;
  }

  /** Everything but the last loop, which lowers the marked letters again. */
  method StemMarked(z: Env) returns (ret: int)
    requires z.Valid() && z.c == 0 && |z.I| == 2 && |z.B| == 1
    modifies z, z.p
    ensures z.Valid() && (z.p == old(z.p) || fresh(z.p)) && |z.I| == 2 && |z.B| == 1 && z.lb == z.c == 0
    ensures var m := Mark(old(z.Text()));
            ret >= 0 && z.I == [P1(m), P2(m)] && z.Text() == Steps(m, z.I[0], z.I[1]) && z.B[0] == (m != old(z.Text()))
  {
    ghost var w := z.Text();
    ret := Prelude(z);
    if ret < 0 { return; }
    assert z.Text() == Mark(w);
    ret := BackwardSteps(z);
    if ret < 0 { return; }
    ghost var r := z.Text();
    z.c := z.lb;
    assert z.Text() == r;
  }

  /** porter_ISO_8859_1_stem: the text becomes its stem, whatever the environment held before. */
  method StemText(z: Env) returns (ret: int)
    requires z.Valid() && z.c == 0 && |z.I| == 2 && |z.B| == 1
    modifies z, z.p
    ensures z.Valid() && (z.p == old(z.p) || fresh(z.p)) && |z.I| == 2 && |z.B| == 1
    ensures ret == 1 && z.Text() == Stem(old(z.Text()))
  {
    ghost var w := z.Text();
    ghost var m := Mark(w);
    ret := StemMarked(z);
    if ret < 0 { return; }
    assert z.Text() == Steps(m, P1(m), P2(m));
    UnmarkAll(z);
    assert z.Text() == if m != w then Unmark(Steps(m, P1(m), P2(m))) else Steps(m, P1(m), P2(m));
    ret := 1;
  }

  /** sb_stemmer: an environment kept from one word to the next. */
  class Stemmer {
    const env: Env

    ghost predicate Valid()
      reads this, env
    {
      env.Valid() && |env.I| == 2 && |env.B| == 1
    }

    constructor ()
      ensures Valid() && fresh(env) && fresh(env.p)
    {
      env := new Env(2, 1);
    }

    /**
     * sb_stemmer_stem: set the word, stem, write the terminator. The result
     * depends on the word alone, not on the words stemmed before.
     */
    method StemWord(word: string) returns (stem: string)
      requires Valid()
      modifies env, env.p
      ensures Valid() && (env.p == old(env.p) || fresh(env.p))
      ensures stem == Stem(word) == env.Text()
      ensures env.l < env.p.Length && env.p[env.l] == '\0'
    {
      var err := env.SetCurrent(word);
      assert err == 0;
      var ret := StemText(env);
      assert ret == 1;
      ghost var t := env.Text();
      env.p[env.l] := '\0';
      assert env.Text() == t;
      stem := env.p[..env.l];
    }
  }
}
