/** The stems of words, at least one for each rule, by the laws. */
module PorterExamples {
  import opened Bytes
  import opened BackwardTables
  import opened PorterSpec
  import opened PorterMeasure
  import opened PorterEndings
  import opened PorterStages
  import opened PorterMarks
  import opened PorterLaws
  import opened PorterLawsFirst
  import opened PorterLawsLate

  // ---------------------------------------------------------------- measures of spelled words

  predicate Vowels(s: string) {
    forall k :: 0 <= k < |s| ==> Vowel(s[k])
  }

  predicate Consonants(s: string) {
    forall k :: 0 <= k < |s| ==> !Vowel(s[k])
  }

  lemma {:induction false} MeasureConsonants(w: string, c: string)
    requires Consonants(c) && (w == "" || !Vowel(w[|w| - 1]))
    ensures Measure(w + c) == Measure(w)
    decreases |c|
  {
    if c == "" {
      assert w + c == w;
    } else {
      MeasureConsonants(w, c[..|c| - 1]);
      assert (w + c)[..|w + c| - 1] == w + c[..|c| - 1];
    }
  }

  lemma {:induction false} MeasureVowels(w: string, v: string)
    requires Vowels(v)
    ensures Measure(w + v) == Measure(w)
    decreases |v|
  {
    if v == "" {
      assert w + v == w;
    } else {
      MeasureVowels(w, v[..|v| - 1]);
      assert (w + v)[..|w + v| - 1] == w + v[..|v| - 1];
    }
  }

  lemma MeasureNext(u: string, c: char)
    requires u != "" && Vowel(u[|u| - 1]) && !Vowel(c)
    ensures Measure(u + [c]) == Measure(u) + 1
  {
    assert (u + [c])[..|u|] == u;
  }

  /** A run of vowels and then consonants is one pair. */
  lemma MeasureRun(w: string, v: string, c: string)
    requires v != "" && c != "" && Vowels(v) && Consonants(c)
    ensures Measure(w + v + c) == Measure(w) + 1
  {
    var u := w + v;
    MeasureVowels(w, v);
    MeasureNext(u, c[0]);
    MeasureConsonants(u + [c[0]], c[1..]);
    assert (u + [c[0]]) + c[1..] == u + c;
  }

  predicate Run(v: string, c: string) {
    v != "" && c != "" && Vowels(v) && Consonants(c)
  }

  lemma Spelled(x: string)
    requires Plain(x)
    ensures Pairs(x) == Measure(x) && Mark(x) == x && Kept(x) == x
  {
    PlainHas(x);
    MarkPlain(true, x);
    KeptPlain(x);
  }

  lemma Word0(a: string)
    requires Consonants(a)
    ensures Measure(a) == 0
  {
    assert "" + a == a;
    MeasureConsonants("", a);
  }

  lemma Word1(a: string, v: string, c: string)
    requires Consonants(a) && Run(v, c)
    ensures Measure(a + v + c) == 1
  {
    Word0(a);
    MeasureRun(a, v, c);
  }

  lemma Word2(a: string, v: string, c: string, u: string, d: string)
    requires Consonants(a) && Run(v, c) && Run(u, d)
    ensures Measure(a + v + c + u + d) == 2
  {
    Word1(a, v, c);
    MeasureRun(a + v + c, u, d);
  }

  // ---------------------------------------------------------------- words that no rule changes

  /** An ending of no rule. */
  predicate FreeEnd(x: string) {
    |x| >= 2 && (Back(x, 0) in "bkpvwxz" || Two(x) == "ni" || Two(x) == "pi" || Two(x) == "rm")
  }

  lemma FreeThird(x: string, i: int)
    requires FreeEnd(x)
    ensures Step3Group(i) != Two(x)
  {
    assert Step3Group(i)[0] != Back(x, 1) || Step3Group(i)[1] != Back(x, 0);
  }

  lemma FreeFourth(x: string, i: int)
    requires FreeEnd(x)
    ensures Step4Group(i) != Two(x)
  {
    assert Step4Group(i)[0] != Back(x, 1) || Step4Group(i)[1] != Back(x, 0);
  }

  lemma FreeLate(x: string)
    requires FreeEnd(x)
    ensures Onward(3, x) == x && Third(x) == x
  {
    forall i | 0 <= i < 7 ensures Step3Group(i) != Two(x) { FreeThird(x, i); }
    forall i | 0 <= i < 19 ensures Step4Group(i) != Two(x) { FreeFourth(x, i); }
    EndLeavesChar(x);
    ThirdLeaves(x);
    DeleteLeaves(x);
  }

  lemma Own(x: string)
    requires Plain(x) && FreeEnd(x)
    ensures Stem(x) == x && Late(x) == x
  {
    Spelled(x);
    FreeLate(x);
    FreeComes(x);
    StemOf(x);
  }

  lemma FreeComes(x: string)
    requires FreeEnd(x)
    ensures Comes(3, x)
  {
    FreeFirst(x);
    FreeLate(x);
    FreeSecond(x);
    Comes3(x);
  }

  lemma FreeFirst(x: string)
    requires FreeEnd(x)
    ensures First(x) == x
  {
    assert Back(x, 0) !in "sdgyY";
    FirstLeaves(x);
  }

  lemma FreeSecond(x: string)
    requires FreeEnd(x)
    ensures Second(x) == x
  {
    forall i | 0 <= i < 20 ensures !EndsWith(x, RuleSuffixes(Step2Rule)(i)) {
      assert Step2Group(i)[0] != Back(x, 1) || Step2Group(i)[1] != Back(x, 0);
      NotInGroup(x, i);
    }
    NoneIsLongest(RuleSuffixes(Step2Rule), 20, x);
  }

  /** One more symbol other than y and Y. */
  lemma PlainMore(x: string, c: char)
    requires Plain(x) && c != 'y' && c != 'Y'
    ensures Plain(x + [c])
  {
  }

  // ---------------------------------------------------------------- step 1

  lemma IesOwn(x: string)
    requires Plain(x) && FreeEnd(x + "i")
    ensures Stem(x + "ies") == x + "i"
  {
    Ies(x);
    PlainMore(x, 'i');
    Own(x + "i");
  }

  lemma Ponies()
    ensures Stem("ponies") == "poni"
  {
    assert "pon" + "ies" == "ponies";
    assert "pon" + "i" == "poni";
    IesOwn("pon");
  }

  lemma SsOwn(x: string)
    requires Plain(x) && !EndsWith(x, "ne")
    ensures Stem(x + "ss") == x + "ss" && Stem(x + "sses") == x + "ss"
  {
    Spelled(x);
    Ss(x);
    Sses(x);
  }

  lemma Caresses()
    ensures Stem("caresses") == "caress"
  {
    assert "care" + "sses" == "caresses";
    assert "care" + "ss" == "caress";
    SsOwn("care");
  }

  lemma Caress()
    ensures Stem("caress") == "caress"
  {
    assert "care" + "ss" == "caress";
    SsOwn("care");
  }

  lemma SOwn(x: string)
    requires Plain(x) && FreeEnd(x)
    ensures Stem(x + "s") == x
  {
    EndsBack(x, "ie", 0);
    EndsBack(x, "sse", 0);
    EndsBack(x, "s", 0);
    S(x);
    Own(x);
  }

  lemma Books()
    ensures Stem("books") == "book"
  {
    assert "book" + "s" == "books";
    SOwn("book");
  }

  lemma EedOwn(x: string)
    requires Plain(x) && Measure(x) == 1
    ensures Stem(x + "eed") == x + "e"
  {
    Spelled(x);
    Eed(x);
    Joined(x, "e", "e");
    EndsE(x);
    MeasureVowels(x, "e");
    Spelled(x + "e");
    E(x + "e");
  }

  lemma EndsE(x: string)
    ensures OnlyE(x + "e") && !Cvc(x + "e") && !EndsWith(x + "e", "ll") && (Plain(x) ==> Plain(x + "e"))
    ensures "e" + "e" == "ee"
  {
    var w := x + "e";
    BackConcat(x, "e", 0);
    EndsBack(w, "anc", 0);
    EndsBack(w, "enc", 0);
    EndsBack(w, "abl", 0);
    EndsBack(w, "ibl", 0);
    EndsBack(w, "at", 0);
    EndsBack(w, "iv", 0);
    EndsBack(w, "iz", 0);
    EndsBack(w, "ll", 0);
  }

  lemma Agreed()
    ensures Stem("agreed") == "agre"
  {
    assert "agr" + "eed" == "agreed";
    assert "agr" + "e" == "agre";
    assert "" + "a" + "gr" == "agr";
    Word1("", "a", "gr");
    EedOwn("agr");
  }

  lemma EedStays(x: string)
    requires Plain(x) && Measure(x) == 0
    ensures Stem(x + "eed") == x + "eed"
  {
    Spelled(x);
    Eed(x);
  }

  lemma Feed()
    ensures Stem("feed") == "feed"
  {
    assert "f" + "eed" == "feed";
    Word0("f");
    EedStays("f");
  }

  lemma PastOwn(x: string, s: string)
    requires Plain(x) && Consonants(x) && PastSuffix(x, s)
    ensures Stem(x + s) == x + s
  {
    Spelled(x);
    PastStays(x, s);
  }

  lemma Sing()
    ensures Stem("sing") == "sing"
  {
    assert "s" + "ing" == "sing";
    PastOwn("s", "ing");
  }

  lemma Bled()
    ensures Stem("bled") == "bled"
  {
    assert "bl" + "ed" == "bled";
    PastOwn("bl", "ed");
  }

  lemma PastGone(x: string, s: string)
    requires Plain(x) && FreeEnd(x) && PastSuffix(x, s) && HasVowel(x) && !WantsE(x) && !Doubles(x)
    ensures Stem(x + s) == x
  {
    Spelled(x);
    VoicedMeans(x);
    FreeSteady(x);
    Own(x);
    PastPlain(x, s);
  }

  lemma FreeSteady(x: string)
    requires FreeEnd(x)
    ensures Steady(x) && (Doubles(x) ==> Back(x, 0) == 'b' || Back(x, 0) == 'p')
  {
    EndsBack(x, "s", 0);
    EndsBack(x, "ed", 0);
    EndsBack(x, "ing", 0);
  }

  lemma Working()
    ensures Stem("working") == "work"
  {
    assert "work" + "ing" == "working";
    assert HasVowel("work") by { assert IsVowel("work"[1]); }
    assert "w" + "o" + "rk" == "work";
    Word1("w", "o", "rk");
    PastGone("work", "ing");
  }

  lemma PastShort(x: string, s: string)
    requires Plain(x) && Measure(x) == 1 && Cvc(x) && OnlyE(x) && PastSuffix(x, s) && HasVowel(x)
    ensures Stem(x + s) == x + "e"
  {
    Spelled(x);
    VoicedMeans(x);
    E(x);
    PastE(x, s);
  }

  lemma Filing()
    ensures Stem("filing") == "file"
  {
    assert "fil" + "ing" == "filing";
    assert "fil" + "e" == "file";
    assert HasVowel("fil") by { assert IsVowel("fil"[1]); }
    assert "f" + "i" + "l" == "fil";
    Word1("f", "i", "l");
    PastShort("fil", "ing");
  }

  lemma PastAt(x: string, t: string, s: string)
    requires Plain(x) && Consonants(x) && x != "" && (t == "at" || t == "iz") && (s == "ed" || s == "ing")
    ensures Stem((x + t) + s) == x + t + "e"
  {
    AtShape(x, t);
    Spelled(x);
    VoicedMeans(x + t);
    PastE(x + t, s);
    Joined(x, t, "e");
    Word0(x);
    if t == "at" { Ate(x); } else { Ize(x); }
  }

  lemma AtShape(x: string, t: string)
    requires Plain(x) && Consonants(x) && x != "" && (t == "at" || t == "iz")
    ensures WantsE(x + t) && !EndsWith(x + t, "e") && HasVowel(Mark(x + t)) && ConsonantLast(x)
    ensures !EndsWith(x, "ic") && !EndsWith(x, "al")
    ensures "at" + "e" == "ate" && "iz" + "e" == "ize"
  {
    EndsConcat(x, t);
    BackConcat(x, t, 0);
    EndsBack(x + t, "e", 0);
    EndsBack(x, "ic", 1);
    EndsBack(x, "al", 1);
    assert Plain(x + t);
    Spelled(x + t);
    Spelled(x);
    assert IsVowel((x + t)[|x|]);
  }

  lemma Rated()
    ensures Stem("rated") == "rate"
  {
    assert "rat" + "ed" == "rated";
    assert "r" + "at" == "rat" && "r" + "at" + "e" == "rate";
    PastAt("r", "at", "ed");
  }

  lemma Sized()
    ensures Stem("sized") == "size"
  {
    assert "siz" + "ed" == "sized";
    assert "s" + "iz" == "siz" && "s" + "iz" + "e" == "size";
    PastAt("s", "iz", "ed");
  }

  lemma PastBl(x: string, s: string)
    requires Plain(x) && Measure(x + "bl") == 1 && OnlyE(x + "bl") && HasVowel(x + "bl") && PastSuffix(x + "bl", s)
    ensures Stem((x + "bl") + s) == x + "bl"
  {
    BlShape(x);
    VoicedMeans(x + "bl");
    PastE(x + "bl", s);
    E(x + "bl");
  }

  lemma BlShape(x: string)
    requires Plain(x)
    ensures WantsE(x + "bl") && !Cvc(x + "bl") && Pairs(x + "bl") == Measure(x + "bl")
    ensures Mark(x + "bl") == x + "bl" && Kept(x + "bl") == x + "bl"
  {
    EndsConcat(x, "bl");
    assert Plain(x + "bl");
    Spelled(x + "bl");
    assert (x + "bl")[|x|] == 'b';
  }

  lemma Troubled()
    ensures Stem("troubled") == "troubl"
  {
    assert "troubl" + "ed" == "troubled";
    assert "trou" + "bl" == "troubl";
    assert HasVowel("troubl") by { assert IsVowel("troubl"[2]); }
    assert "tr" + "ou" + "bl" == "troubl";
    Word1("tr", "ou", "bl");
    PastBl("trou", "ed");
  }

  lemma PastOne(x: string, c: char, s: string)
    requires Plain(x) && c in "bp" && HasVowel(x) && PastSuffix(x + [c, c], s) && x != ""
    ensures Stem((x + [c, c]) + s) == x + [c]
  {
    OneShape(x, c);
    VoicedMeans(x + [c, c]);
    FreeSteady(x + [c]);
    PastDouble(x, c, s);
    Own(x + [c]);
  }

  lemma OneShape(x: string, c: char)
    requires Plain(x) && c in "bp" && HasVowel(x) && x != ""
    ensures Plain(x + [c]) && FreeEnd(x + [c]) && HasVowel(Mark(x + [c, c]))
  {
    assert Plain(x + [c, c]);
    Spelled(x + [c, c]);
    var k :| 0 <= k < |x| && IsVowel(x[k]);
    assert IsVowel((x + [c, c])[k]);
    BackConcat(x, [c], 0);
  }

  lemma Hopping()
    ensures Stem("hopping") == "hop"
  {
    assert "hopp" + "ing" == "hopping";
    assert "ho" + ['p', 'p'] == "hopp" && "ho" + ['p'] == "hop";
    assert HasVowel("ho") by { assert IsVowel("ho"[1]); }
    PastOne("ho", 'p', "ing");
  }

  lemma YOwn(x: string)
    requires Plain(x) && HasVowel(x) && FreeEnd(x + "i")
    ensures Stem(x + "y") == x + "i"
  {
    Spelled(x);
    PlainHas(x);
    VoicedMeans(x);
    Y(x);
    PlainMore(x, 'i');
    Own(x + "i");
  }

  lemma Happy()
    ensures Stem("happy") == "happi"
  {
    assert "happ" + "y" == "happy";
    assert "happ" + "i" == "happi";
    assert HasVowel("happ") by { assert IsVowel("happ"[1]); }
    YOwn("happ");
  }

  lemma YStays(x: string)
    requires Plain(x) && Consonants(x)
    ensures Stem(x + "y") == x + "y"
  {
    Spelled(x);
    PlainHas(x);
    VoicedMeans(x);
    Y(x);
  }

  lemma Sky()
    ensures Stem("sky") == "sky"
  {
    assert "sk" + "y" == "sky";
    YStays("sk");
  }

  // ---------------------------------------------------------------- step 2

  lemma Tenanci()
    ensures Stem("tenanci") == "tenanc"
  {
    assert "ten" + "anci" == "tenanci";
    assert "ten" + "anc" == "tenanc";
    assert "t" + "e" + "n" == "ten";
    Word1("t", "e", "n");
    Spelled("ten");
    Anci("ten");
    Ance("ten");
  }

  lemma Valenci()
    ensures Stem("valenci") == "valenc"
  {
    assert "val" + "enci" == "valenci";
    assert "val" + "enc" == "valenc";
    assert "v" + "a" + "l" == "val";
    Word1("v", "a", "l");
    Spelled("val");
    Enci("val");
    Ence("val");
  }

  lemma Capabli()
    ensures Stem("capabli") == "capabl"
  {
    assert "cap" + "abli" == "capabli";
    assert "cap" + "abl" == "capabl";
    assert "c" + "a" + "p" == "cap";
    Word1("c", "a", "p");
    Spelled("cap");
    Abli("cap");
    Able("cap");
  }

  lemma EliOwn(x: string)
    requires Plain(x) && OnlyE(x) && Measure(x) == 1 && Cvc(x)
    ensures Stem(x + "eli") == x + "e"
  {
    Spelled(x);
    Eli(x);
    E(x);
  }

  lemma Vileli()
    ensures Stem("vileli") == "vile"
  {
    assert "vil" + "eli" == "vileli";
    assert "vil" + "e" == "vile";
    assert "v" + "i" + "l" == "vil";
    Word1("v", "i", "l");
    EliOwn("vil");
  }

  lemma Formalli()
    ensures Stem("formalli") == "formal"
  {
    assert "form" + "alli" == "formalli";
    assert "form" + "al" == "formal";
    assert "f" + "o" + "rm" == "form";
    Word1("f", "o", "rm");
    Spelled("form");
    Alli("form");
    Al("form");
  }

  lemma Callousli()
    ensures Stem("callousli") == "callous"
  {
    assert "call" + "ousli" == "callousli";
    assert "call" + "ous" == "callous";
    assert "c" + "a" + "ll" == "call";
    Word1("c", "a", "ll");
    Spelled("call");
    Ousli("call");
  }

  lemma Silentli()
    ensures Stem("silentli") == "silent"
  {
    assert "sil" + "entli" == "silentli";
    assert "sil" + "ent" == "silent";
    assert "s" + "i" + "l" == "sil";
    Word1("s", "i", "l");
    Spelled("sil");
    Entli("sil");
    Ent("sil");
  }

  lemma Formaliti()
    ensures Stem("formaliti") == "formal"
  {
    assert "form" + "aliti" == "formaliti";
    assert "form" + "al" == "formal";
    assert "f" + "o" + "rm" == "form";
    Word1("f", "o", "rm");
    Spelled("form");
    Aliti("form");
    Al("form");
  }

  lemma IShape(x: string)
    requires Plain(x)
    ensures Pairs(x + "i") == Measure(x) && (x + "i") + "ble" == x + "ible"
  {
    assert "i" + "ble" == "ible";
    Joined(x, "i", "ble");
    MeasureVowels(x, "i");
    PlainMore(x, 'i');
    Spelled(x + "i");
  }

  lemma BilitiIble(x: string)
    requires Plain(x) && Measure(x) == 1
    ensures Stem((x + "i") + "biliti") == x + "ibl"
  {
    IShape(x);
    Spelled(x);
    Biliti(x + "i");
    Ible(x);
  }

  lemma Sensibiliti()
    ensures Stem("sensibiliti") == "sensibl"
  {
    assert "sensi" + "biliti" == "sensibiliti";
    assert "sens" + "i" == "sensi";
    assert "sens" + "ibl" == "sensibl";
    assert "s" + "e" + "ns" == "sens";
    Word1("s", "e", "ns");
    BilitiIble("sens");
  }

  lemma Passiviti()
    ensures Stem("passiviti") == "passiv"
  {
    assert "pass" + "iviti" == "passiviti";
    assert "pass" + "iv" == "passiv";
    assert "p" + "a" + "ss" == "pass";
    Word1("p", "a", "ss");
    Spelled("pass");
    Iviti("pass");
    Ive("pass");
  }

  lemma TionalIon(x: string)
    requires Plain(x) && Measure(x) == 1 && Measure(x + "t") == 1 && !EndsWith(x, "a")
    ensures Stem(x + "tional") == x + "tion"
  {
    TShape(x);
    Spelled(x);
    Tional(x);
    Ion(x + "t");
  }

  lemma TShape(x: string)
    requires Plain(x) && !EndsWith(x, "a")
    ensures !EndsWith(x + "t", "at") && Pairs(x + "t") == Measure(x + "t")
    ensures Kept(x + "t") + "ion" == x + "tion" && (x + "t") + "ion" == x + "tion"
  {
    EndsTail(x, "a", "t");
    assert "a" + "t" == "at" && "t" + "ion" == "tion";
    Joined(x, "t", "ion");
    PlainMore(x, 't');
    Spelled(x + "t");
  }

  lemma Optional()
    ensures Stem("optional") == "option"
  {
    assert "op" + "tional" == "optional";
    assert "op" + "t" == "opt";
    assert "op" + "tion" == "option";
    assert "" + "o" + "p" == "op";
    Word1("", "o", "p");
    assert "" + "o" + "pt" == "opt";
    Word1("", "o", "pt");
    TionalIon("op");
  }

  lemma Relational()
    ensures Stem("relational") == "relat"
  {
    assert "rel" + "ational" == "relational";
    assert "rel" + "at" == "relat";
    assert "r" + "e" + "l" == "rel";
    Word1("r", "e", "l");
    Spelled("rel");
    Ational("rel");
    Ate("rel");
  }

  lemma Feudalism()
    ensures Stem("feudalism") == "feudal"
  {
    assert "feud" + "alism" == "feudalism";
    assert "feud" + "al" == "feudal";
    assert "f" + "eu" + "d" == "feud";
    Word1("f", "eu", "d");
    Spelled("feud");
    Alism("feud");
    Al("feud");
  }

  lemma Relation()
    ensures Stem("relation") == "relat"
  {
    assert "rel" + "ation" == "relation";
    assert "rel" + "at" == "relat";
    assert "r" + "e" + "l" == "rel";
    Word1("r", "e", "l");
    Spelled("rel");
    Ation("rel");
    Ate("rel");
  }

  lemma Ionization()
    ensures Stem("ionization") == "ioniz"
  {
    assert "ion" + "ization" == "ionization";
    assert "ion" + "iz" == "ioniz";
    assert "" + "io" + "n" == "ion";
    Word1("", "io", "n");
    Spelled("ion");
    Ization("ion");
    Ize("ion");
  }

  lemma Ionizer()
    ensures Stem("ionizer") == "ioniz"
  {
    assert "ion" + "izer" == "ionizer";
    assert "ion" + "iz" == "ioniz";
    assert "" + "io" + "n" == "ion";
    Word1("", "io", "n");
    Spelled("ion");
    Izer("ion");
    Ize("ion");
  }

  lemma Senator()
    ensures Stem("senator") == "senat"
  {
    assert "sen" + "ator" == "senator";
    assert "sen" + "at" == "senat";
    assert "s" + "e" + "n" == "sen";
    Word1("s", "e", "n");
    Spelled("sen");
    Ator("sen");
    Ate("sen");
  }

  lemma Massiveness()
    ensures Stem("massiveness") == "massiv"
  {
    assert "mass" + "iveness" == "massiveness";
    assert "mass" + "iv" == "massiv";
    assert "m" + "a" + "ss" == "mass";
    Word1("m", "a", "ss");
    Spelled("mass");
    Iveness("mass");
    Ive("mass");
  }

  lemma FulOwn(x: string)
    requires Plain(x) && OnlyE(x) && Measure(x) == 1 && Cvc(x)
    ensures Stem((x + "e") + "ful") == x + "e" && Stem((x + "e") + "fulness") == x + "e"
  {
    FulE(x);
    Spelled(x);
    E(x);
    Ful(x + "e");
    Fulness(x + "e");
  }

  lemma FulE(x: string)
    requires Plain(x) && OnlyE(x) && Measure(x) == 1
    ensures LeftAlone(x + "e") && Pairs(x + "e") == 1
  {
    PlainMore(x, 'e');
    Spelled(x + "e");
    MeasureVowels(x, "e");
    EarlyE(x);
    ThirdLeavesE(x);
  }

  lemma EarlyE(x: string)
    ensures First(x + "e") == x + "e" && Second(x + "e") == x + "e"
  {
    BackConcat(x, "e", 0);
    FirstLeaves(x + "e");
    SecondLeaves(x + "e");
  }

  lemma Hopefulness()
    ensures Stem("hopefulness") == "hope"
  {
    assert "hope" + "fulness" == "hopefulness";
    assert "hop" + "e" == "hope";
    assert "h" + "o" + "p" == "hop";
    Word1("h", "o", "p");
    FulOwn("hop");
  }

  lemma Callousness()
    ensures Stem("callousness") == "callous"
  {
    assert "call" + "ousness" == "callousness";
    assert "call" + "ous" == "callous";
    assert "c" + "a" + "ll" == "call";
    Word1("c", "a", "ll");
    Spelled("call");
    Ousness("call");
  }

  // ---------------------------------------------------------------- step 3

  lemma Triplicate()
    ensures Stem("triplicate") == "triplic"
  {
    assert "tripl" + "icate" == "triplicate";
    assert "tripl" + "ic" == "triplic";
    assert "tr" + "i" + "pl" == "tripl";
    Word1("tr", "i", "pl");
    Spelled("tripl");
    Icate("tripl");
    Ic("tripl");
  }

  lemma NoneOwn(x: string)
    requires Plain(x) && FreeEnd(x) && Measure(x) > 0
    ensures Stem(x + "ative") == x && Stem(x + "ful") == x && Stem(x + "ness") == x
  {
    Spelled(x);
    Own(x);
    Ative(x);
    Ful(x);
    FreeNess(x);
    Ness(x);
  }

  lemma FreeNess(x: string)
    requires FreeEnd(x)
    ensures !EndsWith(x, "ive") && !EndsWith(x, "ful") && !EndsWith(x, "ous")
  {
    EndsBack(x, "ive", 0);
    EndsBack(x, "ful", 0);
    EndsBack(x, "ous", 0);
  }

  lemma Formative()
    ensures Stem("formative") == "form"
  {
    assert "form" + "ative" == "formative";
    assert "f" + "o" + "rm" == "form";
    Word1("f", "o", "rm");
    NoneOwn("form");
  }

  lemma Formalize()
    ensures Stem("formalize") == "formal"
  {
    assert "form" + "alize" == "formalize";
    assert "form" + "al" == "formal";
    assert "f" + "o" + "rm" == "form";
    Word1("f", "o", "rm");
    Spelled("form");
    Alize("form");
    Al("form");
  }

  lemma Toniciti()
    ensures Stem("toniciti") == "tonic"
  {
    assert "ton" + "iciti" == "toniciti";
    assert "ton" + "ic" == "tonic";
    assert "t" + "o" + "n" == "ton";
    Word1("t", "o", "n");
    Spelled("ton");
    Iciti("ton");
    Ic("ton");
  }

  lemma Comical()
    ensures Stem("comical") == "comic"
  {
    assert "com" + "ical" == "comical";
    assert "com" + "ic" == "comic";
    assert "c" + "o" + "m" == "com";
    Word1("c", "o", "m");
    Spelled("com");
    Ical("com");
    Ic("com");
  }

  lemma Hopeful()
    ensures Stem("hopeful") == "hope"
  {
    assert "hope" + "ful" == "hopeful";
    assert "hop" + "e" == "hope";
    assert "h" + "o" + "p" == "hop";
    Word1("h", "o", "p");
    FulOwn("hop");
  }

  lemma Darkness()
    ensures Stem("darkness") == "dark"
  {
    assert "dark" + "ness" == "darkness";
    assert "d" + "a" + "rk" == "dark";
    Word1("d", "a", "rk");
    NoneOwn("dark");
  }

  // ---------------------------------------------------------------- step 4

  predicate Settled(x: string) {
    Plain(x) && Measure(x) > 1 && !EndsWith(x, "e") && !EndsWith(x, "ll")
  }

  lemma SettledEnded(x: string)
    requires Settled(x)
    ensures Pairs(x) > 1 && Ended(x) == x
  {
    Spelled(x);
    EndedPlain(x);
  }

  lemma GoneEasy(x: string, i: int)
    requires Settled(x) && (i == 0 || 14 <= i < 19) && (i == 15 ==> !EndsWith(x, "m")) && (i == 16 ==> !EndsWith(x, "e"))
    ensures Stem(x + Step4Suffix(i)) == x
  {
    SettledEnded(x);
    Rule4Easy(x, i);
  }

  lemma GoneE(x: string, i: int)
    requires Settled(x) && 1 <= i < 5
    ensures Stem(x + Step4Suffix(i)) == x
  {
    SettledEnded(x);
    Rule4EEasy(x, i);
  }

  lemma Idiotic()
    ensures Stem("idiotic") == "idiot"
  {
    assert "idiot" + "ic" == "idiotic";
    assert Step4Suffix(0) == "ic";
    assert "" + "i" + "d" + "io" + "t" == "idiot";
    Word2("", "i", "d", "io", "t");
    GoneEasy("idiot", 0);
  }

  lemma Allowance()
    ensures Stem("allowance") == "allow"
  {
    assert "allow" + "ance" == "allowance";
    assert Step4Suffix(1) == "ance";
    assert "" + "a" + "ll" + "o" + "w" == "allow";
    Word2("", "a", "ll", "o", "w");
    GoneE("allow", 1);
  }

  lemma Inference()
    ensures Stem("inference") == "infer"
  {
    assert "infer" + "ence" == "inference";
    assert Step4Suffix(2) == "ence";
    assert "" + "i" + "nf" + "e" + "r" == "infer";
    Word2("", "i", "nf", "e", "r");
    GoneE("infer", 2);
  }

  lemma Adjustable()
    ensures Stem("adjustable") == "adjust"
  {
    assert "adjust" + "able" == "adjustable";
    assert Step4Suffix(3) == "able";
    assert "" + "a" + "dj" + "u" + "st" == "adjust";
    Word2("", "a", "dj", "u", "st");
    GoneE("adjust", 3);
  }

  lemma Defensible()
    ensures Stem("defensible") == "defens"
  {
    assert "defens" + "ible" == "defensible";
    assert Step4Suffix(4) == "ible";
    assert "d" + "e" + "f" + "e" + "ns" == "defens";
    Word2("d", "e", "f", "e", "ns");
    GoneE("defens", 4);
  }

  lemma AteGone(x: string)
    requires Settled(x) && !EndsWith(x, "ic")
    ensures Stem(x + "ate") == x
  {
    SettledEnded(x);
    Ate(x);
  }

  lemma Activate()
    ensures Stem("activate") == "activ"
  {
    assert "activ" + "ate" == "activate";
    assert "" + "a" + "ct" + "i" + "v" == "activ";
    Word2("", "a", "ct", "i", "v");
    AteGone("activ");
  }

  lemma IveGone(x: string)
    requires Settled(x) && !EndsWith(x, "at")
    ensures Stem(x + "ive") == x
  {
    SettledEnded(x);
    Ive(x);
  }

  lemma Effective()
    ensures Stem("effective") == "effect"
  {
    assert "effect" + "ive" == "effective";
    assert "" + "e" + "ff" + "e" + "ct" == "effect";
    Word2("", "e", "ff", "e", "ct");
    IveGone("effect");
  }

  lemma IzeGone(x: string)
    requires Settled(x) && !EndsWith(x, "al")
    ensures Stem(x + "ize") == x
  {
    SettledEnded(x);
    Ize(x);
  }

  lemma Satirize()
    ensures Stem("satirize") == "satir"
  {
    assert "satir" + "ize" == "satirize";
    assert "s" + "a" + "t" + "i" + "r" == "satir";
    Word2("s", "a", "t", "i", "r");
    IzeGone("satir");
  }

  lemma ItiGone(x: string)
    requires Settled(x) && !EndsWith(x, "al") && !EndsWith(x, "bil") && !EndsWith(x, "iv") && !EndsWith(x, "ic")
    ensures Stem(x + "iti") == x
  {
    SettledEnded(x);
    Iti(x);
  }

  lemma Maturiti()
    ensures Stem("maturiti") == "matur"
  {
    assert "matur" + "iti" == "maturiti";
    assert "m" + "a" + "t" + "u" + "r" == "matur";
    Word2("m", "a", "t", "u", "r");
    ItiGone("matur");
  }

  lemma AlGone(x: string)
    requires Settled(x) && !EndsWith(x, "tion") && !EndsWith(x, "ic")
    ensures Stem(x + "al") == x
  {
    SettledEnded(x);
    Al(x);
  }

  lemma Revival()
    ensures Stem("revival") == "reviv"
  {
    assert "reviv" + "al" == "revival";
    assert "r" + "e" + "v" + "i" + "v" == "reviv";
    Word2("r", "e", "v", "i", "v");
    AlGone("reviv");
  }

  lemma IsmGone(x: string)
    requires Settled(x) && !EndsWith(x, "al")
    ensures Stem(x + "ism") == x
  {
    SettledEnded(x);
    Ism(x);
  }

  lemma Communism()
    ensures Stem("communism") == "commun"
  {
    assert "commun" + "ism" == "communism";
    assert "c" + "o" + "mm" + "u" + "n" == "commun";
    Word2("c", "o", "mm", "u", "n");
    IsmGone("commun");
  }

  lemma IonGone(x: string)
    requires Settled(x) && !EndsWith(x, "at") && (EndsWith(x, "s") || EndsWith(x, "t"))
    ensures Stem(x + "ion") == x
  {
    SettledEnded(x);
    Ion(x);
  }

  lemma Adoption()
    ensures Stem("adoption") == "adopt"
  {
    assert "adopt" + "ion" == "adoption";
    assert "" + "a" + "d" + "o" + "pt" == "adopt";
    Word2("", "a", "d", "o", "pt");
    IonGone("adopt");
  }

  lemma ErGone(x: string)
    requires Settled(x) && !EndsWith(x, "iz")
    ensures Stem(x + "er") == x
  {
    SettledEnded(x);
    Er(x);
  }

  lemma Airliner()
    ensures Stem("airliner") == "airlin"
  {
    assert "airlin" + "er" == "airliner";
    assert "" + "ai" + "rl" + "i" + "n" == "airlin";
    Word2("", "ai", "rl", "i", "n");
    ErGone("airlin");
  }

  lemma OusliGone(x: string)
    requires Settled(x)
    ensures Stem(x + "ousli") == x
  {
    SettledEnded(x);
    Ousli(x);
  }

  lemma Rigorousli()
    ensures Stem("rigorousli") == "rigor"
  {
    assert "rigor" + "ousli" == "rigorousli";
    assert "r" + "i" + "g" + "o" + "r" == "rigor";
    Word2("r", "i", "g", "o", "r");
    OusliGone("rigor");
  }

  lemma Irritant()
    ensures Stem("irritant") == "irrit"
  {
    assert "irrit" + "ant" == "irritant";
    assert Step4Suffix(14) == "ant";
    assert "" + "i" + "rr" + "i" + "t" == "irrit";
    Word2("", "i", "rr", "i", "t");
    GoneEasy("irrit", 14);
  }

  lemma Dependent()
    ensures Stem("dependent") == "depend"
  {
    assert "depend" + "ent" == "dependent";
    assert Step4Suffix(15) == "ent";
    assert "d" + "e" + "p" + "e" + "nd" == "depend";
    Word2("d", "e", "p", "e", "nd");
    GoneEasy("depend", 15);
  }

  lemma Adjustment()
    ensures Stem("adjustment") == "adjust"
  {
    assert "adjust" + "ment" == "adjustment";
    assert Step4Suffix(16) == "ment";
    assert "" + "a" + "dj" + "u" + "st" == "adjust";
    Word2("", "a", "dj", "u", "st");
    GoneEasy("adjust", 16);
  }

  lemma Replacement()
    ensures Stem("replacement") == "replac"
  {
    assert "replac" + "ement" == "replacement";
    assert Step4Suffix(17) == "ement";
    assert "r" + "e" + "pl" + "a" + "c" == "replac";
    Word2("r", "e", "pl", "a", "c");
    GoneEasy("replac", 17);
  }

  lemma Rigorou()
    ensures Stem("rigorou") == "rigor"
  {
    assert "rigor" + "ou" == "rigorou";
    assert Step4Suffix(18) == "ou";
    assert "r" + "i" + "g" + "o" + "r" == "rigor";
    Word2("r", "i", "g", "o", "r");
    GoneEasy("rigor", 18);
  }

  // ---------------------------------------------------------------- step 5

  lemma Probate()
    ensures Stem("probate") == "probat"
  {
    assert "prob" + "ate" == "probate";
    assert "prob" + "at" == "probat";
    assert "pr" + "o" + "b" == "prob";
    Word1("pr", "o", "b");
    Spelled("prob");
    Ate("prob");
  }

  lemma Rate()
    ensures Stem("rate") == "rate"
  {
    assert "r" + "ate" == "rate";
    Word0("r");
    Spelled("r");
    Ate("r");
  }

  lemma Cease()
    ensures Stem("cease") == "ceas"
  {
    assert "ceas" + "e" == "cease";
    assert "c" + "ea" + "s" == "ceas";
    Word1("c", "ea", "s");
    Spelled("ceas");
    E("ceas");
  }

  lemma LLOwn(x: string, n: nat)
    requires Plain(x) && Measure(x + "l") == n
    ensures Stem(x + "ll") == if n > 1 then x + "l" else x + "ll"
  {
    Spelled(x);
    LL(x);
  }

  lemma Controll()
    ensures Stem("controll") == "control"
  {
    assert "contro" + "ll" == "controll";
    assert "contro" + "l" == "control";
    assert "c" + "o" + "ntr" + "o" + "l" == "control";
    Word2("c", "o", "ntr", "o", "l");
    LLOwn("contro", 2);
  }

  lemma Roll()
    ensures Stem("roll") == "roll"
  {
    assert "ro" + "ll" == "roll";
    assert "ro" + "l" == "rol";
    assert "r" + "o" + "l" == "rol";
    Word1("r", "o", "l");
    LLOwn("ro", 1);
  }
}
