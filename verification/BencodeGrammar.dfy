/**
 * What the bencode parser accepts, written as a grammar in literal characters:
 * s is a value b followed by rest. The grammar mentions neither the parser nor
 * its way of building dictionaries.
 */
module BencodeGrammar {
  import opened Bytes
  import opened Bencode

  // ---------------------------------------------------------------- dictionaries

  /** The last pair with key k has value v. */
  ghost predicate LastIs(ps: seq<(string, Value)>, k: string, v: Value) {
    exists i :: 0 <= i < |ps| && ps[i] == (k, v) && NotAfter(ps, i, k)
  }

  ghost predicate NotAfter(ps: seq<(string, Value)>, i: int, k: string) {
    forall j :: i < j < |ps| && 0 <= j ==> ps[j].0 != k
  }

  /** The entries are the keys of the pairs, each once, with its last value. */
  ghost predicate Holds(es: seq<Entry>, ps: seq<(string, Value)>) {
    forall k, v :: Entry(k, v) in es <==> LastIs(ps, k, v)
  }

  function PutAll(es: seq<Entry>, ps: seq<(string, Value)>): (r: seq<Entry>)
    decreases |ps|
  {
    if ps == [] then es else PutAll(Put(es, ps[0].0, ps[0].1), ps[1..])
  }

  /** The value at k becomes v; every other key keeps its presence and its value. */
  lemma {:induction false} PutLookup(es: seq<Entry>, k: string, v: Value, k': string, v': Value)
    requires SortedKeys(es)
    ensures Entry(k', v') in Put(es, k, v) <==> if k' == k then v' == v else Entry(k', v') in es
  {
    if es != [] {
      var tail := es[1..];
      assert es == [es[0]] + tail;
      assert forall i :: 0 <= i < |tail| ==> tail[i] == es[i + 1];
      assert forall x :: x in tail ==> Less(es[0].key, x.key);
      LessAsymmetric(es[0].key, es[0].key);
      if Less(k, es[0].key) {
        KeyBefore(es, k);
      } else if es[0].key != k {
        PutLookup(tail, k, v, k', v');
      }
    }
  }

  lemma KeyBefore(es: seq<Entry>, k: string)
    requires SortedKeys(es) && es != [] && Less(k, es[0].key)
    ensures forall x :: x in es ==> x.key != k
  {
    forall x | x in es ensures x.key != k {
      var i :| 0 <= i < |es| && es[i] == x;
      LessAsymmetric(k, es[0].key);
      if i > 0 {
        LessTransitive(k, es[0].key, x.key);
        LessAsymmetric(k, x.key);
      }
    }
  }

  lemma LastAppend(ps: seq<(string, Value)>, p: (string, Value), k: string, v: Value)
    ensures LastIs(ps + [p], k, v) <==> if k == p.0 then v == p.1 else LastIs(ps, k, v)
  {
    var qs := ps + [p];
    var n := |ps|;
    assert qs[n] == p && forall i :: 0 <= i < n ==> qs[i] == ps[i];
    if k == p.0 {
      if v == p.1 {
        assert qs[n] == (k, v) && NotAfter(qs, n, k);
      }
      if LastIs(qs, k, v) {
        var i :| 0 <= i < |qs| && qs[i] == (k, v) && NotAfter(qs, i, k);
        assert i == n;
      }
    } else {
      if LastIs(ps, k, v) {
        var i :| 0 <= i < n && ps[i] == (k, v) && NotAfter(ps, i, k);
        assert NotAfter(qs, i, k);
      }
      if LastIs(qs, k, v) {
        var i :| 0 <= i < |qs| && qs[i] == (k, v) && NotAfter(qs, i, k);
        assert NotAfter(ps, i, k);
      }
    }
  }

  /** Pairs put in one after the other, whatever their order and however often a key is repeated. */
  lemma {:induction false} PutAllHolds(before: seq<(string, Value)>, es: seq<Entry>, ps: seq<(string, Value)>)
    requires SortedKeys(es) && Holds(es, before)
    ensures SortedKeys(PutAll(es, ps)) && Holds(PutAll(es, ps), before + ps)
    decreases |ps|
  {
    if ps == [] {
      assert before + ps == before;
    } else {
      var p, r := ps[0], Put(es, ps[0].0, ps[0].1);
      PutKeepsOrder(es, p.0, p.1);
      forall k, v ensures Entry(k, v) in r <==> LastIs(before + [p], k, v) {
        PutLookup(es, p.0, p.1, k, v);
        LastAppend(before, p, k, v);
      }
      PutAllHolds(before + [p], r, ps[1..]);
      assert before + [p] + ps[1..] == before + ps;
    }
  }

  lemma FirstIsLeast(es: seq<Entry>, x: Entry)
    requires SortedKeys(es) && x in es
    ensures x == es[0] || Less(es[0].key, x.key)
  {
  }

  /** A sorted list is determined by its entries. */
  lemma {:induction false} SortedSame(a: seq<Entry>, b: seq<Entry>)
    requires SortedKeys(a) && SortedKeys(b) && forall x :: x in a <==> x in b
    ensures a == b
  {
    assert (a == [] || a[0] in a) && (b == [] || b[0] in b);
    if a != [] && b != [] {
      assert a[0] in b && b[0] in a;
      FirstIsLeast(a, b[0]);
      FirstIsLeast(b, a[0]);
      LessAsymmetric(a[0].key, b[0].key);
      assert a[0] == b[0];
      Tail(a);
      Tail(b);
      SortedSame(a[1..], b[1..]);
      assert a == [a[0]] + a[1..] && b == [b[0]] + b[1..];
    }
  }

  lemma Tail(a: seq<Entry>)
    requires SortedKeys(a) && a != []
    ensures SortedKeys(a[1..]) && forall x :: x in a[1..] <==> x in a && x != a[0]
  {
    assert a == [a[0]] + a[1..];
    LessAsymmetric(a[0].key, a[0].key);
    forall x | x in a[1..] ensures x != a[0] {
      var i :| 0 <= i < |a[1..]| && a[1..][i] == x;
      assert Less(a[0].key, a[i + 1].key);
    }
  }

  lemma PutAllExactly(ps: seq<(string, Value)>, es: seq<Entry>)
    ensures PutAll([], ps) == es <==> SortedKeys(es) && Holds(es, ps)
  {
    assert Holds([], []) && [] + ps == ps;
    PutAllHolds([], [], ps);
    if SortedKeys(es) && Holds(es, ps) {
      forall x ensures x in es <==> x in PutAll([], ps) {
        assert x == Entry(x.key, x.value);
        assert Entry(x.key, x.value) in es <==> LastIs(ps, x.key, x.value);
      }
      SortedSame(es, PutAll([], ps));
    }
  }

  // ---------------------------------------------------------------- the grammar

  predicate Blank(ws: string) {
    forall i :: 0 <= i < |ws| ==> ws[i] in " \t\n\U{0b}\U{0c}\r"
  }

  predicate Digits(ds: string) {
    forall i :: 0 <= i < |ds| ==> ds[i] in "0123456789"
  }

  /** White space, an optional sign, all the digits there are. */
  ghost predicate Numeral(s: string, v: int, rest: string) {
    exists ws, sign, ds :: Spelling(ws, sign, ds, v) && s == ws + (sign + (ds + rest)) && Ends(rest)
  }

  ghost predicate Spelling(ws: string, sign: string, ds: string, v: int) {
    Blank(ws) && ds != "" && Digits(ds) &&
    ((sign == "-" && v == 0 - Decimal(ds)) || ((sign == "" || sign == "+") && v == Decimal(ds)))
  }

  predicate Ends(rest: string) {
    rest == "" || rest[0] !in "0123456789"
  }

  function Decimal(ds: string): (n: nat)
    requires Digits(ds)
  {
    if ds == "" then 0 else 10 * Decimal(ds[..|ds| - 1]) + (ds[|ds| - 1] as int - 48)
  }

  /** A length that fits 32 bits, a colon, so many characters. */
  ghost predicate Str32(s: string, x: string, rest: string) {
    |x| <= 0x7fff_ffff && Numeral(s, |x|, ":" + (x + rest))
  }

  ghost predicate Val(s: string, b: Value, rest: string)
    decreases |s|, 1
  {
    s != "" &&
    match b
    case None => false
    case Int(v) => s[0] == 'i' && -0x8000_0000_0000_0000 <= v <= 0x7fff_ffff_ffff_ffff && Numeral(s[1..], v, "e" + rest)
    case Str(x) =>
      (s[0] in "0123456789" && Str32(s, x, rest)) ||
      (|s| > 1 && s[0] == 'u' && s[1] in "0123456789" && Str32(s[1..], x, rest))
    case List(items) => s[0] == 'l' && Items(s[1..], items, rest)
    case Dict(es) => s[0] == 'd' && SortedKeys(es) && exists ps :: Pairs(s[1..], ps, rest) && Holds(es, ps)
  }

  ghost predicate Items(s: string, items: seq<Value>, rest: string)
    decreases |s|, 2
  {
    if items == [] then s == "e" + rest
    else exists r :: |r| < |s| && Val(s, items[0], r) && Items(r, items[1..], rest)
  }

  /** Keys and values in any order, keys possibly repeated. */
  ghost predicate Pairs(s: string, ps: seq<(string, Value)>, rest: string)
    decreases |s|, 2
  {
    if ps == [] then s == "e" + rest
    else exists r, r' :: |r'| < |r| < |s| && Str32(s, ps[0].0, r) && Val(r, ps[0].1, r') && Pairs(r', ps[1..], rest)
  }

  // ---------------------------------------------------------------- numbers

  lemma {:induction false} DecimalIs(ds: string)
    requires Digits(ds)
    ensures (forall i :: 0 <= i < |ds| ==> IsDigit(ds[i])) && NumberOf(ds) == Decimal(ds)
  {
    if ds != "" {
      assert ds[|ds| - 1] in "0123456789";
      DecimalIs(ds[..|ds| - 1]);
    }
  }

  lemma {:induction false} SkipBlank(ws: string, t: string)
    requires Blank(ws) && (t == "" || !IsSpace(t[0]))
    ensures SkipSpace(ws + t) == t
  {
    if ws == "" {
      assert ws + t == t;
    } else {
      assert IsSpace(ws[0]);
      assert (ws + t)[1..] == ws[1..] + t;
      SkipBlank(ws[1..], t);
    }
  }

  lemma BlankCons(c: char, ws: string)
    requires IsSpace(c) && Blank(ws)
    ensures Blank([c] + ws)
  {
    var r := [c] + ws;
    forall i | 0 <= i < |r| ensures r[i] in " \t\n\U{0b}\U{0c}\r" {
      if i > 0 {
        assert r[i] == ws[i - 1];
      }
    }
  }

  lemma FirstAgain(s: string, a: string, b: string)
    requires s != "" && s[1..] == a + b
    ensures s == ([s[0]] + a) + b
  {
    assert s == [s[0]] + s[1..];
  }

  lemma {:induction false} SkippedBlank(s: string) returns (ws: string)
    ensures Blank(ws) && s == ws + SkipSpace(s) && (SkipSpace(s) == "" || !IsSpace(SkipSpace(s)[0]))
  {
    if s != [] && IsSpace(s[0]) {
      var rest := SkippedBlank(s[1..]);
      ws := [s[0]] + rest;
      BlankCons(s[0], rest);
      FirstAgain(s, rest, SkipSpace(s));
    } else {
      ws := "";
    }
  }

  lemma ReadDigitsIs(ds: string, rest: string, negative: bool, lo: int, hi: int)
    requires ds != "" && Digits(ds) && Ends(rest)
    ensures var v: int := if negative then 0 - Decimal(ds) else Decimal(ds);
      ReadDigits(ds + rest, negative, lo, hi) == if lo <= v <= hi then Some((v, rest)) else Option.None
  {
    DecimalIs(ds);
    DigitRunOf(ds, rest);
    assert (ds + rest)[..|ds|] == ds && (ds + rest)[|ds|..] == rest;
  }

  lemma AfterSign(ws: string, sign: string, u: string, lo: int, hi: int)
    requires Blank(ws) && u != "" && u[0] in "0123456789" && (sign == "" || sign == "+" || sign == "-")
    ensures ReadInt(ws + (sign + u), lo, hi) == ReadDigits(u, sign == "-", lo, hi)
  {
    TakeSign(sign, u);
    SkipBlank(ws, sign + u);
  }

  lemma TakeSign(sign: string, u: string)
    requires u != "" && u[0] in "0123456789" && (sign == "" || sign == "+" || sign == "-")
    ensures var t := sign + u;
      (sign == "" ==> t == u && t[0] != '-' && t[0] != '+') && (sign != "" ==> t[0] == sign[0] && t[1..] == u)
  {
  }

  lemma NumeralRead(ws: string, sign: string, ds: string, rest: string, lo: int, hi: int, v: int)
    requires Spelling(ws, sign, ds, v) && Ends(rest) && lo <= v <= hi
    ensures ReadInt(ws + (sign + (ds + rest)), lo, hi) == Some((v, rest))
  {
    assert (ds + rest)[0] == ds[0];
    AfterSign(ws, sign, ds + rest, lo, hi);
    ReadDigitsIs(ds, rest, sign == "-", lo, hi);
  }

  lemma DigitsOf(u: string, negative: bool, lo: int, hi: int) returns (ds: string)
    requires ReadDigits(u, negative, lo, hi).Some?
    ensures ds != "" && Digits(ds)
    ensures var (v, rest) := ReadDigits(u, negative, lo, hi).value;
      u == ds + rest && Ends(rest) && v == if negative then 0 - Decimal(ds) else Decimal(ds)
  {
    var k := DigitRun(u);
    ds := u[..k];
    forall i | 0 <= i < k ensures ds[i] in "0123456789" {
      assert IsDigit(u[i]);
    }
    DecimalIs(ds);
    assert u == u[..k] + u[k..];
  }

  lemma SignOf(s: string, lo: int, hi: int) returns (ws: string, sign: string, u: string)
    ensures Blank(ws) && (sign == "" || sign == "+" || sign == "-") && s == ws + (sign + u)
    ensures ReadInt(s, lo, hi) == ReadDigits(u, sign == "-", lo, hi)
  {
    ws := SkippedBlank(s);
    var t := SkipSpace(s);
    if t != [] && (t[0] == '-' || t[0] == '+') {
      sign, u := [t[0]], t[1..];
    } else {
      sign, u := "", t;
    }
    assert t == sign + u;
  }

  lemma ReadNumeral(s: string, lo: int, hi: int)
    requires ReadInt(s, lo, hi).Some?
    ensures var (v, rest) := ReadInt(s, lo, hi).value; Numeral(s, v, rest)
  {
    var (v, rest) := ReadInt(s, lo, hi).value;
    var ws, sign, u := SignOf(s, lo, hi);
    var ds := DigitsOf(u, sign == "-", lo, hi);
    assert Spelling(ws, sign, ds, v);
  }

  /** Formatted extraction reads exactly the numerals in range, up to the first character that is no digit. */
  lemma ReadIntExactly(s: string, lo: int, hi: int, v: int, rest: string)
    ensures ReadInt(s, lo, hi) == Some((v, rest)) <==> Numeral(s, v, rest) && lo <= v <= hi
  {
    if ReadInt(s, lo, hi) == Some((v, rest)) {
      ReadNumeral(s, lo, hi);
    }
    if Numeral(s, v, rest) && lo <= v <= hi {
      var ws, sign, ds :| Spelling(ws, sign, ds, v) && s == ws + (sign + (ds + rest)) && Ends(rest);
      NumeralRead(ws, sign, ds, rest, lo, hi, v);
    }
  }

  lemma ColonTail(x: string, rest: string)
    ensures var t := ":" + (x + rest); t[1..1 + |x|] == x && t[1 + |x|..] == rest && |t| == 1 + |x| + |rest|
  {
  }

  lemma ColonSplit(t: string, n: nat)
    requires t != "" && t[0] == ':' && n <= |t| - 1
    ensures t == ":" + (t[1..1 + n] + t[1 + n..])
  {
  }

  lemma ReadStringExactly(s: string, x: string, rest: string)
    ensures ReadString(s) == Ok(x, rest) <==> Str32(s, x, rest)
    ensures Str32(s, x, rest) ==> |rest| < |s|
  {
    var n := ReadInt(s, MIN_INT32, MAX_INT32);
    var tail := ":" + (x + rest);
    ReadIntExactly(s, MIN_INT32, MAX_INT32, |x|, tail);
    ColonTail(x, rest);
    if ReadString(s) == Ok(x, rest) {
      ColonSplit(n.value.1, |x|);
      assert n == Some((|x|, tail));
    }
  }

  // ---------------------------------------------------------------- values

  /** The parser accepts exactly the grammar. */
  lemma {:induction false} ParseExactly(s: string, b: Value, rest: string)
    ensures Parse(s) == Ok(b, rest) <==> Val(s, b, rest)
    decreases |s|, 1
  {
    if s != "" {
      if s[0] == 'i' {
        if b.Int? {
          ReadIntExactly(s[1..], MIN_INT64, MAX_INT64, b.v, "e" + rest);
        }
        IntTail(s, b, rest);
      } else if s[0] == 'l' {
        if b.List? {
          ItemsExactly(s[1..], b.items, rest);
        }
      } else if s[0] == 'd' {
        if b.Dict? {
          EntriesExactly(s[1..], b.entries, rest);
        }
      } else if b.Str? {
        StrExactly(s, b.s, rest);
      }
    }
  }

  lemma IntTail(s: string, b: Value, rest: string)
    requires s != "" && s[0] == 'i'
    ensures Parse(s) == Ok(b, rest) <==> b.Int? && ReadInt(s[1..], MIN_INT64, MAX_INT64) == Some((b.v, "e" + rest))
  {
    var n := ReadInt(s[1..], MIN_INT64, MAX_INT64);
    if n.Some? && n.value.1 != [] && n.value.1[0] == 'e' {
      assert n.value.1 == "e" + n.value.1[1..];
    }
    assert ("e" + rest)[1..] == rest;
  }

  lemma DigitChar(c: char)
    ensures IsDigit(c) <==> c in "0123456789"
  {
  }

  lemma StrExactly(s: string, x: string, rest: string)
    requires s != "" && s[0] != 'i' && s[0] != 'l' && s[0] != 'd'
    ensures Parse(s) == Ok(Str(x), rest) <==> Val(s, Str(x), rest)
  {
    var t := if s[0] == 'u' then s[1..] else s;
    ReadStringExactly(t, x, rest);
    if t != "" {
      DigitChar(t[0]);
    }
  }

  lemma AtE(s: string)
    requires s != "" && s[0] == 'e'
    ensures s == "e" + s[1..]
  {
  }

  lemma ParseItemsStep(s: string, before: seq<Value>, b: Value, r: string)
    requires Parse(s) == Ok(b, r)
    ensures ParseItems(s, before) == ParseItems(r, before + [b])
  {
  }

  lemma ParseEntriesStep(s: string, es: seq<Entry>, key: string, r: string, b: Value, r': string)
    requires ReadString(s) == Ok(key, r) && Parse(r) == Ok(b, r')
    ensures ParseEntries(s, es) == ParseEntries(r', Put(es, key, b))
  {
  }

  lemma {:induction false} ItemsForward(s: string, before: seq<Value>) returns (items: seq<Value>)
    requires ParseItems(s, before).Ok?
    ensures ParseItems(s, before).value == before + items && Items(s, items, ParseItems(s, before).rest)
    decreases |s|, 2
  {
    if s != [] && s[0] == 'e' {
      items := [];
      AtE(s);
    } else {
      var b, r := Parse(s).value, Parse(s).rest;
      ParseExactly(s, b, r);
      var more := ItemsForward(r, before + [b]);
      items := [b] + more;
      ShiftFirst(before, items);
    }
  }

  lemma {:induction false} ItemsBackward(s: string, before: seq<Value>, items: seq<Value>, rest: string)
    requires Items(s, items, rest)
    ensures ParseItems(s, before) == Ok(before + items, rest)
    decreases |s|, 2
  {
    if items == [] {
      assert s[1..] == rest && before + items == before;
    } else {
      var r :| |r| < |s| && Val(s, items[0], r) && Items(r, items[1..], rest);
      ParseExactly(s, items[0], r);
      ParseItemsStep(s, before, items[0], r);
      ItemsBackward(r, before + [items[0]], items[1..], rest);
      ShiftFirst(before, items);
    }
  }

  lemma {:induction false} PairsForward(s: string, es: seq<Entry>) returns (ps: seq<(string, Value)>)
    requires ParseEntries(s, es).Ok?
    ensures ParseEntries(s, es).value == PutAll(es, ps) && Pairs(s, ps, ParseEntries(s, es).rest)
    decreases |s|, 2
  {
    if s != [] && s[0] == 'e' {
      ps := [];
      AtE(s);
    } else {
      var key, r := ReadString(s).value, ReadString(s).rest;
      var b, r' := Parse(r).value, Parse(r).rest;
      ReadStringExactly(s, key, r);
      ParseExactly(r, b, r');
      var more := PairsForward(r', Put(es, key, b));
      ps := [(key, b)] + more;
      assert ps[1..] == more;
    }
  }

  lemma {:induction false} PairsBackward(s: string, es: seq<Entry>, ps: seq<(string, Value)>, rest: string)
    requires Pairs(s, ps, rest)
    ensures ParseEntries(s, es) == Ok(PutAll(es, ps), rest)
    decreases |s|, 2
  {
    if ps == [] {
      assert s[1..] == rest;
    } else {
      var r, r' :| |r'| < |r| < |s| && Str32(s, ps[0].0, r) && Val(r, ps[0].1, r') && Pairs(r', ps[1..], rest);
      ReadStringExactly(s, ps[0].0, r);
      ParseExactly(r, ps[0].1, r');
      ParseEntriesStep(s, es, ps[0].0, r, ps[0].1, r');
      PairsBackward(r', Put(es, ps[0].0, ps[0].1), ps[1..], rest);
    }
  }

  /** What is read between d and e: the pairs in any order, each key kept with its last value. */
  lemma {:induction false} EntriesExactly(s: string, es: seq<Entry>, rest: string)
    ensures ParseEntries(s, []) == Ok(es, rest) <==> SortedKeys(es) && exists ps :: Pairs(s, ps, rest) && Holds(es, ps)
    decreases |s|, 3
  {
    if ParseEntries(s, []) == Ok(es, rest) {
      var ps := PairsForward(s, []);
      PutAllExactly(ps, es);
    }
    if ps :| Pairs(s, ps, rest) && Holds(es, ps) {
      if SortedKeys(es) {
        PairsBackward(s, [], ps, rest);
        PutAllExactly(ps, es);
      }
    }
  }

  lemma {:induction false} ItemsExactly(s: string, items: seq<Value>, rest: string)
    ensures ParseItems(s, []) == Ok(items, rest) <==> Items(s, items, rest)
    decreases |s|, 3
  {
    if ParseItems(s, []) == Ok(items, rest) {
      var found := ItemsForward(s, []);
      assert [] + found == found;
    }
    if Items(s, items, rest) {
      ItemsBackward(s, [], items, rest);
      assert [] + items == items;
    }
  }

  // ---------------------------------------------------------------- failures

  /** A negative length, for which the string is resized to no avail and an exception leaves the parser. */
  ghost predicate Negative(s: string) {
    exists v, rest :: -0x8000_0000 <= v < 0 && Numeral(s, v, ":" + rest)
  }

  /** Only the key of a dictionary can have one: a string value starts with a digit. */
  ghost predicate Bad(s: string)
    decreases |s|, 1
  {
    s != "" && ((s[0] == 'l' && BadItems(s[1..])) || (s[0] == 'd' && BadPairs(s[1..])))
  }

  ghost predicate BadItems(s: string)
    decreases |s|, 2
  {
    Bad(s) || exists b, r :: |r| < |s| && Val(s, b, r) && BadItems(r)
  }

  ghost predicate BadPairs(s: string)
    decreases |s|, 2
  {
    || Negative(s)
    || exists x, r :: |r| < |s| && Str32(s, x, r) && (Bad(r) || exists b, r' :: |r'| < |r| && Val(r, b, r') && BadPairs(r'))
  }

  lemma ThrowsNegative(s: string)
    requires ReadString(s).Throws?
    ensures Negative(s)
  {
    var (v, t) := ReadInt(s, MIN_INT32, MAX_INT32).value;
    ReadNumeral(s, MIN_INT32, MAX_INT32);
    ColonSplit(t, 0);
    assert t[1..1] + t[1..] == t[1..];
    assert Numeral(s, v, ":" + t[1..]);
  }

  lemma NegativeThrows(s: string, v: int, rest: string)
    requires -0x8000_0000 <= v < 0 && Numeral(s, v, ":" + rest)
    ensures ReadString(s).Throws?
  {
    ReadIntExactly(s, MIN_INT32, MAX_INT32, v, ":" + rest);
  }

  lemma NegativeExactly(s: string)
    ensures ReadString(s).Throws? <==> Negative(s)
  {
    if ReadString(s).Throws? {
      ThrowsNegative(s);
    }
    if v, rest :| -0x8000_0000 <= v < 0 && Numeral(s, v, ":" + rest) {
      NegativeThrows(s, v, rest);
    }
  }

  lemma DigitNotNegative(s: string)
    requires s != "" && IsDigit(s[0])
    ensures !ReadString(s).Throws?
  {
    ReadUnsigned(s, MIN_INT32, MAX_INT32);
  }

  /** The parser throws exactly on the input that has a negative length where a key is due; otherwise it fails. */
  lemma {:induction false} ThrowsExactly(s: string)
    ensures Parse(s).Throws? <==> Bad(s)
    decreases |s|, 1
  {
    if s != "" {
      if s[0] == 'l' {
        ItemsThrow(s[1..], []);
      } else if s[0] == 'd' {
        PairsThrow(s[1..], []);
      } else if s[0] != 'i' {
        var t := if s[0] == 'u' then s[1..] else s;
        if t != "" && IsDigit(t[0]) {
          DigitNotNegative(t);
        }
      }
    }
  }

  lemma ValIs(s: string)
    ensures forall b, r :: Val(s, b, r) <==> Parse(s) == Ok(b, r)
  {
    forall b, r ensures Val(s, b, r) <==> Parse(s) == Ok(b, r) {
      ParseExactly(s, b, r);
    }
  }

  lemma {:induction false} ItemsThrow(s: string, before: seq<Value>)
    ensures ParseItems(s, before).Throws? <==> BadItems(s)
    decreases |s|, 2
  {
    ValIs(s);
    if !(s != [] && s[0] == 'e') {
      ThrowsExactly(s);
      if Parse(s).Ok? {
        ParseItemsStep(s, before, Parse(s).value, Parse(s).rest);
        ItemsThrow(Parse(s).rest, before + [Parse(s).value]);
      }
    }
  }

  lemma StrIs(s: string)
    ensures forall x, r :: Str32(s, x, r) <==> ReadString(s) == Ok(x, r)
  {
    forall x, r ensures Str32(s, x, r) <==> ReadString(s) == Ok(x, r) {
      ReadStringExactly(s, x, r);
    }
  }

  lemma {:induction false} PairsThrow(s: string, es: seq<Entry>)
    ensures ParseEntries(s, es).Throws? <==> BadPairs(s)
    decreases |s|, 2
  {
    StrIs(s);
    NegativeExactly(s);
    if !(s != [] && s[0] == 'e') && ReadString(s).Ok? {
      var key, r := ReadString(s).value, ReadString(s).rest;
      ThrowsExactly(r);
      ValIs(r);
      if Parse(r).Ok? {
        ParseEntriesStep(s, es, key, r, Parse(r).value, Parse(r).rest);
        PairsThrow(Parse(r).rest, Put(es, key, Parse(r).value));
      }
    }
  }

  // ---------------------------------------------------------------- forms written out

  lemma DigitTable(d: nat)
    requires d < 10
    ensures Digit(d) == "0123456789"[d] && Dec(d) == ["0123456789"[d]] && Decimal(["0123456789"[d]]) == d
  {
    assert ["0123456789"[d]][..0] == "";
  }

  /** An integer may have blanks and a plus sign. */
  lemma SignedForm(ws: string, n: nat, rest: string)
    requires forall i :: 0 <= i < |ws| ==> ws[i] in " \t\n\U{0b}\U{0c}\r"
    requires n <= 0x7fff_ffff_ffff_ffff
    ensures Parse("i" + (ws + ("+" + (DecNat(n) + ("e" + rest))))) == Ok(Int(n), rest)
  {
    var u := DecNat(n) + ("e" + rest);
    assert u[0] == DecNat(n)[0];
    DigitChar(u[0]);
    AfterSign(ws, "+", u, MIN_INT64, MAX_INT64);
    DigitsRead(n, "e" + rest, false, MIN_INT64, MAX_INT64);
    var s := "i" + (ws + ("+" + u));
    assert s[1..] == ws + ("+" + u);
    IntTail(s, Int(n), rest);
  }

  /** A string may be marked with u. */
  lemma MarkedForm(x: string, rest: string)
    requires |x| <= 0x7fff_ffff
    ensures Parse("u" + (PrintString(x) + rest)) == Ok(Str(x), rest)
  {
    var t := PrintString(x) + rest;
    ReadPrintedString(x, rest);
    StringStart(x);
    assert t[0] == PrintString(x)[0];
    assert ("u" + t)[1..] == t;
  }

  /** Two entries in either order, and one key twice. */
  lemma TwoEntries(k: string, a: Value, l: string, b: Value, rest: string)
    requires |k| <= MAX_INT32 && |l| <= MAX_INT32 && WellFormed(a) && WellFormed(b)
    ensures Parse("d" + (PrintString(k) + (Print(a) + (PrintString(l) + (Print(b) + ("e" + rest)))))) ==
      Ok(Dict(if k == l then [Entry(k, b)]
              else if Less(k, l) then [Entry(k, a), Entry(l, b)]
              else [Entry(l, b), Entry(k, a)]), rest)
  {
    var tail := "e" + rest;
    var s := PrintString(k) + (Print(a) + (PrintString(l) + (Print(b) + tail)));
    EntriesTwo(k, a, l, b, tail);
    PutSecond(k, a, l, b);
    assert tail[1..] == rest && ("d" + s)[1..] == s;
  }

  lemma EntriesTwo(k: string, a: Value, l: string, b: Value, tail: string)
    requires |k| <= MAX_INT32 && |l| <= MAX_INT32 && WellFormed(a) && WellFormed(b)
    ensures ParseEntries(PrintString(k) + (Print(a) + (PrintString(l) + (Print(b) + tail))), []) ==
      ParseEntries(tail, Put(Put([], k, a), l, b))
  {
    var second := PrintString(l) + (Print(b) + tail);
    RoundTrip(a, second);
    RoundTrip(b, tail);
    ParseOneEntry(Entry(k, a), second, []);
    ParseOneEntry(Entry(l, b), tail, Put([], k, a));
  }

  lemma PutSecond(k: string, a: Value, l: string, b: Value)
    ensures Put(Put([], k, a), l, b) ==
      if k == l then [Entry(k, b)] else if Less(k, l) then [Entry(k, a), Entry(l, b)] else [Entry(l, b), Entry(k, a)]
  {
    LessAsymmetric(k, l);
    LeqOrder(k, l, l);
    var one := [Entry(k, a)];
    assert Put([], k, a) == one && one[1..] == [];
    assert Put([], l, b) == [Entry(l, b)];
  }

  /** One of each, written out. */
  lemma Examples()
    ensures Print(Int(1)) == "i1e" && Print(Int(-1)) == "i-1e" && Print(Str("a")) == "1:a"
    ensures Print(List([Str("a")])) == "l1:ae" && Print(Dict([Entry("a", Int(1))])) == "d1:ai1ee"
  {
    DigitTable(1);
    assert Dec(-1) == "-" + DecNat(1);
    assert [Str("a")][1..] == [] && [Entry("a", Int(1))][1..] == [];
  }
}
