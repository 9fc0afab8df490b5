/**
 * Bencode values, their printed form and the stream parser: printing then
 * parsing gives the value back, for exactly the values a parse can produce.
 */
module Bencode {
  import opened Bytes

  /** TYPE_NONE, TYPE_VALUE, TYPE_STRING, TYPE_LIST and TYPE_MAP; a map lists its entries in key order. */
  datatype Value =
    | None
    | Int(v: int)
    | Str(s: string)
    | List(items: seq<Value>)
    | Dict(entries: seq<Entry>)

  datatype Entry = Entry(key: string, value: Value)

  const MIN_INT64: int := -0x8000_0000_0000_0000
  const MAX_INT64: int := 0x7fff_ffff_ffff_ffff
  const MIN_INT32: int := -0x8000_0000
  const MAX_INT32: int := 0x7fff_ffff

  ghost predicate SortedKeys(es: seq<Entry>) {
    forall i, j {:trigger Less(es[i].key, es[j].key)} :: 0 <= i < j < |es| ==> Less(es[i].key, es[j].key)
  }

  /** No NONE node, integers of 64 bits, strings and keys whose length fits an int, keys in order. */
  ghost predicate WellFormed(b: Value) {
    match b
    case None => false
    case Int(v) => MIN_INT64 <= v <= MAX_INT64
    case Str(s) => |s| <= MAX_INT32
    case List(items) => forall i :: 0 <= i < |items| ==> WellFormed(items[i])
    case Dict(es) => SortedKeys(es) && forall i :: 0 <= i < |es| ==> |es[i].key| <= MAX_INT32 && WellFormed(es[i].value)
  }

  // ---------------------------------------------------------------- decimal numbers

  function Digit(d: nat): (ch: char)
    requires d < 10
    ensures '0' <= ch <= '9' && ch as int - '0' as int == d
  {
    '0' + d as char
  }

  predicate IsDigit(ch: char) {
    '0' <= ch <= '9'
  }

  function DecNat(n: nat): (s: string)
    ensures s != [] && forall k :: 0 <= k < |s| ==> IsDigit(s[k])
  {
    if n < 10 then [Digit(n)] else DecNat(n / 10) + [Digit(n % 10)]
  }

  function Dec(n: int): (s: string) {
    if n < 0 then "-" + DecNat(-n) else DecNat(n)
  }

  function DigitRun(s: string): (k: nat)
    ensures k <= |s| && (forall i :: 0 <= i < k ==> IsDigit(s[i])) && (k < |s| ==> !IsDigit(s[k]))
  {
    if s != [] && IsDigit(s[0]) then 1 + DigitRun(s[1..]) else 0
  }

  function NumberOf(s: string): (n: nat)
    requires forall i :: 0 <= i < |s| ==> IsDigit(s[i])
  {
    if s == [] then 0
    else
      assert IsDigit(s[|s| - 1]);
      10 * NumberOf(s[..|s| - 1]) + (s[|s| - 1] as int - '0' as int)
  }

  predicate IsSpace(ch: char) {
    ch == ' ' || '\t' <= ch <= '\r'
  }

  function SkipSpace(s: string): (r: string)
    ensures |r| <= |s|
  {
    if s != [] && IsSpace(s[0]) then SkipSpace(s[1..]) else s
  }

  /** The digits of a number whose sign has been read. */
  function ReadDigits(s: string, negative: bool, lo: int, hi: int): (r: Option<(int, string)>)
    ensures r.Some? ==> lo <= r.value.0 <= hi && |r.value.1| < |s|
  {
    var k := DigitRun(s);
    if k == 0 then Option.None
    else
      var n: int := NumberOf(s[..k]);
      var v := if negative then -n else n;
      if lo <= v <= hi then Some((v, s[k..])) else Option.None
  }

  /** Formatted extraction of an integer: white space, a sign, digits; None when it sets failbit. */
  function ReadInt(s: string, lo: int, hi: int): (r: Option<(int, string)>)
    ensures r.Some? ==> lo <= r.value.0 <= hi && |r.value.1| < |s|
  {
    var t := SkipSpace(s);
    if t != [] && t[0] == '-' then ReadDigits(t[1..], true, lo, hi)
    else if t != [] && t[0] == '+' then ReadDigits(t[1..], false, lo, hi)
    else ReadDigits(t, false, lo, hi)
  }

  // ---------------------------------------------------------------- printing

  function Print(b: Value): (s: string) {
    match b
    case None => ""
    case Int(v) => "i" + Dec(v) + "e"
    case Str(s) => PrintString(s)
    case List(items) => "l" + PrintItems(items) + "e"
    case Dict(es) => "d" + PrintEntries(es) + "e"
  }

  function PrintString(s: string): string {
    Dec(|s|) + ":" + s
  }

  function PrintItems(items: seq<Value>): string {
    if items == [] then "" else Print(items[0]) + PrintItems(items[1..])
  }

  function PrintEntries(es: seq<Entry>): string {
    if es == [] then "" else PrintString(es[0].key) + Print(es[0].value) + PrintEntries(es[1..])
  }

  // ---------------------------------------------------------------- parsing

  /** A value and the input left, a stream in the fail state, or an exception from resizing a string. */
  datatype Parsed<+T> = Ok(value: T, rest: string) | Fail | Throws

  function ReadString(s: string): (r: Parsed<string>)
    ensures r.Ok? ==> |r.rest| < |s|
  {
    var n := ReadInt(s, MIN_INT32, MAX_INT32);
    if n.None? || n.value.1 == [] || n.value.1[0] != ':' then Fail
    else
      var (size, rest) := n.value;
      if size < 0 then Throws
      else if size > |rest| - 1 then Fail
      else Ok(rest[1..1 + size], rest[1 + size..])
  }

  /** std::map insertion: the entry's place in key order, replacing an equal key. */
  function Put(es: seq<Entry>, k: string, v: Value): (r: seq<Entry>) {
    if es == [] || Less(k, es[0].key) then [Entry(k, v)] + es
    else if es[0].key == k then [Entry(k, v)] + es[1..]
    else [es[0]] + Put(es[1..], k, v)
  }

  function Parse(s: string): (r: Parsed<Value>)
    ensures r.Ok? ==> |r.rest| < |s|
    decreases |s|, 1
  {
    if s == [] then Fail
    else if s[0] == 'i' then
      var n := ReadInt(s[1..], MIN_INT64, MAX_INT64);
      if n.None? || n.value.1 == [] || n.value.1[0] != 'e' then Fail else Ok(Int(n.value.0), n.value.1[1..])
    else if s[0] == 'l' then
      (match ParseItems(s[1..], [])
       case Ok(items, rest) => Ok(List(items), rest)
       case Fail => Fail
       case Throws => Throws)
    else if s[0] == 'd' then
      (match ParseEntries(s[1..], [])
       case Ok(es, rest) => Ok(Dict(es), rest)
       case Fail => Fail
       case Throws => Throws)
    else
      var t := if s[0] == 'u' then s[1..] else s;
      if t == [] || !IsDigit(t[0]) then Fail
      else
        match ReadString(t)
        case Ok(str, rest) => Ok(Str(str), rest)
        case Fail => Fail
        case Throws => Throws
  }

  /** The loop of a list, with the items read so far. */
  function ParseItems(s: string, items: seq<Value>): (r: Parsed<seq<Value>>)
    ensures r.Ok? ==> |r.rest| < |s|
    decreases |s|, 2
  {
    if s != [] && s[0] == 'e' then Ok(items, s[1..])
    else
      match Parse(s)
      case Ok(b, rest) => ParseItems(rest, items + [b])
      case Fail => Fail
      case Throws => Throws
  }

  /** The loop of a map, with the entries read so far. */
  function ParseEntries(s: string, es: seq<Entry>): (r: Parsed<seq<Entry>>)
    ensures r.Ok? ==> |r.rest| < |s|
    decreases |s|, 2
  {
    if s != [] && s[0] == 'e' then Ok(es, s[1..])
    else
      match ReadString(s)
      case Fail => Fail
      case Throws => Throws
      case Ok(key, rest) =>
        match Parse(rest)
        case Fail => Fail
        case Throws => Throws
        case Ok(b, rest') => ParseEntries(rest', Put(es, key, b))
  }

  // ---------------------------------------------------------------- numbers come back

  lemma {:induction false} DecNatValue(n: nat)
    ensures NumberOf(DecNat(n)) == n
  {
    var s := DecNat(n);
    if n >= 10 {
      DecNatValue(n / 10);
      assert s[..|s| - 1] == DecNat(n / 10);
    } else {
      assert s[..|s| - 1] == [];
    }
  }

  lemma {:induction false} DigitRunOf(d: string, t: string)
    requires forall k :: 0 <= k < |d| ==> IsDigit(d[k])
    requires t == [] || !IsDigit(t[0])
    ensures DigitRun(d + t) == |d|
  {
    if d == [] {
      assert d + t == t;
    } else {
      assert (d + t)[1..] == d[1..] + t;
      DigitRunOf(d[1..], t);
    }
  }

  lemma DigitsRead(n: nat, t: string, negative: bool, lo: int, hi: int)
    requires (t == [] || !IsDigit(t[0])) && lo <= (if negative then 0 - n else n) <= hi
    ensures ReadDigits(DecNat(n) + t, negative, lo, hi) == Some((if negative then 0 - n else n, t))
  {
    var d := DecNat(n);
    var s := d + t;
    DigitRunOf(d, t);
    DecNatValue(n);
    assert s[..|d|] == d && s[|d|..] == t;
  }

  lemma ReadAfterMinus(d: string, t: string, lo: int, hi: int)
    ensures ReadInt(("-" + d) + t, lo, hi) == ReadDigits(d + t, true, lo, hi)
  {
    assert (("-" + d) + t)[1..] == d + t;
  }

  lemma ReadUnsigned(x: string, lo: int, hi: int)
    requires x != [] && IsDigit(x[0])
    ensures ReadInt(x, lo, hi) == ReadDigits(x, false, lo, hi)
  {
  }

  /** A printed number followed by something that is not a digit is read back, and nothing more. */
  lemma ReadDec(n: int, t: string, lo: int, hi: int)
    requires lo <= n <= hi && (t == [] || !IsDigit(t[0]))
    ensures ReadInt(Dec(n) + t, lo, hi) == Some((n, t))
  {
    if n < 0 {
      DigitsRead(-n, t, true, lo, hi);
      ReadAfterMinus(DecNat(-n), t, lo, hi);
    } else {
      DigitsRead(n, t, false, lo, hi);
      ReadUnsigned(DecNat(n) + t, lo, hi);
    }
  }

  lemma ReadPrintedString(s: string, t: string)
    requires |s| <= MAX_INT32
    ensures ReadString(PrintString(s) + t) == Ok(s, t)
  {
    var rest := ":" + s + t;
    assert PrintString(s) + t == Dec(|s|) + rest;
    ReadDec(|s|, rest, MIN_INT32, MAX_INT32);
    assert rest[1..1 + |s|] == s && rest[1 + |s|..] == t;
  }

  // ---------------------------------------------------------------- round trip

  lemma Bracketed(open: string, x: string, t: string)
    ensures (open + x + "e") + t == open + (x + ("e" + t))
  {
  }

  lemma Regroup(a: string, b: string, c: string, d: string)
    ensures (a + b + c) + d == a + (b + (c + d))
  {
  }

  lemma ShiftFirst<T>(a: seq<T>, b: seq<T>)
    requires b != []
    ensures a + b == (a + [b[0]]) + b[1..]
  {
  }

  /** How a well-formed value starts: never with the e that closes a list or map. */
  lemma PrintStart(b: Value)
    requires WellFormed(b)
    ensures Print(b) != [] && Print(b)[0] != 'e'
    ensures b.Str? ==> IsDigit(Print(b)[0])
  {
    if b.Str? { StringStart(b.s); }
  }

  lemma StringStart(s: string)
    ensures PrintString(s) != [] && IsDigit(PrintString(s)[0])
  {
    assert PrintString(s)[0] == DecNat(|s|)[0];
  }

  /** Parsing a printed value, whatever follows it, gives the value and leaves exactly what follows. */
  lemma {:induction false} RoundTrip(b: Value, t: string)
    requires WellFormed(b)
    ensures Parse(Print(b) + t) == Ok(b, t)
    decreases b
  {
    match b
    case Int(v) =>
      RoundTripInt(v, t);
    case Str(str) =>
      RoundTripString(str, t);
    case List(items) =>
      ParseListOf(PrintItems(items) + ("e" + t));
      Bracketed("l", PrintItems(items), t);
      RoundTripItems(b, items, [], t);
      assert [] + items == items;
    case Dict(es) =>
      ParseDictOf(PrintEntries(es) + ("e" + t));
      Bracketed("d", PrintEntries(es), t);
      RoundTripEntries(b, es, [], t);
      assert [] + es == es;
  }

  lemma RoundTripInt(v: int, t: string)
    requires MIN_INT64 <= v <= MAX_INT64
    ensures Parse("i" + Dec(v) + "e" + t) == Ok(Int(v), t)
  {
    var s := "i" + Dec(v) + "e" + t;
    assert s[1..] == Dec(v) + ("e" + t);
    ReadDec(v, "e" + t, MIN_INT64, MAX_INT64);
    assert ("e" + t)[1..] == t;
  }

  lemma RoundTripString(str: string, t: string)
    requires |str| <= MAX_INT32
    ensures Parse(PrintString(str) + t) == Ok(Str(str), t)
  {
    var s := PrintString(str) + t;
    ReadPrintedString(str, t);
    StringStart(str);
    assert s[0] == PrintString(str)[0];
  }

  lemma ParseListOf(s: string)
    ensures var r := ParseItems(s, []); r.Ok? ==> Parse("l" + s) == Ok(List(r.value), r.rest)
  {
    assert ("l" + s)[1..] == s;
  }

  lemma ParseDictOf(s: string)
    ensures var r := ParseEntries(s, []); r.Ok? ==> Parse("d" + s) == Ok(Dict(r.value), r.rest)
  {
    assert ("d" + s)[1..] == s;
  }

  lemma {:induction false} RoundTripItems(b: Value, items: seq<Value>, before: seq<Value>, t: string)
    requires b.List? && before + items == b.items && WellFormed(b)
    ensures ParseItems(PrintItems(items) + ("e" + t), before) == Ok(before + items, t)
    decreases b, |items|
  {
    var s := PrintItems(items) + ("e" + t);
    if items == [] {
      assert s == "e" + t && before + items == before;
    } else {
      var first, more := items[0], PrintItems(items[1..]) + ("e" + t);
      assert first == b.items[|before|];
      assert s == Print(first) + more;
      PrintStart(first);
      RoundTrip(first, more);
      ShiftFirst(before, items);
      RoundTripItems(b, items[1..], before + [first], t);
    }
  }

  lemma FirstAndRest<T>(a: seq<T>, x: T)
    requires a != []
    ensures [a[0]] + (a[1..] + [x]) == a + [x]
  {
  }

  /** A key above all the others goes to the end. */
  lemma {:induction false} PutLast(es: seq<Entry>, k: string, v: Value)
    requires forall i :: 0 <= i < |es| ==> Less(es[i].key, k)
    ensures Put(es, k, v) == es + [Entry(k, v)]
  {
    if es != [] {
      LessAsymmetric(es[0].key, k);
      PutLast(es[1..], k, v);
      FirstAndRest(es, Entry(k, v));
    }
  }

  lemma ParseOneEntry(e: Entry, more: string, before: seq<Entry>)
    requires |e.key| <= MAX_INT32 && Parse(Print(e.value) + more) == Ok(e.value, more)
    ensures ParseEntries(PrintString(e.key) + (Print(e.value) + more), before) == ParseEntries(more, Put(before, e.key, e.value))
  {
    var s := PrintString(e.key) + (Print(e.value) + more);
    StringStart(e.key);
    assert s[0] == PrintString(e.key)[0];
    ReadPrintedString(e.key, Print(e.value) + more);
  }

  lemma {:induction false} RoundTripEntries(b: Value, es: seq<Entry>, before: seq<Entry>, t: string)
    requires b.Dict? && before + es == b.entries && WellFormed(b)
    ensures ParseEntries(PrintEntries(es) + ("e" + t), before) == Ok(before + es, t)
    decreases b, |es|
  {
    var s := PrintEntries(es) + ("e" + t);
    if es == [] {
      assert s == "e" + t && before + es == before;
    } else {
      var first := es[0];
      var more := PrintEntries(es[1..]) + ("e" + t);
      assert first == b.entries[|before|];
      Regroup(PrintString(first.key), Print(first.value), PrintEntries(es[1..]), "e" + t);
      RoundTrip(first.value, more);
      ParseOneEntry(first, more, before);
      forall i | 0 <= i < |before| ensures Less(before[i].key, first.key) { assert before[i] == b.entries[i]; }
      PutLast(before, first.key, first.value);
      ShiftFirst(before, es);
      RoundTripEntries(b, es[1..], before + [first], t);
    }
  }

  // ---------------------------------------------------------------- what a parse can produce

  lemma {:induction false} PutKeepsOrder(es: seq<Entry>, k: string, v: Value)
    requires SortedKeys(es)
    ensures SortedKeys(Put(es, k, v))
    ensures forall x :: x in Put(es, k, v) ==> x == Entry(k, v) || x in es
  {
    if es != [] {
      LessAsymmetric(k, es[0].key);
      var tail := es[1..];
      assert forall i :: 0 <= i < |tail| ==> tail[i] == es[i + 1];
      if Less(k, es[0].key) {
        PutFirst(es, k, v);
      } else if es[0].key != k {
        PutKeepsOrder(tail, k, v);
        PutAfter(es[0], Put(tail, k, v), tail, Entry(k, v));
      } else {
        PutAfter(Entry(k, v), tail, tail, Entry(k, v));
      }
    }
  }

  lemma PutFirst(es: seq<Entry>, k: string, v: Value)
    requires SortedKeys(es) && es != [] && Less(k, es[0].key)
    ensures SortedKeys([Entry(k, v)] + es)
  {
    var r := [Entry(k, v)] + es;
    forall i, j | 0 <= i < j < |r| ensures Less(r[i].key, r[j].key) {
      if i == 0 {
        if j > 1 { assert Less(es[0].key, es[j - 1].key); LessTransitive(k, es[0].key, es[j - 1].key); }
      } else {
        assert Less(es[i - 1].key, es[j - 1].key);
      }
    }
  }

  /** first stays in front of a sorted tail whose entries are known to come after it. */
  lemma PutAfter(first: Entry, tail: seq<Entry>, old_: seq<Entry>, new_: Entry)
    requires SortedKeys(tail)
    requires forall x :: x in tail ==> x == new_ || x in old_
    requires forall x :: x in old_ ==> Less(first.key, x.key)
    requires first.key == new_.key || Less(first.key, new_.key)
    requires first.key == new_.key ==> tail == old_
    ensures SortedKeys([first] + tail)
  {
    var r := [first] + tail;
    forall i, j | 0 <= i < j < |r| ensures Less(r[i].key, r[j].key) {
      if i == 0 { assert r[j] in tail; } else { assert Less(tail[i - 1].key, tail[j - 1].key); }
    }
  }

  /** Every value a parse produces is well-formed, whatever the input. */
  lemma {:induction false} ParseWellFormed(s: string)
    ensures Parse(s).Ok? ==> WellFormed(Parse(s).value)
    decreases |s|, 1
  {
    if s != [] && s[0] == 'l' {
      ParseItemsWellFormed(s[1..], []);
    } else if s != [] && s[0] == 'd' {
      ParseEntriesWellFormed(s[1..], []);
    }
  }

  lemma {:induction false} ParseItemsWellFormed(s: string, items: seq<Value>)
    requires forall i :: 0 <= i < |items| ==> WellFormed(items[i])
    ensures ParseItems(s, items).Ok? ==> WellFormed(List(ParseItems(s, items).value))
    decreases |s|, 2
  {
    if !(s != [] && s[0] == 'e') && Parse(s).Ok? {
      ParseWellFormed(s);
      ParseItemsWellFormed(Parse(s).rest, items + [Parse(s).value]);
    }
  }

  lemma {:induction false} ParseEntriesWellFormed(s: string, es: seq<Entry>)
    requires WellFormed(Dict(es))
    ensures ParseEntries(s, es).Ok? ==> WellFormed(Dict(ParseEntries(s, es).value))
    decreases |s|, 2
  {
    if !(s != [] && s[0] == 'e') && ReadString(s).Ok? {
      var key, rest := ReadString(s).value, ReadString(s).rest;
      if Parse(rest).Ok? {
        ParseWellFormed(rest);
        var b := Parse(rest).value;
        PutKeepsOrder(es, key, b);
        var r := Put(es, key, b);
        forall i | 0 <= i < |r| ensures |r[i].key| <= MAX_INT32 && WellFormed(r[i].value) { assert r[i] in r; }
        ParseEntriesWellFormed(Parse(rest).rest, r);
      }
    }
  }

  // ---------------------------------------------------------------- consequences

  /** Printing round-trips for exactly the well-formed values. */
  lemma RoundTripExactly(b: Value)
    ensures WellFormed(b) <==> forall t :: Parse(Print(b) + t) == Ok(b, t)
  {
    if WellFormed(b) {
      forall t ensures Parse(Print(b) + t) == Ok(b, t) { RoundTrip(b, t); }
    } else {
      ParseWellFormed(Print(b) + []);
      assert Parse(Print(b) + []) != Ok(b, []);
    }
  }

  /** Printing is injective, and no printed value is a proper prefix of another. */
  lemma PrefixFree(a: Value, b: Value)
    requires WellFormed(a) && WellFormed(b) && Print(a) <= Print(b)
    ensures a == b
  {
    var p, q := Print(a), Print(b);
    assert q == p + q[|p|..];
    RoundTrip(a, q[|p|..]);
    assert q + [] == q;
    RoundTrip(b, []);
  }

  /** Whatever was accepted, printing it again gives a form that parses to the same value. */
  lemma Reprint(s: string)
    requires Parse(s).Ok?
    ensures Parse(Print(Parse(s).value) + Parse(s).rest) == Parse(s)
  {
    ParseWellFormed(s);
    RoundTrip(Parse(s).value, Parse(s).rest);
  }
}
