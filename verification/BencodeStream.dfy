/**
 * The stream operators themselves: operator>> consumes an input stream and
 * fills lists and maps in loops, operator<< appends to an output stream.
 */
module BencodeStream {
  import opened Bytes
  import opened Bencode

  /** An input stream: what is left to read, and failbit. */
  class Input {
    var rest: string
    var failed: bool

    constructor (text: string)
      ensures rest == text && !failed
    {
      rest, failed := text, false;
    }

    /** peek(): None stands for EOF. */
    method Peek() returns (c: Option<char>)
      ensures c == if rest == [] then Option.None else Some(rest[0])
    {
      c := if rest == [] then Option.None else Some(rest[0]);
    }

    /** get(): reading past the end sets failbit. */
    method Get() returns (c: Option<char>)
      modifies this
      ensures if old(rest) == [] then c.None? && failed && rest == []
              else c == Some(old(rest)[0]) && rest == old(rest)[1..] && failed == old(failed)
    {
      if rest == [] {
        failed := true;
        return Option.None;
      }
      c := Some(rest[0]);
      rest := rest[1..];
    }

    /** operator>> for integers. */
    method GetInt(lo: int, hi: int) returns (v: int)
      modifies this
      ensures var r := ReadInt(old(rest), lo, hi);
              if r.Some? then v == r.value.0 && rest == r.value.1 && failed == old(failed) else failed
    {
      var r := ReadInt(rest, lo, hi);
      if r.None? {
        failed := true;
        v := 0;
      } else {
        v, rest := r.value.0, r.value.1;
      }
    }

    /** Bencode::read_string; threw when resizing the string throws. */
    method GetString() returns (ok: bool, threw: bool, str: string)
      requires !failed
      modifies this
      ensures match ReadString(old(rest))
              case Ok(s, r) => ok && !threw && str == s && rest == r && !failed
              case Fail => !ok && !threw
              case Throws => threw
    {
      str := "";
      var size := GetInt(MIN_INT32, MAX_INT32);
      if failed { return false, false, ""; }
      var c := Get();
      if c != Some(':') { return false, false, ""; }
      if size < 0 { return false, true, ""; }
      ghost var body := rest;
      var i := 0;
      while i < size && !failed
        invariant 0 <= i <= size
        invariant !failed ==> i <= |body| && str == body[..i] && rest == body[i..]
        invariant failed ==> size > |body|
      {
        var x := Get();
        if x.Some? { str := str + [x.value]; }
        i := i + 1;
      }
      return !failed, false, str;
    }
  }

  /** Reads one value: the outcome of Parse, carried by the stream, the result and the exception flag. */
  ghost predicate Reads(p: Parsed<Value>, b: Value, threw: bool, rest: string, failed: bool) {
    match p
    case Ok(v, r) => !threw && !failed && b == v && rest == r
    case Fail => !threw && failed
    case Throws => threw
  }

  /** operator>>. */
  method GetValue(s: Input) returns (b: Value, threw: bool)
    requires !s.failed
    modifies s
    ensures Reads(Parse(old(s.rest)), b, threw, s.rest, s.failed)
    decreases |s.rest|, 1
  {
    b, threw := Value.None, false;
    var c := s.Peek();
    if c.None? {
      s.failed := true;
      return;
    }
    match c.value {
      case 'i' =>
        var _ := s.Get();
        var v := s.GetInt(MIN_INT64, MAX_INT64);
        if !s.failed {
          var e := s.Get();
          if e == Some('e') { return Int(v), false; }
        }
      case 'l' =>
        var _ := s.Get();
        b, threw := GetList(s);
        return;
      case 'd' =>
        var _ := s.Get();
        b, threw := GetDict(s);
        return;
      case _ =>
        if c.value == 'u' {
          var _ := s.Get();
          c := s.Peek();
        }
        if c.Some? && IsDigit(c.value) {
          var ok, t, str := s.GetString();
          if t { return Value.None, true; }
          if ok { return Str(str), false; }
        }
    }
    s.failed := true;
  }

  /** The loop of a list, after its l. */
  method GetList(s: Input) returns (b: Value, threw: bool)
    requires !s.failed
    modifies s
    ensures match ParseItems(old(s.rest), [])
            case Ok(items, r) => !threw && !s.failed && b == List(items) && s.rest == r
            case Fail => !threw && s.failed
            case Throws => threw
    decreases |s.rest|, 2
  {
    var items := [];
    while !s.failed
      invariant !s.failed ==> |s.rest| <= |old(s.rest)|
      invariant !s.failed ==> ParseItems(s.rest, items) == ParseItems(old(s.rest), [])
      invariant s.failed ==> ParseItems(old(s.rest), []).Fail?
      decreases if s.failed then 0 else |s.rest| + 1
    {
      var c := s.Peek();
      if c == Some('e') {
        var _ := s.Get();
        return List(items), false;
      }
      var item;
      item, threw := GetValue(s);
      if threw { return Value.None, true; }
      items := items + [item];
    }
    return Value.None, false;
  }

  /** The loop of a map, after its d. */
  method GetDict(s: Input) returns (b: Value, threw: bool)
    requires !s.failed
    modifies s
    ensures match ParseEntries(old(s.rest), [])
            case Ok(es, r) => !threw && !s.failed && b == Dict(es) && s.rest == r
            case Fail => !threw && s.failed
            case Throws => threw
    decreases |s.rest|, 2
  {
    var es := [];
    while !s.failed
      invariant !s.failed ==> |s.rest| <= |old(s.rest)|
      invariant !s.failed ==> ParseEntries(s.rest, es) == ParseEntries(old(s.rest), [])
      invariant s.failed ==> ParseEntries(old(s.rest), []).Fail?
      decreases if s.failed then 0 else |s.rest| + 1
    {
      var c := s.Peek();
      if c == Some('e') {
        var _ := s.Get();
        return Dict(es), false;
      }
      var ok, t, key := s.GetString();
      if t { return Value.None, true; }
      if !ok {
        s.failed := true;
        return Value.None, false;
      }
      var item;
      item, threw := GetValue(s);
      if threw { return Value.None, true; }
      es := Put(es, key, item);
    }
    return Value.None, false;
  }

  /** An output stream. */
  class Output {
    var text: string

    constructor ()
      ensures text == ""
    {
      text := "";
    }

    method Put(s: string)
      modifies this
      ensures text == old(text) + s
    {
      text := text + s;
    }
  }

  /** operator<<. */
  method PutValue(o: Output, b: Value)
    modifies o
    ensures o.text == old(o.text) + Print(b)
    decreases b
  {
    match b
    case None =>
    case Int(v) =>
      o.Put("i" + Dec(v) + "e");
    case Str(s) =>
      o.Put(PrintString(s));
    case List(items) =>
      ghost var x := PrintItems(items);
      o.Put("l");
      PutItems(o, b);
      o.Put("e");
      Associate(old(o.text), "l", x);
      Associate(old(o.text), "l" + x, "e");
    case Dict(es) =>
      ghost var x := PrintEntries(es);
      o.Put("d");
      PutEntries(o, b);
      o.Put("e");
      Associate(old(o.text), "d", x);
      Associate(old(o.text), "d" + x, "e");
  }

  method PutItems(o: Output, b: Value)
    requires b.List?
    modifies o
    ensures o.text == old(o.text) + PrintItems(b.items)
    decreases b, 0
  {
    for i := 0 to |b.items|
      invariant o.text + PrintItems(b.items[i..]) == old(o.text) + PrintItems(b.items)
    {
      ghost var before := o.text;
      PutValue(o, b.items[i]);
      assert b.items[i..][1..] == b.items[i + 1..];
      Associate(before, Print(b.items[i]), PrintItems(b.items[i + 1..]));
    }
  }

  method PutEntries(o: Output, b: Value)
    requires b.Dict?
    modifies o
    ensures o.text == old(o.text) + PrintEntries(b.entries)
    decreases b, 0
  {
    for i := 0 to |b.entries|
      invariant o.text + PrintEntries(b.entries[i..]) == old(o.text) + PrintEntries(b.entries)
    {
      ghost var before := o.text;
      var e := b.entries[i];
      o.Put(PrintString(e.key));
      PutValue(o, b.entries[i].value);
      assert b.entries[i..][1..] == b.entries[i + 1..];
      Associate(before, PrintString(e.key), Print(e.value));
      Associate(before, PrintString(e.key) + Print(e.value), PrintEntries(b.entries[i + 1..]));
    }
  }

  lemma Associate(a: string, b: string, c: string)
    ensures (a + b) + c == a + (b + c)
  {
  }
}
