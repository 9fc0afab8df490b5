/** Urls that arrive over a connection, one a line, in chunks of any size. */
module InputLines {

  /** What the url parser says of a line; the parser itself is a parameter. */
  datatype Parse = ParseError | Parsed(url: string, absolute: bool, scheme: string)

  // ---------------------------------------------------------------- lines of a text

  predicate Separator(c: char) {
    c == '\n' || c == '\r'
  }

  ghost predicate OneLine(s: string) {
    forall c :: c in s ==> !Separator(c)
  }

  /** The first separator from some place on, or the end of the text. */
  function Find(s: string, from: nat): (k: nat)
    requires from <= |s|
    ensures from <= k <= |s|
    decreases |s| - from
  {
    if from == |s| || Separator(s[from]) then from else Find(s, from + 1)
  }

  /** The lines that end with a separator. */
  function Lines(s: string): (ls: seq<string>) {
    var k := Find(s, 0);
    if k == |s| then [] else [s[..k]] + Lines(s[k + 1..])
  }

  /** What follows the last separator. */
  function Tail(s: string): (t: string) {
    var k := Find(s, 0);
    if k == |s| then s else Tail(s[k + 1..])
  }

  function Separators(s: string): (cs: string) {
    if s == "" then "" else if Separator(s[0]) then [s[0]] + Separators(s[1..]) else Separators(s[1..])
  }

  function Weave(ls: seq<string>, cs: string): (s: string)
    requires |ls| == |cs|
  {
    if ls == [] then "" else ls[0] + [cs[0]] + Weave(ls[1..], cs[1..])
  }

  // ---------------------------------------------------------------- what is handed on

  predicate Wanted(u: Parse) {
    u.Parsed? && u.absolute && u.scheme == "http"
  }

  /** The urls of terminated lines: two characters or more, absolute, http. */
  function Urls(parse: string -> Parse, ls: seq<string>): (us: seq<string>) {
    if ls == [] then []
    else
      var rest := Urls(parse, ls[1..]);
      if |ls[0]| > 1 && Wanted(parse(ls[0])) then [parse(ls[0]).url] + rest else rest
  }

  /** The url of the unterminated line at the end, of any scheme. */
  function LastUrl(parse: string -> Parse, line: string): (us: seq<string>) {
    if line != "" && parse(line).Parsed? then [parse(line).url] else []
  }

  datatype Conn = Conn(buff: string, count: nat, pushed: seq<string>)

  function Processed(parse: string -> Parse, c: Conn, flush: bool): (r: Conn) {
    var us := Urls(parse, Lines(c.buff));
    var pushed := c.pushed + us;
    if flush then Conn("", c.count + |us|, pushed + LastUrl(parse, Tail(c.buff)))
    else Conn(Tail(c.buff), c.count + |us|, pushed)
  }

  /** Chunks one after the other, each processed as it comes. */
  function Fed(parse: string -> Parse, c: Conn, chunks: seq<string>): (r: Conn)
    decreases |chunks|
  {
    if chunks == [] then c
    else Fed(parse, Processed(parse, c.(buff := c.buff + chunks[0]), false), chunks[1..])
  }

  function Concat(chunks: seq<string>): (s: string) {
    if chunks == [] then "" else chunks[0] + Concat(chunks[1..])
  }

  // ---------------------------------------------------------------- lines cut a text apart

  lemma {:induction false} FindIs(s: string, from: nat, k: nat)
    requires from <= k <= |s| && OneLine(s[from..k]) && (k == |s| || Separator(s[k]))
    ensures Find(s, from) == k
    decreases k - from
  {
    if from < k {
      assert s[from] == s[from..k][0] && s[from] in s[from..k];
      assert s[from + 1..k] == s[from..k][1..];
      FindIs(s, from + 1, k);
    }
  }

  lemma {:induction false} FindFirst(s: string, from: nat)
    requires from <= |s|
    ensures OneLine(s[from..Find(s, from)])
    ensures Find(s, from) < |s| ==> Separator(s[Find(s, from)])
    decreases |s| - from
  {
    var k := Find(s, from);
    if from < k {
      FindFirst(s, from + 1);
      assert s[from..k] == [s[from]] + s[from + 1..k];
    }
  }

  lemma {:induction false} SeparatorsPast(s: string, t: string)
    requires OneLine(s)
    ensures Separators(s + t) == Separators(t)
  {
    if s == "" {
      assert s + t == t;
    } else {
      assert s[0] in s && forall c :: c in s[1..] ==> c in s;
      SeparatorsPast(s[1..], t);
      assert (s + t)[1..] == s[1..] + t;
    }
  }

  lemma CutAt(s: string, k: nat)
    requires k < |s|
    ensures s == s[..k] + ([s[k]] + s[k + 1..])
  {
  }

  lemma Regroup(a: string, b: string, c: string, d: string)
    ensures a + b + c + d == a + (b + (c + d))
  {
  }

  /** The first line, its separator and the rest. */
  lemma LineAhead(s: string)
    ensures var k := Find(s, 0);
      && OneLine(s[..k])
      && (k == |s| ==> s[..k] == s)
      && (k < |s| ==> Separator(s[k]) && s == s[..k] + ([s[k]] + s[k + 1..]))
  {
    var k := Find(s, 0);
    FindFirst(s, 0);
    assert s[0..k] == s[..k];
    if k < |s| {
      CutAt(s, k);
    }
  }

  lemma LinesStep(l: string, c: char, rest: string)
    requires OneLine(l) && Separator(c)
    ensures Lines(l + ([c] + rest)) == [l] + Lines(rest) && Tail(l + ([c] + rest)) == Tail(rest)
    ensures Separators(l + ([c] + rest)) == [c] + Separators(rest)
  {
    var s := l + ([c] + rest);
    assert s[0..|l|] == l && s[..|l|] == l && s[|l| + 1..] == rest;
    FindIs(s, 0, |l|);
    SeparatorsPast(l, [c] + rest);
    assert ([c] + rest)[1..] == rest;
  }

  lemma WeaveStep(l: string, c: char, ls: seq<string>, cs: string, t: string)
    requires |ls| == |cs|
    ensures Weave([l] + ls, [c] + cs) + t == l + ([c] + (Weave(ls, cs) + t))
  {
    assert ([l] + ls)[1..] == ls && ([c] + cs)[1..] == cs;
    Regroup(l, [c], Weave(ls, cs), t);
  }

  /** The lines hold no separator, and with the separators between them they are the text. */
  lemma {:induction false} LinesCut(s: string)
    ensures |Lines(s)| == |Separators(s)| && Weave(Lines(s), Separators(s)) + Tail(s) == s
    ensures OneLine(Tail(s)) && forall l :: l in Lines(s) ==> OneLine(l)
    decreases |s|
  {
    var k := Find(s, 0);
    LineAhead(s);
    if k == |s| {
      SeparatorsPast(s, "");
      assert s + "" == s;
    } else {
      var l, c, rest := s[..k], s[k], s[k + 1..];
      LinesCut(rest);
      LinesStep(l, c, rest);
      WeaveStep(l, c, Lines(rest), Separators(rest), Tail(rest));
    }
  }

  /** The characters themselves: lines and tail hold neither line feed nor carriage return, and nothing else cuts. */
  lemma {:induction false} CutCharacters(s: string)
    ensures '\n' !in Tail(s) && '\r' !in Tail(s)
    ensures forall l :: l in Lines(s) ==> '\n' !in l && '\r' !in l
    ensures forall c :: c in Separators(s) ==> c == '\n' || c == '\r'
  {
    LinesCut(s);
    assert Separator('\n') && Separator('\r');
    OnlySeparators(s);
  }

  lemma {:induction false} OnlySeparators(s: string)
    ensures forall c :: c in Separators(s) ==> Separator(c)
  {
    if s != "" {
      OnlySeparators(s[1..]);
    }
  }

  /** A text may be cut anywhere, if the tail of the first part is read again with the second. */
  lemma {:induction false} LinesConcat(s: string, t: string)
    ensures Lines(s + t) == Lines(s) + Lines(Tail(s) + t)
    ensures Tail(s + t) == Tail(Tail(s) + t)
    decreases |s|
  {
    var k := Find(s, 0);
    LineAhead(s);
    if k < |s| {
      var l, c, rest := s[..k], s[k], s[k + 1..];
      LinesConcat(rest, t);
      LinesStep(l, c, rest);
      LinesStep(l, c, rest + t);
      Shift(l, c, rest, t);
    }
  }

  lemma Shift(l: string, c: char, rest: string, t: string)
    ensures (l + ([c] + rest)) + t == l + ([c] + (rest + t))
  {
  }

  lemma {:induction false} UrlsConcat(parse: string -> Parse, a: seq<string>, b: seq<string>)
    ensures Urls(parse, a + b) == Urls(parse, a) + Urls(parse, b)
  {
    if a == [] {
      assert a + b == b;
    } else {
      UrlsConcat(parse, a[1..], b);
      assert (a + b)[1..] == a[1..] + b;
    }
  }

  /** A terminated line is handed on exactly when it has two characters or more and is an absolute http url. */
  lemma LineWanted(parse: string -> Parse, line: string, u: string)
    ensures Urls(parse, [line]) == [u] <==> |line| >= 2 && parse(line) == Parsed(u, true, "http")
    ensures Urls(parse, [line]) == [] <==>
      |line| < 2 || parse(line).ParseError? || !parse(line).absolute || parse(line).scheme != "http"
  {
    var us := Urls(parse, [line]);
    assert [line][1..] == [] && Urls(parse, []) == [];
    assert us == if |line| > 1 && Wanted(parse(line)) then [parse(line).url] else [];
    assert us == [u] ==> us[0] == u;
  }

  /** The line cut off by the end is handed on exactly when it is not empty and parses. */
  lemma LastWanted(parse: string -> Parse, line: string, u: string)
    ensures LastUrl(parse, line) == [u] <==> |line| >= 1 && parse(line).Parsed? && parse(line).url == u
    ensures LastUrl(parse, line) == [] <==> line == "" || parse(line).ParseError?
  {
  }

  lemma {:induction false} FindShift(s: string, from: nat)
    requires from <= |s|
    ensures Find(s[from..], 0) == Find(s, from) - from
  {
    var k := Find(s, from);
    FindFirst(s, from);
    assert s[from..][0..k - from] == s[from..k];
    FindIs(s[from..], 0, k - from);
  }

  /** The line that the loop takes next, or the tail. */
  lemma LineFrom(s: string, from: nat)
    requires from <= |s|
    ensures var k := Find(s, from);
      && (k < |s| ==> Lines(s[from..]) == [s[from..k]] + Lines(s[k + 1..]) && Tail(s[from..]) == Tail(s[k + 1..]))
      && (k == |s| ==> Lines(s[from..]) == [] && Tail(s[from..]) == s[from..])
  {
    var k := Find(s, from);
    FindShift(s, from);
    var rest := s[from..];
    assert rest[..k - from] == s[from..k];
    assert k < |s| ==> rest[k - from + 1..] == s[k + 1..];
  }

  function UrlOf(u: Parse): (us: seq<string>) {
    if Wanted(u) then [u.url] else []
  }

  /** The urls still to come from some place on. */
  function Coming(parse: string -> Parse, s: string, from: nat): (us: seq<string>)
    requires from <= |s|
  {
    Urls(parse, Lines(s[from..]))
  }

  lemma UrlsHead(parse: string -> Parse, l: string, rest: seq<string>)
    ensures Urls(parse, [l] + rest) == (if |l| > 1 then UrlOf(parse(l)) else []) + Urls(parse, rest)
  {
    assert ([l] + rest)[1..] == rest;
  }

  lemma Extend(a: seq<string>, b: seq<string>, c: seq<string>)
    ensures a + (b + c) == (a + b) + c && [] + c == c
  {
  }

  lemma UrlsFrom(parse: string -> Parse, s: string, from: nat, done: seq<string>)
    requires from <= |s| && Find(s, from) < |s|
    ensures var k := Find(s, from);
      && (k > from + 1 ==> done + Coming(parse, s, from) == (done + UrlOf(parse(s[from..k]))) + Coming(parse, s, k + 1))
      && (k <= from + 1 ==> Coming(parse, s, from) == Coming(parse, s, k + 1))
  {
    var k := Find(s, from);
    LineFrom(s, from);
    var l, rest := s[from..k], Lines(s[k + 1..]);
    UrlsHead(parse, l, rest);
    Extend(done, UrlOf(parse(l)), Urls(parse, rest));
  }

  /** Where the loop stands: the urls pushed and the urls to come are all of them. */
  ghost predicate Standing(parse: string -> Parse, s: string, from: nat, done: seq<string>, all: seq<string>) {
    from <= |s| && done + Coming(parse, s, from) == all && Tail(s[from..]) == Tail(s)
  }

  lemma StandingStart(parse: string -> Parse, s: string, done: seq<string>)
    ensures Standing(parse, s, 0, done, done + Urls(parse, Lines(s)))
  {
    ComingAll(parse, s);
  }

  lemma StandingNext(parse: string -> Parse, s: string, from: nat, done: seq<string>, all: seq<string>)
    requires Standing(parse, s, from, done, all) && Find(s, from) < |s|
    ensures var k := Find(s, from);
      Standing(parse, s, k + 1, if k > from + 1 then done + UrlOf(parse(s[from..k])) else done, all)
  {
    LineFrom(s, from);
    UrlsFrom(parse, s, from, done);
  }

  lemma StandingEnd(parse: string -> Parse, s: string, from: nat, done: seq<string>, all: seq<string>)
    requires Standing(parse, s, from, done, all) && Find(s, from) == |s|
    ensures done == all && s[from..] == Tail(s)
  {
    LineFrom(s, from);
    assert done + [] == done;
  }

  lemma ComingAll(parse: string -> Parse, s: string)
    ensures Coming(parse, s, 0) == Urls(parse, Lines(s)) && Tail(s[0..]) == Tail(s)
  {
    assert s[0..] == s;
  }

  /** The three ways out of process_input_buff. */
  lemma ProcessedIs(parse: string -> Parse, c: Conn, flush: bool)
    ensures var us, tail := Urls(parse, Lines(c.buff)), Tail(c.buff);
      var r, n := Processed(parse, c, flush), c.count + |us|;
      && (tail == "" ==> r == Conn("", n, c.pushed + us))
      && (tail != "" && !flush ==> r == Conn(tail, n, c.pushed + us))
      && (tail != "" && flush ==> r == Conn("", n, c.pushed + us + LastUrl(parse, tail)))
  {
    assert c.pushed + Urls(parse, Lines(c.buff)) + [] == c.pushed + Urls(parse, Lines(c.buff));
  }

  lemma NothingToProcess(parse: string -> Parse, c: Conn, flush: bool)
    requires c.buff == ""
    ensures Processed(parse, c, flush) == c
  {
    assert Lines("") == [] && Tail("") == "";
    assert c.pushed + [] == c.pushed;
  }

  // ---------------------------------------------------------------- chunks do not matter

  /** Two chunks one after the other are as good as one. */
  lemma ProcessTwice(parse: string -> Parse, c: Conn, t: string, flush: bool)
    ensures var once := Processed(parse, c, false);
      Processed(parse, once.(buff := once.buff + t), flush) == Processed(parse, c.(buff := c.buff + t), flush)
  {
    var s := c.buff;
    var a, b := Urls(parse, Lines(s)), Urls(parse, Lines(Tail(s) + t));
    LinesConcat(s, t);
    UrlsConcat(parse, Lines(s), Lines(Tail(s) + t));
    Extend(c.pushed, a, b);
  }

  /** However the text is cut into chunks, the lines handed on are those of the whole text. */
  lemma {:induction false} ChunksDoNotMatter(parse: string -> Parse, c: Conn, chunks: seq<string>)
    ensures Processed(parse, Fed(parse, c, chunks), true)
         == Processed(parse, c.(buff := c.buff + Concat(chunks)), true)
    decreases |chunks|
  {
    if chunks == [] {
      assert c.buff + "" == c.buff;
    } else {
      var with0 := c.(buff := c.buff + chunks[0]);
      var once := Processed(parse, with0, false);
      ChunksDoNotMatter(parse, once, chunks[1..]);
      ProcessTwice(parse, with0, Concat(chunks[1..]), true);
      assert c.buff + chunks[0] + Concat(chunks[1..]) == c.buff + Concat(chunks);
    }
  }

  /** From a new connection to its end. */
  lemma WholeConnection(parse: string -> Parse, chunks: seq<string>)
    ensures var text := Concat(chunks);
      var end := Processed(parse, Fed(parse, Conn("", 0, []), chunks), true);
      && end.pushed == Urls(parse, Lines(text)) + LastUrl(parse, Tail(text))
      && end.count == |Urls(parse, Lines(text))| && end.buff == ""
  {
    ChunksDoNotMatter(parse, Conn("", 0, []), chunks);
    assert "" + Concat(chunks) == Concat(chunks);
    assert [] + Urls(parse, Lines(Concat(chunks))) == Urls(parse, Lines(Concat(chunks)));
  }

  // ---------------------------------------------------------------- the class

  class Connection {

    const parse: string -> Parse
    var inputBuff: string
    var numUrls: nat
    /** The urls given to the classifier, in order. */
    var pushed: seq<string>

    function Value(): (c: Conn)
      reads this
    {
      Conn(inputBuff, numUrls, pushed)
    }

    constructor (parse: string -> Parse)
      ensures this.parse == parse && Value() == Conn("", 0, [])
    {
      this.parse := parse;
      inputBuff, numUrls, pushed := "", 0, [];
    }

    method PushLine(line: string)
      modifies this`numUrls, this`pushed
      ensures pushed == old(pushed) + UrlOf(parse(line))
      ensures numUrls - |pushed| == old(numUrls) - old(|pushed|)
    {
      var url := parse(line);
      if url.Parsed? && url.absolute && url.scheme == "http" {
        numUrls := numUrls + 1;
        pushed := pushed + [url.url];
      }
    }

    /** Takes the terminated lines out of the buffer; gives the place after the last one. */
    method TakeLines() returns (tortoise: nat)
      modifies this`numUrls, this`pushed
      ensures tortoise <= |inputBuff| && inputBuff[tortoise..] == Tail(inputBuff)
      ensures pushed == old(pushed) + Urls(parse, Lines(inputBuff))
      ensures numUrls == old(numUrls) + |Urls(parse, Lines(inputBuff))|
    {
      ghost var all := pushed + Urls(parse, Lines(inputBuff));
      tortoise := 0;
      StandingStart(parse, inputBuff, pushed);
      var hare := Find(inputBuff, tortoise);
      while hare < |inputBuff|
        invariant Standing(parse, inputBuff, tortoise, pushed, all)
        invariant hare == Find(inputBuff, tortoise)
        invariant numUrls - |pushed| == old(numUrls) - old(|pushed|)
        decreases |inputBuff| - tortoise
      {
        StandingNext(parse, inputBuff, tortoise, pushed, all);
        if hare > tortoise + 1 {
          PushLine(inputBuff[tortoise..hare]);
        }
        tortoise := hare + 1;
        hare := Find(inputBuff, tortoise);
      }
      StandingEnd(parse, inputBuff, tortoise, pushed, all);
    }

    /** The line that the end of the connection cuts off: no check of its scheme, no count. */
    method PushLast(line: string)
      requires line != ""
      modifies this`pushed
      ensures pushed == old(pushed) + LastUrl(parse, line)
    {
      var url := parse(line);
      if url.Parsed? {
        pushed := pushed + [url.url];
      }
    }

    method ProcessInputBuff(flush: bool)
      modifies this
      ensures Value() == Processed(parse, old(Value()), flush)
    {
      ghost var was := Value();
      if inputBuff == "" {
        NothingToProcess(parse, was, flush);
        return;
      }
      ProcessedIs(parse, was, flush);
      var tortoise := TakeLines();
      if flush && tortoise < |inputBuff| {
        PushLast(inputBuff[tortoise..]);
        inputBuff := "";
      } else if tortoise < |inputBuff| {
        inputBuff := inputBuff[tortoise..];
      } else {
        inputBuff := "";
      }
    }

    /** connection_read_cb: a chunk arrives, or the other side has closed. */
    method Read(chunk: string)
      modifies this
      ensures chunk != "" ==> Value() == Fed(parse, old(Value()), [chunk])
      ensures chunk == "" ==> Value() == Processed(parse, old(Value()), true)
    {
      if chunk == "" {
        ProcessInputBuff(true);
      } else {
        inputBuff := inputBuff + chunk;
        ProcessInputBuff(false);
        assert [chunk][1..] == [];
      }
    }
  }
}
