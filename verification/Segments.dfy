/** Strings cut at slashes, and remove_dot_segments of RFC 3986 over the pieces. */
module PathSegments {

  predicate SlashFree(segs: seq<string>) {
    forall w :: w in segs ==> '/' !in w
  }

  /** The pieces between slashes; a string without slash is one piece. */
  function Split(s: string): (segs: seq<string>)
    ensures segs != []
  {
    if s == "" then [""]
    else
      var rest := Split(s[1..]);
      if s[0] == '/' then [""] + rest else [[s[0]] + rest[0]] + rest[1..]
  }

  function Join(segs: seq<string>): (s: string)
    requires segs != []
  {
    if |segs| == 1 then segs[0] else segs[0] + "/" + Join(segs[1..])
  }

  /** Each piece with its own slash in front. */
  function Text(segs: seq<string>): (s: string) {
    if segs == [] then "" else "/" + segs[0] + Text(segs[1..])
  }

  lemma {:induction false} SplitSlashFree(s: string)
    ensures SlashFree(Split(s))
  {
    if s != "" {
      SplitSlashFree(s[1..]);
      var rest := Split(s[1..]);
      assert forall w :: w in rest[1..] ==> w in rest;
      assert rest[0] in rest;
    }
  }

  lemma {:induction false} JoinSplit(s: string)
    ensures Join(Split(s)) == s
  {
    if s != "" {
      JoinSplit(s[1..]);
      var rest := Split(s[1..]);
      if s[0] == '/' {
        assert ([""] + rest)[1..] == rest;
      } else {
        var all := [[s[0]] + rest[0]] + rest[1..];
        assert all[1..] == rest[1..];
      }
    }
  }

  lemma SplitSlash(s: string)
    ensures Split("/" + s) == [""] + Split(s)
    ensures Split("/" + s)[1..] == Split(s)
  {
    assert ("/" + s)[1..] == s;
    assert ([""] + Split(s))[1..] == Split(s);
  }

  lemma SplitChar(c: char, s: string)
    requires c != '/'
    ensures Split([c] + s) == [[c] + Split(s)[0]] + Split(s)[1..]
  {
    assert ([c] + s)[1..] == s;
  }

  lemma PrependFirst(c: char, a: seq<string>, b: seq<string>)
    requires a != []
    ensures [[c] + (a + b)[0]] + (a + b)[1..] == ([[c] + a[0]] + a[1..]) + b
  {
    assert (a + b)[1..] == a[1..] + b;
  }

  /** Cutting at one slash cuts the pieces into two lists. */
  lemma {:induction false} SplitConcat(s: string, t: string)
    ensures Split(s + ("/" + t)) == Split(s) + Split(t)
  {
    if s == "" {
      assert s + ("/" + t) == "/" + t;
      SplitSlash(t);
    } else {
      var c, rest := s[0], s[1..] + ("/" + t);
      SplitConcat(s[1..], t);
      assert s + ("/" + t) == [c] + rest && s == [c] + s[1..];
      if c == '/' {
        SplitSlash(rest);
        SplitSlash(s[1..]);
        assert [""] + (Split(s[1..]) + Split(t)) == ([""] + Split(s[1..])) + Split(t);
      } else {
        SplitChar(c, rest);
        SplitChar(c, s[1..]);
        PrependFirst(c, Split(s[1..]), Split(t));
      }
    }
  }

  lemma {:induction false} SplitWord(w: string)
    requires '/' !in w
    ensures Split(w) == [w]
  {
    if w != "" {
      SplitWord(w[1..]);
      SplitChar(w[0], w[1..]);
      assert [w[0]] + w[1..] == w;
    }
  }

  lemma {:induction false} SplitText(segs: seq<string>)
    requires SlashFree(segs)
    ensures Split(Text(segs)) == [""] + segs
  {
    if segs != [] {
      var w, rest := segs[0], segs[1..];
      SplitText(rest);
      SplitWord(w);
      assert segs == [w] + rest;
      assert Text(segs) == "/" + (w + Text(rest));
      SplitSlash(w + Text(rest));
      if rest == [] {
        assert w + Text(rest) == w;
      } else {
        var tail := Text(rest)[1..];
        assert Text(rest) == "/" + tail;
        SplitSlash(tail);
        assert ([""] + rest)[1..] == rest;
        SplitConcat(w, tail);
      }
    }
  }

  lemma TextInjective(a: seq<string>, b: seq<string>)
    requires SlashFree(a) && SlashFree(b) && Text(a) == Text(b)
    ensures a == b
  {
    SplitText(a);
    SplitText(b);
    assert ([""] + a)[1..] == a && ([""] + b)[1..] == b;
  }

  lemma {:induction false} TextJoin(segs: seq<string>)
    requires segs != []
    ensures Text(segs) == "/" + Join(segs)
  {
    if |segs| > 1 {
      TextJoin(segs[1..]);
    }
  }

  /** A string that starts with a slash is the text of its pieces. */
  lemma TextOfSplit(s: string)
    requires s != "" && s[0] == '/'
    ensures Split(s) == [""] + Split(s[1..]) && s == Text(Split(s[1..]))
  {
    JoinSplit(s[1..]);
    TextJoin(Split(s[1..]));
    assert s == "/" + s[1..];
  }

  lemma {:induction false} TextConcat(a: seq<string>, b: seq<string>)
    ensures Text(a + b) == Text(a) + Text(b)
  {
    if a == [] {
      assert a + b == b;
    } else {
      TextConcat(a[1..], b);
      assert (a + b)[1..] == a[1..] + b;
    }
  }
}

/** Section 5.2.3 and section 5.2.4 of RFC 3986, on strings as they are written there. */
module Rfc3986 {

  import opened PathSegments

  function NextSlash(s: string, from: nat): (k: nat)
    requires from <= |s|
    ensures from <= k <= |s|
    decreases |s| - from
  {
    if from == |s| || s[from] == '/' then from else NextSlash(s, from + 1)
  }

  /** The output buffer without its last segment and the slash before it. */
  function DropLast(s: string): (r: string)
    ensures |r| <= |s|
  {
    if s == "" then "" else if s[|s| - 1] == '/' then s[..|s| - 1] else DropLast(s[..|s| - 1])
  }

  function RemoveDotSegments(input: string, output: string): (r: string)
    decreases |input|
  {
    if input == "" then output
    else if "../" <= input then RemoveDotSegments(input[3..], output)
    else if "./" <= input then RemoveDotSegments(input[2..], output)
    else if "/./" <= input then RemoveDotSegments(input[2..], output)
    else if input == "/." then RemoveDotSegments("/", output)
    else if "/../" <= input then RemoveDotSegments(input[3..], DropLast(output))
    else if input == "/.." then RemoveDotSegments("/", DropLast(output))
    else if input == "." || input == ".." then output
    else
      var k := NextSlash(input, 1);
      RemoveDotSegments(input[k..], output + input[..k])
  }

  /** Everything of the base up to its last slash. */
  function Directory(base: string): (d: string) {
    if base == "" then "" else if base[|base| - 1] == '/' then base else Directory(base[..|base| - 1])
  }

  /** The path of the target, section 5.2.2, for a reference with a path. */
  function Target(base: string, ref: string): (path: string) {
    if ref != "" && ref[0] == '/' then RemoveDotSegments(ref, "")
    else RemoveDotSegments(Directory(base) + ref, "")
  }

  // ---------------------------------------------------------------- the same over pieces

  predicate Dot(w: string) {
    w == "." || w == ".."
  }

  predicate NoDots(segs: seq<string>) {
    forall w :: w in segs ==> !Dot(w)
  }

  function Pop(segs: seq<string>): (r: seq<string>) {
    if segs == [] then [] else segs[..|segs| - 1]
  }

  function Resolve(segs: seq<string>, output: seq<string>): (r: seq<string>) {
    if segs == [] then output
    else
      var w, rest := segs[0], segs[1..];
      if Dot(w) then
        var popped := if w == "." then output else Pop(output);
        if rest == [] then popped + [""] else Resolve(rest, popped)
      else Resolve(rest, output + [w])
  }

  /** How a buffer "/w..." is recognised. */
  lemma IsWord(segs: seq<string>, d: string)
    requires segs != [] && SlashFree(segs) && '/' !in d
    ensures Text(segs) == "/" + d <==> segs == [d]
  {
    assert Text([d]) == "/" + d;
    if Text(segs) == "/" + d {
      TextInjective(segs, [d]);
    }
  }

  lemma HeadIs(segs: seq<string>, d: string, tail: string)
    requires segs != [] && SlashFree(segs) && '/' !in d
    requires Text(segs) == "/" + (d + ("/" + tail))
    ensures segs[0] == d && |segs| > 1
  {
    SplitSlash(d + ("/" + tail));
    SplitConcat(d, tail);
    SplitWord(d);
    SplitText(segs);
    assert ([""] + segs)[1..] == segs;
  }

  lemma HeadOff(s: string, d: string) returns (tail: string)
    requires "/" + d + "/" <= s
    ensures s == "/" + (d + ("/" + tail))
  {
    tail := s[|d| + 2..];
    var head := "/" + d + "/";
    assert s == head + tail by {
      assert s == s[..|head|] + s[|head|..];
    }
    assert head + tail == "/" + (d + ("/" + tail));
  }

  lemma SlashAhead(a: string, b: string)
    requires b != "" && b[0] == '/'
    ensures a + "/" <= a + b
  {
    assert a + b == (a + "/") + b[1..];
  }

  lemma HeadOn(segs: seq<string>)
    requires |segs| > 1
    ensures "/" + segs[0] + "/" <= Text(segs)
  {
    SlashAhead("/" + segs[0], Text(segs[1..]));
  }

  lemma StartsWith(segs: seq<string>, d: string)
    requires segs != [] && SlashFree(segs) && '/' !in d
    ensures "/" + d + "/" <= Text(segs) <==> segs[0] == d && |segs| > 1
  {
    if "/" + d + "/" <= Text(segs) {
      var tail := HeadOff(Text(segs), d);
      HeadIs(segs, d, tail);
    }
    if segs[0] == d && |segs| > 1 {
      HeadOn(segs);
    }
  }

  lemma {:induction false} NextSlashAt(s: string, from: nat, k: nat)
    requires from <= k <= |s| && '/' !in s[from..k] && (k == |s| || s[k] == '/')
    ensures NextSlash(s, from) == k
    decreases k - from
  {
    if from < k {
      assert s[from..k][0] == s[from];
      assert s[from + 1..k] == s[from..k][1..];
      NextSlashAt(s, from + 1, k);
    }
  }

  lemma {:induction false} DropLastWord(t: string, w: string)
    requires '/' !in w
    ensures DropLast(t + "/" + w) == t
  {
    var s := t + "/" + w;
    if w == "" {
      assert s[..|s| - 1] == t;
    } else {
      assert s[|s| - 1] == w[|w| - 1];
      assert s[..|s| - 1] == t + "/" + w[..|w| - 1];
      DropLastWord(t, w[..|w| - 1]);
    }
  }

  lemma DropLastText(segs: seq<string>)
    requires SlashFree(segs)
    ensures DropLast(Text(segs)) == Text(Pop(segs))
  {
    if segs != [] {
      var w := segs[|segs| - 1];
      TextConcat(Pop(segs), [w]);
      assert segs == Pop(segs) + [w];
      assert Text([w]) == "/" + w;
      assert Text(Pop(segs)) + ("/" + w) == Text(Pop(segs)) + "/" + w;
      DropLastWord(Text(Pop(segs)), w);
    }
  }

  /** Rule E on pieces: the first one moves to the output. */
  lemma MoveSegment(segs: seq<string>, output: seq<string>)
    requires segs != [] && SlashFree(segs)
    ensures var s := Text(segs);
      var k := NextSlash(s, 1);
      s[k..] == Text(segs[1..]) && Text(output) + s[..k] == Text(output + [segs[0]])
  {
    var s, w := Text(segs), segs[0];
    var k := 1 + |w|;
    assert s == "/" + (w + Text(segs[1..]));
    assert s[1..k] == w && s[k..] == Text(segs[1..]) && s[..k] == "/" + w;
    NextSlashAt(s, 1, k);
    TextConcat(output, [w]);
    assert Text([w]) == "/" + w;
  }

  lemma DotHeads()
    ensures "/" + "." + "/" == "/./" && "/" + ".." + "/" == "/../" && "/" + "." == "/." && "/" + ".." == "/.."
  {
  }

  lemma RuleFor(segs: seq<string>, d: string, inside: string, atEnd: string)
    requires segs != [] && SlashFree(segs) && '/' !in d
    requires "/" + d + "/" == inside && "/" + d == atEnd
    ensures inside <= Text(segs) <==> segs[0] == d && |segs| > 1
    ensures Text(segs) == atEnd <==> segs == [d]
  {
    StartsWith(segs, d);
    IsWord(segs, d);
  }

  /** Which rule applies to a buffer that starts with a slash; rules A and D never do. */
  lemma WhichRule(segs: seq<string>)
    requires segs != [] && SlashFree(segs)
    ensures var s := Text(segs);
      && s != "" && s[0] == '/'
      && ("/./" <= s <==> segs[0] == "." && |segs| > 1) && (s == "/." <==> segs == ["."])
      && ("/../" <= s <==> segs[0] == ".." && |segs| > 1) && (s == "/.." <==> segs == [".."])
  {
    DotHeads();
    RuleFor(segs, ".", "/./", "/.");
    RuleFor(segs, "..", "/../", "/..");
  }

  lemma LastSlash(output: seq<string>)
    ensures RemoveDotSegments("/", Text(output)) == Text(output + [""])
  {
    assert Text([""]) == "/";
    MoveSegment([""], output);
    WhichRule([""]);
  }

  lemma {:induction false} RemoveDotsOfText(segs: seq<string>, output: seq<string>)
    requires SlashFree(segs) && SlashFree(output)
    ensures RemoveDotSegments(Text(segs), Text(output)) == Text(Resolve(segs, output))
    decreases |segs|
  {
    if segs != [] {
      var w, rest := segs[0], segs[1..];
      WhichRule(segs);
      if Dot(w) {
        var popped := if w == "." then output else Pop(output);
        DropLastText(output);
        if rest == [] {
          LastSlash(popped);
        } else {
          assert Text(segs) == ("/" + w) + Text(rest);
          RemoveDotsOfText(rest, popped);
        }
      } else {
        MoveSegment(segs, output);
        RemoveDotsOfText(rest, output + [w]);
      }
    }
  }
}
