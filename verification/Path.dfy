/** The class Path: a list of segments and two flags, changed in place. */
module UrlPath {

  import opened PathSegments
  import opened Rfc3986
  import opened PathModel
  import opened PathNormal
  import opened PathLoops

  class Path {

    var segmt: seq<string>
    var slashBegin: bool
    var slashEnd: bool

    ghost predicate Valid()
      reads this
    {
      ValidSegs(segmt)
    }

    function Value(): (p: PathValue)
      reads this
    {
      PathValue(segmt, slashBegin, slashEnd)
    }

    constructor (s: string)
      ensures Valid() && Value() == Assigned(s)
    {
      segmt, slashBegin, slashEnd := [], false, false;
      new;
      Assign(s);
    }

    /** Cuts s at its slashes, skipping the empty pieces. */
    method Assign(s: string)
      modifies this
      ensures Valid() && Value() == Assigned(s)
    {
      AssignedValid(s);
      segmt, slashBegin, slashEnd := [], false, false;
      if s == "" {
        return;
      }
      var begin, end := 0, 0;
      CutStart(s);
      if s[end] == '/' {
        slashBegin := true;
        end := end + 1;
        begin := end;
      }
      Cut(s, begin);
      if s[|s| - 1] == '/' {
        slashEnd := true;
      }
    }

    method Cut(s: string, start: nat)
      requires Cutting(s, start, start, segmt)
      modifies this`segmt
      ensures segmt == NonEmpty(Split(s))
    {
      var begin: nat, end: nat := start, start;
      while true
        invariant Cutting(s, begin, end, segmt)
        decreases |s| - end, end - begin
      {
        if end == |s| {
          if end != begin {
            CutPush(s, begin, end, segmt);
            segmt := segmt + [s[begin..end]];
            begin := end;
          }
          break;
        } else if s[end] == '/' {
          if end != begin {
            CutPush(s, begin, end, segmt);
            segmt := segmt + [s[begin..end]];
            begin := end;
          } else {
            CutSkip(s, end, segmt);
            end := end + 1;
            begin := end;
          }
        } else {
          CutOn(s, begin, end, segmt);
          end := end + 1;
        }
      }
      CutEnd(s, segmt);
    }

    method Size() returns (size: nat)
      ensures size == |Got(Value())|
    {
      size := 0;
      if Empty(Value()) {
        return 0;
      } else if |segmt| > 0 {
        if slashBegin {
          size := size + 1;
        }
        ghost var start := size;
        var i := 0;
        while i < |segmt|
          invariant 0 <= i <= |segmt| && size == start + Total(segmt[..i])
        {
          TotalSnoc(segmt[..i], segmt[i]);
          assert segmt[..i + 1] == segmt[..i] + [segmt[i]];
          size := size + |segmt[i]|;
          i := i + 1;
        }
        assert segmt[..i] == segmt;
        JoinLength(segmt);
        if slashEnd {
          size := size + 1;
        }
        size := size + |segmt| - 1;
      } else if slashBegin || slashEnd {
        return 1;
      }
    }

    method Get() returns (result: string)
      requires Valid()
      ensures result == Got(Value())
    {
      result := "";
      if Empty(Value()) {
        return;
      }
      if |segmt| > 0 {
        if slashBegin {
          result := result + "/";
        }
        result := Append(result);
        if slashEnd {
          result := result + "/";
        }
        assert result == Got(Value());
        NotTwoSlashes(Value());
        if result == "//" {
          result := "/";
        }
      } else if slashBegin || slashEnd {
        result := "/";
      } else {
        result := "";
      }
    }

    /** Adds the segments, each with a slash, and takes the last slash away again. */
    method Append(start: string) returns (result: string)
      requires segmt != []
      ensures result == start + Join(segmt)
    {
      result := start;
      var j := 0;
      while j < |segmt|
        invariant 0 <= j <= |segmt| && result == start + Slashed(segmt[..j])
      {
        SlashedSnoc(segmt[..j], segmt[j]);
        assert segmt[..j + 1] == segmt[..j] + [segmt[j]];
        result := result + segmt[j];
        result := result + "/";
        j := j + 1;
      }
      assert segmt[..j] == segmt;
      SlashedJoin(segmt);
      result := result[..|result| - 1];
    }

    /** Resolves a reference against this path. */
    method Merge(p: Path)
      requires Valid() && p.Valid() && (p == this ==> slashBegin)
      modifies this
      ensures Valid() && Value() == Merged(old(Value()), old(p.Value()))
    {
      if p.slashBegin {
        segmt, slashBegin, slashEnd := p.segmt, p.slashBegin, p.slashEnd;
      } else {
        PopValid(segmt);
        if !slashEnd && segmt != [] && !Empty(p.Value()) {
          segmt := segmt[..|segmt| - 1];
        }
        Follow(p.segmt);
        if p.slashEnd {
          slashEnd := true;
        }
      }
    }

    method Follow(ref: seq<string>)
      requires Valid() && ValidSegs(ref)
      modifies this
      ensures Valid() && Value() == Walk(old(Value()), ref)
    {
      var i := 0;
      assert ref[0..] == ref;
      while i < |ref|
        invariant 0 <= i <= |ref| && Valid()
        invariant Walk(Value(), ref[i..]) == Walk(old(Value()), ref)
      {
        assert ref[i] in ref;
        WalkOn(Value(), ref, i);
        StepValid(Value(), ref[i]);
        if ref[i] == "." {
          slashEnd := true;
        } else if ref[i] == ".." {
          if segmt != [] {
            segmt := segmt[..|segmt| - 1];
            slashEnd := true;
          }
        } else {
          segmt := segmt + [ref[i]];
          slashEnd := false;
        }
        i := i + 1;
      }
    }

    /**
     * Takes away dots, and names followed by two dots, until nothing changes.
     * ok is false where the code steps past the end of an empty list.
     */
    method Normalize() returns (ok: bool)
      modifies this
      ensures ok == (old(segmt) != [])
      ensures Value() == if ok then Normalized(old(Value())) else old(Value())
    {
      if segmt == [] {
        return false;
      }
      ghost var was := segmt;
      ghost var n: nat := 1;
      var i: nat := 1;
      AtStart(was);
      while i < |segmt|
        invariant At(was, n, segmt, i)
        invariant slashBegin == old(slashBegin)
        invariant slashEnd == (old(slashEnd) || (n == |was| && LastDropped(was)))
        decreases |segmt| - i
      {
        i := NormalizeAt(i, was, n);
        n := n + 1;
      }
      AtEnd(was, n, segmt, i);
      ok := true;
    }

    /** One turn of the loop. */
    method NormalizeAt(i: nat, ghost was: seq<string>, ghost n: nat) returns (next: nat)
      requires At(was, n, segmt, i) && i < |segmt|
      modifies this`segmt, this`slashEnd
      ensures At(was, n + 1, segmt, next) && |segmt| - next == old(|segmt|) - i - 1
      ensures slashEnd == (old(slashEnd) || (n + 1 == |was| && LastDropped(was)))
    {
      AtLast(was, n, segmt, i);
      if segmt[i] == ".." && i > 0 && segmt[i - 1] != ".." && segmt[i - 1] != "." {
        NormalizeUp(was, n, segmt, i);
        segmt := segmt[..i - 1] + segmt[i + 1..];
        next := i - 1;
        if next == |segmt| {
          slashEnd := true;
        }
      } else if segmt[i] == "." {
        NormalizeDot(was, n, segmt, i);
        segmt := segmt[..i] + segmt[i + 1..];
        next := i;
        if next == |segmt| {
          slashEnd := true;
        }
      } else {
        NormalizeKeep(was, n, segmt, i);
        next := i + 1;
      }
    }
  }
}
