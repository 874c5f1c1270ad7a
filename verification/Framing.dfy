/** The reading loop of _handle_conn in harness/meshd.py: newline-terminated frames out of arbitrary chunks. */
module Framing {
  import opened Prelude

  const NEWLINE: byte := 10

  /** What bytes.strip removes. */
  predicate IsSpace(b: byte) {
    b == 32 || 9 <= b <= 13
  }

  predicate Blank(line: seq<byte>) {
    forall i :: 0 <= i < |line| ==> IsSpace(line[i])
  }

  /** All terminated lines of a stream, blank ones too. */
  function Lines(s: seq<byte>): seq<seq<byte>>
    decreases |s|
  {
    var i := Find(s, NEWLINE);
    if i == |s| then [] else [s[..i]] + Lines(s[i + 1..])
  }

  function Tail(s: seq<byte>): seq<byte>
    decreases |s|
  {
    var i := Find(s, NEWLINE);
    if i == |s| then s else Tail(s[i + 1..])
  }

  function NonBlank(lines: seq<seq<byte>>): seq<seq<byte>> {
    if lines == [] then []
    else (if Blank(lines[0]) then [] else [lines[0]]) + NonBlank(lines[1..])
  }

  /** What is handed on of a stream. */
  function Frames(s: seq<byte>): seq<seq<byte>> {
    NonBlank(Lines(s))
  }

  lemma SplitStep(s: seq<byte>, i: nat)
    requires i == Find(s, NEWLINE)
    ensures i < |s| ==> Lines(s) == [s[..i]] + Lines(s[i + 1..]) && Tail(s) == Tail(s[i + 1..])
    ensures i == |s| ==> Lines(s) == [] && Tail(s) == s && s[..i] == s
  {
    hide Find;
    if i < |s| {
      LinesCut(s, i);
    } else {
      assert s[..|s|] == s;
    }
  }

  lemma LinesCut(s: seq<byte>, i: nat)
    requires i == Find(s, NEWLINE) && i < |s|
    ensures Lines(s) == [s[..i]] + Lines(s[i + 1..]) && Tail(s) == Tail(s[i + 1..])
  {
    hide Find;
  }

  // ---- splitting is the inverse of terminating ----

  function Terminated(lines: seq<seq<byte>>): seq<byte> {
    if lines == [] then [] else lines[0] + [10] + Terminated(lines[1..])
  }

  /** Lines without newlines in them, terminated and followed by a rest without one, are found again. */
  lemma {:induction false} SplitTerminated(lines: seq<seq<byte>>, rest: seq<byte>)
    requires forall k :: 0 <= k < |lines| ==> 10 !in lines[k]
    requires 10 !in rest
    ensures Lines(Terminated(lines) + rest) == lines && Tail(Terminated(lines) + rest) == rest
  {
    hide Lines, Tail, Find;
    var s := Terminated(lines) + rest;
    var i := Find(s, NEWLINE);
    SplitStep(s, i);
    if lines == [] {
      assert s == rest;
    } else {
      var line, more := lines[0], Terminated(lines[1..]) + rest;
      assert s == line + [NEWLINE] + more;
      assert s[|line|] == NEWLINE;
      FirstUnique(s, i, |line|);
      assert s[..i] == line && s[i + 1..] == more;
      SplitTerminated(lines[1..], rest);
      assert lines == [line] + lines[1..];
    }
  }

  lemma FirstUnique(s: seq<byte>, i: nat, j: nat)
    requires i == Find(s, NEWLINE) && j < |s| && s[j] == NEWLINE && NEWLINE !in s[..j]
    ensures i == j
  {
    NotBefore(s, NEWLINE, i);
    NotBefore(s, NEWLINE, j);
  }

  /** And every stream is such lines and such a rest. */
  lemma {:induction false} TerminatedSplit(s: seq<byte>)
    ensures Terminated(Lines(s)) + Tail(s) == s
    ensures forall k :: 0 <= k < |Lines(s)| ==> 10 !in Lines(s)[k]
    ensures 10 !in Tail(s)
    decreases |s|
  {
    hide Lines, Tail, Find;
    var i := Find(s, NEWLINE);
    SplitStep(s, i);
    if i < |s| {
      var line, rest := s[..i], s[i + 1..];
      TerminatedSplit(rest);
      assert s == line + [NEWLINE] + rest;
      assert ([line] + Lines(rest))[1..] == Lines(rest);
      assert line + [NEWLINE] + Terminated(Lines(rest)) + Tail(rest) ==
             line + [NEWLINE] + (Terminated(Lines(rest)) + Tail(rest));
    }
  }

  // ---- blank lines ----

  /** A line is dropped when there is nothing in it but spaces, tabs, line feeds, vertical tabs, form feeds and carriage
      returns. */
  lemma KeptLine(line: seq<byte>)
    ensures NonBlank([line]) ==
      if forall i :: 0 <= i < |line| ==> line[i] in [0x20, 0x09, 0x0A, 0x0B, 0x0C, 0x0D] then [] else [line]
  {
    assert [line][1..] == [];
  }

  /** With KeptLine, which lines are kept, in their order. */
  lemma {:induction false} FramesAppend(lines: seq<seq<byte>>, more: seq<seq<byte>>)
    ensures NonBlank(lines + more) == NonBlank(lines) + NonBlank(more)
  {
    hide Blank;
    if lines == [] {
      assert [] + more == more;
    } else {
      assert (lines + more)[1..] == lines[1..] + more;
      FramesAppend(lines[1..], more);
    }
  }

  // ---- chunks ----

  /** What is behind the last newline is all that matters of the past. */
  lemma {:induction false} SplitAppend(a: seq<byte>, b: seq<byte>)
    ensures Lines(a + b) == Lines(a) + Lines(Tail(a) + b)
    ensures Tail(a + b) == Tail(Tail(a) + b)
    decreases |a|
  {
    hide Lines, Tail, Find;
    var i := Find(a, NEWLINE);
    SplitStep(a, i);
    SplitStep(a + b, Find(a + b, NEWLINE));
    if i == |a| {
      assert [] + Lines(a + b) == Lines(a + b);
    } else {
      assert (a + b)[i] == NEWLINE && (a + b)[..i] == a[..i];
      FirstUnique(a + b, Find(a + b, NEWLINE), i);
      assert (a + b)[i + 1..] == a[i + 1..] + b;
      SplitAppend(a[i + 1..], b);
      assert [a[..i]] + (Lines(a[i + 1..]) + Lines(Tail(a) + b)) == [a[..i]] + Lines(a[i + 1..]) + Lines(Tail(a) + b);
    }
  }

  class Reader {
    var buf: seq<byte>
    /** The lines given to the control handler or to _apply, in order. */
    var dispatched: seq<seq<byte>>

    constructor ()
      ensures buf == [] && dispatched == []
    {
      buf, dispatched := [], [];
    }

    /** The body of the loop for one recv. */
    method Feed(data: seq<byte>)
      modifies this
      ensures buf == Tail(old(buf) + data)
      ensures dispatched == old(dispatched) + Frames(old(buf) + data)
    {
      hide Frames, Tail, Find, Blank;
      buf := buf + data;
      ghost var all := buf;
      while NEWLINE in buf
        invariant Tail(buf) == Tail(all)
        invariant dispatched + Frames(buf) == old(dispatched) + Frames(all)
        decreases |buf|
      {
        var i := Find(buf, NEWLINE);
        assert buf[..|buf|] == buf;
        var line := buf[..i];
        FramesCons(buf, i);
        Regroup(dispatched, if Blank(line) then [] else [line], Frames(buf[i + 1..]));
        buf := buf[i + 1..];
        if !Blank(line) {
          dispatched := dispatched + [line];
        }
      }
      NoLine(buf);
      assert dispatched + [] == dispatched;
    }
  }

  lemma Regroup<T>(a: seq<T>, b: seq<T>, c: seq<T>)
    ensures a + (b + c) == a + b + c && a + [] == a
  {
  }

  lemma FramesCons(s: seq<byte>, i: nat)
    requires i == Find(s, NEWLINE) && i < |s|
    ensures Frames(s) == (if Blank(s[..i]) then [] else [s[..i]]) + Frames(s[i + 1..])
    ensures Tail(s) == Tail(s[i + 1..])
  {
    hide Lines, Tail, Find, Blank;
    SplitStep(s, i);
    assert ([s[..i]] + Lines(s[i + 1..]))[1..] == Lines(s[i + 1..]);
  }

  lemma NoLine(s: seq<byte>)
    requires NEWLINE !in s
    ensures Frames(s) == [] && Tail(s) == s
  {
  }

  /** A connection, recv after recv: the frames of the whole stream, however it was cut. */
  method ReadAll(chunks: seq<seq<byte>>) returns (r: Reader)
    ensures fresh(r) && r.dispatched == Frames(Joined(chunks)) && r.buf == Tail(Joined(chunks))
  {
    r := new Reader();
    var i := 0;
    NoLine([]);
    assert chunks[..0] == [];
    while i < |chunks|
      invariant i <= |chunks| && fresh(r)
      invariant r.dispatched == Frames(Joined(chunks[..i])) && r.buf == Tail(Joined(chunks[..i]))
    {
      ghost var a := Joined(chunks[..i]);
      r.Feed(chunks[i]);
      SplitAppend(a, chunks[i]);
      FramesAppend(Lines(a), Lines(Tail(a) + chunks[i]));
      assert chunks[..i + 1][..i] == chunks[..i];
      i := i + 1;
    }
    assert chunks[..i] == chunks;
  }
}
