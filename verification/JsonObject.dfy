/** Whole JSON objects in a reply: what the extractors of harness/planner.py and win/swarmstate-node.c find in it. */
module JsonObject {
  import opened Prelude
  import opened JsonText
  import opened JsonString

  /** The inside of an object, by its braces and its strings: any other character stands for itself. */
  datatype Text =
    | Nothing
    | Char(c: char, rest: Text)
    | Literal(body: string, rest: Text)
    | Braces(inside: Text, rest: Text)

  function Written(t: Text): string {
    match t
    case Nothing => ""
    case Char(c, rest) => [c] + Written(rest)
    case Literal(body, rest) => "\"" + body + "\"" + Written(rest)
    case Braces(inside, rest) => "{" + Written(inside) + "}" + Written(rest)
  }

  /** The strings are legal by section 7 of RFC 8259, and there are no other quotes and braces. */
  predicate WellWritten(t: Text) {
    match t
    case Nothing => true
    case Char(c, rest) => c != '"' && c != '{' && c != '}' && WellWritten(rest)
    case Literal(body, rest) => Body(body) && WellWritten(rest)
    case Braces(inside, rest) => WellWritten(inside) && WellWritten(rest)
  }

  function Moved(n: nat, r: Option<nat>): Option<nat> {
    if r.None? then None else Some(n + r.value)
  }

  lemma CloseStep(m: Mode, depth: int, c: char, s: string)
    requires m.inStr || c != '}' || depth != 1
    ensures Close(m, depth, [c] + s) == Moved(1, Close(Next(m, c), DepthNext(m, depth, c), s))
  {
    assert ([c] + s)[1..] == s;
  }

  /** Inside a literal nothing counts. */
  lemma {:induction false} CloseInside(m: Mode, depth: int, s: string, tail: string)
    requires forall k :: 0 <= k < |s| ==> After(m, s[..k]).inStr
    ensures Close(m, depth, s + tail) == Moved(|s|, Close(After(m, s), depth, tail))
    decreases |s|
  {
    hide Close, Next;
    if s == "" {
      assert s + tail == tail;
    } else {
      assert s[..0] == "" && After(m, "") == m;
      var rest := s[1..];
      forall k | 0 <= k < |rest|
        ensures After(Next(m, s[0]), rest[..k]).inStr
      {
        assert s[..k + 1][1..] == rest[..k];
      }
      CloseInside(Next(m, s[0]), depth, rest, tail);
      CloseStep(m, depth, s[0], rest + tail);
      assert [s[0]] + (rest + tail) == s + tail;
    }
  }

  lemma CloseLiteral(depth: int, body: string, tail: string)
    requires Body(body)
    ensures Close(OUTSIDE, depth, "\"" + body + "\"" + tail) == Moved(|body| + 2, Close(OUTSIDE, depth, tail))
  {
    hide Close, Body, After;
    var s := body + "\"";
    forall k | 0 <= k < |s|
      ensures After(Mode(true, false), s[..k]).inStr
    {
      InsideBody(body, k);
      assert s[..k] == body[..k];
    }
    InsideBody(body, 0);
    CloseInside(Mode(true, false), depth, s, tail);
    CloseStep(OUTSIDE, depth, '"', s + tail);
    assert "\"" + body + "\"" + tail == ['"'] + (s + tail);
  }

  lemma Regroup(a: string, b: string, c: string)
    ensures a + b + c == a + (b + c)
  {
  }

  lemma CloseChar(depth: nat, c: char, rest: string, tail: string)
    requires c != '"' && c != '{' && c != '}'
    requires Close(OUTSIDE, depth, rest + tail) == Moved(|rest|, Close(OUTSIDE, depth, tail))
    ensures Close(OUTSIDE, depth, [c] + rest + tail) == Moved(1 + |rest|, Close(OUTSIDE, depth, tail))
  {
    hide Close;
    assert Next(OUTSIDE, c) == OUTSIDE && DepthNext(OUTSIDE, depth, c) == depth;
    hide Next, DepthNext;
    CloseStep(OUTSIDE, depth, c, rest + tail);
    Regroup([c], rest, tail);
  }

  lemma CloseString(depth: nat, body: string, rest: string, tail: string)
    requires Body(body)
    requires Close(OUTSIDE, depth, rest + tail) == Moved(|rest|, Close(OUTSIDE, depth, tail))
    ensures Close(OUTSIDE, depth, "\"" + body + "\"" + rest + tail) ==
      Moved(2 + |body| + |rest|, Close(OUTSIDE, depth, tail))
  {
    hide Close, Body;
    CloseLiteral(depth, body, rest + tail);
    Regroup("\"" + body + "\"", rest, tail);
  }

  lemma CloseBraces(depth: nat, inside: string, rest: string, tail: string)
    requires depth > 0
    requires Close(OUTSIDE, depth, rest + tail) == Moved(|rest|, Close(OUTSIDE, depth, tail))
    requires var behind := ['}'] + (rest + tail);
      Close(OUTSIDE, depth + 1, inside + behind) == Moved(|inside|, Close(OUTSIDE, depth + 1, behind))
    ensures Close(OUTSIDE, depth, "{" + inside + "}" + rest + tail) ==
      Moved(2 + |inside| + |rest|, Close(OUTSIDE, depth, tail))
  {
    hide Close;
    var behind := ['}'] + (rest + tail);
    CloseStep(OUTSIDE, depth + 1, '}', rest + tail);
    CloseStep(OUTSIDE, depth, '{', inside + behind);
    assert "{" + inside + "}" + rest + tail == ['{'] + (inside + behind);
  }

  /** The scan for the closing brace passes over the inside of an object, however deep it is nested. */
  lemma {:induction false} CloseText(depth: nat, t: Text, tail: string)
    requires WellWritten(t) && depth > 0
    ensures Close(OUTSIDE, depth, Written(t) + tail) == Moved(|Written(t)|, Close(OUTSIDE, depth, tail))
    decreases t
  {
    hide Close, Body;
    match t
    case Nothing =>
      assert "" + tail == tail;
    case Char(c, rest) =>
      CloseText(depth, rest, tail);
      CloseChar(depth, c, Written(rest), tail);
    case Literal(body, rest) =>
      CloseText(depth, rest, tail);
      CloseString(depth, body, Written(rest), tail);
    case Braces(inside, rest) =>
      CloseText(depth, rest, tail);
      CloseText(depth + 1, inside, ['}'] + (Written(rest) + tail));
      CloseBraces(depth, Written(inside), Written(rest), tail);
  }

  lemma CloseObject(t: Text, tail: string)
    requires WellWritten(t)
    ensures Close(OUTSIDE, 0, "{" + Written(t) + "}" + tail) == Some(|Written(t)| + 2)
  {
    hide Close, Written, WellWritten;
    var behind := ['}'] + tail;
    CloseLast(tail);
    CloseText(1, t, behind);
    CloseStep(OUTSIDE, 0, '{', Written(t) + behind);
    assert "{" + Written(t) + "}" + tail == ['{'] + (Written(t) + behind);
  }

  lemma CloseLast(tail: string)
    ensures Close(OUTSIDE, 1, ['}'] + tail) == Some(1)
  {
  }

  lemma FirstBrace(front: string, found: string, tail: string)
    requires '{' !in front && found != "" && found[0] == '{'
    ensures var text := front + found + tail;
      Find(text, '{') == |front| && text[|front|..] == found + tail && text[|front|..|front| + |found|] == found
  {
    hide Find;
    var text := front + found + tail;
    var start := Find(text, '{');
    assert text[|front|] == '{';
    NotBefore(text, '{', start);
    NotBefore(front, '{', |front|);
  }

  /** The first object of a text is found, whole, whatever follows it. */
  lemma WholeObject(front: string, t: Text, tail: string)
    requires WellWritten(t) && '{' !in front
    ensures Extract(front + ("{" + Written(t) + "}") + tail) == Some("{" + Written(t) + "}")
  {
    hide Close, Written, WellWritten, Find;
    FirstBrace(front, "{" + Written(t) + "}", tail);
    CloseObject(t, tail);
  }
}
