/** _extract_json of harness/planner.py: stripping and fences first, then the same scan as the node. */
module Planner {
  import opened Prelude
  import opened JsonText

  /** The characters that str.strip and \s take for white space. */
  predicate IsSpace(c: char) {
    var n := c as int;
    9 <= n <= 13 || 28 <= n <= 32 || n == 0x85 || n == 0xA0 || n == 0x1680 || 0x2000 <= n <= 0x200A
    || n == 0x2028 || n == 0x2029 || n == 0x202F || n == 0x205F || n == 0x3000
  }

  predicate IsLetter(c: char) {
    'a' <= c <= 'z' || 'A' <= c <= 'Z'
  }

  /** How many characters at the front, or at the end, satisfy a test. */
  function Leading(s: string, test: char -> bool): (n: nat)
    ensures n <= |s| && forall i :: 0 <= i < n ==> test(s[i])
  {
    if s == "" || !test(s[0]) then 0 else 1 + Leading(s[1..], test)
  }

  function Trailing(s: string, test: char -> bool): (n: nat)
    ensures n <= |s| && forall i :: |s| - n <= i < |s| ==> test(s[i])
  {
    if s == "" || !test(s[|s| - 1]) then 0 else 1 + Trailing(s[..|s| - 1], test)
  }

  /** The part of s that is left when a front and an end are cut off. */
  datatype Cut = Cut(front: string, rest: string, end: string)

  ghost predicate CutOf(s: string, c: Cut) {
    s == c.front + c.rest + c.end
  }

  function Strip(s: string): (c: Cut)
    ensures CutOf(s, c) && '{' !in c.front && '}' !in c.end
  {
    var i := Leading(s, IsSpace);
    var t := s[i..];
    var j := |t| - Trailing(t, IsSpace);
    assert s == s[..i] + t[..j] + t[j..];
    Cut(s[..i], t[..j], t[j..])
  }

  const FENCE: string := "```"

  /** The opening fence with its language tag and white space. */
  function OpenFence(s: string): (c: Cut)
    requires |s| >= 3 && s[..3] == FENCE
    ensures CutOf(s, c) && '{' !in c.front && '}' !in c.end
  {
    var i := 3 + Leading(s[3..], IsLetter);
    var j := i + Leading(s[i..], IsSpace);
    FenceInFront(s, s[3..], i, s[i..], j);
    Cut(s[..j], s[j..], "")
  }

  lemma FenceInFront(s: string, t: string, i: nat, u: string, j: nat)
    requires |s| >= 3 && s[..3] == FENCE && 3 <= i <= j <= |s| && t == s[3..] && u == s[i..]
    requires forall k :: 0 <= k < i - 3 ==> IsLetter(t[k])
    requires forall k :: 0 <= k < j - i ==> IsSpace(u[k])
    ensures CutOf(s, Cut(s[..j], s[j..], "")) && '{' !in s[..j]
  {
    assert s == s[..j] + s[j..] + "";
    forall k | 0 <= k < j
      ensures s[k] != '{'
    {
      if k < 3 {
        assert s[..3][k] == '`';
      } else if k < i {
        assert IsLetter(t[k - 3]);
      } else {
        assert IsSpace(u[k - i]);
      }
    }
  }

  /** A closing fence at the very end, with the white space before it. */
  function CloseFence(s: string): (c: Cut)
    ensures CutOf(s, c) && '{' !in c.front && '}' !in c.end
  {
    if |s| >= 3 && s[|s| - 3..] == FENCE then
      var t := s[..|s| - 3];
      var j := |t| - Trailing(t, IsSpace);
      FenceBehind(s, t, j);
      Cut("", s[..j], s[j..])
    else
      assert s == "" + s + "";
      Cut("", s, "")
  }

  lemma FenceBehind(s: string, t: string, j: nat)
    requires |s| >= 3 && t == s[..|s| - 3] && s[|s| - 3..] == FENCE && j <= |t|
    requires forall i :: j <= i < |t| ==> IsSpace(t[i])
    ensures CutOf(s, Cut("", s[..j], s[j..])) && '}' !in s[j..]
  {
    assert s == "" + s[..j] + s[j..];
    forall i | j <= i < |s|
      ensures s[i] != '}'
    {
      if i < |s| - 3 {
        assert IsSpace(t[i]);
      } else {
        assert s[|s| - 3..][i - (|s| - 3)] == '`';
      }
    }
  }

  /** What the scan of _extract_json sees. */
  function Prepared(text: string): string {
    var s := Strip(text).rest;
    if |s| >= 3 && s[..3] == FENCE then CloseFence(OpenFence(s).rest).rest else s
  }

  /** The slice that _extract_json gives to json.loads; None stands for either ValueError. */
  function ExtractJson(text: string): Option<string> {
    Extract(Prepared(text))
  }

  /** What the node sees of a text: C strings end at a NUL. */
  function CString(text: string): string {
    text[..Find(text, '\0')]
  }

  /** The planner and the node pick the same slice of every text without NUL, fenced or not; behind a NUL the node finds
      nothing where the planner may, and that is the only difference. */
  lemma SameSlice(text: string)
    ensures '\0' !in text ==> ExtractJson(text) == Extract(CString(text))
    ensures Extract(CString(text)).Some? ==> ExtractJson(text) == Extract(CString(text))
  {
    hide Extract, ExtractJson, Find;
    AnyFence(text);
    var f := Find(text, '\0');
    assert text[..f] + text[f..] == text;
    if '\0' !in text {
      NoNul(text);
    } else if Extract(CString(text)).Some? {
      ExtractFound(text[..f], text[f..]);
    }
  }

  lemma NoNul(text: string)
    requires '\0' !in text
    ensures CString(text) == text
  {
    var nul := '\0';
    var f := Find(text, nul);
    assert text[..|text|] == text;
  }

  /** Fences and white space around the object make no difference. */
  lemma AnyFence(text: string)
    ensures ExtractJson(text) == Extract(text)
  {
    hide Extract;
    var c := Strip(text);
    ExtractSurrounded(c.front, c.rest, c.end);
    if |c.rest| >= 3 && c.rest[..3] == FENCE {
      var o := OpenFence(c.rest);
      ExtractSurrounded(o.front, o.rest, o.end);
      var e := CloseFence(o.rest);
      ExtractSurrounded(e.front, e.rest, e.end);
    }
  }

  /** The loop of _extract_json over the prepared text. */
  method ExtractLoop(text: string) returns (r: Option<string>)
    ensures r == Extract(text)
  {
    hide Close, Find;
    var start := Find(text, '{');
    if start == |text| { return None; }
    var depth, inStr, esc := 0, false, false;
    var i := start;
    assert text[start..] == text[i..];
    while i < |text|
      invariant start <= i <= |text| && (inStr || !esc)
      invariant var r := Close(OUTSIDE, 0, text[start..]);
        var q := Close(Mode(inStr, esc), depth, text[i..]);
        r == if q.None? then None else Some(q.value + (i - start))
    {
      var ch := text[i];
      CloseStep(Mode(inStr, esc), depth, text[i..]);
      assert text[i..][1..] == text[i + 1..];
      if inStr {
        if esc {
          esc := false;
        } else if ch == '\\' {
          esc := true;
        } else if ch == '"' {
          inStr := false;
        }
      } else {
        if ch == '"' {
          inStr := true;
        } else if ch == '{' {
          depth := depth + 1;
        } else if ch == '}' {
          depth := depth - 1;
          if depth == 0 {
            return Some(text[start..i + 1]);
          }
        }
      }
      i := i + 1;
    }
    CloseEnd(Mode(inStr, esc), depth);
    assert text[i..] == "";
    r := None;
  }
}
