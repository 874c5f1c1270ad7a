/** JSON texts as the node (win/swarmstate-node.c) and the planner (harness/planner.py) scan them. */
module JsonText {
  import opened Prelude

  /** Where a scanner is: inside a string literal or not, and behind a backslash in it or not. */
  datatype Mode = Mode(inStr: bool, esc: bool)

  const OUTSIDE: Mode := Mode(false, false)

  function Next(m: Mode, c: char): Mode {
    if m.inStr then
      if m.esc then Mode(true, false)
      else if c == '\\' then Mode(true, true)
      else if c == '"' then OUTSIDE
      else m
    else if c == '"' then Mode(true, false)
    else m
  }

  function After(m: Mode, s: string): Mode
    decreases |s|
  {
    if s == "" then m else After(Next(m, s[0]), s[1..])
  }

  /** The characters that are in no string literal, quotes excluded. */
  function Skeleton(m: Mode, s: string): string
    decreases |s|
  {
    if s == "" then ""
    else (if m.inStr || s[0] == '"' then "" else [s[0]]) + Skeleton(Next(m, s[0]), s[1..])
  }

  /** The string literals, quotes included. */
  function Literals(m: Mode, s: string): string
    decreases |s|
  {
    if s == "" then ""
    else (if m.inStr || s[0] == '"' then [s[0]] else "") + Literals(Next(m, s[0]), s[1..])
  }

  function Count(s: string, c: char): nat {
    if s == "" then 0 else (if s[0] == c then 1 else 0) + Count(s[1..], c)
  }

  function Depth(s: string): int {
    Count(Skeleton(OUTSIDE, s), '{') - Count(Skeleton(OUTSIDE, s), '}')
  }

  /** The braces outside string literals balance. */
  predicate Balanced(s: string) {
    !After(OUTSIDE, s).inStr && Depth(s) == 0
  }

  // ---- the scan for the closing brace ----

  function DepthNext(m: Mode, depth: int, c: char): int {
    if m.inStr then depth else if c == '{' then depth + 1 else if c == '}' then depth - 1 else depth
  }

  /** How many characters there are up to the brace that brings the depth to 0. */
  function Close(m: Mode, depth: int, s: string): (r: Option<nat>)
    ensures r.Some? ==> 0 < r.value <= |s|
    decreases |s|
  {
    if s == "" then None
    else if !m.inStr && s[0] == '}' && depth == 1 then Some(1)
    else
      var r := Close(Next(m, s[0]), DepthNext(m, depth, s[0]), s[1..]);
      if r.None? then None else Some(r.value + 1)
  }

  /** extract_json_object: from the first brace to the one that closes it. */
  function Extract(text: string): Option<string> {
    var start := Find(text, '{');
    var n := Close(OUTSIDE, 0, text[start..]);
    if start == |text| || n.None? then None else Some(text[start..start + n.value])
  }

  // ---- it is the shortest balanced slice ----

  lemma {:induction false} AfterSnoc(m: Mode, s: string, c: char)
    ensures After(m, s + [c]) == Next(After(m, s), c)
    decreases |s|
  {
    if s == "" {
      assert "" + [c] == [c] && [c][1..] == "";
    } else {
      assert (s + [c])[1..] == s[1..] + [c];
      AfterSnoc(Next(m, s[0]), s[1..], c);
    }
  }

  lemma {:induction false} CountAppend(a: string, b: string, c: char)
    ensures Count(a + b, c) == Count(a, c) + Count(b, c)
  {
    if a == "" {
      assert "" + b == b;
    } else {
      assert (a + b)[1..] == a[1..] + b;
      CountAppend(a[1..], b, c);
    }
  }

  lemma {:induction false} SkeletonSnoc(m: Mode, s: string, c: char)
    ensures Skeleton(m, s + [c]) == Skeleton(m, s) + if After(m, s).inStr || c == '"' then "" else [c]
    decreases |s|
  {
    if s == "" {
      assert "" + [c] == [c] && [c][1..] == "";
    } else {
      assert (s + [c])[1..] == s[1..] + [c];
      SkeletonSnoc(Next(m, s[0]), s[1..], c);
    }
  }

  /** One character more. */
  lemma DepthSnoc(s: string, c: char)
    ensures Depth(s + [c]) == DepthNext(After(OUTSIDE, s), Depth(s), c)
  {
    SkeletonSnoc(OUTSIDE, s, c);
    var k := Skeleton(OUTSIDE, s);
    CountAppend(k, [c], '{');
    CountAppend(k, [c], '}');
    OneCount(c, '{');
    OneCount(c, '}');
    assert k + "" == k;
  }

  lemma OneCount(c: char, d: char)
    ensures Count([c], d) == if c == d then 1 else 0
  {
    assert [c][1..] == "";
  }

  /** The scan stops at the first prefix, after done, at which the depth is 0 outside strings. */
  lemma {:induction false} CloseShortest(done: string, s: string, n: nat)
    requires 0 < n <= |s| && (done == "" ==> s[0] == '{') && (done != "" ==> Depth(done) > 0)
    ensures Close(After(OUTSIDE, done), Depth(done), s) == Some(n) <==>
      Balanced(done + s[..n]) && forall k :: 0 < k < n ==> !Balanced(done + s[..k])
    decreases |s|
  {
    var m, d, c := After(OUTSIDE, done), Depth(done), s[0];
    var more := done + [c];
    DepthSnoc(done, c);
    AfterSnoc(OUTSIDE, done, c);
    assert done + s[..1] == more;
    hide Balanced, Depth, Close;
    CloseStep(m, d, s);
    if !m.inStr && c == '}' && d == 1 {
      BalancedStep(done, c);
      if n > 1 { assert Balanced(done + s[..1]); }
    } else {
      BalancedStep(done, c);
      if n == 1 {
      } else {
        CloseShortest(more, s[1..], n - 1);
        forall k | 1 < k <= n
          ensures more + s[1..][..k - 1] == done + s[..k]
        {
          assert s[..k] == [c] + s[1..][..k - 1];
        }
        ShiftPrefixes(done, s, more, n);
      }
    }
  }

  lemma CloseStep(m: Mode, depth: int, s: string)
    requires s != ""
    ensures !m.inStr && s[0] == '}' && depth == 1 ==> Close(m, depth, s) == Some(1)
    ensures !(!m.inStr && s[0] == '}' && depth == 1) ==>
      var r := Close(Next(m, s[0]), DepthNext(m, depth, s[0]), s[1..]);
      Close(m, depth, s) == if r.None? then None else Some(r.value + 1)
  {
  }

  lemma CloseEnd(m: Mode, depth: int)
    ensures Close(m, depth, "") == None
  {
  }

  lemma BalancedStep(done: string, c: char)
    requires (done == "" ==> c == '{') && (done != "" ==> Depth(done) > 0)
    ensures Balanced(done + [c]) <==> !After(OUTSIDE, done).inStr && c == '}' && Depth(done) == 1
    ensures !Balanced(done + [c]) ==> Depth(done + [c]) > 0
  {
    DepthSnoc(done, c);
    AfterSnoc(OUTSIDE, done, c);
    hide Depth;
    if done == "" { EmptyDepth(); }
  }

  lemma EmptyDepth()
    ensures Depth("") == 0 && After(OUTSIDE, "") == OUTSIDE
  {
  }

  lemma ShiftPrefixes(done: string, s: string, more: string, n: nat)
    requires 1 < n <= |s| && !Balanced(done + s[..1])
    requires forall k :: 1 < k <= n ==> more + s[1..][..k - 1] == done + s[..k]
    ensures (forall k :: 0 < k < n ==> !Balanced(done + s[..k])) <==>
            (forall k :: 0 < k < n - 1 ==> !Balanced(more + s[1..][..k]))
  {
    hide Balanced;
    if forall k :: 0 < k < n ==> !Balanced(done + s[..k]) {
      forall k | 0 < k < n - 1
        ensures !Balanced(more + s[1..][..k])
      {
        assert more + s[1..][..(k + 1) - 1] == done + s[..k + 1];
      }
    }
    if forall k :: 0 < k < n - 1 ==> !Balanced(more + s[1..][..k]) {
      forall k | 0 < k < n
        ensures !Balanced(done + s[..k])
      {
        if k > 1 { assert more + s[1..][..k - 1] == done + s[..k]; }
      }
    }
  }

  /** The extractor finds exactly the shortest balanced slice from the first brace, if there is one. */
  lemma ExtractShortest(text: string, n: nat)
    requires var i := Find(text, '{'); i < |text| && 0 < n <= |text| - i
    ensures
      var s := text[Find(text, '{')..];
      Close(OUTSIDE, 0, s) == Some(n) <==> Balanced(s[..n]) && forall k :: 0 < k < n ==> !Balanced(s[..k])
  {
    var s := text[Find(text, '{')..];
    EmptyDepth();
    CloseShortest("", s, n);
    forall k | 0 < k <= n
      ensures "" + s[..k] == s[..k]
    {
    }
  }

  lemma {:induction false} FirstBalanced(s: string, n: nat) returns (k: nat)
    requires 0 < n <= |s| && Balanced(s[..n])
    ensures 0 < k <= n && Balanced(s[..k]) && forall i :: 0 < i < k ==> !Balanced(s[..i])
    decreases n
  {
    hide Balanced;
    if i :| 0 < i < n && Balanced(s[..i]) {
      k := FirstBalanced(s, i);
    } else {
      k := n;
    }
  }

  /** And it finds nothing only when nothing balances. */
  lemma ExtractNothing(text: string)
    ensures
      var s := text[Find(text, '{')..];
      Extract(text).None? <==> forall n :: 0 < n <= |s| ==> !Balanced(s[..n])
  {
    hide Balanced, Find;
    var i := Find(text, '{');
    var s := text[i..];
    if i < |text| {
      var r := Close(OUTSIDE, 0, s);
      if r.Some? { ExtractShortest(text, r.value); }
      if n :| 0 < n <= |s| && Balanced(s[..n]) {
        var k := FirstBalanced(s, n);
        ExtractShortest(text, k);
      }
    }
  }

  // ---- what lies around the object does not matter ----

  lemma {:induction false} CloseAppend(m: Mode, depth: int, s: string, tail: string)
    requires '}' !in tail
    ensures Close(m, depth, s + tail) == Close(m, depth, s)
    decreases |s|
  {
    if s == "" {
      assert "" + tail == tail;
      CloseNever(m, depth, tail);
    } else {
      assert (s + tail)[1..] == s[1..] + tail;
      CloseAppend(Next(m, s[0]), DepthNext(m, depth, s[0]), s[1..], tail);
    }
  }

  lemma {:induction false} CloseNever(m: Mode, depth: int, s: string)
    requires '}' !in s
    ensures Close(m, depth, s).None?
    decreases |s|
  {
    if s != "" { CloseNever(Next(m, s[0]), DepthNext(m, depth, s[0]), s[1..]); }
  }

  lemma {:induction false} FindSkips(a: string, s: string, c: char)
    requires c !in a
    ensures Find(a + s, c) == |a| + Find(s, c)
  {
    if a == "" {
      assert "" + s == s;
    } else {
      assert (a + s)[1..] == a[1..] + s;
      FindSkips(a[1..], s, c);
    }
  }

  lemma FindKeeps(s: string, tail: string, c: char)
    requires Find(s, c) < |s|
    ensures Find(s + tail, c) == Find(s, c)
  {
    var i, j := Find(s, c), Find(s + tail, c);
    assert (s + tail)[i] == c;
    NotBefore(s, c, i);
    NotBefore(s + tail, c, j);
  }

  /** Text without an opening brace before, or a closing one behind, leaves the result alone. */
  lemma ExtractSurrounded(a: string, s: string, tail: string)
    requires '{' !in a && '}' !in tail
    ensures Extract(a + s + tail) == Extract(s)
  {
    hide Find, Close;
    var i := Find(s, '{');
    assert a + s + tail == a + (s + tail);
    FindSkips(a, s + tail, '{');
    if i < |s| {
      FindKeeps(s, tail, '{');
      assert (a + s + tail)[|a| + i..] == s[i..] + tail;
      CloseAppend(OUTSIDE, 0, s[i..], tail);
      var n := Close(OUTSIDE, 0, s[i..]);
      if n.Some? { assert (a + s + tail)[|a| + i..|a| + i + n.value] == s[i..i + n.value]; }
    } else {
      NoBraceInFront(s, tail);
      var j := Find(s + tail, '{');
      assert (a + s + tail)[|a| + j..] == (s + tail)[j..];
    }
  }

  lemma {:induction false} CloseFound(m: Mode, depth: int, s: string, tail: string)
    requires Close(m, depth, s).Some?
    ensures Close(m, depth, s + tail) == Close(m, depth, s)
    decreases |s|
  {
    assert (s + tail)[1..] == s[1..] + tail;
    if !(!m.inStr && s[0] == '}' && depth == 1) {
      CloseFound(Next(m, s[0]), DepthNext(m, depth, s[0]), s[1..], tail);
    }
  }

  /** A slice that is found is found whatever follows. */
  lemma ExtractFound(s: string, tail: string)
    requires Extract(s).Some?
    ensures Extract(s + tail) == Extract(s)
  {
    hide Find, Close;
    var i := Find(s, '{');
    FindKeeps(s, tail, '{');
    assert (s + tail)[i..] == s[i..] + tail;
    CloseFound(OUTSIDE, 0, s[i..], tail);
    var n := Close(OUTSIDE, 0, s[i..]).value;
    assert (s + tail)[i..i + n] == s[i..i + n];
  }

  lemma NoBraceInFront(s: string, tail: string)
    requires Find(s, '{') == |s| && '}' !in tail
    ensures Find(s + tail, '{') >= |s|
    ensures Close(OUTSIDE, 0, (s + tail)[Find(s + tail, '{')..]).None?
  {
    hide Find, Close;
    assert s[..|s|] == s;
    FindSkips(s, tail, '{');
    var j := Find(tail, '{');
    assert (s + tail)[|s| + j..] == tail[j..];
    CloseNever(OUTSIDE, 0, tail[j..]);
  }
}
