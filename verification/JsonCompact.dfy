/** json_compact of win/swarmstate-node.c: white space outside string literals goes, nothing else changes. */
module JsonCompact {
  import opened Prelude
  import opened JsonText

  predicate Blank(c: char) {
    c == ' ' || c == '\n' || c == '\r' || c == '\t'
  }

  function Compacted(m: Mode, s: string): (r: string)
    ensures |r| <= |s|
    decreases |s|
  {
    if s == "" then ""
    else (if m.inStr || !Blank(s[0]) then [s[0]] else "") + Compacted(Next(m, s[0]), s[1..])
  }

  function Compact(s: string): string {
    Compacted(OUTSIDE, s)
  }

  function NonBlank(s: string): string {
    if s == "" then "" else (if s[0] in " \n\r\t" then "" else [s[0]]) + NonBlank(s[1..])
  }

  lemma BlankStays(m: Mode, c: char)
    requires !m.inStr && Blank(c)
    ensures Next(m, c) == m && c != '"' && c != '{' && c != '}'
  {
  }

  /** String literals are kept byte for byte. */
  lemma {:induction false} KeepsLiterals(m: Mode, s: string)
    ensures Literals(m, Compacted(m, s)) == Literals(m, s)
    decreases |s|
  {
    if s != "" {
      KeepsLiterals(Next(m, s[0]), s[1..]);
      if m.inStr || !Blank(s[0]) {
        assert ([s[0]] + Compacted(Next(m, s[0]), s[1..]))[1..] == Compacted(Next(m, s[0]), s[1..]);
      } else {
        BlankStays(m, s[0]);
        assert "" + Compacted(m, s[1..]) == Compacted(m, s[1..]);
      }
    }
  }

  /** Outside them exactly the white space is gone. */
  lemma {:induction false} KeepsSkeleton(m: Mode, s: string)
    ensures Skeleton(m, Compacted(m, s)) == NonBlank(Skeleton(m, s))
    decreases |s|
  {
    if s != "" {
      var rest := Compacted(Next(m, s[0]), s[1..]);
      KeepsSkeleton(Next(m, s[0]), s[1..]);
      if m.inStr || !Blank(s[0]) {
        assert ([s[0]] + rest)[1..] == rest;
        if m.inStr || s[0] == '"' {
          assert "" + Skeleton(Next(m, s[0]), s[1..]) == Skeleton(Next(m, s[0]), s[1..]);
          assert "" + Skeleton(Next(m, s[0]), rest) == Skeleton(Next(m, s[0]), rest);
        } else {
          assert ([s[0]] + Skeleton(Next(m, s[0]), s[1..]))[1..] == Skeleton(Next(m, s[0]), s[1..]);
        }
      } else {
        BlankStays(m, s[0]);
        assert "" + rest == rest;
        assert ([s[0]] + Skeleton(m, s[1..]))[1..] == Skeleton(m, s[1..]);
      }
    }
  }

  lemma {:induction false} NonBlankClean(s: string, i: nat)
    requires i < |NonBlank(s)|
    ensures NonBlank(s)[i] !in " \n\r\t"
  {
    if s[0] in " \n\r\t" {
      NonBlankClean(s[1..], i);
    } else if i > 0 {
      NonBlankClean(s[1..], i - 1);
    }
  }

  /** No white space is left outside string literals. */
  lemma NoBlankOutside(s: string, i: nat)
    requires i < |Skeleton(OUTSIDE, Compact(s))|
    ensures Skeleton(OUTSIDE, Compact(s))[i] !in " \n\r\t"
  {
    KeepsSkeleton(OUTSIDE, s);
    NonBlankClean(Skeleton(OUTSIDE, s), i);
  }

  lemma {:induction false} CompactedTwice(m: Mode, s: string)
    ensures Compacted(m, Compacted(m, s)) == Compacted(m, s)
    decreases |s|
  {
    if s != "" {
      var rest := Compacted(Next(m, s[0]), s[1..]);
      CompactedTwice(Next(m, s[0]), s[1..]);
      if m.inStr || !Blank(s[0]) {
        assert ([s[0]] + rest)[1..] == rest;
      } else {
        BlankStays(m, s[0]);
        assert "" + rest == rest;
      }
    }
  }

  lemma CompactIdempotent(s: string)
    ensures Compact(Compact(s)) == Compact(s)
  {
    CompactedTwice(OUTSIDE, s);
  }

  /** A slice that closes at its end still does. */
  lemma {:induction false} CompactCloses(m: Mode, depth: int, s: string)
    requires Close(m, depth, s) == Some(|s|)
    ensures Close(m, depth, Compacted(m, s)) == Some(|Compacted(m, s)|)
    decreases |s|
  {
    var c, next, d := s[0], Next(m, s[0]), DepthNext(m, depth, s[0]);
    CloseStep(m, depth, s);
    if !m.inStr && c == '}' && depth == 1 {
      assert s[1..] == "";
      assert Compacted(m, s) == [c];
    } else {
      CompactCloses(next, d, s[1..]);
      var rest := Compacted(next, s[1..]);
      if m.inStr || !Blank(c) {
        CloseStep(m, depth, [c] + rest);
        assert ([c] + rest)[1..] == rest;
      } else {
        BlankStays(m, c);
        assert "" + rest == rest;
      }
    }
  }

  /** What the extractor found, compacted, is found again whole. */
  lemma CompactExtracts(text: string, plan: string)
    requires Extract(text) == Some(plan)
    ensures Extract(Compact(plan)) == Some(Compact(plan))
  {
    hide Find, Close;
    var i := Find(text, '{');
    var n := Close(OUTSIDE, 0, text[i..]).value;
    var rest := text[i..];
    assert plan == rest[..n];
    CloseWhole(OUTSIDE, 0, rest, n);
    CompactCloses(OUTSIDE, 0, plan);
    FirstKept(plan);
    FindAtStart(Compact(plan));
    var c := Compact(plan);
    assert c[0..] == c && c[0..|c|] == c;
  }

  lemma FirstKept(s: string)
    requires s != "" && s[0] == '{'
    ensures Compact(s) != "" && Compact(s)[0] == '{'
  {
  }

  lemma FindAtStart(s: string)
    requires s != "" && s[0] == '{'
    ensures Find(s, '{') == 0
  {
  }

  /** Cut at the closing brace, the scan ends there. */
  lemma {:induction false} CloseWhole(m: Mode, depth: int, s: string, n: nat)
    requires Close(m, depth, s) == Some(n)
    ensures Close(m, depth, s[..n]) == Some(n)
    decreases |s|
  {
    hide Close;
    CloseStep(m, depth, s);
    CloseStep(m, depth, s[..n]);
    if !(!m.inStr && s[0] == '}' && depth == 1) {
      CloseWhole(Next(m, s[0]), DepthNext(m, depth, s[0]), s[1..], n - 1);
      assert s[..n][1..] == s[1..][..n - 1];
    }
  }

  /** The characters written, and the NUL behind them. */
  ghost predicate HoldsString(a: array<char>, s: string)
    reads a
  {
    |s| < a.Length && a[..|s|] == s && a[|s|] == '\0'
  }

  lemma {:induction false} CompactedAppend(m: Mode, a: string, b: string)
    ensures Compacted(m, a + b) == Compacted(m, a) + Compacted(After(m, a), b)
    decreases |a|
  {
    if a == "" {
      assert "" + b == b;
    } else {
      assert (a + b)[1..] == a[1..] + b;
      CompactedAppend(Next(m, a[0]), a[1..], b);
    }
  }

  /** One character more of the input. */
  lemma CompactedSnoc(a: string, c: char)
    ensures Compacted(OUTSIDE, a + [c]) ==
      Compacted(OUTSIDE, a) + if After(OUTSIDE, a).inStr || !Blank(c) then [c] else ""
    ensures After(OUTSIDE, a + [c]) == Next(After(OUTSIDE, a), c)
  {
    CompactedAppend(OUTSIDE, a, [c]);
    AfterSnoc(OUTSIDE, a, c);
    assert [c][1..] == "";
  }

  /** Blanks outside literals do not move the scanner. */
  lemma {:induction false} AfterCompacted(m: Mode, s: string)
    ensures After(m, Compacted(m, s)) == After(m, s)
    decreases |s|
  {
    if s != "" {
      var rest := Compacted(Next(m, s[0]), s[1..]);
      AfterCompacted(Next(m, s[0]), s[1..]);
      if m.inStr || !Blank(s[0]) {
        assert ([s[0]] + rest)[1..] == rest;
      } else {
        BlankStays(m, s[0]);
        assert "" + rest == rest;
      }
    }
  }

  /** The loop checks for room once for both characters of an escape, so one that starts in the last place but one
      fills the buffer and leaves no place for the NUL. */
  predicate Overruns(input: string, cap: nat) {
    cap == 0 || (|Compact(input)| >= cap && After(OUTSIDE, Compact(input)[..cap - 1]).esc)
  }

  /** After part of the input: what is written of it, and where the scanner is. */
  lemma Written(input: string, q: nat)
    requires q <= |input|
    ensures var done := Compacted(OUTSIDE, input[..q]);
            done <= Compact(input) && After(OUTSIDE, done) == After(OUTSIDE, input[..q])
  {
    assert input[..q] + input[q..] == input;
    CompactedAppend(OUTSIDE, input[..q], input[q..]);
    AfterCompacted(OUTSIDE, input[..q]);
  }

  /** An escape that fills the buffer. */
  lemma EscapeFills(input: string, q: nat, cap: nat)
    requires q + 1 < |input| && After(OUTSIDE, input[..q]) == Mode(true, false) && input[q] == '\\'
    requires cap == |Compacted(OUTSIDE, input[..q])| + 2
    ensures Overruns(input, cap)
  {
    hide Compacted, After;
    assert input[..q + 1] == input[..q] + [input[q]];
    assert input[..q + 2] == input[..q + 1] + [input[q + 1]];
    CompactedSnoc(input[..q], input[q]);
    CompactedSnoc(input[..q + 1], input[q + 1]);
    Written(input, q + 1);
    Written(input, q + 2);
    assert Compact(input)[..cap - 1] == Compacted(OUTSIDE, input[..q + 1]);
  }

  /** The loop ended: the whole input is done, or the buffer is full and no escape was cut. */
  lemma Ended(input: string, q: nat, cap: nat)
    requires q <= |input| && |Compacted(OUTSIDE, input[..q])| < cap
    requires q < |input| ==> |Compacted(OUTSIDE, input[..q])| == cap - 1 && !After(OUTSIDE, input[..q]).esc
    ensures !Overruns(input, cap)
    ensures Compacted(OUTSIDE, input[..q]) == Compact(input)[..Min(|Compact(input)|, cap - 1)]
  {
    hide Compacted, After;
    Written(input, q);
    if q == |input| {
      assert input[..q] == input;
    } else {
      assert Compact(input)[..cap - 1] == Compacted(OUTSIDE, input[..q]);
    }
  }

  /** json_compact: as much of the compacted text as leaves room for the NUL. Where the NUL would go behind the buffer,
      the method says so instead of writing it. */
  method JsonCompact(input: string, out: array<char>) returns (overrun: bool)
    requires '\0' !in input
    modifies out
    ensures overrun == Overruns(input, out.Length)
    ensures !overrun ==> HoldsString(out, Compact(input)[..Min(|Compact(input)|, out.Length - 1)])
    ensures overrun ==> out.Length <= |Compact(input)| && out[..] == Compact(input)[..out.Length]
  {
    hide Compacted, After, Overruns;
    var cap := out.Length;
    var o, inStr := 0, false;
    var q := 0;
    CompactedNothing();
    assert input[..0] == "";
    while q < |input| && o + 1 < cap
      invariant q <= |input| && o <= cap
      invariant After(OUTSIDE, input[..q]) == Mode(inStr, false) || q == |input|
      invariant out[..o] == Compacted(OUTSIDE, input[..q])
      invariant 0 < o == cap ==> Overruns(input, cap)
    {
      var ch := input[q];
      CompactedSnoc(input[..q], ch);
      assert input[..q + 1] == input[..q] + [ch];
      if inStr {
        out[o] := ch;
        o := o + 1;
        if ch == '\\' && q + 1 < |input| {
          CompactedSnoc(input[..q + 1], input[q + 1]);
          assert input[..q + 2] == input[..q + 1] + [input[q + 1]];
          if o + 1 == cap { EscapeFills(input, q, cap); }
          q := q + 1;
          out[o] := input[q];
          o := o + 1;
        } else if ch == '"' {
          inStr := false;
        }
      } else if ch == '"' {
        inStr := true;
        out[o] := ch;
        o := o + 1;
      } else if ch != ' ' && ch != '\n' && ch != '\r' && ch != '\t' {
        out[o] := ch;
        o := o + 1;
      }
      q := q + 1;
    }
    Written(input, q);
    if o == cap {
      if cap == 0 { NoRoom(input); }
      assert out[..] == out[..o];
      return true;
    }
    Ended(input, q, cap);
    out[o] := '\0';
    overrun := false;
  }

  lemma NoRoom(input: string)
    ensures Overruns(input, 0)
  {
  }

  function Filler(n: nat): (s: string)
    ensures |s| == n && '\0' !in s
  {
    if n == 0 then "" else ['a'] + Filler(n - 1)
  }

  lemma {:induction false} FillerKept(n: nat, rest: string)
    ensures Compacted(Mode(true, false), Filler(n) + rest) == Filler(n) + Compacted(Mode(true, false), rest)
    ensures After(Mode(true, false), Filler(n) + rest) == After(Mode(true, false), rest)
  {
    hide Compacted, After;
    if n == 0 {
      assert "" + rest == rest && "" + Compacted(Mode(true, false), rest) == Compacted(Mode(true, false), rest);
    } else {
      FillerKept(n - 1, rest);
      FillerNext(n, rest);
      var kept := Compacted(Mode(true, false), rest);
      assert ['a'] + (Filler(n - 1) + kept) == Filler(n) + kept;
    }
  }

  lemma FillerNext(n: nat, rest: string)
    requires n > 0
    ensures Compacted(Mode(true, false), Filler(n) + rest) ==
            ['a'] + Compacted(Mode(true, false), Filler(n - 1) + rest)
    ensures After(Mode(true, false), Filler(n) + rest) == After(Mode(true, false), Filler(n - 1) + rest)
  {
    assert Filler(n) + rest == ['a'] + (Filler(n - 1) + rest);
    assert (Filler(n) + rest)[1..] == Filler(n - 1) + rest;
  }

  /** For every capacity from 3 on there is such an input, as long as the buffer. */
  lemma OverrunHappens(cap: nat) returns (input: string)
    requires cap >= 3
    ensures |input| == cap && '\0' !in input && Overruns(input, cap)
  {
    var f := Filler(cap - 3);
    input := ['"'] + (f + ['\\', 'n']);
    FillerKept(cap - 3, ['\\', 'n']);
    FillerKept(cap - 3, ['\\']);
    PairKept();
    hide Filler;
    assert input[1..] == f + ['\\', 'n'];
    assert Compact(input) == input;
    assert input[..cap - 1][1..] == f + ['\\'];
    assert After(OUTSIDE, input[..cap - 1]) == After(Mode(true, false), f + ['\\']);
  }

  lemma PairKept()
    ensures Compacted(Mode(true, false), ['\\', 'n']) == ['\\', 'n']
    ensures After(Mode(true, false), ['\\']) == Mode(true, true)
  {
    assert ['\\', 'n'][1..] == ['n'] && ['n'][1..] == "" && ['\\'][1..] == "";
    assert Compacted(Mode(true, true), ['n']) == ['n'] + Compacted(Mode(true, false), "");
  }

  lemma CompactedNothing()
    ensures Compacted(OUTSIDE, "") == "" && After(OUTSIDE, "") == OUTSIDE
  {
  }
}
