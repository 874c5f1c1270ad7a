/** json_escape, json_unescape and the closing-quote scan of win/swarmstate-node.c. */
module JsonEscape {
  import opened Prelude
  import opened JsonText
  import opened JsonCompact

  function EscapeChar(c: char): (r: string)
    ensures 1 <= |r| <= 2
  {
    if c == '"' || c == '\\' then ['\\', c]
    else if c == '\n' then ['\\', 'n']
    else if c == '\t' then ['\\', 't']
    else if c == '\r' then ['\\', 'r']
    else [c]
  }

  function Escape(s: string): string {
    if s == "" then "" else Escape(s[..|s| - 1]) + EscapeChar(s[|s| - 1])
  }

  /** What stands behind a backslash. */
  function UnescapeChar(c: char): string {
    if c == 'n' then ['\n']
    else if c == 't' then ['\t']
    else if c == 'r' then ['\r']
    else if c == '"' || c == '\\' || c == '/' then [c]
    else ['\\', c]
  }

  function Unescape(s: string): string {
    if s == "" then ""
    else if s[0] == '\\' && |s| > 1 then UnescapeChar(s[1]) + Unescape(s[2..])
    else [s[0]] + Unescape(s[1..])
  }

  lemma {:induction false} EscapeCons(c: char, s: string)
    ensures Escape([c] + s) == EscapeChar(c) + Escape(s)
  {
    hide EscapeChar;
    if s == "" {
      assert [c] + s == [c] && [c][..0] == "";
      assert Escape("") == "";
      assert "" + EscapeChar(c) == EscapeChar(c) + "";
    } else {
      var n := |s| - 1;
      EscapeCons(c, s[..n]);
      assert ([c] + s)[..n + 1] == [c] + s[..n];
      assert EscapeChar(c) + (Escape(s[..n]) + EscapeChar(s[n])) == EscapeChar(c) + Escape(s[..n]) + EscapeChar(s[n]);
    }
  }

  lemma UnescapeFront(c: char, rest: string)
    ensures Unescape(EscapeChar(c) + rest) == [c] + Unescape(rest)
  {
    var s := EscapeChar(c) + rest;
    if |EscapeChar(c)| == 2 {
      assert s[2..] == rest;
    } else {
      assert s[1..] == rest;
    }
  }

  /** Embedding a text in a JSON string and taking it out again gives the text back. */
  lemma {:induction false} EscapeRoundTrip(s: string)
    ensures Unescape(Escape(s)) == s
  {
    if s == "" {
    } else {
      EscapeCons(s[0], s[1..]);
      UnescapeFront(s[0], Escape(s[1..]));
      EscapeRoundTrip(s[1..]);
      assert [s[0]] + s[1..] == s;
    }
  }

  /** Inside a string literal: the index of the quote that ends it, or the length. */
  function Quote(esc: bool, s: string): (i: nat)
    ensures i <= |s|
    decreases |s|
  {
    if s == "" then 0
    else if !esc && s[0] == '"' then 0
    else 1 + Quote(!esc && s[0] == '\\', s[1..])
  }

  lemma QuoteFront(c: char, rest: string)
    ensures Quote(false, EscapeChar(c) + rest) == |EscapeChar(c)| + Quote(false, rest)
  {
    var s := EscapeChar(c) + rest;
    if |EscapeChar(c)| == 2 {
      assert s[1..] == [s[1]] + rest && s[1..][1..] == rest;
    } else {
      assert s[1..] == rest;
    }
  }

  /** Whatever was escaped, the scan stops at the quote behind it and not before. */
  lemma {:induction false} QuoteStops(s: string, rest: string)
    ensures Quote(false, Escape(s) + "\"" + rest) == |Escape(s)|
  {
    hide Escape, EscapeChar, Quote;
    EscapeNothing();
    if s == "" {
      assert "" + "\"" + rest == "\"" + rest;
      QuoteFirst(rest);
    } else {
      var c, tail := s[0], s[1..];
      assert [c] + tail == s;
      EscapeCons(c, tail);
      Regroup(EscapeChar(c), Escape(tail), "\"", rest);
      QuoteFront(c, Escape(tail) + "\"" + rest);
      QuoteStops(tail, rest);
    }
  }

  lemma QuoteFirst(rest: string)
    ensures Quote(false, "\"" + rest) == 0
  {
  }

  lemma Regroup(a: string, b: string, c: string, d: string)
    ensures (a + b) + c + d == a + (b + c + d)
  {
  }

  // ---- the plan in a reply ----

  const KEY: string := "\"content\":"

  predicate OccursAt(text: string, key: string, i: nat) {
    i + |key| <= |text| && text[i..i + |key|] == key
  }

  /** strstr */
  function Search(text: string, key: string): (r: Option<nat>)
    ensures r.Some? ==> OccursAt(text, key, r.value)
  {
    SearchFrom(text, key, 0)
  }

  function SearchFrom(text: string, key: string, i: nat): (r: Option<nat>)
    requires i <= |text|
    ensures r.Some? ==> i <= r.value && OccursAt(text, key, r.value)
    ensures r.None? ==> forall k :: i <= k <= |text| ==> !OccursAt(text, key, k)
    ensures r.Some? ==> forall k :: i <= k < r.value ==> !OccursAt(text, key, k)
    decreases |text| - i
  {
    if OccursAt(text, key, i) then Some(i)
    else if i == |text| then None
    else SearchFrom(text, key, i + 1)
  }

  function SkipBlanks(s: string): (i: nat)
    ensures i <= |s|
  {
    if s != "" && (s[0] == ' ' || s[0] == '\t') then 1 + SkipBlanks(s[1..]) else 0
  }

  /** The text behind the first key and the blanks after it. */
  function BehindKey(text: string): Option<string> {
    var at := Search(text, KEY);
    if at.None? then None
    else
      var s := text[at.value + |KEY|..];
      Some(s[SkipBlanks(s)..])
  }

  /** ollama_extract_plan */
  function ExtractPlan(text: string): Option<string> {
    var s := BehindKey(text);
    if s.None? || s.value == "" || s.value[0] != '"' then None
    else
      var value := s.value[1..];
      var e := Quote(false, value);
      if e == |value| then None else Extract(Unescape(value[..e]))
  }

  /** The key stands nowhere before the given place. */
  ghost predicate NoKeyBefore(text: string, n: nat) {
    forall i :: 0 <= i < n ==> !OccursAt(text, "\"content\":", i)
  }

  lemma FirstKey(head: string, rest: string)
    requires NoKeyBefore(head + "\"content\":" + rest, |head|)
    ensures BehindKey(head + "\"content\":" + rest) == Some(rest[SkipBlanks(rest)..])
  {
    var text := head + "\"content\":" + rest;
    assert OccursAt(text, "\"content\":", |head|);
    assert text[|head| + |KEY|..] == rest;
  }

  lemma {:induction false} SkipsAll(blanks: string, rest: string)
    requires forall i :: 0 <= i < |blanks| ==> blanks[i] == ' ' || blanks[i] == '\t'
    requires rest != "" && rest[0] != ' ' && rest[0] != '\t'
    ensures SkipBlanks(blanks + rest) == |blanks|
  {
    if blanks == "" {
      assert blanks + rest == rest;
    } else {
      assert (blanks + rest)[1..] == blanks[1..] + rest;
      SkipsAll(blanks[1..], rest);
    }
  }

  /** A reply that carries the text escaped yields the plan in the text. */
  lemma PlanFromReply(head: string, blanks: string, content: string, tail: string)
    requires forall i :: 0 <= i < |blanks| ==> blanks[i] == ' ' || blanks[i] == '\t'
    requires NoKeyBefore(head + "\"content\":" + (blanks + "\"" + Escape(content) + "\"" + tail), |head|)
    ensures ExtractPlan(head + "\"content\":" + (blanks + "\"" + Escape(content) + "\"" + tail)) == Extract(content)
  {
    hide BehindKey, NoKeyBefore, Extract, Escape, Unescape, Quote;
    var value := Escape(content) + "\"" + tail;
    var rest := blanks + "\"" + Escape(content) + "\"" + tail;
    assert rest == blanks + ("\"" + value);
    FirstKey(head, rest);
    SkipsAll(blanks, "\"" + value);
    assert rest[|blanks|..] == "\"" + value;
    assert ("\"" + value)[1..] == value;
    QuoteStops(content, tail);
    assert value[..|Escape(content)|] == Escape(content);
    EscapeRoundTrip(content);
  }

  /** Nothing but a quote behind the spaces and tabs starts a value. */
  lemma NoValue(head: string, blanks: string, rest: string)
    requires forall i :: 0 <= i < |blanks| ==> blanks[i] == ' ' || blanks[i] == '\t'
    requires rest == "" || rest[0] !in " \t\""
    requires NoKeyBefore(head + "\"content\":" + (blanks + rest), |head|)
    ensures ExtractPlan(head + "\"content\":" + (blanks + rest)) == None
  {
    hide Extract, Unescape, Quote, BehindKey, NoKeyBefore;
    FirstKey(head, blanks + rest);
    if rest == "" {
      assert blanks + rest == blanks;
      OnlyBlanks(blanks);
    } else {
      SkipsAll(blanks, rest);
      assert (blanks + rest)[|blanks|..] == rest;
    }
  }

  /** Without the key there is no plan. */
  lemma NoKey(text: string)
    requires NoKeyBefore(text, |text|)
    ensures ExtractPlan(text) == None
  {
  }

  lemma {:induction false} OnlyBlanks(blanks: string)
    requires forall i :: 0 <= i < |blanks| ==> blanks[i] == ' ' || blanks[i] == '\t'
    ensures SkipBlanks(blanks) == |blanks|
  {
    if blanks != "" { OnlyBlanks(blanks[1..]); }
  }

  // ---- the loops ----

  lemma EscapeSnoc(s: string, i: nat)
    requires i < |s|
    ensures Escape(s[..i + 1]) == Escape(s[..i]) + EscapeChar(s[i])
  {
    assert s[..i + 1][..i] == s[..i];
  }

  /** json_escape: as much of the input as fits with six characters to spare, never half an escape. In a buffer without
      any room the NUL would go behind it, and the method says so instead of writing it. */
  method JsonEscape(input: string, out: array<char>) returns (taken: nat, overrun: bool)
    requires '\0' !in input
    modifies out
    ensures overrun <==> out.Length == 0
    ensures taken <= |input| && (!overrun ==> HoldsString(out, Escape(input[..taken])))
    ensures taken < |input| ==> |Escape(input[..taken])| + 6 >= out.Length
  {
    hide Escape;
    var cap := out.Length;
    var o := 0;
    taken := 0;
    EscapeNothing();
    assert input[..0] == "";
    while taken < |input| && o + 6 < cap
      invariant taken <= |input| && (o == 0 || o + 4 < cap)
      invariant out[..o] == Escape(input[..taken])
    {
      var p := input[taken];
      EscapeSnoc(input, taken);
      ghost var was := out[..o];
      if p == '"' || p == '\\' {
        out[o], out[o + 1] := '\\', p;
        o := o + 2;
      } else if p == '\n' {
        out[o], out[o + 1] := '\\', 'n';
        o := o + 2;
      } else if p == '\t' {
        out[o], out[o + 1] := '\\', 't';
        o := o + 2;
      } else if p == '\r' {
        out[o], out[o + 1] := '\\', 'r';
        o := o + 2;
      } else {
        out[o] := p;
        o := o + 1;
      }
      assert out[..o] == was + EscapeChar(p);
      taken := taken + 1;
    }
    if o == cap { return taken, true; }
    out[o] := '\0';
    overrun := false;
  }

  lemma EscapeNothing()
    ensures Escape("") == ""
  {
  }

  lemma {:induction false} EscapeLength(s: string)
    ensures |s| <= |Escape(s)| <= 2 * |s|
  {
    if s != "" { EscapeLength(s[..|s| - 1]); }
  }

  /** With room for two characters per input character, and seven more, nothing is cut off. */
  lemma EscapeFits(input: string, taken: nat, cap: nat)
    requires taken <= |input| && cap > 2 * |input| + 6
    requires taken < |input| ==> |Escape(input[..taken])| + 6 >= cap
    ensures taken == |input|
  {
    EscapeLength(input[..taken]);
  }

  lemma UnescapeStep(s: string)
    requires s != ""
    ensures s[0] == '\\' && |s| > 1 ==> Unescape(s) == UnescapeChar(s[1]) + Unescape(s[2..])
    ensures !(s[0] == '\\' && |s| > 1) ==> Unescape(s) == [s[0]] + Unescape(s[1..])
  {
  }

  /** One turn of the loop: what is out already, the next character or two, and the rest. */
  lemma UnescapeTurn(was: string, s: string, p: nat)
    requires p < |s|
    ensures s[p] == '\\' && p + 1 < |s| ==>
      was + Unescape(s[p..]) == was + UnescapeChar(s[p + 1]) + Unescape(s[p + 2..])
    ensures !(s[p] == '\\' && p + 1 < |s|) ==> was + Unescape(s[p..]) == was + [s[p]] + Unescape(s[p + 1..])
  {
    UnescapeStep(s[p..]);
    hide Unescape, UnescapeChar;
    assert s[p..][1..] == s[p + 1..];
    if p + 1 < |s| {
      assert s[p..][2..] == s[p + 2..] && s[p..][1] == s[p + 1];
      Regrouped(was, UnescapeChar(s[p + 1]), Unescape(s[p + 2..]));
    }
    Regrouped(was, [s[p]], Unescape(s[p + 1..]));
  }

  lemma Regrouped(a: string, b: string, c: string)
    ensures a + (b + c) == a + b + c
  {
  }

  lemma {:induction false} UnescapeLength(s: string)
    ensures |Unescape(s)| <= |s|
  {
    if s == "" {
    } else if s[0] == '\\' && |s| > 1 {
      UnescapeLength(s[2..]);
    } else {
      UnescapeLength(s[1..]);
    }
  }

  /** json_unescape, into a buffer of the size of the escaped text and a NUL. */
  method JsonUnescape(s: string) returns (out: array<char>)
    requires '\0' !in s
    ensures fresh(out) && HoldsString(out, Unescape(s))
  {
    hide Unescape, UnescapeChar;
    out := new char[|s| + 1](_ => '\0');
    var o, p := 0, 0;
    assert s[0..] == s;
    while p < |s|
      invariant p <= |s| && o <= p
      invariant out[..o] + Unescape(s[p..]) == Unescape(s)
    {
      UnescapeTurn(out[..o], s, p);
      if s[p] == '\\' && p + 1 < |s| {
        p := p + 1;
        o := PutUnescaped(out, o, s[p]);
      } else {
        out[o] := s[p];
        o := o + 1;
      }
      p := p + 1;
    }
    UnescapeNothing();
    assert s[p..] == "" && out[..o] + "" == out[..o];
    UnescapeLength(s);
    out[o] := '\0';
  }

  lemma UnescapeNothing()
    ensures Unescape("") == ""
  {
  }

  /** The switch of json_unescape. */
  method PutUnescaped(out: array<char>, at: nat, c: char) returns (o: nat)
    requires at + 2 <= out.Length
    modifies out
    ensures at < o <= at + 2 && out[..o] == old(out[..at]) + UnescapeChar(c)
  {
    o := at;
    match c
    case 'n' =>
      out[o] := '\n';
      o := o + 1;
    case 't' =>
      out[o] := '\t';
      o := o + 1;
    case 'r' =>
      out[o] := '\r';
      o := o + 1;
    case '"' =>
      out[o] := '"';
      o := o + 1;
    case '\\' =>
      out[o] := '\\';
      o := o + 1;
    case '/' =>
      out[o] := '/';
      o := o + 1;
    case _ =>
      out[o], out[o + 1] := '\\', c;
      o := o + 2;
  }

  /** The scan of ollama_extract_plan for the end of the value. */
  method FindQuote(s: string) returns (e: nat)
    ensures e == Quote(false, s)
  {
    hide Quote;
    e := 0;
    var esc := false;
    assert s[0..] == s;
    while e < |s|
      invariant e <= |s| && Quote(false, s) == e + Quote(esc, s[e..])
    {
      QuoteStep(esc, s[e..]);
      assert s[e..][1..] == s[e + 1..];
      if esc {
        esc := false;
      } else if s[e] == '\\' {
        esc := true;
      } else if s[e] == '"' {
        return;
      }
      e := e + 1;
    }
    QuoteEnd(esc);
    assert s[e..] == "";
  }

  lemma QuoteStep(esc: bool, s: string)
    requires s != ""
    ensures Quote(esc, s) == if !esc && s[0] == '"' then 0 else 1 + Quote(!esc && s[0] == '\\', s[1..])
  {
  }

  lemma QuoteEnd(esc: bool)
    ensures Quote(esc, "") == 0
  {
  }

  /** extract_json_object */
  method ExtractJsonObject(text: string) returns (r: Option<string>)
    requires '\0' !in text
    ensures r == Extract(text)
  {
    hide Find, Close;
    var s := Find(text, '{');
    if s == |text| { return None; }
    var depth, inStr, esc := 0, false, false;
    var p := s;
    while p < |text|
      invariant s <= p <= |text| && (inStr || !esc)
      invariant var r := Close(OUTSIDE, 0, text[s..]);
        var q := Close(Mode(inStr, esc), depth, text[p..]);
        r == if q.None? then None else Some(q.value + (p - s))
    {
      CloseStep(Mode(inStr, esc), depth, text[p..]);
      assert text[p..][1..] == text[p + 1..];
      if inStr {
        if esc {
          esc := false;
        } else if text[p] == '\\' {
          esc := true;
        } else if text[p] == '"' {
          inStr := false;
        }
      } else {
        if text[p] == '"' {
          inStr := true;
        } else if text[p] == '{' {
          depth := depth + 1;
        } else if text[p] == '}' {
          depth := depth - 1;
          if depth == 0 {
            return Some(text[s..p + 1]);
          }
        }
      }
      p := p + 1;
    }
    CloseEnd(Mode(inStr, esc), depth);
    assert text[p..] == "";
    r := None;
  }

  /** The key, the blanks behind it and the opening quote: the index of what the quote encloses. */
  method FindValue(text: string) returns (c: Option<nat>)
    ensures var s := BehindKey(text);
      c.None? <==> s.None? || s.value == "" || s.value[0] != '"'
    ensures c.Some? ==> c.value <= |text| && BehindKey(text).value[1..] == text[c.value..]
  {
    hide Search;
    var at := Search(text, KEY);
    if at.None? { return None; }
    var i := at.value + |KEY|;
    ghost var behind := text[i..];
    while i < |text| && (text[i] == ' ' || text[i] == '\t')
      invariant at.value + |KEY| <= i <= |text|
      invariant SkipBlanks(behind) == i - (at.value + |KEY|) + SkipBlanks(text[i..])
    {
      assert text[i..][1..] == text[i + 1..];
      i := i + 1;
    }
    assert behind[SkipBlanks(behind)..] == text[i..];
    if i == |text| || text[i] != '"' { return None; }
    assert text[i..][1..] == text[i + 1..];
    c := Some(i + 1);
  }

  method OllamaExtractPlan(text: string) returns (r: Option<string>)
    requires '\0' !in text
    ensures r == ExtractPlan(text)
  {
    hide Extract, Unescape, Quote, BehindKey;
    var at := FindValue(text);
    if at.None? { return None; }
    var c := at.value;
    var e := FindQuote(text[c..]);
    if c + e == |text| { return None; }
    ghost var inner := text[c..c + e];
    assert text[c..][..e] == inner;
    var plain := JsonUnescape(text[c..c + e]);
    UnescapeNoNul(inner);
    var n := Strlen(plain, Unescape(inner));
    r := ExtractJsonObject(plain[..n]);
  }

  lemma {:induction false} UnescapeNoNul(s: string)
    requires '\0' !in s
    ensures '\0' !in Unescape(s)
  {
    if s == "" {
    } else if s[0] == '\\' && |s| > 1 {
      UnescapeNoNul(s[2..]);
    } else {
      UnescapeNoNul(s[1..]);
    }
  }

  /** The length up to the NUL. */
  method Strlen(a: array<char>, ghost s: string) returns (n: nat)
    requires HoldsString(a, s) && '\0' !in s
    ensures n == |s| && a[..n] == s
  {
    forall k | 0 <= k < |s|
      ensures a[k] != '\0'
    {
      assert a[..|s|][k] == a[k] && s[k] in s;
    }
    n := 0;
    while a[n] != '\0'
      invariant n <= |s|
      decreases |s| - n
    {
      n := n + 1;
    }
  }
}
