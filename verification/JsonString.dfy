/** The strings of section 7 of RFC 8259, read by the rules of the standard, against the node's own scans. */
module JsonString {
  import opened Prelude
  import opened JsonText
  import opened JsonEscape

  predicate HexDigit(c: char) {
    '0' <= c <= '9' || 'A' <= c <= 'F' || 'a' <= c <= 'f'
  }

  function HexValue(c: char): nat
    requires HexDigit(c)
  {
    if c <= '9' then c as nat - 48 else if c <= 'F' then c as nat - 55 else c as nat - 87
  }

  /** The code that the character behind a backslash stands for; a u has its own rule. */
  const SHORT: map<char, nat> :=
    map['"' := 0x22, '\\' := 0x5C, '/' := 0x2F, 'b' := 0x08, 'f' := 0x0C, 'n' := 0x0A, 'r' := 0x0D, 't' := 0x09]

  /** A legal escape starts here. */
  predicate Escaped(s: string) {
    |s| > 1 && s[0] == '\\' && (s[1] in SHORT || (s[1] == 'u' && FourHex(s)))
  }

  predicate FourHex(s: string) {
    |s| >= 6 && HexDigit(s[2]) && HexDigit(s[3]) && HexDigit(s[4]) && HexDigit(s[5])
  }

  /** A character that may stand for itself. */
  predicate Raw(c: char) {
    c as int >= 0x20 && c != '"' && c != '\\'
  }

  /** How many characters the first character or escape takes. */
  function Width(s: string): (n: nat)
    requires s != "" && (Escaped(s) || Raw(s[0]))
    ensures 0 < n <= |s|
  {
    if Raw(s[0]) then 1 else if s[1] == 'u' then 6 else 2
  }

  /** What may stand between the quotes. */
  predicate Body(s: string)
    decreases |s|
  {
    s == "" || ((Escaped(s) || Raw(s[0])) && Body(s[Width(s)..]))
  }

  /** The codes that a body stands for. The two halves of a surrogate pair stay two. */
  function Read(s: string): seq<nat>
    requires Body(s)
    decreases |s|
  {
    if s == "" then [] else [First(s)] + Read(s[Width(s)..])
  }

  function First(s: string): nat
    requires s != "" && (Escaped(s) || Raw(s[0]))
  {
    if Raw(s[0]) then s[0] as nat
    else if s[1] == 'u' then
      0x1000 * HexValue(s[2]) + 0x100 * HexValue(s[3]) + 0x10 * HexValue(s[4]) + HexValue(s[5])
    else SHORT[s[1]]
  }

  function Codes(s: string): (r: seq<nat>)
    ensures |r| == |s|
  {
    if s == "" then [] else [s[0] as nat] + Codes(s[1..])
  }

  // ---- what json_escape writes ----

  /** The only controls that may be escaped this way. */
  predicate Writable(c: char) {
    c as int >= 0x20 || c == '\n' || c == '\t' || c == '\r'
  }

  lemma EscapedChar(c: char, rest: string)
    ensures Body(EscapeChar(c) + rest) <==> Writable(c) && Body(rest)
    ensures Writable(c) && Body(rest) ==> Read(EscapeChar(c) + rest) == [c as nat] + Read(rest)
  {
    var s := EscapeChar(c) + rest;
    assert |EscapeChar(c)| == 1 ==> s[1..] == rest;
    assert |EscapeChar(c)| == 2 ==> s[2..] == rest;
  }

  /** The escaped text may stand in a JSON string if and only if it had no control but line feed, tab and return; and a
      reader of the standard then gets the text back. */
  lemma {:induction false} EscapeIsBody(s: string)
    ensures Body(Escape(s)) <==> forall i :: 0 <= i < |s| && s[i] as int < 0x20 ==> s[i] in "\n\t\r"
    ensures Body(Escape(s)) ==> Read(Escape(s)) == Codes(s)
  {
    hide EscapeChar, Body, Read, Escape;
    if s == "" {
      NothingEscaped();
    } else {
      var c, tail := s[0], s[1..];
      assert [c] + tail == s;
      EscapeCons(c, tail);
      EscapedChar(c, Escape(tail));
      EscapeIsBody(tail);
      assert Writable(c) <==> (c as int < 0x20 ==> c in "\n\t\r");
      assert forall i :: 1 <= i < |s| ==> s[i] == tail[i - 1];
    }
  }

  lemma NothingEscaped()
    ensures Escape("") == "" && Body("") && Read("") == [] && Codes("") == []
  {
  }

  /** None of the three is left raw, whatever else is in the text. */
  lemma {:induction false} NoneLeftRaw(s: string, i: nat)
    requires i < |Escape(s)|
    ensures Escape(s)[i] != '\n' && Escape(s)[i] != '\t' && Escape(s)[i] != '\r'
  {
    var front := Escape(s[..|s| - 1]);
    if i < |front| { NoneLeftRaw(s[..|s| - 1], i); }
  }

  // ---- what json_unescape reads ----

  /** The escapes that json_unescape knows: all but the code in hexadecimal, backspace and form feed. */
  predicate Known(s: string)
    requires Body(s)
    decreases |s|
  {
    s == "" || ((Raw(s[0]) || s[1] !in "ubf") && Known(s[Width(s)..]))
  }

  lemma UnescapeRaw(s: string)
    requires s != "" && Raw(s[0])
    ensures Codes(Unescape(s)) == [s[0] as nat] + Codes(Unescape(s[1..]))
  {
    assert ([s[0]] + Unescape(s[1..]))[1..] == Unescape(s[1..]);
  }

  lemma UnescapeKnown(s: string)
    requires Escaped(s) && s[1] !in "ubf"
    ensures Codes(Unescape(s)) == [SHORT[s[1]]] + Codes(Unescape(s[2..]))
  {
    var u := UnescapeChar(s[1]);
    assert |u| == 1 && u[0] as nat == SHORT[s[1]];
    assert (u + Unescape(s[2..]))[1..] == Unescape(s[2..]);
  }

  lemma UnescapeUnknown(s: string)
    requires Escaped(s) && s[1] in "ubf"
    ensures |Unescape(s)| == 2 + |Unescape(s[2..])|
  {
  }

  /** The four digits are kept as they are. */
  lemma UnescapeDigits(s: string)
    requires |s| >= 4 && forall i :: 0 <= i < 4 ==> HexDigit(s[i])
    ensures |Unescape(s)| == 4 + |Unescape(s[4..])|
  {
    assert HexDigit(s[0]) && HexDigit(s[1]) && HexDigit(s[2]) && HexDigit(s[3]);
    assert s[1..][1..] == s[2..] && s[2..][1..] == s[3..] && s[3..][1..] == s[4..];
    assert |Unescape(s)| == 1 + |Unescape(s[1..])| && |Unescape(s[1..])| == 1 + |Unescape(s[2..])|;
    assert |Unescape(s[2..])| == 1 + |Unescape(s[3..])| && |Unescape(s[3..])| == 1 + |Unescape(s[4..])|;
  }

  /** json_unescape reads a body as the standard does if and only if it has none of the escapes it does not know; then
      it only leaves too many characters. */
  lemma {:induction false} UnescapeReads(s: string)
    requires Body(s)
    ensures Codes(Unescape(s)) == Read(s) <==> Known(s)
    ensures |Unescape(s)| >= |Read(s)| && (|Unescape(s)| == |Read(s)| ==> Known(s))
    decreases |s|
  {
    hide Unescape, UnescapeChar, Codes;
    if s == "" {
      UnescapeNothing();
      NothingEscaped();
    } else {
      var rest := s[Width(s)..];
      UnescapeReads(rest);
      if Raw(s[0]) {
        UnescapeRaw(s);
      } else if s[1] !in "ubf" {
        UnescapeKnown(s);
      } else {
        UnescapeUnknown(s);
        if s[1] == 'u' {
          UnescapeDigits(s[2..]);
          assert s[2..][4..] == s[6..];
        }
      }
    }
  }

  // ---- the scans for quotes ----

  /** The scan for the closing quote passes over any body. */
  lemma {:induction false} QuoteBehindBody(s: string, rest: string)
    requires Body(s)
    ensures Quote(false, s + "\"" + rest) == |s|
    decreases |s|
  {
    hide Quote;
    if s == "" {
      assert s + "\"" + rest == "\"" + rest;
      QuoteFirst(rest);
    } else {
      var n := Width(s);
      QuoteBehindBody(s[n..], rest);
      QuoteOver(s, s[n..] + "\"" + rest, n);
      assert s[..n] + (s[n..] + "\"" + rest) == s + "\"" + rest;
    }
  }

  lemma QuoteOver(s: string, tail: string, n: nat)
    requires s != "" && (Escaped(s) || Raw(s[0])) && n == Width(s)
    ensures Quote(false, s[..n] + tail) == n + Quote(false, tail)
  {
    hide Quote;
    var t := s[..n] + tail;
    QuoteStep(false, t);
    if n == 1 {
      assert t[1..] == tail;
    } else {
      QuoteStep(true, t[1..]);
      assert t[1..][1..] == t[2..];
      if n == 2 {
        assert t[2..] == tail;
      } else {
        QuoteStep(false, t[2..]);
        QuoteStep(false, t[3..]);
        QuoteStep(false, t[4..]);
        QuoteStep(false, t[5..]);
        assert t[2..][1..] == t[3..] && t[3..][1..] == t[4..] && t[4..][1..] == t[5..] && t[5..][1..] == tail;
      }
    }
  }

  /** The scanner of the extractors is inside the literal up to the closing quote of any legal string, and outside
      behind it. */
  lemma InsideLiteral(s: string, k: nat)
    requires Body(s) && k <= |s|
    ensures After(OUTSIDE, "\"" + s[..k]).inStr && After(OUTSIDE, "\"" + s + "\"") == OUTSIDE
  {
    assert ("\"" + s[..k])[1..] == s[..k] && ("\"" + s + "\"")[1..] == s + "\"";
    InsideBody(s, k);
  }

  lemma {:induction false} InsideBody(s: string, k: nat)
    requires Body(s) && k <= |s|
    ensures After(Mode(true, false), s[..k]).inStr && After(Mode(true, false), s + "\"") == OUTSIDE
    decreases |s|
  {
    if s == "" {
      assert s + "\"" == "\"" && "\""[1..] == "";
    } else {
      var n := Width(s);
      InsideBody(s[n..], if k < n then 0 else k - n);
      assert s + "\"" == s[..n] + (s[n..] + "\"");
      OverOne(s, s[n..] + "\"", n, n);
      if k < n {
        OverOne(s, "", n, k);
        assert s[..k] + "" == s[..k];
      } else {
        OverOne(s, s[n..][..k - n], n, n);
        assert s[..k] == s[..n] + s[n..][..k - n];
      }
    }
  }

  lemma OverOne(s: string, tail: string, n: nat, k: nat)
    requires s != "" && (Escaped(s) || Raw(s[0])) && n == Width(s) && k <= n && (k < n ==> tail == "")
    ensures k == n ==> After(Mode(true, false), s[..k] + tail) == After(Mode(true, false), tail)
    ensures k < n ==> After(Mode(true, false), s[..k] + tail).inStr
  {
    hide After;
    AfterNothing(Mode(true, false));
    AfterNothing(Mode(true, true));
    if k == 0 {
      assert s[..0] + tail == tail;
    } else {
      AfterFirst(Mode(true, false), s[0], s[1..k] + tail);
      assert s[..k] + tail == [s[0]] + (s[1..k] + tail);
      if n == 1 {
        assert s[1..k] + tail == tail;
      } else if k == 1 {
        assert s[1..k] + tail == "";
      } else {
        AfterFirst(Mode(true, true), s[1], s[2..k] + tail);
        assert s[1..k] + tail == [s[1]] + (s[2..k] + tail);
        OverRaw(s[2..k], tail);
      }
    }
  }

  lemma {:induction false} OverRaw(s: string, tail: string)
    requires forall i :: 0 <= i < |s| ==> Raw(s[i])
    ensures After(Mode(true, false), s + tail) == After(Mode(true, false), tail)
  {
    hide After;
    if s == "" {
      assert s + tail == tail;
    } else {
      AfterFirst(Mode(true, false), s[0], s[1..] + tail);
      assert s + tail == [s[0]] + (s[1..] + tail);
      OverRaw(s[1..], tail);
    }
  }

  lemma AfterNothing(m: Mode)
    ensures After(m, "") == m
  {
  }

  lemma AfterFirst(m: Mode, c: char, s: string)
    ensures After(m, [c] + s) == After(Next(m, c), s)
  {
    assert ([c] + s)[1..] == s;
  }
}
