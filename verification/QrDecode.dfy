/** A reader of QR bit streams (section 7.4 of ISO/IEC 18004), and the encoders it inverts. */
module QrDecode {
  import opened Prelude
  import opened Bits
  import opened QrBuffer
  import opened QrSegments

  datatype Segment =
    | Numeric(data: string)
    | AlphaNum(data: string)
    | Bytes(bytes: seq<byte>)

  function Mode(s: Segment): nat {
    match s
    case Numeric(_) => 1
    case AlphaNum(_) => 2
    case Bytes(_) => 4
  }

  function Count(s: Segment): nat {
    match s
    case Numeric(d) => |d|
    case AlphaNum(d) => |d|
    case Bytes(b) => |b|
  }

  predicate Legal(s: Segment) {
    match s
    case Numeric(d) => AllDigits(d)
    case AlphaNum(d) => AllCodes(d)
    case Bytes(_) => true
  }

  /** QRUtil.getLengthInBits for the three modes; types below 1 take the second branch. */
  function LengthInBits(mode: nat, version: int): Option<nat> {
    if mode != 1 && mode != 2 && mode != 4 then None
    else if 1 <= version < 10 then Some(if mode == 1 then 10 else if mode == 2 then 9 else 8)
    else if version < 27 then Some(if mode == 1 then 12 else if mode == 2 then 11 else 16)
    else if version < 41 then Some(if mode == 1 then 14 else if mode == 2 then 13 else 16)
    else None
  }

  function Content(s: Segment): seq<bool>
    requires Legal(s)
  {
    match s
    case Numeric(d) => NumericBits(d)
    case AlphaNum(d) => AlphaNumBits(d)
    case Bytes(b) => ByteBits(b)
  }

  function SegmentBits(s: Segment, version: int): seq<bool>
    requires Legal(s) && version < 41
  {
    MsbBits(Mode(s), 4) + (MsbBits(Count(s), LengthInBits(Mode(s), version).value) + Content(s))
  }

  predicate AllLegal(list: seq<Segment>) {
    forall i :: 0 <= i < |list| ==> Legal(list[i])
  }

  function StreamBits(list: seq<Segment>, version: int): seq<bool>
    requires AllLegal(list) && version < 41
  {
    if list == [] then [] else SegmentBits(list[0], version) + StreamBits(list[1..], version)
  }

  // ---- the reader ----

  datatype Read<T> = Read(value: T, rest: seq<bool>)

  /** The reader's own table of the widths of the count (section 7.4.1): versions 1 to 9, 10 to 26, 27 to 40. Below
      version 1 there is no standard, and it takes what the writer writes. */
  function CountWidth(mode: nat, version: int): Option<nat> {
    var row :=
      if mode == 1 then [10, 12, 14] else if mode == 2 then [9, 11, 13] else if mode == 4 then [8, 16, 16] else [];
    if row == [] || version > 40 then None
    else if 27 <= version then Some(row[2])
    else if 1 <= version <= 9 then Some(row[0])
    else Some(row[1])
  }

  lemma SameWidths(mode: nat, version: int)
    ensures LengthInBits(mode, version) == CountWidth(mode, version)
  {
  }

  /** And of the bits for so many digits: ten for three, and four or seven for the one or two that are left. */
  function DigitsWidth(k: nat): nat {
    if k == 0 then 0 else if k == 1 then 4 else if k == 2 then 7 else 10
  }

  function ReadNumeric(bits: seq<bool>, n: nat): (r: Option<Read<string>>)
    ensures r.Some? ==> |r.value.rest| <= |bits|
  {
    if n == 0 then Some(Read("", bits))
    else
      var k := if n < 3 then n else 3;
      var w := DigitsWidth(k);
      if |bits| < w || MsbValue(bits[..w]) >= Pow10(k) then None
      else
        var r := ReadNumeric(bits[w..], n - k);
        if r.None? then None else Some(Read(Digits(MsbValue(bits[..w]), k) + r.value.value, r.value.rest))
  }

  function ReadAlphaNum(bits: seq<bool>, n: nat): (r: Option<Read<string>>)
    ensures r.Some? ==> |r.value.rest| <= |bits|
  {
    if n == 0 then Some(Read("", bits))
    else if n == 1 then
      if |bits| < 6 || MsbValue(bits[..6]) >= 45 then None
      else Some(Read([CodeChar(MsbValue(bits[..6]))], bits[6..]))
    else if |bits| < 11 || MsbValue(bits[..11]) >= 45 * 45 then None
    else
      var v := MsbValue(bits[..11]);
      var r := ReadAlphaNum(bits[11..], n - 2);
      if r.None? then None else Some(Read([CodeChar(v / 45), CodeChar(v % 45)] + r.value.value, r.value.rest))
  }

  function ReadBytes(bits: seq<bool>, n: nat): (r: Option<Read<seq<byte>>>)
    ensures r.Some? ==> |r.value.rest| <= |bits|
  {
    if n == 0 then Some(Read([], bits))
    else if |bits| < 8 || MsbValue(bits[..8]) >= 256 then None
    else
      var r := ReadBytes(bits[8..], n - 1);
      if r.None? then None else Some(Read([MsbValue(bits[..8]) as byte] + r.value.value, r.value.rest))
  }

  function ReadContent(mode: nat, n: nat, bits: seq<bool>): (r: Option<Read<Segment>>)
    ensures r.Some? ==> |r.value.rest| <= |bits|
  {
    if mode == 1 then
      var r := ReadNumeric(bits, n);
      if r.None? then None else Some(Read(Numeric(r.value.value), r.value.rest))
    else if mode == 2 then
      var r := ReadAlphaNum(bits, n);
      if r.None? then None else Some(Read(AlphaNum(r.value.value), r.value.rest))
    else
      var r := ReadBytes(bits, n);
      if r.None? then None else Some(Read(Bytes(r.value.value), r.value.rest))
  }

  /** Segments up to a terminator of four zeros, or to fewer than four bits. */
  function ReadStream(bits: seq<bool>, version: int): Option<seq<Segment>>
    decreases |bits|
  {
    if |bits| < 4 || MsbValue(bits[..4]) == 0 then Some([])
    else
      var mode := MsbValue(bits[..4]);
      var w := CountWidth(mode, version);
      if w.None? || |bits| < 4 + w.value then None
      else
        var s := ReadContent(mode, MsbValue(bits[4..4 + w.value]), bits[4 + w.value..]);
        if s.None? then None
        else
          var tail := ReadStream(s.value.rest, version);
          if tail.None? then None else Some([s.value.value] + tail.value)
  }

  // ---- reading undoes writing ----

  lemma Front<T>(a: seq<T>, b: seq<T>)
    ensures (a + b)[..|a|] == a && (a + b)[|a|..] == b
  {
  }

  lemma {:induction false} NumericRoundTrip(s: string, rest: seq<bool>)
    requires AllDigits(s)
    ensures ReadNumeric(NumericBits(s) + rest, |s|) == Some(Read(s, rest))
  {
    hide MsbBits, MsbValue, Number, Digits, Pow10;
    if s == "" {
      assert [] + rest == rest;
    } else {
      var k := if |s| < 3 then |s| else 3;
      var head, tail := s[..k], s[k..];
      var group := MsbBits(Number(head), GroupBits(k));
      NumericRoundTrip(tail, rest);
      NumberBound(head);
      NumberFits(head);
      MsbRoundTrip(Number(head), GroupBits(k));
      DigitsOfNumber(head);
      Assoc(group, NumericBits(tail), rest);
      Front(group, NumericBits(tail) + rest);
      assert head + tail == s;
    }
  }

  lemma {:induction false} AlphaNumRoundTrip(s: string, rest: seq<bool>)
    requires AllCodes(s)
    ensures ReadAlphaNum(AlphaNumBits(s) + rest, |s|) == Some(Read(s, rest))
  {
    hide MsbBits, MsbValue, CodeChar, GetCode;
    if s == "" {
      assert [] + rest == rest;
    } else if |s| == 1 {
      var group := MsbBits(Code(s[0]), 6);
      CodeOfChar(s[0]);
      CodesFit();
      MsbRoundTrip(Code(s[0]), 6);
      Front(group, rest);
      assert s == [s[0]];
    } else {
      var v := Code(s[0]) * 45 + Code(s[1]);
      var group := MsbBits(v, 11);
      CodeOfChar(s[0]);
      CodeOfChar(s[1]);
      CodesFit();
      MsbRoundTrip(v, 11);
      AlphaNumRoundTrip(s[2..], rest);
      Assoc(group, AlphaNumBits(s[2..]), rest);
      Front(group, AlphaNumBits(s[2..]) + rest);
      assert v / 45 == Code(s[0]) && v % 45 == Code(s[1]);
      assert s == [s[0], s[1]] + s[2..];
    }
  }

  lemma {:induction false} BytesRoundTrip(bytes: seq<byte>, rest: seq<bool>)
    ensures ReadBytes(ByteBits(bytes) + rest, |bytes|) == Some(Read(bytes, rest))
  {
    hide MsbBits, MsbValue;
    if bytes == [] {
      assert [] + rest == rest;
    } else {
      var group := MsbBits(bytes[0], 8);
      Pow2Values();
      MsbRoundTrip(bytes[0], 8);
      BytesRoundTrip(bytes[1..], rest);
      Assoc(group, ByteBits(bytes[1..]), rest);
      Front(group, ByteBits(bytes[1..]) + rest);
      assert bytes == [bytes[0]] + bytes[1..];
    }
  }

  lemma ContentRoundTrip(s: Segment, rest: seq<bool>)
    requires Legal(s)
    ensures ReadContent(Mode(s), Count(s), Content(s) + rest) == Some(Read(s, rest))
  {
    match s
    case Numeric(d) => NumericRoundTrip(d, rest);
    case AlphaNum(d) => AlphaNumRoundTrip(d, rest);
    case Bytes(b) => BytesRoundTrip(b, rest);
  }

  /** The count goes into a field of fixed width. */
  predicate CountsFit(list: seq<Segment>, version: int)
    requires version < 41
  {
    forall i :: 0 <= i < |list| ==> Count(list[i]) < Pow2(LengthInBits(Mode(list[i]), version).value)
  }

  predicate Terminated(rest: seq<bool>) {
    |rest| < 4 || MsbValue(rest[..4]) == 0
  }

  lemma {:induction false} StreamRoundTrip(list: seq<Segment>, version: int, rest: seq<bool>)
    requires AllLegal(list) && version < 41 && CountsFit(list, version) && Terminated(rest)
    ensures ReadStream(StreamBits(list, version) + rest, version) == Some(list)
  {
    hide MsbBits, MsbValue, Content, ReadContent, Count;
    if list == [] {
      assert [] + rest == rest;
    } else {
      var s, w := list[0], LengthInBits(Mode(list[0]), version).value;
      var tail := StreamBits(list[1..], version) + rest;
      SameWidths(Mode(s), version);
      StreamRoundTrip(list[1..], version, rest);
      SegmentRead(s, version, tail);
      Assoc(SegmentBits(s, version), StreamBits(list[1..], version), rest);
      ContentRoundTrip(s, tail);
      assert list == [s] + list[1..];
    }
  }

  /** The header of a segment, as the reader takes it apart. */
  lemma SegmentRead(s: Segment, version: int, tail: seq<bool>)
    requires Legal(s) && version < 41 && Count(s) < Pow2(LengthInBits(Mode(s), version).value)
    ensures
      var bits, w := SegmentBits(s, version) + tail, LengthInBits(Mode(s), version).value;
      |bits| >= 4 + w && MsbValue(bits[..4]) == Mode(s) && MsbValue(bits[4..4 + w]) == Count(s)
      && bits[4 + w..] == Content(s) + tail
  {
    hide MsbBits, MsbValue, Content, Count;
    var w := LengthInBits(Mode(s), version).value;
    var m, c, d := MsbBits(Mode(s), 4), MsbBits(Count(s), w), Content(s);
    Pow2Values();
    MsbRoundTrip(Mode(s), 4);
    MsbRoundTrip(Count(s), w);
    var bits := m + (c + d) + tail;
    Front(m, c + d + tail);
    Assoc(m, c + d, tail);
    Front(c, d + tail);
    Assoc(c, d, tail);
    assert bits[4..4 + w] == bits[4..][..w];
    assert bits[4 + w..] == bits[4..][w..];
  }
}
