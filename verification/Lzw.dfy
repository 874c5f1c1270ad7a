/** The LZW compression of the GIF writer in win/qrcodegen.js, against the decoder of Appendix C of the
    GIF87a specification. */
module Lzw {
  import opened Prelude
  import opened Bits

  /** A table key: the string of pixels, one character each. */
  type Str = seq<nat>

  const CLEAR: nat := 4
  const END: nat := 5
  const FIRST_WIDTH: nat := 3
  const MAX_TABLE: nat := 0xfff
  const START: seq<Str> := [[0], [1], [2], [3], [4], [5]]

  /** Everything the raster holds: the pixel values below the clear code. */
  predicate Pixels(s: Str) {
    forall k :: 0 <= k < |s| ==> s[k] < CLEAR
  }

  // ---- the encoder ----

  datatype Code = Code(value: nat, width: nat)

  /** `lzwTable` as the list of its keys by index, and `bitLength`. */
  datatype Encoder = Encoder(entries: seq<Str>, width: nat)

  function IndexOf(entries: seq<Str>, s: Str): (k: nat)
    requires s in entries
    ensures k < |entries| && entries[k] == s
  {
    if entries[0] == s then 0 else 1 + IndexOf(entries[1..], s)
  }

  /** The table and the code width after a code went out: one more key, until the table is full. */
  function Learn(e: Encoder, key: Str): Encoder {
    if |e.entries| < MAX_TABLE then
      Encoder(e.entries + [key], if |e.entries| == Pow2(e.width) then e.width + 1 else e.width)
    else e
  }

  /** The roots of the table: every pixel value, the clear code and the end code stand for themselves. */
  predicate Rooted(entries: seq<Str>) {
    |entries| > END && forall x :: 0 <= x <= END ==> entries[x] == [x]
  }

  predicate EncoderInv(e: Encoder) {
    && Rooted(e.entries) && |e.entries| <= MAX_TABLE
    && 3 <= e.width <= 12
    && Pow2(e.width - 1) < |e.entries| <= Pow2(e.width)
  }

  datatype Encoded = Encoded(codes: seq<Code>, last: Encoder)

  /** The codes of the phrases from s on, and the table and width at the end. */
  function EncodeFrom(data: Str, i: nat, e: Encoder, s: Str): Encoded
    requires Pixels(data) && i <= |data| && Rooted(e.entries) && s in e.entries
    decreases |data| - i
  {
    if i == |data| then Encoded([Code(IndexOf(e.entries, s), e.width)], e)
    else if s + [data[i]] in e.entries then EncodeFrom(data, i + 1, e, s + [data[i]])
    else
      assert [data[i]] == Learn(e, s + [data[i]]).entries[data[i]];
      var rest := EncodeFrom(data, i + 1, Learn(e, s + [data[i]]), [data[i]]);
      Encoded([Code(IndexOf(e.entries, s), e.width)] + rest.codes, rest.last)
  }

  function Encode(data: Str): Encoded
    requires Pixels(data) && data != []
  {
    assert [data[0]] == START[data[0]];
    EncodeFrom(data, 1, Encoder(START, FIRST_WIDTH), [data[0]])
  }

  /** All that is written: the clear code, the phrases, the end code. */
  function AllCodes(data: Str): seq<Code>
    requires Pixels(data) && data != []
  {
    [Code(CLEAR, FIRST_WIDTH)] + Encode(data).codes + [Code(END, Encode(data).last.width)]
  }

  function CodeBits(codes: seq<Code>): seq<bool> {
    if codes == [] then [] else LsbBits(codes[0].value, codes[0].width) + CodeBits(codes[1..])
  }

  lemma {:induction false} CodeBitsAppend(a: seq<Code>, b: seq<Code>)
    ensures CodeBits(a + b) == CodeBits(a) + CodeBits(b)
  {
    if a == [] {
      assert a + b == b;
    } else {
      CodeBitsAppend(a[1..], b);
      assert (a + b)[1..] == a[1..] + b;
      Assoc(LsbBits(a[0].value, a[0].width), CodeBits(a[1..]), CodeBits(b));
    }
  }

  // ---- the decoder of the specification ----

  datatype Ending = EndCode | OutOfBits | BadCode

  datatype Decoded = Decoded(pixels: Str, ended: Ending)

  /** The decoder's string table, its current code width, and the phrase it put out last. */
  datatype Decoder = Decoder(dict: seq<Str>, width: nat, prev: Option<Str>)

  /** For the two bits to a pixel that the header of the image announces: four pixel values, the clear code 4 and the
      end code 5, and codes of three bits. */
  const RESET := Decoder([[0], [1], [2], [3], [4], [5]], 3, None)

  /** The entry a code stands for. A code that is not in the table yet is the phrase under construction. */
  function Lookup(d: Decoder, code: nat): Option<Str> {
    if code < |d.dict| then Some(d.dict[code])
    else if code == |d.dict| && d.prev.Some? && d.prev.value != [] then Some(d.prev.value + [d.prev.value[0]])
    else None
  }

  /** The table after `entry` was put out: one entry behind the encoder, at most 4096 of them, and one more
      bit per code as soon as the next index needs it, up to 12. */
  function Catch(d: Decoder, entry: Str): Decoder {
    if d.prev.None? || entry == [] || |d.dict| == 4096 then d.(prev := Some(entry))
    else
      var dict := d.dict + [d.prev.value + [entry[0]]];
      Decoder(dict, if |dict| == Pow2(d.width) && d.width < 12 then d.width + 1 else d.width, Some(entry))
  }

  function Decode(bits: seq<bool>, d: Decoder): Decoded
    decreases |bits|
  {
    if d.width == 0 || |bits| < d.width then Decoded([], OutOfBits)
    else
      var code, rest := LsbValue(bits[..d.width]), bits[d.width..];
      if code == 4 then Decode(rest, RESET)
      else if code == 5 then Decoded([], EndCode)
      else
        var entry := Lookup(d, code);
        if entry.None? then Decoded([], BadCode)
        else
          var r := Decode(rest, Catch(d, entry.value));
          Decoded(entry.value + r.pixels, r.ended)
  }

  // ---- encoder and decoder in step ----

  /** The decoder has read every phrase before s: its table lags one entry behind, unless the encoder's is full. */
  ghost predicate InStep(e: Encoder, s: Str, d: Decoder) {
    && EncoderInv(e)
    && s in e.entries && s != [] && Pixels(s)
    && d.width == e.width
    && match d.prev
       case None => d == RESET && e.entries == START
       case Some(p) =>
         && p != []
         && if |d.dict| < |e.entries| then
              && |e.entries| == |d.dict| + 1
              && d.dict == e.entries[..|d.dict|]
              && e.entries[|d.dict|] == p + [s[0]]
            else
              && |e.entries| == MAX_TABLE
              && |d.dict| <= 4096
              && e.entries == d.dict[..MAX_TABLE]
  }

  /** s may grow while it stays in the table. */
  lemma InStepExtend(e: Encoder, s: Str, d: Decoder, x: nat)
    requires InStep(e, s, d) && x < CLEAR && s + [x] in e.entries
    ensures InStep(e, s + [x], d)
  {
  }

  lemma LookupPhrase(e: Encoder, s: Str, d: Decoder)
    requires InStep(e, s, d)
    ensures var k := IndexOf(e.entries, s);
            && k < Pow2(e.width) && k != CLEAR && k != END
            && Lookup(d, k) == Some(s)
  {
    var k := IndexOf(e.entries, s);
    assert e.entries[CLEAR] == [CLEAR] && e.entries[END] == [END];
    assert s[0] < CLEAR;
    if d.prev.Some? && k == |d.dict| {
      var p := d.prev.value;
      assert s == p + [s[0]] && s[0] == p[0];
    }
  }

  /** The decoder's table and width after reading s: the encoder's table (and perhaps one entry that no code will
      ever name), and the width that the encoder is about to use for the next code. */
  lemma CatchUp(e: Encoder, s: Str, d: Decoder)
    requires InStep(e, s, d)
    ensures Catch(d, s).prev == Some(s)
    ensures |e.entries| < MAX_TABLE ==> Catch(d, s).dict == e.entries
    ensures |e.entries| == MAX_TABLE ==>
              MAX_TABLE <= |Catch(d, s).dict| <= 4096 && Catch(d, s).dict[..MAX_TABLE] == e.entries
    ensures Catch(d, s).width == NextWidth(e)
  {
    assert Pow2(3) == 8;
    assert Pow2(12) == 4096;
    if d.prev.Some? {
      var dict := d.dict + [d.prev.value + [s[0]]];
      if |d.dict| < |e.entries| {
        assert dict == e.entries[..|d.dict|] + [e.entries[|d.dict|]] == e.entries;
      } else if |d.dict| < 4096 {
        assert dict[..MAX_TABLE] == d.dict[..MAX_TABLE];
        FullWidth(e);
      } else {
        FullWidth(e);
      }
    }
  }

  /** The width of the next code, if there is one more phrase: `bitLength` grows when the table is at a power of two. */
  function NextWidth(e: Encoder): nat {
    if |e.entries| == Pow2(e.width) then e.width + 1 else e.width
  }

  lemma FullWidth(e: Encoder)
    requires EncoderInv(e) && |e.entries| == MAX_TABLE
    ensures e.width == 12 && NextWidth(e) == 12
  {
    Pow2Monotone(Prelude.Min(e.width, 11), 11);
    assert Pow2(11) == 2048 && Pow2(12) == 4096;
  }

  lemma LearnInv(e: Encoder, key: Str)
    requires EncoderInv(e)
    ensures EncoderInv(Learn(e, key)) && Learn(e, key).width == NextWidth(e)
  {
    assert Pow2(12) == 4096;
    if |e.entries| == MAX_TABLE { FullWidth(e); }
  }

  /** A phrase goes out because s + [x] is not in the table, and the next one starts with x. */
  lemma InStepEmit(e: Encoder, s: Str, d: Decoder, x: nat)
    requires InStep(e, s, d) && x < CLEAR
    ensures InStep(Learn(e, s + [x]), [x], Catch(d, s))
  {
    LearnInv(e, s + [x]);
    CatchUp(e, s, d);
    assert [x] == Learn(e, s + [x]).entries[x];
  }

  /** Reading one code off the front of the bits. */
  lemma DecodeOne(value: nat, width: nat, tail: seq<bool>, d: Decoder)
    requires d.width == width > 0 && value < Pow2(width)
    requires value != CLEAR && value != END && Lookup(d, value).Some?
    ensures var r := Decode(tail, Catch(d, Lookup(d, value).value));
            Decode(LsbBits(value, width) + tail, d) == Decoded(Lookup(d, value).value + r.pixels, r.ended)
  {
    var bits := LsbBits(value, width) + tail;
    assert bits[..width] == LsbBits(value, width) && bits[width..] == tail;
    LsbRoundTrip(value, width);
  }

  /** The decoder reads the phrase s and is ready for the next code. */
  lemma DecodePhrase(e: Encoder, s: Str, d: Decoder, tail: seq<bool>)
    requires InStep(e, s, d)
    ensures var r := Decode(tail, Catch(d, s));
            Decode(LsbBits(IndexOf(e.entries, s), e.width) + tail, d) == Decoded(s + r.pixels, r.ended)
  {
    LookupPhrase(e, s, d);
    DecodeOne(IndexOf(e.entries, s), e.width, tail, d);
  }

  lemma CodeBitsCons(c: Code, codes: seq<Code>, tail: seq<bool>)
    ensures CodeBits([c] + codes) + tail == LsbBits(c.value, c.width) + (CodeBits(codes) + tail)
  {
    assert ([c] + codes)[1..] == codes;
  }

  /** From d, the codes decode to `pixels`, and what follows them is then read from d'. */
  ghost predicate Decodes(codes: seq<Code>, d: Decoder, pixels: Str, d': Decoder, tail: seq<bool>) {
    Decode(CodeBits(codes) + tail, d) == Decoded(pixels + Decode(tail, d').pixels, Decode(tail, d').ended)
  }

  lemma DecodesCons(e: Encoder, s: Str, d: Decoder, codes: seq<Code>, pixels: Str, d': Decoder, tail: seq<bool>)
    requires InStep(e, s, d) && Decodes(codes, Catch(d, s), pixels, d', tail)
    ensures Decodes([Code(IndexOf(e.entries, s), e.width)] + codes, d, s + pixels, d', tail)
  {
    CodeBitsCons(Code(IndexOf(e.entries, s), e.width), codes, tail);
    DecodePhrase(e, s, d, CodeBits(codes) + tail);
    assert s + (pixels + Decode(tail, d').pixels) == s + pixels + Decode(tail, d').pixels;
  }

  lemma LastPhrase(data: Str, e: Encoder, s: Str, d: Decoder, tail: seq<bool>)
    requires Pixels(data) && InStep(e, s, d)
    ensures Decodes(EncodeFrom(data, |data|, e, s).codes, d, s, Catch(d, s), tail)
  {
    assert CodeBits([]) + tail == tail;
    DecodesCons(e, s, d, [], [], Catch(d, s), tail);
    assert s + [] == s;
    assert [Code(IndexOf(e.entries, s), e.width)] + [] == EncodeFrom(data, |data|, e, s).codes;
  }

  lemma EmittedPhrase(data: Str, i: nat, e: Encoder, s: Str)
    requires Pixels(data) && i < |data| && Rooted(e.entries) && s in e.entries && s + [data[i]] !in e.entries
    requires var e' := Learn(e, s + [data[i]]); Rooted(e'.entries) && [data[i]] in e'.entries
    ensures var rest := EncodeFrom(data, i + 1, Learn(e, s + [data[i]]), [data[i]]);
            EncodeFrom(data, i, e, s) == Encoded([Code(IndexOf(e.entries, s), e.width)] + rest.codes, rest.last)
  {
  }

  /** The decoding of the rest is the decoding of the whole, when a phrase goes out in between. */
  lemma EmitStep(data: Str, i: nat, e: Encoder, s: Str, d: Decoder, d': Decoder, tail: seq<bool>)
    requires Pixels(data) && i < |data| && InStep(e, s, d) && s + [data[i]] !in e.entries
    requires InStep(Learn(e, s + [data[i]]), [data[i]], Catch(d, s))
    requires var rest := EncodeFrom(data, i + 1, Learn(e, s + [data[i]]), [data[i]]);
             Decodes(rest.codes, Catch(d, s), data[i..], d', tail)
    ensures EncodeFrom(data, i, e, s).last == EncodeFrom(data, i + 1, Learn(e, s + [data[i]]), [data[i]]).last
    ensures Decodes(EncodeFrom(data, i, e, s).codes, d, s + data[i..], d', tail)
  {
    var rest := EncodeFrom(data, i + 1, Learn(e, s + [data[i]]), [data[i]]);
    EmittedPhrase(data, i, e, s);
    DecodesCons(e, s, d, rest.codes, data[i..], d', tail);
  }

  /** From s on, every phrase is decoded, and the decoder then expects the width the encoder would use next. */
  ghost predicate DecodedFrom(data: Str, i: nat, e: Encoder, s: Str, d: Decoder, d': Decoder, tail: seq<bool>)
    requires Pixels(data) && i <= |data| && InStep(e, s, d)
  {
    var enc := EncodeFrom(data, i, e, s);
    && EncoderInv(enc.last)
    && d'.width == NextWidth(enc.last)
    && Decodes(enc.codes, d, s + data[i..], d', tail)
  }

  lemma {:induction false} DecodePhrases(data: Str, i: nat, e: Encoder, s: Str, d: Decoder, tail: seq<bool>)
    returns (d': Decoder)
    requires Pixels(data) && i <= |data| && InStep(e, s, d)
    ensures DecodedFrom(data, i, e, s, d, d', tail)
    decreases |data| - i, 1
  {
    if i == |data| {
      d' := Catch(d, s);
      CatchUp(e, s, d);
      LastPhrase(data, e, s, d, tail);
      assert s + data[i..] == s;
    } else if s + [data[i]] in e.entries {
      d' := DecodeLonger(data, i, e, s, d, tail);
    } else {
      d' := DecodeEmitted(data, i, e, s, d, tail);
    }
  }

  lemma {:induction false} DecodeLonger(data: Str, i: nat, e: Encoder, s: Str, d: Decoder, tail: seq<bool>)
    returns (d': Decoder)
    requires Pixels(data) && i < |data| && InStep(e, s, d) && s + [data[i]] in e.entries
    ensures DecodedFrom(data, i, e, s, d, d', tail)
    decreases |data| - i, 0
  {
    InStepExtend(e, s, d, data[i]);
    d' := DecodePhrases(data, i + 1, e, s + [data[i]], d, tail);
    assert s + [data[i]] + data[i + 1..] == s + data[i..];
  }

  lemma {:induction false} DecodeEmitted(data: Str, i: nat, e: Encoder, s: Str, d: Decoder, tail: seq<bool>)
    returns (d': Decoder)
    requires Pixels(data) && i < |data| && InStep(e, s, d) && s + [data[i]] !in e.entries
    ensures DecodedFrom(data, i, e, s, d, d', tail)
    decreases |data| - i, 0
  {
    InStepEmit(e, s, d, data[i]);
    d' := DecodePhrases(data, i + 1, Learn(e, s + [data[i]]), [data[i]], Catch(d, s), tail);
    assert [data[i]] + data[i + 1..] == data[i..];
    EmitStep(data, i, e, s, d, d', tail);
  }

  // ---- the whole raster ----

  /** The zero bits that fill the last byte. */
  function Padding(bits: seq<bool>): (p: nat)
    ensures p < 8 && (|bits| + p) % 8 == 0
  {
    (8 - |bits| % 8) % 8
  }

  /** The decoder reads the end code when it expects the width it was written with, or one bit more
      and a padding bit is there to make up for it. */
  lemma ReadEndCode(width: nat, d: Decoder, pad: nat)
    requires 3 <= width && (d.width == width || d.width == width + 1)
    ensures Decode(LsbBits(END, width) + ZeroBits(pad), d) ==
            Decoded([], if d.width == width || pad > 0 then EndCode else OutOfBits)
  {
    var bits := LsbBits(END, width) + ZeroBits(pad);
    Pow2Monotone(3, width);
    assert Pow2(3) == 8;
    LsbRoundTrip(END, width);
    if d.width == width {
      assert bits[..width] == LsbBits(END, width);
    } else if pad > 0 {
      LsbPad(END, width, 1);
      assert bits[..width + 1] == LsbBits(END, width) + [false] == LsbBits(END, width + 1);
      Pow2Monotone(width, width + 1);
      LsbRoundTrip(END, width + 1);
    }
  }

  /** The one case in which a decoder runs out of bits before it meets the end code: the table stands at a power of
      two, so the decoder has moved on to wider codes and the encoder has not, and no padding bit follows. */
  predicate EndCodeCut(data: Str)
    requires Pixels(data) && data != []
  {
    var last := Encode(data).last;
    |last.entries| == Pow2(last.width) && Padding(CodeBits(AllCodes(data))) == 0
  }

  lemma StartInv(x: nat)
    requires x < CLEAR
    ensures EncoderInv(Encoder(START, FIRST_WIDTH)) && InStep(Encoder(START, FIRST_WIDTH), [x], RESET)
  {
    assert Pow2(2) == 4 && Pow2(3) == 8;
    assert [x] == START[x];
  }

  /** Everything written, followed by more bits. */
  lemma AllCodesBits(data: Str, more: seq<bool>)
    requires Pixels(data) && data != []
    ensures CodeBits(AllCodes(data)) + more ==
            LsbBits(CLEAR, FIRST_WIDTH) + (CodeBits(Encode(data).codes) +
              (LsbBits(END, Encode(data).last.width) + more))
  {
    var phrases, end := Encode(data).codes, Code(END, Encode(data).last.width);
    assert AllCodes(data) == [Code(CLEAR, FIRST_WIDTH)] + (phrases + [end]);
    CodeBitsCons(Code(CLEAR, FIRST_WIDTH), phrases + [end], more);
    CodeBitsAppend(phrases, [end]);
    CodeBitsCons(end, [], more);
    assert CodeBits([]) + more == more && [end] + [] == [end];
    Assoc(CodeBits(phrases), CodeBits([end]), more);
  }

  lemma ReadClearCode(rest: seq<bool>)
    ensures Decode(LsbBits(CLEAR, FIRST_WIDTH) + rest, RESET) == Decode(rest, RESET)
  {
    var bits := LsbBits(CLEAR, FIRST_WIDTH) + rest;
    assert Pow2(3) == 8;
    LsbRoundTrip(CLEAR, FIRST_WIDTH);
    assert bits[..3] == LsbBits(CLEAR, FIRST_WIDTH) && bits[3..] == rest;
  }

  /** The phrases of the image decode to the image. */
  lemma DecodeImage(data: Str, tail: seq<bool>) returns (d': Decoder)
    requires Pixels(data) && data != []
    ensures EncoderInv(Encode(data).last) && d'.width == NextWidth(Encode(data).last)
    ensures Decodes(Encode(data).codes, RESET, data, d', tail)
  {
    StartInv(data[0]);
    d' := DecodePhrases(data, 1, Encoder(START, FIRST_WIDTH), [data[0]], RESET, tail);
    assert [data[0]] + data[1..] == data;
  }

  lemma DecodeAfterClear(codes: seq<Code>, data: Str, d': Decoder, tail: seq<bool>, ended: Ending)
    requires Decodes(codes, RESET, data, d', tail) && Decode(tail, d') == Decoded([], ended)
    ensures Decode(LsbBits(CLEAR, FIRST_WIDTH) + (CodeBits(codes) + tail), RESET) == Decoded(data, ended)
  {
    ReadClearCode(CodeBits(codes) + tail);
    assert data + [] == data;
  }

  lemma DecodeAll(data: Str, pad: nat)
    requires Pixels(data) && data != []
    ensures var last := Encode(data).last;
            Decode(CodeBits(AllCodes(data)) + ZeroBits(pad), RESET) ==
            Decoded(data, if |last.entries| == Pow2(last.width) && pad == 0 then OutOfBits else EndCode)
  {
    var last := Encode(data).last;
    var tail := LsbBits(END, last.width) + ZeroBits(pad);
    var d' := DecodeImage(data, tail);
    ReadEndCode(last.width, d', pad);
    DecodeAfterClear(Encode(data).codes, data, d', tail, Decode(tail, d').ended);
    AllCodesBits(data, ZeroBits(pad));
  }

  /** What is written, filled up to whole bytes. */
  function RasterBits(data: Str): seq<bool>
    requires Pixels(data) && data != []
  {
    var bits := CodeBits(AllCodes(data));
    bits + ZeroBits(Padding(bits))
  }

  /** The image survives: a decoder of the specification recovers every pixel of every non-empty image, and it ends at
      the end code except in the one case of EndCodeCut, where the data ends first. */
  lemma RasterRoundTrip(data: Str)
    requires Pixels(data) && data != []
    ensures Decode(RasterBits(data), RESET) == Decoded(data, if EndCodeCut(data) then OutOfBits else EndCode)
  {
    DecodeAll(data, Padding(CodeBits(AllCodes(data))));
  }
}
