/** The objects behind the raster of the GIF writer in win/qrcodegen.js: the byte array, the bit stream on top
    of it, the string table, and the loop that drives them. */
module LzwWriter {
  import opened Prelude
  import opened Bits
  import opened Lzw
  import opened LzwCut

  function BytesBits(bytes: seq<byte>): seq<bool> {
    if bytes == [] then [] else BytesBits(bytes[..|bytes| - 1]) + LsbBits(bytes[|bytes| - 1], 8)
  }

  lemma {:induction false} BytesBitsLength(bytes: seq<byte>)
    ensures |BytesBits(bytes)| == 8 * |bytes|
  {
    if bytes != [] { BytesBitsLength(bytes[..|bytes| - 1]); }
  }

  lemma ByteShift(a: nat)
    ensures Shl(a, 8) == 256 * a && Pow2(8) == 256
  {
    ShlMul(a, 8);
    assert Pow2(8) == 256;
  }

  /** A byte taken off the low end of a longer number. */
  lemma LowByte(v: nat, len: nat)
    ensures LsbBits(v, 8 + len) == LsbBits(v % 256, 8) + LsbBits(v / 256, len)
  {
    ByteShift(v / 256);
    LsbConcat(v % 256, 8, v / 256, len);
  }

  /** One more than the largest 32-bit number. */
  const WORD: nat := 0x1_0000_0000

  /** What the raster writes passes the test. */
  lemma ShortCode(value: nat, width: nat)
    requires width <= 12 && value < Pow2(width)
    ensures value % WORD == value && width % 32 == width
  {
    Pow2Monotone(width, 12);
    assert Pow2(12) == 4096;
  }

  class BitOutputStream {
    var bytes: seq<byte>
    var bitLength: nat
    var bitBuffer: nat

    ghost predicate Valid()
      reads this
    {
      bitLength < 8 && bitBuffer < Pow2(bitLength)
    }

    /** All bits written so far, in order. */
    ghost function Written(): seq<bool>
      reads this
    {
      BytesBits(bytes) + LsbBits(bitBuffer, bitLength)
    }

    constructor ()
      ensures Valid() && Written() == [] && bytes == []
    {
      bytes, bitLength, bitBuffer := [], 0, 0;
    }

    /** write: JavaScript shifts 32-bit numbers, by the count modulo 32. Throws 'length over' before anything is
        written. */
    method Write(data: nat, length: nat) returns (r: Result<(), ()>)
      requires Valid()
      modifies this
      ensures Valid() && (r.Ok? <==> data % WORD < Pow2(length % 32))
      ensures r.Ok? ==> Written() == old(Written()) + LsbBits(data % WORD, length)
      ensures r.Err? ==> unchanged(this)
    {
      hide Or, Shl, Shr, LsbBits, BytesBits, Pow2;
      ShrZero(data % WORD, length % 32);
      if Shr(data % WORD, length % 32) != 0 {
        return Err(());
      }
      Pow2Monotone(length % 32, length);
      WriteBits(data % WORD, length);
      r := Ok(());
    }

    /** The loop of `write`, behind its test. */
    method WriteBits(data: nat, length: nat)
      requires Valid() && data < Pow2(length)
      modifies this
      ensures Valid() && Written() == old(Written()) + LsbBits(data, length)
    {
      hide Or, Shl, Shr, LsbBits, BytesBits, Pow2;
      var d: nat, len: nat := data, length;
      ghost var target := Written() + LsbBits(data, length);
      PendingStart(bytes, d, len, bitLength, bitBuffer);
      while bitLength + len >= 8
        invariant bitLength < 8
        invariant Pending(bytes, d, len, bitLength, bitBuffer, target)
        decreases len + bitLength
      {
        PendingByte(bytes, d, len, bitLength, bitBuffer, target);
        bytes := bytes + [Or(Shl(d, bitLength), bitBuffer) % 256];
        len, d := len - (8 - bitLength), Shr(d, 8 - bitLength);
        bitBuffer, bitLength := 0, 0;
      }
      PendingEnd(bytes, d, len, bitLength, bitBuffer, target);
      bitBuffer, bitLength := Or(Shl(d, bitLength), bitBuffer), bitLength + len;
    }

    method Flush()
      requires Valid()
      modifies this
      ensures BytesBits(bytes) == old(Written()) + ZeroBits(Padding(old(Written())))
    {
      BytesBitsLength(bytes);
      FlushPadding(bytes, bitLength, bitBuffer);
      if bitLength > 0 {
        Pow2Monotone(bitLength, 7);
        assert Pow2(7) == 128;
        ghost var last := bytes + [bitBuffer];
        assert last[..|bytes|] == bytes;
        bytes := bytes + [bitBuffer];
      }
    }
  }

  lemma PaddingOf(bits: seq<bool>, n: nat, k: nat)
    requires |bits| == 8 * n + k && k < 8
    ensures Padding(bits) == if k == 0 then 0 else 8 - k
  {
  }

  lemma FlushPadding(bytes: seq<byte>, bitLength: nat, bitBuffer: nat)
    requires bitLength < 8 && bitBuffer < Pow2(bitLength)
    ensures var written := BytesBits(bytes) + LsbBits(bitBuffer, bitLength);
            written + ZeroBits(Padding(written)) ==
            if bitLength > 0 then BytesBits(bytes) + LsbBits(bitBuffer, 8) else BytesBits(bytes)
  {
    BytesBitsLength(bytes);
    var bits, tail := BytesBits(bytes), LsbBits(bitBuffer, bitLength);
    PaddingOf(bits + tail, |bytes|, bitLength);
    if bitLength > 0 {
      LastByte(bitLength, bitBuffer);
      Assoc(bits, tail, ZeroBits(8 - bitLength));
    } else {
      assert bits + tail + ZeroBits(0) == bits;
    }
  }

  lemma LastByte(bitLength: nat, bitBuffer: nat)
    requires bitLength < 8 && bitBuffer < Pow2(bitLength)
    ensures LsbBits(bitBuffer, 8) == LsbBits(bitBuffer, bitLength) + ZeroBits(8 - bitLength)
  {
    LsbPad(bitBuffer, bitLength, 8 - bitLength);
    assert bitLength + (8 - bitLength) == 8;
  }

  /** The number that is written splits at its eighth bit. */
  lemma ByteSplit(d: nat, len: nat, k: nat, lo: nat)
    requires k < 8 && lo < Pow2(k) && k + len >= 8 && d < Pow2(len)
    ensures (Shl(d, k) + lo) / 256 == Shr(d, 8 - k)
    ensures Shr(d, 8 - k) < Pow2(len - (8 - k))
  {
    ShrBound(d, len, 8 - k);
    var low := SplitLow(d, 8 - k);
    var high := Shr(d, 8 - k);
    ShlSum(Shl(high, 8 - k), low, k);
    ShlAdd(high, 8 - k, k);
    ShlBound(low, 8 - k, lo, k);
    ByteShift(high);
    assert (8 - k) + k == 8;
  }

  lemma OneByteMore(bytes: seq<byte>, b: byte)
    ensures BytesBits(bytes + [b]) == BytesBits(bytes) + LsbBits(b, 8)
  {
    hide LsbBits;
    assert (bytes + [b])[..|bytes|] == bytes;
  }

  /** One byte out: its bits and those that stay behind are the bits of before. */
  lemma ByteOut(bytes: seq<byte>, d: nat, len: nat, k: nat, lo: nat, out: byte)
    requires k < 8 && lo < Pow2(k) && k + len >= 8 && d < Pow2(len)
    requires out == (Shl(d, k) + lo) % 256
    ensures BytesBits(bytes + [out]) + LsbBits(Shr(d, 8 - k), len - (8 - k)) ==
            BytesBits(bytes) + LsbBits(Shl(d, k) + lo, k + len)
  {
    hide LsbBits, Shl, Shr, Pow2, BytesBits;
    var v, rest := Shl(d, k) + lo, len - (8 - k);
    ByteSplit(d, len, k, lo);
    LowByte(v, rest);
    assert 8 + rest == k + len;
    OneByteMore(bytes, out);
    Assoc(BytesBits(bytes), LsbBits(out, 8), LsbBits(Shr(d, 8 - k), rest));
  }

  /** What is in the bytes and what is still to be written make up the target. */
  ghost predicate Pending(bytes: seq<byte>, d: nat, len: nat, k: nat, lo: nat, target: seq<bool>) {
    && d < Pow2(len) && lo < Pow2(k)
    && BytesBits(bytes) + LsbBits(Shl(d, k) + lo, k + len) == target
  }

  lemma PendingStart(bytes: seq<byte>, d: nat, len: nat, k: nat, lo: nat)
    requires d < Pow2(len) && lo < Pow2(k)
    ensures Pending(bytes, d, len, k, lo, BytesBits(bytes) + LsbBits(lo, k) + LsbBits(d, len))
  {
    LsbConcat(lo, k, d, len);
    Assoc(BytesBits(bytes), LsbBits(lo, k), LsbBits(d, len));
  }

  lemma PendingEnd(bytes: seq<byte>, d: nat, len: nat, k: nat, lo: nat, target: seq<bool>)
    requires Pending(bytes, d, len, k, lo, target)
    ensures Or(Shl(d, k), lo) < Pow2(k + len)
    ensures BytesBits(bytes) + LsbBits(Or(Shl(d, k), lo), k + len) == target
  {
    OrDisjoint(d, k, lo);
    ShlBound(d, len, lo, k);
    assert len + k == k + len;
  }

  lemma PendingByte(bytes: seq<byte>, d: nat, len: nat, k: nat, lo: nat, target: seq<bool>)
    requires k < 8 && k + len >= 8 && Pending(bytes, d, len, k, lo, target)
    ensures Pending(bytes + [Or(Shl(d, k), lo) % 256], Shr(d, 8 - k), len - (8 - k), 0, 0, target)
  {
    OrDisjoint(d, k, lo);
    ByteSplit(d, len, k, lo);
    ByteOut(bytes, d, len, k, lo, (Shl(d, k) + lo) % 256);
    assert Shl(Shr(d, 8 - k), 0) + 0 == Shr(d, 8 - k);
  }

  /** The map holds every key of the list under its position, and nothing else. */
  ghost predicate Indexes(keys: map<Str, nat>, entries: seq<Str>) {
    && (forall k :: 0 <= k < |entries| ==> entries[k] in keys && keys[entries[k]] == k)
    && (forall key :: key in keys ==> key in entries)
  }

  lemma IndexesAdd(keys: map<Str, nat>, entries: seq<Str>, key: Str)
    requires Indexes(keys, entries) && key !in keys
    ensures Indexes(keys[key := |entries|], entries + [key])
  {
  }

  class LzwTable {
    var keys: map<Str, nat>
    var size: nat
    ghost var entries: seq<Str>

    ghost predicate Valid()
      reads this
    {
      size == |entries| && Indexes(keys, entries)
    }

    constructor ()
      ensures Valid() && entries == []
    {
      keys, size, entries := map[], 0, [];
    }

    predicate Contains(key: Str)
      requires Valid()
      reads this
      ensures Contains(key) <==> key in entries
    {
      key in keys
    }

    function IndexOfKey(key: Str): (k: nat)
      requires Valid() && key in entries
      reads this
      ensures k == IndexOf(entries, key)
    {
      assert entries[IndexOf(entries, key)] == key;
      keys[key]
    }

    /** add: throws 'dup key' when the key is there already. */
    method Add(key: Str) returns (r: Result<(), Str>)
      requires Valid()
      modifies this
      ensures Valid()
      ensures r == if key in old(entries) then Err(key) else Ok(())
      ensures entries == if r.Ok? then old(entries) + [key] else old(entries)
    {
      if Contains(key) {
        return Err(key);
      }
      IndexesAdd(keys, entries, key);
      keys := keys[key := size];
      size := size + 1;
      entries := entries + [key];
      r := Ok(());
    }
  }

  /** Whether encoder and phrase are fit to go on with. */
  ghost predicate Ready(e: Encoder, s: Str) {
    EncoderInv(e) && s in e.entries
  }

  /** The bits of the clear code and all phrases and the final table, when `written` is already out. */
  ghost function Finished(data: Str, i: nat, e: Encoder, s: Str, written: seq<bool>): (seq<bool>, Encoder)
    requires Pixels(data) && i <= |data| && Ready(e, s)
  {
    (written + CodeBits(EncodeFrom(data, i, e, s).codes), EncodeFrom(data, i, e, s).last)
  }

  lemma FinishedStart(data: Str)
    requires Pixels(data) && data != []
    ensures Ready(Encoder(START, FIRST_WIDTH), [data[0]])
    ensures Finished(data, 1, Encoder(START, FIRST_WIDTH), [data[0]], LsbBits(CLEAR, FIRST_WIDTH)) ==
            (LsbBits(CLEAR, FIRST_WIDTH) + CodeBits(Encode(data).codes), Encode(data).last)
  {
    StartInv(data[0]);
  }

  lemma FinishedLonger(data: Str, i: nat, e: Encoder, s: Str, written: seq<bool>)
    requires Pixels(data) && i < |data| && Ready(e, s) && s + [data[i]] in e.entries
    ensures Finished(data, i + 1, e, s + [data[i]], written) == Finished(data, i, e, s, written)
  {
  }

  lemma FinishedEmit(data: Str, i: nat, e: Encoder, s: Str, written: seq<bool>)
    requires Pixels(data) && i < |data| && Ready(e, s) && s + [data[i]] !in e.entries
    ensures Ready(Learn(e, s + [data[i]]), [data[i]])
    ensures Finished(data, i + 1, Learn(e, s + [data[i]]), [data[i]],
                     written + LsbBits(IndexOf(e.entries, s), e.width)) == Finished(data, i, e, s, written)
  {
    var e', x := Learn(e, s + [data[i]]), data[i];
    LearnInv(e, s + [x]);
    assert [x] == e'.entries[x];
    EmittedPhrase(data, i, e, s);
    var code, rest := LsbBits(IndexOf(e.entries, s), e.width), CodeBits(EncodeFrom(data, i + 1, e', [x]).codes);
    CodeBitsCons(Code(IndexOf(e.entries, s), e.width), EncodeFrom(data, i + 1, e', [x]).codes, []);
    assert rest + [] == rest;
    Assoc(written, code, rest);
  }

  lemma FinishedEnd(data: Str, e: Encoder, s: Str, written: seq<bool>)
    requires Pixels(data) && data != [] && Ready(e, s)
    requires Finished(data, |data|, e, s, written) ==
             (LsbBits(CLEAR, FIRST_WIDTH) + CodeBits(Encode(data).codes), Encode(data).last)
    ensures e == Encode(data).last
    ensures (written + LsbBits(IndexOf(e.entries, s), e.width)) + LsbBits(END, e.width) == CodeBits(AllCodes(data))
  {
    var last, code := Code(IndexOf(e.entries, s), e.width), LsbBits(IndexOf(e.entries, s), e.width);
    assert EncodeFrom(data, |data|, e, s).codes == [last] + [];
    CodeBitsCons(last, [], []);
    assert code + (CodeBits([]) + []) == code;
    AllCodesBits(data, []);
    assert LsbBits(END, e.width) + [] == LsbBits(END, e.width);
    Assoc(LsbBits(CLEAR, FIRST_WIDTH), CodeBits(Encode(data).codes), LsbBits(END, e.width));
    assert CodeBits(AllCodes(data)) + [] == CodeBits(AllCodes(data));
  }

  method StartTable() returns (table: LzwTable)
    ensures fresh(table) && table.Valid() && table.entries == START
  {
    table := new LzwTable();
    for i := 0 to END + 1
      invariant fresh(table) && table.Valid() && |table.entries| == i
      invariant forall x :: 0 <= x < i ==> table.entries[x] == [x]
    {
      var added := table.Add([i]);
      assert added.Ok?;
    }
    assert table.entries == START;
  }

  /** The table grows by one key unless it is full, and the code width with it. */
  method LearnKey(table: LzwTable, key: Str, width: nat) returns (bitLength: nat)
    requires table.Valid() && key !in table.entries
    modifies table
    ensures table.Valid()
    ensures Encoder(table.entries, bitLength) == Learn(Encoder(old(table.entries), width), key)
  {
    bitLength := width;
    if table.size < MAX_TABLE {
      if table.size == Pow2(bitLength) {
        bitLength := bitLength + 1;
      }
      var added := table.Add(key);
      assert added.Ok?;
    }
  }

  /** A phrase goes out because the pixel after it is not in the table with it, and the table
      learns the two together. */
  method EmitPhrase(bitOut: BitOutputStream, table: LzwTable, data: Str, i: nat, s: Str, width: nat)
    returns (bitLength: nat)
    requires Pixels(data) && i < |data|
    requires bitOut.Valid() && table.Valid() && Ready(Encoder(table.entries, width), s)
    requires s + [data[i]] !in table.entries
    modifies bitOut, table
    ensures bitOut.Valid() && table.Valid()
    ensures Ready(Encoder(table.entries, bitLength), [data[i]])
    ensures Finished(data, i + 1, Encoder(table.entries, bitLength), [data[i]], bitOut.Written()) ==
            old(Finished(data, i, Encoder(table.entries, width), s, bitOut.Written()))
  {
    FinishedEmit(data, i, Encoder(table.entries, width), s, bitOut.Written());
    ShortCode(table.IndexOfKey(s), width);
    var written := bitOut.Write(table.IndexOfKey(s), width);
    assert written.Ok?;
    bitLength := LearnKey(table, s + [data[i]], width);
  }

  /** The last phrase, the end code, and the rest of the last byte. */
  method WriteTail(bitOut: BitOutputStream, index: nat, width: nat)
    requires bitOut.Valid() && 3 <= width <= 12 && index < Pow2(width)
    modifies bitOut
    ensures var bits := (old(bitOut.Written()) + LsbBits(index, width)) + LsbBits(END, width);
            BytesBits(bitOut.bytes) == bits + ZeroBits(Padding(bits))
  {
    ShortCode(index, width);
    var written := bitOut.Write(index, width);
    Pow2Monotone(3, width);
    assert Pow2(3) == 8;
    ShortCode(END, width);
    written := bitOut.Write(END, width);
    assert written.Ok?;
    bitOut.Flush();
  }

  /** The main loop: every phrase but the last goes out. */
  method WritePhrases(data: Str, bitOut: BitOutputStream, table: LzwTable) returns (s: Str, bitLength: nat)
    requires Pixels(data) && data != []
    requires bitOut.Valid() && table.Valid() && Ready(Encoder(table.entries, FIRST_WIDTH), [data[0]])
    modifies bitOut, table
    ensures bitOut.Valid() && table.Valid() && Ready(Encoder(table.entries, bitLength), s)
    ensures Finished(data, |data|, Encoder(table.entries, bitLength), s, bitOut.Written()) ==
            old(Finished(data, 1, Encoder(table.entries, FIRST_WIDTH), [data[0]], bitOut.Written()))
  {
    bitLength := FIRST_WIDTH;
    s := [data[0]];
    var i := 1;
    while i < |data|
      invariant 1 <= i <= |data|
      invariant table.Valid() && bitOut.Valid() && Ready(Encoder(table.entries, bitLength), s)
      invariant Finished(data, i, Encoder(table.entries, bitLength), s, bitOut.Written()) ==
                old(Finished(data, 1, Encoder(table.entries, FIRST_WIDTH), [data[0]], bitOut.Written()))
    {
      var c := data[i];
      if table.Contains(s + [c]) {
        FinishedLonger(data, i, Encoder(table.entries, bitLength), s, bitOut.Written());
        s := s + [c];
      } else {
        bitLength := EmitPhrase(bitOut, table, data, i, s, bitLength);
        s := [c];
      }
      i := i + 1;
    }
  }

  /** The raster of a non-empty image. Its bytes are exactly the codes of `AllCodes`, and neither of the two
      throw statements is reached. */
  method GetLzwRaster(data: Str) returns (raster: seq<byte>)
    requires Pixels(data) && data != []
    ensures BytesBits(raster) == RasterBits(data)
    ensures Decode(BytesBits(raster), RESET) == Decoded(data, if Phrases(data) == 11 then OutOfBits else EndCode)
  {
    var table := StartTable();
    var bitOut := new BitOutputStream();
    assert Pow2(3) == 8;
    ShortCode(CLEAR, FIRST_WIDTH);
    var written := bitOut.Write(CLEAR, FIRST_WIDTH);
    FinishedStart(data);
    assert bitOut.Written() == LsbBits(CLEAR, FIRST_WIDTH);
    var s, bitLength := WritePhrases(data, bitOut, table);
    FinishedEnd(data, Encoder(table.entries, bitLength), s, bitOut.Written());
    WriteTail(bitOut, table.IndexOfKey(s), bitLength);
    RasterEnds(data);
    return bitOut.bytes;
  }

  /** The raster of an image of one pixel, as it stands in the GIF files of that size. */
  lemma OnePixel()
    ensures Pixels([0]) && BytesBits([0x44, 0x01]) == RasterBits([0])
  {
    assert [0] == START[0];
    assert Encode([0]) == Encoded([Code(0, 3)], Encoder(START, 3));
    OnePixelCodes();
    var bits := CodeBits(AllCodes([0]));
    assert Padding(bits) == 7;
    OnePixelBytes();
  }

  lemma NextBit(n: nat, len: nat)
    requires len > 0
    ensures LsbBits(n, len) == [n % 2 == 1] + LsbBits(n / 2, len - 1)
  {
  }

  lemma NoBits(n: nat)
    ensures LsbBits(n, 0) == []
  {
  }

  lemma ThreeBits(n: nat)
    ensures LsbBits(n, 3) == [n % 2 == 1, n / 2 % 2 == 1, n / 2 / 2 % 2 == 1]
  {
    NextBit(n, 3);
    NextBit(n / 2, 2);
    NextBit(n / 2 / 2, 1);
    NoBits(n / 2 / 2 / 2);
    hide LsbBits;
  }

  lemma OnePixelCodes()
    ensures CodeBits([Code(4, 3)] + [Code(0, 3)] + [Code(5, 3)]) ==
            [false, false, true, false, false, false, true, false, true]
  {
    hide LsbBits;
    ThreeBits(4);
    ThreeBits(0);
    ThreeBits(5);
    var codes := [Code(4, 3), Code(0, 3), Code(5, 3)];
    assert [Code(4, 3)] + [Code(0, 3)] + [Code(5, 3)] == codes;
    assert codes[1..] == [Code(0, 3), Code(5, 3)] && codes[1..][1..] == [Code(5, 3)] && codes[1..][1..][1..] == [];
  }

  lemma OnePixelBytes()
    ensures BytesBits([0x44, 0x01]) == [false, false, true, false, false, false, true, false, true] + ZeroBits(7)
  {
    LowByteBits();
    hide LsbBits;
    var bytes: seq<byte> := [0x44, 0x01];
    assert bytes[..1] == [0x44] && bytes[..1][..0] == [];
    assert BytesBits(bytes) == BytesBits([]) + LsbBits(0x44, 8) + LsbBits(0x01, 8);
  }

  lemma LowByteBits()
    ensures LsbBits(0x44, 8) == [false, false, true, false, false, false, true, false]
    ensures LsbBits(0x01, 8) == [true] + ZeroBits(7)
  {
    hide LsbBits;
    NextBit(0x44, 8);
    NextBit(0x22, 7);
    NextBit(0x11, 6);
    NextBit(0x08, 5);
    NextBit(0x04, 4);
    ThreeBits(0x02);
    NextBit(0x01, 8);
    LsbZero(7);
  }
}
