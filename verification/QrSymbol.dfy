/** The whole way back: from the modules of a symbol to the segments that were put into it. */
module QrSymbol {
  import opened Prelude
  import opened Bits
  import opened QrBuffer
  import opened QrDecode
  import opened Interleave
  import opened ReedSolomon
  import opened Codewords
  import Zigzag

  /** Bits eight at a time, most significant first. */
  function Bytes(bits: seq<bool>): (bytes: seq<byte>)
    ensures |bytes| == |bits| / 8
  {
    if |bits| < 8 then []
    else
      EightBits(bits[..8]);
      [MsbValue(bits[..8])] + Bytes(bits[8..])
  }

  lemma EightBits(bits: seq<bool>)
    requires |bits| == 8
    ensures MsbValue(bits) < 256
  {
    MsbValueBound(bits);
    assert Pow2(8) == 256;
  }

  lemma {:induction false} BytesOfBits(bytes: seq<byte>)
    ensures Bytes(ByteBits(bytes)) == bytes
  {
    if bytes != [] {
      hide MsbBits, MsbValue;
      var head, tail := MsbBits(bytes[0], 8), ByteBits(bytes[1..]);
      Pow2Values();
      MsbRoundTrip(bytes[0], 8);
      Front(head, tail);
      BytesOfBits(bytes[1..]);
      assert bytes == [bytes[0]] + bytes[1..];
    }
  }

  /** The bits mapData takes are those of the bytes, holes counting as 0. */
  lemma DataBitsOfBytes(data: seq<Slot>, i: nat)
    requires i < 8 * |data|
    ensures Zigzag.DataBit(data, i) == ByteBits(Numbers(data))[i]
  {
    hide Shr;
    ByteBitAt(Numbers(data), i);
    ShrZero(0, 7 - i % 8);
  }

  /** The code words as a reader of the matrix sees them. */
  function ReadModules(g: Zigzag.Grid, n: nat, m: Zigzag.Grid, mask: (int, int) -> bool, count: nat): (bytes: seq<byte>)
    requires Zigzag.Size(n) && Zigzag.Square(g, n) && Zigzag.Square(m, n)
  {
    var bits := Zigzag.ReadBits(g, n, m, mask, Zigzag.Visits(n));
    Bytes(if 8 * count <= |bits| then bits[..8 * count] else bits)
  }

  /** Room for all code words in the free modules is all it takes to read them. */
  lemma ModulesRecovered(g: Zigzag.Grid, n: nat, data: seq<Slot>, mask: (int, int) -> bool, m: Zigzag.Grid)
    requires Zigzag.Size(n) && Zigzag.Square(g, n) && Zigzag.Square(m, n)
    requires Zigzag.IsMapped(g, n, data, mask, m) && 8 * |data| <= Zigzag.FreeBefore(g, n, Zigzag.Visits(n))
    ensures ReadModules(g, n, m, mask, |data|) == Numbers(data)
  {
    hide Zigzag.FreeBefore, Zigzag.ReadBits, Zigzag.IsMapped, Zigzag.DataBit, Bytes, ByteBits;
    Zigzag.BitsRecovered(g, n, data, mask, m, Zigzag.Visits(n));
    var bits := Zigzag.ReadBits(g, n, m, mask, Zigzag.Visits(n));
    forall i | 0 <= i < 8 * |data|
      ensures bits[i] == ByteBits(Numbers(data))[i]
    {
      DataBitsOfBytes(data, i);
    }
    assert bits[..8 * |data|] == ByteBits(Numbers(data));
    BytesOfBits(Numbers(data));
  }

  lemma DeinterleavedNumbers(lens: seq<nat>, out: seq<Slot>)
    requires |out| == Total(lens)
    ensures NumberRows(Deinterleaved(lens, Slots(Numbers(out)))) == NumberRows(Deinterleaved(lens, out))
  {
    var a, b := Deinterleaved(lens, Slots(Numbers(out))), Deinterleaved(lens, out);
    forall r | 0 <= r < |lens|
      ensures Numbers(a[r]) == Numbers(b[r])
    {
      forall i | 0 <= i < lens[r]
        ensures Number(a[r][i]) == Number(b[r][i])
      {
        PositionBound(lens, r, i);
        assert Numbers(Slots(Numbers(out)))[Position(lens, r, i)] == Numbers(out)[Position(lens, r, i)];
      }
    }
  }

  lemma ReadBackNumbers(out: seq<Slot>, blocks: seq<RsBlock>, version: int)
    requires |out| >= Total(DataCounts(blocks))
    ensures ReadBack(Slots(Numbers(out)), blocks, version) == ReadBack(out, blocks, version)
  {
    hide ReadStream, ByteBits, Deinterleaved, NumberRows;
    var n := Total(DataCounts(blocks));
    var front := out[..n];
    assert Numbers(Slots(Numbers(out))[..n]) == Numbers(Slots(Numbers(out)))[..n] == Numbers(front);
    DeinterleavedNumbers(DataCounts(blocks), front);
    DeinterleavedNumbers(DataCounts(blocks), Slots(Numbers(out))[..n]);
  }

  /** A symbol that mapData filled with the code words of createData reads back as the segments. */
  lemma SymbolReadable(g: Zigzag.Grid, mask: (int, int) -> bool, m: Zigzag.Grid,
      list: seq<Segment>, version: nat, blocks: seq<RsBlock>)
    requires 1 <= version < 41 && Zigzag.Square(g, Zigzag.SideOf(version)) && Zigzag.Square(m, Zigzag.SideOf(version))
    requires AllLegal(list) && CountsFit(list, version) && WellFormed(blocks)
    requires |StreamBits(list, version)| <= 8 * Offset(blocks, |blocks|)
    requires AllEcExist(Payload(list, version, Offset(blocks, |blocks|)), blocks)
    requires
      var data := AllCodewords(Payload(list, version, Offset(blocks, |blocks|)), blocks);
      var n := Zigzag.SideOf(version);
      Zigzag.IsMapped(g, n, data, mask, m) && 8 * |data| <= Zigzag.FreeBefore(g, n, Zigzag.Visits(n))
    ensures
      var data := AllCodewords(Payload(list, version, Offset(blocks, |blocks|)), blocks);
      var read := ReadModules(g, Zigzag.SideOf(version), m, mask, |data|);
      |read| >= Total(DataCounts(blocks)) && ReadBack(Slots(read), blocks, version) == Some(list)
  {
    hide AllCodewords, ReadBack, Payload, StreamBits, AllEcExist, ReadModules, Zigzag.IsMapped, Zigzag.FreeBefore,
      Zigzag.SideOf, Zigzag.Size;
    var data := AllCodewords(Payload(list, version, Offset(blocks, |blocks|)), blocks);
    SegmentsRecovered(list, version, blocks);
    ModulesRecovered(g, Zigzag.SideOf(version), data, mask, m);
    ReadBackNumbers(data, blocks, version);
  }
}
