/** createBytes and createData of win/qrcodegen.js: from segments to interleaved code words. */
module Codewords {
  import opened Prelude
  import opened Bits
  import opened QrBuffer
  import opened QrSegments
  import opened QrDecode
  import opened Interleave
  import opened ReedSolomon
  import opened QrMath
  import QrPolynomial

  datatype RsBlock = RsBlock(totalCount: nat, dataCount: nat)

  predicate WellFormed(blocks: seq<RsBlock>) {
    forall r :: 0 <= r < |blocks| ==> blocks[r].dataCount <= blocks[r].totalCount
  }

  function EcCount(b: RsBlock): int {
    b.totalCount - b.dataCount
  }

  // ---- padding to the capacity ----

  /** k pad code words, 0xEC and 0x11 in turn. */
  function PadWords(k: nat, even: bool): (bits: seq<bool>)
    ensures |bits| == 8 * k
  {
    if k == 0 then [] else MsbBits(if even then 0xEC else 0x11, 8) + PadWords(k - 1, !even)
  }

  /** Sections 7.4.9 and 7.4.10: a terminator of at most four zeros, zeros to a whole byte, pad code words. */
  function Padded(bits: seq<bool>, n: nat): (p: seq<bool>)
    requires |bits| <= 8 * n
    ensures |p| == 8 * n && bits <= p
  {
    var t := bits + ZeroBits(Min(4, 8 * n - |bits|));
    var b := t + ZeroBits(Slack(|t|));
    SlackFits(|t|, n);
    b + PadWords((8 * n - |b|) / 8, true)
  }

  lemma SlackFits(len: nat, n: nat)
    requires len <= 8 * n
    ensures len + Slack(len) <= 8 * n && (8 * n - (len + Slack(len))) % 8 == 0
  {
  }

  lemma PaddedTerminated(bits: seq<bool>, n: nat)
    requires |bits| <= 8 * n
    ensures Terminated(Padded(bits, n)[|bits|..])
  {
    hide PadWords;
    var tail := Padded(bits, n)[|bits|..];
    if |tail| >= 4 {
      assert tail[..4] == ZeroBits(4);
      ZerosValue(4);
    }
  }

  lemma {:induction false} ZerosValue(k: nat)
    ensures MsbValue(ZeroBits(k)) == 0
  {
    if k > 0 {
      ZerosValue(k - 1);
      assert ZeroBits(k)[..k - 1] == ZeroBits(k - 1);
    }
  }

  // ---- blocks ----

  function Offset(blocks: seq<RsBlock>, r: nat): nat
    requires r <= |blocks|
  {
    if r == 0 then 0 else Offset(blocks, r - 1) + blocks[r - 1].dataCount
  }

  /** 0xff & of what may lie beyond the end of the buffer. */
  function ByteAt(bytes: seq<byte>, k: nat): byte {
    if k < |bytes| then bytes[k] else 0
  }

  function DataBlock(bytes: seq<byte>, blocks: seq<RsBlock>, r: nat): (d: seq<byte>)
    requires r < |blocks|
    ensures |d| == blocks[r].dataCount
  {
    seq<byte>(blocks[r].dataCount, i requires 0 <= i < blocks[r].dataCount => ByteAt(bytes, i + Offset(blocks, r)))
  }

  ghost predicate EcExists(bytes: seq<byte>, blocks: seq<RsBlock>, r: nat)
    requires r < |blocks| && WellFormed(blocks)
  {
    EcBytes(DataBlock(bytes, blocks, r), EcCount(blocks[r])).Ok?
  }

  /** The error correction bytes exist for every block. */
  ghost predicate AllEcExist(bytes: seq<byte>, blocks: seq<RsBlock>)
    requires WellFormed(blocks)
  {
    forall r :: 0 <= r < |blocks| ==> EcExists(bytes, blocks, r)
  }

  /** They do for all blocks with at most 254 of them. */
  lemma SmallBlocks(bytes: seq<byte>, blocks: seq<RsBlock>)
    requires WellFormed(blocks) && forall r :: 0 <= r < |blocks| ==> EcCount(blocks[r]) <= 254
    ensures AllEcExist(bytes, blocks)
  {
    hide EcBytes, DataBlock;
    forall r | 0 <= r < |blocks|
      ensures EcExists(bytes, blocks, r)
    {
      EcBytesExist(DataBlock(bytes, blocks, r), EcCount(blocks[r]));
    }
  }

  function DataRows(bytes: seq<byte>, blocks: seq<RsBlock>): (rows: seq<seq<Slot>>)
    ensures |rows| == |blocks|
  {
    seq(|blocks|, r requires 0 <= r < |blocks| => Slots(DataBlock(bytes, blocks, r)))
  }

  ghost function EcRows(bytes: seq<byte>, blocks: seq<RsBlock>): (rows: seq<seq<Slot>>)
    requires WellFormed(blocks) && AllEcExist(bytes, blocks)
    ensures |rows| == |blocks|
  {
    seq(|blocks|, r requires 0 <= r < |blocks| && EcExists(bytes, blocks, r) =>
      EcBytes(DataBlock(bytes, blocks, r), EcCount(blocks[r])).value)
  }

  /** Section 7.6: the data of all blocks interleaved, and then their error correction bytes. */
  ghost function AllCodewords(bytes: seq<byte>, blocks: seq<RsBlock>): seq<Slot>
    requires WellFormed(blocks) && AllEcExist(bytes, blocks)
  {
    Interleaved(DataRows(bytes, blocks)) + Interleaved(EcRows(bytes, blocks))
  }

  function DataCounts(blocks: seq<RsBlock>): (lens: seq<nat>)
    ensures |lens| == |blocks|
  {
    seq(|blocks|, r requires 0 <= r < |blocks| => blocks[r].dataCount)
  }

  function EcCounts(blocks: seq<RsBlock>): (lens: seq<nat>)
    requires WellFormed(blocks)
    ensures |lens| == |blocks|
  {
    seq(|blocks|, r requires 0 <= r < |blocks| => EcCount(blocks[r]))
  }

  lemma DataLengths(bytes: seq<byte>, blocks: seq<RsBlock>)
    ensures Lengths(DataRows(bytes, blocks)) == DataCounts(blocks)
  {
  }

  lemma EcLengths(bytes: seq<byte>, blocks: seq<RsBlock>)
    requires WellFormed(blocks) && AllEcExist(bytes, blocks)
    ensures Lengths(EcRows(bytes, blocks)) == EcCounts(blocks)
  {
    forall r | 0 <= r < |blocks|
      ensures |EcRows(bytes, blocks)[r]| == EcCounts(blocks)[r]
    {
      assert EcExists(bytes, blocks, r);
    }
  }

  /** From the code words and the block sizes alone, every data block and its error correction bytes come back. */
  lemma BlocksRecovered(bytes: seq<byte>, blocks: seq<RsBlock>)
    requires WellFormed(blocks) && AllEcExist(bytes, blocks)
    ensures
      var out, n := AllCodewords(bytes, blocks), Total(DataCounts(blocks));
      |out| == n + Total(EcCounts(blocks))
      && Deinterleaved(DataCounts(blocks), out[..n]) == DataRows(bytes, blocks)
      && Deinterleaved(EcCounts(blocks), out[n..]) == EcRows(bytes, blocks)
  {
    hide EcBytes, Interleaved, Deinterleaved;
    DataLengths(bytes, blocks);
    EcLengths(bytes, blocks);
    RowsRoundTrip(DataRows(bytes, blocks));
    RowsRoundTrip(EcRows(bytes, blocks));
    Front(Interleaved(DataRows(bytes, blocks)), Interleaved(EcRows(bytes, blocks)));
  }

  // ---- the blocks in a row are the buffer ----

  function DataBlocks(bytes: seq<byte>, blocks: seq<RsBlock>, n: nat): (rows: seq<seq<byte>>)
    requires n <= |blocks|
    ensures |rows| == n
  {
    seq(n, r requires 0 <= r < n => DataBlock(bytes, blocks, r))
  }

  lemma {:induction false} JoinedBlocks(bytes: seq<byte>, blocks: seq<RsBlock>, n: nat)
    requires n <= |blocks| && Offset(blocks, n) <= |bytes|
    ensures Joined(DataBlocks(bytes, blocks, n)) == bytes[..Offset(blocks, n)]
  {
    if n > 0 {
      JoinedBlocks(bytes, blocks, n - 1);
      assert DataBlocks(bytes, blocks, n)[..n - 1] == DataBlocks(bytes, blocks, n - 1);
      var last := DataBlock(bytes, blocks, n - 1);
      var from := Offset(blocks, n - 1);
      assert Offset(blocks, n) == from + |last|;
      forall i | 0 <= i < |last|
        ensures last[i] == bytes[from..from + |last|][i]
      {
      }
      assert bytes[from..from + |last|] == last;
    }
  }

  /** What a reader makes of the code words, when none of them was damaged. */
  function ReadBack(out: seq<Slot>, blocks: seq<RsBlock>, version: int): Option<seq<Segment>>
    requires |out| >= Total(DataCounts(blocks))
  {
    var rows := Deinterleaved(DataCounts(blocks), out[..Total(DataCounts(blocks))]);
    ReadStream(ByteBits(Joined(NumberRows(rows))), version)
  }

  function NumberRows(rows: seq<seq<Slot>>): (v: seq<seq<byte>>)
    ensures |v| == |rows|
  {
    seq(|rows|, r requires 0 <= r < |rows| => Numbers(rows[r]))
  }

  lemma ReadBackRows(bytes: seq<byte>, blocks: seq<RsBlock>, version: int)
    requires WellFormed(blocks) && AllEcExist(bytes, blocks)
    requires |bytes| == Offset(blocks, |blocks|)
    ensures |AllCodewords(bytes, blocks)| >= Total(DataCounts(blocks))
    ensures ReadBack(AllCodewords(bytes, blocks), blocks, version) == ReadStream(ByteBits(bytes), version)
  {
    hide ReadStream, ByteBits, EcBytes, Deinterleaved, AllCodewords;
    BlocksRecovered(bytes, blocks);
    var rows := DataRows(bytes, blocks);
    assert NumberRows(rows) == DataBlocks(bytes, blocks, |blocks|);
    JoinedBlocks(bytes, blocks, |blocks|);
    assert bytes[..|bytes|] == bytes;
  }

  /** The bytes createData hands to createBytes. */
  function Payload(list: seq<Segment>, version: int, n: nat): seq<byte>
    requires AllLegal(list) && version < 41 && |StreamBits(list, version)| <= 8 * n
  {
    PackBits(Padded(StreamBits(list, version), n))
  }

  lemma PayloadBits(list: seq<Segment>, version: int, n: nat)
    requires AllLegal(list) && version < 41 && |StreamBits(list, version)| <= 8 * n
    ensures |Payload(list, version, n)| == n
    ensures ByteBits(Payload(list, version, n)) == Padded(StreamBits(list, version), n)
  {
    hide Padded, StreamBits, ByteBits, PackBits;
    var p := Padded(StreamBits(list, version), n);
    PackBitsLength(p);
    PackBitsRoundTrip(p);
    assert Slack(8 * n) == 0;
    assert p + ZeroBits(0) == p;
  }

  /** The whole way: the segments can be read back from the interleaved code words. */
  lemma SegmentsRecovered(list: seq<Segment>, version: int, blocks: seq<RsBlock>)
    requires AllLegal(list) && version < 41 && CountsFit(list, version) && WellFormed(blocks)
    requires |StreamBits(list, version)| <= 8 * Offset(blocks, |blocks|)
    requires AllEcExist(Payload(list, version, Offset(blocks, |blocks|)), blocks)
    ensures
      var out := AllCodewords(Payload(list, version, Offset(blocks, |blocks|)), blocks);
      |out| >= Total(DataCounts(blocks)) && ReadBack(out, blocks, version) == Some(list)
  {
    hide AllCodewords, ReadBack, Padded, StreamBits, ByteBits, Payload, ReadStream, AllEcExist, MsbValue;
    var n := Offset(blocks, |blocks|);
    var bits := StreamBits(list, version);
    PayloadBits(list, version, n);
    ReadBackRows(Payload(list, version, n), blocks, version);
    PaddedTerminated(bits, n);
    var p := Padded(bits, n);
    assert p == bits + p[|bits|..];
    StreamRoundTrip(list, version, p[|bits|..]);
  }
}
