/** The loops of createBytes and createData in win/qrcodegen.js. */
module QrCreate {
  import opened Prelude
  import opened Bits
  import opened QrBuffer
  import opened QrSegments
  import opened QrDecode
  import opened Interleave
  import opened ReedSolomon
  import opened QrMath
  import opened Codewords
  import QrPolynomial

  /** The entries written before row r of column i. */
  function WrittenSoFar<T>(rows: seq<seq<T>>, i: nat, r: nat): seq<T>
    requires r <= |rows|
  {
    Columns(rows, i) + Column(rows, i, r)
  }

  lemma WrittenLength<T>(rows: seq<seq<T>>, i: nat, r: nat)
    requires r <= |rows| && i <= Widest(Lengths(rows))
    ensures |WrittenSoFar(rows, i, r)| <= Total(Lengths(rows))
    ensures r < |rows| && i < |rows[r]| ==> |WrittenSoFar(rows, i, r)| < Total(Lengths(rows))
  {
    var lens := Lengths(rows);
    ColumnsLength(rows, i);
    ColumnLength(rows, i, r);
    if r < |rows| && i < |rows[r]| { PositionBound(lens, r, i); }
    var m := Widest(lens) + 1;
    StartTotal(lens, m);
    StartMonotone(lens, i + 1, m);
    ReachingMonotone(lens, i, r, |lens|);
  }

  /** One of the two writing loops of createBytes; the index runs on through both. */
  method InterleaveInto(rows: seq<seq<Slot>>, maxCount: nat, data: array<Slot>, index: nat) returns (next: nat)
    requires maxCount == Widest(Lengths(rows))
    requires index + Total(Lengths(rows)) <= data.Length
    modifies data
    ensures next == index + Total(Lengths(rows))
    ensures data[..next] == old(data[..index]) + Interleaved(rows)
  {
    hide Columns, Column, Total, Widest, Lengths;
    next := index;
    ghost var before := data[..index];
    ColumnsStart(rows, before);
    for i := 0 to maxCount
      invariant next <= data.Length
      invariant data[..next] == before + Columns(rows, i)
    {
      next := InterleaveColumn(rows, i, data, before, next);
    }
    InterleavedLength(rows);
  }

  lemma ColumnsStart(rows: seq<seq<Slot>>, before: seq<Slot>)
    ensures before + Columns(rows, 0) == before
  {
  }

  method InterleaveColumn(rows: seq<seq<Slot>>, i: nat, data: array<Slot>, ghost before: seq<Slot>, from: nat)
    returns (index: nat)
    requires i < Widest(Lengths(rows))
    requires from <= data.Length && |before| + Total(Lengths(rows)) <= data.Length
    requires data[..from] == before + Columns(rows, i)
    modifies data
    ensures index <= data.Length
    ensures data[..index] == before + Columns(rows, i + 1)
  {
    hide Columns, Column, Total, Widest, Lengths, WrittenSoFar;
    index := from;
    ColumnEmpty(rows, i);
    for r := 0 to |rows|
      invariant index <= data.Length
      invariant data[..index] == before + WrittenSoFar(rows, i, r)
    {
      ColumnNext(rows, i, r);
      WrittenLength(rows, i, r);
      if i < |rows[r]| {
        ghost var was := data[..index];
        data[index] := rows[r][i];
        assert data[..index + 1] == was + [rows[r][i]];
        index := index + 1;
        Assoc(before, WrittenSoFar(rows, i, r), [rows[r][i]]);
      }
    }
    ColumnsNext(rows, i);
  }

  lemma ColumnEmpty(rows: seq<seq<Slot>>, i: nat)
    ensures WrittenSoFar(rows, i, 0) == Columns(rows, i)
  {
    assert Columns(rows, i) + [] == Columns(rows, i);
  }

  lemma ColumnNext(rows: seq<seq<Slot>>, i: nat, r: nat)
    requires r < |rows|
    ensures WrittenSoFar(rows, i, r + 1) ==
      if i < |rows[r]| then WrittenSoFar(rows, i, r) + [rows[r][i]] else WrittenSoFar(rows, i, r)
  {
    hide Columns;
    if i < |rows[r]| {
      Assoc(Columns(rows, i), Column(rows, i, r), [rows[r][i]]);
    } else {
      assert Column(rows, i, r) + [] == Column(rows, i, r);
    }
  }

  lemma ColumnsNext(rows: seq<seq<Slot>>, i: nat)
    ensures WrittenSoFar(rows, i, |rows|) == Columns(rows, i + 1)
  {
  }

  lemma WidestSnoc(lens: seq<nat>, n: nat)
    ensures Widest(lens + [n]) == if Widest(lens) >= n then Widest(lens) else n
  {
    assert (lens + [n])[..|lens|] == lens;
  }

  /** dcdata[r]: the bytes of one block, read from the buffer at its offset. */
  method ReadBlock(buffer: seq<byte>, ghost blocks: seq<RsBlock>, ghost r: nat, dcCount: nat, offset: nat)
    returns (d: seq<byte>)
    requires r < |blocks| && dcCount == blocks[r].dataCount && offset == Offset(blocks, r)
    ensures d == DataBlock(buffer, blocks, r)
  {
    var a := new byte[dcCount](_ => 0);
    for i := 0 to dcCount
      invariant forall k :: 0 <= k < i ==> a[k] == ByteAt(buffer, k + offset)
    {
      a[i] := if i + offset < |buffer| then buffer[i + offset] else 0;
    }
    d := a[..];
  }

  method CreateBytes(math: Tables, buffer: seq<byte>, rsBlocks: seq<RsBlock>) returns (r: Result<seq<Slot>, int>)
    requires math.Valid() && WellFormed(rsBlocks)
    ensures r.Ok? <==> AllEcExist(buffer, rsBlocks)
    ensures r.Ok? ==> r.value == AllCodewords(buffer, rsBlocks)
  {
    hide EcBytes, Interleaved, DataBlock, Widest, Total, Offset, Lengths, Slots;
    var offset, maxDcCount, maxEcCount := 0, 0, 0;
    var dcdata: seq<seq<Slot>>, ecdata: seq<seq<Slot>> := [], [];
    BlocksStart(rsBlocks);
    assert DataRows(buffer, rsBlocks)[..0] == [];
    var i := 0;
    while i < |rsBlocks|
      invariant i <= |rsBlocks| && |dcdata| == |ecdata| == i
      invariant offset == Offset(rsBlocks, i)
      invariant dcdata == DataRows(buffer, rsBlocks)[..i]
      invariant forall k :: 0 <= k < i ==> (EcExists(buffer, rsBlocks, k)
        && ecdata[k] == EcBytes(DataBlock(buffer, rsBlocks, k), EcCount(rsBlocks[k])).value)
      invariant maxDcCount == Widest(Lengths(dcdata)) && maxEcCount == Widest(Lengths(ecdata))
    {
      var dcCount := rsBlocks[i].dataCount;
      var ecCount := rsBlocks[i].totalCount - dcCount;
      var dc := ReadBlock(buffer, rsBlocks, i, dcCount, offset);
      var ec := QrPolynomial.BlockEcBytes(math, dc, ecCount);
      if ec.Err? { assert !EcExists(buffer, rsBlocks, i); return Err(ec.error); }
      RowAdded(dcdata, Slots(dc), maxDcCount);
      RowAdded(ecdata, ec.value, maxEcCount);
      maxDcCount := if maxDcCount >= dcCount then maxDcCount else dcCount;
      maxEcCount := if maxEcCount >= ecCount then maxEcCount else ecCount;
      dcdata, ecdata := dcdata + [Slots(dc)], ecdata + [ec.value];
      OffsetNext(rsBlocks, i);
      offset := offset + dcCount;
      i := i + 1;
    }
    assert dcdata == DataRows(buffer, rsBlocks);
    assert ecdata == EcRows(buffer, rsBlocks);
    var data := WriteAll(rsBlocks, buffer, dcdata, ecdata, maxDcCount, maxEcCount);
    r := Ok(data);
  }

  lemma BlocksStart(blocks: seq<RsBlock>)
    ensures Offset(blocks, 0) == 0 && Widest(Lengths<Slot>([])) == 0
  {
  }

  lemma OffsetNext(blocks: seq<RsBlock>, i: nat)
    requires i < |blocks|
    ensures Offset(blocks, i + 1) == Offset(blocks, i) + blocks[i].dataCount
  {
  }

  lemma RowAdded(rows: seq<seq<Slot>>, row: seq<Slot>, max: nat)
    requires max == Widest(Lengths(rows))
    ensures Widest(Lengths(rows + [row])) == if max >= |row| then max else |row|
  {
    assert Lengths(rows + [row]) == Lengths(rows) + [|row|];
    WidestSnoc(Lengths(rows), |row|);
  }

  function TotalCode(blocks: seq<RsBlock>, n: nat): nat
    requires n <= |blocks|
  {
    if n == 0 then 0 else TotalCode(blocks, n - 1) + blocks[n - 1].totalCount
  }

  lemma {:induction false} TotalCodeSplit(blocks: seq<RsBlock>, n: nat)
    requires n <= |blocks| && WellFormed(blocks)
    ensures TotalCode(blocks, n) == Total(DataCounts(blocks)[..n]) + Total(EcCounts(blocks)[..n])
  {
    if n > 0 {
      TotalCodeSplit(blocks, n - 1);
      assert DataCounts(blocks)[..n][..n - 1] == DataCounts(blocks)[..n - 1];
      assert EcCounts(blocks)[..n][..n - 1] == EcCounts(blocks)[..n - 1];
    }
  }

  method WriteAll(rsBlocks: seq<RsBlock>, ghost buffer: seq<byte>, dcdata: seq<seq<Slot>>, ecdata: seq<seq<Slot>>,
      maxDcCount: nat, maxEcCount: nat) returns (out: seq<Slot>)
    requires WellFormed(rsBlocks) && AllEcExist(buffer, rsBlocks)
    requires dcdata == DataRows(buffer, rsBlocks) && ecdata == EcRows(buffer, rsBlocks)
    requires maxDcCount == Widest(Lengths(dcdata)) && maxEcCount == Widest(Lengths(ecdata))
    ensures out == AllCodewords(buffer, rsBlocks)
  {
    hide EcBytes, Interleaved, Widest, Total;
    var totalCodeCount := 0;
    for i := 0 to |rsBlocks|
      invariant totalCodeCount == TotalCode(rsBlocks, i)
    {
      totalCodeCount := totalCodeCount + rsBlocks[i].totalCount;
    }
    TotalCodeSplit(rsBlocks, |rsBlocks|);
    DataLengths(buffer, rsBlocks);
    EcLengths(buffer, rsBlocks);
    assert DataCounts(rsBlocks)[..|rsBlocks|] == DataCounts(rsBlocks);
    assert EcCounts(rsBlocks)[..|rsBlocks|] == EcCounts(rsBlocks);
    var data := new Slot[totalCodeCount](_ => None);
    var index := InterleaveInto(dcdata, maxDcCount, data, 0);
    index := InterleaveInto(ecdata, maxEcCount, data, index);
    out := data[..];
    assert data[..index] == data[..];
  }

  datatype Failure = IllegalChar(c: char) | Overflow(bits: nat, capacity: nat) | Glog(n: int)

  lemma {:induction false} StreamSnoc(list: seq<Segment>, i: nat, version: int)
    requires i < |list| && AllLegal(list[..i + 1]) && version < 41
    ensures AllLegal(list[..i])
    ensures StreamBits(list[..i + 1], version) == StreamBits(list[..i], version) + SegmentBits(list[i], version)
    decreases i
  {
    hide SegmentBits;
    assert forall k :: 0 <= k < i ==> list[..i][k] == list[..i + 1][k];
    if i == 0 {
      assert list[..1][1..] == [] && list[..0] == [];
      assert SegmentBits(list[0], version) + [] == SegmentBits(list[0], version);
    } else {
      assert list[1..][..i] == list[..i + 1][1..] && list[1..][..i - 1] == list[..i][1..];
      forall k | 0 <= k < i
        ensures Legal(list[1..][..i][k])
      {
        assert list[1..][..i][k] == list[..i + 1][k + 1];
      }
      StreamSnoc(list[1..], i - 1, version);
      Assoc(SegmentBits(list[0], version), StreamBits(list[..i][1..], version), SegmentBits(list[i], version));
    }
  }

  /** put(mode), put(length), write: one segment. */
  method PutSegment(buffer: QrBitBuffer, s: Segment, version: int) returns (r: Result<(), char>)
    requires buffer.Valid() && version < 41 && Count(s) < Pow2(32)
    modifies buffer
    ensures buffer.Valid()
    ensures r.Ok? <==> Legal(s)
    ensures r.Ok? ==> buffer.bits == old(buffer.bits) + SegmentBits(s, version)
  {
    hide NumericBits, AlphaNumBits, ByteBits, MsbBits, PackBits, SegmentBits, Pow2;
    ghost var was := buffer.bits;
    ModesFit();
    var width := LengthInBits(Mode(s), version).value;
    buffer.Put(Mode(s), 4);
    buffer.Put(Count(s), width);
    match s {
      case Numeric(d) =>
        r := WriteNumber(d, buffer);
      case AlphaNum(d) =>
        r := WriteAlphaNum(d, buffer);
      case Bytes(b) =>
        WriteBytes(b, buffer);
        r := Ok(());
    }
    if r.Ok? { SegmentJoined(was, s, version); }
  }

  lemma SegmentJoined(was: seq<bool>, s: Segment, version: int)
    requires Legal(s) && version < 41
    ensures was + MsbBits(Mode(s), 4) + MsbBits(Count(s), LengthInBits(Mode(s), version).value) + Content(s) ==
            was + SegmentBits(s, version)
  {
    hide MsbBits, Content;
    var mode, count := MsbBits(Mode(s), 4), MsbBits(Count(s), LengthInBits(Mode(s), version).value);
    Assoc(was, mode, count + Content(s));
    Assoc(was + mode, count, Content(s));
  }

  lemma ModesFit()
    ensures 4 < Pow2(32)
  {
    Pow2Values();
    Pow2Monotone(3, 32);
  }

  /** The rest of createData once the segments are in the buffer: end code and padding. */
  method PadBuffer(buffer: QrBitBuffer, totalDataCount: nat)
    requires buffer.Valid() && |buffer.bits| <= 8 * totalDataCount
    modifies buffer
    ensures buffer.Valid() && buffer.bits == Padded(old(buffer.bits), totalDataCount)
  {
    hide MsbBits, PadWords, PackBits, Padded, Slack;
    ghost var bits, n := buffer.bits, totalDataCount;
    ModesFit();
    MsbZero(4);
    if buffer.length + 4 <= totalDataCount * 8 {
      buffer.Put(0, 4);
    }
    ghost var t := buffer.bits;
    AlignBuffer(buffer);
    AlignedBits(bits, t, buffer.bits, n);
    PadLoop(buffer, totalDataCount);
  }

  /** ZeroBits up to a whole byte. */
  method AlignBuffer(buffer: QrBitBuffer)
    requires buffer.Valid()
    modifies buffer
    ensures buffer.Valid() && buffer.bits == old(buffer.bits) + ZeroBits(Slack(|old(buffer.bits)|))
  {
    hide PackBits, Slack;
    ghost var t, k := buffer.bits, 0;
    assert t + ZeroBits(0) == t;
    while buffer.length % 8 != 0
      invariant buffer.Valid() && k <= Slack(|t|) && buffer.bits == t + ZeroBits(k)
      decreases Slack(|t|) - k
    {
      SlackLeft(|t|, k);
      buffer.PutBit(false);
      assert ZeroBits(k) + [false] == ZeroBits(k + 1);
      Assoc(t, ZeroBits(k), [false]);
      k := k + 1;
    }
    SlackLeft(|t|, k);
  }

  lemma SlackLeft(n: nat, k: nat)
    requires k <= Slack(n)
    ensures k == Slack(n) <==> (n + k) % 8 == 0
  {
  }

  /** Whether or not the end code fits, the bits up to the whole byte are the same. */
  lemma AlignedBits(bits: seq<bool>, t: seq<bool>, b: seq<bool>, n: nat)
    requires |bits| <= 8 * n
    requires t == if |bits| + 4 <= 8 * n then bits + ZeroBits(4) else bits
    requires b == t + ZeroBits(Slack(|t|))
    ensures |b| <= 8 * n && |b| % 8 == 0
    ensures Padded(bits, n) == b + PadWords((8 * n - |b|) / 8, true)
  {
    hide PadWords, Slack;
    SlackFits(|t|, n);
    if |bits| + 4 > 8 * n { CloseToFull(bits, n); }
  }

  /** Where there is no room for the end code, the zeros to the end of the byte are its zeros. */
  lemma CloseToFull(bits: seq<bool>, n: nat)
    requires |bits| <= 8 * n < |bits| + 4
    ensures |bits| + Slack(|bits|) == 8 * n
    ensures var s := bits + ZeroBits(8 * n - |bits|); s + ZeroBits(Slack(|s|)) == bits + ZeroBits(Slack(|bits|))
  {
    var s := bits + ZeroBits(8 * n - |bits|);
    assert |s| == 8 * n && Slack(8 * n) == 0;
    assert s + ZeroBits(0) == s;
  }

  lemma LeftBytes(len: nat, n: nat)
    requires len <= 8 * n && len % 8 == 0
    ensures (8 * n - len) % 8 == 0 && (len + 8) % 8 == 0
    ensures 8 * n - len > 0 ==> 8 * n - len >= 8
  {
    assert len == 8 * (len / 8);
    assert 8 * n - len == 8 * (n - len / 8);
  }

  /** One pad code word, unless the capacity is reached. */
  method PadOnce(buffer: QrBitBuffer, totalDataCount: nat, even: bool) returns (full: bool)
    requires buffer.Valid() && |buffer.bits| <= 8 * totalDataCount && |buffer.bits| % 8 == 0
    modifies buffer
    ensures buffer.Valid() && |buffer.bits| <= 8 * totalDataCount && |buffer.bits| % 8 == 0
    ensures full ==> buffer.bits == old(buffer.bits) && |buffer.bits| == 8 * totalDataCount
    ensures !full ==> |buffer.bits| == |old(buffer.bits)| + 8
    ensures buffer.bits + PadWords((8 * totalDataCount - |buffer.bits|) / 8, if full then even else !even) ==
      old(buffer.bits) + PadWords((8 * totalDataCount - |old(buffer.bits)|) / 8, even)
  {
    hide MsbBits, PadWords, PackBits;
    PadsFit();
    ghost var left := 8 * totalDataCount - |buffer.bits|;
    LeftBytes(|buffer.bits|, totalDataCount);
    PadNext(buffer.bits, left, even);
    if buffer.length >= totalDataCount * 8 { return true; }
    buffer.Put(if even then 0xEC else 0x11, 8);
    assert 8 * totalDataCount - |buffer.bits| == left - 8;
    full := false;
  }

  /** PAD0 and PAD1 in turn until the capacity is reached. */
  method PadLoop(buffer: QrBitBuffer, totalDataCount: nat)
    requires buffer.Valid() && |buffer.bits| <= 8 * totalDataCount && |buffer.bits| % 8 == 0
    modifies buffer
    ensures buffer.Valid()
    ensures buffer.bits == old(buffer.bits) + PadWords((8 * totalDataCount - |old(buffer.bits)|) / 8, true)
  {
    hide MsbBits, PadWords, PackBits;
    ghost var target := buffer.bits + PadWords((8 * totalDataCount - |buffer.bits|) / 8, true);
    while true
      invariant buffer.Valid() && |buffer.bits| <= 8 * totalDataCount && |buffer.bits| % 8 == 0
      invariant buffer.bits + PadWords((8 * totalDataCount - |buffer.bits|) / 8, true) == target
      decreases 8 * totalDataCount - |buffer.bits|
    {
      var full := PadOnce(buffer, totalDataCount, true);
      if full { break; }
      full := PadOnce(buffer, totalDataCount, false);
      if full { break; }
    }
    NoPads(buffer.bits);
  }

  lemma NoPads(bits: seq<bool>)
    ensures forall even :: bits + PadWords(0, even) == bits
  {
  }

  lemma PadsFit()
    ensures 0xEC < Pow2(32)
  {
    Pow2Values();
    Pow2Monotone(8, 32);
  }

  lemma PadNext(bits: seq<bool>, left: nat, even: bool)
    requires left % 8 == 0
    ensures left == 0 ==> bits + PadWords(left / 8, even) == bits
    ensures left > 0 ==>
      left >= 8 && bits + PadWords(left / 8, even) ==
        bits + MsbBits(if even then 0xEC else 0x11, 8) + PadWords((left - 8) / 8, !even)
  {
    hide MsbBits;
    if left > 0 {
      assert (left - 8) / 8 == left / 8 - 1;
      Assoc(bits, MsbBits(if even then 0xEC else 0x11, 8), PadWords(left / 8 - 1, !even));
    }
  }

  /** createData, with the block list of the version already looked up. */
  method CreateData(math: Tables, version: int, rsBlocks: seq<RsBlock>, dataList: seq<Segment>)
    returns (r: Result<seq<Slot>, Failure>)
    requires math.Valid() && WellFormed(rsBlocks) && version < 41
    requires forall i :: 0 <= i < |dataList| ==> Count(dataList[i]) < Pow2(32)
    ensures r.Err? && r.error.IllegalChar? <==> !AllLegal(dataList)
    ensures AllLegal(dataList) ==>
      (r.Err? && r.error.Overflow? <==> |StreamBits(dataList, version)| > 8 * Offset(rsBlocks, |rsBlocks|))
    ensures AllLegal(dataList) && |StreamBits(dataList, version)| <= 8 * Offset(rsBlocks, |rsBlocks|) ==>
      (r.Ok? <==> AllEcExist(Payload(dataList, version, Offset(rsBlocks, |rsBlocks|)), rsBlocks))
    ensures r.Ok? ==>
      && |StreamBits(dataList, version)| <= 8 * Offset(rsBlocks, |rsBlocks|)
      && r.value == AllCodewords(Payload(dataList, version, Offset(rsBlocks, |rsBlocks|)), rsBlocks)
  {
    hide SegmentBits, StreamBits, AllEcExist, AllCodewords, PackBits, Padded, Legal, Offset, Count;
    var buffer := new QrBitBuffer();
    StreamStart(dataList, version);
    var i := 0;
    while i < |dataList|
      invariant i <= |dataList| && buffer.Valid() && AllLegal(dataList[..i])
      invariant buffer.bits == StreamBits(dataList[..i], version)
      invariant fresh(buffer)
    {
      var put := PutSegment(buffer, dataList[i], version);
      if put.Err? { return Err(IllegalChar(put.error)); }
      assert dataList[..i + 1] == dataList[..i] + [dataList[i]];
      StreamSnoc(dataList, i, version);
      i := i + 1;
    }
    assert dataList[..i] == dataList;
    var totalDataCount := TotalDataCount(rsBlocks);
    if buffer.length > totalDataCount * 8 {
      return Err(Overflow(buffer.length, totalDataCount * 8));
    }
    PadBuffer(buffer, totalDataCount);
    var bytes := CreateBytes(math, buffer.buffer, rsBlocks);
    if bytes.Err? { return Err(Glog(bytes.error)); }
    r := Ok(bytes.value);
  }

  lemma StreamStart(list: seq<Segment>, version: int)
    requires version < 41
    ensures AllLegal(list[..0]) && StreamBits(list[..0], version) == []
  {
  }

  method TotalDataCount(blocks: seq<RsBlock>) returns (n: nat)
    ensures n == Offset(blocks, |blocks|)
  {
    n := 0;
    for i := 0 to |blocks|
      invariant n == Offset(blocks, i)
    {
      n := n + blocks[i].dataCount;
    }
  }
}
