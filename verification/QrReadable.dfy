/** Every symbol that win/qrcodegen.js makes can be read: its code words have room, and its segments come back. */
module QrReadable {
  import opened Prelude
  import opened Bits
  import opened QrBuffer
  import opened QrSegments
  import opened QrDecode
  import opened Interleave
  import opened ReedSolomon
  import opened QrMath
  import opened Codewords
  import opened QrCreate
  import opened QrBlocks
  import opened QrTables
  import opened QrSymbol
  import QrPatterns
  import QrRoom
  import Zigzag

  // ---- the number of code words ----

  lemma CodewordCount(bytes: seq<byte>, blocks: seq<RsBlock>)
    requires WellFormed(blocks) && AllEcExist(bytes, blocks)
    ensures |AllCodewords(bytes, blocks)| == TotalCode(blocks, |blocks|)
  {
    hide Interleaved, Total, TotalCode, DataRows, EcRows, AllEcExist;
    InterleavedLength(DataRows(bytes, blocks));
    InterleavedLength(EcRows(bytes, blocks));
    DataLengths(bytes, blocks);
    EcLengths(bytes, blocks);
    TotalCodeSplit(blocks, |blocks|);
    assert DataCounts(blocks)[..|blocks|] == DataCounts(blocks) && EcCounts(blocks)[..|blocks|] == EcCounts(blocks);
  }

  // ---- a count that fits the symbol fits its field ----

  lemma {:induction false} NumericLength(d: string)
    requires AllDigits(d)
    ensures 3 * |NumericBits(d)| >= 10 * |d|
  {
    if d != "" {
      var k := if |d| < 3 then |d| else 3;
      NumericLength(d[k..]);
    }
  }

  lemma {:induction false} AlphaNumLength(s: string)
    requires AllCodes(s)
    ensures 2 * |AlphaNumBits(s)| >= 11 * |s|
  {
    if |s| > 1 { AlphaNumLength(s[2..]); }
  }

  lemma {:induction false} SegmentInStream(list: seq<Segment>, version: int, i: nat)
    requires AllLegal(list) && version < 41 && i < |list|
    ensures |Content(list[i])| <= |StreamBits(list, version)|
    decreases i
  {
    hide Content;
    if i > 0 { SegmentInStream(list[1..], version, i - 1); }
  }

  /** The widths of the count fields. */
  lemma CountRoom(version: nat)
    requires 1 <= version <= 40
    ensures 12 * MaxData(version) < 5 * Pow2(LengthInBits(1, version).value)
    ensures 16 * MaxData(version) < 11 * Pow2(LengthInBits(2, version).value)
    ensures MaxData(version) < Pow2(LengthInBits(4, version).value)
  {
    assert Pow2(8) == 256;
    assert Pow2(11) == 2048;
    assert Pow2(14) == 16384 && Pow2(16) == 65536;
  }

  lemma SegmentCountFits(s: Segment, version: nat)
    requires 1 <= version <= 40 && Legal(s) && |Content(s)| <= 8 * MaxData(version)
    ensures Count(s) < Pow2(LengthInBits(Mode(s), version).value)
  {
    CountRoom(version);
    hide Pow2, LengthInBits, MaxData, NumericBits, AlphaNumBits;
    match s
    case Numeric(d) => NumericLength(d);
    case AlphaNum(d) => AlphaNumLength(d);
    case Bytes(_) =>
  }

  /** What fits the capacity fits the count fields, so the reader is never misled by a count. */
  lemma CapacityFitsCounts(list: seq<Segment>, version: nat, level: Level)
    requires 1 <= version <= 40 && AllLegal(list)
    requires |StreamBits(list, version)| <= 8 * RowData(BlockRow(version, level))
    ensures CountsFit(list, version)
  {
    RowFits(version, level);
    DataBound(version, level);
    hide StreamBits, Content, Pow2, LengthInBits, BlockRow, Standard, RowData, Room, RowTotal, Sound, Even;
    forall i | 0 <= i < |list|
      ensures Count(list[i]) < Pow2(LengthInBits(Mode(list[i]), version).value)
    {
      SegmentInStream(list, version, i);
      SegmentCountFits(list[i], version);
    }
  }

  // ---- every version and level ----

  function Blocks(version: nat, level: Level): (blocks: seq<RsBlock>)
    requires 1 <= version <= 40
    ensures WellFormed(blocks)
  {
    RowFits(version, level);
    ExpandedSound(BlockRow(version, level));
    Expanded(BlockRow(version, level))
  }

  function Capacity(version: nat, level: Level): nat
    requires 1 <= version <= 40
  {
    8 * RowData(BlockRow(version, level))
  }

  lemma BlocksCapacity(version: nat, level: Level)
    requires 1 <= version <= 40
    ensures var blocks := Blocks(version, level);
      && 8 * Offset(blocks, |blocks|) == Capacity(version, level)
      && 8 * TotalCode(blocks, |blocks|) <= Room(version)
      && forall r :: 0 <= r < |blocks| ==> EcCount(blocks[r]) <= 254
  {
    RowFits(version, level);
    hide Room, BlockRow, RowData, RowTotal, Sound, Expanded;
    ExpandedTotal(BlockRow(version, level));
    ExpandedSound(BlockRow(version, level));
  }

  /** The code words of createData, which exist for every legal list that fits. */
  ghost function SymbolCodewords(list: seq<Segment>, version: nat, level: Level): seq<Slot>
    requires 1 <= version <= 40 && AllLegal(list) && |StreamBits(list, version)| <= Capacity(version, level)
  {
    BlocksCapacity(version, level);
    var blocks := Blocks(version, level);
    var bytes := Payload(list, version, Offset(blocks, |blocks|));
    SmallBlocks(bytes, blocks);
    AllCodewords(bytes, blocks)
  }

  /** What a reader that knows version, level and mask makes of a matrix. */
  ghost function ReadSymbol(g: Zigzag.Grid, m: Zigzag.Grid, mask: (int, int) -> bool, version: nat, level: Level)
    : Option<seq<Segment>>
    requires 1 <= version <= 40 && Zigzag.Square(g, Zigzag.SideOf(version)) && Zigzag.Square(m, Zigzag.SideOf(version))
  {
    var blocks := Blocks(version, level);
    var read := ReadModules(g, Zigzag.SideOf(version), m, mask, TotalCode(blocks, |blocks|));
    if |read| < Total(DataCounts(blocks)) then None else ReadBack(Slots(read), blocks, version)
  }

  /** At every version and level: the segments that fit come back from the matrix, whatever the mask. */
  lemma EverySymbolReadable(g: Zigzag.Grid, mask: (int, int) -> bool, m: Zigzag.Grid,
      list: seq<Segment>, version: nat, level: Level)
    requires 1 <= version <= 40 && Zigzag.Square(g, Zigzag.SideOf(version)) && Zigzag.Square(m, Zigzag.SideOf(version))
    requires QrPatterns.Patterned(g, version)
    requires AllLegal(list) && |StreamBits(list, version)| <= Capacity(version, level)
    requires Zigzag.IsMapped(g, Zigzag.SideOf(version), SymbolCodewords(list, version, level), mask, m)
    ensures ReadSymbol(g, m, mask, version, level) == Some(list)
  {
    var blocks := Blocks(version, level);
    BlocksCapacity(version, level);
    var bytes := Payload(list, version, Offset(blocks, |blocks|));
    SmallBlocks(bytes, blocks);
    hide AllCodewords, ReadBack, Payload, StreamBits, AllEcExist, ReadModules, Blocks, TotalCode, Offset, Room, RowData,
      BlockRow, Zigzag.IsMapped, Zigzag.FreeBefore, Zigzag.SideOf, Zigzag.Size, Zigzag.Visits, QrPatterns.Patterned;
    CodewordCount(bytes, blocks);
    CapacityFitsCounts(list, version, level);
    QrRoom.FreeInSymbol(g, version);
    SymbolReadable(g, mask, m, list, version, blocks);
  }

  // ---- makeImpl ----

  /** The data leaves the modules of the patterns as they are. */
  lemma MappedKeeps(g: Zigzag.Grid, n: nat, data: seq<Slot>, mask: (int, int) -> bool, m: Zigzag.Grid)
    requires Zigzag.Size(n) && Zigzag.Square(g, n) && Zigzag.Square(m, n) && Zigzag.IsMapped(g, n, data, mask, m)
    ensures QrPatterns.Keeps(g, m, n)
  {
  }

  /** A symbol, or what createData throws. The ghost result is the matrix before the data went in. */
  method MakeSymbol(math: Tables, version: nat, level: Level, list: seq<Segment>, test: bool, mask: (int, int) -> bool,
      typeBits: nat, versionBits: nat)
    returns (r: Result<array2<Option<bool>>, Failure>, ghost g: Zigzag.Grid)
    requires math.Valid() && 1 <= version <= 40
    requires forall i :: 0 <= i < |list| ==> Count(list[i]) < Pow2(32)
    ensures r.Ok? <==> AllLegal(list) && |StreamBits(list, version)| <= Capacity(version, level)
    ensures r.Ok? ==>
      && r.value.Length0 == r.value.Length1 == Zigzag.SideOf(version)
      && Zigzag.Square(g, Zigzag.SideOf(version)) && QrPatterns.Patterned(g, version)
      && ReadSymbol(g, Zigzag.GridOf(r.value), mask, version, level) == Some(list)
      && QrPatterns.Drawn(Zigzag.GridOf(r.value), version, test, typeBits, versionBits)
  {
    hide StreamBits, Capacity, AllCodewords, Payload, AllEcExist, Blocks, Offset, ReadSymbol, QrPatterns.Patterned,
      QrPatterns.Drawn,
      Zigzag.IsMapped, Zigzag.SideOf, Count, Legal;
    var m := QrPatterns.SetupPatterns(version, test, typeBits, versionBits);
    g := Zigzag.GridOf(m);
    var blocks := GetRsBlocks(version, level);
    BlocksCapacity(version, level);
    BlocksAre(version, level);
    if AllLegal(list) && |StreamBits(list, version)| <= Capacity(version, level) {
      CodewordsExist(list, version, level);
    }
    var data := CreateData(math, version, blocks.value, list);
    if data.Err? { return Err(data.error), g; }
    Zigzag.MapData(m, data.value, mask);
    EverySymbolReadable(g, mask, Zigzag.GridOf(m), list, version, level);
    MappedKeeps(g, Zigzag.SideOf(version), data.value, mask, Zigzag.GridOf(m));
    QrPatterns.DrawnStays(g, Zigzag.GridOf(m), version, test, typeBits, versionBits);
    r := Ok(m);
  }

  lemma BlocksAre(version: nat, level: Level)
    requires 1 <= version <= 40
    ensures Blocks(version, level) == Expanded(BlockRow(version, level))
  {
  }

  lemma CodewordsExist(list: seq<Segment>, version: nat, level: Level)
    requires 1 <= version <= 40 && AllLegal(list) && |StreamBits(list, version)| <= Capacity(version, level)
    ensures var blocks := Blocks(version, level);
      && |StreamBits(list, version)| <= 8 * Offset(blocks, |blocks|)
      && AllEcExist(Payload(list, version, Offset(blocks, |blocks|)), blocks)
      && SymbolCodewords(list, version, level) ==
         AllCodewords(Payload(list, version, Offset(blocks, |blocks|)), blocks)
  {
    BlocksCapacity(version, level);
    var blocks := Blocks(version, level);
    hide StreamBits, Offset, Blocks, AllEcExist, Payload, AllCodewords;
    SmallBlocks(Payload(list, version, Offset(blocks, |blocks|)), blocks);
  }
}
