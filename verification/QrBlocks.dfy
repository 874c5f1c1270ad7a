/** QRRSBlock of win/qrcodegen.js: how the code words of a version and level are cut into blocks. */
module QrBlocks {
  import opened Prelude
  import opened Bits
  import opened Codewords
  import opened QrCreate
  import opened QrTables

  /** count blocks of totalCount code words, dataCount of them data. */
  datatype Group = Group(count: nat, totalCount: nat, dataCount: nat)

  /** The code words of a row of the table. */
  function RowTotal(row: seq<Group>): nat {
    if row == [] then 0 else row[0].count * row[0].totalCount + RowTotal(row[1..])
  }

  /** And the data code words among them. */
  function RowData(row: seq<Group>): nat {
    if row == [] then 0 else row[0].count * row[0].dataCount + RowData(row[1..])
  }

  function RowBlocks(row: seq<Group>): nat {
    if row == [] then 0 else row[0].count + RowBlocks(row[1..])
  }

  /** Blocks of one length, or short ones and then others with one data code word more. */
  predicate Even(row: seq<Group>) {
    && 1 <= |row| <= 2 && row[0].count > 0
    && (|row| == 2 ==> row[1].count > 0 && row[1] == Group(row[1].count, row[0].totalCount + 1, row[0].dataCount + 1))
  }

  predicate Sound(row: seq<Group>) {
    forall i :: 0 <= i < |row| ==> row[i].dataCount <= row[i].totalCount <= row[i].dataCount + 254
  }

  function One(count: nat, totalCount: nat, dataCount: nat): (row: seq<Group>)
    ensures RowTotal(row) == count * totalCount && RowData(row) == count * dataCount && RowBlocks(row) == count
    ensures Sound(row) <==> dataCount <= totalCount <= dataCount + 254
    ensures Even(row) <==> count > 0
  {
    var row := [Group(count, totalCount, dataCount)];
    assert row[1..] == [];
    row
  }

  function Two(count: nat, totalCount: nat, dataCount: nat, count2: nat, totalCount2: nat, dataCount2: nat)
    : (row: seq<Group>)
    ensures RowTotal(row) == count * totalCount + count2 * totalCount2
    ensures RowData(row) == count * dataCount + count2 * dataCount2 && RowBlocks(row) == count + count2
    ensures Sound(row) <==>
      dataCount <= totalCount <= dataCount + 254 && dataCount2 <= totalCount2 <= dataCount2 + 254
    ensures Even(row) <==>
      count > 0 && count2 > 0 && totalCount2 == totalCount + 1 && dataCount2 == dataCount + 1
  {
    var row := [Group(count, totalCount, dataCount), Group(count2, totalCount2, dataCount2)];
    var rest := One(count2, totalCount2, dataCount2);
    assert row[1..] == rest;
    assert row[0] == Group(count, totalCount, dataCount) && row[1] == rest[0];
    row
  }

  /** RS_BLOCK_TABLE, four versions at a time. */
  function BlockRow(version: nat, level: Level): seq<Group>
    requires 1 <= version <= 40
  {
    if version <= 4 then Rows1(version, level)
    else if version <= 8 then Rows5(version, level)
    else if version <= 12 then Rows9(version, level)
    else if version <= 16 then Rows13(version, level)
    else if version <= 20 then Rows17(version, level)
    else if version <= 24 then Rows21(version, level)
    else if version <= 28 then Rows25(version, level)
    else if version <= 32 then Rows29(version, level)
    else if version <= 36 then Rows33(version, level)
    else Rows37(version, level)
  }

  function Rows1(version: nat, level: Level): seq<Group> {
    match version
    case 1 => ByLevel(level, One(1, 26, 19), One(1, 26, 16),
      One(1, 26, 13), One(1, 26, 9))
    case 2 => ByLevel(level, One(1, 44, 34), One(1, 44, 28),
      One(1, 44, 22), One(1, 44, 16))
    case 3 => ByLevel(level, One(1, 70, 55), One(1, 70, 44),
      One(2, 35, 17), One(2, 35, 13))
    case _ => ByLevel(level, One(1, 100, 80), One(2, 50, 32),
      One(2, 50, 24), One(4, 25, 9))
  }

  function Rows5(version: nat, level: Level): seq<Group> {
    match version
    case 5 => ByLevel(level, One(1, 134, 108), One(2, 67, 43),
      Two(2, 33, 15, 2, 34, 16), Two(2, 33, 11, 2, 34, 12))
    case 6 => ByLevel(level, One(2, 86, 68), One(4, 43, 27),
      One(4, 43, 19), One(4, 43, 15))
    case 7 => ByLevel(level, One(2, 98, 78), One(4, 49, 31),
      Two(2, 32, 14, 4, 33, 15), Two(4, 39, 13, 1, 40, 14))
    case _ => ByLevel(level, One(2, 121, 97), Two(2, 60, 38, 2, 61, 39),
      Two(4, 40, 18, 2, 41, 19), Two(4, 40, 14, 2, 41, 15))
  }

  function Rows9(version: nat, level: Level): seq<Group> {
    match version
    case 9 => ByLevel(level, One(2, 146, 116), Two(3, 58, 36, 2, 59, 37),
      Two(4, 36, 16, 4, 37, 17), Two(4, 36, 12, 4, 37, 13))
    case 10 => ByLevel(level, Two(2, 86, 68, 2, 87, 69), Two(4, 69, 43, 1, 70, 44),
      Two(6, 43, 19, 2, 44, 20), Two(6, 43, 15, 2, 44, 16))
    case 11 => ByLevel(level, One(4, 101, 81), Two(1, 80, 50, 4, 81, 51),
      Two(4, 50, 22, 4, 51, 23), Two(3, 36, 12, 8, 37, 13))
    case _ => ByLevel(level, Two(2, 116, 92, 2, 117, 93), Two(6, 58, 36, 2, 59, 37),
      Two(4, 46, 20, 6, 47, 21), Two(7, 42, 14, 4, 43, 15))
  }

  function Rows13(version: nat, level: Level): seq<Group> {
    match version
    case 13 => ByLevel(level, One(4, 133, 107), Two(8, 59, 37, 1, 60, 38),
      Two(8, 44, 20, 4, 45, 21), Two(12, 33, 11, 4, 34, 12))
    case 14 => ByLevel(level, Two(3, 145, 115, 1, 146, 116), Two(4, 64, 40, 5, 65, 41),
      Two(11, 36, 16, 5, 37, 17), Two(11, 36, 12, 5, 37, 13))
    case 15 => ByLevel(level, Two(5, 109, 87, 1, 110, 88), Two(5, 65, 41, 5, 66, 42),
      Two(5, 54, 24, 7, 55, 25), Two(11, 36, 12, 7, 37, 13))
    case _ => ByLevel(level, Two(5, 122, 98, 1, 123, 99), Two(7, 73, 45, 3, 74, 46),
      Two(15, 43, 19, 2, 44, 20), Two(3, 45, 15, 13, 46, 16))
  }

  function Rows17(version: nat, level: Level): seq<Group> {
    match version
    case 17 => ByLevel(level, Two(1, 135, 107, 5, 136, 108), Two(10, 74, 46, 1, 75, 47),
      Two(1, 50, 22, 15, 51, 23), Two(2, 42, 14, 17, 43, 15))
    case 18 => ByLevel(level, Two(5, 150, 120, 1, 151, 121), Two(9, 69, 43, 4, 70, 44),
      Two(17, 50, 22, 1, 51, 23), Two(2, 42, 14, 19, 43, 15))
    case 19 => ByLevel(level, Two(3, 141, 113, 4, 142, 114), Two(3, 70, 44, 11, 71, 45),
      Two(17, 47, 21, 4, 48, 22), Two(9, 39, 13, 16, 40, 14))
    case _ => ByLevel(level, Two(3, 135, 107, 5, 136, 108), Two(3, 67, 41, 13, 68, 42),
      Two(15, 54, 24, 5, 55, 25), Two(15, 43, 15, 10, 44, 16))
  }

  function Rows21(version: nat, level: Level): seq<Group> {
    match version
    case 21 => ByLevel(level, Two(4, 144, 116, 4, 145, 117), One(17, 68, 42),
      Two(17, 50, 22, 6, 51, 23), Two(19, 46, 16, 6, 47, 17))
    case 22 => ByLevel(level, Two(2, 139, 111, 7, 140, 112), One(17, 74, 46),
      Two(7, 54, 24, 16, 55, 25), One(34, 37, 13))
    case 23 => ByLevel(level, Two(4, 151, 121, 5, 152, 122), Two(4, 75, 47, 14, 76, 48),
      Two(11, 54, 24, 14, 55, 25), Two(16, 45, 15, 14, 46, 16))
    case _ => ByLevel(level, Two(6, 147, 117, 4, 148, 118), Two(6, 73, 45, 14, 74, 46),
      Two(11, 54, 24, 16, 55, 25), Two(30, 46, 16, 2, 47, 17))
  }

  function Rows25(version: nat, level: Level): seq<Group> {
    match version
    case 25 => ByLevel(level, Two(8, 132, 106, 4, 133, 107), Two(8, 75, 47, 13, 76, 48),
      Two(7, 54, 24, 22, 55, 25), Two(22, 45, 15, 13, 46, 16))
    case 26 => ByLevel(level, Two(10, 142, 114, 2, 143, 115), Two(19, 74, 46, 4, 75, 47),
      Two(28, 50, 22, 6, 51, 23), Two(33, 46, 16, 4, 47, 17))
    case 27 => ByLevel(level, Two(8, 152, 122, 4, 153, 123), Two(22, 73, 45, 3, 74, 46),
      Two(8, 53, 23, 26, 54, 24), Two(12, 45, 15, 28, 46, 16))
    case _ => ByLevel(level, Two(3, 147, 117, 10, 148, 118), Two(3, 73, 45, 23, 74, 46),
      Two(4, 54, 24, 31, 55, 25), Two(11, 45, 15, 31, 46, 16))
  }

  function Rows29(version: nat, level: Level): seq<Group> {
    match version
    case 29 => ByLevel(level, Two(7, 146, 116, 7, 147, 117), Two(21, 73, 45, 7, 74, 46),
      Two(1, 53, 23, 37, 54, 24), Two(19, 45, 15, 26, 46, 16))
    case 30 => ByLevel(level, Two(5, 145, 115, 10, 146, 116), Two(19, 75, 47, 10, 76, 48),
      Two(15, 54, 24, 25, 55, 25), Two(23, 45, 15, 25, 46, 16))
    case 31 => ByLevel(level, Two(13, 145, 115, 3, 146, 116), Two(2, 74, 46, 29, 75, 47),
      Two(42, 54, 24, 1, 55, 25), Two(23, 45, 15, 28, 46, 16))
    case _ => ByLevel(level, One(17, 145, 115), Two(10, 74, 46, 23, 75, 47),
      Two(10, 54, 24, 35, 55, 25), Two(19, 45, 15, 35, 46, 16))
  }

  function Rows33(version: nat, level: Level): seq<Group> {
    match version
    case 33 => ByLevel(level, Two(17, 145, 115, 1, 146, 116), Two(14, 74, 46, 21, 75, 47),
      Two(29, 54, 24, 19, 55, 25), Two(11, 45, 15, 46, 46, 16))
    case 34 => ByLevel(level, Two(13, 145, 115, 6, 146, 116), Two(14, 74, 46, 23, 75, 47),
      Two(44, 54, 24, 7, 55, 25), Two(59, 46, 16, 1, 47, 17))
    case 35 => ByLevel(level, Two(12, 151, 121, 7, 152, 122), Two(12, 75, 47, 26, 76, 48),
      Two(39, 54, 24, 14, 55, 25), Two(22, 45, 15, 41, 46, 16))
    case _ => ByLevel(level, Two(6, 151, 121, 14, 152, 122), Two(6, 75, 47, 34, 76, 48),
      Two(46, 54, 24, 10, 55, 25), Two(2, 45, 15, 64, 46, 16))
  }

  function Rows37(version: nat, level: Level): seq<Group> {
    match version
    case 37 => ByLevel(level, Two(17, 152, 122, 4, 153, 123), Two(29, 74, 46, 14, 75, 47),
      Two(49, 54, 24, 10, 55, 25), Two(24, 45, 15, 46, 46, 16))
    case 38 => ByLevel(level, Two(4, 152, 122, 18, 153, 123), Two(13, 74, 46, 32, 75, 47),
      Two(48, 54, 24, 14, 55, 25), Two(42, 45, 15, 32, 46, 16))
    case 39 => ByLevel(level, Two(20, 147, 117, 4, 148, 118), Two(40, 75, 47, 7, 76, 48),
      Two(43, 54, 24, 22, 55, 25), Two(10, 45, 15, 67, 46, 16))
    case _ => ByLevel(level, Two(19, 148, 118, 6, 149, 119), Two(18, 75, 47, 31, 76, 48),
      Two(34, 54, 24, 34, 55, 25), Two(20, 45, 15, 61, 46, 16))
  }

  // ---- the table fits the symbols ----

  /** The modules of a symbol that the zigzag visits and no pattern takes, counted from the sizes of the patterns: three
      position patterns with their margins, the timing patterns, the type information, from version 7 on the version
      information, and the adjustment patterns, of which k * k - 3 with 2 * (k - 2) of them across a timing pattern. */
  function Room(version: nat): int
    requires version >= 1
  {
    var n, k := 4 * version + 17, version / 7 + 2;
    n * (n - 1) - 176 - (n - 16) - 31 - (if version >= 7 then 36 else 0)
    - (if version == 1 then 0 else 40 * (k - 2) + 25 * ((k - 1) * (k - 1)))
  }

  /** The row fits, fewer than eight modules are left over, and it has the data code words and the blocks of the
      standard. */
  ghost predicate Fits(version: nat, level: Level)
    requires 1 <= version <= 40
  {
    var row, s := BlockRow(version, level), Standard(version, level);
    && Sound(row) && 0 <= Room(version) - 8 * RowTotal(row) < 8
    && Even(row) && RowData(row) == s.data && RowBlocks(row) == s.blocks
  }

  lemma Fits1(version: nat, level: Level)
    requires 1 <= version <= 2
    ensures Fits(version, level)
  {
    hide One, Two, RowTotal, RowData, RowBlocks, Sound, Even;
  }

  lemma Fits3(version: nat, level: Level)
    requires 3 <= version <= 4
    ensures Fits(version, level)
  {
    hide One, Two, RowTotal, RowData, RowBlocks, Sound, Even;
  }

  lemma Fits5(version: nat, level: Level)
    requires 5 <= version <= 6
    ensures Fits(version, level)
  {
    hide One, Two, RowTotal, RowData, RowBlocks, Sound, Even;
  }

  lemma Fits7(version: nat, level: Level)
    requires 7 <= version <= 8
    ensures Fits(version, level)
  {
    hide One, Two, RowTotal, RowData, RowBlocks, Sound, Even;
  }

  lemma Fits9(version: nat, level: Level)
    requires 9 <= version <= 10
    ensures Fits(version, level)
  {
    hide One, Two, RowTotal, RowData, RowBlocks, Sound, Even;
  }

  lemma Fits11(version: nat, level: Level)
    requires 11 <= version <= 12
    ensures Fits(version, level)
  {
    hide One, Two, RowTotal, RowData, RowBlocks, Sound, Even;
  }

  lemma Fits13(version: nat, level: Level)
    requires 13 <= version <= 14
    ensures Fits(version, level)
  {
    hide One, Two, RowTotal, RowData, RowBlocks, Sound, Even;
  }

  lemma Fits15(version: nat, level: Level)
    requires 15 <= version <= 16
    ensures Fits(version, level)
  {
    hide One, Two, RowTotal, RowData, RowBlocks, Sound, Even;
  }

  lemma Fits17(version: nat, level: Level)
    requires 17 <= version <= 18
    ensures Fits(version, level)
  {
    hide One, Two, RowTotal, RowData, RowBlocks, Sound, Even;
  }

  lemma Fits19(version: nat, level: Level)
    requires 19 <= version <= 20
    ensures Fits(version, level)
  {
    hide One, Two, RowTotal, RowData, RowBlocks, Sound, Even;
  }

  lemma Fits21(version: nat, level: Level)
    requires 21 <= version <= 22
    ensures Fits(version, level)
  {
    hide One, Two, RowTotal, RowData, RowBlocks, Sound, Even;
  }

  lemma Fits23(version: nat, level: Level)
    requires 23 <= version <= 24
    ensures Fits(version, level)
  {
    hide One, Two, RowTotal, RowData, RowBlocks, Sound, Even;
  }

  lemma Fits25(version: nat, level: Level)
    requires 25 <= version <= 26
    ensures Fits(version, level)
  {
    hide One, Two, RowTotal, RowData, RowBlocks, Sound, Even;
  }

  lemma Fits27(version: nat, level: Level)
    requires 27 <= version <= 28
    ensures Fits(version, level)
  {
    hide One, Two, RowTotal, RowData, RowBlocks, Sound, Even;
  }

  lemma Fits29(version: nat, level: Level)
    requires 29 <= version <= 30
    ensures Fits(version, level)
  {
    hide One, Two, RowTotal, RowData, RowBlocks, Sound, Even;
  }

  lemma Fits31(version: nat, level: Level)
    requires 31 <= version <= 32
    ensures Fits(version, level)
  {
    hide One, Two, RowTotal, RowData, RowBlocks, Sound, Even;
  }

  lemma Fits33(version: nat, level: Level)
    requires 33 <= version <= 34
    ensures Fits(version, level)
  {
    hide One, Two, RowTotal, RowData, RowBlocks, Sound, Even;
  }

  lemma Fits35(version: nat, level: Level)
    requires 35 <= version <= 36
    ensures Fits(version, level)
  {
    hide One, Two, RowTotal, RowData, RowBlocks, Sound, Even;
  }

  lemma Fits37(version: nat, level: Level)
    requires 37 <= version <= 38
    ensures Fits(version, level)
  {
    hide One, Two, RowTotal, RowData, RowBlocks, Sound, Even;
  }

  lemma Fits39(version: nat, level: Level)
    requires 39 <= version <= 40
    ensures Fits(version, level)
  {
    hide One, Two, RowTotal, RowData, RowBlocks, Sound, Even;
  }

  /** At every version and level the code words take all of the room but fewer than eight modules. */
  lemma RowFits(version: nat, level: Level)
    requires 1 <= version <= 40
    ensures Fits(version, level)
  {
    hide Fits;
    if version <= 2 {
      Fits1(version, level);
    } else if version <= 4 {
      Fits3(version, level);
    } else if version <= 6 {
      Fits5(version, level);
    } else if version <= 8 {
      Fits7(version, level);
    } else if version <= 10 {
      Fits9(version, level);
    } else if version <= 12 {
      Fits11(version, level);
    } else if version <= 14 {
      Fits13(version, level);
    } else if version <= 16 {
      Fits15(version, level);
    } else if version <= 18 {
      Fits17(version, level);
    } else if version <= 20 {
      Fits19(version, level);
    } else if version <= 22 {
      Fits21(version, level);
    } else if version <= 24 {
      Fits23(version, level);
    } else if version <= 26 {
      Fits25(version, level);
    } else if version <= 28 {
      Fits27(version, level);
    } else if version <= 30 {
      Fits29(version, level);
    } else if version <= 32 {
      Fits31(version, level);
    } else if version <= 34 {
      Fits33(version, level);
    } else if version <= 36 {
      Fits35(version, level);
    } else if version <= 38 {
      Fits37(version, level);
    } else {
      Fits39(version, level);
    }
  }

  // ---- the list of blocks ----

  function Repeated<T>(count: nat, x: T): seq<T> {
    seq(count, _ => x)
  }

  function Block(g: Group): RsBlock {
    RsBlock(g.totalCount, g.dataCount)
  }

  function Expanded(row: seq<Group>): seq<RsBlock> {
    if row == [] then [] else Repeated(row[0].count, Block(row[0])) + Expanded(row[1..])
  }

  lemma {:induction false} ExpandedSnoc(row: seq<Group>, i: nat)
    requires i < |row|
    ensures Expanded(row[..i + 1]) == Expanded(row[..i]) + Repeated(row[i].count, Block(row[i]))
  {
    if i == 0 {
      assert row[..1][1..] == [] && row[..0] == [];
    } else {
      ExpandedSnoc(row[1..], i - 1);
      assert row[1..][..i] == row[..i + 1][1..] && row[1..][..i - 1] == row[..i][1..];
      Assoc(Repeated(row[0].count, Block(row[0])), Expanded(row[..i][1..]), Repeated(row[i].count, Block(row[i])));
    }
  }

  /** getRSBlocks: an exception for a version that the table does not have. */
  method GetRsBlocks(version: int, level: Level) returns (r: Result<seq<RsBlock>, ()>)
    ensures r.Ok? <==> 1 <= version <= 40
    ensures r.Ok? ==> r.value == Expanded(BlockRow(version, level))
  {
    if version < 1 || version > 40 { return Err(()); }
    hide BlockRow, Expanded;
    var row := BlockRow(version, level);
    var list := [];
    NoRows();
    assert row[..0] == [];
    for i := 0 to |row|
      invariant list == Expanded(row[..i])
    {
      ghost var before := list;
      assert before + Repeated(0, Block(row[i])) == before;
      for j := 0 to row[i].count
        invariant list == before + Repeated(j, Block(row[i]))
      {
        assert Repeated(j, Block(row[i])) + [Block(row[i])] == Repeated(j + 1, Block(row[i]));
        list := list + [RsBlock(row[i].totalCount, row[i].dataCount)];
      }
      ExpandedSnoc(row, i);
    }
    assert row[..|row|] == row;
    r := Ok(list);
  }

  lemma NoRows()
    ensures Expanded([]) == []
  {
  }

  lemma {:induction false} TotalRepeated(count: nat, b: RsBlock, rest: seq<RsBlock>, n: nat)
    requires n <= count
    ensures TotalCode(Repeated(count, b) + rest, n) == n * b.totalCount
    ensures Offset(Repeated(count, b) + rest, n) == n * b.dataCount
  {
    if n > 0 {
      TotalRepeated(count, b, rest, n - 1);
      assert (Repeated(count, b) + rest)[n - 1] == b;
      assert n * b.totalCount == (n - 1) * b.totalCount + b.totalCount;
      assert n * b.dataCount == (n - 1) * b.dataCount + b.dataCount;
    }
  }

  lemma {:induction false} TotalAppend(a: seq<RsBlock>, b: seq<RsBlock>, n: nat)
    requires n <= |b|
    ensures TotalCode(a + b, |a| + n) == TotalCode(a + b, |a|) + TotalCode(b, n)
    ensures Offset(a + b, |a| + n) == Offset(a + b, |a|) + Offset(b, n)
  {
    if n > 0 {
      TotalAppend(a, b, n - 1);
      assert (a + b)[|a| + n - 1] == b[n - 1];
    }
  }

  /** The blocks hold the code words of the row. */
  lemma {:induction false} ExpandedTotal(row: seq<Group>)
    ensures TotalCode(Expanded(row), |Expanded(row)|) == RowTotal(row)
    ensures Offset(Expanded(row), |Expanded(row)|) == RowData(row)
  {
    if row != [] {
      var first, rest := Repeated(row[0].count, Block(row[0])), Expanded(row[1..]);
      ExpandedTotal(row[1..]);
      hide TotalCode, Offset;
      TotalRepeated(row[0].count, Block(row[0]), rest, row[0].count);
      TotalAppend(first, rest, |rest|);
    } else {
      NoRows();
    }
  }

  /** None of them has more than 254 error correction bytes. */
  lemma {:induction false} ExpandedSound(row: seq<Group>)
    requires Sound(row)
    ensures forall r :: 0 <= r < |Expanded(row)| ==> 0 <= EcCount(Expanded(row)[r]) <= 254
  {
    if row != [] {
      assert Sound(row[1..]);
      ExpandedSound(row[1..]);
      assert row[0].dataCount <= row[0].totalCount <= row[0].dataCount + 254;
    }
  }
}
