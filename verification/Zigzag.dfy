/** mapData of win/qrcodegen.js: the zigzag over the module matrix. */
module Zigzag {
  import opened Prelude
  import opened Bits

  /** A matrix as values; None is a module that nothing has been placed on yet. */
  type Grid = seq<seq<Option<bool>>>

  /** An odd number of modules on each side, as the 4 * version + 17 of the symbols. */
  predicate Size(n: nat) {
    n >= 21 && n % 2 == 1
  }

  /** moduleCount of a symbol. */
  function SideOf(version: nat): (n: nat)
    requires version >= 1
    ensures Size(n)
  {
    DivisionParts(2 * version + 8, 2, 1);
    version * 4 + 17
  }

  predicate Square(g: Grid, n: nat) {
    |g| == n && forall r :: 0 <= r < n ==> |g[r]| == n
  }

  datatype Cell = Cell(row: int, col: int)

  predicate Inside(n: nat, at: Cell) {
    0 <= at.row < n && 0 <= at.col < n
  }

  // ---- the order of the visits, in closed form ----

  /** The right column of the p-th pair; the pairs left of column 6 are shifted by one. */
  function PairColumn(n: nat, p: nat): int {
    if n - 1 - 2 * p > 6 then n - 1 - 2 * p else n - 2 - 2 * p
  }

  /** The row after a number of steps, upwards in even pairs and downwards in odd ones. */
  function RowAfter(n: nat, p: nat, step: int): int {
    if p % 2 == 0 then n - 1 - step else step
  }

  function CellOf(n: nat, p: nat, q: nat): Cell {
    Cell(RowAfter(n, p, q / 2), PairColumn(n, p) - q % 2)
  }

  function CellAt(n: nat, k: nat): Cell
    requires n > 0
  {
    CellOf(n, k / (2 * n), k % (2 * n))
  }

  function Pair(n: nat, col: int): int {
    if col > 6 then (n - 1 - col) / 2 else (n - 2 - col) / 2
  }

  function Side(n: nat, col: int): int {
    (if col > 6 then n - 1 - col else n - 2 - col) % 2
  }

  function Step(n: nat, at: Cell): int {
    if Pair(n, at.col) % 2 == 0 then n - 1 - at.row else at.row
  }

  function InPair(n: nat, at: Cell): int {
    2 * Step(n, at) + Side(n, at.col)
  }

  /** The number of visits before a pair. */
  function Base(n: nat, p: int): int {
    p * (2 * n)
  }

  function Position(n: nat, at: Cell): int {
    Base(n, Pair(n, at.col)) + InPair(n, at)
  }

  function Visits(n: nat): nat {
    if n == 0 then 0 else n * (n - 1)
  }

  /** With h pairs of columns of 2 * n cells each. */
  lemma VisitsOfPairs(n: nat, h: nat)
    requires n == 2 * h + 1
    ensures Visits(n) == h * (2 * n)
  {
    assert n * (n - 1) == n * (2 * h);
  }

  lemma BaseNext(n: nat, p: nat)
    ensures Base(n, 0) == 0 <= Base(n, p) && Base(n, p + 1) == Base(n, p) + 2 * n
  {
  }

  lemma BaseEnd(n: nat, h: nat)
    requires n == 2 * h + 1
    ensures Base(n, h) == Visits(n)
  {
    VisitsOfPairs(n, h);
  }

  lemma PairsOfOdd(n: nat, p: nat)
    requires Size(n)
    ensures Base(n, p) < Visits(n) <==> 2 * p < n - 1
    ensures 2 * p < n - 1 ==> Base(n, p) + 2 * n <= Visits(n)
  {
    var h, w := n / 2, 2 * n;
    BaseEnd(n, h);
    BaseNext(n, p);
    hide Visits, Size;
    if p < h {
      Multiples(p + 1, h, w);
    } else {
      Multiples(h, p, w);
    }
  }

  /** Outside column 6, every cell has its place in the order. */
  lemma PositionInverse(n: nat, at: Cell)
    requires Size(n) && Inside(n, at) && at.col != 6
    ensures 0 <= Position(n, at) < Visits(n)
    ensures CellAt(n, Position(n, at)) == at
  {
    var p, q := Pair(n, at.col), InPair(n, at);
    CellOfParts(n, at);
    ColumnOfParts(n, at.col);
    PairsOfOdd(n, p);
    BaseNext(n, p);
    hide Pair, InPair, CellOf, Visits, Size;
    DivisionParts(p, 2 * n, q);
  }

  lemma CellOfParts(n: nat, at: Cell)
    requires Size(n) && Inside(n, at) && at.col != 6
    ensures 0 <= InPair(n, at) < 2 * n && Pair(n, at.col) >= 0
    ensures CellOf(n, Pair(n, at.col), InPair(n, at)) == at
  {
    ColumnOfParts(n, at.col);
    hide Side, Pair, PairColumn;
    var q := InPair(n, at);
    assert q / 2 == Step(n, at) && q % 2 == Side(n, at.col);
  }

  lemma ColumnOfParts(n: nat, col: int)
    requires Size(n) && 0 <= col < n && col != 6
    ensures 0 <= Pair(n, col) && 2 * Pair(n, col) < n - 1 && 0 <= Side(n, col) < 2
    ensures PairColumn(n, Pair(n, col)) - Side(n, col) == col
  {
    var h := n / 2;
    assert n == 2 * h + 1;
    hide PairColumn, Size;
    var off := if col > 6 then 2 * h - col else 2 * h - 1 - col;
    var p, s := off / 2, off % 2;
    assert off == 2 * p + s;
    if col > 6 {
      RightColumns(h, p, s, col);
    } else {
      LeftColumns(h, p, s, col);
    }
  }

  lemma RightColumns(h: nat, p: nat, s: nat, col: int)
    requires 6 < col <= 2 * h && s < 2 && 2 * h - col == 2 * p + s
    ensures 2 * p < 2 * h && PairColumn(2 * h + 1, p) == col + s
  {
  }

  lemma LeftColumns(h: nat, p: nat, s: nat, col: int)
    requires 0 <= col < 6 && s < 2 && 2 * h - 1 - col == 2 * p + s
    ensures 2 * p < 2 * h && PairColumn(2 * h + 1, p) == col + s
  {
  }

  /** And every place belongs to one cell, never in column 6. */
  lemma CellInverse(n: nat, k: nat)
    requires Size(n) && k < Visits(n)
    ensures Inside(n, CellAt(n, k)) && CellAt(n, k).col != 6
    ensures Position(n, CellAt(n, k)) == k
  {
    assert n > 0;
    hide CellOf, Pair, InPair, Visits, Base, Size, CellAt;
    var p, q := CellAtParts(n, k);
    PairsOfOdd(n, p);
    PartsOfCell(n, p, q);
  }

  lemma CellAtParts(n: nat, k: nat) returns (p: nat, q: nat)
    requires n > 0
    ensures k == Base(n, p) + q && q < 2 * n && CellAt(n, k) == CellOf(n, p, q)
  {
    hide CellOf;
    p, q := Division(2 * n, k);
  }

  lemma Division(w: nat, k: nat) returns (p: nat, q: nat)
    requires w > 0
    ensures k == p * w + q && q < w && p == k / w && q == k % w
  {
    p, q := k / w, k % w;
  }

  lemma PartsOfCell(n: nat, p: nat, q: nat)
    requires Size(n) && 2 * p < n - 1 && q < 2 * n
    ensures Inside(n, CellOf(n, p, q)) && CellOf(n, p, q).col != 6
    ensures Pair(n, CellOf(n, p, q).col) == p && InPair(n, CellOf(n, p, q)) == q
  {
  }

  // ---- the order of the visits, step by step ----

  /** A pen on the way: its cell, whether it is going upwards, and whether it is in the right column of its pair. */
  datatype Pen = Pen(row: int, col: int, up: bool, right: bool)

  /** The rule of section 7.7.3 of ISO/IEC 18004: from the right to the left of a pair, then back to the right in the
      next row, and at the border over to the next pair and back the other way; the column of the timing pattern is
      left out. */
  function Moved(n: nat, pen: Pen): Pen {
    if pen.right then pen.(col := pen.col - 1, right := false)
    else if pen.up && pen.row > 0 then Pen(pen.row - 1, pen.col + 1, true, true)
    else if !pen.up && pen.row < n - 1 then Pen(pen.row + 1, pen.col + 1, false, true)
    else Pen(pen.row, if pen.col == 7 then 5 else pen.col - 1, !pen.up, true)
  }

  /** From the lower right corner. */
  function Walk(n: nat, k: nat): Pen {
    if k == 0 then Pen(n - 1, n - 1, true, true) else Moved(n, Walk(n, k - 1))
  }

  function PenOf(n: nat, p: nat, q: nat): Pen {
    var at := CellOf(n, p, q);
    Pen(at.row, at.col, p % 2 == 0, q % 2 == 0)
  }

  lemma MovedInPair(n: nat, p: nat, q: nat)
    requires Size(n) && 2 * p < n - 1 && q + 1 < 2 * n
    ensures Moved(n, PenOf(n, p, q)) == PenOf(n, p, q + 1)
  {
    hide PairColumn;
    if q % 2 == 1 {
      assert (q + 1) / 2 == q / 2 + 1 && (q + 1) % 2 == 0;
      assert q / 2 < n - 1;
    } else {
      assert (q + 1) / 2 == q / 2 && (q + 1) % 2 == 1;
    }
  }

  lemma MovedOver(n: nat, p: nat)
    requires Size(n) && 2 * (p + 1) < n - 1
    ensures Moved(n, PenOf(n, p, 2 * n - 1)) == PenOf(n, p + 1, 0)
  {
    assert (2 * n - 1) / 2 == n - 1 && (2 * n - 1) % 2 == 1;
    assert (p + 1) % 2 == 0 <==> p % 2 == 1;
  }

  lemma WalkNext(n: nat, k: nat)
    requires k > 0
    ensures Walk(n, k) == Moved(n, Walk(n, k - 1))
  {
  }

  lemma WalkStart(n: nat)
    requires Size(n)
    ensures Base(n, 0) == 0 && Walk(n, 0) == PenOf(n, 0, 0)
  {
    BaseNext(n, 0);
  }

  lemma {:induction false} WalkParts(n: nat, p: nat, q: nat)
    requires Size(n) && 2 * p < n - 1 && q < 2 * n
    ensures Base(n, p) >= 0 && Walk(n, Base(n, p) + q) == PenOf(n, p, q)
    decreases p, q
  {
    hide PenOf, Moved, Walk, Base, Size;
    BaseNext(n, p);
    if q > 0 {
      WalkParts(n, p, q - 1);
      MovedInPair(n, p, q - 1);
      WalkNext(n, Base(n, p) + q);
    } else if p > 0 {
      BaseNext(n, p - 1);
      WalkParts(n, p - 1, 2 * n - 1);
      MovedOver(n, p - 1);
      WalkNext(n, Base(n, p));
    } else {
      WalkStart(n);
    }
  }

  /** The closed form is that walk. */
  lemma WalkIsOrder(n: nat, k: nat)
    requires Size(n) && k < Visits(n)
    ensures CellAt(n, k) == Cell(Walk(n, k).row, Walk(n, k).col)
  {
    assert n > 0;
    hide CellOf, Visits, Walk, Size, Base;
    var p, q := CellAtParts(n, k);
    PairsOfOdd(n, p);
    BaseNext(n, p);
    WalkParts(n, p, q);
  }

  // ---- what is placed ----

  /** How many of the first k cells visited are free. */
  function FreeBefore(g: Grid, n: nat, k: nat): nat
    requires Size(n) && Square(g, n) && k <= Visits(n)
  {
    if k == 0 then 0
    else
      CellInverse(n, k - 1);
      var at := CellAt(n, k - 1);
      FreeBefore(g, n, k - 1) + if g[at.row][at.col] == None then 1 else 0
  }

  /** The i-th data bit, most significant first; behind the data, light. */
  function DataBit(data: seq<Slot>, i: nat): bool {
    i / 8 < |data| && data[i / 8].Some? && Shr(data[i / 8].value, 7 - i % 8) % 2 == 1
  }

  /** The matrix after the first k visits. */
  function Placed(g: Grid, n: nat, data: seq<Slot>, mask: (int, int) -> bool, k: nat, at: Cell): Option<bool>
    requires Size(n) && Square(g, n) && k <= Visits(n) && Inside(n, at)
  {
    var was := g[at.row][at.col];
    if was != None || at.col == 6 then was
    else
      PositionInverse(n, at);
      if Position(n, at) >= k then was
      else Some(DataBit(data, FreeBefore(g, n, Position(n, at))) != mask(at.row, at.col))
  }

  lemma PlacedStep(g: Grid, n: nat, data: seq<Slot>, mask: (int, int) -> bool, k: nat, at: Cell)
    requires Size(n) && Square(g, n) && k < Visits(n) && Inside(n, at)
    ensures Inside(n, CellAt(n, k))
    ensures at != CellAt(n, k) ==> Placed(g, n, data, mask, k + 1, at) == Placed(g, n, data, mask, k, at)
    ensures at == CellAt(n, k) ==> Placed(g, n, data, mask, k, at) == g[at.row][at.col]
    ensures at == CellAt(n, k) && g[at.row][at.col] == None ==>
      Placed(g, n, data, mask, k + 1, at) == Some(DataBit(data, FreeBefore(g, n, k)) != mask(at.row, at.col))
    ensures g[at.row][at.col] != None ==> Placed(g, n, data, mask, k + 1, at) == g[at.row][at.col]
  {
    hide CellAt, Position, FreeBefore, DataBit;
    CellInverse(n, k);
    if at.col != 6 { PositionInverse(n, at); }
  }

  /** Along the walk: a free module is dark for a one and light for a zero, or the other way round under the mask. */
  lemma MappedAlongWalk(g: Grid, n: nat, data: seq<Slot>, mask: (int, int) -> bool, m: Grid, k: nat)
    requires Size(n) && Square(g, n) && Square(m, n) && IsMapped(g, n, data, mask, m) && k < Visits(n)
    ensures Inside(n, Cell(Walk(n, k).row, Walk(n, k).col))
    ensures var r, c := Walk(n, k).row, Walk(n, k).col;
      m[r][c] == if g[r][c] != None then g[r][c]
                 else if mask(r, c) then Some(!DataBit(data, FreeBefore(g, n, k)))
                 else Some(DataBit(data, FreeBefore(g, n, k)))
  {
    hide Walk, CellAt, Position, FreeBefore, DataBit;
    WalkIsOrder(n, k);
    CellInverse(n, k);
  }

  // ---- reading the matrix back ----

  /** The bits a reader that knows the free cells and the mask sees along the zigzag. */
  function ReadBits(g: Grid, n: nat, m: Grid, mask: (int, int) -> bool, k: nat): seq<bool>
    requires Size(n) && Square(g, n) && Square(m, n) && k <= Visits(n)
  {
    if k == 0 then []
    else
      CellInverse(n, k - 1);
      var at := CellAt(n, k - 1);
      ReadBits(g, n, m, mask, k - 1) +
      if g[at.row][at.col] == None then [(m[at.row][at.col] == Some(true)) != mask(at.row, at.col)] else []
  }

  ghost predicate IsMapped(g: Grid, n: nat, data: seq<Slot>, mask: (int, int) -> bool, m: Grid)
    requires Size(n) && Square(g, n) && Square(m, n)
  {
    forall r, c :: 0 <= r < n && 0 <= c < n ==> m[r][c] == Placed(g, n, data, mask, Visits(n), Cell(r, c))
  }

  /** The data bits come back in order, none skipped and none repeated, and light modules after them. */
  lemma {:induction false} BitsRecovered(g: Grid, n: nat, data: seq<Slot>, mask: (int, int) -> bool, m: Grid, k: nat)
    requires Size(n) && Square(g, n) && Square(m, n) && k <= Visits(n)
    requires IsMapped(g, n, data, mask, m)
    ensures |ReadBits(g, n, m, mask, k)| == FreeBefore(g, n, k)
    ensures forall i :: 0 <= i < FreeBefore(g, n, k) ==> ReadBits(g, n, m, mask, k)[i] == DataBit(data, i)
  {
    hide CellAt, Position, DataBit;
    if k > 0 {
      BitsRecovered(g, n, data, mask, m, k - 1);
      CellInverse(n, k - 1);
      var at := CellAt(n, k - 1);
      assert m[at.row][at.col] == Placed(g, n, data, mask, Visits(n), Cell(at.row, at.col));
    }
  }

  // ---- the loops ----

  function GridOf(m: array2<Option<bool>>): (g: Grid)
    reads m
    ensures |g| == m.Length0 && forall r :: 0 <= r < m.Length0 ==> |g[r]| == m.Length1
    ensures forall r, c :: 0 <= r < m.Length0 && 0 <= c < m.Length1 ==> g[r][c] == m[r, c]
  {
    seq(m.Length0, r requires 0 <= r < m.Length0 reads m =>
      seq(m.Length1, c requires 0 <= r < m.Length0 && 0 <= c < m.Length1 reads m => m[r, c]))
  }

  ghost predicate Done(m: array2<Option<bool>>, g: Grid, n: nat, data: seq<Slot>, mask: (int, int) -> bool, k: nat)
    requires m.Length0 == m.Length1 == n && Size(n) && Square(g, n) && k <= Visits(n)
    reads m
  {
    forall r, c :: 0 <= r < n && 0 <= c < n ==> m[r, c] == Placed(g, n, data, mask, k, Cell(r, c))
  }

  /** The body of the innermost loop: one visit. */
  method Visit(m: array2<Option<bool>>, data: seq<Slot>, mask: (int, int) -> bool, row: int, col: int,
        byteIndex: nat, bitIndex: nat,
      ghost g: Grid, ghost k: nat) returns (nextByte: nat, nextBit: nat)
    requires Size(m.Length0) && m.Length1 == m.Length0 && Square(g, m.Length0)
    requires k < Visits(m.Length0) && Cell(row, col) == CellAt(m.Length0, k) && Inside(m.Length0, Cell(row, col))
    requires Done(m, g, m.Length0, data, mask, k)
    requires bitIndex < 8 && FreeBefore(g, m.Length0, k) == 8 * byteIndex + 7 - bitIndex
    modifies m
    ensures Done(m, g, m.Length0, data, mask, k + 1)
    ensures nextBit < 8 && FreeBefore(g, m.Length0, k + 1) == 8 * nextByte + 7 - nextBit
  {
    hide CellAt, Position, Placed;
    ghost var n := m.Length0;
    nextByte, nextBit := byteIndex, bitIndex;
    PlacedStep(g, n, data, mask, k, Cell(row, col));
    forall r, c | 0 <= r < n && 0 <= c < n && Cell(r, c) != Cell(row, col)
      ensures Placed(g, n, data, mask, k + 1, Cell(r, c)) == Placed(g, n, data, mask, k, Cell(r, c))
    {
      PlacedStep(g, n, data, mask, k, Cell(r, c));
    }
    if m[row, col] == None {
      var dark := false;
      if byteIndex < |data| {
        dark := data[byteIndex].Some? && Shr(data[byteIndex].value, bitIndex) % 2 == 1;
      }
      BitsConsumed(byteIndex, bitIndex);
      assert dark == DataBit(data, 8 * byteIndex + 7 - bitIndex);
      if mask(row, col) {
        dark := !dark;
      }
      m[row, col] := Some(dark);
      if bitIndex == 0 {
        nextByte, nextBit := byteIndex + 1, 7;
      } else {
        nextBit := bitIndex - 1;
      }
    }
  }

  lemma BitsConsumed(byteIndex: nat, bitIndex: nat)
    requires bitIndex < 8
    ensures (8 * byteIndex + 7 - bitIndex) / 8 == byteIndex && 7 - (8 * byteIndex + 7 - bitIndex) % 8 == bitIndex
  {
  }

  lemma VisitOf(n: nat, p: nat, step: nat, c: nat)
    requires Size(n) && 2 * p < n - 1 && step < n && c < 2
    ensures Base(n, p) + 2 * step + c < Visits(n)
    ensures CellAt(n, Base(n, p) + 2 * step + c) == Cell(RowAfter(n, p, step), PairColumn(n, p) - c)
    ensures Inside(n, Cell(RowAfter(n, p, step), PairColumn(n, p) - c))
  {
    hide PairColumn, RowAfter, Visits, Size, Position;
    var q := 2 * step + c;
    PairsOfOdd(n, p);
    BaseNext(n, p);
    DivisionParts(p, 2 * n, q);
    CellInverse(n, Base(n, p) + q);
  }

  /** One pair of columns: the inner loops, up to the reversal at the edge. */
  method MapPair(m: array2<Option<bool>>, data: seq<Slot>, mask: (int, int) -> bool, col: int, row0: int, inc0: int,
        byteIndex0: nat,
      bitIndex0: nat, ghost g: Grid, ghost p: nat) returns (row: int, inc: int, byteIndex: nat, bitIndex: nat)
    requires Size(m.Length0) && m.Length1 == m.Length0 && Square(g, m.Length0)
    requires 2 * p < m.Length0 - 1 && col == PairColumn(m.Length0, p)
    requires inc0 == (if p % 2 == 0 then -1 else 1) && row0 == RowAfter(m.Length0, p, 0)
    requires Base(m.Length0, p) <= Visits(m.Length0) && Done(m, g, m.Length0, data, mask, Base(m.Length0, p))
    requires bitIndex0 < 8 && FreeBefore(g, m.Length0, Base(m.Length0, p)) == 8 * byteIndex0 + 7 - bitIndex0
    modifies m
    ensures inc == (if (p + 1) % 2 == 0 then -1 else 1) && row == RowAfter(m.Length0, p + 1, 0)
    ensures Base(m.Length0, p + 1) <= Visits(m.Length0) && Done(m, g, m.Length0, data, mask, Base(m.Length0, p + 1))
    ensures bitIndex < 8 && FreeBefore(g, m.Length0, Base(m.Length0, p + 1)) == 8 * byteIndex + 7 - bitIndex
  {
    hide CellAt, FreeBefore, Done, PairColumn, Visits, Base;
    var n := m.Length0;
    ghost var base, step := Base(n, p), 0;
    row, inc, byteIndex, bitIndex := row0, inc0, byteIndex0, bitIndex0;
    BaseNext(n, p);
    while true
      invariant step < n && row == RowAfter(n, p, step) && inc == (if p % 2 == 0 then -1 else 1)
      invariant base + 2 * step <= Visits(n) && Done(m, g, n, data, mask, base + 2 * step)
      invariant bitIndex < 8 && FreeBefore(g, n, base + 2 * step) == 8 * byteIndex + 7 - bitIndex
      decreases n - step
    {
      VisitOf(n, p, step, 0);
      VisitOf(n, p, step, 1);
      var c := 0;
      while c < 2
        invariant c <= 2 && base + 2 * step + c <= Visits(n)
        invariant Done(m, g, n, data, mask, base + 2 * step + c)
        invariant bitIndex < 8 && FreeBefore(g, n, base + 2 * step + c) == 8 * byteIndex + 7 - bitIndex
      {
        byteIndex, bitIndex := Visit(m, data, mask, row, col - c, byteIndex, bitIndex, g, base + 2 * step + c);
        c := c + 1;
      }
      row := row + inc;
      step := step + 1;
      if row < 0 || n <= row {
        row := row - inc;
        inc := -inc;
        break;
      }
    }
  }

  /** mapData. */
  method MapData(m: array2<Option<bool>>, data: seq<Slot>, mask: (int, int) -> bool)
    requires Size(m.Length0) && m.Length1 == m.Length0
    modifies m
    ensures IsMapped(old(GridOf(m)), m.Length0, data, mask, GridOf(m))
  {
    hide CellAt, FreeBefore, Placed, RowAfter, Base, Visits;
    var n := m.Length0;
    ghost var g, p := GridOf(m), 0;
    var inc, row, bitIndex, byteIndex := -1, n - 1, 7, 0;
    MapStart(g, n, data, mask);
    BaseNext(n, 0);
    var col := n - 1;
    while col > 0
      invariant 2 * p <= n - 1 && col == (if n - 1 - 2 * p >= 6 then n - 1 - 2 * p else n - 2 - 2 * p)
      invariant inc == (if p % 2 == 0 then -1 else 1) && row == RowAfter(n, p, 0)
      invariant 0 <= Base(n, p) <= Visits(n) && Done(m, g, n, data, mask, Base(n, p))
      invariant bitIndex < 8 && FreeBefore(g, n, Base(n, p)) == 8 * byteIndex + 7 - bitIndex
      decreases col
    {
      if col == 6 { col := col - 1; }
      BaseNext(n, p);
      row, inc, byteIndex, bitIndex := MapPair(m, data, mask, col, row, inc, byteIndex, bitIndex, g, p);
      p := p + 1;
      col := col - 2;
    }
    BaseEnd(n, p);
  }

  lemma MapStart(g: Grid, n: nat, data: seq<Slot>, mask: (int, int) -> bool)
    requires Size(n) && Square(g, n)
    ensures 0 <= Visits(n) && FreeBefore(g, n, 0) == 0 && RowAfter(n, 0, 0) == n - 1
    ensures forall r, c :: 0 <= r < n && 0 <= c < n ==> g[r][c] == Placed(g, n, data, mask, 0, Cell(r, c))
  {
    hide Position;
    forall r, c | 0 <= r < n && 0 <= c < n
      ensures g[r][c] == Placed(g, n, data, mask, 0, Cell(r, c))
    {
      if c != 6 { PositionInverse(n, Cell(r, c)); }
    }
  }
}
