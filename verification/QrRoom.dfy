/** The room that the function patterns leave for the code words, counted by rectangles. */
module QrRoom {
  import opened Prelude
  import opened Bits
  import opened Zigzag
  import opened QrPatterns
  import opened QrBlocks

  // ---- rectangles of modules ----

  datatype Rect = Rect(top: int, left: int, height: nat, width: nat)

  predicate Has(b: Rect, at: Cell) {
    b.top <= at.row < b.top + b.height && b.left <= at.col < b.left + b.width
  }

  ghost function Cells(b: Rect): set<Cell> {
    set r, c | b.top <= r < b.top + b.height && b.left <= c < b.left + b.width :: Cell(r, c)
  }

  lemma {:induction false} CellsInRow(r: int, left: int, width: nat)
    ensures |Cells(Rect(r, left, 1, width))| == width
    decreases width
  {
    var b := Rect(r, left, 1, width);
    if width == 0 {
      assert Cells(b) == {};
    } else {
      CellsInRow(r, left, width - 1);
      assert Cells(b) == Cells(Rect(r, left, 1, width - 1)) + {Cell(r, left + width - 1)};
    }
  }

  lemma CellsRows(b: Rect)
    requires b.height > 0
    ensures var upper, last := b.(height := b.height - 1), Rect(b.top + b.height - 1, b.left, 1, b.width);
            Cells(b) == Cells(upper) + Cells(last) && Cells(upper) !! Cells(last)
  {
  }

  lemma NoRowsCells(b: Rect)
    requires b.height == 0
    ensures Cells(b) == {}
  {
  }

  lemma {:induction false} CellsCount(b: Rect)
    ensures |Cells(b)| == b.height * b.width
    decreases b.height
  {
    hide Cells;
    var h, w := b.height, b.width;
    if h == 0 {
      NoRowsCells(b);
      assert |Cells(b)| == 0 == 0 * w;
    } else {
      var upper, last := b.(height := h - 1), Rect(b.top + h - 1, b.left, 1, w);
      CellsCount(upper);
      CellsInRow(b.top + h - 1, b.left, w);
      CellsRows(b);
      assert |Cells(b)| == |Cells(upper)| + |Cells(last)|;
      assert (h - 1) * w + w == h * w;
    }
  }

  predicate Covers(list: seq<Rect>, at: Cell) {
    exists i :: 0 <= i < |list| && Has(list[i], at)
  }

  function Area(list: seq<Rect>): nat {
    if list == [] then 0 else Area(list[..|list| - 1]) + list[|list| - 1].height * list[|list| - 1].width
  }

  lemma {:induction false} AreaAppend(a: seq<Rect>, b: seq<Rect>)
    ensures Area(a + b) == Area(a) + Area(b)
  {
    if b == [] {
      assert a + b == a;
    } else {
      AreaAppend(a, b[..|b| - 1]);
      assert (a + b)[..|a + b| - 1] == a + b[..|b| - 1];
    }
  }

  lemma CoversAppend(a: seq<Rect>, b: seq<Rect>, at: Cell)
    ensures Covers(a + b, at) <==> Covers(a, at) || Covers(b, at)
  {
    if Covers(a, at) {
      var i :| 0 <= i < |a| && Has(a[i], at);
      assert (a + b)[i] == a[i];
    } else if Covers(b, at) {
      var i :| 0 <= i < |b| && Has(b[i], at);
      assert (a + b)[|a| + i] == b[i];
    }
  }

  /** Rectangles hold no more modules than their areas add up to. */
  lemma {:induction false} CoverBound(s: set<Cell>, list: seq<Rect>)
    requires forall at :: at in s ==> Covers(list, at)
    ensures |s| <= Area(list)
    decreases |list|
  {
    if list == [] {
      assert s == {};
    } else {
      var front, last := list[..|list| - 1], list[|list| - 1];
      var rest := s - Cells(last);
      forall at | at in rest ensures Covers(front, at) {
        var i :| 0 <= i < |list| && Has(list[i], at);
        assert i < |front| && front[i] == list[i];
      }
      CoverBound(rest, front);
      CellsCount(last);
      Subset(s * Cells(last), Cells(last));
      assert s == rest + s * Cells(last);
    }
  }

  lemma Subset<T>(a: set<T>, b: set<T>)
    requires a <= b
    ensures |a| <= |b|
  {
    assert b == a + (b - a);
  }

  // ---- the modules the zigzag visits and finds taken ----

  ghost function Taken(g: Grid, n: nat, k: nat): set<Cell>
    requires Size(n) && Square(g, n) && k <= Visits(n)
  {
    if k == 0 then {}
    else
      CellInverse(n, k - 1);
      var at := CellAt(n, k - 1);
      Taken(g, n, k - 1) + if g[at.row][at.col] == None then {} else {at}
  }

  lemma TakenNext(g: Grid, n: nat, k: nat)
    requires Size(n) && Square(g, n) && 0 < k <= Visits(n)
    ensures Inside(n, CellAt(n, k - 1))
    ensures
      var at := CellAt(n, k - 1);
      && Taken(g, n, k) == Taken(g, n, k - 1) + (if g[at.row][at.col] == None then {} else {at})
      && FreeBefore(g, n, k) == FreeBefore(g, n, k - 1) + if g[at.row][at.col] == None then 1 else 0
  {
    hide CellAt, Position, Size, Visits;
    CellInverse(n, k - 1);
  }

  lemma {:induction false} TakenCount(g: Grid, n: nat, k: nat)
    requires Size(n) && Square(g, n) && k <= Visits(n)
    ensures |Taken(g, n, k)| + FreeBefore(g, n, k) == k
    ensures forall at :: at in Taken(g, n, k) ==>
      Inside(n, at) && at.col != 6 && Position(n, at) < k && g[at.row][at.col] != None
  {
    hide CellAt, Position, Size, Visits;
    if k > 0 {
      TakenCount(g, n, k - 1);
      CellInverse(n, k - 1);
      var before, at := Taken(g, n, k - 1), CellAt(n, k - 1);
      assert at !in before;
      hide Taken, FreeBefore, Square;
      TakenNext(g, n, k);
    }
  }

  /** Whatever covers the taken modules outside column 6 bounds what is not free. */
  lemma FreeRoom(g: Grid, n: nat, list: seq<Rect>)
    requires Size(n) && Square(g, n)
    requires forall r, c :: 0 <= r < n && 0 <= c < n && c != 6 && g[r][c] != None ==> Covers(list, Cell(r, c))
    ensures FreeBefore(g, n, Visits(n)) >= Visits(n) - Area(list)
  {
    hide Size, CellAt, Position, FreeBefore, Taken, Covers, Area;
    TakenCount(g, n, Visits(n));
    CoverBound(Taken(g, n, Visits(n)), list);
  }

  // ---- the patterns as rectangles ----

  lemma AreaOne(a: Rect)
    ensures Area([a]) == a.height * a.width
  {
    assert [a][..0] == [];
  }

  lemma AreaThree(a: Rect, b: Rect, c: Rect)
    ensures Area([a, b, c]) == a.height * a.width + b.height * b.width + c.height * c.width
  {
    AreaTwo(a, b);
    assert [a, b, c][..2] == [a, b];
  }

  lemma AreaTwo(a: Rect, b: Rect)
    ensures Area([a, b]) == a.height * a.width + b.height * b.width
  {
    AreaOne(a);
    assert [a, b][..1] == [a];
  }

  lemma {:induction false} AreaUniform(list: seq<Rect>, a: nat)
    requires forall i :: 0 <= i < |list| ==> list[i].height * list[i].width == a
    ensures Area(list) == |list| * a
  {
    if list != [] {
      AreaUniform(list[..|list| - 1], a);
      assert |list| * a == (|list| - 1) * a + a;
    }
  }

  /** The position patterns without column 6. */
  function ProbeRects(n: nat): seq<Rect>
    requires n >= 21
  {
    [Rect(0, 0, 8, 6), Rect(0, 7, 8, 1), Rect(0, n - 8, 8, 8)] + [Rect(n - 8, 0, 8, 6), Rect(n - 8, 7, 8, 1)]
  }

  function TimingRects(n: nat): seq<Rect>
    requires n >= 21
  {
    [Rect(6, 8, 1, n - 16)]
  }

  function TypeRects(n: nat): seq<Rect>
    requires n >= 21
  {
    [Rect(0, 8, 6, 1), Rect(7, 8, 2, 1), Rect(n - 8, 8, 8, 1)]
    + [Rect(8, 0, 1, 6), Rect(8, 7, 1, 1), Rect(8, n - 8, 1, 8)]
  }

  function VersionRects(n: nat): seq<Rect>
    requires n >= 21
  {
    [Rect(0, n - 11, 6, 3), Rect(n - 11, 0, 3, 6)]
  }

  lemma FixedAreas(n: nat)
    requires n >= 21
    ensures Area(ProbeRects(n)) == 176 && Area(TimingRects(n)) == n - 16 && Area(TypeRects(n)) == 31
    ensures Area(VersionRects(n)) == 36
  {
    hide Area;
    AreaThree(Rect(0, 0, 8, 6), Rect(0, 7, 8, 1), Rect(0, n - 8, 8, 8));
    AreaTwo(Rect(n - 8, 0, 8, 6), Rect(n - 8, 7, 8, 1));
    AreaAppend([Rect(0, 0, 8, 6), Rect(0, 7, 8, 1), Rect(0, n - 8, 8, 8)],
               [Rect(n - 8, 0, 8, 6), Rect(n - 8, 7, 8, 1)]);
    AreaOne(Rect(6, 8, 1, n - 16));
    AreaThree(Rect(0, 8, 6, 1), Rect(7, 8, 2, 1), Rect(n - 8, 8, 8, 1));
    AreaThree(Rect(8, 0, 1, 6), Rect(8, 7, 1, 1), Rect(8, n - 8, 1, 8));
    AreaAppend([Rect(0, 8, 6, 1), Rect(7, 8, 2, 1), Rect(n - 8, 8, 8, 1)],
               [Rect(8, 0, 1, 6), Rect(8, 7, 1, 1), Rect(8, n - 8, 1, 8)]);
    AreaTwo(Rect(0, n - 11, 6, 3), Rect(n - 11, 0, 3, 6));
  }

  lemma ProbeCovered(n: nat, r: int, c: int)
    requires n >= 21 && 0 <= r < n && 0 <= c < n && c != 6 && InProbe(n, r, c)
    ensures Covers(ProbeRects(n), Cell(r, c))
  {
    var i := if r < 8 && c < 6 then 0 else if r < 8 && c < 8 then 1 else if r < 8 then 2 else if c < 6 then 3 else 4;
    assert Has(ProbeRects(n)[i], Cell(r, c));
  }

  lemma TimingCovered(n: nat, r: int, c: int)
    requires n >= 21 && c != 6 && InTiming(n, r, c)
    ensures Covers(TimingRects(n), Cell(r, c))
  {
    assert Has(TimingRects(n)[0], Cell(r, c));
  }

  lemma TypeCovered(n: nat, r: int, c: int)
    requires n >= 21 && 0 <= r < n && 0 <= c < n && InTypeInfo(n, r, c)
    ensures Covers(TypeRects(n), Cell(r, c))
  {
    var i := if c == 8 && r < 6 then 0 else if c == 8 && r <= 8 then 1 else if c == 8 then 2
             else if c < 6 then 3 else if c == 7 then 4 else 5;
    assert Has(TypeRects(n)[i], Cell(r, c));
  }

  lemma VersionCovered(n: nat, r: int, c: int)
    requires n >= 21 && InVersion(n, r, c)
    ensures Covers(VersionRects(n), Cell(r, c))
  {
    assert Has(VersionRects(n)[if VersionIndex(n, r, c) >= 0 then 0 else 1], Cell(r, c));
  }

  /** Where the pattern with the centre begins. */
  function Edge(centre: nat): int {
    (centre as int) - 2
  }

  /** Two of the five rows or columns of the patterns across a timing pattern, on either side of it. */
  function Strip(pos: seq<nat>, upright: bool, from: nat): (list: seq<Rect>)
    requires |pos| >= 2
    ensures |list| == |pos| - 2
  {
    seq(|pos| - 2, t requires 0 <= t < |pos| - 2 =>
      if upright then Rect(Edge(pos[t + 1]), from, 5, 2) else Rect(from, Edge(pos[t + 1]), 2, 5))
  }

  /** The patterns away from the timing patterns. */
  function Inner(pos: seq<nat>): (list: seq<Rect>)
    requires |pos| >= 2
    ensures |list| == (|pos| - 1) * (|pos| - 1)
  {
    var w := |pos| - 1;
    seq(w * w, q requires 0 <= q < w * w =>
      InnerIndex(w, q);
      Rect(Edge(pos[q / w + 1]), Edge(pos[q % w + 1]), 5, 5))
  }

  lemma InnerIndex(w: nat, q: nat)
    requires w > 0 && q < w * w
    ensures 0 <= q / w < w && 0 <= q % w < w
  {
    var p := q / w;
    assert q == p * w + q % w;
    if p >= w { Multiples(w, p, w); }
  }

  function AdjustRects(pos: seq<nat>): seq<Rect> {
    if |pos| < 2 then []
    else (Strip(pos, false, 4) + Strip(pos, false, 7)) + (Strip(pos, true, 4) + Strip(pos, true, 7)) + Inner(pos)
  }

  lemma AdjustArea(pos: seq<nat>)
    requires |pos| >= 2
    ensures Area(AdjustRects(pos)) == 40 * (|pos| - 2) + 25 * ((|pos| - 1) * (|pos| - 1))
  {
    hide Area;
    var a, b, c, d, e := Strip(pos, false, 4), Strip(pos, false, 7), Strip(pos, true, 4), Strip(pos, true, 7),
      Inner(pos);
    AreaUniform(a, 10);
    AreaUniform(b, 10);
    AreaUniform(c, 10);
    AreaUniform(d, 10);
    AreaUniform(e, 25);
    AreaAppend(a, b);
    AreaAppend(c, d);
    AreaAppend(a + b, c + d);
    AreaAppend((a + b) + (c + d), e);
  }

  lemma StripCovered(pos: seq<nat>, upright: bool, from: nat, i: int, r: int, c: int)
    requires |pos| >= 2 && 1 <= i < |pos| - 1
    requires if upright then Near(pos[i], r) && from <= c < from + 2 else Near(pos[i], c) && from <= r < from + 2
    ensures Covers(Strip(pos, upright, from), Cell(r, c))
  {
    assert Has(Strip(pos, upright, from)[i - 1], Cell(r, c));
  }

  lemma InnerCovered(pos: seq<nat>, i: int, j: int, r: int, c: int)
    requires |pos| >= 2 && 1 <= i < |pos| && 1 <= j < |pos| && Near(pos[i], r) && Near(pos[j], c)
    ensures Covers(Inner(pos), Cell(r, c))
  {
    var w := |pos| - 1;
    var q := (i - 1) * w + (j - 1);
    DivisionParts(i - 1, w, j - 1);
    Multiples(i, w, w);
    assert i * w == (i - 1) * w + w;
    assert Inner(pos)[q] == Rect(Edge(pos[i]), Edge(pos[j]), 5, 5);
    assert Has(Inner(pos)[q], Cell(r, c));
  }

  /** A module of an adjustment pattern, unless the timing pattern has it. */
  lemma AdjustCovered(pos: seq<nat>, n: nat, i: int, j: int, r: int, c: int)
    requires Spread(pos, n) && AdjustCovers(pos, i, j, r, c) && c != 6
    ensures Covers(AdjustRects(pos), Cell(r, c)) || InTiming(n, r, c)
  {
    hide Covers, Strip, Inner;
    var at := Cell(r, c);
    var a, b, d, e, f := Strip(pos, false, 4), Strip(pos, false, 7), Strip(pos, true, 4), Strip(pos, true, 7),
      Inner(pos);
    CoversAppend(a, b, at);
    CoversAppend(d, e, at);
    CoversAppend(a + b, d + e, at);
    CoversAppend((a + b) + (d + e), f, at);
    CentreRange(pos, n, i);
    CentreRange(pos, n, j);
    if i == 0 {
      if r < 6 {
        StripCovered(pos, false, 4, j, r, c);
      } else if r > 6 {
        StripCovered(pos, false, 7, j, r, c);
      }
    } else if j == 0 {
      if c < 6 {
        StripCovered(pos, true, 4, i, r, c);
      } else {
        StripCovered(pos, true, 7, i, r, c);
      }
    } else {
      InnerCovered(pos, i, j, r, c);
    }
  }

  // ---- the room of a version ----

  function Rects(version: nat): seq<Rect>
    requires 1 <= version <= 40
  {
    var n := SideOf(version);
    ((ProbeRects(n) + TimingRects(n)) + (TypeRects(n) + (if version >= 7 then VersionRects(n) else [])))
    + AdjustRects(PatternPosition(version))
  }

  lemma ReservedCovered(version: nat, r: int, c: int)
    requires 1 <= version <= 40 && 0 <= r < SideOf(version) && 0 <= c < SideOf(version) && c != 6
    requires Reserved(version, r, c)
    ensures Covers(Rects(version), Cell(r, c))
  {
    hide Covers, ProbeRects, TimingRects, TypeRects, VersionRects, AdjustRects, PatternPosition, Spread,
      InProbe, InTiming, InTypeInfo, InVersion;
    var n, at, pos := SideOf(version), Cell(r, c), PatternPosition(version);
    var a, b, d, f := ProbeRects(n), TimingRects(n), TypeRects(n), AdjustRects(pos);
    var e := if version >= 7 then VersionRects(n) else [];
    CoversAppend(a, b, at);
    CoversAppend(d, e, at);
    CoversAppend(a + b, d + e, at);
    CoversAppend((a + b) + (d + e), f, at);
    if InProbe(n, r, c) {
      ProbeCovered(n, r, c);
    } else if InTypeInfo(n, r, c) {
      TypeCovered(n, r, c);
    } else if version >= 7 && InVersion(n, r, c) {
      VersionCovered(n, r, c);
    } else {
      if InAdjust(pos, r, c) {
        PositionsGood(version);
        var i, j :| 0 <= i < |pos| && 0 <= j < |pos| && AdjustCovers(pos, i, j, r, c);
        AdjustCovered(pos, n, i, j, r, c);
      }
      if InTiming(n, r, c) { TimingCovered(n, r, c); }
    }
  }

  lemma RectsArea(version: nat)
    requires 1 <= version <= 40
    ensures Visits(SideOf(version)) - Area(Rects(version)) == Room(version)
  {
    hide Area, ProbeRects, TimingRects, TypeRects, VersionRects, PatternPosition, Spread;
    var n, pos := SideOf(version), PatternPosition(version);
    var a, b, d, f := ProbeRects(n), TimingRects(n), TypeRects(n), AdjustRects(pos);
    var e := if version >= 7 then VersionRects(n) else [];
    FixedAreas(n);
    AreaAppend(a, b);
    AreaAppend(d, e);
    AreaAppend(a + b, d + e);
    AreaAppend((a + b) + (d + e), f);
    NoArea();
    PositionsSpread(version);
    if version > 1 { AdjustArea(pos); }
  }

  lemma NoArea()
    ensures Area([]) == 0
  {
  }

  /** The free modules that the zigzag visits in a symbol with its patterns. */
  lemma FreeInSymbol(g: Grid, version: nat)
    requires 1 <= version <= 40 && Square(g, SideOf(version)) && Patterned(g, version)
    ensures FreeBefore(g, SideOf(version), Visits(SideOf(version))) >= Room(version)
  {
    hide Covers, Area, Rects, Reserved, FreeBefore, Visits;
    var n := SideOf(version);
    forall r, c | 0 <= r < n && 0 <= c < n && c != 6 && g[r][c] != None
      ensures Covers(Rects(version), Cell(r, c))
    {
      ReservedCovered(version, r, c);
    }
    FreeRoom(g, n, Rects(version));
    RectsArea(version);
  }
}
