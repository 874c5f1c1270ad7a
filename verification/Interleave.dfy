/** Interleaving of rows of unequal length, column by column, and its inverse. */
module Interleave {
  import opened Prelude

  /** The entries of column i in the first r rows, top to bottom. */
  function Column<T>(rows: seq<seq<T>>, i: nat, r: nat): seq<T>
    requires r <= |rows|
  {
    if r == 0 then []
    else Column(rows, i, r - 1) + if i < |rows[r - 1]| then [rows[r - 1][i]] else []
  }

  /** The first m columns, one after the other. */
  function Columns<T>(rows: seq<seq<T>>, m: nat): seq<T> {
    if m == 0 then [] else Columns(rows, m - 1) + Column(rows, m - 1, |rows|)
  }

  function Widest(lens: seq<nat>): nat {
    if lens == [] then 0
    else
      var m := Widest(lens[..|lens| - 1]);
      if m >= lens[|lens| - 1] then m else lens[|lens| - 1]
  }

  function Lengths<T>(rows: seq<seq<T>>): (lens: seq<nat>)
    ensures |lens| == |rows|
  {
    seq(|rows|, r requires 0 <= r < |rows| => |rows[r]|)
  }

  function Interleaved<T>(rows: seq<seq<T>>): seq<T> {
    Columns(rows, Widest(Lengths(rows)))
  }

  // ---- positions, from the lengths alone ----

  /** How many of the first r rows reach column i. */
  function Reaching(lens: seq<nat>, i: nat, r: nat): nat
    requires r <= |lens|
  {
    if r == 0 then 0 else Reaching(lens, i, r - 1) + if i < lens[r - 1] then 1 else 0
  }

  /** Where column m starts. */
  function Start(lens: seq<nat>, m: nat): nat {
    if m == 0 then 0 else Start(lens, m - 1) + Reaching(lens, m - 1, |lens|)
  }

  function Position(lens: seq<nat>, r: nat, i: nat): nat
    requires r < |lens|
  {
    Start(lens, i) + Reaching(lens, i, r)
  }

  lemma {:induction false} ColumnLength<T>(rows: seq<seq<T>>, i: nat, r: nat)
    requires r <= |rows|
    ensures |Column(rows, i, r)| == Reaching(Lengths(rows), i, r)
  {
    if r > 0 { ColumnLength(rows, i, r - 1); }
  }

  lemma {:induction false} ColumnsLength<T>(rows: seq<seq<T>>, m: nat)
    ensures |Columns(rows, m)| == Start(Lengths(rows), m)
  {
    hide Column, Reaching;
    if m > 0 {
      ColumnsLength(rows, m - 1);
      ColumnLength(rows, m - 1, |rows|);
    }
  }

  lemma {:induction false} ColumnAt<T>(rows: seq<seq<T>>, i: nat, r: nat, n: nat)
    requires r < n <= |rows| && i < |rows[r]|
    ensures Reaching(Lengths(rows), i, r) < |Column(rows, i, n)|
    ensures Column(rows, i, n)[Reaching(Lengths(rows), i, r)] == rows[r][i]
  {
    ColumnLength(rows, i, n - 1);
    if r == n - 1 {
    } else {
      ColumnAt(rows, i, r, n - 1);
    }
  }

  lemma {:induction false} ColumnsAt<T>(rows: seq<seq<T>>, m: nat, r: nat, i: nat)
    requires r < |rows| && i < |rows[r]| && i < m
    ensures Position(Lengths(rows), r, i) < |Columns(rows, m)|
    ensures Columns(rows, m)[Position(Lengths(rows), r, i)] == rows[r][i]
  {
    hide Column, Reaching;
    ColumnsLength(rows, m - 1);
    if i == m - 1 {
      ColumnAt(rows, i, r, |rows|);
    } else {
      ColumnsAt(rows, m - 1, r, i);
    }
  }

  lemma {:induction false} WidestBound(lens: seq<nat>, r: nat)
    requires r < |lens|
    ensures lens[r] <= Widest(lens)
  {
    var m := |lens| - 1;
    if r < m { WidestBound(lens[..m], r); }
  }

  /** Every entry is where its row and column say. */
  lemma InterleavedAt<T>(rows: seq<seq<T>>, r: nat, i: nat)
    requires r < |rows| && i < |rows[r]|
    ensures Position(Lengths(rows), r, i) < |Interleaved(rows)|
    ensures Interleaved(rows)[Position(Lengths(rows), r, i)] == rows[r][i]
  {
    WidestBound(Lengths(rows), r);
    ColumnsAt(rows, Widest(Lengths(rows)), r, i);
  }

  // ---- the positions are exactly the indices of the output ----

  function Total(lens: seq<nat>): nat {
    if lens == [] then 0 else Total(lens[..|lens| - 1]) + lens[|lens| - 1]
  }

  lemma {:induction false} ReachingPrefix(lens: seq<nat>, i: nat, r: nat, n: nat)
    requires r <= n <= |lens|
    ensures Reaching(lens[..n], i, r) == Reaching(lens, i, r)
  {
    if r > 0 { ReachingPrefix(lens, i, r - 1, n); }
  }

  lemma {:induction false} StartSnoc(lens: seq<nat>, m: nat)
    requires lens != []
    ensures Start(lens, m) == Start(lens[..|lens| - 1], m) + if m < lens[|lens| - 1] then m else lens[|lens| - 1]
  {
    if m > 0 {
      StartSnoc(lens, m - 1);
      ReachingPrefix(lens, m - 1, |lens| - 1, |lens| - 1);
    }
  }

  lemma {:induction false} StartEmpty(m: nat)
    ensures Start([], m) == 0
  {
    if m > 0 { StartEmpty(m - 1); }
  }

  /** Counting by columns and counting by rows agree. */
  lemma {:induction false} StartTotal(lens: seq<nat>, m: nat)
    requires Widest(lens) <= m
    ensures Start(lens, m) == Total(lens)
  {
    if lens == [] {
      StartEmpty(m);
    } else {
      StartSnoc(lens, m);
      StartTotal(lens[..|lens| - 1], m);
    }
  }

  lemma InterleavedLength<T>(rows: seq<seq<T>>)
    ensures |Interleaved(rows)| == Total(Lengths(rows))
  {
    ColumnsLength(rows, Widest(Lengths(rows)));
    StartTotal(Lengths(rows), Widest(Lengths(rows)));
  }

  lemma {:induction false} StartMonotone(lens: seq<nat>, i: nat, m: nat)
    requires i <= m
    ensures Start(lens, i) <= Start(lens, m)
  {
    if i < m { StartMonotone(lens, i, m - 1); }
  }

  lemma {:induction false} ReachingMonotone(lens: seq<nat>, i: nat, r: nat, n: nat)
    requires r <= n <= |lens|
    ensures Reaching(lens, i, r) <= Reaching(lens, i, n)
  {
    if r < n { ReachingMonotone(lens, i, r, n - 1); }
  }

  lemma ReachingNext(lens: seq<nat>, i: nat, r: nat, n: nat)
    requires r < n <= |lens| && i < lens[r]
    ensures Reaching(lens, i, r) < Reaching(lens, i, n)
  {
    ReachingMonotone(lens, i, r + 1, n);
  }

  /** The first entries of all rows come first, in the order of the rows, and then the second ones. */
  lemma PositionsInOrder(lens: seq<nat>, r: nat, i: nat, q: nat, j: nat)
    requires r < |lens| && i < lens[r] && q < |lens| && j < lens[q]
    ensures Position(lens, r, i) < Position(lens, q, j) <==> i < j || (i == j && r < q)
  {
    if i == j {
      if r < q { ReachingNext(lens, i, r, q); } else { ReachingMonotone(lens, i, q, r); }
    } else if i < j {
      EarlierColumn(lens, r, i, q, j);
    } else {
      EarlierColumn(lens, q, j, r, i);
    }
  }

  lemma EarlierColumn(lens: seq<nat>, r: nat, i: nat, q: nat, j: nat)
    requires r < |lens| && i < lens[r] && q < |lens| && i < j
    ensures Position(lens, r, i) < Position(lens, q, j)
  {
    ReachingNext(lens, i, r, |lens|);
    StartMonotone(lens, i + 1, j);
  }

  lemma PositionBound(lens: seq<nat>, r: nat, i: nat)
    requires r < |lens| && i < lens[r]
    ensures Position(lens, r, i) < Total(lens)
  {
    var m := Widest(lens);
    WidestBound(lens, r);
    StartTotal(lens, m);
    StartMonotone(lens, i + 1, m);
    ReachingMonotone(lens, i, r + 1, |lens|);
  }

  // ---- the inverse ----

  function Deinterleaved<T>(lens: seq<nat>, out: seq<T>): (rows: seq<seq<T>>)
    requires |out| == Total(lens)
    ensures |rows| == |lens|
  {
    seq(|lens|, r requires 0 <= r < |lens| => seq(lens[r], i requires 0 <= i < lens[r] =>
      PositionBound(lens, r, i);
      out[Position(lens, r, i)]))
  }

  /** The rows come back. */
  lemma RowsRoundTrip<T>(rows: seq<seq<T>>)
    ensures |Interleaved(rows)| == Total(Lengths(rows))
    ensures Deinterleaved(Lengths(rows), Interleaved(rows)) == rows
  {
    InterleavedLength(rows);
    var back := Deinterleaved(Lengths(rows), Interleaved(rows));
    forall r | 0 <= r < |rows|
      ensures back[r] == rows[r]
    {
      forall i | 0 <= i < |rows[r]|
        ensures back[r][i] == rows[r][i]
      {
        InterleavedAt(rows, r, i);
      }
    }
  }

  lemma {:induction false} ColumnOfDeinterleaved<T>(lens: seq<nat>, out: seq<T>, i: nat, r: nat)
    requires |out| == Total(lens) && r <= |lens|
    ensures Start(lens, i) + Reaching(lens, i, r) <= |out|
    ensures Column(Deinterleaved(lens, out), i, r) == out[Start(lens, i)..Start(lens, i) + Reaching(lens, i, r)]
  {
    if r == 0 {
      StartWithin(lens, i);
    } else {
      ColumnOfDeinterleaved(lens, out, i, r - 1);
      if i < lens[r - 1] {
        PositionBound(lens, r - 1, i);
      }
    }
  }

  lemma StartWithin(lens: seq<nat>, i: nat)
    ensures Start(lens, i) <= Total(lens)
  {
    var m := if Widest(lens) >= i then Widest(lens) else i;
    StartTotal(lens, m);
    StartMonotone(lens, i, m);
  }

  lemma {:induction false} ColumnsOfDeinterleaved<T>(lens: seq<nat>, out: seq<T>, m: nat)
    requires |out| == Total(lens)
    ensures Start(lens, m) <= |out|
    ensures Columns(Deinterleaved(lens, out), m) == out[..Start(lens, m)]
  {
    hide Column, Reaching, Deinterleaved;
    StartWithin(lens, m);
    if m > 0 {
      ColumnsOfDeinterleaved(lens, out, m - 1);
      ColumnOfDeinterleaved(lens, out, m - 1, |lens|);
    }
  }

  /** And so does the output: every index of it is written exactly once. */
  lemma OutputRoundTrip<T>(lens: seq<nat>, out: seq<T>)
    requires |out| == Total(lens)
    ensures Interleaved(Deinterleaved(lens, out)) == out
  {
    var rows := Deinterleaved(lens, out);
    assert Lengths(rows) == lens;
    ColumnsOfDeinterleaved(lens, out, Widest(lens));
    StartTotal(lens, Widest(lens));
    assert out[..|out|] == out;
  }
}
