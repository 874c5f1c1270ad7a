/** The function patterns of win/qrcodegen.js: which modules of a symbol are taken before the data goes in. */
module QrPatterns {
  import opened Prelude
  import opened Bits
  import opened Zigzag

  // ---- where the adjustment patterns are ----

  /** PATTERN_POSITION_TABLE, ten versions at a time. */
  function PatternPosition(version: nat): seq<nat>
    requires 1 <= version <= 40
  {
    if version <= 10 then Positions1(version)
    else if version <= 20 then Positions11(version)
    else if version <= 30 then Positions21(version)
    else Positions31(version)
  }

  function Positions1(version: nat): seq<nat> {
    match version
    case 1 => []
    case 2 => [6, 18]
    case 3 => [6, 22]
    case 4 => [6, 26]
    case 5 => [6, 30]
    case 6 => [6, 34]
    case 7 => [6, 22, 38]
    case 8 => [6, 24, 42]
    case 9 => [6, 26, 46]
    case _ => [6, 28, 50]
  }

  function Positions11(version: nat): seq<nat> {
    match version
    case 11 => [6, 30, 54]
    case 12 => [6, 32, 58]
    case 13 => [6, 34, 62]
    case 14 => [6, 26, 46, 66]
    case 15 => [6, 26, 48, 70]
    case 16 => [6, 26, 50, 74]
    case 17 => [6, 30, 54, 78]
    case 18 => [6, 30, 56, 82]
    case 19 => [6, 30, 58, 86]
    case _ => [6, 34, 62, 90]
  }

  function Positions21(version: nat): seq<nat> {
    match version
    case 21 => [6, 28, 50, 72, 94]
    case 22 => [6, 26, 50, 74, 98]
    case 23 => [6, 30, 54, 78, 102]
    case 24 => [6, 28, 54, 80, 106]
    case 25 => [6, 32, 58, 84, 110]
    case 26 => [6, 30, 58, 86, 114]
    case 27 => [6, 34, 62, 90, 118]
    case 28 => [6, 26, 50, 74, 98, 122]
    case 29 => [6, 30, 54, 78, 102, 126]
    case _ => [6, 26, 52, 78, 104, 130]
  }

  function Positions31(version: nat): seq<nat> {
    match version
    case 31 => [6, 30, 56, 82, 108, 134]
    case 32 => [6, 34, 60, 86, 112, 138]
    case 33 => [6, 30, 58, 86, 114, 142]
    case 34 => [6, 34, 62, 90, 118, 146]
    case 35 => [6, 30, 54, 78, 102, 126, 150]
    case 36 => [6, 24, 50, 76, 102, 128, 154]
    case 37 => [6, 28, 54, 80, 106, 132, 158]
    case 38 => [6, 32, 58, 84, 110, 136, 162]
    case 39 => [6, 26, 54, 82, 110, 138, 166]
    case _ => [6, 30, 58, 86, 114, 142, 170]
  }

  /** From 6 to the seventh row from the end, at least twelve apart. */
  predicate Spread(pos: seq<nat>, n: nat) {
    && |pos| >= 2 && pos[0] == 6 && pos[|pos| - 1] + 7 == n
    && forall i :: 0 <= i < |pos| - 1 ==> pos[i] + 12 <= pos[i + 1]
  }

  /** Behind the first gap all gaps are the same even number, the least with which the positions reach over the symbol,
      but for version 32. */
  predicate Stepped(version: nat, pos: seq<nat>)
    requires |pos| >= 2
  {
    var k := |pos|;
    var step: int := pos[k - 1] as int - pos[k - 2];
    && step % 2 == 0
    && (forall i :: 1 <= i < k - 1 ==> pos[i + 1] == pos[i] + step)
    && (k > 2 ==> if version == 32 then step == 26 else pos[1] - 6 <= step < pos[1] - 6 + 2 * (k - 1))
  }

  ghost predicate PositionsOk(version: nat)
    requires 1 <= version <= 40
  {
    var pos := PatternPosition(version);
    if version == 1 then pos == []
    else |pos| == version / 7 + 2 && Spread(pos, SideOf(version))
  }

  ghost predicate StepsOk(version: nat)
    requires 1 <= version <= 40
  {
    version > 1 ==> |PatternPosition(version)| >= 2 && Stepped(version, PatternPosition(version))
  }

  lemma PositionsFrom1(version: nat)
    requires 1 <= version <= 10
    ensures PositionsOk(version)
  {
  }

  lemma PositionsFrom11(version: nat)
    requires 11 <= version <= 20
    ensures PositionsOk(version)
  {
  }

  lemma PositionsFrom21(version: nat)
    requires 21 <= version <= 30
    ensures PositionsOk(version)
  {
  }

  lemma PositionsFrom31(version: nat)
    requires 31 <= version <= 40
    ensures PositionsOk(version)
  {
  }

  lemma PositionsSpread(version: nat)
    requires 1 <= version <= 40
    ensures PositionsOk(version)
  {
    hide PositionsOk;
    if version <= 10 {
      PositionsFrom1(version);
    } else if version <= 20 {
      PositionsFrom11(version);
    } else if version <= 30 {
      PositionsFrom21(version);
    } else {
      PositionsFrom31(version);
    }
  }

  lemma StepsFrom1(version: nat)
    requires 1 <= version <= 9
    ensures StepsOk(version)
  {
  }

  lemma StepsFrom10(version: nat)
    requires 10 <= version <= 14
    ensures StepsOk(version)
  {
  }

  lemma StepsFrom15(version: nat)
    requires 15 <= version <= 18
    ensures StepsOk(version)
  {
  }

  lemma StepsFrom19(version: nat)
    requires 19 <= version <= 22
    ensures StepsOk(version)
  {
  }

  lemma StepsFrom23(version: nat)
    requires 23 <= version <= 26
    ensures StepsOk(version)
  {
  }

  lemma StepsFrom27(version: nat)
    requires 27 <= version <= 30
    ensures StepsOk(version)
  {
  }

  lemma StepsFrom31(version: nat)
    requires 31 <= version <= 34
    ensures StepsOk(version)
  {
  }

  lemma StepsFrom35(version: nat)
    requires 35 <= version <= 37
    ensures StepsOk(version)
  {
  }

  lemma StepsFrom38(version: nat)
    requires 38 <= version <= 40
    ensures StepsOk(version)
  {
  }

  /** The table of the standard: where the first gap is, and how far apart the others are. */
  lemma PositionsStepped(version: nat)
    requires 1 <= version <= 40
    ensures StepsOk(version)
  {
    hide StepsOk;
    if version <= 9 {
      StepsFrom1(version);
    } else if version <= 14 {
      StepsFrom10(version);
    } else if version <= 18 {
      StepsFrom15(version);
    } else if version <= 22 {
      StepsFrom19(version);
    } else if version <= 26 {
      StepsFrom23(version);
    } else if version <= 30 {
      StepsFrom27(version);
    } else if version <= 34 {
      StepsFrom31(version);
    } else if version <= 37 {
      StepsFrom35(version);
    } else {
      StepsFrom38(version);
    }
  }

  lemma {:induction false} SpreadApart(pos: seq<nat>, n: nat, i: nat, j: nat)
    requires Spread(pos, n) && i < j < |pos|
    ensures pos[i] + 12 <= pos[j]
  {
    if i + 1 < j { SpreadApart(pos, n, i, j - 1); }
  }

  // ---- the modules of each pattern ----

  /** The 8 by 8 modules of a position pattern and its margin, as far as they are inside. */
  predicate InProbe(n: nat, r: int, c: int) {
    (r < 8 && c < 8) || (r < 8 && c >= n - 8) || (r >= n - 8 && c < 8)
  }

  predicate InTiming(n: nat, r: int, c: int) {
    (c == 6 && 8 <= r < n - 8) || (r == 6 && 8 <= c < n - 8)
  }

  /** The row of bit i of the type information in column 8. */
  function TypeRow(n: nat, i: nat): int {
    if i < 6 then i else if i < 8 then i + 1 else n - 15 + i
  }

  /** And its column in row 8. */
  function TypeColumn(n: nat, i: nat): int {
    if i < 8 then n - i - 1 else if i < 9 then 15 - i - 1 + 1 else 15 - i - 1
  }

  /** Which bit of the type information goes to a module of column 8, or -1. */
  function RowIndex(n: nat, r: int, c: int): int {
    if c != 8 then -1
    else if 0 <= r < 6 then r else if 7 <= r <= 8 then r - 1 else if n - 7 <= r < n then r - n + 15 else -1
  }

  /** Which one goes to a module of row 8. */
  function ColumnIndex(n: nat, r: int, c: int): int {
    if r != 8 then -1
    else if n - 8 <= c < n then n - 1 - c else if c == 7 then 8 else if 0 <= c < 6 then 14 - c else -1
  }

  lemma TypeRowInverse(n: nat, i: nat, r: int, c: int)
    requires n >= 21 && i < 15
    ensures RowIndex(n, r, c) == i <==> c == 8 && r == TypeRow(n, i)
    ensures 0 <= TypeRow(n, i) < n
  {
  }

  lemma TypeColumnInverse(n: nat, i: nat, r: int, c: int)
    requires n >= 21 && i < 15
    ensures ColumnIndex(n, r, c) == i <==> r == 8 && c == TypeColumn(n, i)
    ensures 0 <= TypeColumn(n, i) < n
  {
  }

  lemma TypeIndexBounds(n: nat, r: int, c: int)
    requires n >= 21
    ensures -1 <= RowIndex(n, r, c) < 15 && -1 <= ColumnIndex(n, r, c) < 15
    ensures RowIndex(n, r, c) == -1 || ColumnIndex(n, r, c) == -1
    ensures r == n - 8 && c == 8 ==> RowIndex(n, r, c) == ColumnIndex(n, r, c) == -1
  {
  }

  predicate InTypeInfo(n: nat, r: int, c: int) {
    RowIndex(n, r, c) >= 0 || ColumnIndex(n, r, c) >= 0 || (r == n - 8 && c == 8)
  }

  /** Which bit of the version information goes to a module of the upper copy, or -1. The lower copy is mirrored. */
  function VersionIndex(n: nat, r: int, c: int): int {
    if 0 <= r < 6 && n - 11 <= c < n - 8 then 3 * r + (c - (n - 11)) else -1
  }

  lemma VersionInverse(n: nat, i: nat, r: int, c: int)
    requires n >= 21 && i < 18
    ensures VersionIndex(n, r, c) == i <==> r == i / 3 && c == i % 3 + n - 11
    ensures -1 <= VersionIndex(n, r, c) < 18
  {
  }

  predicate InVersion(n: nat, r: int, c: int) {
    VersionIndex(n, r, c) >= 0 || VersionIndex(n, c, r) >= 0
  }

  /** The three places of the grid of adjustment patterns that position patterns take. */
  predicate Corner(k: nat, i: int, j: int) {
    (i == 0 && j == 0) || (i == 0 && j == k - 1) || (i == k - 1 && j == 0)
  }

  predicate Near(at: nat, x: int) {
    at - 2 <= x <= at + 2
  }

  predicate AdjustCovers(pos: seq<nat>, i: int, j: int, r: int, c: int) {
    0 <= i < |pos| && 0 <= j < |pos| && !Corner(|pos|, i, j) && Near(pos[i], r) && Near(pos[j], c)
  }

  predicate InAdjust(pos: seq<nat>, r: int, c: int) {
    exists i, j :: 0 <= i < |pos| && 0 <= j < |pos| && AdjustCovers(pos, i, j, r, c)
  }

  /** The modules taken when the data goes in. */
  predicate Reserved(version: nat, r: int, c: int)
    requires 1 <= version <= 40
  {
    var n := SideOf(version);
    InProbe(n, r, c) || InAdjust(PatternPosition(version), r, c) || InTiming(n, r, c) || InTypeInfo(n, r, c)
    || (version >= 7 && InVersion(n, r, c))
  }

  ghost predicate Patterned(g: Grid, version: nat)
    requires 1 <= version <= 40 && Square(g, SideOf(version))
  {
    forall r, c :: 0 <= r < SideOf(version) && 0 <= c < SideOf(version) ==>
      (g[r][c] != None <==> Reserved(version, r, c))
  }

  // ---- what a symbol looks like before the data goes in ----

  predicate Bit(bits: nat, i: nat) {
    Shr(bits, i) % 2 == 1
  }

  function Abs(x: int): nat {
    if x < 0 then -x else x
  }

  /** How many rings around a centre a module is away from it. */
  function Ring(r: int, c: int, row: int, col: int): nat {
    if Abs(r - row) < Abs(c - col) then Abs(c - col) else Abs(r - row)
  }

  /** The centre and the third ring of a position pattern are dark, and light rings are around them. */
  ghost predicate ProbeDrawn(g: Grid, n: nat, row: int, col: int)
    requires Square(g, n)
  {
    forall r, c :: 0 <= r < n && 0 <= c < n && Ring(r, c, row, col) <= 4 ==>
      g[r][c] == Some(Ring(r, c, row, col) !in {2, 4})
  }

  ghost predicate ProbesDrawn(g: Grid, n: nat)
    requires Square(g, n)
  {
    ProbeDrawn(g, n, 3, 3) && ProbeDrawn(g, n, n - 4, 3) && ProbeDrawn(g, n, 3, n - 4)
  }

  /** Adjustment patterns have a dark centre and a dark second ring; there is one at every crossing that no position
      pattern takes. */
  ghost predicate AdjustDrawn(g: Grid, n: nat, pos: seq<nat>)
    requires Square(g, n)
  {
    forall i, j, r, c ::
      0 <= i < |pos| && 0 <= j < |pos| && (pos[i], pos[j]) !in {(6, 6), (6, n - 7), (n - 7, 6)}
      && 0 <= r < n && 0 <= c < n && Ring(r, c, pos[i], pos[j]) <= 2 ==>
        g[r][c] == Some(Ring(r, c, pos[i], pos[j]) != 1)
  }

  /** The timing patterns are dark and light in turn all the way, through the adjustment patterns too. */
  ghost predicate TimingDrawn(g: Grid, n: nat)
    requires Square(g, n)
  {
    forall k :: 8 <= k < n - 8 ==> g[6][k] == Some(k % 2 == 0) && g[k][6] == Some(k % 2 == 0)
  }

  /** The bits of the type information down column 8, and once more along row 8 from the right, past the timing
      patterns; and the module that is always dark. */
  ghost predicate TypeDrawn(g: Grid, n: nat, test: bool, bits: nat)
    requires Square(g, n) && n >= 21
  {
    var rows: seq<int> := [0, 1, 2, 3, 4, 5, 7, 8, n - 7, n - 6, n - 5, n - 4, n - 3, n - 2, n - 1];
    var columns: seq<int> := [n - 1, n - 2, n - 3, n - 4, n - 5, n - 6, n - 7, n - 8, 7, 5, 4, 3, 2, 1, 0];
    && g[n - 8][8] == Some(!test)
    && forall i :: 0 <= i < 15 ==>
         g[rows[i]][8] == Some(!test && Bit(bits, i)) && g[8][columns[i]] == Some(!test && Bit(bits, i))
  }

  /** Three bits of the version information to a row next to the upper right position pattern, and mirrored. */
  ghost predicate VersionDrawn(g: Grid, n: nat, test: bool, bits: nat)
    requires Square(g, n) && n >= 21
  {
    forall i :: 0 <= i < 18 ==>
      && g[i / 3][n - 11 + i % 3] == Some(!test && Bit(bits, i))
      && g[n - 11 + i % 3][i / 3] == Some(!test && Bit(bits, i))
  }

  ghost predicate Drawn(g: Grid, version: nat, test: bool, typeBits: nat, versionBits: nat)
    requires 1 <= version <= 40 && Square(g, SideOf(version))
  {
    var n := SideOf(version);
    && ProbesDrawn(g, n) && AdjustDrawn(g, n, PatternPosition(version)) && TimingDrawn(g, n)
    && TypeDrawn(g, n, test, typeBits) && (version >= 7 ==> VersionDrawn(g, n, test, versionBits))
  }

  // ---- the loops ----

  /** The modules of a position pattern, relative to its upper left corner. */
  predicate ProbeDark(r: int, c: int) {
    (0 <= r <= 6 && (c == 0 || c == 6)) || (0 <= c <= 6 && (r == 0 || r == 6)) || (2 <= r <= 4 && 2 <= c <= 4)
  }

  predicate InSquare(r: int, c: int) {
    -1 <= r <= 7 && -1 <= c <= 7
  }

  // What each method does, as relations between the matrices before and after it.

  /** The three position patterns, the last one first. */
  function ProbeAt(n: nat, r: int, c: int): Option<bool> {
    if InSquare(r, c - n + 7) then Some(ProbeDark(r, c - n + 7))
    else if InSquare(r - n + 7, c) then Some(ProbeDark(r - n + 7, c))
    else if InSquare(r, c) then Some(ProbeDark(r, c)) else None
  }

  ghost predicate Probed(g: Grid, n: nat)
    requires Square(g, n)
  {
    forall r, c :: 0 <= r < n && 0 <= c < n ==> g[r][c] == ProbeAt(n, r, c)
  }

  ghost predicate Timed(g: Grid, h: Grid, n: nat)
    requires Square(g, n) && Square(h, n)
  {
    forall r, c :: 0 <= r < n && 0 <= c < n ==>
      h[r][c] == if InTiming(n, r, c) && g[r][c] == None then Some((if c == 6 then r else c) % 2 == 0) else g[r][c]
  }

  ghost predicate Typed(g: Grid, h: Grid, n: nat, test: bool, bits: nat)
    requires Square(g, n) && Square(h, n)
  {
    forall r, c :: 0 <= r < n && 0 <= c < n ==>
      h[r][c] == if r == n - 8 && c == 8 then Some(!test)
                 else if RowIndex(n, r, c) >= 0 then Some(!test && Bit(bits, RowIndex(n, r, c)))
                 else if ColumnIndex(n, r, c) >= 0 then Some(!test && Bit(bits, ColumnIndex(n, r, c)))
                 else g[r][c]
  }

  ghost predicate Versioned(g: Grid, h: Grid, n: nat, test: bool, bits: nat)
    requires Square(g, n) && Square(h, n)
  {
    forall r, c :: 0 <= r < n && 0 <= c < n ==>
      h[r][c] == if VersionIndex(n, r, c) >= 0 then Some(!test && Bit(bits, VersionIndex(n, r, c)))
                 else if VersionIndex(n, c, r) >= 0 then Some(!test && Bit(bits, VersionIndex(n, c, r)))
                 else g[r][c]
  }

  /** setupPositionProbePattern. */
  method SetupProbe(m: array2<Option<bool>>, row: int, col: int)
    requires m.Length0 == m.Length1
    modifies m
    ensures forall y, x :: 0 <= y < m.Length0 && 0 <= x < m.Length1 ==>
      m[y, x] == if InSquare(y - row, x - col) then Some(ProbeDark(y - row, x - col)) else old(m[y, x])
  {
    for r := -1 to 8
      invariant forall y, x :: 0 <= y < m.Length0 && 0 <= x < m.Length1 ==>
        m[y, x] == if InSquare(y - row, x - col) && y - row < r then Some(ProbeDark(y - row, x - col)) else old(m[y, x])
    {
      if row + r <= -1 || m.Length0 <= row + r { continue; }
      for c := -1 to 8
        invariant forall y, x :: 0 <= y < m.Length0 && 0 <= x < m.Length1 ==>
          m[y, x] == if InSquare(y - row, x - col) && (y - row < r || (y - row == r && x - col < c))
                     then Some(ProbeDark(y - row, x - col)) else old(m[y, x])
      {
        if col + c <= -1 || m.Length1 <= col + c { continue; }
        m[row + r, col + c] := Some(ProbeDark(r, c));
      }
    }
  }

  /** setupTimingPattern: dark and light in turn, where nothing is yet. */
  method SetupTiming(m: array2<Option<bool>>)
    requires m.Length0 == m.Length1 >= 21
    modifies m
    ensures forall y, x :: 0 <= y < m.Length0 && 0 <= x < m.Length1 ==>
      m[y, x] == if InTiming(m.Length0, y, x) && old(m[y, x]) == None
                 then Some((if x == 6 then y else x) % 2 == 0) else old(m[y, x])
    ensures Timed(old(GridOf(m)), GridOf(m), m.Length0)
  {
    var n := m.Length0;
    for r := 8 to n - 8
      invariant forall y, x :: 0 <= y < n && 0 <= x < n ==>
        m[y, x] == if x == 6 && 8 <= y < r && old(m[y, x]) == None then Some(y % 2 == 0) else old(m[y, x])
    {
      if m[r, 6] != None { continue; }
      m[r, 6] := Some(r % 2 == 0);
    }
    ghost var half := GridOf(m);
    for c := 8 to n - 8
      invariant forall y, x :: 0 <= y < n && 0 <= x < n ==>
        m[y, x] == if y == 6 && 8 <= x < c && half[y][x] == None then Some(x % 2 == 0) else half[y][x]
    {
      if m[6, c] != None { continue; }
      m[6, c] := Some(c % 2 == 0);
    }
  }

  /** The first loop of setupTypeInfo. */
  method SetupTypeColumn(m: array2<Option<bool>>, test: bool, bits: nat)
    requires m.Length0 == m.Length1 >= 21
    modifies m
    ensures forall y, x :: 0 <= y < m.Length0 && 0 <= x < m.Length1 ==>
      m[y, x] == if RowIndex(m.Length0, y, x) >= 0 then Some(!test && Bit(bits, RowIndex(m.Length0, y, x)))
                 else old(m[y, x])
  {
    hide Bit, RowIndex, TypeRow;
    var n := m.Length0;
    for i := 0 to 15
      invariant forall y, x :: 0 <= y < n && 0 <= x < n ==>
        m[y, x] == if 0 <= RowIndex(n, y, x) < i then Some(!test && Bit(bits, RowIndex(n, y, x))) else old(m[y, x])
    {
      forall y, x | 0 <= y < n && 0 <= x < n
        ensures RowIndex(n, y, x) == i <==> x == 8 && y == TypeRow(n, i)
      {
        TypeRowInverse(n, i, y, x);
      }
      TypeRowInverse(n, i, 0, 0);
      m[TypeRow(n, i), 8] := Some(!test && Bit(bits, i));
    }
    forall y, x | 0 <= y < n && 0 <= x < n ensures RowIndex(n, y, x) < 15 {
      TypeIndexBounds(n, y, x);
    }
  }

  /** The second one. */
  method SetupTypeRow(m: array2<Option<bool>>, test: bool, bits: nat)
    requires m.Length0 == m.Length1 >= 21
    modifies m
    ensures forall y, x :: 0 <= y < m.Length0 && 0 <= x < m.Length1 ==>
      m[y, x] == if ColumnIndex(m.Length0, y, x) >= 0 then Some(!test && Bit(bits, ColumnIndex(m.Length0, y, x)))
                 else old(m[y, x])
  {
    hide Bit, ColumnIndex, TypeColumn;
    var n := m.Length0;
    for i := 0 to 15
      invariant forall y, x :: 0 <= y < n && 0 <= x < n ==>
        m[y, x] == if 0 <= ColumnIndex(n, y, x) < i then Some(!test && Bit(bits, ColumnIndex(n, y, x)))
                   else old(m[y, x])
    {
      forall y, x | 0 <= y < n && 0 <= x < n
        ensures ColumnIndex(n, y, x) == i <==> y == 8 && x == TypeColumn(n, i)
      {
        TypeColumnInverse(n, i, y, x);
      }
      TypeColumnInverse(n, i, 0, 0);
      m[8, TypeColumn(n, i)] := Some(!test && Bit(bits, i));
    }
    forall y, x | 0 <= y < n && 0 <= x < n ensures ColumnIndex(n, y, x) < 15 {
      TypeIndexBounds(n, y, x);
    }
  }

  /** setupTypeInfo, with the 15 bits already computed. */
  method SetupTypeInfo(m: array2<Option<bool>>, test: bool, bits: nat)
    requires m.Length0 == m.Length1 >= 21
    modifies m
    ensures forall y, x :: 0 <= y < m.Length0 && 0 <= x < m.Length1 ==>
      var n := m.Length0;
      m[y, x] == if y == n - 8 && x == 8 then Some(!test)
                 else if RowIndex(n, y, x) >= 0 then Some(!test && Bit(bits, RowIndex(n, y, x)))
                 else if ColumnIndex(n, y, x) >= 0 then Some(!test && Bit(bits, ColumnIndex(n, y, x)))
                 else old(m[y, x])
    ensures Typed(old(GridOf(m)), GridOf(m), m.Length0, test, bits)
  {
    hide Bit, RowIndex, ColumnIndex;
    var n := m.Length0;
    SetupTypeColumn(m, test, bits);
    SetupTypeRow(m, test, bits);
    forall y, x | 0 <= y < n && 0 <= x < n ensures RowIndex(n, y, x) == -1 || ColumnIndex(n, y, x) == -1 {
      TypeIndexBounds(n, y, x);
    }
    m[n - 8, 8] := Some(!test);
  }

  /** One loop of setupTypeNumber: the upper copy or the mirrored one. */
  method SetupVersionCopy(m: array2<Option<bool>>, test: bool, bits: nat, mirrored: bool)
    requires m.Length0 == m.Length1 >= 21
    modifies m
    ensures forall y, x :: 0 <= y < m.Length0 && 0 <= x < m.Length1 ==>
      var i := if mirrored then VersionIndex(m.Length0, x, y) else VersionIndex(m.Length0, y, x);
      m[y, x] == if i >= 0 then Some(!test && Bit(bits, i)) else old(m[y, x])
  {
    hide Bit, VersionIndex;
    var n := m.Length0;
    for i := 0 to 18
      invariant forall y, x :: 0 <= y < n && 0 <= x < n ==>
        var k := if mirrored then VersionIndex(n, x, y) else VersionIndex(n, y, x);
        m[y, x] == if 0 <= k < i then Some(!test && Bit(bits, k)) else old(m[y, x])
    {
      var r, c := i / 3, i % 3 + n - 8 - 3;
      forall y, x | 0 <= y < n && 0 <= x < n
        ensures VersionIndex(n, y, x) == i <==> y == r && x == c
        ensures VersionIndex(n, x, y) == i <==> x == r && y == c
      {
        VersionInverse(n, i, y, x);
        VersionInverse(n, i, x, y);
      }
      if mirrored {
        m[c, r] := Some(!test && Bit(bits, i));
      } else {
        m[r, c] := Some(!test && Bit(bits, i));
      }
    }
    forall y, x | 0 <= y < n && 0 <= x < n ensures VersionIndex(n, y, x) < 18 && VersionIndex(n, x, y) < 18 {
      VersionInverse(n, 0, y, x);
      VersionInverse(n, 0, x, y);
    }
  }

  lemma NoOverlap(n: nat, r: int, c: int)
    requires n >= 21
    ensures VersionIndex(n, r, c) < 0 || VersionIndex(n, c, r) < 0
  {
  }

  /** setupTypeNumber, with the 18 bits already computed. */
  method SetupTypeNumber(m: array2<Option<bool>>, test: bool, bits: nat)
    requires m.Length0 == m.Length1 >= 21
    modifies m
    ensures forall y, x :: 0 <= y < m.Length0 && 0 <= x < m.Length1 ==>
      var n := m.Length0;
      m[y, x] == if VersionIndex(n, y, x) >= 0 then Some(!test && Bit(bits, VersionIndex(n, y, x)))
                 else if VersionIndex(n, x, y) >= 0 then Some(!test && Bit(bits, VersionIndex(n, x, y)))
                 else old(m[y, x])
    ensures Versioned(old(GridOf(m)), GridOf(m), m.Length0, test, bits)
  {
    hide Bit, VersionIndex;
    var n := m.Length0;
    SetupVersionCopy(m, test, bits, false);
    SetupVersionCopy(m, test, bits, true);
    forall y, x | 0 <= y < n && 0 <= x < n ensures VersionIndex(n, y, x) < 0 || VersionIndex(n, x, y) < 0 {
      NoOverlap(n, y, x);
    }
  }

  /** The modules of an adjustment pattern, relative to its centre. */
  predicate AdjustDark(r: int, c: int) {
    r == -2 || r == 2 || c == -2 || c == 2 || (r == 0 && c == 0)
  }

  /** The two inner loops of setupPositionAdjustPattern. */
  method SetupAdjustAt(m: array2<Option<bool>>, row: nat, col: nat)
    requires m.Length0 == m.Length1 && 2 <= row < m.Length0 - 2 && 2 <= col < m.Length0 - 2
    modifies m
    ensures forall y, x :: 0 <= y < m.Length0 && 0 <= x < m.Length1 ==>
      m[y, x] == if Near(row, y) && Near(col, x) then Some(AdjustDark(y - row, x - col)) else old(m[y, x])
  {
    hide AdjustDark;
    for r := -2 to 3
      invariant forall y, x :: 0 <= y < m.Length0 && 0 <= x < m.Length1 ==>
        m[y, x] == if Near(row, y) && Near(col, x) && y - row < r then Some(AdjustDark(y - row, x - col))
                   else old(m[y, x])
    {
      for c := -2 to 3
        invariant forall y, x :: 0 <= y < m.Length0 && 0 <= x < m.Length1 ==>
          m[y, x] == if Near(row, y) && Near(col, x) && (y - row < r || (y - row == r && x - col < c))
                     then Some(AdjustDark(y - row, x - col)) else old(m[y, x])
      {
        m[row + r, col + c] := Some(AdjustDark(r, c));
      }
    }
  }

  /** No module is in two adjustment patterns. */
  lemma CoversOnce(pos: seq<nat>, n: nat, i: int, j: int, a: int, b: int, r: int, c: int)
    requires Spread(pos, n) && AdjustCovers(pos, i, j, r, c) && AdjustCovers(pos, a, b, r, c)
    ensures i == a && j == b
  {
    if i < a { SpreadApart(pos, n, i, a); }
    if a < i { SpreadApart(pos, n, a, i); }
    if j < b { SpreadApart(pos, n, j, b); }
    if b < j { SpreadApart(pos, n, b, j); }
  }

  /** The centres that position patterns take are the three corners. */
  lemma CornersTaken(pos: seq<nat>, n: nat, i: nat, j: nat)
    requires Spread(pos, n) && i < |pos| && j < |pos|
    ensures InProbe(n, pos[i], pos[j]) <==> Corner(|pos|, i, j)
    ensures 6 <= pos[i] <= n - 7 && 6 <= pos[j] <= n - 7
  {
    CentreRange(pos, n, i);
    CentreRange(pos, n, j);
  }

  lemma CentreRange(pos: seq<nat>, n: nat, i: nat)
    requires Spread(pos, n) && i < |pos|
    ensures i > 0 ==> pos[i] >= 18
    ensures i < |pos| - 1 ==> pos[i] <= n - 19
    ensures 6 <= pos[i] <= n - 7
  {
    if i > 0 { SpreadApart(pos, n, 0, i); }
    if i < |pos| - 1 { SpreadApart(pos, n, i, |pos| - 1); }
  }

  predicate Before(a: int, b: int, i: int, j: int) {
    a < i || (a == i && b < j)
  }

  /** The state of the loops: the patterns before (i, j) are there, and nothing else has changed. */
  ghost predicate Adjusted(pos: seq<nat>, n: nat, g: Grid, h: Grid, i: int, j: int)
    requires Square(g, n) && Square(h, n)
  {
    && (forall a, b, y, x :: Before(a, b, i, j) && AdjustCovers(pos, a, b, y, x) && 0 <= y < n && 0 <= x < n ==>
          h[y][x] == Some(AdjustDark(y - pos[a], x - pos[b])))
    && (forall y, x :: 0 <= y < n && 0 <= x < n ==>
          h[y][x] == g[y][x] || exists a, b :: Before(a, b, i, j) && AdjustCovers(pos, a, b, y, x))
  }

  /** One pattern more. */
  lemma AdjustedNext(pos: seq<nat>, n: nat, g: Grid, h: Grid, h': Grid, i: nat, j: nat)
    requires Spread(pos, n) && i < |pos| && j < |pos| && !Corner(|pos|, i, j)
    requires Square(g, n) && Square(h, n) && Square(h', n) && Adjusted(pos, n, g, h, i, j)
    requires forall y, x {:trigger h'[y][x]} :: 0 <= y < n && 0 <= x < n ==>
      h'[y][x] == if Near(pos[i], y) && Near(pos[j], x) then Some(AdjustDark(y - pos[i], x - pos[j])) else h[y][x]
    ensures Adjusted(pos, n, g, h', i, j + 1)
  {
    hide AdjustDark, Spread, Near;
    forall a, b, y, x | Before(a, b, i, j + 1) && AdjustCovers(pos, a, b, y, x) && 0 <= y < n && 0 <= x < n
      ensures h'[y][x] == Some(AdjustDark(y - pos[a], x - pos[b]))
    {
      if Near(pos[i], y) && Near(pos[j], x) {
        assert AdjustCovers(pos, i, j, y, x);
        CoversOnce(pos, n, i, j, a, b, y, x);
      } else {
        assert Before(a, b, i, j);
        assert h'[y][x] == h[y][x];
      }
    }
    forall y, x | 0 <= y < n && 0 <= x < n && h'[y][x] != g[y][x]
      ensures exists a, b :: Before(a, b, i, j + 1) && AdjustCovers(pos, a, b, y, x)
    {
      if Near(pos[i], y) && Near(pos[j], x) {
        assert Before(i, j, i, j + 1) && AdjustCovers(pos, i, j, y, x);
      } else {
        assert h[y][x] != g[y][x];
        var a, b :| Before(a, b, i, j) && AdjustCovers(pos, a, b, y, x);
        assert Before(a, b, i, j + 1);
      }
    }
  }

  /** Nothing more, at a corner or at the end of a row. */
  lemma AdjustedSkip(pos: seq<nat>, n: nat, g: Grid, h: Grid, i: nat, j: nat, i': nat, j': nat)
    requires Square(g, n) && Square(h, n) && Adjusted(pos, n, g, h, i, j)
    requires (i' == i && j' == j + 1 && Corner(|pos|, i, j)) || (j == |pos| && i' == i + 1 && j' == 0)
    ensures Adjusted(pos, n, g, h, i', j')
  {
    hide AdjustDark, Near;
    forall a, b, y, x | Before(a, b, i', j') && AdjustCovers(pos, a, b, y, x) ensures Before(a, b, i, j) {}
    forall y, x | 0 <= y < n && 0 <= x < n && h[y][x] != g[y][x]
      ensures exists a, b :: Before(a, b, i', j') && AdjustCovers(pos, a, b, y, x)
    {
      var a, b :| Before(a, b, i, j) && AdjustCovers(pos, a, b, y, x);
      assert Before(a, b, i', j');
    }
  }

  /** The centre of a pattern that is not there yet is as it was. */
  lemma CentreUntouched(pos: seq<nat>, n: nat, g: Grid, h: Grid, i: nat, j: nat)
    requires Spread(pos, n) && i < |pos| && j < |pos| && pos[i] < n && pos[j] < n
    requires Square(g, n) && Square(h, n) && Adjusted(pos, n, g, h, i, j)
    ensures h[pos[i]][pos[j]] == g[pos[i]][pos[j]]
  {
    hide AdjustDark;
    if h[pos[i]][pos[j]] != g[pos[i]][pos[j]] {
      var a, b :| Before(a, b, i, j) && AdjustCovers(pos, a, b, pos[i], pos[j]);
      if a < i { SpreadApart(pos, n, a, i); }
      if b < j { SpreadApart(pos, n, b, j); }
    }
  }

  /** setupPositionAdjustPattern, after the position patterns: every adjustment pattern whose centre is free. */
  method SetupAdjust(m: array2<Option<bool>>, pos: seq<nat>)
    requires m.Length0 == m.Length1 >= 21 && (pos == [] || Spread(pos, m.Length0))
    requires forall y, x :: 0 <= y < m.Length0 && 0 <= x < m.Length1 ==> (m[y, x] != None <==> InProbe(m.Length0, y, x))
    modifies m
    ensures Adjusted(pos, m.Length0, old(GridOf(m)), GridOf(m), |pos|, 0)
  {
    hide Adjusted, Spread, InProbe, Corner;
    var n := m.Length0;
    ghost var g := GridOf(m);
    NothingAdjusted(pos, n, g);
    for i := 0 to |pos|
      invariant Adjusted(pos, n, g, GridOf(m), i, 0)
    {
      for j := 0 to |pos|
        invariant Adjusted(pos, n, g, GridOf(m), i, j)
      {
        ghost var h := GridOf(m);
        CornersTaken(pos, n, i, j);
        CentreUntouched(pos, n, g, h, i, j);
        assert m[pos[i], pos[j]] == h[pos[i]][pos[j]];
        if m[pos[i], pos[j]] != None {
          AdjustedSkip(pos, n, g, h, i, j, i, j + 1);
          continue;
        }
        SetupAdjustAt(m, pos[i], pos[j]);
        AdjustedNext(pos, n, g, h, GridOf(m), i, j);
      }
      AdjustedSkip(pos, n, g, GridOf(m), i, |pos|, i + 1, 0);
    }
  }

  lemma NothingAdjusted(pos: seq<nat>, n: nat, g: Grid)
    requires Square(g, n)
    ensures Adjusted(pos, n, g, g, 0, 0)
  {
  }

  // ---- all patterns together ----

  /** The stages of a matrix. */
  ghost predicate Stages(version: nat, probes: Grid, adjusted: Grid, timed: Grid, typed: Grid, last: Grid, test: bool,
      typeBits: nat, versionBits: nat)
    requires 1 <= version <= 40
  {
    var pos, n := PatternPosition(version), SideOf(version);
    && Square(probes, n) && Square(adjusted, n) && Square(timed, n) && Square(typed, n) && Square(last, n)
    && Probed(probes, n) && Adjusted(pos, n, probes, adjusted, |pos|, 0)
    && Timed(adjusted, timed, n) && Typed(timed, typed, n, test, typeBits)
    && if version >= 7 then Versioned(typed, last, n, test, versionBits) else last == typed
  }

  // ---- the picture ----

  lemma ProbeRings(r: int, c: int)
    ensures InSquare(r, c) <==> Ring(r, c, 3, 3) <= 4
    ensures Ring(r, c, 3, 3) <= 4 ==> (ProbeDark(r, c) <==> Ring(r, c, 3, 3) !in {2, 4})
  {
  }

  lemma AdjustRings(r: int, c: int)
    ensures Ring(r, c, 0, 0) <= 2 ==> (AdjustDark(r, c) <==> Ring(r, c, 0, 0) != 1)
  {
  }

  lemma RingMoved(r: int, c: int, row: int, col: int, dr: int, dc: int)
    ensures Ring(r - dr, c - dc, row, col) == Ring(r, c, row + dr, col + dc)
  {
  }

  lemma ProbesFirst(g: Grid, n: nat)
    requires Square(g, n) && n >= 21 && Probed(g, n)
    ensures ProbesDrawn(g, n)
  {
    hide Ring, ProbeDark;
    forall r, c | 0 <= r < n && 0 <= c < n
      ensures Ring(r, c, 3, 3) <= 4 ==> g[r][c] == Some(Ring(r, c, 3, 3) !in {2, 4})
      ensures Ring(r, c, n - 4, 3) <= 4 ==> g[r][c] == Some(Ring(r, c, n - 4, 3) !in {2, 4})
      ensures Ring(r, c, 3, n - 4) <= 4 ==> g[r][c] == Some(Ring(r, c, 3, n - 4) !in {2, 4})
    {
      ProbeRings(r, c);
      ProbeRings(r - n + 7, c);
      ProbeRings(r, c - n + 7);
      RingMoved(r, c, 3, 3, n - 7, 0);
      RingMoved(r, c, 3, 3, 0, n - 7);
    }
  }

  /** A matrix that has kept what is near the centre of a position pattern. */
  lemma ProbesStay(g: Grid, h: Grid, n: nat)
    requires Square(g, n) && Square(h, n) && n >= 21 && ProbesDrawn(g, n)
    requires forall r, c :: 0 <= r < n && 0 <= c < n && InProbe(n, r, c) ==> h[r][c] == g[r][c]
    ensures ProbesDrawn(h, n)
  {
    forall r, c | 0 <= r < n && 0 <= c < n
      ensures Ring(r, c, 3, 3) <= 4 || Ring(r, c, n - 4, 3) <= 4 || Ring(r, c, 3, n - 4) <= 4 ==> InProbe(n, r, c)
    {
    }
    hide Ring, InProbe;
  }

  /** An adjustment pattern keeps clear of the position patterns, the type and the version information. */
  lemma AdjustClear(pos: seq<nat>, n: nat, i: int, j: int, r: int, c: int)
    requires n >= 21 && Spread(pos, n) && AdjustCovers(pos, i, j, r, c)
    ensures !InProbe(n, r, c) && !InTypeInfo(n, r, c) && !InVersion(n, r, c)
  {
    CentreRange(pos, n, i);
    CentreRange(pos, n, j);
  }

  /** The crossings that are left out are the corners. */
  lemma CornerCentres(pos: seq<nat>, n: nat, i: nat, j: nat)
    requires Spread(pos, n) && i < |pos| && j < |pos|
    ensures (pos[i], pos[j]) in {(6, 6), (6, n - 7), (n - 7, 6)} <==> Corner(|pos|, i, j)
  {
    CentreRange(pos, n, i);
    CentreRange(pos, n, j);
  }

  lemma AdjustFirst(pos: seq<nat>, n: nat, g: Grid, h: Grid)
    requires n >= 21 && (pos == [] || Spread(pos, n)) && Square(g, n) && Square(h, n)
    requires Adjusted(pos, n, g, h, |pos|, 0) && ProbesDrawn(g, n)
    ensures AdjustDrawn(h, n, pos) && ProbesDrawn(h, n)
  {
    hide Spread, Corner, AdjustDark, ProbesDrawn, InProbe;
    forall i, j, r, c |
      0 <= i < |pos| && 0 <= j < |pos| && (pos[i], pos[j]) !in {(6, 6), (6, n - 7), (n - 7, 6)}
      && 0 <= r < n && 0 <= c < n && Ring(r, c, pos[i], pos[j]) <= 2
      ensures h[r][c] == Some(Ring(r, c, pos[i], pos[j]) != 1)
    {
      CornerCentres(pos, n, i, j);
      assert Before(i, j, |pos|, 0) && AdjustCovers(pos, i, j, r, c);
      AdjustRings(r - pos[i], c - pos[j]);
    }
    forall r, c | 0 <= r < n && 0 <= c < n && InProbe(n, r, c)
      ensures h[r][c] == g[r][c]
    {
      if h[r][c] != g[r][c] {
        var a, b :| Before(a, b, |pos|, 0) && AdjustCovers(pos, a, b, r, c);
        AdjustClear(pos, n, a, b, r, c);
      }
    }
    ProbesStay(g, h, n);
  }

  /** A matrix that has kept what the adjustment patterns cover. */
  lemma AdjustStays(pos: seq<nat>, n: nat, g: Grid, h: Grid)
    requires pos == [] || Spread(pos, n)
    requires Square(g, n) && Square(h, n) && AdjustDrawn(g, n, pos)
    requires forall i, j, r, c :: AdjustCovers(pos, i, j, r, c) && 0 <= r < n && 0 <= c < n ==> h[r][c] == g[r][c]
    ensures AdjustDrawn(h, n, pos)
  {
    hide Spread, Corner;
    forall i, j, r, c |
      0 <= i < |pos| && 0 <= j < |pos| && (pos[i], pos[j]) !in {(6, 6), (6, n - 7), (n - 7, 6)}
      && 0 <= r < n && 0 <= c < n && Ring(r, c, pos[i], pos[j]) <= 2
      ensures h[r][c] == Some(Ring(r, c, pos[i], pos[j]) != 1)
    {
      CornerCentres(pos, n, i, j);
      assert AdjustCovers(pos, i, j, r, c);
    }
  }

  lemma {:induction false} SteppedEven(version: nat, pos: seq<nat>, n: nat, i: nat)
    requires Spread(pos, n) && Stepped(version, pos) && n % 2 == 1 && i < |pos|
    ensures pos[i] % 2 == 0
    decreases |pos| - i
  {
    if i == 0 || i == |pos| - 1 {
    } else {
      SteppedEven(version, pos, n, i + 1);
    }
  }

  ghost predicate EvenPlaces(pos: seq<nat>, n: nat) {
    (pos == [] || Spread(pos, n)) && forall i :: 0 <= i < |pos| ==> pos[i] % 2 == 0
  }

  lemma PositionsEven(version: nat)
    requires 1 <= version <= 40
    ensures EvenPlaces(PatternPosition(version), SideOf(version))
  {
    PositionsSpread(version);
    PositionsStepped(version);
    hide PatternPosition, Spread, Stepped, SideOf;
    var pos, n := PatternPosition(version), SideOf(version);
    forall i | 0 <= i < |pos|
      ensures pos[i] % 2 == 0
    {
      SteppedEven(version, pos, n, i);
    }
  }

  /** Where an adjustment pattern lies across a timing pattern it has the same colours. */
  lemma TimingAgrees(pos: seq<nat>, n: nat, a: int, b: int, k: int)
    requires EvenPlaces(pos, n) && 8 <= k < n - 8
    ensures AdjustCovers(pos, a, b, 6, k) ==> AdjustDark(6 as int - pos[a], k - pos[b]) == (k % 2 == 0)
    ensures AdjustCovers(pos, a, b, k, 6) ==> AdjustDark(k - pos[a], 6 as int - pos[b]) == (k % 2 == 0)
  {
    if AdjustCovers(pos, a, b, 6, k) || AdjustCovers(pos, a, b, k, 6) {
      CentreRange(pos, n, a);
      CentreRange(pos, n, b);
    }
  }

  lemma TimingEmpty(probes: Grid, n: nat, k: int)
    requires n >= 21 && Square(probes, n) && Probed(probes, n) && 8 <= k < n - 8
    ensures probes[6][k] == None && probes[k][6] == None
  {
    hide ProbeDark;
    assert !InSquare(6, k - n + 7) && !InSquare(13 - n, k) && !InSquare(6, k);
    assert !InSquare(k, 13 - n) && !InSquare(k - n + 7, 6) && !InSquare(k, 6);
  }

  /** A module of a timing pattern that is taken already is in an adjustment pattern. */
  lemma TimingModule(pos: seq<nat>, n: nat, probes: Grid, g: Grid, k: int)
    requires n >= 21 && EvenPlaces(pos, n) && Square(probes, n) && Square(g, n) && 8 <= k < n - 8
    requires Probed(probes, n) && Adjusted(pos, n, probes, g, |pos|, 0)
    ensures g[6][k] == None || g[6][k] == Some(k % 2 == 0)
    ensures g[k][6] == None || g[k][6] == Some(k % 2 == 0)
  {
    TimingEmpty(probes, n, k);
    hide AdjustDark, Probed, EvenPlaces, Near;
    if g[6][k] != probes[6][k] {
      var a, b :| Before(a, b, |pos|, 0) && AdjustCovers(pos, a, b, 6, k);
      TimingAgrees(pos, n, a, b, k);
    }
    if g[k][6] != probes[k][6] {
      var a, b :| Before(a, b, |pos|, 0) && AdjustCovers(pos, a, b, k, 6);
      TimingAgrees(pos, n, a, b, k);
    }
  }

  /** The timing patterns, over matrices with position and adjustment patterns. */
  lemma TimingFirst(pos: seq<nat>, n: nat, probes: Grid, g: Grid, h: Grid)
    requires n >= 21 && EvenPlaces(pos, n) && Square(probes, n) && Square(g, n) && Square(h, n)
    requires Probed(probes, n) && Adjusted(pos, n, probes, g, |pos|, 0) && Timed(g, h, n)
    ensures TimingDrawn(h, n)
  {
    hide Probed, Adjusted, EvenPlaces;
    forall k | 8 <= k < n - 8
      ensures h[6][k] == Some(k % 2 == 0) && h[k][6] == Some(k % 2 == 0)
    {
      TimingModule(pos, n, probes, g, k);
    }
  }

  lemma TypeFirst(g: Grid, h: Grid, n: nat, test: bool, bits: nat)
    requires n >= 21 && Square(g, n) && Square(h, n) && Typed(g, h, n, test, bits)
    ensures TypeDrawn(h, n, test, bits)
  {
    hide Bit;
    var rows: seq<int> := [0, 1, 2, 3, 4, 5, 7, 8, n - 7, n - 6, n - 5, n - 4, n - 3, n - 2, n - 1];
    var columns: seq<int> := [n - 1, n - 2, n - 3, n - 4, n - 5, n - 6, n - 7, n - 8, 7, 5, 4, 3, 2, 1, 0];
    forall i | 0 <= i < 15
      ensures h[rows[i]][8] == Some(!test && Bit(bits, i)) && h[8][columns[i]] == Some(!test && Bit(bits, i))
    {
      assert RowIndex(n, rows[i], 8) == i && ColumnIndex(n, 8, columns[i]) == i;
    }
  }

  lemma VersionFirst(g: Grid, h: Grid, n: nat, test: bool, bits: nat)
    requires n >= 21 && Square(g, n) && Square(h, n) && Versioned(g, h, n, test, bits)
    ensures VersionDrawn(h, n, test, bits)
  {
    hide Bit;
    forall i | 0 <= i < 18
      ensures h[i / 3][n - 11 + i % 3] == Some(!test && Bit(bits, i))
      ensures h[n - 11 + i % 3][i / 3] == Some(!test && Bit(bits, i))
    {
      VersionInverse(n, i, i / 3, n - 11 + i % 3);
      NoOverlap(n, i / 3, n - 11 + i % 3);
    }
  }

  /** Position and adjustment patterns outlast the timing patterns. */
  lemma StageTiming(pos: seq<nat>, n: nat, probes: Grid, g: Grid, h: Grid)
    requires n >= 21 && EvenPlaces(pos, n) && Square(probes, n) && Square(g, n) && Square(h, n)
    requires Probed(probes, n) && Adjusted(pos, n, probes, g, |pos|, 0) && Timed(g, h, n)
    requires ProbesDrawn(g, n) && AdjustDrawn(g, n, pos)
    ensures ProbesDrawn(h, n) && AdjustDrawn(h, n, pos) && TimingDrawn(h, n)
  {
    TimingFirst(pos, n, probes, g, h);
    hide Spread, Corner, AdjustDark, ProbesDrawn, AdjustDrawn, TimingDrawn, Probed, Near;
    forall r, c | 0 <= r < n && 0 <= c < n && InProbe(n, r, c)
      ensures h[r][c] == g[r][c]
    {
      assert !InTiming(n, r, c);
    }
    ProbesStay(g, h, n);
    forall i, j, r, c | AdjustCovers(pos, i, j, r, c) && 0 <= r < n && 0 <= c < n
      ensures h[r][c] == g[r][c]
    {
      assert Before(i, j, |pos|, 0);
    }
    AdjustStays(pos, n, g, h);
  }

  /** And the type information. */
  lemma StageType(pos: seq<nat>, n: nat, g: Grid, h: Grid, test: bool, bits: nat)
    requires n >= 21 && (pos == [] || Spread(pos, n)) && Square(g, n) && Square(h, n) && Typed(g, h, n, test, bits)
    requires ProbesDrawn(g, n) && AdjustDrawn(g, n, pos) && TimingDrawn(g, n)
    ensures ProbesDrawn(h, n) && AdjustDrawn(h, n, pos) && TimingDrawn(h, n) && TypeDrawn(h, n, test, bits)
  {
    TypeFirst(g, h, n, test, bits);
    hide Spread, Corner, ProbesDrawn, AdjustDrawn, TypeDrawn, Bit;
    forall r, c | 0 <= r < n && 0 <= c < n && InProbe(n, r, c)
      ensures h[r][c] == g[r][c]
    {
      assert !InTypeInfo(n, r, c);
    }
    ProbesStay(g, h, n);
    forall i, j, r, c | AdjustCovers(pos, i, j, r, c) && 0 <= r < n && 0 <= c < n
      ensures h[r][c] == g[r][c]
    {
      AdjustClear(pos, n, i, j, r, c);
    }
    AdjustStays(pos, n, g, h);
    assert forall k :: 8 <= k < n - 8 ==> h[6][k] == g[6][k] && h[k][6] == g[k][6];
  }

  /** And the version information. */
  lemma StageVersion(pos: seq<nat>, n: nat, g: Grid, h: Grid, test: bool, typeBits: nat, bits: nat)
    requires n >= 21 && (pos == [] || Spread(pos, n)) && Square(g, n) && Square(h, n) && Versioned(g, h, n, test, bits)
    requires ProbesDrawn(g, n) && AdjustDrawn(g, n, pos) && TimingDrawn(g, n) && TypeDrawn(g, n, test, typeBits)
    ensures ProbesDrawn(h, n) && AdjustDrawn(h, n, pos) && TimingDrawn(h, n) && TypeDrawn(h, n, test, typeBits)
    ensures VersionDrawn(h, n, test, bits)
  {
    VersionFirst(g, h, n, test, bits);
    hide Spread, Corner, ProbesDrawn, AdjustDrawn, TypeDrawn, TimingDrawn, VersionDrawn, Bit;
    forall r, c | 0 <= r < n && 0 <= c < n && InProbe(n, r, c)
      ensures h[r][c] == g[r][c]
    {
      assert !InVersion(n, r, c);
    }
    ProbesStay(g, h, n);
    forall i, j, r, c | AdjustCovers(pos, i, j, r, c) && 0 <= r < n && 0 <= c < n
      ensures h[r][c] == g[r][c]
    {
      AdjustClear(pos, n, i, j, r, c);
    }
    AdjustStays(pos, n, g, h);
    RowsStay(n, g, h, test, bits);
    hide Versioned;
    TimingStays(g, h, n);
    TypeStays(g, h, n, test, typeBits);
  }

  lemma TimingStays(g: Grid, h: Grid, n: nat)
    requires Square(g, n) && Square(h, n) && TimingDrawn(g, n)
    requires n > 6 && forall k :: 0 <= k < n ==> h[6][k] == g[6][k] && h[k][6] == g[k][6]
    ensures TimingDrawn(h, n)
  {
  }

  lemma TypeStays(g: Grid, h: Grid, n: nat, test: bool, bits: nat)
    requires n >= 21 && Square(g, n) && Square(h, n) && TypeDrawn(g, n, test, bits)
    requires forall k :: 0 <= k < n ==> h[8][k] == g[8][k] && h[k][8] == g[k][8]
    ensures TypeDrawn(h, n, test, bits)
  {
    hide Bit;
  }

  /** The version information keeps clear of rows and columns 6 and 8. */
  lemma RowsStay(n: nat, g: Grid, h: Grid, test: bool, bits: nat)
    requires n >= 21 && Square(g, n) && Square(h, n) && Versioned(g, h, n, test, bits)
    ensures forall k :: 0 <= k < n ==> h[6][k] == g[6][k] && h[k][6] == g[k][6]
    ensures forall k :: 0 <= k < n ==> h[8][k] == g[8][k] && h[k][8] == g[k][8]
  {
    forall k | 0 <= k < n
      ensures h[6][k] == g[6][k] && h[k][6] == g[k][6] && h[8][k] == g[8][k] && h[k][8] == g[k][8]
    {
      assert !InVersion(n, 6, k) && !InVersion(n, k, 6) && !InVersion(n, 8, k) && !InVersion(n, k, 8);
    }
  }

  lemma ProbesTaken(g: Grid, n: nat)
    requires Square(g, n) && n >= 21 && Probed(g, n)
    ensures forall r, c :: 0 <= r < n && 0 <= c < n ==> (g[r][c] != None <==> InProbe(n, r, c))
  {
    hide ProbeDark;
  }

  /** The position patterns in a new matrix. */
  method SetupProbes(n: nat) returns (m: array2<Option<bool>>)
    requires n >= 21
    ensures fresh(m) && m.Length0 == m.Length1 == n && Probed(GridOf(m), n)
  {
    hide ProbeDark;
    m := new Option<bool>[n, n]((_, _) => None);
    SetupProbe(m, 0, 0);
    SetupProbe(m, n - 7, 0);
    SetupProbe(m, 0, n - 7);
  }

  /** The stages taken together: which modules are taken. */
  lemma StagesTaken(version: nat, probes: Grid, adjusted: Grid, timed: Grid, typed: Grid, last: Grid, test: bool,
      typeBits: nat, versionBits: nat)
    requires 1 <= version <= 40
    requires Stages(version, probes, adjusted, timed, typed, last, test, typeBits, versionBits)
    ensures Square(last, SideOf(version)) && Patterned(last, version)
  {
    var pos, n := PatternPosition(version), SideOf(version);
    PositionsGood(version);
    AdjustedTaken(pos, n, probes, adjusted);
    ProbesTaken(probes, n);
    hide PatternPosition, SideOf, Spread, Adjusted, InAdjust, InProbe, InTiming, RowIndex, ColumnIndex, VersionIndex,
      Probed, Bit;
    forall r, c | 0 <= r < n && 0 <= c < n
      ensures last[r][c] != None <==> Reserved(version, r, c)
    {
      assert timed[r][c] != None <==> adjusted[r][c] != None || InTiming(n, r, c);
      assert typed[r][c] != None <==> timed[r][c] != None || InTypeInfo(n, r, c);
    }
  }

  /** And what they look like. */
  lemma StagesDrawn(version: nat, probes: Grid, adjusted: Grid, timed: Grid, typed: Grid, last: Grid, test: bool,
      typeBits: nat, versionBits: nat)
    requires 1 <= version <= 40
    requires Stages(version, probes, adjusted, timed, typed, last, test, typeBits, versionBits)
    ensures Square(last, SideOf(version)) && Drawn(last, version, test, typeBits, versionBits)
  {
    var pos, n := PatternPosition(version), SideOf(version);
    PositionsGood(version);
    PositionsEven(version);
    hide PatternPosition, SideOf, EvenPlaces, Spread, Adjusted, Probed, Timed, Typed, Versioned, ProbesDrawn,
      AdjustDrawn, TimingDrawn, TypeDrawn, VersionDrawn;
    ProbesFirst(probes, n);
    AdjustFirst(pos, n, probes, adjusted);
    StageTiming(pos, n, probes, adjusted, timed);
    StageType(pos, n, timed, typed, test, typeBits);
    if version >= 7 { StageVersion(pos, n, typed, last, test, typeBits, versionBits); }
  }

  /** makeImpl up to the data: a new matrix with the patterns of a version. */
  method SetupPatterns(version: nat, test: bool, typeBits: nat, versionBits: nat) returns (m: array2<Option<bool>>)
    requires 1 <= version <= 40
    ensures fresh(m) && m.Length0 == m.Length1 == SideOf(version)
    ensures Patterned(GridOf(m), version) && Drawn(GridOf(m), version, test, typeBits, versionBits)
  {
    hide PatternPosition, Spread, Adjusted, Probed, Timed, Typed, Versioned, Patterned, Drawn;
    var n := SideOf(version);
    m := SetupProbes(n);
    ghost var probes := GridOf(m);
    ProbesTaken(probes, n);
    assert forall y, x :: 0 <= y < n && 0 <= x < n ==> m[y, x] == probes[y][x];
    var pos := PatternPosition(version);
    PositionsGood(version);
    SetupAdjust(m, pos);
    ghost var adjusted := GridOf(m);
    SetupTiming(m);
    ghost var timed := GridOf(m);
    SetupTypeInfo(m, test, typeBits);
    ghost var typed := GridOf(m);
    if version >= 7 { SetupTypeNumber(m, test, versionBits); }
    StagesTaken(version, probes, adjusted, timed, typed, GridOf(m), test, typeBits, versionBits);
    StagesDrawn(version, probes, adjusted, timed, typed, GridOf(m), test, typeBits, versionBits);
  }

  /** Nothing that was there has changed. */
  ghost predicate Keeps(g: Grid, h: Grid, n: nat)
    requires Square(g, n) && Square(h, n)
  {
    forall r, c :: 0 <= r < n && 0 <= c < n && g[r][c] != None ==> h[r][c] == g[r][c]
  }

  lemma RingsKept(g: Grid, h: Grid, n: nat, pos: seq<nat>)
    requires Square(g, n) && Square(h, n) && Keeps(g, h, n) && ProbesDrawn(g, n) && AdjustDrawn(g, n, pos)
    ensures ProbesDrawn(h, n) && AdjustDrawn(h, n, pos)
  {
    hide Ring;
  }

  lemma TypeKept(g: Grid, h: Grid, n: nat, test: bool, bits: nat)
    requires n >= 21 && Square(g, n) && Square(h, n) && Keeps(g, h, n) && TypeDrawn(g, n, test, bits)
    ensures TypeDrawn(h, n, test, bits)
  {
    hide Bit;
  }

  lemma LinesKept(g: Grid, h: Grid, n: nat, test: bool, bits: nat)
    requires n >= 21 && Square(g, n) && Square(h, n) && Keeps(g, h, n)
    ensures TimingDrawn(g, n) ==> TimingDrawn(h, n)
    ensures VersionDrawn(g, n, test, bits) ==> VersionDrawn(h, n, test, bits)
  {
    hide Bit;
  }

  /** What is placed later only on free modules leaves the picture as it is. */
  lemma DrawnStays(g: Grid, h: Grid, version: nat, test: bool, typeBits: nat, versionBits: nat)
    requires 1 <= version <= 40 && Square(g, SideOf(version)) && Square(h, SideOf(version))
    requires Drawn(g, version, test, typeBits, versionBits) && Keeps(g, h, SideOf(version))
    ensures Drawn(h, version, test, typeBits, versionBits)
  {
    hide PatternPosition, SideOf, Keeps, ProbesDrawn, AdjustDrawn, TimingDrawn, TypeDrawn, VersionDrawn;
    var n := SideOf(version);
    RingsKept(g, h, n, PatternPosition(version));
    TypeKept(g, h, n, test, typeBits);
    LinesKept(g, h, n, test, versionBits);
  }

  lemma PositionsGood(version: nat)
    requires 1 <= version <= 40
    ensures PatternPosition(version) == [] || Spread(PatternPosition(version), SideOf(version))
  {
    hide PatternPosition, Spread;
    PositionsSpread(version);
  }

  lemma AdjustedTaken(pos: seq<nat>, n: nat, g: Grid, h: Grid)
    requires Square(g, n) && Square(h, n) && Adjusted(pos, n, g, h, |pos|, 0)
    ensures forall y, x :: 0 <= y < n && 0 <= x < n ==> (h[y][x] != None <==> g[y][x] != None || InAdjust(pos, y, x))
  {
    hide AdjustDark, Near;
    forall y, x | 0 <= y < n && 0 <= x < n
      ensures h[y][x] != None <==> g[y][x] != None || InAdjust(pos, y, x)
    {
      if InAdjust(pos, y, x) {
        var a, b :| 0 <= a < |pos| && 0 <= b < |pos| && AdjustCovers(pos, a, b, y, x);
        assert Before(a, b, |pos|, 0);
      }
    }
  }
}
