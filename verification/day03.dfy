/** Day 3, "Gear Ratios": the puzzle input is a grid of characters. A part
    number is a maximal run of digits that borders a symbol; part 1 sums
    them. A gear is a `*` bordered by exactly two numbers; part 2 sums the
    products of those pairs. */
module Schematic {
  import opened Text

  /** A cell position: column `x`, row `y`. */
  datatype Coord = Coord(x: nat, y: nat)

  /** A character of the grid with the position it was read from. */
  datatype Cell = Cell(ch: char, at: Coord)

  /** The schematic: its lines, top to bottom. */
  type Grid = seq<string>

  /** Every row is as long as the first one. */
  function Width(grid: Grid): nat {
    if |grid| == 0 then 0 else |grid[0]|
  }

  predicate Rectangular(grid: Grid) {
    forall y :: 0 <= y < |grid| ==> |grid[y]| == Width(grid)
  }

  predicate InGrid(grid: Grid, c: Coord) {
    c.y < |grid| && c.x < Width(grid)
  }

  /** The cell at `c` holds a `*`. */
  predicate StarAt(grid: Grid, c: Coord)
    requires Rectangular(grid)
  {
    InGrid(grid, c) && grid[c.y][c.x] == '*'
  }

  // ---------------------------------------------------------------------
  // Symbols

  /** The character class `[^\w.\n]`. */
  predicate IsSymbol(c: char) {
    !IsWordChar(c) && c != '.' && c != '\n'
  }

  /** `re.search(r"[^\w.\n]", s)` succeeds: the search tries each position
      from the left. */
  function ContainsSymbol(s: string): bool {
    |s| > 0 && (IsSymbol(s[0]) || ContainsSymbol(s[1..]))
  }

  /** The search succeeds exactly when some character is a symbol. */
  lemma {:induction false} ContainsSymbolIff(s: string)
    ensures ContainsSymbol(s) <==> exists k :: 0 <= k < |s| && IsSymbol(s[k])
  {
    if |s| > 0 {
      ContainsSymbolIff(s[1..]);
      if exists k :: 0 <= k < |s| && IsSymbol(s[k]) {
        var k :| 0 <= k < |s| && IsSymbol(s[k]);
        if k > 0 {
          assert s[1..][k - 1] == s[k];
        }
      }
      if exists k :: 0 <= k < |s[1..]| && IsSymbol(s[1..][k]) {
        var k :| 0 <= k < |s[1..]| && IsSymbol(s[1..][k]);
        assert s[k + 1] == s[1..][k];
      }
    }
  }

  // ---------------------------------------------------------------------
  // The cells bordering a run

  /** A run of `len` cells from column `x` of row `y`, inside a rectangular
      grid. */
  predicate ValidQuery(grid: Grid, x: nat, y: nat, len: nat) {
    Rectangular(grid) && y < |grid| && 1 <= len && x + len <= Width(grid)
  }

  /** `c` borders the run: at most one row and one column away from one of
      its cells, and not one of them. */
  predicate Adjacent(c: Coord, x: nat, y: nat, len: nat) {
    && c.y + 1 >= y && c.y <= y + 1
    && c.x + 1 >= x && c.x <= x + len
    && !(c.y == y && x <= c.x < x + len)
  }

  /** Columns `lo..hi` (inclusive) of a row, left to right. */
  function Segment(grid: Grid, row: nat, lo: nat, hi: nat): (cells: seq<Cell>)
    requires row < |grid| && lo <= hi < |grid[row]|
    ensures |cells| == hi - lo + 1
  {
    seq(hi - lo + 1, k requires 0 <= k < hi - lo + 1 => Cell(grid[row][lo + k], Coord(lo + k, row)))
  }

  /** `x_start`: one column left of the run, clipped to the grid. */
  function Lo(x: nat): nat {
    if x >= 1 then x - 1 else 0
  }

  /** `x_end`: one column right of the run, clipped to the grid. */
  function Hi(grid: Grid, x: nat, len: nat): nat
    requires 1 <= x + len <= Width(grid)
  {
    if x + len <= Width(grid) - 1 then x + len else Width(grid) - 1
  }

  /** The row above the run, from `x_start` to `x_end`. */
  function RowAbove(grid: Grid, x: nat, y: nat, len: nat): seq<Cell>
    requires ValidQuery(grid, x, y, len)
  {
    if y > 0 then Segment(grid, y - 1, Lo(x), Hi(grid, x, len)) else []
  }

  /** The cell left of the run, if the run does not start the row. */
  function LeftOf(grid: Grid, x: nat, y: nat, len: nat): seq<Cell>
    requires ValidQuery(grid, x, y, len)
  {
    if x >= 1 then [Cell(grid[y][x - 1], Coord(x - 1, y))] else []
  }

  /** The cell right of the run, if the run does not end the row. */
  function RightOf(grid: Grid, x: nat, y: nat, len: nat): seq<Cell>
    requires ValidQuery(grid, x, y, len)
  {
    if x + len <= Width(grid) - 1 then [Cell(grid[y][x + len], Coord(x + len, y))] else []
  }

  /** The row below the run, from `x_start` to `x_end`. */
  function RowBelow(grid: Grid, x: nat, y: nat, len: nat): seq<Cell>
    requires ValidQuery(grid, x, y, len)
  {
    if y < |grid| - 1 then Segment(grid, y + 1, Lo(x), Hi(grid, x, len)) else []
  }

  /** `get_adjacent_chars`: the row above, the cells left and right of the
      run, then the row below, each clipped to the grid. */
  function AdjacentCells(grid: Grid, x: nat, y: nat, len: nat): (cells: seq<Cell>)
    requires ValidQuery(grid, x, y, len)
  {
    RowAbove(grid, x, y, len) + LeftOf(grid, x, y, len) + RightOf(grid, x, y, len) + RowBelow(grid, x, y, len)
  }

  /** The yielded cell is a cell of the grid that borders the run. */
  predicate Good(grid: Grid, x: nat, y: nat, len: nat, cell: Cell)
    requires Rectangular(grid)
  {
    InGrid(grid, cell.at) && Adjacent(cell.at, x, y, len) && cell.ch == grid[cell.at.y][cell.at.x]
  }

  /** `p` comes before `q` in reading order. */
  predicate Before(p: Coord, q: Coord) {
    p.y < q.y || (p.y == q.y && p.x < q.x)
  }

  predicate InReadingOrder(cells: seq<Cell>) {
    forall i, j :: 0 <= i < j < |cells| ==> Before(cells[i].at, cells[j].at)
  }

  predicate AllBefore(a: seq<Cell>, b: seq<Cell>) {
    forall p, q :: p in a && q in b ==> Before(p.at, q.at)
  }

  lemma SegmentFacts(grid: Grid, row: nat, lo: nat, hi: nat)
    requires row < |grid| && lo <= hi < |grid[row]|
    ensures InReadingOrder(Segment(grid, row, lo, hi))
    ensures forall cell :: cell in Segment(grid, row, lo, hi) ==>
              cell.at.y == row && lo <= cell.at.x <= hi && cell.ch == grid[row][cell.at.x]
  {
    var cells := Segment(grid, row, lo, hi);
    forall cell | cell in cells
      ensures cell.at.y == row && lo <= cell.at.x <= hi && cell.ch == grid[row][cell.at.x]
    {
      var k :| 0 <= k < |cells| && cells[k] == cell;
    }
  }

  lemma RowAboveFacts(grid: Grid, x: nat, y: nat, len: nat)
    requires ValidQuery(grid, x, y, len)
    ensures InReadingOrder(RowAbove(grid, x, y, len))
    ensures forall cell :: cell in RowAbove(grid, x, y, len) ==>
              cell.at.y + 1 == y && Good(grid, x, y, len, cell)
  {
    if y > 0 {
      SegmentFacts(grid, y - 1, Lo(x), Hi(grid, x, len));
    }
  }

  lemma RowBelowFacts(grid: Grid, x: nat, y: nat, len: nat)
    requires ValidQuery(grid, x, y, len)
    ensures InReadingOrder(RowBelow(grid, x, y, len))
    ensures forall cell :: cell in RowBelow(grid, x, y, len) ==>
              cell.at.y == y + 1 && Good(grid, x, y, len, cell)
  {
    if y < |grid| - 1 {
      SegmentFacts(grid, y + 1, Lo(x), Hi(grid, x, len));
    }
  }

  lemma SidesFacts(grid: Grid, x: nat, y: nat, len: nat)
    requires ValidQuery(grid, x, y, len)
    ensures |LeftOf(grid, x, y, len)| <= 1 && |RightOf(grid, x, y, len)| <= 1
    ensures forall cell :: cell in LeftOf(grid, x, y, len) ==>
              cell.at == Coord(x - 1, y) && Good(grid, x, y, len, cell)
    ensures forall cell :: cell in RightOf(grid, x, y, len) ==>
              cell.at == Coord(x + len, y) && Good(grid, x, y, len, cell)
  {
  }

  /** Every yielded cell lies in the grid, borders the run, and carries the
      grid's character at its position. */
  lemma AdjacentCellsSound(grid: Grid, x: nat, y: nat, len: nat)
    requires ValidQuery(grid, x, y, len)
    ensures forall cell :: cell in AdjacentCells(grid, x, y, len) ==>
              && InGrid(grid, cell.at)
              && Adjacent(cell.at, x, y, len)
              && cell.ch == grid[cell.at.y][cell.at.x]
  {
    RowAboveFacts(grid, x, y, len);
    RowBelowFacts(grid, x, y, len);
    SidesFacts(grid, x, y, len);
  }

  /** Every cell of the grid that borders the run is yielded. */
  lemma AdjacentCellsComplete(grid: Grid, x: nat, y: nat, len: nat)
    requires ValidQuery(grid, x, y, len)
    ensures forall c :: InGrid(grid, c) && Adjacent(c, x, y, len) ==>
              Cell(grid[c.y][c.x], c) in AdjacentCells(grid, x, y, len)
  {
    forall c | InGrid(grid, c) && Adjacent(c, x, y, len)
      ensures Cell(grid[c.y][c.x], c) in AdjacentCells(grid, x, y, len)
    {
      var cell := Cell(grid[c.y][c.x], c);
      if c.y + 1 == y {
        assert RowAbove(grid, x, y, len)[c.x - Lo(x)] == cell;
      } else if c.y == y + 1 {
        assert RowBelow(grid, x, y, len)[c.x - Lo(x)] == cell;
      } else if c.x + 1 == x {
        assert LeftOf(grid, x, y, len)[0] == cell;
      } else {
        assert RightOf(grid, x, y, len)[0] == cell;
      }
    }
  }

  lemma OrderedConcat(a: seq<Cell>, b: seq<Cell>)
    requires InReadingOrder(a) && InReadingOrder(b) && AllBefore(a, b)
    ensures InReadingOrder(a + b)
  {
    forall i, j | 0 <= i < j < |a + b|
      ensures Before((a + b)[i].at, (a + b)[j].at)
    {
      if j < |a| {
        assert (a + b)[i] == a[i] && (a + b)[j] == a[j];
      } else if i >= |a| {
        assert (a + b)[i] == b[i - |a|] && (a + b)[j] == b[j - |a|];
      } else {
        assert (a + b)[i] in a && (a + b)[j] in b;
      }
    }
  }

  lemma OrderedFour(a: seq<Cell>, b: seq<Cell>, c: seq<Cell>, d: seq<Cell>)
    requires InReadingOrder(a) && InReadingOrder(b) && InReadingOrder(c) && InReadingOrder(d)
    requires AllBefore(a, b + c + d) && AllBefore(b, c + d) && AllBefore(c, d)
    ensures InReadingOrder(a + b + c + d)
  {
    assert b + c + d == b + (c + d);
    OrderedConcat(c, d);
    OrderedConcat(b, c + d);
    OrderedConcat(a, b + (c + d));
    assert a + b + c + d == a + (b + (c + d));
  }

  /** The cells are yielded in reading order. */
  lemma AdjacentCellsOrdered(grid: Grid, x: nat, y: nat, len: nat)
    requires ValidQuery(grid, x, y, len)
    ensures InReadingOrder(AdjacentCells(grid, x, y, len))
  {
    var above, left, right, below :=
      RowAbove(grid, x, y, len), LeftOf(grid, x, y, len), RightOf(grid, x, y, len), RowBelow(grid, x, y, len);
    RowAboveFacts(grid, x, y, len);
    RowBelowFacts(grid, x, y, len);
    SidesFacts(grid, x, y, len);
    assert AllBefore(above, left + right + below) by {
      assert forall p: Cell :: p in left + right + below ==> p.at.y >= y;
    }
    assert AllBefore(left, right + below);
    assert AllBefore(right, below);
    OrderedFour(above, left, right, below);
  }

  /** So no coordinate is yielded twice. */
  lemma AdjacentCellsDistinct(grid: Grid, x: nat, y: nat, len: nat)
    requires ValidQuery(grid, x, y, len)
    ensures forall i, j :: 0 <= i < j < |AdjacentCells(grid, x, y, len)| ==>
              AdjacentCells(grid, x, y, len)[i].at != AdjacentCells(grid, x, y, len)[j].at
  {
    AdjacentCellsOrdered(grid, x, y, len);
  }

  // ---------------------------------------------------------------------
  // Part 1: part numbers

  /** The characters of the yielded cells, joined. */
  function Chars(cells: seq<Cell>): (s: string)
    ensures |s| == |cells|
    ensures forall k :: 0 <= k < |s| ==> s[k] == cells[k].ch
  {
    seq(|cells|, k requires 0 <= k < |cells| => cells[k].ch)
  }

  /** A digit run found by the scan, with the row it was found on. */
  datatype Found = Found(y: nat, run: Run)

  /** The run lies inside its row of a rectangular grid and is all digits. */
  predicate Fits(grid: Grid, f: Found) {
    ValidQuery(grid, f.run.start, f.y, |f.run.text|) && AllDigits(f.run.text)
  }

  predicate AllFit(grid: Grid, fs: seq<Found>) {
    forall k :: 0 <= k < |fs| ==> Fits(grid, fs[k])
  }

  /** The runs of row `y`, left to right. */
  function RowFound(grid: Grid, y: nat): seq<Found>
    requires y < |grid|
  {
    var rs := Runs(grid[y]);
    seq(|rs|, k requires 0 <= k < |rs| => Found(y, rs[k]))
  }

  /** The runs of the first `n` rows in reading order: the order in which
      the script's nested loops over rows and matches visit them. */
  function FoundIn(grid: Grid, n: nat): seq<Found>
    requires n <= |grid|
  {
    if n == 0 then [] else FoundIn(grid, n - 1) + RowFound(grid, n - 1)
  }

  function AllFound(grid: Grid): seq<Found> {
    FoundIn(grid, |grid|)
  }

  lemma RowFoundFit(grid: Grid, y: nat)
    requires Rectangular(grid) && y < |grid|
    ensures AllFit(grid, RowFound(grid, y))
  {
    RunsFromSound(grid[y], 0);
    RunsDigits(grid[y]);
  }

  lemma AllFitConcat(grid: Grid, a: seq<Found>, b: seq<Found>)
    requires AllFit(grid, a) && AllFit(grid, b)
    ensures AllFit(grid, a + b)
  {
    forall k | 0 <= k < |a + b| ensures Fits(grid, (a + b)[k]) {
      if k < |a| {
        assert (a + b)[k] == a[k];
      } else {
        assert (a + b)[k] == b[k - |a|];
      }
    }
  }

  lemma {:induction false} FoundInFit(grid: Grid, n: nat)
    requires Rectangular(grid) && n <= |grid|
    ensures AllFit(grid, FoundIn(grid, n))
  {
    if n > 0 {
      FoundInFit(grid, n - 1);
      RowFoundFit(grid, n - 1);
      AllFitConcat(grid, FoundIn(grid, n - 1), RowFound(grid, n - 1));
    }
  }

  lemma RowFoundSound(grid: Grid, y: nat, f: Found)
    requires y < |grid| && f in RowFound(grid, y)
    ensures f.y == y
    ensures MaximalRun(grid[y], f.run.start, |f.run.text|)
    ensures grid[y][f.run.start..f.run.End()] == f.run.text
  {
    var rs := Runs(grid[y]);
    RunsFromSound(grid[y], 0);
    var k :| 0 <= k < |rs| && RowFound(grid, y)[k] == f;
  }

  lemma RowFoundComplete(grid: Grid, y: nat, f: Found)
    requires y < |grid| && f.y == y
    requires MaximalRun(grid[y], f.run.start, |f.run.text|)
    requires grid[y][f.run.start..f.run.End()] == f.run.text
    ensures f in RowFound(grid, y)
  {
    var rs := Runs(grid[y]);
    RunsFromComplete(grid[y], 0, f.run.start, |f.run.text|);
    assert f.run == Run(f.run.start, grid[y][f.run.start..f.run.start + |f.run.text|]);
    var k :| 0 <= k < |rs| && rs[k] == f.run;
    assert RowFound(grid, y)[k] == f;
  }

  /** What the scan finds on the first `n` rows is exactly the maximal digit
      runs of those rows, each with the text it covers. */
  lemma {:induction false} FoundInExact(grid: Grid, n: nat, f: Found)
    requires n <= |grid|
    ensures f in FoundIn(grid, n) <==>
              && f.y < n
              && MaximalRun(grid[f.y], f.run.start, |f.run.text|)
              && grid[f.y][f.run.start..f.run.End()] == f.run.text
  {
    if n > 0 {
      FoundInExact(grid, n - 1, f);
      if f in RowFound(grid, n - 1) {
        RowFoundSound(grid, n - 1, f);
      }
      if f.y == n - 1 && MaximalRun(grid[f.y], f.run.start, |f.run.text|)
         && grid[f.y][f.run.start..f.run.End()] == f.run.text {
        RowFoundComplete(grid, n - 1, f);
      }
    }
  }

  /** The run's neighbourhood contains a symbol (the geometric reading). */
  ghost predicate TouchesSymbol(grid: Grid, x: nat, y: nat, len: nat)
    requires Rectangular(grid)
  {
    exists c :: InGrid(grid, c) && Adjacent(c, x, y, len) && IsSymbol(grid[c.y][c.x])
  }

  /** What one run adds to the part 1 sum. */
  function PartValue(grid: Grid, f: Found): nat
    requires Fits(grid, f)
  {
    var cells := AdjacentCells(grid, f.run.start, f.y, |f.run.text|);
    if ContainsSymbol(Chars(cells)) then NumberValue(f.run.text) else 0
  }

  /** A run is counted, with its value, exactly when a symbol borders it. */
  lemma PartValueIff(grid: Grid, f: Found)
    requires Fits(grid, f)
    ensures PartValue(grid, f) ==
              if TouchesSymbol(grid, f.run.start, f.y, |f.run.text|) then NumberValue(f.run.text) else 0
  {
    var x, y, len := f.run.start, f.y, |f.run.text|;
    var cells := AdjacentCells(grid, x, y, len);
    var s := Chars(cells);
    ContainsSymbolIff(s);
    AdjacentCellsSound(grid, x, y, len);
    AdjacentCellsComplete(grid, x, y, len);
    if ContainsSymbol(s) {
      var k :| 0 <= k < |s| && IsSymbol(s[k]);
      assert cells[k] in cells;
      assert InGrid(grid, cells[k].at) && Adjacent(cells[k].at, x, y, len) && IsSymbol(grid[cells[k].at.y][cells[k].at.x]);
    }
    if TouchesSymbol(grid, x, y, len) {
      var c :| InGrid(grid, c) && Adjacent(c, x, y, len) && IsSymbol(grid[c.y][c.x]);
      var k :| 0 <= k < |cells| && cells[k] == Cell(grid[c.y][c.x], c);
      assert IsSymbol(s[k]);
    }
  }

  /** `f` comes before `g` in reading order: on an earlier row, or further
      left on the same row. */
  predicate ReadsBefore(f: Found, g: Found) {
    f.y < g.y || (f.y == g.y && f.run.start < g.run.start)
  }

  /** The runs of one row come left to right. */
  lemma RowFoundOrdered(grid: Grid, y: nat)
    requires y < |grid|
    ensures forall k, l :: 0 <= k < l < |RowFound(grid, y)| ==>
              ReadsBefore(RowFound(grid, y)[k], RowFound(grid, y)[l])
  {
    RunsExact(grid[y]);
  }

  /** The scan visits the runs in strict reading order, so it never finds
      the same run twice. */
  lemma {:induction false} FoundInOrdered(grid: Grid, n: nat)
    requires n <= |grid|
    ensures forall k :: 0 <= k < |FoundIn(grid, n)| ==> FoundIn(grid, n)[k].y < n
    ensures forall k, l :: 0 <= k < l < |FoundIn(grid, n)| ==>
              ReadsBefore(FoundIn(grid, n)[k], FoundIn(grid, n)[l])
  {
    if n > 0 {
      var a, r := FoundIn(grid, n - 1), RowFound(grid, n - 1);
      FoundInOrdered(grid, n - 1);
      RowFoundOrdered(grid, n - 1);
      var fs := a + r;
      assert FoundIn(grid, n) == fs;
      forall k | 0 <= k < |fs| ensures fs[k].y < n {
        if k >= |a| {
          assert fs[k] == r[k - |a|];
        }
      }
      forall k, l | 0 <= k < l < |fs| ensures ReadsBefore(fs[k], fs[l]) {
        if l < |a| {
          assert fs[k] == a[k] && fs[l] == a[l];
        } else if k < |a| {
          assert fs[k] == a[k] && fs[l] == r[l - |a|];
        } else {
          assert fs[k] == r[k - |a|] && fs[l] == r[l - |a|];
        }
      }
    }
  }

  /** No run of the grid is found twice. */
  lemma AllFoundDistinct(grid: Grid)
    ensures forall k, l :: 0 <= k < l < |AllFound(grid)| ==> AllFound(grid)[k] != AllFound(grid)[l]
  {
    FoundInOrdered(grid, |grid|);
  }

  /** The sum over the runs `fs`. */
  function PartSum(grid: Grid, fs: seq<Found>): nat
    requires AllFit(grid, fs)
  {
    if |fs| == 0 then 0 else PartSum(grid, fs[..|fs| - 1]) + PartValue(grid, fs[|fs| - 1])
  }

  /** The part 1 answer: every run of the grid, each counted once. */
  function PartNumberSum(grid: Grid): nat
    requires Rectangular(grid)
  {
    FoundInFit(grid, |grid|);
    PartSum(grid, AllFound(grid))
  }

  lemma {:induction false} PartsNoSymbol(grid: Grid, fs: seq<Found>)
    requires Rectangular(grid) && AllFit(grid, fs)
    requires forall c :: InGrid(grid, c) ==> !IsSymbol(grid[c.y][c.x])
    ensures PartSum(grid, fs) == 0
  {
    if |fs| > 0 {
      PartsNoSymbol(grid, fs[..|fs| - 1]);
      PartValueIff(grid, fs[|fs| - 1]);
    }
  }

  /** A grid without symbols has no part numbers. */
  lemma NoSymbolNoParts(grid: Grid)
    requires Rectangular(grid)
    requires forall c :: InGrid(grid, c) ==> !IsSymbol(grid[c.y][c.x])
    ensures PartNumberSum(grid) == 0
  {
    FoundInFit(grid, |grid|);
    PartsNoSymbol(grid, AllFound(grid));
  }

  /** One more run of the current row. */
  lemma FoundStep(grid: Grid, y: nat, i: nat)
    requires y < |grid| && i < |RowFound(grid, y)|
    ensures FoundIn(grid, y) + RowFound(grid, y)[..i + 1] ==
              (FoundIn(grid, y) + RowFound(grid, y)[..i]) + [RowFound(grid, y)[i]]
  {
    var a, b := FoundIn(grid, y), RowFound(grid, y);
    assert b[..i + 1] == b[..i] + [b[i]];
  }

  lemma PartSumStep(grid: Grid, fs: seq<Found>, f: Found)
    requires AllFit(grid, fs) && Fits(grid, f)
    ensures AllFit(grid, fs + [f])
    ensures PartSum(grid, fs + [f]) == PartSum(grid, fs) + PartValue(grid, f)
  {
    assert (fs + [f])[..|fs|] == fs;
  }

  /** The loops reach the end of a row. */
  lemma FoundRowDone(grid: Grid, y: nat)
    requires y < |grid|
    ensures FoundIn(grid, y) + RowFound(grid, y)[..|RowFound(grid, y)|] == FoundIn(grid, y + 1)
  {
    assert RowFound(grid, y)[..|RowFound(grid, y)|] == RowFound(grid, y);
  }

  /** The body of part 1's inner loop: the run's number when a symbol
      borders it, and nothing otherwise. */
  method RunValue(grid: Grid, f: Found) returns (value: nat)
    requires Fits(grid, f)
    ensures value == PartValue(grid, f)
    ensures value == if TouchesSymbol(grid, f.run.start, f.y, |f.run.text|) then NumberValue(f.run.text) else 0
  {
    var adjacent := Chars(AdjacentCells(grid, f.run.start, f.y, |f.run.text|));
    value := 0;
    if ContainsSymbol(adjacent) {
      value := NumberValue(f.run.text);
    }
    PartValueIff(grid, f);
  }

  /** The inner loop of part 1: the runs of row `y`, in order. */
  method RowParts(grid: Grid, y: nat, sum0: nat) returns (sum: nat)
    requires Rectangular(grid) && y < |grid|
    requires AllFit(grid, FoundIn(grid, y))
    requires sum0 == PartSum(grid, FoundIn(grid, y))
    ensures AllFit(grid, FoundIn(grid, y + 1))
    ensures sum == PartSum(grid, FoundIn(grid, y + 1))
  {
    sum := sum0;
    ghost var done := FoundIn(grid, y);
    var found := RowFound(grid, y);
    RowFoundFit(grid, y);
    assert done + found[..0] == done;
    var i := 0;
    while i < |found|
      invariant i <= |found|
      invariant AllFit(grid, done + found[..i])
      invariant sum == PartSum(grid, done + found[..i])
    {
      assert Fits(grid, found[i]);
      var value := RunValue(grid, found[i]);
      sum := sum + value;
      FoundStep(grid, y, i);
      PartSumStep(grid, done + found[..i], found[i]);
      i := i + 1;
    }
    FoundRowDone(grid, y);
  }

  /** Part 1 as the script runs it: every run of every row, in order. */
  method Part1(grid: Grid) returns (sum: nat)
    requires Rectangular(grid)
    ensures sum == PartNumberSum(grid)
  {
    sum := 0;
    var y := 0;
    while y < |grid|
      invariant y <= |grid|
      invariant AllFit(grid, FoundIn(grid, y))
      invariant sum == PartSum(grid, FoundIn(grid, y))
    {
      sum := RowParts(grid, y, sum);
      y := y + 1;
    }
  }

  // ---------------------------------------------------------------------
  // Part 2: gears

  /** The script's table from a `*` position to the numbers bordering it. */
  type StarTable = map<Coord, seq<nat>>

  /** The list at `c`, or the empty list for a position not yet entered. */
  function Lookup(m: StarTable, c: Coord): seq<nat> {
    if c in m then m[c] else []
  }

  /** One yielded cell: a `*` gets the number appended to its list. */
  function NoteCell(m: StarTable, cell: Cell, n: nat): StarTable {
    if cell.ch == '*' then m[cell.at := Lookup(m, cell.at) + [n]] else m
  }

  /** The yielded cells of one run, in order. */
  function NoteCells(m: StarTable, cells: seq<Cell>, n: nat): StarTable {
    if |cells| == 0 then m
    else NoteCell(NoteCells(m, cells[..|cells| - 1], n), cells[|cells| - 1], n)
  }

  /** The runs `fs`, in order. */
  function NoteFound(m: StarTable, grid: Grid, fs: seq<Found>): StarTable
    requires AllFit(grid, fs)
  {
    if |fs| == 0 then m
    else
      var f := fs[|fs| - 1];
      NoteCells(NoteFound(m, grid, fs[..|fs| - 1]), AdjacentCells(grid, f.run.start, f.y, |f.run.text|), NumberValue(f.run.text))
  }

  lemma NoteFoundStep(grid: Grid, fs: seq<Found>, f: Found)
    requires AllFit(grid, fs) && Fits(grid, f)
    ensures AllFit(grid, fs + [f])
    ensures NoteFound(map[], grid, fs + [f]) ==
              NoteCells(NoteFound(map[], grid, fs), AdjacentCells(grid, f.run.start, f.y, |f.run.text|), NumberValue(f.run.text))
  {
    assert (fs + [f])[..|fs|] == fs;
  }

  /** The table the script builds from the whole grid. */
  function Stars(grid: Grid): StarTable
    requires Rectangular(grid)
  {
    FoundInFit(grid, |grid|);
    NoteFound(map[], grid, AllFound(grid))
  }

  /** The reference reading: the numbers of the runs among `fs` that border
      `c`, in order. */
  ghost function NumbersIn(grid: Grid, c: Coord, fs: seq<Found>): seq<nat>
    requires AllFit(grid, fs)
  {
    if |fs| == 0 then []
    else
      var f := fs[|fs| - 1];
      NumbersIn(grid, c, fs[..|fs| - 1]) + (if Adjacent(c, f.run.start, f.y, |f.run.text|) then [NumberValue(f.run.text)] else [])
  }

  /** The numbers bordering `c`, in reading order. */
  ghost function NumbersAt(grid: Grid, c: Coord): seq<nat>
    requires Rectangular(grid)
  {
    FoundInFit(grid, |grid|);
    NumbersIn(grid, c, AllFound(grid))
  }

  /** The number of yielded `*` cells at `c`. */
  function StarCount(cells: seq<Cell>, c: Coord): nat {
    if |cells| == 0 then 0
    else StarCount(cells[..|cells| - 1], c) + (if cells[|cells| - 1] == Cell('*', c) then 1 else 0)
  }

  function Repeat(n: nat, k: nat): (r: seq<nat>)
    ensures |r| == k
  {
    if k == 0 then [] else Repeat(n, k - 1) + [n]
  }

  /** Noting the cells of one run appends the number to the list at `c` once
      for each `*` cell at `c`, and leaves the list otherwise. */
  lemma {:induction false} NoteCellsLookup(m: StarTable, cells: seq<Cell>, n: nat, c: Coord)
    ensures Lookup(NoteCells(m, cells, n), c) == Lookup(m, c) + Repeat(n, StarCount(cells, c))
  {
    if |cells| == 0 {
      assert Lookup(m, c) + [] == Lookup(m, c);
    } else {
      var prefix := cells[..|cells| - 1];
      NoteCellsLookup(m, prefix, n, c);
      var cell := cells[|cells| - 1];
      if cell == Cell('*', c) {
        ConcatAssoc(Lookup(m, c), Repeat(n, StarCount(prefix, c)), [n]);
      }
    }
  }

  /** In cells with distinct positions, a `*` at `c` is counted at most once. */
  lemma {:induction false} StarCountDistinct(cells: seq<Cell>, c: Coord)
    requires forall i, j :: 0 <= i < j < |cells| ==> cells[i].at != cells[j].at
    ensures StarCount(cells, c) == if Cell('*', c) in cells then 1 else 0
  {
    if |cells| > 0 {
      var prefix := cells[..|cells| - 1];
      StarCountDistinct(prefix, c);
      if cells[|cells| - 1] == Cell('*', c) {
        forall i | 0 <= i < |prefix| ensures prefix[i] != Cell('*', c) {
          assert cells[i].at != cells[|cells| - 1].at;
        }
      }
      assert cells == prefix + [cells[|cells| - 1]];
    }
  }

  /** A run adds its number to the list at `c` exactly when `c` is a `*`
      bordering it. */
  lemma AdjacentStarCount(grid: Grid, x: nat, y: nat, len: nat, c: Coord)
    requires ValidQuery(grid, x, y, len)
    ensures StarCount(AdjacentCells(grid, x, y, len), c) ==
              if StarAt(grid, c) && Adjacent(c, x, y, len) then 1 else 0
  {
    AdjacentCellsDistinct(grid, x, y, len);
    StarCountDistinct(AdjacentCells(grid, x, y, len), c);
    AdjacentCellsSound(grid, x, y, len);
    AdjacentCellsComplete(grid, x, y, len);
  }

  lemma {:induction false} NoteFoundLookup(m: StarTable, grid: Grid, fs: seq<Found>, c: Coord)
    requires Rectangular(grid) && AllFit(grid, fs)
    ensures Lookup(NoteFound(m, grid, fs), c) ==
              Lookup(m, c) + (if StarAt(grid, c) then NumbersIn(grid, c, fs) else [])
  {
    if |fs| == 0 {
      assert Lookup(m, c) + [] == Lookup(m, c);
    } else {
      var prefix := fs[..|fs| - 1];
      var f := fs[|fs| - 1];
      NoteFoundLookup(m, grid, prefix, c);
      var before := NoteFound(m, grid, prefix);
      var cells := AdjacentCells(grid, f.run.start, f.y, |f.run.text|);
      NoteCellsLookup(before, cells, NumberValue(f.run.text), c);
      AdjacentStarCount(grid, f.run.start, f.y, |f.run.text|, c);
      if StarAt(grid, c) {
        var add := if Adjacent(c, f.run.start, f.y, |f.run.text|) then [NumberValue(f.run.text)] else [];
        assert Repeat(NumberValue(f.run.text), StarCount(cells, c)) == add;
        ConcatAssoc(Lookup(m, c), NumbersIn(grid, c, prefix), add);
      } else {
        assert Lookup(before, c) + [] == Lookup(before, c);
      }
    }
  }

  /** The table the script builds holds, at every `*` of the grid, the
      numbers bordering it, in the order they are found; every other
      position reads as the empty list. */
  lemma StarsLookup(grid: Grid, c: Coord)
    requires Rectangular(grid)
    ensures Lookup(Stars(grid), c) == if StarAt(grid, c) then NumbersAt(grid, c) else []
  {
    FoundInFit(grid, |grid|);
    NoteFoundLookup(map[], grid, AllFound(grid), c);
  }

  lemma {:induction false} NoteCellsKeys(m: StarTable, cells: seq<Cell>, n: nat)
    ensures forall c :: c in NoteCells(m, cells, n) ==> c in m || Cell('*', c) in cells
  {
    if |cells| > 0 {
      NoteCellsKeys(m, cells[..|cells| - 1], n);
      assert cells == cells[..|cells| - 1] + [cells[|cells| - 1]];
    }
  }

  lemma {:induction false} NoteFoundKeys(m: StarTable, grid: Grid, fs: seq<Found>)
    requires Rectangular(grid) && AllFit(grid, fs)
    ensures forall c :: c in NoteFound(m, grid, fs) ==> c in m || StarAt(grid, c)
  {
    if |fs| > 0 {
      var f := fs[|fs| - 1];
      NoteFoundKeys(m, grid, fs[..|fs| - 1]);
      NoteCellsKeys(NoteFound(m, grid, fs[..|fs| - 1]), AdjacentCells(grid, f.run.start, f.y, |f.run.text|), NumberValue(f.run.text));
      AdjacentCellsSound(grid, f.run.start, f.y, |f.run.text|);
    }
  }

  /** Every key of the table is a `*` cell of the grid, so walking the grid
      in reading order visits each entry of the table exactly once. */
  lemma StarsKeys(grid: Grid)
    requires Rectangular(grid)
    ensures forall c :: c in Stars(grid) ==> StarAt(grid, c)
  {
    FoundInFit(grid, |grid|);
    NoteFoundKeys(map[], grid, AllFound(grid));
  }

  /** The gear ratio a table entry contributes: the product of its two
      numbers when it has exactly two. */
  function Ratio(numbers: seq<nat>): nat {
    if |numbers| == 2 then numbers[0] * numbers[1] else 0
  }

  /** The ratios of the first `n` cells of row `y`. */
  function RowRatioSum(m: StarTable, y: nat, n: nat): nat {
    if n == 0 then 0 else RowRatioSum(m, y, n - 1) + Ratio(Lookup(m, Coord(n - 1, y)))
  }

  /** The ratios of the first `n` rows of a `w`-column grid. */
  function RatioSum(m: StarTable, w: nat, n: nat): nat {
    if n == 0 then 0 else RatioSum(m, w, n - 1) + RowRatioSum(m, n - 1, w)
  }

  /** The part 2 answer: the table's entries summed over the grid. */
  function GearRatioSum(grid: Grid): nat
    requires Rectangular(grid)
  {
    RatioSum(Stars(grid), Width(grid), |grid|)
  }

  /** The reference reading: a `*` bordered by exactly two numbers adds
      their product. */
  ghost function GearRatio(grid: Grid, c: Coord): nat
    requires Rectangular(grid)
  {
    if StarAt(grid, c) then Ratio(NumbersAt(grid, c)) else 0
  }

  ghost function RowGearSum(grid: Grid, y: nat, n: nat): nat
    requires Rectangular(grid)
  {
    if n == 0 then 0 else RowGearSum(grid, y, n - 1) + GearRatio(grid, Coord(n - 1, y))
  }

  ghost function GearSum(grid: Grid, n: nat): nat
    requires Rectangular(grid)
  {
    if n == 0 then 0 else GearSum(grid, n - 1) + RowGearSum(grid, n - 1, Width(grid))
  }

  lemma {:induction false} RowRatioSumSpec(grid: Grid, y: nat, n: nat)
    requires Rectangular(grid)
    ensures RowRatioSum(Stars(grid), y, n) == RowGearSum(grid, y, n)
  {
    if n > 0 {
      RowRatioSumSpec(grid, y, n - 1);
      StarsLookup(grid, Coord(n - 1, y));
    }
  }

  lemma {:induction false} RatioSumSpec(grid: Grid, n: nat)
    requires Rectangular(grid)
    ensures RatioSum(Stars(grid), Width(grid), n) == GearSum(grid, n)
  {
    if n > 0 {
      RatioSumSpec(grid, n - 1);
      RowRatioSumSpec(grid, n - 1, Width(grid));
    }
  }

  /** Part 2 sums, over the `*` cells of the grid bordered by exactly two
      numbers, the product of those numbers. */
  lemma GearRatioSumSpec(grid: Grid)
    requires Rectangular(grid)
    ensures GearRatioSum(grid) == GearSum(grid, |grid|)
  {
    RatioSumSpec(grid, |grid|);
  }

  /** The innermost loop of part 2: the yielded cells of one run. */
  method NoteRun(stars0: StarTable, cells: seq<Cell>, number: nat) returns (stars: StarTable)
    ensures stars == NoteCells(stars0, cells, number)
  {
    stars := stars0;
    var j := 0;
    while j < |cells|
      invariant j <= |cells|
      invariant stars == NoteCells(stars0, cells[..j], number)
    {
      var cell := cells[j];
      if cell.ch == '*' {
        if cell.at !in stars {
          stars := stars[cell.at := []];
        }
        stars := stars[cell.at := stars[cell.at] + [number]];
      }
      assert cells[..j + 1][..j] == cells[..j];
      j := j + 1;
    }
    assert cells[..j] == cells;
  }

  /** The middle loop of part 2: the runs of row `y`, in order. */
  method NoteRowRuns(grid: Grid, y: nat, stars0: StarTable) returns (stars: StarTable)
    requires Rectangular(grid) && y < |grid|
    requires AllFit(grid, FoundIn(grid, y))
    requires stars0 == NoteFound(map[], grid, FoundIn(grid, y))
    ensures AllFit(grid, FoundIn(grid, y + 1))
    ensures stars == NoteFound(map[], grid, FoundIn(grid, y + 1))
  {
    stars := stars0;
    ghost var done := FoundIn(grid, y);
    var found := RowFound(grid, y);
    RowFoundFit(grid, y);
    assert done + found[..0] == done;
    var i := 0;
    while i < |found|
      invariant i <= |found|
      invariant AllFit(grid, done + found[..i])
      invariant stars == NoteFound(map[], grid, done + found[..i])
    {
      var r := found[i].run;
      assert Fits(grid, found[i]);
      stars := NoteRun(stars, AdjacentCells(grid, r.start, y, |r.text|), NumberValue(r.text));
      FoundStep(grid, y, i);
      NoteFoundStep(grid, done + found[..i], found[i]);
      i := i + 1;
    }
    FoundRowDone(grid, y);
  }

  /** The second half of part 2: the entries of the table, visited in
      reading order over a `w`-column, `h`-row grid. */
  method SumRatios(stars: StarTable, w: nat, h: nat) returns (ratioSum: nat)
    ensures ratioSum == RatioSum(stars, w, h)
  {
    ratioSum := 0;
    var row := 0;
    while row < h
      invariant row <= h
      invariant ratioSum == RatioSum(stars, w, row)
    {
      var x := 0;
      while x < w
        invariant x <= w
        invariant ratioSum == RatioSum(stars, w, row) + RowRatioSum(stars, row, x)
      {
        var at := Coord(x, row);
        if at in stars && |stars[at]| == 2 {
          ratioSum := ratioSum + stars[at][0] * stars[at][1];
        }
        x := x + 1;
      }
      row := row + 1;
    }
  }

  /** Part 2 as the script runs it: fill the table run by run, then add up
      the entries with two numbers. */
  method Part2(grid: Grid) returns (ratioSum: nat)
    requires Rectangular(grid)
    ensures ratioSum == GearRatioSum(grid)
  {
    var stars: StarTable := map[];
    var y := 0;
    while y < |grid|
      invariant y <= |grid|
      invariant AllFit(grid, FoundIn(grid, y))
      invariant stars == NoteFound(map[], grid, FoundIn(grid, y))
    {
      stars := NoteRowRuns(grid, y, stars);
      y := y + 1;
    }
    ratioSum := SumRatios(stars, Width(grid), |grid|);
  }
}
