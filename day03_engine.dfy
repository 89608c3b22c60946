/** Day 3, part 1: the engine schematic is a grid of characters. A part
    number is a maximal run of digits in a row of which at least one digit
    touches a symbol, including diagonally. */
module EngineParts {
  import opened Common

  /** The schematic, one string per line; lines may differ in length. */
  type Grid = seq<string>

  /** `grid[r][c]`: `undefined` outside the grid or past the end of its row. */
  function CellAt(grid: Grid, r: int, c: int): Option<char>
  {
    if 0 <= r < |grid| && 0 <= c < |grid[r]| then Some(grid[r][c]) else None
  }

  /** `isSymbol`: not a number and not `.`. `Number(undefined)` is `NaN`, so a
      missing cell also counts as a symbol. */
  predicate IsSymbol(cell: Option<char>)
  {
    cell.None? || (!IsDigit(cell.value) && cell.value != '.')
  }

  /** The coordinates `isCellAdjacentToSymbol` collects, in its order: a row
      above or below is used when it exists, a column left or right when the
      cell's own row has it. */
  function Neighbours(grid: Grid, r: int, c: int): seq<(int, int)>
    requires 0 <= r < |grid|
  {
    var up := 0 <= r - 1;
    var down := r + 1 < |grid|;
    var left := 0 <= c - 1 < |grid[r]|;
    var right := 0 <= c + 1 < |grid[r]|;
    (if up then [(r - 1, c)] + (if left then [(r - 1, c - 1)] else []) + (if right then [(r - 1, c + 1)] else []) else []) +
    (if down then [(r + 1, c)] + (if left then [(r + 1, c - 1)] else []) + (if right then [(r + 1, c + 1)] else []) else []) +
    (if left then [(r, c - 1)] else []) +
    (if right then [(r, c + 1)] else [])
  }

  /** One of the eight cells around `(r, c)` whose row exists and whose
      column exists in row `r`. */
  predicate Around(grid: Grid, r: int, c: int, p: (int, int))
  {
    p != (r, c) && r - 1 <= p.0 <= r + 1 && c - 1 <= p.1 <= c + 1 &&
    0 <= p.0 < |grid| && 0 <= r < |grid| && 0 <= p.1 < |grid[r]|
  }

  /** The collected coordinates are exactly the in-bounds cells among the
      eight around the cell. */
  lemma NeighboursAreAround(grid: Grid, r: int, c: int, p: (int, int))
    requires 0 <= r < |grid| && 0 <= c < |grid[r]|
    ensures p in Neighbours(grid, r, c) <==> Around(grid, r, c, p)
  {
  }

  /** `isCellAdjacentToSymbol`: some collected coordinate holds a symbol. */
  predicate AdjacentToSymbol(grid: Grid, r: int, c: int)
    requires 0 <= r < |grid|
  {
    var ns := Neighbours(grid, r, c);
    exists i :: 0 <= i < |ns| && IsSymbol(CellAt(grid, ns[i].0, ns[i].1))
  }

  /** A cell touches a symbol iff one of the cells around it is a symbol. */
  lemma AdjacentIff(grid: Grid, r: int, c: int)
    requires 0 <= r < |grid| && 0 <= c < |grid[r]|
    ensures AdjacentToSymbol(grid, r, c) <==>
      exists p :: Around(grid, r, c, p) && IsSymbol(CellAt(grid, p.0, p.1))
  {
    var ns := Neighbours(grid, r, c);
    if AdjacentToSymbol(grid, r, c) {
      var i :| 0 <= i < |ns| && IsSymbol(CellAt(grid, ns[i].0, ns[i].1));
      NeighboursAreAround(grid, r, c, ns[i]);
    }
    if exists p :: Around(grid, r, c, p) && IsSymbol(CellAt(grid, p.0, p.1)) {
      var p :| Around(grid, r, c, p) && IsSymbol(CellAt(grid, p.0, p.1));
      NeighboursAreAround(grid, r, c, p);
      var i :| 0 <= i < |ns| && ns[i] == p;
    }
  }

  /** The end of the digit run that starts at or goes through column `c`. */
  function RunEnd(row: string, c: int): (e: int)
    requires 0 <= c <= |row|
    ensures c <= e <= |row|
    decreases |row| - c
  {
    if c < |row| && IsDigit(row[c]) then RunEnd(row, c + 1) else c
  }

  /** Everything up to the run's end is a digit, and the run stops there. */
  lemma {:induction false} RunEndDigits(row: string, c: int)
    requires 0 <= c <= |row|
    ensures forall j :: c <= j < RunEnd(row, c) ==> IsDigit(row[j])
    ensures RunEnd(row, c) == |row| || !IsDigit(row[RunEnd(row, c)])
    decreases |row| - c
  {
    if c < |row| && IsDigit(row[c]) {
      RunEndDigits(row, c + 1);
    }
  }

  /** A run of digits from `s` that stops at `e` ends at `e`. */
  lemma {:induction false} RunEndAt(row: string, s: int, e: int)
    requires 0 <= s <= e <= |row|
    requires forall j :: s <= j < e ==> IsDigit(row[j])
    requires e == |row| || !IsDigit(row[e])
    ensures RunEnd(row, s) == e
    decreases e - s
  {
    if s < e {
      RunEndAt(row, s + 1, e);
    }
  }

  /** Some digit of the run `[s, e)` touches a symbol. */
  predicate AnyAdjacent(grid: Grid, r: int, s: int, e: int)
    requires 0 <= r < |grid|
  {
    exists j :: s <= j < e && AdjacentToSymbol(grid, r, j)
  }

  /** The part numbers of row `r` from column `c` on, run by run: the
      reference for the cell-by-cell scan of `getPartsFromRow`. */
  function PartsFrom(grid: Grid, r: int, c: int): seq<nat>
    requires 0 <= r < |grid| && 0 <= c <= |grid[r]|
    decreases |grid[r]| - c
  {
    var row := grid[r];
    if c == |row| then []
    else if !IsDigit(row[c]) then PartsFrom(grid, r, c + 1)
    else
      var e := RunEnd(row, c);
      RunEndDigits(row, c);
      (if AnyAdjacent(grid, r, c, e) then [DecimalValue(row[c..e])] else []) + PartsFrom(grid, r, e)
  }

  /** A non-digit at `e` (or the end of the row) closes the run `[s, e)`:
      the run is reported iff one of its digits touches a symbol, and the
      scan goes on after `e`. */
  lemma CloseRun(grid: Grid, r: int, s: int, e: int)
    requires 0 <= r < |grid| && 0 <= s <= e <= |grid[r]|
    requires forall j :: s <= j < e ==> IsDigit(grid[r][j])
    ensures forall j :: 0 <= j < |grid[r][s..e]| ==> IsDigit(grid[r][s..e][j])
    ensures e < |grid[r]| && !IsDigit(grid[r][e]) ==>
      PartsFrom(grid, r, s) ==
        (if AnyAdjacent(grid, r, s, e) then [DecimalValue(grid[r][s..e])] else []) + PartsFrom(grid, r, e + 1)
    ensures e == |grid[r]| ==>
      PartsFrom(grid, r, s) == (if AnyAdjacent(grid, r, s, e) then [DecimalValue(grid[r][s..e])] else [])
  {
    var row := grid[r];
    if s < e && (e == |row| || !IsDigit(row[e])) {
      RunEndAt(row, s, e);
    }
  }

  /** The part numbers of a whole row. */
  function RowParts(grid: Grid, r: int): seq<nat>
    requires 0 <= r < |grid|
  {
    PartsFrom(grid, r, 0)
  }

  /** `getPartsFromRow`: walks the cells, collecting the current digit run
      and whether it touches a symbol, and reports the run when a non-digit
      (or the end of the row) closes it. */
  method GetPartsFromRow(grid: Grid, r: int) returns (parts: seq<nat>)
    requires 0 <= r < |grid|
    ensures parts == RowParts(grid, r)
  {
    var row := grid[r];
    var isNumberPart := false;
    var potentialPartNumber := "";
    parts := [];
    ghost var start := 0;
    for column := 0 to |row|
      invariant 0 <= start <= column
      invariant forall j :: start <= j < column ==> IsDigit(row[j])
      invariant start == 0 || !IsDigit(row[start - 1])
      invariant potentialPartNumber == row[start..column]
      invariant isNumberPart == AnyAdjacent(grid, r, start, column)
      invariant parts + PartsFrom(grid, r, start) == RowParts(grid, r)
    {
      var cell := row[column];
      if !IsDigit(cell) {
        CloseRun(grid, r, start, column);
        if isNumberPart && potentialPartNumber != "" {
          parts := parts + [DecimalValue(potentialPartNumber)];
          isNumberPart := false;
        }
        potentialPartNumber := "";
        start := column + 1;
      } else {
        assert row[start..column + 1] == row[start..column] + [cell];
        potentialPartNumber := potentialPartNumber + [cell];
        isNumberPart := isNumberPart || AdjacentToSymbol(grid, r, column);
      }
    }
    CloseRun(grid, r, start, |row|);
    if isNumberPart {
      parts := parts + [DecimalValue(potentialPartNumber)];
    }
  }

  /** The part numbers of the first `n` rows, in order. */
  function PartsOfRows(grid: Grid, n: int): seq<nat>
    requires 0 <= n <= |grid|
  {
    if n == 0 then [] else PartsOfRows(grid, n - 1) + RowParts(grid, n - 1)
  }

  /** `findSolution` of part 1: the rows' parts are concatenated and summed. */
  method SumOfParts(grid: Grid) returns (total: int)
    ensures total == Sum(PartsOfRows(grid, |grid|))
  {
    var parts: seq<nat> := [];
    for r := 0 to |grid|
      invariant parts == PartsOfRows(grid, r)
    {
      var rowParts := GetPartsFromRow(grid, r);
      if |rowParts| > 0 {
        parts := parts + rowParts;
      }
    }
    total := Sum(parts);
  }

  /** A schematic whose lines all have the same length and hold only
      digits and `.` has no symbols, and so no part numbers. */
  predicate Plain(grid: Grid)
  {
    (forall r :: 0 <= r < |grid| ==> |grid[r]| == |grid[0]|) &&
    (forall r, c :: 0 <= r < |grid| && 0 <= c < |grid[r]| ==> IsDigit(grid[r][c]) || grid[r][c] == '.')
  }

  lemma {:induction false} PlainRowHasNoParts(grid: Grid, r: int, c: int)
    requires Plain(grid) && 0 <= r < |grid| && 0 <= c <= |grid[r]|
    ensures PartsFrom(grid, r, c) == []
    decreases |grid[r]| - c
  {
    var row := grid[r];
    if c < |row| {
      if !IsDigit(row[c]) {
        PlainRowHasNoParts(grid, r, c + 1);
      } else {
        var e := RunEnd(row, c);
        forall j | c <= j < e
          ensures !AdjacentToSymbol(grid, r, j)
        {
          var ns := Neighbours(grid, r, j);
          forall i | 0 <= i < |ns|
            ensures !IsSymbol(CellAt(grid, ns[i].0, ns[i].1))
          {
            NeighboursAreAround(grid, r, j, ns[i]);
          }
        }
        PlainRowHasNoParts(grid, r, e);
      }
    }
  }

  /** A plain schematic sums to 0. */
  lemma {:induction false} PlainHasNoParts(grid: Grid, n: int)
    requires Plain(grid) && 0 <= n <= |grid|
    ensures PartsOfRows(grid, n) == []
  {
    if n > 0 {
      PlainHasNoParts(grid, n - 1);
      PlainRowHasNoParts(grid, n - 1, 0);
    }
  }
}

/** Day 3, part 2: a gear is a `*` next to exactly two part numbers; its
    ratio is their product. The numbers are read whole from whichever of
    their digits touches the gear. */
module GearRatios {
  import opened Common
  import opened EngineParts

  /** `isDigit(grid, r, c)`: the cell exists and is a digit. */
  predicate DigitAt(grid: Grid, r: int, c: int)
    requires 0 <= r < |grid|
  {
    0 <= c < |grid[r]| && IsDigit(grid[r][c])
  }

  /** The first column of the digit run that reaches column `c` from the left. */
  function RunStart(row: string, c: int): (s: int)
    requires 0 <= c <= |row|
    ensures 0 <= s <= c
  {
    if c > 0 && IsDigit(row[c - 1]) then RunStart(row, c - 1) else c
  }

  lemma {:induction false} RunStartDigits(row: string, c: int)
    requires 0 <= c <= |row|
    ensures forall j :: RunStart(row, c) <= j < c ==> IsDigit(row[j])
    ensures RunStart(row, c) == 0 || !IsDigit(row[RunStart(row, c) - 1])
  {
    if c > 0 && IsDigit(row[c - 1]) {
      RunStartDigits(row, c - 1);
    }
  }

  /** The number `getNumberAt` reads at column `c`: the run from its start
      to its end. */
  function NumberAt(row: string, c: int): nat
    requires 0 <= c <= |row|
  {
    var s := RunStart(row, c);
    RunEndDigits(row, s);
    DecimalValue(row[s..RunEnd(row, s)])
  }

  /** `getNumberAt`: walks left while the cell before is a digit, then
      collects digits going right. */
  method GetNumberAt(grid: Grid, r: int, column: int) returns (n: nat)
    requires 0 <= r < |grid| && 0 <= column < |grid[r]|
    ensures n == NumberAt(grid[r], column)
  {
    var row := grid[r];
    var index := column;
    while 0 <= index - 1 && IsDigit(row[index - 1])
      invariant 0 <= index <= column
      invariant RunStart(row, index) == RunStart(row, column)
    {
      index := index - 1;
    }
    var result := "";
    ghost var s := index;
    RunEndDigits(row, s);
    while index < |row| && IsDigit(row[index])
      invariant s <= index <= RunEnd(row, s)
      invariant RunEnd(row, index) == RunEnd(row, s)
      invariant result == row[s..index]
    {
      result := result + [row[index]];
      index := index + 1;
    }
    n := DecimalValue(result);
  }

  /** Any digit of a run reads the same number. */
  lemma {:induction false} SameRunSameNumber(row: string, c: int, d: int)
    requires 0 <= c <= d < |row|
    requires forall j :: c <= j <= d ==> IsDigit(row[j])
    ensures NumberAt(row, c) == NumberAt(row, d)
    decreases d - c
  {
    if c < d {
      SameRunSameNumber(row, c, d - 1);
    }
  }

  /** When the cell above (or below) the gear is a digit, a digit on the
      diagonal next to it belongs to the same number. */
  lemma DiagonalJoinsCentre(row: string, c: int)
    requires 0 <= c < |row| && IsDigit(row[c])
    ensures 0 < c && IsDigit(row[c - 1]) ==> NumberAt(row, c - 1) == NumberAt(row, c)
    ensures c + 1 < |row| && IsDigit(row[c + 1]) ==> NumberAt(row, c + 1) == NumberAt(row, c)
  {
    if 0 < c && IsDigit(row[c - 1]) {
      SameRunSameNumber(row, c - 1, c);
    }
    if c + 1 < |row| && IsDigit(row[c + 1]) {
      SameRunSameNumber(row, c, c + 1);
    }
  }

  /** When the cell above (or below) is not a digit, the two diagonal
      digits belong to different runs: the left one ends at the centre
      column and the right one starts after it. */
  lemma DiagonalsApart(row: string, c: int)
    requires 0 < c && c + 1 < |row| && !IsDigit(row[c])
    requires IsDigit(row[c - 1]) && IsDigit(row[c + 1])
    ensures RunEnd(row, RunStart(row, c - 1)) == c
    ensures RunStart(row, c + 1) == c + 1
  {
    var s := RunStart(row, c - 1);
    RunStartDigits(row, c - 1);
    RunEndAt(row, s, c);
  }

  /** The numbers next to a row above or below the gear: the one straight
      across, or else those on the two diagonals. */
  function RowNumbers(grid: Grid, r: int, c: int): seq<nat>
    requires 0 <= r < |grid|
  {
    var row := grid[r];
    if DigitAt(grid, r, c) then [NumberAt(row, c)]
    else
      (if DigitAt(grid, r, c - 1) then [NumberAt(row, c - 1)] else []) +
      (if DigitAt(grid, r, c + 1) then [NumberAt(row, c + 1)] else [])
  }

  /** `getPartsForGear`: above, below, left, right. */
  function PartsForGear(grid: Grid, r: int, c: int): (parts: seq<nat>)
    requires 0 <= r < |grid| && 0 <= c < |grid[r]|
  {
    (if 0 <= r - 1 then RowNumbers(grid, r - 1, c) else []) +
    (if r + 1 < |grid| then RowNumbers(grid, r + 1, c) else []) +
    (if DigitAt(grid, r, c - 1) then [NumberAt(grid[r], c - 1)] else []) +
    (if DigitAt(grid, r, c + 1) then [NumberAt(grid[r], c + 1)] else [])
  }

  /** The product of a gear's two numbers. */
  function GearRatio(parts: seq<nat>): nat
    requires |parts| == 2
  {
    MulLe(0, parts[0], parts[1]);
    parts[0] * parts[1]
  }

  /** `isGear` and `isValidGear`: the ratio of a `*` with exactly two
      numbers, nothing for any other cell. */
  function GearAt(grid: Grid, r: int, c: int): Option<nat>
    requires 0 <= r < |grid| && 0 <= c < |grid[r]|
  {
    var parts := PartsForGear(grid, r, c);
    if grid[r][c] == '*' && |parts| == 2 then Some(GearRatio(parts)) else None
  }

  /** The values of the present entries, in order. */
  function Present(gears: seq<Option<nat>>): seq<nat>
  {
    if gears == [] then []
    else
      var last := gears[|gears| - 1];
      Present(gears[..|gears| - 1]) + (if last.Some? then [last.value] else [])
  }

  /** A value is listed iff some entry holds it. */
  lemma {:induction false} PresentMembers(gears: seq<Option<nat>>, x: nat)
    ensures x in Present(gears) <==> exists c :: 0 <= c < |gears| && gears[c] == Some(x)
  {
    if gears != [] {
      var init := gears[..|gears| - 1];
      PresentMembers(init, x);
      if exists c :: 0 <= c < |init| && init[c] == Some(x) {
        var c :| 0 <= c < |init| && init[c] == Some(x);
        assert gears[c] == Some(x);
      }
    }
  }

  /** What each cell of row `r` contributes. */
  function RowGears(grid: Grid, r: int): (gears: seq<Option<nat>>)
    requires 0 <= r < |grid|
    ensures |gears| == |grid[r]|
  {
    seq(|grid[r]|, c requires 0 <= c < |grid[r]| => GearAt(grid, r, c))
  }

  /** The ratios of the gears of row `r`, left to right. */
  function RowRatios(grid: Grid, r: int): seq<nat>
    requires 0 <= r < |grid|
  {
    Present(RowGears(grid, r))
  }

  /** `getGearRatiosForRow`. */
  method GetGearRatiosForRow(grid: Grid, r: int) returns (ratios: seq<nat>)
    requires 0 <= r < |grid|
    ensures ratios == RowRatios(grid, r)
  {
    var gears := RowGears(grid, r);
    ratios := [];
    for column := 0 to |grid[r]|
      invariant ratios == Present(gears[..column])
    {
      assert gears[..column + 1][..column] == gears[..column];
      if grid[r][column] == '*' {
        var gearParts := PartsForGear(grid, r, column);
        if |gearParts| == 2 {
          ratios := ratios + [GearRatio(gearParts)];
        }
      }
    }
    assert gears[..|grid[r]|] == gears;
  }

  /** The gear ratios of the first `n` rows, in order. */
  function RatiosOfRows(grid: Grid, n: int): seq<nat>
    requires 0 <= n <= |grid|
  {
    if n == 0 then [] else RatiosOfRows(grid, n - 1) + RowRatios(grid, n - 1)
  }

  /** `findSolution` of part 2: the rows' ratios are concatenated and summed. */
  method SumOfGearRatios(grid: Grid) returns (total: int)
    ensures total == Sum(RatiosOfRows(grid, |grid|))
    ensures total >= 0
  {
    var gearRatios: seq<nat> := [];
    for r := 0 to |grid|
      invariant gearRatios == RatiosOfRows(grid, r)
    {
      var ratios := GetGearRatiosForRow(grid, r);
      if |ratios| > 0 {
        gearRatios := gearRatios + ratios;
      }
    }
    total := Sum(gearRatios);
    SumNonNegative(gearRatios);
  }
}
