/** Day 11, `universe.ts`: an image of galaxies (`#`) in empty space (`.`),
    kept as one string of cells and a row length. The constructor expands the
    universe, doubling every row and every column that holds only empty
    space, and then lists the galaxies; `calculate` sums the Manhattan
    distance over every pair of galaxies. */
module Universes {
  import opened Common
  import opened Grids

  const EmptySpace := '.'

  /* ---------------------------------------------------------------------- */
  /* Distances                                                               */

  /** `calculateDistance`: the Manhattan distance. */
  function Distance(a: Coordinate, b: Coordinate): int
  {
    Abs(a.y - b.y) + Abs(a.x - b.x)
  }

  /** The distances from points `0 .. k - 1` to point `j`. */
  function DistancesTo(points: seq<Coordinate>, j: int, k: int): int
    requires 0 <= j < |points| && 0 <= k <= |points|
  {
    if k == 0 then 0 else DistancesTo(points, j, k - 1) + Distance(points[k - 1], points[j])
  }

  /** Every unordered pair `i < j` of the first `n` points, counted once:
      each point is paired with the points before it. */
  function PairSum(points: seq<Coordinate>, n: int): int
    requires 0 <= n <= |points|
  {
    if n == 0 then 0 else PairSum(points, n - 1) + DistancesTo(points, n - 1, n - 1)
  }

  /** The inner loop of `calculate`: the distances from point `i` to the
      points `i + 1 .. k - 1`. */
  function DistancesFrom(points: seq<Coordinate>, i: int, k: int): int
    requires 0 <= i < |points| && 0 <= k <= |points|
  {
    if k <= i + 1 then 0 else DistancesFrom(points, i, k - 1) + Distance(points[i], points[k - 1])
  }

  /** The outer loop of `calculate` after the sources `0 .. m - 1`, each
      paired with the points below `k`. */
  function SourceSums(points: seq<Coordinate>, m: int, k: int): int
    requires 0 <= m <= |points| && 0 <= k <= |points|
  {
    if m == 0 then 0 else SourceSums(points, m - 1, k) + DistancesFrom(points, m - 1, k)
  }

  lemma {:induction false} SourceSumsNone(points: seq<Coordinate>, m: int)
    requires 0 <= m <= |points|
    ensures SourceSums(points, m, 0) == 0
  {
    if m > 0 {
      SourceSumsNone(points, m - 1);
    }
  }

  /** Letting the sources reach one more point adds that point's distances
      to the sources below it. */
  lemma {:induction false} SourceSumsStep(points: seq<Coordinate>, m: int, k: int)
    requires 0 <= m <= |points| && 0 <= k < |points|
    ensures SourceSums(points, m, k + 1) == SourceSums(points, m, k) + DistancesTo(points, k, Min(m, k))
  {
    if m > 0 {
      SourceSumsStep(points, m - 1, k);
    }
  }

  /** Summing source by source, as `calculate` does, counts every pair once. */
  lemma {:induction false} SourceSumsArePairs(points: seq<Coordinate>, k: int)
    requires 0 <= k <= |points|
    ensures SourceSums(points, |points|, k) == PairSum(points, k)
  {
    if k == 0 {
      SourceSumsNone(points, |points|);
    } else {
      SourceSumsArePairs(points, k - 1);
      SourceSumsStep(points, |points|, k - 1);
    }
  }

  /** `calculate` of both universe classes, over the galaxies' coordinates:
      every source with every later destination. */
  method SumOfDistances(points: seq<Coordinate>) returns (totalDistance: int)
    ensures totalDistance == PairSum(points, |points|)
  {
    totalDistance := 0;
    var sourceIndex := 0;
    while sourceIndex < |points| - 1
      invariant 0 <= sourceIndex <= |points|
      invariant |points| > 0 ==> sourceIndex <= |points| - 1
      invariant totalDistance == SourceSums(points, sourceIndex, |points|)
    {
      var destinationIndex := sourceIndex + 1;
      while destinationIndex < |points|
        invariant sourceIndex + 1 <= destinationIndex <= |points|
        invariant totalDistance ==
          SourceSums(points, sourceIndex, |points|) + DistancesFrom(points, sourceIndex, destinationIndex)
      {
        totalDistance := totalDistance + Distance(points[sourceIndex], points[destinationIndex]);
        destinationIndex := destinationIndex + 1;
      }
      sourceIndex := sourceIndex + 1;
    }
    if |points| > 0 {
      assert SourceSums(points, |points|, |points|) == totalDistance;
    }
    SourceSumsArePairs(points, |points|);
  }

  /** The distance is a metric on the grid: symmetric, zero exactly between
      a point and itself. */
  lemma DistanceIsMetric(a: Coordinate, b: Coordinate)
    ensures Distance(a, b) == Distance(b, a) >= 0
    ensures Distance(a, b) == 0 <==> a == b
  {
  }

  /** Listing a pair the other way round does not change the sum. */
  lemma {:induction false} PairSumSwapsLastTwo(points: seq<Coordinate>)
    requires |points| >= 2
    ensures var n := |points|;
      PairSum(points[..n - 2] + [points[n - 1], points[n - 2]], n) == PairSum(points, n)
  {
    var n := |points|;
    var swapped := points[..n - 2] + [points[n - 1], points[n - 2]];
    PairSumPrefix(points, swapped, n - 2);
    DistancesToPrefix(points, swapped, n - 2, n - 2, n - 1);
    DistancesToPrefix(points, swapped, n - 2, n - 1, n - 2);
  }

  /** Sums over a common prefix agree. */
  lemma {:induction false} PairSumPrefix(p: seq<Coordinate>, q: seq<Coordinate>, n: int)
    requires 0 <= n <= |p| && n <= |q| && p[..n] == q[..n]
    ensures PairSum(p, n) == PairSum(q, n)
  {
    if n > 0 {
      assert p[..n - 1] == q[..n - 1];
      PairSumPrefix(p, q, n - 1);
      assert p[n - 1] == q[n - 1];
      DistancesToPrefix(p, q, n - 1, n - 1, n - 1);
    }
  }

  lemma {:induction false} DistancesToPrefix(p: seq<Coordinate>, q: seq<Coordinate>, k: int, j: int, j': int)
    requires 0 <= k <= |p| && k <= |q| && p[..k] == q[..k]
    requires 0 <= j < |p| && 0 <= j' < |q| && p[j] == q[j']
    ensures DistancesTo(p, j, k) == DistancesTo(q, j', k)
  {
    if k > 0 {
      assert p[..k - 1] == q[..k - 1];
      assert p[k - 1] == p[..k][k - 1] == q[k - 1];
      DistancesToPrefix(p, q, k - 1, j, j');
    }
  }

  /* ---------------------------------------------------------------------- */
  /* Galaxies                                                                */

  /** The ascending indexes of the cells that `isGalaxy` picks: `map` to the
      index or `null`, then `filter`. */
  function Indexes(cells: string, isGalaxy: char -> bool): (r: seq<int>)
    ensures forall k :: 0 <= k < |r| ==> 0 <= r[k] < |cells|
  {
    if cells == [] then []
    else Indexes(cells[..|cells| - 1], isGalaxy) + (if isGalaxy(cells[|cells| - 1]) then [|cells| - 1] else [])
  }

  /** Strictly ascending integers. */
  predicate Ascending(s: seq<int>)
  {
    forall i, j :: 0 <= i < j < |s| ==> s[i] < s[j]
  }

  /** The galaxies are listed in index order, each once, and are exactly the
      picked cells. */
  lemma {:induction false} IndexesSpec(cells: string, isGalaxy: char -> bool)
    ensures Ascending(Indexes(cells, isGalaxy))
    ensures forall i :: i in Indexes(cells, isGalaxy) <==> 0 <= i < |cells| && isGalaxy(cells[i])
  {
    if cells != [] {
      var init := cells[..|cells| - 1];
      IndexesSpec(init, isGalaxy);
      forall i | 0 <= i < |init|
        ensures isGalaxy(init[i]) == isGalaxy(cells[i])
      {
      }
    }
  }

  /** `identifyGalaxies` of `Universe`: every cell that is not empty space. */
  predicate IsGalaxyCell(c: char)
  {
    c != EmptySpace
  }

  /* ---------------------------------------------------------------------- */
  /* Rows                                                                    */

  /** The rows of a flat grid whose length is a multiple of the row length. */
  function Split(cells: string, width: int): (rows: seq<string>)
    requires width > 0 && |cells| % width == 0
    ensures Rectangular(rows, width) && Flatten(rows) == cells
    decreases |cells|
  {
    if |cells| == 0 then []
    else
      SplitStep(|cells|, width);
      var cut := |cells| - width;
      var rows := Split(cells[..cut], width) + [cells[cut..]];
      assert rows[..|rows| - 1] == Split(cells[..cut], width);
      rows
  }

  lemma SplitStep(n: int, width: int)
    requires width > 0 && n > 0 && n % width == 0
    ensures n >= width && (n - width) % width == 0
  {
    var q := n / width;
    assert n == q * width;
    MulLe(1, q, width);
    assert n - width == (q - 1) * width;
    DivModUnique(q - 1, 0, width);
  }

  /** A flat grid has one way of being cut into rows of a given width: the
      rows that `getRows` returns are `Split`'s. */
  lemma {:induction false} SplitUnique(rows: seq<string>, width: int)
    requires width > 0 && Rectangular(rows, width)
    ensures |Flatten(rows)| % width == 0
    ensures Split(Flatten(rows), width) == rows
  {
    FlattenLength(rows, width);
    DivModUnique(|rows|, 0, width);
    if rows != [] {
      var init := rows[..|rows| - 1];
      SplitUnique(init, width);
      var cells := Flatten(rows);
      assert cells == Flatten(init) + rows[|rows| - 1];
      assert cells[..|cells| - width] == Flatten(init);
      assert cells[|cells| - width..] == rows[|rows| - 1];
    }
  }

  /* ---------------------------------------------------------------------- */
  /* Expansion                                                               */

  predicate IsEmptyRow(row: string)
  {
    forall c :: 0 <= c < |row| ==> row[c] == EmptySpace
  }

  /** Every all-empty row twice, every other row once, in order. */
  function ExpandRows(rows: seq<string>): (r: seq<string>)
  {
    if rows == [] then []
    else
      var last := rows[|rows| - 1];
      ExpandRows(rows[..|rows| - 1]) + (if IsEmptyRow(last) then [last, last] else [last])
  }

  /** `expandUniverseVertically`: every row pushed once, and once more when
      it holds only empty space; the rows are then joined. */
  method ExpandUniverseVertically(cells: string, rowLength: int) returns (expandedUniverse: string)
    requires rowLength > 0 && |cells| % rowLength == 0
    ensures expandedUniverse == Flatten(ExpandRows(Split(cells, rowLength)))
  {
    var rows := GetRows(Grid(cells, rowLength));
    SplitUnique(rows, rowLength);
    var expanded: seq<string> := [];
    for r := 0 to |rows|
      invariant expanded == ExpandRows(rows[..r])
    {
      assert rows[..r + 1][..r] == rows[..r];
      var row := rows[r];
      expanded := expanded + [row];
      if forall c :: 0 <= c < |row| ==> row[c] == EmptySpace {
        expanded := expanded + [row];
      }
    }
    assert rows[..|rows|] == rows;
    expandedUniverse := Flatten(expanded);
  }

  /** The indexes of the all-empty rows, ascending. */
  function EmptyRows(rows: seq<string>): (r: seq<int>)
    ensures forall i :: 0 <= i < |r| ==> 0 <= r[i] < |rows|
  {
    if rows == [] then []
    else EmptyRows(rows[..|rows| - 1]) + (if IsEmptyRow(rows[|rows| - 1]) then [|rows| - 1] else [])
  }

  /** Vertical expansion keeps the rows' width and adds one row per empty
      row. */
  lemma {:induction false} ExpandRowsShape(rows: seq<string>, width: int)
    ensures Rectangular(rows, width) ==> Rectangular(ExpandRows(rows), width)
    ensures |ExpandRows(rows)| == |rows| + |EmptyRows(rows)|
  {
    if rows != [] {
      ExpandRowsShape(rows[..|rows| - 1], width);
    }
  }

  /** Each row `r` moves down by the number of empty rows above it. */
  lemma {:induction false} ExpandRowsAt(rows: seq<string>, r: int)
    requires 0 <= r < |rows|
    ensures r + CountBelow(EmptyRows(rows), r) < |ExpandRows(rows)|
    ensures ExpandRows(rows)[r + CountBelow(EmptyRows(rows), r)] == rows[r]
  {
    var n := |rows|;
    var init := rows[..n - 1];
    ExpandRowsShape(init, 0);
    CountBelowIgnoresLast(EmptyRows(init), n - 1, r);
    assert CountBelow(EmptyRows(rows), r) == CountBelow(EmptyRows(init), r) by {
      if IsEmptyRow(rows[n - 1]) {
        assert EmptyRows(rows) == EmptyRows(init) + [n - 1];
      } else {
        assert EmptyRows(rows) == EmptyRows(init) + [];
        assert EmptyRows(init) + [] == EmptyRows(init);
      }
    }
    var tail := if IsEmptyRow(rows[n - 1]) then [rows[n - 1], rows[n - 1]] else [rows[n - 1]];
    assert ExpandRows(rows) == ExpandRows(init) + tail;
    if r < n - 1 {
      ExpandRowsAt(init, r);
      assert rows[r] == init[r];
    } else {
      CountBelowAll(EmptyRows(init), r);
    }
  }

  /** The number of elements below `bound`, as `filter(e => e < bound).length`
      counts them. */
  function CountBelow(s: seq<int>, bound: int): nat
  {
    if s == [] then 0
    else CountBelow(s[..|s| - 1], bound) + (if s[|s| - 1] < bound then 1 else 0)
  }

  /** When every element is below the bound, all of them count. */
  lemma {:induction false} CountBelowAll(s: seq<int>, bound: int)
    requires forall i :: 0 <= i < |s| ==> s[i] < bound
    ensures CountBelow(s, bound) == |s|
  {
    if s != [] {
      CountBelowAll(s[..|s| - 1], bound);
    }
  }

  /** When no element is below the bound, none counts. */
  lemma {:induction false} CountBelowNone(s: seq<int>, bound: int)
    requires forall i :: 0 <= i < |s| ==> s[i] >= bound
    ensures CountBelow(s, bound) == 0
  {
    if s != [] {
      CountBelowNone(s[..|s| - 1], bound);
    }
  }

  /** An element appended at or above the bound is not counted. */
  lemma CountBelowIgnoresLast(s: seq<int>, e: int, bound: int)
    requires bound <= e
    ensures CountBelow(s + [e], bound) == CountBelow(s, bound)
  {
    assert (s + [e])[..|s|] == s;
  }

  /** The count grows with the bound. */
  lemma {:induction false} CountBelowMonotone(s: seq<int>, a: int, b: int)
    requires a <= b
    ensures CountBelow(s, a) <= CountBelow(s, b)
  {
    if s != [] {
      CountBelowMonotone(s[..|s| - 1], a, b);
    }
  }

  /** Raising the bound by one counts `k` too, when it is listed. */
  lemma {:induction false} CountBelowStep(s: seq<int>, k: int)
    requires Ascending(s)
    ensures CountBelow(s, k + 1) == CountBelow(s, k) + (if k in s then 1 else 0)
  {
    if s != [] {
      var init := s[..|s| - 1];
      assert Ascending(init);
      CountBelowStep(init, k);
      if s[|s| - 1] == k {
        forall i | 0 <= i < |init|
          ensures init[i] != k
        {
          assert init[i] == s[i] < s[|s| - 1];
        }
      }
      assert s == init + [s[|s| - 1]];
      assert k in s <==> k in init || s[|s| - 1] == k;
    }
  }

  /** Column `column` holds only empty space; cells past the end of a row
      are not visited by `walkColumn`. */
  predicate IsEmptyColumn(rows: seq<string>, column: int)
  {
    forall r :: 0 <= r < |rows| && 0 <= column < |rows[r]| ==> rows[r][column] == EmptySpace
  }

  /** The empty columns below `k`, ascending. */
  function EmptyColumns(rows: seq<string>, k: int): (r: seq<int>)
    ensures forall i :: 0 <= i < |r| ==> 0 <= r[i] < k
  {
    if k <= 0 then []
    else EmptyColumns(rows, k - 1) + (if IsEmptyColumn(rows, k - 1) then [k - 1] else [])
  }

  /** The cells of column `column`, top to bottom. */
  function Column(rows: seq<string>, column: int): (r: string)
    requires 0 <= column
    requires forall i :: 0 <= i < |rows| ==> column < |rows[i]|
    ensures |r| == |rows|
  {
    seq(|rows|, i requires 0 <= i < |rows| => rows[i][column])
  }

  /** Taking one more row adds that row's cell to the column. */
  lemma ColumnSnoc(rows: seq<string>, k: int, column: int)
    requires 0 <= k < |rows| && 0 <= column
    requires forall i :: 0 <= i < |rows| ==> column < |rows[i]|
    ensures Column(rows[..k + 1], column) == Column(rows[..k], column) + [rows[k][column]]
  {
    var a, b := Column(rows[..k + 1], column), Column(rows[..k], column) + [rows[k][column]];
    forall i | 0 <= i < k + 1
      ensures a[i] == b[i]
    {
      if i < k {
        assert a[i] == rows[i][column] == Column(rows[..k], column)[i];
      }
    }
  }

  /** `walkColumn`: from `column`, every `rowLength`-th cell while the index
      is inside the cells. */
  method WalkColumn(cells: string, rowLength: int, column: int) returns (columnCells: string)
    requires rowLength > 0 && |cells| % rowLength == 0 && 0 <= column < rowLength
    ensures columnCells == Column(Split(cells, rowLength), column)
  {
    ghost var rows := Split(cells, rowLength);
    FlattenLength(rows, rowLength);
    columnCells := [];
    var index := column;
    ghost var k := 0;
    while index < |cells|
      invariant 0 <= k <= |rows|
      invariant index == k * rowLength + column
      invariant columnCells == Column(rows[..k], column)
      decreases |cells| - index
    {
      if k >= |rows| {
        MulLe(|rows|, k, rowLength);
      }
      FlattenAt(rows, rowLength, k, column);
      ColumnSnoc(rows, k, column);
      columnCells := columnCells + [cells[index]];
      index := index + rowLength;
      k := k + 1;
    }
    if k < |rows| {
      MulLess(k, |rows|, rowLength);
    }
    assert rows[..k] == rows;
  }

  /** `findEmptyColumns`: the columns below the row length whose cells are
      all empty space. */
  method FindEmptyColumns(cells: string, rowLength: int) returns (emptyColumns: seq<int>)
    requires rowLength > 0 && |cells| % rowLength == 0
    ensures emptyColumns == EmptyColumns(Split(cells, rowLength), rowLength)
  {
    ghost var rows := Split(cells, rowLength);
    emptyColumns := [];
    for column := 0 to rowLength
      invariant emptyColumns == EmptyColumns(rows, column)
    {
      var columnCells := WalkColumn(cells, rowLength, column);
      if forall i :: 0 <= i < |columnCells| ==> columnCells[i] == EmptySpace {
        emptyColumns := emptyColumns + [column];
        assert IsEmptyColumn(rows, column) by {
          forall r | 0 <= r < |rows| && 0 <= column < |rows[r]|
            ensures rows[r][column] == EmptySpace
          {
            assert columnCells[r] == rows[r][column];
          }
        }
      } else {
        var i :| 0 <= i < |columnCells| && columnCells[i] != EmptySpace;
        assert !IsEmptyColumn(rows, column) by {
          assert columnCells[i] == rows[i][column];
        }
      }
    }
  }

  lemma {:induction false} EmptyColumnsSpec(rows: seq<string>, k: int)
    ensures Ascending(EmptyColumns(rows, k))
    ensures forall c :: c in EmptyColumns(rows, k) <==> 0 <= c < k && IsEmptyColumn(rows, c)
  {
    if k > 0 {
      var before := EmptyColumns(rows, k - 1);
      EmptyColumnsSpec(rows, k - 1);
      if IsEmptyColumn(rows, k - 1) {
        assert EmptyColumns(rows, k) == before + [k - 1];
      } else {
        assert EmptyColumns(rows, k) == before + [];
        assert before + [] == before;
      }
    }
  }

  /** `row.slice(0, column) + emptySpace + row.slice(column)`. */
  function InsertSpace(row: string, column: int): (r: string)
    requires 0 <= column <= |row|
    ensures |r| == |row| + 1
  {
    row[..column] + [EmptySpace] + row[column..]
  }

  /** The inner `forEach`: one space inserted at each column, in the order
      given. */
  function InsertSpaces(row: string, columns: seq<int>): (r: string)
    requires forall i :: 0 <= i < |columns| ==> 0 <= columns[i] <= |row|
    ensures |r| == |row| + |columns|
  {
    if columns == [] then row
    else InsertSpace(InsertSpaces(row, columns[..|columns| - 1]), columns[|columns| - 1])
  }

  /** Every row with a space inserted at each of `columns`. */
  function WidenRows(rows: seq<string>, columns: seq<int>, width: int): (r: seq<string>)
    requires Rectangular(rows, width)
    requires forall i :: 0 <= i < |columns| ==> 0 <= columns[i] <= width
    ensures Rectangular(r, width + |columns|) && |r| == |rows|
  {
    if rows == [] then []
    else WidenRows(rows[..|rows| - 1], columns, width) + [InsertSpaces(rows[|rows| - 1], columns)]
  }

  /** `expandUniverseHorizontally`: the empty columns are reversed so that
      each insertion leaves the lower columns in place; the row length grows
      by one per empty column. */
  method ExpandUniverseHorizontally(cells: string, rowLength: int) returns (newLength: int, universe: string)
    requires rowLength > 0 && |cells| % rowLength == 0
    ensures var rows := Split(cells, rowLength);
      var emptyColumns := Reversed(EmptyColumns(rows, rowLength));
      newLength == rowLength + |emptyColumns| &&
      universe == Flatten(WidenRows(rows, emptyColumns, rowLength))
  {
    var emptyColumns := FindEmptyColumns(cells, rowLength);
    emptyColumns := Reversed(emptyColumns);
    var rows := GetRows(Grid(cells, rowLength));
    SplitUnique(rows, rowLength);
    var widened: seq<string> := [];
    for r := 0 to |rows|
      invariant widened == WidenRows(rows[..r], emptyColumns, rowLength)
    {
      assert rows[..r + 1][..r] == rows[..r];
      var row := WidenRow(rows[r], emptyColumns);
      widened := widened + [row];
    }
    assert rows[..|rows|] == rows;
    newLength := rowLength + |emptyColumns|;
    universe := Flatten(widened);
  }

  /** The callback of `rows.map`: one space inserted in front of each of
      `emptyColumns`, in the order given. */
  method WidenRow(row: string, emptyColumns: seq<int>) returns (widened: string)
    requires forall i :: 0 <= i < |emptyColumns| ==> 0 <= emptyColumns[i] <= |row|
    ensures widened == InsertSpaces(row, emptyColumns)
  {
    widened := row;
    for k := 0 to |emptyColumns|
      invariant widened == InsertSpaces(row, emptyColumns[..k])
    {
      assert emptyColumns[..k + 1][..k] == emptyColumns[..k];
      var column := emptyColumns[k];
      widened := widened[..column] + [EmptySpace] + widened[column..];
    }
    assert emptyColumns[..|emptyColumns|] == emptyColumns;
  }

  /* ---------------------------------------------------------------------- */
  /* What horizontal expansion does to a row                                 */

  /** Strictly descending integers. */
  predicate Descending(s: seq<int>)
  {
    forall i, j :: 0 <= i < j < |s| ==> s[i] > s[j]
  }

  lemma ReversedDescending(s: seq<int>)
    requires Ascending(s)
    ensures Descending(Reversed(s))
    ensures forall x :: x in Reversed(s) <==> x in s
  {
    var r := Reversed(s);
    forall x | x in s
      ensures x in r
    {
      var i :| 0 <= i < |s| && s[i] == x;
      assert r[|s| - 1 - i] == x;
    }
  }

  /** The row with an empty cell placed in front of every column listed in
      `columns`. */
  function Doubled(row: string, columns: seq<int>): (r: string)
    ensures |r| >= |row|
  {
    if row == [] then []
    else
      Doubled(row[..|row| - 1], columns) + (if |row| - 1 in columns then [EmptySpace] else []) + [row[|row| - 1]]
  }

  /** Only the listed columns inside the row matter. */
  lemma {:induction false} DoubledSameColumns(row: string, a: seq<int>, b: seq<int>)
    requires forall c :: 0 <= c < |row| ==> (c in a <==> c in b)
    ensures Doubled(row, a) == Doubled(row, b)
  {
    if row != [] {
      DoubledSameColumns(row[..|row| - 1], a, b);
    }
  }

  lemma {:induction false} DoubledNone(row: string, columns: seq<int>)
    requires forall c :: 0 <= c < |row| ==> c !in columns
    ensures Doubled(row, columns) == row
  {
    if row != [] {
      DoubledNone(row[..|row| - 1], columns);
    }
  }

  /** Adding a column left of all the listed ones inserts one more space. */
  lemma {:induction false} DoubledLowest(row: string, columns: seq<int>, c: int)
    requires 0 <= c < |row|
    requires forall d :: d in columns ==> d > c
    ensures Doubled(row, columns + [c]) == InsertSpace(Doubled(row, columns), c)
  {
    var n := |row|;
    var init := row[..n - 1];
    assert init + [row[n - 1]] == row;
    if n - 1 > c {
      DoubledLowest(init, columns, c);
      DoubledLowestStep(init, row[n - 1], columns, c);
    } else {
      DoubledLowestAtEnd(init, row[n - 1], columns);
    }
  }

  lemma DoubledLowestStep(init: string, ch: char, columns: seq<int>, c: int)
    requires 0 <= c < |init|
    requires forall d :: d in columns ==> d > c
    requires Doubled(init, columns + [c]) == InsertSpace(Doubled(init, columns), c)
    ensures Doubled(init + [ch], columns + [c]) == InsertSpace(Doubled(init + [ch], columns), c)
  {
    var wider := columns + [c];
    var n := |init|;
    var dot: string := if n in columns then [EmptySpace] else [];
    var t := dot + [ch];
    var x := Doubled(init, columns);
    assert n in wider <==> n in columns;
    calc {
      Doubled(init + [ch], wider);
      { DoubledSnoc(init, ch, wider); }
      Doubled(init, wider) + dot + [ch];
      { assert Doubled(init, wider) + dot + [ch] == Doubled(init, wider) + t; }
      Doubled(init, wider) + t;
      InsertSpace(x, c) + t;
      { InsertSpaceAppend(x, t, c); }
      InsertSpace(x + t, c);
      { assert x + t == x + dot + [ch]; DoubledSnoc(init, ch, columns); }
      InsertSpace(Doubled(init + [ch], columns), c);
    }
  }

  lemma DoubledLowestAtEnd(init: string, ch: char, columns: seq<int>)
    requires forall d :: d in columns ==> d > |init|
    ensures Doubled(init + [ch], columns + [|init|]) == InsertSpace(Doubled(init + [ch], columns), |init|)
  {
    var wider := columns + [|init|];
    DoubledNone(init, wider);
    DoubledNone(init, columns);
    DoubledSnoc(init, ch, wider);
    DoubledSnoc(init, ch, columns);
    assert (init + [ch])[..|init|] == init;
    assert (init + [ch])[|init|..] == [ch];
  }

  lemma InsertSpaceAppend(x: string, t: string, c: int)
    requires 0 <= c <= |x|
    ensures InsertSpace(x, c) + t == InsertSpace(x + t, c)
  {
    assert (x + t)[..c] == x[..c];
    assert (x + t)[c..] == x[c..] + t;
  }

  /** Inserting a space at each empty column, highest first, doubles the
      empty columns: every insertion lands left of the columns already
      handled. */
  lemma {:induction false} InsertSpacesDoubles(row: string, columns: seq<int>)
    requires Descending(columns)
    requires forall i :: 0 <= i < |columns| ==> 0 <= columns[i] < |row|
    ensures InsertSpaces(row, columns) == Doubled(row, columns)
  {
    if columns == [] {
      DoubledNone(row, columns);
    } else {
      var k := |columns| - 1;
      var init := columns[..k];
      InsertSpacesDoubles(row, init);
      forall d | d in init
        ensures d > columns[k]
      {
      }
      DoubledLowest(row, init, columns[k]);
      assert init + [columns[k]] == columns;
    }
  }

  /* ---------------------------------------------------------------------- */
  /* Where the galaxies end up                                               */

  /** Doubling the listed columns lengthens the row by the listed columns
      inside it. */
  lemma {:induction false} DoubledLength(row: string, columns: seq<int>)
    requires Ascending(columns) && forall i :: 0 <= i < |columns| ==> columns[i] >= 0
    ensures |Doubled(row, columns)| == |row| + CountBelow(columns, |row|)
  {
    if row == [] {
      CountBelowNone(columns, 0);
    } else {
      DoubledLength(row[..|row| - 1], columns);
      CountBelowStep(columns, |row| - 1);
    }
  }

  /** Each index moved right by the number of listed columns left of it. */
  function ShiftedBy(indexes: seq<int>, columns: seq<int>): (r: seq<int>)
    ensures |r| == |indexes|
  {
    if indexes == [] then []
    else
      var last := indexes[|indexes| - 1];
      ShiftedBy(indexes[..|indexes| - 1], columns) + [last + CountBelow(columns, last)]
  }

  /** After doubling empty columns, every galaxy of the row sits as many
      cells further right as there are doubled columns left of it. */
  lemma {:induction false} DoubledGalaxies(row: string, columns: seq<int>)
    requires Ascending(columns) && forall i :: 0 <= i < |columns| ==> columns[i] >= 0
    requires forall c :: 0 <= c < |row| && c in columns ==> row[c] == EmptySpace
    ensures Indexes(Doubled(row, columns), IsGalaxyCell) == ShiftedBy(Indexes(row, IsGalaxyCell), columns)
  {
    if row != [] {
      var n := |row|;
      var init := row[..n - 1];
      var ch := row[n - 1];
      forall c | 0 <= c < |init| && c in columns
        ensures init[c] == EmptySpace
      {
        assert init[c] == row[c];
      }
      DoubledGalaxies(init, columns);
      assert init + [ch] == row;
      DoubledGalaxiesStep(init, ch, columns);
    }
  }

  lemma DoubledGalaxiesStep(init: string, ch: char, columns: seq<int>)
    requires Ascending(columns) && forall i :: 0 <= i < |columns| ==> columns[i] >= 0
    requires IsGalaxyCell(ch) ==> |init| !in columns
    requires Indexes(Doubled(init, columns), IsGalaxyCell) == ShiftedBy(Indexes(init, IsGalaxyCell), columns)
    ensures Indexes(Doubled(init + [ch], columns), IsGalaxyCell)
         == ShiftedBy(Indexes(init + [ch], IsGalaxyCell), columns)
  {
    if IsGalaxyCell(ch) {
      DoubledLength(init, columns);
      DoubledSnocKept(init, ch, columns);
      DoubledGalaxyAppended(Doubled(init, columns), init, ch, columns);
    } else {
      DoubledSnoc(init, ch, columns);
      DoubledSpaceAppended(init, ch, columns);
    }
  }

  lemma DoubledSnocKept(init: string, ch: char, columns: seq<int>)
    requires |init| !in columns
    ensures Doubled(init + [ch], columns) == Doubled(init, columns) + [ch]
  {
    DoubledSnoc(init, ch, columns);
    assert Doubled(init, columns) + [] == Doubled(init, columns);
  }

  /** A galaxy appended to the row lands right after the doubled row `d`. */
  lemma DoubledGalaxyAppended(d: string, init: string, ch: char, columns: seq<int>)
    requires IsGalaxyCell(ch)
    requires |d| == |init| + CountBelow(columns, |init|)
    requires Indexes(d, IsGalaxyCell) == ShiftedBy(Indexes(init, IsGalaxyCell), columns)
    ensures Indexes(d + [ch], IsGalaxyCell) == ShiftedBy(Indexes(init + [ch], IsGalaxyCell), columns)
  {
    IndexesPicked(d, ch, IsGalaxyCell);
    IndexesPicked(init, ch, IsGalaxyCell);
    ShiftedBySnoc(Indexes(init, IsGalaxyCell), |init|, |d|, columns);
  }

  /** One more index, moved by the listed columns below it. */
  lemma ShiftedBySnoc(before: seq<int>, n: int, m: int, columns: seq<int>)
    requires m == n + CountBelow(columns, n)
    ensures ShiftedBy(before + [n], columns) == ShiftedBy(before, columns) + [m]
  {
    ShiftedByAppend(before, [n], columns);
    assert [n][..0] == [];
  }

  /** Empty space appended to the row adds no galaxy. */
  lemma DoubledSpaceAppended(init: string, ch: char, columns: seq<int>)
    requires !IsGalaxyCell(ch)
    requires Doubled(init + [ch], columns)
          == Doubled(init, columns) + (if |init| in columns then [EmptySpace] else []) + [ch]
    requires Indexes(Doubled(init, columns), IsGalaxyCell) == ShiftedBy(Indexes(init, IsGalaxyCell), columns)
    ensures Indexes(Doubled(init + [ch], columns), IsGalaxyCell)
         == ShiftedBy(Indexes(init + [ch], IsGalaxyCell), columns)
  {
    var d := Doubled(init, columns);
    var dot: string := if |init| in columns then [EmptySpace] else [];
    IndexesSkipped(d + dot, ch, IsGalaxyCell);
    IndexesSkipped(init, ch, IsGalaxyCell);
    if dot != [] {
      IndexesSkipped(d, EmptySpace, IsGalaxyCell);
    } else {
      assert d + dot == d;
    }
  }

  lemma DoubledSnoc(init: string, ch: char, columns: seq<int>)
    ensures Doubled(init + [ch], columns)
         == Doubled(init, columns) + (if |init| in columns then [EmptySpace] else []) + [ch]
  {
    assert (init + [ch])[..|init|] == init;
  }

  /** One more cell adds its index when it is picked ... */
  lemma IndexesPicked(cells: string, c: char, isGalaxy: char -> bool)
    requires isGalaxy(c)
    ensures Indexes(cells + [c], isGalaxy) == Indexes(cells, isGalaxy) + [|cells|]
  {
    assert (cells + [c])[..|cells|] == cells;
  }

  /** ... and adds nothing when it is not. */
  lemma IndexesSkipped(cells: string, c: char, isGalaxy: char -> bool)
    requires !isGalaxy(c)
    ensures Indexes(cells + [c], isGalaxy) == Indexes(cells, isGalaxy)
  {
    assert (cells + [c])[..|cells|] == cells;
  }

  lemma {:induction false} ShiftedByAppend(a: seq<int>, b: seq<int>, columns: seq<int>)
    ensures ShiftedBy(a + b, columns) == ShiftedBy(a, columns) + ShiftedBy(b, columns)
  {
    if b == [] {
      assert a + b == a;
    } else {
      ShiftedByAppend(a, b[..|b| - 1], columns);
      assert (a + b)[..|a + b| - 1] == a + b[..|b| - 1];
    }
  }

  /** Every index moved by `offset`. */
  function Shift(indexes: seq<int>, offset: int): (r: seq<int>)
    ensures |r| == |indexes|
  {
    seq(|indexes|, i requires 0 <= i < |indexes| => indexes[i] + offset)
  }

  /** The picked cells of a concatenation: those of the front, then those of
      the back moved by the front's length. */
  lemma {:induction false} IndexesAppend(a: string, b: string, isGalaxy: char -> bool)
    ensures Indexes(a + b, isGalaxy) == Indexes(a, isGalaxy) + Shift(Indexes(b, isGalaxy), |a|)
  {
    if b == [] {
      assert a + b == a;
    } else {
      var init := b[..|b| - 1];
      IndexesAppend(a, init, isGalaxy);
      assert (a + b)[..|a + b| - 1] == a + init;
    }
  }

  /** The cells at `columns` of row `y`. */
  function RowOf(columns: seq<int>, y: int): (r: seq<Coordinate>)
    ensures |r| == |columns|
  {
    seq(|columns|, i requires 0 <= i < |columns| => Coordinate(columns[i], y))
  }

  /** The galaxies' coordinates read row by row, left to right. */
  function RowCoordinates(rows: seq<string>, isGalaxy: char -> bool): seq<Coordinate>
  {
    if rows == [] then []
    else RowCoordinates(rows[..|rows| - 1], isGalaxy) + RowOf(Indexes(rows[|rows| - 1], isGalaxy), |rows| - 1)
  }

  /** Every galaxy found lies in one of the rows. */
  lemma {:induction false} RowCoordinatesInRows(rows: seq<string>, isGalaxy: char -> bool)
    ensures forall k :: 0 <= k < |RowCoordinates(rows, isGalaxy)| ==> 0 <= RowCoordinates(rows, isGalaxy)[k].y < |rows|
  {
    if rows != [] {
      RowCoordinatesInRows(rows[..|rows| - 1], isGalaxy);
    }
  }

  lemma RowCoordinatesSnoc(rows: seq<string>, row: string, isGalaxy: char -> bool)
    ensures RowCoordinates(rows + [row], isGalaxy)
         == RowCoordinates(rows, isGalaxy) + RowOf(Indexes(row, isGalaxy), |rows|)
  {
    assert (rows + [row])[..|rows|] == rows;
  }

  /** `indexToCoordinate` of each index. */
  function CoordinatesOf(g: Grid<char>, indexes: seq<int>): (r: seq<Coordinate>)
    requires g.columns > 0
    ensures |r| == |indexes|
  {
    seq(|indexes|, i requires 0 <= i < |indexes| => IndexToCoordinate(g, indexes[i]))
  }

  /** `indexToCoordinate` of every galaxy of a flat grid. */
  function FlatCoordinates(cells: string, width: int, isGalaxy: char -> bool): (r: seq<Coordinate>)
    requires width > 0
    ensures |r| == |Indexes(cells, isGalaxy)|
  {
    CoordinatesOf(Grid(cells, width), Indexes(cells, isGalaxy))
  }

  /** Reading the flat cells and reading the rows find the same galaxies at
      the same coordinates. */
  lemma {:induction false} FlatToRows(rows: seq<string>, width: int, isGalaxy: char -> bool)
    requires width > 0 && Rectangular(rows, width)
    ensures FlatCoordinates(Flatten(rows), width, isGalaxy) == RowCoordinates(rows, isGalaxy)
  {
    if rows != [] {
      var n := |rows|;
      var init := rows[..n - 1];
      FlatToRows(init, width, isGalaxy);
      FlattenLength(init, width);
      FlatCoordinatesLastRow(Flatten(init), rows[n - 1], width, n - 1, isGalaxy);
    }
  }

  /** A full row appended to the flat cells adds its galaxies in the next row. */
  lemma FlatCoordinatesLastRow(front: string, last: string, width: int, q: nat, isGalaxy: char -> bool)
    requires width > 0 && |last| == width && |front| == q * width
    ensures FlatCoordinates(front + last, width, isGalaxy)
         == FlatCoordinates(front, width, isGalaxy) + RowOf(Indexes(last, isGalaxy), q)
  {
    IndexesAppend(front, last, isGalaxy);
    CoordinatesOfNextRow(Grid(front + last, width), Grid(front, width),
      Indexes(front, isGalaxy), Indexes(last, isGalaxy), q);
  }

  /** Indexes in row `q` become coordinates in row `q`; the grid's cells do
      not matter, only its width. */
  lemma CoordinatesOfNextRow(g: Grid<char>, h: Grid<char>, a: seq<int>, b: seq<int>, q: nat)
    requires g.columns == h.columns > 0
    requires forall i :: 0 <= i < |b| ==> 0 <= b[i] < g.columns
    ensures CoordinatesOf(g, a + Shift(b, q * g.columns)) == CoordinatesOf(h, a) + RowOf(b, q)
  {
    var all := a + Shift(b, q * g.columns);
    forall i | |a| <= i < |all|
      ensures IndexToCoordinate(g, all[i]) == Coordinate(b[i - |a|], q)
    {
      CoordinateRoundTrip(g, Coordinate(b[i - |a|], q));
    }
  }

  /** Each coordinate moved right by the listed columns left of it. */
  function ShiftColumns(cs: seq<Coordinate>, columns: seq<int>): (r: seq<Coordinate>)
    ensures |r| == |cs|
  {
    seq(|cs|, i requires 0 <= i < |cs| => Coordinate(cs[i].x + CountBelow(columns, cs[i].x), cs[i].y))
  }

  /** Each coordinate moved down by the listed rows above it. */
  function ShiftRows(cs: seq<Coordinate>, rows: seq<int>): (r: seq<Coordinate>)
    ensures |r| == |cs|
  {
    seq(|cs|, i requires 0 <= i < |cs| => Coordinate(cs[i].x, cs[i].y + CountBelow(rows, cs[i].y)))
  }

  lemma ShiftColumnsAppend(a: seq<Coordinate>, b: seq<Coordinate>, columns: seq<int>)
    ensures ShiftColumns(a + b, columns) == ShiftColumns(a, columns) + ShiftColumns(b, columns)
  {
  }

  lemma ShiftRowsAppend(a: seq<Coordinate>, b: seq<Coordinate>, rows: seq<int>)
    ensures ShiftRows(a + b, rows) == ShiftRows(a, rows) + ShiftRows(b, rows)
  {
  }

  lemma ShiftColumnsOfRow(found: seq<int>, y: int, columns: seq<int>)
    ensures ShiftColumns(RowOf(found, y), columns) == RowOf(ShiftedBy(found, columns), y)
  {
    ShiftedByAt(found, columns);
  }

  /** Element `i` of `ShiftedBy` is element `i` moved. */
  lemma {:induction false} ShiftedByAt(indexes: seq<int>, columns: seq<int>)
    ensures forall i :: 0 <= i < |indexes| ==>
      ShiftedBy(indexes, columns)[i] == indexes[i] + CountBelow(columns, indexes[i])
  {
    if indexes != [] {
      var init := indexes[..|indexes| - 1];
      ShiftedByAt(init, columns);
      forall i | 0 <= i < |init|
        ensures indexes[i] == init[i]
      {
      }
    }
  }

  lemma ShiftRowsOfRow(found: seq<int>, y: int, rows: seq<int>)
    ensures ShiftRows(RowOf(found, y), rows) == RowOf(found, y + CountBelow(rows, y))
  {
  }

  /** Horizontal expansion moves each galaxy right by the empty columns left
      of it, and keeps its row. */
  lemma {:induction false} WidenRowsCoordinates(rows: seq<string>, columns: seq<int>, width: int)
    requires Rectangular(rows, width)
    requires Ascending(columns) && forall i :: 0 <= i < |columns| ==> 0 <= columns[i] < width
    requires forall c :: c in columns ==> IsEmptyColumn(rows, c)
    ensures RowCoordinates(WidenRows(rows, Reversed(columns), width), IsGalaxyCell)
         == ShiftColumns(RowCoordinates(rows, IsGalaxyCell), columns)
  {
    if rows != [] {
      var n := |rows|;
      var init := rows[..n - 1];
      var last := rows[n - 1];
      var reversed := Reversed(columns);
      assert Rectangular(init, width);
      forall c | c in columns
        ensures IsEmptyColumn(init, c)
      {
        assert IsEmptyColumn(rows, c);
        forall r | 0 <= r < |init| && 0 <= c < |init[r]|
          ensures init[r][c] == EmptySpace
        {
          assert init[r] == rows[r];
        }
      }
      WidenRowsCoordinates(init, columns, width);
      ReversedDescending(columns);
      InsertSpacesDoubles(last, reversed);
      DoubledSameColumns(last, reversed, columns);
      forall c | 0 <= c < |last| && c in columns
        ensures last[c] == EmptySpace
      {
        assert IsEmptyColumn(rows, c);
      }
      DoubledGalaxies(last, columns);
      var before := WidenRows(init, reversed, width);
      RowCoordinatesSnoc(before, Doubled(last, columns), IsGalaxyCell);
      assert WidenRows(rows, reversed, width) == before + [Doubled(last, columns)];
      var found := Indexes(last, IsGalaxyCell);
      ShiftColumnsAppend(RowCoordinates(init, IsGalaxyCell), RowOf(found, n - 1), columns);
      ShiftColumnsOfRow(found, n - 1, columns);
    }
  }

  /** An all-empty row holds no galaxy. */
  lemma {:induction false} EmptyRowHasNoGalaxy(row: string)
    requires IsEmptyRow(row)
    ensures Indexes(row, IsGalaxyCell) == []
  {
    if row != [] {
      EmptyRowHasNoGalaxy(row[..|row| - 1]);
    }
  }

  /** Vertical expansion moves each galaxy down by the empty rows above it,
      and keeps its column. */
  lemma {:induction false} ExpandRowsCoordinates(rows: seq<string>)
    ensures RowCoordinates(ExpandRows(rows), IsGalaxyCell)
         == ShiftRows(RowCoordinates(rows, IsGalaxyCell), EmptyRows(rows))
  {
    if rows != [] {
      var init := rows[..|rows| - 1];
      var last := rows[|rows| - 1];
      assert init + [last] == rows;
      ExpandRowsCoordinates(init);
      if IsEmptyRow(last) {
        ExpandEmptyRow(init, last);
      } else {
        ExpandOtherRow(init, last);
      }
    }
  }

  /** An empty row below the others adds no galaxy and moves none. */
  lemma ExpandEmptyRow(init: seq<string>, last: string)
    requires IsEmptyRow(last)
    requires RowCoordinates(ExpandRows(init), IsGalaxyCell)
          == ShiftRows(RowCoordinates(init, IsGalaxyCell), EmptyRows(init))
    ensures RowCoordinates(ExpandRows(init + [last]), IsGalaxyCell)
         == ShiftRows(RowCoordinates(init + [last], IsGalaxyCell), EmptyRows(init + [last]))
  {
    var rows := init + [last];
    var n := |rows|;
    assert rows[..n - 1] == init;
    var x := ExpandRows(init);
    var before := RowCoordinates(init, IsGalaxyCell);
    var empties := EmptyRows(init);
    EmptyRowHasNoGalaxy(last);
    assert ExpandRows(rows) == (x + [last]) + [last];
    RowCoordinatesSnoc(x, last, IsGalaxyCell);
    RowCoordinatesSnoc(x + [last], last, IsGalaxyCell);
    RowCoordinatesSnoc(init, last, IsGalaxyCell);
    assert EmptyRows(rows) == empties + [n - 1];
    RowCoordinatesInRows(init, IsGalaxyCell);
    ShiftRowsIgnoresLast(before, empties, n - 1);
  }

  /** A row holding a galaxy moves down by all the empty rows above it. */
  lemma ExpandOtherRow(init: seq<string>, last: string)
    requires !IsEmptyRow(last)
    requires RowCoordinates(ExpandRows(init), IsGalaxyCell)
          == ShiftRows(RowCoordinates(init, IsGalaxyCell), EmptyRows(init))
    ensures RowCoordinates(ExpandRows(init + [last]), IsGalaxyCell)
         == ShiftRows(RowCoordinates(init + [last], IsGalaxyCell), EmptyRows(init + [last]))
  {
    var rows := init + [last];
    var n := |rows|;
    assert rows[..n - 1] == init;
    var x := ExpandRows(init);
    var before := RowCoordinates(init, IsGalaxyCell);
    var empties := EmptyRows(init);
    var found := Indexes(last, IsGalaxyCell);
    assert EmptyRows(rows) == empties by {
      assert EmptyRows(rows) == empties + [];
    }
    assert ExpandRows(rows) == x + [last];
    assert |x| == n - 1 + CountBelow(empties, n - 1) by {
      ExpandRowsShape(init, 0);
      CountBelowAll(empties, n - 1);
    }
    RowCoordinatesSnoc(x, last, IsGalaxyCell);
    RowCoordinatesSnoc(init, last, IsGalaxyCell);
    ShiftRowsOfRow(found, n - 1, empties);
    ShiftRowsAppend(before, RowOf(found, n - 1), empties);
  }

  /** Coordinates above row `y` do not see an empty row listed at `y`. */
  lemma ShiftRowsIgnoresLast(cs: seq<Coordinate>, rows: seq<int>, y: int)
    requires forall k :: 0 <= k < |cs| ==> cs[k].y <= y
    ensures ShiftRows(cs, rows + [y]) == ShiftRows(cs, rows)
  {
    forall k | 0 <= k < |cs|
      ensures CountBelow(rows + [y], cs[k].y) == CountBelow(rows, cs[k].y)
    {
      CountBelowIgnoresLast(rows, y, cs[k].y);
    }
  }

  /** Doubling rows leaves the empty columns where they are. */
  lemma {:induction false} ExpandRowsColumns(rows: seq<string>, column: int)
    ensures IsEmptyColumn(ExpandRows(rows), column) <==> IsEmptyColumn(rows, column)
  {
    if rows != [] {
      var init := rows[..|rows| - 1];
      ExpandRowsColumns(init, column);
      var x := ExpandRows(init);
      var last := rows[|rows| - 1];
      assert IsEmptyColumn(rows, column) <==> IsEmptyColumn(init, column) && IsEmptyColumn([last], column) by {
        if IsEmptyColumn(init, column) && IsEmptyColumn([last], column) {
          forall r | 0 <= r < |rows| && 0 <= column < |rows[r]|
            ensures rows[r][column] == EmptySpace
          {
            if r < |init| {
              assert rows[r] == init[r];
            } else {
              assert rows[r] == [last][0];
            }
          }
        }
        if IsEmptyColumn(rows, column) {
          assert [last][0] == rows[|rows| - 1];
          forall r | 0 <= r < |init| && 0 <= column < |init[r]|
            ensures init[r][column] == EmptySpace
          {
            assert init[r] == rows[r];
          }
        }
      }
      var tail := if IsEmptyRow(last) then [last, last] else [last];
      assert ExpandRows(rows) == x + tail;
      assert IsEmptyColumn(x + tail, column) <==> IsEmptyColumn(x, column) && IsEmptyColumn(tail, column) by {
        if IsEmptyColumn(x, column) && IsEmptyColumn(tail, column) {
          forall r | 0 <= r < |x + tail| && 0 <= column < |(x + tail)[r]|
            ensures (x + tail)[r][column] == EmptySpace
          {
            if r < |x| {
              assert (x + tail)[r] == x[r];
            } else {
              assert (x + tail)[r] == tail[r - |x|];
            }
          }
        }
        if IsEmptyColumn(x + tail, column) {
          forall r | 0 <= r < |x| && 0 <= column < |x[r]|
            ensures x[r][column] == EmptySpace
          {
            assert x[r] == (x + tail)[r];
          }
          forall r | 0 <= r < |tail| && 0 <= column < |tail[r]|
            ensures tail[r][column] == EmptySpace
          {
            assert tail[r] == (x + tail)[|x| + r];
          }
        }
      }
      assert IsEmptyColumn(tail, column) <==> IsEmptyColumn([last], column) by {
        if IsEmptyColumn([last], column) {
          assert [last][0] == last;
        }
        if IsEmptyColumn(tail, column) {
          assert tail[0] == last;
        }
      }
    }
  }

  lemma {:induction false} EmptyColumnsOfExpanded(rows: seq<string>, k: int)
    ensures EmptyColumns(ExpandRows(rows), k) == EmptyColumns(rows, k)
  {
    if k > 0 {
      EmptyColumnsOfExpanded(rows, k - 1);
      ExpandRowsColumns(rows, k - 1);
    }
  }

  /* ---------------------------------------------------------------------- */
  /* The universe                                                            */

  /** The rows after `expandUniverse`: empty rows doubled, then a space
      inserted at every empty column, highest first. */
  function ExpandedRows(cells: string, rowLength: int): seq<string>
    requires rowLength > 0 && |cells| % rowLength == 0
  {
    var rows := Split(cells, rowLength);
    ExpandRowsShape(rows, rowLength);
    WidenRows(ExpandRows(rows), Reversed(EmptyColumns(rows, rowLength)), rowLength)
  }

  /** The row length after `expandUniverse`. */
  function ExpandedWidth(cells: string, rowLength: int): int
    requires rowLength > 0 && |cells| % rowLength == 0
  {
    rowLength + |EmptyColumns(Split(cells, rowLength), rowLength)|
  }

  /** Where the galaxies of the expanded universe are: each galaxy of the
      image, moved right by the empty columns left of it and down by the
      empty rows above it. */
  lemma ExpandedGalaxies(cells: string, rowLength: int)
    requires rowLength > 0 && |cells| % rowLength == 0
    ensures var rows := Split(cells, rowLength);
      FlatCoordinates(Flatten(ExpandedRows(cells, rowLength)), ExpandedWidth(cells, rowLength), IsGalaxyCell)
      == ShiftColumns(ShiftRows(FlatCoordinates(cells, rowLength, IsGalaxyCell), EmptyRows(rows)),
                      EmptyColumns(rows, rowLength))
  {
    var rows := Split(cells, rowLength);
    var vertical := ExpandRows(rows);
    var empty := EmptyColumns(rows, rowLength);
    ExpandRowsShape(rows, rowLength);
    EmptyColumnsOfExpanded(rows, rowLength);
    EmptyColumnsSpec(vertical, rowLength);
    FlatToRows(ExpandedRows(cells, rowLength), ExpandedWidth(cells, rowLength), IsGalaxyCell);
    WidenRowsCoordinates(vertical, empty, rowLength);
    ExpandRowsCoordinates(rows);
    FlatToRows(rows, rowLength, IsGalaxyCell);
  }

  /** `Universe`: the expanded cells, their row length and the indexes of
      the galaxies in them. */
  class Universe {
    var cells: string
    var rowLength: int
    var galaxyIndexes: seq<int>

    /** The galaxies listed are those of the cells. */
    ghost predicate Valid()
      reads this
    {
      rowLength > 0 && galaxyIndexes == Indexes(cells, IsGalaxyCell)
    }

    /** The constructor: `expandUniverse`, then `identifyGalaxies`. */
    constructor(cells: string, rowLength: int)
      requires rowLength > 0 && |cells| % rowLength == 0
      ensures Valid()
      ensures this.cells == Flatten(ExpandedRows(cells, rowLength))
      ensures this.rowLength == ExpandedWidth(cells, rowLength)
    {
      var vertical := ExpandUniverseVertically(cells, rowLength);
      ghost var rows := Split(cells, rowLength);
      ExpandRowsShape(rows, rowLength);
      SplitUnique(ExpandRows(rows), rowLength);
      var newLength, universe := ExpandUniverseHorizontally(vertical, rowLength);
      EmptyColumnsOfExpanded(rows, rowLength);
      this.cells := universe;
      this.rowLength := newLength;
      this.galaxyIndexes := Indexes(universe, IsGalaxyCell);
    }

    /** `indexToCoordinate` of every listed galaxy. */
    function Coordinates(): seq<Coordinate>
      reads this
      requires rowLength > 0
    {
      CoordinatesOf(Grid(cells, rowLength), galaxyIndexes)
    }

    /** `calculate`: the distance between every pair of galaxies, once. */
    method Calculate() returns (totalDistance: int)
      requires Valid()
      ensures totalDistance == PairSum(Coordinates(), |Coordinates()|)
    {
      totalDistance := SumOfDistances(Coordinates());
    }
  }

  /** What `calculate` of a universe built from an image sums over: the
      image's galaxies, moved by the empty rows and columns before them. */
  lemma UniverseGalaxies(u: Universe, cells: string, rowLength: int)
    requires rowLength > 0 && |cells| % rowLength == 0
    requires u.Valid()
    requires u.cells == Flatten(ExpandedRows(cells, rowLength)) && u.rowLength == ExpandedWidth(cells, rowLength)
    ensures var rows := Split(cells, rowLength);
      u.Coordinates()
      == ShiftColumns(ShiftRows(FlatCoordinates(cells, rowLength, IsGalaxyCell), EmptyRows(rows)),
                      EmptyColumns(rows, rowLength))
  {
    ExpandedGalaxies(cells, rowLength);
  }
}
