/** The generic 2-D grid of `src/utils/Grid.ts`: a flat sequence of cells with a
    fixed number of columns, coordinate/index conversion, the 4-neighbourhood of
    a cell and its iteration order (up, right, down, left), and the rows. */
module Grids {
  import opened Common

  datatype Direction = Up | Right | Down | Left

  datatype Coordinate = Coordinate(x: int, y: int)

  /** A cell adjacent to another one: its index and its value. */
  datatype Neighbor<T> = Neighbor(index: int, value: T)

  /** The neighbours that exist in each direction. */
  datatype Neighbors<T> = Neighbors(
    up: Option<Neighbor<T>>,
    right: Option<Neighbor<T>>,
    down: Option<Neighbor<T>>,
    left: Option<Neighbor<T>>)
  {
    function Get(d: Direction): Option<Neighbor<T>>
    {
      match d
      case Up => up
      case Right => right
      case Down => down
      case Left => left
    }
  }

  /** One element of the iteration over a cell's neighbours. */
  datatype CellNeighbor<T> = CellNeighbor(direction: Direction, value: Neighbor<T>)

  datatype Grid<T> = Grid(cells: seq<T>, columns: int)
  {
    /** A grid as the puzzles build it: equal-length rows of `columns` cells. */
    predicate Valid()
    {
      columns > 0 && |cells| % columns == 0
    }

    function Rows(): int
      requires Valid()
    {
      |cells| / columns
    }
  }

  /** The position of each direction in the iteration order. */
  function DirectionOrder(d: Direction): nat
  {
    match d
    case Up => 0
    case Right => 1
    case Down => 2
    case Left => 3
  }

  function Opposite(d: Direction): Direction
  {
    match d
    case Up => Down
    case Right => Left
    case Down => Up
    case Left => Right
  }

  /** `coordinateToIndex`: row-major index of a coordinate; no bounds check. */
  function CoordinateToIndex<T>(g: Grid<T>, c: Coordinate): int
  {
    c.y * g.columns + c.x
  }

  /** `indexToCoordinate`: `Math.floor(index / columns)` is the row and the
      JavaScript remainder `index % columns` the column. */
  function IndexToCoordinate<T>(g: Grid<T>, index: int): (c: Coordinate)
    requires g.columns > 0
    ensures index >= 0 ==> 0 <= c.x < g.columns && c.y >= 0
    ensures index >= 0 ==> CoordinateToIndex(g, c) == index
  {
    Coordinate(JsRem(index, g.columns), index / g.columns)
  }

  /** Converting an in-range coordinate to an index and back gives the coordinate. */
  lemma CoordinateRoundTrip<T>(g: Grid<T>, c: Coordinate)
    requires g.columns > 0 && 0 <= c.x < g.columns && c.y >= 0
    ensures IndexToCoordinate(g, CoordinateToIndex(g, c)) == c
  {
    MulLe(0, c.y, g.columns);
    DivModUnique(c.y, c.x, g.columns);
  }

  /** Where a cell of a rectangular grid sits: its row is below `Rows()`, it
      has a row above iff it is not in the first row, and a row below iff it is
      not in the last row. */
  lemma CellPosition<T>(g: Grid<T>, index: int)
    requires g.Valid() && 0 <= index < |g.cells|
    ensures var c := IndexToCoordinate(g, index);
            0 <= c.y < g.Rows()
            && (index - g.columns >= 0 <==> c.y >= 1)
            && (index + g.columns < |g.cells| <==> c.y < g.Rows() - 1)
  {
    var w, n := g.columns, |g.cells|;
    var rows, y, r := n / w, index / w, index % w;
    assert index == y * w + r && 0 <= r < w;
    DivExact(n, w);
    assert n == rows * w;
    MulLess(y, 0, w);
    assert y >= 0;
    assert (rows - 1) * w + w == n;
    MulLess(rows - 1, y, w);
    assert y < rows;
    MulLe(1, y, w);
    assert (y + 1) * w == y * w + w;
    MulLess(y + 1, rows, w);
  }

  /** The column after `j`'s column, wrapping to 0 at the end of a row. */
  lemma NextColumn(j: int, c: int)
    requires c > 0 && j >= 0
    ensures (j + 1) % c == (if j % c < c - 1 then j % c + 1 else 0)
  {
    var q, r := j / c, j % c;
    assert j == q * c + r && 0 <= r < c;
    if r < c - 1 {
      DivModUnique(q, r + 1, c);
    } else {
      assert (q + 1) * c == q * c + c;
      DivModUnique(q + 1, 0, c);
    }
  }

  /** `getNeighbors`: each direction is present exactly when the move stays on the
      grid, and then carries the index moved to and the cell found there. */
  function GetNeighbors<T>(g: Grid<T>, index: int): (n: Neighbors<T>)
    requires g.Valid() && 0 <= index < |g.cells|
    ensures n.up.Some? <==> index - g.columns >= 0
    ensures n.down.Some? <==> index + g.columns < |g.cells|
    ensures n.left.Some? <==> IndexToCoordinate(g, index).x > 0
    ensures n.right.Some? <==> IndexToCoordinate(g, index).x < g.columns - 1
    ensures forall d :: n.Get(d).Some? ==>
      0 <= n.Get(d).value.index < |g.cells| && n.Get(d).value.value == g.cells[n.Get(d).value.index]
  {
    var c := IndexToCoordinate(g, index);
    CellPosition(g, index);
    RowEndInRange(g, index);
    Neighbors(
      if index - g.columns >= 0 then Some(Neighbor(index - g.columns, g.cells[index - g.columns])) else None,
      if c.x < g.columns - 1 then Some(Neighbor(index + 1, g.cells[index + 1])) else None,
      if index + g.columns < |g.cells| then Some(Neighbor(index + g.columns, g.cells[index + g.columns])) else None,
      if c.x > 0 then Some(Neighbor(index - 1, g.cells[index - 1])) else None)
  }

  /** On a rectangular grid the cell to the right of a non-final column is still on the grid. */
  lemma RowEndInRange<T>(g: Grid<T>, index: int)
    requires g.Valid() && 0 <= index < |g.cells|
    ensures IndexToCoordinate(g, index).x < g.columns - 1 ==> index + 1 < |g.cells|
  {
    var c := IndexToCoordinate(g, index);
    var rows := g.Rows();
    assert |g.cells| == rows * g.columns;
    DivBelow(index, rows, g.columns);
    MulLess(c.y, rows, g.columns);
  }

  /** A neighbour in direction `d` is one step away in that direction: the
      coordinates differ by one along that direction's axis only. */
  lemma NeighborIsOneStep<T>(g: Grid<T>, index: int, d: Direction)
    requires g.Valid() && 0 <= index < |g.cells|
    requires GetNeighbors(g, index).Get(d).Some?
    ensures var a := IndexToCoordinate(g, index);
            var b := IndexToCoordinate(g, GetNeighbors(g, index).Get(d).value.index);
            match d
            case Up => b == Coordinate(a.x, a.y - 1)
            case Down => b == Coordinate(a.x, a.y + 1)
            case Left => b == Coordinate(a.x - 1, a.y)
            case Right => b == Coordinate(a.x + 1, a.y)
  {
    match d
    case Up => UpStep(g, index);
    case Down => DownStep(g, index);
    case Left => HorizontalStep(g, index, -1);
    case Right => HorizontalStep(g, index, 1);
  }

  /** One row up keeps the column. */
  lemma UpStep<T>(g: Grid<T>, index: int)
    requires g.Valid() && 0 <= index - g.columns
    ensures IndexToCoordinate(g, index - g.columns) ==
      Coordinate(IndexToCoordinate(g, index).x, IndexToCoordinate(g, index).y - 1)
  {
    var w := g.columns;
    var x, y := index % w, index / w;
    assert index - w == (y - 1) * w + x;
    DivModUnique(y - 1, x, w);
  }

  /** One row down keeps the column. */
  lemma DownStep<T>(g: Grid<T>, index: int)
    requires g.Valid() && 0 <= index
    ensures IndexToCoordinate(g, index + g.columns) ==
      Coordinate(IndexToCoordinate(g, index).x, IndexToCoordinate(g, index).y + 1)
  {
    var w := g.columns;
    var x, y := index % w, index / w;
    assert index + w == (y + 1) * w + x;
    DivModUnique(y + 1, x, w);
  }

  /** One column left or right, staying on the row, keeps the row. */
  lemma HorizontalStep<T>(g: Grid<T>, index: int, dx: int)
    requires g.Valid() && 0 <= index
    requires 0 <= IndexToCoordinate(g, index).x + dx < g.columns
    ensures IndexToCoordinate(g, index + dx) ==
      Coordinate(IndexToCoordinate(g, index).x + dx, IndexToCoordinate(g, index).y)
  {
    var w := g.columns;
    var x, y := index % w, index / w;
    assert index == y * w + x && 0 <= x < w;
    DivModUnique(y, x + dx, w);
  }

  /** Adjacency is symmetric: `j` is the neighbour of `i` in direction `d` exactly
      when `i` is the neighbour of `j` in the opposite direction. */
  lemma NeighborSymmetric<T>(g: Grid<T>, i: int, j: int, d: Direction)
    requires g.Valid() && 0 <= i < |g.cells| && 0 <= j < |g.cells|
    ensures (GetNeighbors(g, i).Get(d).Some? && GetNeighbors(g, i).Get(d).value.index == j)
        <==> (GetNeighbors(g, j).Get(Opposite(d)).Some? && GetNeighbors(g, j).Get(Opposite(d)).value.index == i)
  {
    match d
    case Up =>
    case Down =>
    case Left =>
      if i == j + 1 {
        NextColumn(j, g.columns);
      }
    case Right =>
      if j == i + 1 {
        NextColumn(i, g.columns);
      }
  }

  function Present<T>(n: Neighbors<T>, d: Direction): nat
  {
    if n.Get(d).Some? then 1 else 0
  }

  function Entry<T>(n: Neighbors<T>, d: Direction): (r: seq<CellNeighbor<T>>)
    ensures |r| == Present(n, d) && forall k :: 0 <= k < |r| ==> r[k] == CellNeighbor(d, n.Get(d).value)
  {
    if n.Get(d).Some? then [CellNeighbor(d, n.Get(d).value)] else []
  }

  /** The `CellNeighbors` iterator: the present neighbours, up, right, down, left. */
  function Iterate<T>(n: Neighbors<T>): (r: seq<CellNeighbor<T>>)
    ensures forall k :: 0 <= k < |r| ==> n.Get(r[k].direction) == Some(r[k].value)
    ensures forall d :: n.Get(d).Some? ==> CellNeighbor(d, n.Get(d).value) in r
    ensures forall k :: 0 <= k < |r| - 1 ==> DirectionOrder(r[k].direction) < DirectionOrder(r[k + 1].direction)
    ensures |r| == Present(n, Up) + Present(n, Right) + Present(n, Down) + Present(n, Left)
  {
    var a := Entry(n, Up);
    var b := Entry(n, Right);
    var c := Entry(n, Down);
    var e := Entry(n, Left);
    a + b + c + e
  }

  /** On a grid of at least two rows and two columns, corners have two
      neighbours, other border cells three and interior cells four. */
  lemma NeighborCount<T>(g: Grid<T>, index: int)
    requires g.Valid() && g.columns >= 2 && g.Rows() >= 2 && 0 <= index < |g.cells|
    ensures var c := IndexToCoordinate(g, index);
            var border := (if c.x == 0 then 1 else 0) + (if c.x == g.columns - 1 then 1 else 0)
                        + (if c.y == 0 then 1 else 0) + (if c.y == g.Rows() - 1 then 1 else 0);
            |Iterate(GetNeighbors(g, index))| == 4 - border
  {
    CellPosition(g, index);
  }


  /** `getRows`: consecutive slices of `columns` cells, the last one clipped to
      the end of the grid; together they are the whole grid. */
  method GetRows<T>(g: Grid<T>) returns (rows: seq<seq<T>>)
    requires g.columns > 0
    ensures Flatten(rows) == g.cells
    ensures forall r :: 0 <= r < |rows| ==> 0 < |rows[r]| <= g.columns
    ensures forall r :: 0 <= r < |rows| - 1 ==> |rows[r]| == g.columns
    ensures g.Valid() ==> forall r :: 0 <= r < |rows| ==> |rows[r]| == g.columns
  {
    rows := [];
    var i := 0;
    while i < |g.cells|
      invariant 0 <= i <= |g.cells| || (i > |g.cells| && !g.Valid() && rows != [])
      invariant Flatten(rows) == g.cells[..Min(i, |g.cells|)]
      invariant forall r :: 0 <= r < |rows| ==> 0 < |rows[r]| <= g.columns
      invariant forall r :: 0 <= r < |rows| - 1 ==> |rows[r]| == g.columns
      invariant i <= |g.cells| ==> forall r :: 0 <= r < |rows| ==> |rows[r]| == g.columns
      invariant g.Valid() ==> i % g.columns == 0
      decreases |g.cells| - i
    {
      var end := Min(i + g.columns, |g.cells|);
      if g.Valid() {
        MultipleStep(i, |g.cells|, g.columns);
      }
      FlattenSnoc(rows, g.cells[i..end]);
      assert g.cells[..end] == g.cells[..i] + g.cells[i..end];
      rows := rows + [g.cells[i..end]];
      i := i + g.columns;
    }
  }

  /** Between two multiples of `c`, the next multiple after the smaller one is
      at most the larger one. */
  lemma MultipleStep(i: int, n: int, c: int)
    requires c > 0 && 0 <= i < n && i % c == 0 && n % c == 0
    ensures i + c <= n && (i + c) % c == 0
  {
    DivBelow(i, n / c, c);
    MulLe(n / c, i / c, c);
    MulLess(i / c, n / c, c);
    assert i + c == (i / c + 1) * c;
    DivModUnique(i / c + 1, 0, c);
  }

  lemma FlattenSnoc<T>(rows: seq<seq<T>>, row: seq<T>)
    ensures Flatten(rows + [row]) == Flatten(rows) + row
  {
    assert (rows + [row])[..|rows|] == rows;
  }

  /** Every row has `width` cells. */
  predicate Rectangular<T>(rows: seq<seq<T>>, width: int)
  {
    forall r :: 0 <= r < |rows| ==> |rows[r]| == width
  }

  lemma {:induction false} FlattenLength<T>(rows: seq<seq<T>>, width: int)
    requires Rectangular(rows, width)
    ensures |Flatten(rows)| == |rows| * width
  {
    if rows != [] {
      FlattenLength(rows[..|rows| - 1], width);
      assert |rows| * width == (|rows| - 1) * width + width;
    }
  }

  /** Cell `c` of row `r` is flat cell `r * width + c`. */
  lemma {:induction false} FlattenAt<T>(rows: seq<seq<T>>, width: int, r: int, c: int)
    requires Rectangular(rows, width) && 0 <= r < |rows| && 0 <= c < width
    ensures r * width + c < |Flatten(rows)| && Flatten(rows)[r * width + c] == rows[r][c]
  {
    var n := |rows|;
    var init := rows[..n - 1];
    FlattenLength(init, width);
    assert Flatten(rows) == Flatten(init) + rows[n - 1];
    if r < n - 1 {
      FlattenAt(init, width, r, c);
      MulLess(r, n - 1, width);
      assert rows[r] == init[r];
    } else {
      assert (n - 1) * width + width == n * width;
    }
  }

  /** A grid built from its rows, as `createContraption` and `createCity`
      do: the rows joined up, with the first row's length as the number of
      columns. */
  function FromRows<T>(rows: seq<seq<T>>): Grid<T>
    requires |rows| > 0
  {
    Grid(Flatten(rows), |rows[0]|)
  }

  /** Rows of equal, non-zero length make a rectangular grid with one row
      per input row, where the cell at column `x` of row `y` is `rows[y][x]`. */
  lemma FromRowsCells<T>(rows: seq<seq<T>>, x: int, y: int)
    requires |rows| > 0 && |rows[0]| > 0 && Rectangular(rows, |rows[0]|)
    requires 0 <= x < |rows[0]| && 0 <= y < |rows|
    ensures FromRows(rows).Valid() && FromRows(rows).Rows() == |rows|
    ensures var g := FromRows(rows);
            0 <= CoordinateToIndex(g, Coordinate(x, y)) < |g.cells|
            && g.cells[CoordinateToIndex(g, Coordinate(x, y))] == rows[y][x]
  {
    var w := |rows[0]|;
    FlattenLength(rows, w);
    DivModUnique(|rows|, 0, w);
    FlattenAt(rows, w, y, x);
  }
}
