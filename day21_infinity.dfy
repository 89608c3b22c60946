/** Day 21, part 2, `src/21/infinity-garden.ts`: the garden repeats
    without end in every direction. A copy of the map is named by a grid id
    that counts the copies crossed up, right, down and left; a plot of the
    infinite garden is a grid id and an index into the map. */
module InfinityGardens {
  import opened Common
  import opened Grids
  import Gardens

  /* ---------------------------------------------------------------------- */
  /* Grid ids                                                               */

  /** `GridId`: how many copies up, right, down and left of the first. */
  datatype GridIdOf<T> = GridId(up: T, right: T, down: T, left: T)
  type GridId = GridIdOf<int>

  /** The copies to the right of the first, less those to the left. */
  function Horizontal(id: GridId): int { id.right - id.left }

  /** The copies below the first, less those above. */
  function Vertical(id: GridId): int { id.down - id.up }

  /** How far one step in `d` moves horizontally and vertically. */
  function DeltaX(d: Direction): int
  {
    match d
    case Right => 1
    case Left => -1
    case _ => 0
  }

  function DeltaY(d: Direction): int
  {
    match d
    case Down => 1
    case Up => -1
    case _ => 0
  }

  /** Every count is non-negative. */
  predicate Natural(id: GridId)
  {
    id.up >= 0 && id.right >= 0 && id.down >= 0 && id.left >= 0
  }

  /** The form `adjustGridId` keeps: natural, and never both up and down
      nor both right and left. */
  predicate Normal(id: GridId)
  {
    Natural(id) && (id.up == 0 || id.down == 0) && (id.right == 0 || id.left == 0)
  }

  /** The number of crossings the id records. */
  function Size(id: GridId): int { id.up + id.right + id.down + id.left }

  /** `adjustGridId`: crossing into the next copy in direction `d` undoes a
      crossing the other way when there is one, and records one in `d`
      otherwise; an absent id stays absent. */
  function AdjustGridId(gridId: Option<GridId>, d: Direction): (r: Option<GridId>)
    ensures r.Some? <==> gridId.Some?
    ensures r.Some? ==> Horizontal(r.value) == Horizontal(gridId.value) + DeltaX(d)
    ensures r.Some? ==> Vertical(r.value) == Vertical(gridId.value) + DeltaY(d)
    ensures r.Some? && Natural(gridId.value) ==> Natural(r.value) && Size(r.value) <= Size(gridId.value) + 1
    ensures r.Some? && Normal(gridId.value) ==> Normal(r.value)
  {
    match gridId
    case None => None
    case Some(id) =>
      Some(match d
        case Up => if id.down > 0 then id.(down := id.down - 1) else id.(up := id.up + 1)
        case Right => if id.left > 0 then id.(left := id.left - 1) else id.(right := id.right + 1)
        case Down => if id.up > 0 then id.(up := id.up - 1) else id.(down := id.down + 1)
        case Left => if id.right > 0 then id.(right := id.right - 1) else id.(left := id.left + 1))
  }

  /** A normal id is determined by its horizontal and vertical offsets, so
      the ids the walk builds name each copy of the map once. */
  lemma NormalUnique(a: GridId, b: GridId)
    requires Normal(a) && Normal(b)
    requires Horizontal(a) == Horizontal(b) && Vertical(a) == Vertical(b)
    ensures a == b
  {
  }

  /** Crossing into a copy and straight back gives the id started from. */
  lemma AdjustCancels(id: GridId, d: Direction)
    requires Normal(id)
    ensures AdjustGridId(AdjustGridId(Some(id), d), Opposite(d)) == Some(id)
  {
    var r := AdjustGridId(AdjustGridId(Some(id), d), Opposite(d));
    NormalUnique(r.value, id);
  }

  /* ---------------------------------------------------------------------- */
  /* Arithmetic by repetition                                               */

  /* The proofs about walks over the infinite garden never see a product, a
     quotient or a remainder of two unknowns: `Scale`, `Div` and `Mod` below
     compute them by repeated addition, and are shown once to agree with
     `*`, `/` and `%`. */

  /** `w * k`. */
  function Scale(w: int, k: int): int
    decreases if k < 0 then -k else k
  {
    if k == 0 then 0 else if k > 0 then Scale(w, k - 1) + w else Scale(w, k + 1) - w
  }

  /** `a % n` for `n > 0`: the remainder is never negative. */
  function Mod(a: int, n: int): int
    requires n > 0
    decreases if a < 0 then n - a else a
  {
    if 0 <= a < n then a else if a < 0 then Mod(a + n, n) else Mod(a - n, n)
  }

  /** `a / n` for `n > 0`, rounding down. */
  function Div(a: int, n: int): int
    requires n > 0
    decreases if a < 0 then n - a else a
  {
    if 0 <= a < n then 0 else if a < 0 then Div(a + n, n) - 1 else Div(a - n, n) + 1
  }

  lemma {:induction false} ScaleIsProduct(w: int, k: int)
    ensures Scale(w, k) == w * k
    decreases if k < 0 then -k else k
  {
    if k > 0 {
      ScaleIsProduct(w, k - 1);
      assert w * (k - 1) + w == w * k;
    } else if k < 0 {
      ScaleIsProduct(w, k + 1);
      assert w * (k + 1) - w == w * k;
    }
  }

  lemma {:induction false} ScaleStep(w: int, k: int)
    ensures Scale(w, k + 1) == Scale(w, k) + w
  {
    if k < 0 {
      assert Scale(w, k) == Scale(w, k + 1) - w;
    }
  }

  /** Every number is a multiple of `n` and a remainder below `n`. */
  lemma {:induction false} Decompose(a: int, n: int)
    requires n > 0
    ensures a == Scale(n, Div(a, n)) + Mod(a, n) && 0 <= Mod(a, n) < n
    decreases if a < 0 then n - a else a
  {
    if a < 0 {
      Decompose(a + n, n);
      ScaleStep(n, Div(a, n));
    } else if a >= n {
      Decompose(a - n, n);
      ScaleStep(n, Div(a - n, n));
    }
  }

  /** The quotient and remainder of `k` times `n` plus a remainder. */
  lemma {:induction false} ScaleModDiv(n: int, k: int, x: int)
    requires n > 0 && 0 <= x < n
    ensures Mod(Scale(n, k) + x, n) == x && Div(Scale(n, k) + x, n) == k
    decreases if k < 0 then -k else k
  {
    if k > 0 {
      ScaleModDiv(n, k - 1, x);
    } else if k < 0 {
      ScaleModDiv(n, k + 1, x);
      ScaleStep(n, k);
    }
  }

  /** `Mod` and `Div` are Dafny's `%` and `/`. */
  lemma ModDivAre(a: int, n: int)
    requires n > 0
    ensures Mod(a, n) == a % n && Div(a, n) == a / n
  {
    Decompose(a, n);
    ScaleIsProduct(n, Div(a, n));
    assert a == Div(a, n) * n + Mod(a, n);
    DivModUnique(Div(a, n), Mod(a, n), n);
  }

  /** Multiples of a positive number grow with the factor. */
  lemma {:induction false} ScaleBelow(n: int, j: int, k: int)
    requires n > 0 && j < k
    ensures Scale(n, j) + n <= Scale(n, k)
    decreases k - j
  {
    ScaleStep(n, j);
    if j + 1 < k {
      ScaleBelow(n, j + 1, k);
    }
  }

  /* ---------------------------------------------------------------------- */
  /* The map and the infinite garden                                        */

  /** The map is whole rows of a positive number of columns: the grid's
      `Valid`, with the remainder written as `Mod`. */
  predicate Tiled(g: Grid<char>)
  {
    g.columns > 0 && Mod(|g.cells|, g.columns) == 0
  }

  lemma TiledIsValid(g: Grid<char>)
    ensures Tiled(g) <==> g.Valid()
  {
    if g.columns > 0 {
      ModDivAre(|g.cells|, g.columns);
    }
  }

  /** `indexToCoordinate` on the map. */
  function Position(g: Grid<char>, index: int): Coordinate
    requires Tiled(g)
  {
    Coordinate(Mod(index, g.columns), Div(index, g.columns))
  }

  /** `coordinateToIndex` on the map. */
  function CellIndex(g: Grid<char>, c: Coordinate): int
  {
    Scale(g.columns, c.y) + c.x
  }

  /** The number of rows of the map. */
  function RowCount(g: Grid<char>): int
    requires Tiled(g)
  {
    Div(|g.cells|, g.columns)
  }

  /** `Position` and `CellIndex` are the grid's own `IndexToCoordinate` and
      `CoordinateToIndex`, and `RowCount` its `Rows`. */
  lemma PositionIsGrid(g: Grid<char>, index: int, c: Coordinate)
    requires g.Valid() && index >= 0
    ensures Tiled(g) && Position(g, index) == IndexToCoordinate(g, index)
    ensures CellIndex(g, c) == CoordinateToIndex(g, c)
    ensures RowCount(g) == g.Rows()
  {
    TiledIsValid(g);
    ModDivAre(index, g.columns);
    ModDivAre(|g.cells|, g.columns);
    ScaleIsProduct(g.columns, c.y);
  }

  /** The map is `RowCount` rows of `columns` cells, and a cell's position
      is within them. */
  lemma MapShape(g: Grid<char>, i: int)
    requires Tiled(g) && 0 <= i < |g.cells|
    ensures |g.cells| == Scale(g.columns, RowCount(g)) && RowCount(g) >= 1
    ensures var p := Position(g, i);
            i == CellIndex(g, p) && 0 <= p.x < g.columns && 0 <= p.y < RowCount(g)
  {
    var w, n := g.columns, |g.cells|;
    Decompose(n, w);
    ModDivAre(n, w);
    Decompose(i, w);
    var p := Position(g, i);
    if p.y < 0 {
      ScaleBelow(w, p.y, 0);
    }
    if p.y >= RowCount(g) {
      if p.y > RowCount(g) {
        ScaleBelow(w, RowCount(g), p.y);
      }
    }
  }

  /** A coordinate of the infinite garden, one step in direction `d`. */
  function Move(p: Coordinate, d: Direction): Coordinate
  {
    Coordinate(p.x + DeltaX(d), p.y + DeltaY(d))
  }

  /** Where index `index` of copy `id` lies on the infinite garden, taking
      the first copy's top left cell as the origin. */
  function Locate(g: Grid<char>, id: GridId, index: int): Coordinate
    requires Tiled(g)
  {
    var p := Position(g, index);
    Coordinate(p.x + Scale(g.columns, Horizontal(id)), p.y + Scale(RowCount(g), Vertical(id)))
  }

  /** The cell of the infinite garden at a coordinate: the map's cell at the
      coordinate's remainders by the map's width and height. */
  function TileAt(g: Grid<char>, p: Coordinate): char
    requires Tiled(g) && |g.cells| > 0
  {
    MapShape(g, 0);
    TileIndexInRange(g, p);
    g.cells[CellIndex(g, Coordinate(Mod(p.x, g.columns), Mod(p.y, RowCount(g))))]
  }

  lemma TileIndexInRange(g: Grid<char>, p: Coordinate)
    requires Tiled(g) && |g.cells| > 0
    ensures RowCount(g) > 0
    ensures 0 <= CellIndex(g, Coordinate(Mod(p.x, g.columns), Mod(p.y, RowCount(g)))) < |g.cells|
  {
    MapShape(g, 0);
    var w, rows := g.columns, RowCount(g);
    var x, y := Mod(p.x, w), Mod(p.y, rows);
    Decompose(p.x, w);
    Decompose(p.y, rows);
    ScaleBelow(w, y, rows);
    if y > 0 {
      ScaleBelow(w, 0, y);
    }
  }

  /** The first copy is where the map lies. */
  lemma LocateOrigin(g: Grid<char>, id: GridId, index: int)
    requires Tiled(g) && Horizontal(id) == 0 && Vertical(id) == 0
    ensures Locate(g, id, index) == Position(g, index)
  {
  }

  /** Every copy shows the map: the cell located for an index of any copy
      is the map's cell at that index. */
  lemma LocateTile(g: Grid<char>, id: GridId, index: int)
    requires Tiled(g) && 0 <= index < |g.cells|
    ensures TileAt(g, Locate(g, id, index)) == g.cells[index]
  {
    MapShape(g, index);
    var p := Position(g, index);
    ScaleModDiv(g.columns, Horizontal(id), p.x);
    ScaleModDiv(RowCount(g), Vertical(id), p.y);
  }

  /** Two plots of the walk with the same location are the same plot. */
  lemma LocateInjective(g: Grid<char>, a: GridId, i: int, b: GridId, j: int)
    requires Tiled(g) && 0 <= i < |g.cells| && 0 <= j < |g.cells|
    requires Normal(a) && Normal(b) && Locate(g, a, i) == Locate(g, b, j)
    ensures a == b && i == j
  {
    var p, q := Position(g, i), Position(g, j);
    MapShape(g, i);
    MapShape(g, j);
    ScaleModDiv(g.columns, Horizontal(a), p.x);
    ScaleModDiv(g.columns, Horizontal(b), q.x);
    ScaleModDiv(RowCount(g), Vertical(a), p.y);
    ScaleModDiv(RowCount(g), Vertical(b), q.y);
    NormalUnique(a, b);
  }

  /* ---------------------------------------------------------------------- */
  /* getItemUp, getItemRight, getItemDown, getItemLeft                      */

  /** `TravelResult`: the copy and the index reached. */
  datatype TravelResult = TravelResult(gridId: Option<GridId>, index: int)

  /** `getItemUp`: off the top row the walk enters the copy above, at the
      same column of its bottom row. */
  function GetItemUp(g: Grid<char>, index: int, gridId: Option<GridId>): (r: TravelResult)
    requires Tiled(g) && 0 <= index < |g.cells|
    ensures r.gridId == if index - g.columns < 0 then AdjustGridId(gridId, Up) else gridId
  {
    var requiresWrapping := index - g.columns < 0;
    var newGridId := if requiresWrapping then AdjustGridId(gridId, Up) else gridId;
    TravelResult(newGridId, Mod(index + |g.cells| - g.columns, |g.cells|))
  }

  /** `getItemRight`: off the last column the walk enters the copy to the
      right, at the first column of the same row. */
  function GetItemRight(g: Grid<char>, index: int, gridId: Option<GridId>): (r: TravelResult)
    requires Tiled(g) && 0 <= index < |g.cells|
    ensures r.gridId == if Position(g, index).x >= g.columns - 1 then AdjustGridId(gridId, Right) else gridId
  {
    var coordinate := Position(g, index);
    var requiresWrapping := coordinate.x >= g.columns - 1;
    var newGridId := if requiresWrapping then AdjustGridId(gridId, Right) else gridId;
    var trueIndex := if coordinate.x == g.columns - 1 then CellIndex(g, Coordinate(0, coordinate.y)) else index + 1;
    TravelResult(newGridId, trueIndex)
  }

  /** `getItemDown`: off the bottom row the walk enters the copy below, at
      the same column of its top row. */
  function GetItemDown(g: Grid<char>, index: int, gridId: Option<GridId>): (r: TravelResult)
    requires Tiled(g) && 0 <= index < |g.cells|
    ensures r.gridId == if index + g.columns >= |g.cells| then AdjustGridId(gridId, Down) else gridId
  {
    var requiresWrapping := index + g.columns >= |g.cells|;
    var newGridId := if requiresWrapping then AdjustGridId(gridId, Down) else gridId;
    TravelResult(newGridId, Mod(index + |g.cells| + g.columns, |g.cells|))
  }

  /** `getItemLeft`: off the first column the walk enters the copy to the
      left, at the last column of the same row. */
  function GetItemLeft(g: Grid<char>, index: int, gridId: Option<GridId>): (r: TravelResult)
    requires Tiled(g) && 0 <= index < |g.cells|
    ensures r.gridId == if Position(g, index).x <= 0 then AdjustGridId(gridId, Left) else gridId
  {
    var coordinate := Position(g, index);
    var requiresWrapping := coordinate.x <= 0;
    var newGridId := if requiresWrapping then AdjustGridId(gridId, Left) else gridId;
    var trueIndex := if coordinate.x == 0 then CellIndex(g, Coordinate(g.columns - 1, coordinate.y)) else index - 1;
    TravelResult(newGridId, trueIndex)
  }

  /** The table `getNeighbors` goes through. */
  function Travel(g: Grid<char>, index: int, gridId: Option<GridId>, d: Direction): TravelResult
    requires Tiled(g) && 0 <= index < |g.cells|
  {
    match d
    case Up => GetItemUp(g, index, gridId)
    case Right => GetItemRight(g, index, gridId)
    case Down => GetItemDown(g, index, gridId)
    case Left => GetItemLeft(g, index, gridId)
  }

  /** The cell above, the bottom one of the same column from the top row. */
  lemma UpCell(g: Grid<char>, i: int, gridId: Option<GridId>)
    requires Tiled(g) && 0 <= i < |g.cells|
    ensures var p, j := Position(g, i), GetItemUp(g, i, gridId).index;
            0 <= j < |g.cells|
            && Position(g, j) == Coordinate(p.x, if i - g.columns >= 0 then p.y - 1 else RowCount(g) - 1)
            && (i - g.columns >= 0 <==> p.y >= 1)
  {
    var w, n, rows := g.columns, |g.cells|, RowCount(g);
    var p := Position(g, i);
    MapShape(g, i);
    if p.y >= 1 {
      ScaleStep(w, p.y - 1);
      ScaleModDiv(n, 1, i - w);
      assert Scale(n, 1) == n;
      ScaleModDiv(w, p.y - 1, p.x);
    } else {
      if p.y < 0 {
        ScaleBelow(w, p.y, 0);
      }
      ScaleStep(w, rows - 1);
      ScaleModDiv(n, 0, i + n - w);
      ScaleModDiv(w, rows - 1, p.x);
      if rows > 1 {
        ScaleBelow(w, 0, rows - 1);
      }
    }
  }

  /** The cell below, the top one of the same column from the bottom row. */
  lemma DownCell(g: Grid<char>, i: int, gridId: Option<GridId>)
    requires Tiled(g) && 0 <= i < |g.cells|
    ensures var p, j := Position(g, i), GetItemDown(g, i, gridId).index;
            0 <= j < |g.cells|
            && Position(g, j) == Coordinate(p.x, if i + g.columns < |g.cells| then p.y + 1 else 0)
            && (i + g.columns < |g.cells| <==> p.y < RowCount(g) - 1)
  {
    var w, n, rows := g.columns, |g.cells|, RowCount(g);
    var p := Position(g, i);
    MapShape(g, i);
    ScaleStep(w, p.y);
    if p.y < rows - 1 {
      ScaleBelow(w, p.y + 1, rows);
      assert Scale(n, 1) == n;
      ScaleModDiv(n, 1, i + w);
      ScaleModDiv(w, p.y + 1, p.x);
    } else {
      if p.y > rows - 1 {
        ScaleBelow(w, rows, p.y + 1);
      }
      assert Scale(n, 2) == n + n;
      ScaleModDiv(n, 2, p.x);
      ScaleModDiv(w, 0, p.x);
    }
  }

  /** The cell to the right, the first of the same row from the last column. */
  lemma RightCell(g: Grid<char>, i: int, gridId: Option<GridId>)
    requires Tiled(g) && 0 <= i < |g.cells|
    ensures var p, j := Position(g, i), GetItemRight(g, i, gridId).index;
            0 <= j < |g.cells| && Position(g, j) == Coordinate(if p.x < g.columns - 1 then p.x + 1 else 0, p.y)
  {
    var w := g.columns;
    var p := Position(g, i);
    MapShape(g, i);
    if p.x < w - 1 {
      ScaleModDiv(w, p.y, p.x + 1);
      ScaleBelow(w, p.y, RowCount(g));
    } else {
      ScaleModDiv(w, p.y, 0);
    }
  }

  /** The cell to the left, the last of the same row from the first column. */
  lemma LeftCell(g: Grid<char>, i: int, gridId: Option<GridId>)
    requires Tiled(g) && 0 <= i < |g.cells|
    ensures var p, j := Position(g, i), GetItemLeft(g, i, gridId).index;
            0 <= j < |g.cells| && Position(g, j) == Coordinate(if p.x > 0 then p.x - 1 else g.columns - 1, p.y)
  {
    var w := g.columns;
    var p := Position(g, i);
    MapShape(g, i);
    if p.x > 0 {
      ScaleModDiv(w, p.y, p.x - 1);
    } else {
      ScaleModDiv(w, p.y, w - 1);
      ScaleBelow(w, p.y, RowCount(g));
    }
  }

  lemma TravelUp(g: Grid<char>, id: GridId, i: int)
    requires Tiled(g) && 0 <= i < |g.cells|
    ensures var r := GetItemUp(g, i, Some(id));
            r.gridId.Some? && 0 <= r.index < |g.cells| && Locate(g, r.gridId.value, r.index) == Move(Locate(g, id, i), Up)
  {
    UpCell(g, i, Some(id));
    ScaleStep(RowCount(g), Vertical(id) - 1);
  }

  lemma TravelDown(g: Grid<char>, id: GridId, i: int)
    requires Tiled(g) && 0 <= i < |g.cells|
    ensures var r := GetItemDown(g, i, Some(id));
            r.gridId.Some? && 0 <= r.index < |g.cells| && Locate(g, r.gridId.value, r.index) == Move(Locate(g, id, i), Down)
  {
    MapShape(g, i);
    DownCell(g, i, Some(id));
    ScaleStep(RowCount(g), Vertical(id));
  }

  lemma TravelRight(g: Grid<char>, id: GridId, i: int)
    requires Tiled(g) && 0 <= i < |g.cells|
    ensures var r := GetItemRight(g, i, Some(id));
            r.gridId.Some? && 0 <= r.index < |g.cells| && Locate(g, r.gridId.value, r.index) == Move(Locate(g, id, i), Right)
  {
    MapShape(g, i);
    RightCell(g, i, Some(id));
    ScaleStep(g.columns, Horizontal(id));
  }

  lemma TravelLeft(g: Grid<char>, id: GridId, i: int)
    requires Tiled(g) && 0 <= i < |g.cells|
    ensures var r := GetItemLeft(g, i, Some(id));
            r.gridId.Some? && 0 <= r.index < |g.cells| && Locate(g, r.gridId.value, r.index) == Move(Locate(g, id, i), Left)
  {
    MapShape(g, i);
    LeftCell(g, i, Some(id));
    ScaleStep(g.columns, Horizontal(id) - 1);
  }

  /** Every `getItem…` takes the walk one step on the infinite garden: the
      copy and index it returns lie one step in its direction, so a walk
      over copies and indexes is a walk over the infinite garden. */
  lemma TravelMoves(g: Grid<char>, id: GridId, i: int, d: Direction)
    requires Tiled(g) && 0 <= i < |g.cells|
    ensures var r := Travel(g, i, Some(id), d);
            r.gridId.Some? && 0 <= r.index < |g.cells|
            && Locate(g, r.gridId.value, r.index) == Move(Locate(g, id, i), d)
  {
    match d
    case Up => TravelUp(g, id, i);
    case Right => TravelRight(g, id, i);
    case Down => TravelDown(g, id, i);
    case Left => TravelLeft(g, id, i);
  }

  /* ---------------------------------------------------------------------- */
  /* getNeighbors                                                           */

  /** A neighbour of the infinite garden; its `uniqueId` is the pair of the
      copy and the index. */
  datatype InfinityNeighbor = InfinityNeighbor(direction: Direction, gridId: Option<GridId>, index: int, value: char)

  function NeighborAt(g: Grid<char>, index: int, gridId: Option<GridId>, d: Direction): (r: InfinityNeighbor)
    requires Tiled(g) && 0 <= index < |g.cells|
    requires gridId.Some?
    ensures r.direction == d && r.gridId.Some? && 0 <= r.index < |g.cells| && r.value == g.cells[r.index]
    ensures Locate(g, r.gridId.value, r.index) == Move(Locate(g, gridId.value, index), d)
  {
    TravelMoves(g, gridId.value, index, d);
    var t := Travel(g, index, gridId, d);
    InfinityNeighbor(d, t.gridId, t.index, g.cells[t.index])
  }

  /** `getNeighbors`: on the infinite garden every plot has four
      neighbours, up, right, down and left, each one step away. */
  function GetNeighbors(g: Grid<char>, index: int, gridId: Option<GridId>): (r: seq<InfinityNeighbor>)
    requires Tiled(g) && 0 <= index < |g.cells| && gridId.Some?
    ensures |r| == 4 && r[0].direction == Up && r[1].direction == Right && r[2].direction == Down && r[3].direction == Left
    ensures forall k :: 0 <= k < 4 ==> r[k] == NeighborAt(g, index, gridId, r[k].direction)
  {
    [NeighborAt(g, index, gridId, Up), NeighborAt(g, index, gridId, Right),
     NeighborAt(g, index, gridId, Down), NeighborAt(g, index, gridId, Left)]
  }

  /* ---------------------------------------------------------------------- */
  /* Walks on the infinite garden                                           */

  /** `q` is one step from `p` and holds no rock. */
  predicate IsStep(g: Grid<char>, p: Coordinate, q: Coordinate)
    requires Tiled(g) && |g.cells| > 0
  {
    Abs(q.x - p.x) + Abs(q.y - p.y) == 1 && TileAt(g, q) != Gardens.Rock
  }

  /** A walk from the start plot of the first copy: each coordinate one
      step from the one before. */
  ghost predicate IsWalk(g: Grid<char>, start: int, path: seq<Coordinate>)
    requires Tiled(g) && 0 <= start < |g.cells|
  {
    |path| >= 1 && path[0] == Position(g, start)
    && forall k :: 0 <= k < |path| - 1 ==> IsStep(g, path[k], path[k + 1])
  }

  ghost predicate ReachedIn(g: Grid<char>, start: int, p: Coordinate, steps: int)
    requires Tiled(g) && 0 <= start < |g.cells|
  {
    exists path :: IsWalk(g, start, path) && |path| == steps + 1 && path[steps] == p
  }

  /** Plot `p` of the infinite garden is reached in at most `maxSteps`
      steps, on a step whose parity is that of `maxSteps`. */
  ghost predicate EndsOn(g: Grid<char>, start: int, maxSteps: int, p: Coordinate)
    requires Tiled(g) && 0 <= start < |g.cells|
  {
    exists steps :: 0 <= steps <= maxSteps && steps % 2 == maxSteps % 2 && ReachedIn(g, start, p, steps)
  }

  lemma ReachStep(g: Grid<char>, start: int, p: Coordinate, steps: int, d: Direction)
    requires Tiled(g) && 0 <= start < |g.cells| && ReachedIn(g, start, p, steps)
    requires TileAt(g, Move(p, d)) != Gardens.Rock
    ensures ReachedIn(g, start, Move(p, d), steps + 1)
  {
    var path :| IsWalk(g, start, path) && |path| == steps + 1 && path[steps] == p;
    assert IsWalk(g, start, path + [Move(p, d)]);
  }

  lemma ReachedAtStart(g: Grid<char>, start: int, p: Coordinate)
    requires Tiled(g) && 0 <= start < |g.cells| && ReachedIn(g, start, p, 0)
    ensures p == Position(g, start)
  {
  }

  /* ---------------------------------------------------------------------- */
  /* walk                                                                   */

  /** A plot of the walk, the source's `uniqueId`. */
  datatype PlotKey = PlotKey(gridId: GridId, index: int)

  datatype QueueItem = QueueItem(gridId: GridId, index: int, steps: int)

  function Key(item: QueueItem): PlotKey
  {
    PlotKey(item.gridId, item.index)
  }

  /** The plots a walk of at most `maxSteps` steps can key: ids of at most
      `maxSteps` crossings each way, indexes of the map. */
  ghost function Bounded(maxSteps: int, n: int): set<PlotKey>
  {
    set up, right, down, left, index | 0 <= up <= maxSteps && 0 <= right <= maxSteps
      && 0 <= down <= maxSteps && 0 <= left <= maxSteps && 0 <= index < n
      :: PlotKey(GridId(up, right, down, left), index)
  }

  /** The bounded keys not visited yet: what is left for the walk to expand. */
  ghost function Unvisited(maxSteps: int, n: int, visited: set<PlotKey>): set<PlotKey>
  {
    Bounded(maxSteps, n) - visited
  }

  /** A plot the walk may key: a normal id of at most `steps` crossings, an
      index of the map, and a location reached in `steps` steps. */
  ghost predicate Keyed(g: Grid<char>, start: int, id: GridId, index: int, steps: int)
    requires Tiled(g) && 0 <= start < |g.cells|
  {
    Normal(id) && Size(id) <= steps && 0 <= index < |g.cells|
    && ReachedIn(g, start, Locate(g, id, index), steps)
  }

  ghost predicate QueueReached(g: Grid<char>, start: int, maxSteps: int, queue: seq<QueueItem>)
    requires Tiled(g) && 0 <= start < |g.cells|
  {
    forall k :: 0 <= k < |queue| ==>
      queue[k].steps <= maxSteps && Keyed(g, start, queue[k].gridId, queue[k].index, queue[k].steps)
  }

  /** Every plot counted is a normal key whose location the elf can end on. */
  ghost predicate Counted(g: Grid<char>, start: int, maxSteps: int, endTiles: set<PlotKey>)
    requires Tiled(g) && 0 <= start < |g.cells|
  {
    forall key :: key in endTiles ==>
      Normal(key.gridId) && 0 <= key.index < |g.cells| && EndsOn(g, start, maxSteps, Locate(g, key.gridId, key.index))
  }

  /** `count` distinct plots of the infinite garden are plots the elf can
      end on. */
  ghost predicate CountsEndPlots(g: Grid<char>, start: int, maxSteps: int, count: int)
    requires Tiled(g) && 0 <= start < |g.cells|
  {
    exists tiles: set<Coordinate> :: |tiles| == count && forall p :: p in tiles ==> EndsOn(g, start, maxSteps, p)
  }

  /** `walk` on the infinite garden: every plot counted is a distinct plot
      of the infinite garden that the elf reaches in at most `maxSteps`
      steps with the parity of `maxSteps`; the start counts when `maxSteps`
      is even, and with no steps to take it is the only one. */
  method Walk(garden: Gardens.Garden, maxSteps: int) returns (count: int)
    requires Gardens.IsWalkable(garden) && maxSteps >= 0
    ensures Tiled(garden.grid) && CountsEndPlots(garden.grid, garden.startIndex, maxSteps, count)
    ensures maxSteps % 2 == 0 ==> count >= 1
    ensures maxSteps == 0 ==> count == 1
  {
    var g, start := garden.grid, garden.startIndex;
    TiledIsValid(g);
    var visitedIndexes, endTiles := Explore(g, start, maxSteps);
    WalkDone(g, start, maxSteps, [], visitedIndexes, endTiles);
    count := |endTiles|;
  }

  /** The `walk` loop: items are taken off the queue until it is empty. */
  method Explore(g: Grid<char>, start: int, maxSteps: int) returns (visited: set<PlotKey>, endTiles: set<PlotKey>)
    requires Tiled(g) && 0 <= start < |g.cells| && maxSteps >= 0
    ensures Walking(g, start, maxSteps, [], visited, endTiles)
  {
    var first := QueueItem(GridId(0, 0, 0, 0), start, 0);
    var queue := [first];
    visited, endTiles := {}, {};
    WalkingAtStart(g, start, maxSteps, first);
    while |queue| > 0
      invariant Walking(g, start, maxSteps, queue, visited, endTiles)
      decreases Unvisited(maxSteps, |g.cells|, visited), |queue|
    {
      queue, visited, endTiles := TakeFirst(g, start, maxSteps, queue, visited, endTiles);
    }
    assert queue == [];
  }

  /** The item `walk` starts from: no steps taken, on the start plot of
      the first copy. */
  predicate IsStartItem(item: QueueItem, start: int)
  {
    item.steps == 0 && item.index == start && Normal(item.gridId) && Size(item.gridId) == 0
    && Horizontal(item.gridId) == 0 && Vertical(item.gridId) == 0
  }

  /** An item with no steps taken is still queued on the start plot, or a
      plot counted lies there. */
  ghost predicate StartKept(g: Grid<char>, start: int, queue: seq<QueueItem>, endTiles: set<PlotKey>)
    requires Tiled(g) && 0 <= start < |g.cells|
  {
    (exists k :: 0 <= k < |queue| && queue[k].steps == 0 && Locate(g, queue[k].gridId, queue[k].index) == Position(g, start))
    || (exists key :: key in endTiles && Locate(g, key.gridId, key.index) == Position(g, start))
  }

  /** The invariant of the `walk` loop: queued items are plots reached in
      their number of steps, visited keys are bounded, counted keys are plots
      the elf can end on, and the start is queued or counted. */
  ghost predicate Walking(g: Grid<char>, start: int, maxSteps: int, queue: seq<QueueItem>,
                          visited: set<PlotKey>, endTiles: set<PlotKey>)
    requires Tiled(g) && 0 <= start < |g.cells|
  {
    QueueReached(g, start, maxSteps, queue) && visited <= Bounded(maxSteps, |g.cells|)
    && Counted(g, start, maxSteps, endTiles)
    && (maxSteps % 2 == 0 ==> StartKept(g, start, queue, endTiles))
  }

  lemma WalkingAtStart(g: Grid<char>, start: int, maxSteps: int, first: QueueItem)
    requires Tiled(g) && 0 <= start < |g.cells| && maxSteps >= 0 && IsStartItem(first, start)
    ensures Walking(g, start, maxSteps, [first], {}, {})
  {
    StartKeyed(g, start, first);
    SingleQueued(g, start, maxSteps, first);
    LocateOrigin(g, first.gridId, start);
    assert [first][0] == first;
  }

  /** A queue of one keyed item keeps the queue part of the invariant. */
  lemma SingleQueued(g: Grid<char>, start: int, maxSteps: int, item: QueueItem)
    requires Tiled(g) && 0 <= start < |g.cells|
    requires item.steps <= maxSteps && Keyed(g, start, item.gridId, item.index, item.steps)
    ensures QueueReached(g, start, maxSteps, [item])
  {
    forall k | 0 <= k < 1
      ensures [item][k].steps <= maxSteps && Keyed(g, start, [item][k].gridId, [item][k].index, [item][k].steps)
    {
      assert [item][k] == item;
    }
  }

  /** The start plot of the first copy is keyed with no steps taken. */
  lemma StartKeyed(g: Grid<char>, start: int, item: QueueItem)
    requires Tiled(g) && 0 <= start < |g.cells| && IsStartItem(item, start)
    ensures Keyed(g, start, item.gridId, item.index, item.steps)
  {
    StartReached(g, start);
    LocateOrigin(g, item.gridId, start);
    KeyedOf(g, start, item.gridId, item.index, item.steps, Position(g, start));
  }

  lemma KeyedOf(g: Grid<char>, start: int, id: GridId, index: int, steps: int, p: Coordinate)
    requires Tiled(g) && 0 <= start < |g.cells|
    requires Normal(id) && Size(id) <= steps && 0 <= index < |g.cells|
    requires ReachedIn(g, start, p, steps) && Locate(g, id, index) == p
    ensures Keyed(g, start, id, index, steps)
  {
  }

  lemma StartReached(g: Grid<char>, start: int)
    requires Tiled(g) && 0 <= start < |g.cells|
    ensures ReachedIn(g, start, Position(g, start), 0)
  {
    var path := [Position(g, start)];
    assert IsWalk(g, start, path);
    WalkReaches(g, start, path);
  }

  /** A walk reaches its last coordinate in one step fewer than its length. */
  lemma WalkReaches(g: Grid<char>, start: int, path: seq<Coordinate>)
    requires Tiled(g) && 0 <= start < |g.cells| && IsWalk(g, start, path)
    ensures ReachedIn(g, start, path[|path| - 1], |path| - 1)
  {
  }

  /** One turn of the `walk` loop: the first item is taken off the queue and
      counted when its parity is right; unless it is on its last step or
      visited before, it is marked and its neighbours queued. */
  method TakeFirst(g: Grid<char>, start: int, maxSteps: int, queue: seq<QueueItem>,
                   visited: set<PlotKey>, endTiles: set<PlotKey>)
    returns (queue': seq<QueueItem>, visited': set<PlotKey>, endTiles': set<PlotKey>)
    requires Tiled(g) && 0 <= start < |g.cells| && |queue| > 0
    requires Walking(g, start, maxSteps, queue, visited, endTiles)
    ensures Walking(g, start, maxSteps, queue', visited', endTiles')
    ensures Unvisited(maxSteps, |g.cells|, visited') < Unvisited(maxSteps, |g.cells|, visited)
            || (visited' == visited && |queue'| < |queue|)
  {
    var item := queue[0];
    queue' := queue[1..];
    visited', endTiles' := visited, endTiles;
    var uniqueId := Key(item);
    if item.steps % 2 == maxSteps % 2 {
      endTiles' := endTiles + {uniqueId};
    }
    CountedFirst(g, start, maxSteps, queue, visited, endTiles, endTiles');
    if item.steps == maxSteps || uniqueId in visited {
      return;
    }
    Visit(maxSteps, |g.cells|, visited, item);
    visited' := visited + {uniqueId};
    var rest := queue';
    queue' := PushNeighbors(g, start, maxSteps, item, visited', rest);
    WalkingPushed(g, start, maxSteps, rest, queue'[|rest|..], visited, visited', endTiles');
  }

  /** Pushing keyed items and marking a bounded key keep the invariant. */
  lemma WalkingPushed(g: Grid<char>, start: int, maxSteps: int, queue: seq<QueueItem>, pushed: seq<QueueItem>,
                      visited: set<PlotKey>, visited': set<PlotKey>, endTiles: set<PlotKey>)
    requires Tiled(g) && 0 <= start < |g.cells|
    requires Walking(g, start, maxSteps, queue, visited, endTiles)
    requires QueueReached(g, start, maxSteps, queue + pushed) && visited' <= Bounded(maxSteps, |g.cells|)
    ensures Walking(g, start, maxSteps, queue + pushed, visited', endTiles)
  {
    if maxSteps % 2 == 0 {
      StartStays(g, start, queue, pushed, endTiles);
    }
  }

  /** Pushing more items keeps the start item queued. */
  lemma StartStays(g: Grid<char>, start: int, queue: seq<QueueItem>, pushed: seq<QueueItem>, endTiles: set<PlotKey>)
    requires Tiled(g) && 0 <= start < |g.cells|
    requires StartKept(g, start, queue, endTiles)
    ensures StartKept(g, start, queue + pushed, endTiles)
  {
    if k :| 0 <= k < |queue| && queue[k].steps == 0 && Locate(g, queue[k].gridId, queue[k].index) == Position(g, start) {
      assert (queue + pushed)[k] == queue[k];
    }
  }

  /** Taking the first item off the queue, counted when its parity is
      right, keeps the invariant. */
  lemma CountedFirst(g: Grid<char>, start: int, maxSteps: int, queue: seq<QueueItem>,
                     visited: set<PlotKey>, endTiles: set<PlotKey>, endTiles': set<PlotKey>)
    requires Tiled(g) && 0 <= start < |g.cells| && |queue| > 0
    requires Walking(g, start, maxSteps, queue, visited, endTiles)
    requires endTiles' == if queue[0].steps % 2 == maxSteps % 2 then endTiles + {Key(queue[0])} else endTiles
    ensures Walking(g, start, maxSteps, queue[1..], visited, endTiles')
  {
    var item := queue[0];
    assert Keyed(g, start, item.gridId, item.index, item.steps);
    if item.steps % 2 == maxSteps % 2 {
      CountedItem(g, start, maxSteps, item);
    }
    if maxSteps % 2 == 0 {
      if k :| 0 <= k < |queue| && queue[k].steps == 0 && Locate(g, queue[k].gridId, queue[k].index) == Position(g, start) {
        if k == 0 {
          assert Key(item) in endTiles';
        } else {
          assert queue[1..][k - 1] == queue[k];
        }
      }
    }
  }

  /** An item of the right parity is a plot the elf can end on. */
  lemma CountedItem(g: Grid<char>, start: int, maxSteps: int, item: QueueItem)
    requires Tiled(g) && 0 <= start < |g.cells|
    requires item.steps <= maxSteps && item.steps % 2 == maxSteps % 2
    requires Keyed(g, start, item.gridId, item.index, item.steps)
    ensures EndsOn(g, start, maxSteps, Locate(g, item.gridId, item.index))
  {
  }

  /** A queued item that is not on its last step has a bounded key. */
  lemma InBounded(maxSteps: int, n: int, item: QueueItem)
    requires Normal(item.gridId) && Size(item.gridId) <= item.steps <= maxSteps && 0 <= item.index < n
    ensures Key(item) in Bounded(maxSteps, n)
  {
    var id := item.gridId;
    assert Key(item) == PlotKey(GridId(id.up, id.right, id.down, id.left), item.index);
  }

  /** Marking the key of an item not on its last step keeps the visited
      keys bounded and leaves fewer unvisited. */
  lemma Visit(maxSteps: int, n: int, visited: set<PlotKey>, item: QueueItem)
    requires Normal(item.gridId) && Size(item.gridId) <= item.steps <= maxSteps && 0 <= item.index < n
    requires visited <= Bounded(maxSteps, n) && Key(item) !in visited
    ensures visited + {Key(item)} <= Bounded(maxSteps, n)
    ensures Unvisited(maxSteps, n, visited + {Key(item)}) < Unvisited(maxSteps, n, visited)
  {
    InBounded(maxSteps, n, item);
    assert Key(item) in Unvisited(maxSteps, n, visited) - Unvisited(maxSteps, n, visited + {Key(item)});
  }

  /** When the queue is empty the keys counted name as many plots the elf
      can end on; the start is among them when `maxSteps` is even, and with
      no steps it is the only one. */
  lemma WalkDone(g: Grid<char>, start: int, maxSteps: int, queue: seq<QueueItem>, visited: set<PlotKey>, endTiles: set<PlotKey>)
    requires Tiled(g) && 0 <= start < |g.cells| && maxSteps >= 0
    requires |queue| == 0 && Walking(g, start, maxSteps, queue, visited, endTiles)
    ensures CountsEndPlots(g, start, maxSteps, |endTiles|)
    ensures maxSteps % 2 == 0 ==> |endTiles| >= 1
    ensures maxSteps == 0 ==> |endTiles| == 1
  {
    var tiles := WalkCount(g, start, maxSteps, endTiles);
    if maxSteps % 2 == 0 {
      var key :| key in endTiles && Locate(g, key.gridId, key.index) == Position(g, start);
      if maxSteps == 0 {
        assert endTiles == {key} by {
          forall other | other in endTiles
            ensures other == key
          {
            OnlyStart(g, start, other);
            LocateInjective(g, other.gridId, other.index, key.gridId, key.index);
          }
        }
      }
    }
  }

  /** The keys counted name distinct plots of the infinite garden. */
  lemma WalkCount(g: Grid<char>, start: int, maxSteps: int, endTiles: set<PlotKey>) returns (tiles: set<Coordinate>)
    requires Tiled(g) && 0 <= start < |g.cells| && maxSteps >= 0
    requires Counted(g, start, maxSteps, endTiles)
    ensures |tiles| == |endTiles| && forall p :: p in tiles ==> EndsOn(g, start, maxSteps, p)
  {
    tiles := set key | key in endTiles :: Locate(g, key.gridId, key.index);
    LocatedDistinct(g, endTiles);
  }

  /** With no steps the only plot the elf can end on is the start. */
  lemma OnlyStart(g: Grid<char>, start: int, key: PlotKey)
    requires Tiled(g) && 0 <= start < |g.cells| && Normal(key.gridId) && 0 <= key.index < |g.cells|
    requires EndsOn(g, start, 0, Locate(g, key.gridId, key.index))
    ensures Locate(g, key.gridId, key.index) == Position(g, start)
  {
    ReachedAtStart(g, start, Locate(g, key.gridId, key.index));
  }

  /** Distinct normal keys have distinct locations. */
  lemma {:induction false} LocatedDistinct(g: Grid<char>, keys: set<PlotKey>)
    requires Tiled(g)
    requires forall key :: key in keys ==> Normal(key.gridId) && 0 <= key.index < |g.cells|
    ensures |set key | key in keys :: Locate(g, key.gridId, key.index)| == |keys|
    decreases |keys|
  {
    var image := set key | key in keys :: Locate(g, key.gridId, key.index);
    if keys != {} {
      var key :| key in keys;
      var rest := keys - {key};
      LocatedDistinct(g, rest);
      var restImage := set k | k in rest :: Locate(g, k.gridId, k.index);
      var p := Locate(g, key.gridId, key.index);
      assert image == restImage + {p};
      assert p !in restImage by {
        if p in restImage {
          var k :| k in rest && Locate(g, k.gridId, k.index) == p;
          LocateInjective(g, k.gridId, k.index, key.gridId, key.index);
        }
      }
    } else {
      assert image == {};
    }
  }

  /** The items `walk` queues for the neighbours `neighbors` of an item
      `steps` steps in: one step further for each neighbour that is no rock
      and not visited, in order. */
  function Queued(neighbors: seq<InfinityNeighbor>, visited: set<PlotKey>, steps: int): seq<QueueItem>
    requires forall k :: 0 <= k < |neighbors| ==> neighbors[k].gridId.Some?
  {
    if |neighbors| == 0 then []
    else Queued(neighbors[..|neighbors| - 1], visited, steps) + QueuedFor(neighbors[|neighbors| - 1], visited, steps)
  }

  /** The item queued for one neighbour, if any. */
  function QueuedFor(neighbor: InfinityNeighbor, visited: set<PlotKey>, steps: int): seq<QueueItem>
    requires neighbor.gridId.Some?
  {
    if neighbor.value == Gardens.Rock || PlotKey(neighbor.gridId.value, neighbor.index) in visited then []
    else [QueueItem(neighbor.gridId.value, neighbor.index, steps + 1)]
  }

  /** Queueing for one more neighbour appends its item. */
  lemma QueuedStep(queue: seq<QueueItem>, neighbors: seq<InfinityNeighbor>, k: int, visited: set<PlotKey>, steps: int)
    requires 0 <= k < |neighbors| && forall i :: 0 <= i < |neighbors| ==> neighbors[i].gridId.Some?
    ensures queue + Queued(neighbors[..k + 1], visited, steps)
         == (queue + Queued(neighbors[..k], visited, steps)) + QueuedFor(neighbors[k], visited, steps)
  {
    assert neighbors[..k + 1][..k] == neighbors[..k];
  }

  /** The loop over the four neighbours of an expanded plot: every one that
      is no rock and not expanded yet is queued one step further, and so the
      queue stays keyed. */
  method PushNeighbors(g: Grid<char>, start: int, maxSteps: int, item: QueueItem, visitedIndexes: set<PlotKey>, queue: seq<QueueItem>)
    returns (queue': seq<QueueItem>)
    requires Tiled(g) && 0 <= start < |g.cells|
    requires item.steps < maxSteps && Keyed(g, start, item.gridId, item.index, item.steps)
    requires QueueReached(g, start, maxSteps, queue)
    ensures queue' == queue + Queued(GetNeighbors(g, item.index, Some(item.gridId)), visitedIndexes, item.steps)
    ensures QueueReached(g, start, maxSteps, queue')
  {
    var neighbors := GetNeighbors(g, item.index, Some(item.gridId));
    queue' := QueueNeighbors(neighbors, visitedIndexes, item.steps, queue);
    QueuedKeyed(g, start, maxSteps, item, visitedIndexes, neighbors);
    ReachedAppend(g, start, maxSteps, queue, Queued(neighbors, visitedIndexes, item.steps));
  }

  /** The loop itself: each neighbour that is no rock and not visited is
      appended to the queue one step further, in order. */
  method QueueNeighbors(neighbors: seq<InfinityNeighbor>, visitedIndexes: set<PlotKey>, steps: int, queue: seq<QueueItem>)
    returns (queue': seq<QueueItem>)
    requires forall k :: 0 <= k < |neighbors| ==> neighbors[k].gridId.Some?
    ensures queue' == queue + Queued(neighbors, visitedIndexes, steps)
  {
    queue' := queue;
    for k := 0 to |neighbors|
      invariant queue' == queue + Queued(neighbors[..k], visitedIndexes, steps)
    {
      var neighbor := neighbors[k];
      var uniqueId := PlotKey(neighbor.gridId.value, neighbor.index);
      QueuedStep(queue, neighbors, k, visitedIndexes, steps);
      if neighbor.value == Gardens.Rock || uniqueId in visitedIndexes {
        continue;
      }
      queue' := queue' + [QueueItem(neighbor.gridId.value, neighbor.index, steps + 1)];
    }
    assert neighbors[..|neighbors|] == neighbors;
  }

  /** Every item queued for the neighbours of a keyed item is keyed. */
  lemma {:induction false} QueuedKeyed(g: Grid<char>, start: int, maxSteps: int, item: QueueItem,
                                       visited: set<PlotKey>, neighbors: seq<InfinityNeighbor>)
    requires Tiled(g) && 0 <= start < |g.cells|
    requires item.steps < maxSteps && Keyed(g, start, item.gridId, item.index, item.steps)
    requires forall k :: 0 <= k < |neighbors| ==>
               neighbors[k] == NeighborAt(g, item.index, Some(item.gridId), neighbors[k].direction) && neighbors[k].gridId.Some?
    ensures QueueReached(g, start, maxSteps, Queued(neighbors, visited, item.steps))
    decreases |neighbors|
  {
    if |neighbors| > 0 {
      var init := neighbors[..|neighbors| - 1];
      var neighbor := neighbors[|neighbors| - 1];
      QueuedKeyed(g, start, maxSteps, item, visited, init);
      QueuedForKeyed(g, start, maxSteps, item, visited, neighbor);
      ReachedAppend(g, start, maxSteps, Queued(init, visited, item.steps), QueuedFor(neighbor, visited, item.steps));
    }
  }

  /** The item queued for a neighbour of a keyed item, if any, is keyed. */
  lemma QueuedForKeyed(g: Grid<char>, start: int, maxSteps: int, item: QueueItem,
                       visited: set<PlotKey>, neighbor: InfinityNeighbor)
    requires Tiled(g) && 0 <= start < |g.cells|
    requires item.steps < maxSteps && Keyed(g, start, item.gridId, item.index, item.steps)
    requires neighbor == NeighborAt(g, item.index, Some(item.gridId), neighbor.direction) && neighbor.gridId.Some?
    ensures QueueReached(g, start, maxSteps, QueuedFor(neighbor, visited, item.steps))
  {
    if neighbor.value != Gardens.Rock {
      NeighborKeyed(g, start, item, neighbor);
    }
  }

  /** Two keyed queues joined make a keyed queue. */
  lemma ReachedAppend(g: Grid<char>, start: int, maxSteps: int, front: seq<QueueItem>, back: seq<QueueItem>)
    requires Tiled(g) && 0 <= start < |g.cells|
    requires QueueReached(g, start, maxSteps, front) && QueueReached(g, start, maxSteps, back)
    ensures QueueReached(g, start, maxSteps, front + back)
  {
    forall k | 0 <= k < |front + back|
      ensures (front + back)[k].steps <= maxSteps
              && Keyed(g, start, (front + back)[k].gridId, (front + back)[k].index, (front + back)[k].steps)
    {
      if k >= |front| {
        assert (front + back)[k] == back[k - |front|];
      }
    }
  }

  /** A neighbour that is no rock is keyed one step further than the item
      it neighbours. */
  lemma NeighborKeyed(g: Grid<char>, start: int, item: QueueItem, neighbor: InfinityNeighbor)
    requires Tiled(g) && 0 <= start < |g.cells|
    requires Keyed(g, start, item.gridId, item.index, item.steps)
    requires neighbor == NeighborAt(g, item.index, Some(item.gridId), neighbor.direction)
    requires neighbor.value != Gardens.Rock
    ensures neighbor.gridId.Some? && Keyed(g, start, neighbor.gridId.value, neighbor.index, item.steps + 1)
  {
    var here := Locate(g, item.gridId, item.index);
    LocateTile(g, neighbor.gridId.value, neighbor.index);
    ReachStep(g, start, here, item.steps, neighbor.direction);
    AdjustKeepsKey(g, item.gridId, item.index, neighbor.direction);
  }

  /** A step keeps the id normal and adds at most one crossing. */
  lemma AdjustKeepsKey(g: Grid<char>, id: GridId, i: int, d: Direction)
    requires Tiled(g) && 0 <= i < |g.cells| && Normal(id)
    ensures var r := Travel(g, i, Some(id), d);
            r.gridId.Some? && Normal(r.gridId.value) && Size(r.gridId.value) <= Size(id) + 1
  {
  }
}
