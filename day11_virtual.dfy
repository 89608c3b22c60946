/** Day 11, `virtual-universe.ts`: the same image, left unexpanded. The
    empty rows and columns (those without a galaxy `#`) are recorded, and
    each galaxy's coordinate is moved by `expansionRate - 1` for every empty
    row above it and every empty column left of it. */
module VirtualUniverses {
  import opened Common
  import opened Grids
  import opened Universes

  const Galaxy := '#'

  predicate IsGalaxy(c: char)
  {
    c == Galaxy
  }

  /** `!columnCells.some(cell => cell === galaxy)` for the column's cells. */
  predicate HasNoGalaxyInColumn(rows: seq<string>, column: int)
  {
    forall r :: 0 <= r < |rows| && 0 <= column < |rows[r]| ==> rows[r][column] != Galaxy
  }

  /** `row.indexOf(galaxy) === -1`. */
  predicate HasNoGalaxy(row: string)
  {
    forall c :: 0 <= c < |row| ==> row[c] != Galaxy
  }

  /** The columns below `k` without a galaxy, ascending. */
  function GalaxyFreeColumns(rows: seq<string>, k: int): (r: seq<int>)
    ensures forall i :: 0 <= i < |r| ==> 0 <= r[i] < k
  {
    if k <= 0 then []
    else GalaxyFreeColumns(rows, k - 1) + (if HasNoGalaxyInColumn(rows, k - 1) then [k - 1] else [])
  }

  /** The rows without a galaxy, ascending. */
  function GalaxyFreeRows(rows: seq<string>): (r: seq<int>)
    ensures forall i :: 0 <= i < |r| ==> 0 <= r[i] < |rows|
  {
    if rows == [] then []
    else GalaxyFreeRows(rows[..|rows| - 1]) + (if HasNoGalaxy(rows[|rows| - 1]) then [|rows| - 1] else [])
  }

  lemma {:induction false} GalaxyFreeColumnsSpec(rows: seq<string>, k: int)
    ensures Ascending(GalaxyFreeColumns(rows, k))
    ensures forall c :: c in GalaxyFreeColumns(rows, k) <==> 0 <= c < k && HasNoGalaxyInColumn(rows, c)
  {
    if k > 0 {
      var before := GalaxyFreeColumns(rows, k - 1);
      GalaxyFreeColumnsSpec(rows, k - 1);
      if HasNoGalaxyInColumn(rows, k - 1) {
        assert GalaxyFreeColumns(rows, k) == before + [k - 1];
      } else {
        assert GalaxyFreeColumns(rows, k) == before + [];
        assert before + [] == before;
      }
    }
  }

  lemma {:induction false} GalaxyFreeRowsSpec(rows: seq<string>)
    ensures Ascending(GalaxyFreeRows(rows))
    ensures forall r :: r in GalaxyFreeRows(rows) <==> 0 <= r < |rows| && HasNoGalaxy(rows[r])
  {
    if rows != [] {
      var init := rows[..|rows| - 1];
      var before := GalaxyFreeRows(init);
      GalaxyFreeRowsSpec(init);
      forall r | 0 <= r < |init|
        ensures init[r] == rows[r]
      {
      }
      if HasNoGalaxy(rows[|rows| - 1]) {
        assert GalaxyFreeRows(rows) == before + [|rows| - 1];
      } else {
        assert GalaxyFreeRows(rows) == before + [];
        assert before + [] == before;
      }
    }
  }

  /** `indexToCoordinate` after the raw position `raw` is known: each empty
      column left of it and each empty row above it counts `expansionRate - 1`
      more cells. */
  function Expand(raw: Coordinate, emptyRows: seq<int>, emptyColumns: seq<int>, expansionRate: int): Coordinate
  {
    Coordinate(raw.x + CountBelow(emptyColumns, raw.x) * (expansionRate - 1),
               raw.y + CountBelow(emptyRows, raw.y) * (expansionRate - 1))
  }

  /** Every raw coordinate expanded. */
  function ExpandAll(raw: seq<Coordinate>, emptyRows: seq<int>, emptyColumns: seq<int>, expansionRate: int): (r: seq<Coordinate>)
    ensures |r| == |raw|
  {
    seq(|raw|, i requires 0 <= i < |raw| => Expand(raw[i], emptyRows, emptyColumns, expansionRate))
  }

  /** The coordinates `identifyGalaxies` produces for an image. */
  function VirtualCoordinates(cells: string, rowLength: int, expansionRate: int): seq<Coordinate>
    requires rowLength > 0 && |cells| % rowLength == 0
  {
    var rows := Split(cells, rowLength);
    ExpandAll(FlatCoordinates(cells, rowLength, IsGalaxy), GalaxyFreeRows(rows),
              GalaxyFreeColumns(rows, rowLength), expansionRate)
  }

  /** `VirtualUniverse`. */
  class VirtualUniverse {
    var cells: string
    var rowLength: int
    var expansionRate: int
    var emptyColumns: seq<int>
    var emptyRows: seq<int>
    var galaxyIndexes: seq<Coordinate>

    /** The recorded empty rows and columns and galaxies are the image's. */
    ghost predicate Valid()
      reads this
    {
      rowLength > 0 && |cells| % rowLength == 0
      && emptyColumns == GalaxyFreeColumns(Split(cells, rowLength), rowLength)
      && emptyRows == GalaxyFreeRows(Split(cells, rowLength))
      && galaxyIndexes == VirtualCoordinates(cells, rowLength, expansionRate)
    }

    /** The constructor: `findEmptyColumns`, `findEmptyRows`, then
        `identifyGalaxies`. */
    constructor(cells: string, rowLength: int, expansionRate: int)
      requires rowLength > 0 && |cells| % rowLength == 0
      ensures Valid()
      ensures this.cells == cells && this.rowLength == rowLength && this.expansionRate == expansionRate
    {
      this.cells := cells;
      this.rowLength := rowLength;
      this.expansionRate := expansionRate;
      var columns := FindEmptyColumns(cells, rowLength);
      var rows := FindEmptyRows(cells, rowLength);
      this.emptyColumns := columns;
      this.emptyRows := rows;
      var found := Indexes(cells, IsGalaxy);
      this.galaxyIndexes := seq(|found|, i requires 0 <= i < |found| =>
        Expand(Grids.IndexToCoordinate(Grid(cells, rowLength), found[i]), rows, columns, expansionRate));
    }

    /** `findEmptyColumns`: the columns below the row length whose cells hold
        no galaxy. */
    static method FindEmptyColumns(cells: string, rowLength: int) returns (emptyColumns: seq<int>)
      requires rowLength > 0 && |cells| % rowLength == 0
      ensures emptyColumns == GalaxyFreeColumns(Split(cells, rowLength), rowLength)
    {
      ghost var rows := Split(cells, rowLength);
      emptyColumns := [];
      for column := 0 to rowLength
        invariant emptyColumns == GalaxyFreeColumns(rows, column)
      {
        var columnCells := WalkColumn(cells, rowLength, column);
        if !exists i :: 0 <= i < |columnCells| && columnCells[i] == Galaxy {
          emptyColumns := emptyColumns + [column];
          assert HasNoGalaxyInColumn(rows, column) by {
            forall r | 0 <= r < |rows| && 0 <= column < |rows[r]|
              ensures rows[r][column] != Galaxy
            {
              assert columnCells[r] == rows[r][column];
            }
          }
        } else {
          var i :| 0 <= i < |columnCells| && columnCells[i] == Galaxy;
          assert !HasNoGalaxyInColumn(rows, column) by {
            assert columnCells[i] == rows[i][column];
          }
        }
      }
    }

    /** `findEmptyRows`: the indexes of the rows holding no galaxy. */
    static method FindEmptyRows(cells: string, rowLength: int) returns (emptyRows: seq<int>)
      requires rowLength > 0 && |cells| % rowLength == 0
      ensures emptyRows == GalaxyFreeRows(Split(cells, rowLength))
    {
      var rows := GetRows(Grid(cells, rowLength));
      SplitUnique(rows, rowLength);
      emptyRows := [];
      for index := 0 to |rows|
        invariant emptyRows == GalaxyFreeRows(rows[..index])
      {
        var row := rows[index];
        ghost var prefix := rows[..index + 1];
        assert prefix[..index] == rows[..index];
        assert GalaxyFreeRows(prefix)
            == GalaxyFreeRows(rows[..index]) + (if HasNoGalaxy(row) then [index] else []);
        if !exists c :: 0 <= c < |row| && row[c] == Galaxy {
          emptyRows := emptyRows + [index];
        } else {
          assert emptyRows + [] == emptyRows;
        }
      }
      assert rows[..|rows|] == rows;
    }

    /** `indexToCoordinate`: the raw row and column of the index, each moved
        by the empty rows and columns before it. */
    function IndexToCoordinate(index: int): Coordinate
      reads this
      requires rowLength > 0
    {
      Expand(Grids.IndexToCoordinate(Grid(cells, rowLength), index), emptyRows, emptyColumns, expansionRate)
    }

    /** `calculate`: the distance between every pair of galaxies, once. */
    method Calculate() returns (totalDistance: int)
      ensures totalDistance == PairSum(galaxyIndexes, |galaxyIndexes|)
    {
      totalDistance := SumOfDistances(galaxyIndexes);
    }
  }

  /* ---------------------------------------------------------------------- */
  /* Properties                                                              */

  /** With an expansion rate of 1 nothing moves: the coordinates are the raw
      column and row of each galaxy. */
  lemma {:induction false} RateOneKeepsPositions(cells: string, rowLength: int)
    requires rowLength > 0 && |cells| % rowLength == 0
    ensures VirtualCoordinates(cells, rowLength, 1) == FlatCoordinates(cells, rowLength, IsGalaxy)
  {
    var raw := FlatCoordinates(cells, rowLength, IsGalaxy);
    var rows := Split(cells, rowLength);
    forall i | 0 <= i < |raw|
      ensures Expand(raw[i], GalaxyFreeRows(rows), GalaxyFreeColumns(rows, rowLength), 1) == raw[i]
    {
    }
  }

  /** For a rate of at least 1 the expansion keeps the order of columns and of
      rows, strictly. */
  lemma ExpandKeepsOrder(a: Coordinate, b: Coordinate, emptyRows: seq<int>, emptyColumns: seq<int>, expansionRate: int)
    requires expansionRate >= 1
    ensures a.x < b.x ==> Expand(a, emptyRows, emptyColumns, expansionRate).x < Expand(b, emptyRows, emptyColumns, expansionRate).x
    ensures a.y < b.y ==> Expand(a, emptyRows, emptyColumns, expansionRate).y < Expand(b, emptyRows, emptyColumns, expansionRate).y
  {
    if a.x < b.x {
      CountBelowMonotone(emptyColumns, a.x, b.x);
      MulLe(CountBelow(emptyColumns, a.x), CountBelow(emptyColumns, b.x), expansionRate - 1);
    }
    if a.y < b.y {
      CountBelowMonotone(emptyRows, a.y, b.y);
      MulLe(CountBelow(emptyRows, a.y), CountBelow(emptyRows, b.y), expansionRate - 1);
    }
  }

  /* ---------------------------------------------------------------------- */
  /* Agreement with the expanded universe                                    */

  /** An image made only of empty space and galaxies. */
  predicate IsImage(cells: string)
  {
    forall i :: 0 <= i < |cells| ==> cells[i] == EmptySpace || cells[i] == Galaxy
  }

  /** Every cell of a row of the image is a cell of the image. */
  lemma {:induction false} RowsOfImage(rows: seq<string>, width: int)
    requires Rectangular(rows, width) && IsImage(Flatten(rows))
    ensures forall r, c :: 0 <= r < |rows| && 0 <= c < |rows[r]| ==> rows[r][c] == EmptySpace || rows[r][c] == Galaxy
  {
    forall r, c | 0 <= r < |rows| && 0 <= c < |rows[r]|
      ensures rows[r][c] == EmptySpace || rows[r][c] == Galaxy
    {
      FlattenAt(rows, width, r, c);
    }
  }

  /** On an image, `Universe` and `VirtualUniverse` pick the same cells as
      galaxies. */
  lemma {:induction false} SameGalaxies(cells: string)
    requires IsImage(cells)
    ensures Indexes(cells, IsGalaxyCell) == Indexes(cells, IsGalaxy)
  {
    if cells != [] {
      var init := cells[..|cells| - 1];
      assert IsImage(init) by {
        forall i | 0 <= i < |init|
          ensures init[i] == cells[i]
        {
        }
      }
      SameGalaxies(init);
    }
  }

  /** On an image, the rows and columns without a galaxy are the all-empty
      ones. */
  lemma {:induction false} SameEmptyRows(rows: seq<string>)
    requires forall r, c :: 0 <= r < |rows| && 0 <= c < |rows[r]| ==> rows[r][c] == EmptySpace || rows[r][c] == Galaxy
    ensures GalaxyFreeRows(rows) == EmptyRows(rows)
  {
    if rows != [] {
      var init := rows[..|rows| - 1];
      var last := rows[|rows| - 1];
      assert forall r, c :: 0 <= r < |init| && 0 <= c < |init[r]| ==> init[r][c] == rows[r][c];
      SameEmptyRows(init);
      assert HasNoGalaxy(last) <==> IsEmptyRow(last) by {
        assert forall c :: 0 <= c < |last| ==> last[c] == rows[|rows| - 1][c];
      }
    }
  }

  lemma {:induction false} SameEmptyColumns(rows: seq<string>, k: int)
    requires forall r, c :: 0 <= r < |rows| && 0 <= c < |rows[r]| ==> rows[r][c] == EmptySpace || rows[r][c] == Galaxy
    ensures GalaxyFreeColumns(rows, k) == EmptyColumns(rows, k)
  {
    if k > 0 {
      SameEmptyColumns(rows, k - 1);
      assert HasNoGalaxyInColumn(rows, k - 1) <==> IsEmptyColumn(rows, k - 1);
    }
  }

  /** The doc comment's promise: at an expansion rate of 2 the virtual
      universe puts every galaxy where `Universe` puts it after expanding the
      image, so both `calculate`s sum the same distances. */
  lemma {:induction false} RateTwoIsExpansion(cells: string, rowLength: int)
    requires rowLength > 0 && |cells| % rowLength == 0 && IsImage(cells)
    ensures VirtualCoordinates(cells, rowLength, 2)
         == FlatCoordinates(Flatten(ExpandedRows(cells, rowLength)), ExpandedWidth(cells, rowLength), IsGalaxyCell)
  {
    var rows := Split(cells, rowLength);
    ExpandedGalaxies(cells, rowLength);
    RowsOfImage(rows, rowLength);
    SameEmptyRows(rows);
    SameEmptyColumns(rows, rowLength);
    SameGalaxies(cells);
    var raw := FlatCoordinates(cells, rowLength, IsGalaxy);
    assert raw == FlatCoordinates(cells, rowLength, IsGalaxyCell);
    DoubleIsShift(raw, EmptyRows(rows), EmptyColumns(rows, rowLength));
  }

  /** At rate 2 each empty row or column adds one: the expansion is the shift
      down by the empty rows above and right by the empty columns left. */
  lemma DoubleIsShift(raw: seq<Coordinate>, emptyRows: seq<int>, emptyColumns: seq<int>)
    ensures ExpandAll(raw, emptyRows, emptyColumns, 2) == ShiftColumns(ShiftRows(raw, emptyRows), emptyColumns)
  {
    var a, b := ExpandAll(raw, emptyRows, emptyColumns, 2), ShiftColumns(ShiftRows(raw, emptyRows), emptyColumns);
    forall i | 0 <= i < |raw|
      ensures a[i] == b[i]
    {
      assert ShiftRows(raw, emptyRows)[i].x == raw[i].x;
    }
  }

  /** So a virtual universe at rate 2 and the expanded universe built from the
      same image answer `calculate` alike. */
  lemma SameTotals(v: VirtualUniverse, u: Universe, cells: string, rowLength: int)
    requires rowLength > 0 && |cells| % rowLength == 0 && IsImage(cells)
    requires v.Valid() && v.cells == cells && v.rowLength == rowLength && v.expansionRate == 2
    requires u.Valid() && u.cells == Flatten(ExpandedRows(cells, rowLength)) && u.rowLength == ExpandedWidth(cells, rowLength)
    ensures v.galaxyIndexes == u.Coordinates()
  {
    RateTwoIsExpansion(cells, rowLength);
  }
}
