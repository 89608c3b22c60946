/** Day 21, part 2, `src/21/infinity-garden.ts`: `getItemRight` and
    `getItemLeft` as written. Both compare the column with
    `this.columnCount - 1`, but the garden has `columns` and no
    `columnCount`: the name reads as `undefined` and the arithmetic as
    `NaN`. `getItemRight` therefore never wraps its index to the first
    column of the row, and `getItemLeft` computes `NaN` as the index of the
    last column. `InfinityGardens.GetItemRight` and
    `InfinityGardens.GetItemLeft` are the evidently intended versions, and
    the walk is modelled on them. */
module InfinityGardenFindings {
  import opened Common
  import opened Grids
  import opened InfinityGardens

  /** `getItemRight` as written: the copy changes as intended, but the index
      always moves one on. */
  function GetItemRightAsWritten(g: Grid<char>, index: int, gridId: Option<GridId>): (r: TravelResult)
    requires Tiled(g) && 0 <= index < |g.cells|
    ensures r.gridId == GetItemRight(g, index, gridId).gridId
    ensures r.index == GetItemRight(g, index, gridId).index <==> Position(g, index).x < g.columns - 1
  {
    var coordinate := Position(g, index);
    var requiresWrapping := coordinate.x >= g.columns - 1;
    var newGridId := if requiresWrapping then AdjustGridId(gridId, Right) else gridId;
    MapShape(g, index);
    TravelResult(newGridId, index + 1)
  }

  /** `getItemLeft`'s result as written: `index` is `None` where the source
      computes `NaN`. */
  datatype LooseTravelResult = LooseTravelResult(gridId: Option<GridId>, index: Option<int>)

  /** `getItemLeft` as written: off the first column the index is `NaN`;
      elsewhere it is the intended one. */
  function GetItemLeftAsWritten(g: Grid<char>, index: int, gridId: Option<GridId>): (r: LooseTravelResult)
    requires Tiled(g) && 0 <= index < |g.cells|
    ensures r.gridId == GetItemLeft(g, index, gridId).gridId
    ensures r.index.None? <==> Position(g, index).x == 0
    ensures r.index.Some? ==> r.index.value == GetItemLeft(g, index, gridId).index
  {
    var coordinate := Position(g, index);
    var requiresWrapping := coordinate.x <= 0;
    var newGridId := if requiresWrapping then AdjustGridId(gridId, Left) else gridId;
    var trueIndex := if coordinate.x == 0 then None else Some(index - 1);
    LooseTravelResult(newGridId, trueIndex)
  }

  /** From the last column, the as-written step to the right lands on the
      first cell of the next row of the same copy, or past the end of the map
      from its last cell, where the intended step wraps to the first cell of
      the same row. */
  lemma RightFromLastColumn(g: Grid<char>, i: int, gridId: Option<GridId>)
    requires Tiled(g) && 0 <= i < |g.cells| && Position(g, i).x == g.columns - 1
    ensures var p, j := Position(g, i), GetItemRightAsWritten(g, i, gridId).index;
            j == |g.cells| || (j < |g.cells| && Position(g, j) == Coordinate(0, p.y + 1))
    ensures Position(g, GetItemRight(g, i, gridId).index) == Coordinate(0, Position(g, i).y)
  {
    var w, p := g.columns, Position(g, i);
    MapShape(g, i);
    RightCell(g, i, gridId);
    ScaleStep(w, p.y);
    ScaleModDiv(w, p.y + 1, 0);
  }

  /** In the one-row garden `S.`, the step right from the plot `.` leaves
      the map (index 2 of 2 cells), where the intended step returns to `S`. */
  lemma RightLeavesTheMap()
    ensures var g := Grid("S.", 2);
            Tiled(g) && Position(g, 1) == Coordinate(1, 0)
            && GetItemRightAsWritten(g, 1, Some(GridId(0, 0, 0, 0))).index == 2 == |g.cells|
            && GetItemRight(g, 1, Some(GridId(0, 0, 0, 0))).index == 0
  {
    var g := Grid("S.", 2);
    assert Mod(2, 2) == Mod(0, 2) == 0;
    assert Mod(1, 2) == 1 && Div(1, 2) == 0;
  }

  /** In the same garden, the step left from `S` has no index at all, where
      the intended step reaches the `.` of the copy to the left. */
  lemma LeftHasNoIndex()
    ensures var g := Grid("S.", 2);
            Tiled(g)
            && GetItemLeftAsWritten(g, 0, Some(GridId(0, 0, 0, 0))) == LooseTravelResult(Some(GridId(0, 0, 0, 1)), None)
            && GetItemLeft(g, 0, Some(GridId(0, 0, 0, 0))) == TravelResult(Some(GridId(0, 0, 0, 1)), 1)
  {
    var g := Grid("S.", 2);
    assert Mod(2, 2) == Mod(0, 2) == 0;
    assert Mod(0, 2) == 0 && Div(0, 2) == 0;
  }
}
