/** Day 16, `src/16/contraption.ts` and `src/16/part-2.ts`: a beam of light
    enters the contraption at its top-left cell heading right; mirrors turn
    it, splitters split it, and the answer is the number of cells it
    energises. `findBestPath` walks the beam breadth first over (cell,
    heading) positions, each processed at most once. */
module Contraptions {
  import opened Common
  import opened Grids

  const EmptySpace := '.'
  const SlantedMirror := '/'
  const BackSlantedMirror := '\\'
  const HorizontalSplitter := '-'
  const VerticalSplitter := '|'

  /** The five items a contraption is made of. */
  predicate IsItem(c: char)
  {
    c == EmptySpace || c == SlantedMirror || c == BackSlantedMirror
    || c == HorizontalSplitter || c == VerticalSplitter
  }

  /** Every cell of the contraption is one of the items. */
  predicate IsContraption(g: Grid<char>)
  {
    g.Valid() && |g.cells| > 0 && forall i :: 0 <= i < |g.cells| ==> IsItem(g.cells[i])
  }

  /** A cell of the grid and the heading of the beam in it. */
  datatype Position = Position(index: int, direction: Direction)

  predicate IsHorizontal(d: Direction)
  {
    d == Left || d == Right
  }

  /** The table `slantedMirror`, for `/`. */
  function Slanted(d: Direction): Direction
  {
    match d
    case Up => Right
    case Right => Up
    case Down => Left
    case Left => Down
  }

  /** The table `backSlantedMirror`, for a backslash. */
  function BackSlanted(d: Direction): Direction
  {
    match d
    case Up => Left
    case Right => Down
    case Down => Right
    case Left => Up
  }

  /** `getNextDirections`: the headings a beam heading `d` leaves an item
      with. The beam never turns back; it goes straight on exactly through
      empty space and along a splitter; a mirror turns it by a quarter turn;
      it splits in two exactly at a splitter it hits side-on, and leaves a
      splitter only along it. */
  function NextDirections(d: Direction, item: char): (r: seq<Direction>)
    requires IsItem(item)
    ensures 1 <= |r| <= 2 && Opposite(d) !in r
    ensures d in r <==> item == EmptySpace
                        || (item == HorizontalSplitter && IsHorizontal(d))
                        || (item == VerticalSplitter && !IsHorizontal(d))
    ensures (item == SlantedMirror || item == BackSlantedMirror) ==>
              |r| == 1 && IsHorizontal(r[0]) != IsHorizontal(d)
    ensures |r| == 2 <==> (item == HorizontalSplitter && !IsHorizontal(d))
                          || (item == VerticalSplitter && IsHorizontal(d))
    ensures item == HorizontalSplitter ==> forall k :: 0 <= k < |r| ==> IsHorizontal(r[k])
    ensures item == VerticalSplitter ==> forall k :: 0 <= k < |r| ==> !IsHorizontal(r[k])
  {
    if item == EmptySpace then [d]
    else if item == SlantedMirror then [Slanted(d)]
    else if item == BackSlantedMirror then [BackSlanted(d)]
    else if item == HorizontalSplitter then
      (if d == Left || d == Right then [d] else [Left, Right])
    else
      (if d == Up || d == Down then [d] else [Up, Down])
  }

  /** Each mirror table undoes itself. */
  lemma MirrorsAreInvolutions(d: Direction)
    ensures Slanted(Slanted(d)) == d && BackSlanted(BackSlanted(d)) == d
  {
  }

  /** Light paths through empty space and mirrors can be run backwards: a
      beam heading `d` leaves heading `e` exactly when a beam heading back
      along `e` leaves heading back along `d`. */
  lemma MirrorsAreReversible(d: Direction, e: Direction, item: char)
    requires item == EmptySpace || item == SlantedMirror || item == BackSlantedMirror
    ensures e in NextDirections(d, item) <==> Opposite(d) in NextDirections(Opposite(e), item)
  {
  }

  /* ---------------------------------------------------------------------- */
  /* The beam as a path of positions                                        */

  /** The beam in `p` moves on to `q`: `q`'s heading is one the item at `p`
      sends the beam along, and `q`'s cell is the neighbour that way. */
  predicate IsSuccessor(g: Grid<char>, p: Position, q: Position)
    requires IsContraption(g)
  {
    0 <= p.index < |g.cells|
    && q.direction in NextDirections(p.direction, g.cells[p.index])
    && GetNeighbors(g, p.index).Get(q.direction).Some?
    && GetNeighbors(g, p.index).Get(q.direction).value.index == q.index
  }

  /** Where the beam enters: the top-left cell, heading right. */
  const Start := Position(0, Right)

  /** A path the beam can take from the start. */
  ghost predicate IsBeam(g: Grid<char>, path: seq<Position>)
    requires IsContraption(g)
  {
    |path| >= 1 && path[0] == Start
    && forall k :: 0 <= k < |path| - 1 ==> IsSuccessor(g, path[k], path[k + 1])
  }

  /** Whether the beam reaches position `q`. */
  ghost predicate Reachable(g: Grid<char>, q: Position)
    requires IsContraption(g)
  {
    exists path :: IsBeam(g, path) && path[|path| - 1] == q
  }

  /** The cells the beam passes through: the answer to part 1. */
  ghost function Energized(g: Grid<char>): set<int>
    requires IsContraption(g)
  {
    set p | p in States(|g.cells|) && Reachable(g, p) :: p.index
  }

  /** All positions on a grid of `n` cells. */
  function States(n: int): set<Position>
    decreases n
  {
    if n <= 0 then {}
    else States(n - 1) + {Position(n - 1, Up), Position(n - 1, Right), Position(n - 1, Down), Position(n - 1, Left)}
  }

  lemma {:induction false} StatesAre(n: int, p: Position)
    ensures p in States(n) <==> 0 <= p.index < n
    decreases n
  {
    if n > 0 {
      StatesAre(n - 1, p);
      if p.index == n - 1 {
        match p.direction
        case Up =>
        case Right =>
        case Down =>
        case Left =>
      }
    }
  }

  /** The beam reaches every position a reached one moves on to. */
  lemma ReachStep(g: Grid<char>, p: Position, q: Position)
    requires IsContraption(g) && Reachable(g, p) && IsSuccessor(g, p, q)
    ensures Reachable(g, q)
  {
    var path :| IsBeam(g, path) && path[|path| - 1] == p;
    var longer := path + [q];
    assert IsBeam(g, longer);
  }

  /** A set of positions holding the start and every successor of its
      members holds every position the beam reaches. */
  lemma ClosedHoldsReachable(g: Grid<char>, s: set<Position>, q: Position)
    requires IsContraption(g) && Start in s
    requires forall p, r :: p in s && IsSuccessor(g, p, r) ==> r in s
    requires Reachable(g, q)
    ensures q in s
  {
    var path :| IsBeam(g, path) && path[|path| - 1] == q;
    PathInClosed(g, s, path, |path| - 1);
  }

  lemma {:induction false} PathInClosed(g: Grid<char>, s: set<Position>, path: seq<Position>, k: int)
    requires IsContraption(g) && Start in s
    requires forall p, r :: p in s && IsSuccessor(g, p, r) ==> r in s
    requires IsBeam(g, path) && 0 <= k < |path|
    ensures path[k] in s
    decreases k
  {
    if k > 0 {
      PathInClosed(g, s, path, k - 1);
      assert IsSuccessor(g, path[k - 1], path[k]);
    }
  }

  /* ---------------------------------------------------------------------- */
  /* findBestPath                                                           */

  /** `hasVisitedPosition`: whether the position was visited before, and the
      visited set with the position added when `mark` is set. The source keys
      the set by the string `index-direction`; here the position itself is
      the key. */
  function HasVisitedPosition(position: Position, visited: set<Position>, mark: bool): (r: (bool, set<Position>))
    ensures r.0 <==> position in visited
    ensures visited <= r.1 && (mark ==> position in r.1) && r.1 - visited <= {position}
    ensures !mark ==> r.1 == visited
  {
    (position in visited, if mark then visited + {position} else visited)
  }

  /** `findBestPath`: a breadth-first walk from the top-left cell heading
      right. The number it returns is the number of cells the beam
      energises, at least the first cell and at most the whole grid. */
  method FindBestPath(g: Grid<char>) returns (count: int)
    requires IsContraption(g)
    ensures count == |Energized(g)|
    ensures 1 <= count <= |g.cells|
  {
    var n := |g.cells|;
    var queue := [Start];
    var visited: set<Position> := {};
    var energized: set<int> := {};
    while |queue| > 0
      invariant Walking(g, queue, visited, energized)
      decreases States(n) - visited, |queue|
    {
      queue, visited, energized := TakeFirst(g, queue, visited, energized);
    }
    VisitedIsEnergized(g, visited, energized);
    count := |energized|;
  }

  /** One turn of the `findBestPath` loop: the first queued position is
      taken off the queue; unless it was visited before, it is marked, its
      cell energised, and the moves out of it queued. */
  method TakeFirst(g: Grid<char>, queue: seq<Position>, visited: set<Position>, energized: set<int>)
    returns (queue': seq<Position>, visited': set<Position>, energized': set<int>)
    requires IsContraption(g) && |queue| > 0 && Walking(g, queue, visited, energized)
    ensures Walking(g, queue', visited', energized')
    ensures States(|g.cells|) - visited' < States(|g.cells|) - visited
            || (visited' == visited && |queue'| < |queue|)
  {
    var position := queue[0];
    queue' := queue[1..];
    var marked := HasVisitedPosition(position, visited, true);
    visited' := marked.1;
    if marked.0 {
      ClosedAfterSkip(g, visited, queue);
      energized' := energized;
      return;
    }
    StatesAre(|g.cells|, position);
    energized' := energized + {position.index};
    queue' := VisitPosition(g, position, visited', queue');
    ClosedAfterVisit(g, visited, queue, queue');
  }

  /** The invariant of the `findBestPath` loop: queued and visited positions
      are reached by the beam, moves out of visited positions are visited or
      queued, the start is one of them, and the energised cells are the
      visited ones. */
  ghost predicate Walking(g: Grid<char>, queue: seq<Position>, visited: set<Position>, energized: set<int>)
    requires IsContraption(g)
  {
    AllReachable(g, queue) && AllVisitedReachable(g, visited) && Closed(g, visited, queue)
    && (Start in visited || Start in queue) && energized == Cells(visited)
  }

  /** Every queued position is on the grid and reached by the beam. */
  ghost predicate AllReachable(g: Grid<char>, queue: seq<Position>)
    requires IsContraption(g)
  {
    forall k :: 0 <= k < |queue| ==> 0 <= queue[k].index < |g.cells| && Reachable(g, queue[k])
  }

  /** The cells of a set of positions. */
  function Cells(positions: set<Position>): set<int>
  {
    set p | p in positions :: p.index
  }

  /** Every visited position is on the grid and reached by the beam. */
  ghost predicate AllVisitedReachable(g: Grid<char>, visited: set<Position>)
    requires IsContraption(g)
  {
    forall p :: p in visited ==> 0 <= p.index < |g.cells| && Reachable(g, p)
  }

  /** Every move out of a visited position leads to a visited or queued one. */
  ghost predicate Closed(g: Grid<char>, visited: set<Position>, queue: seq<Position>)
    requires IsContraption(g)
  {
    forall p, q :: p in visited && IsSuccessor(g, p, q) ==> q in visited || q in queue
  }

  /** Dropping a queued position that was visited already keeps the closure. */
  lemma ClosedAfterSkip(g: Grid<char>, visited: set<Position>, waiting: seq<Position>)
    requires IsContraption(g) && |waiting| > 0 && waiting[0] in visited
    requires Closed(g, visited, waiting)
    ensures Closed(g, visited, waiting[1..])
  {
    forall p, q | p in visited && IsSuccessor(g, p, q) && q !in visited
      ensures q in waiting[1..]
    {
      var k :| 0 <= k < |waiting| && waiting[k] == q;
      assert waiting[1..][k - 1] == q;
    }
  }

  /** Visiting the first queued position and queueing its moves keeps the
      closure. */
  lemma ClosedAfterVisit(g: Grid<char>, previous: set<Position>, waiting: seq<Position>, queue: seq<Position>)
    requires IsContraption(g) && |waiting| > 0
    requires Closed(g, previous, waiting)
    requires |waiting| - 1 <= |queue| && queue[..|waiting| - 1] == waiting[1..]
    requires forall q :: IsSuccessor(g, waiting[0], q) ==> q in previous + {waiting[0]} || q in queue
    ensures Closed(g, previous + {waiting[0]}, queue)
  {
    forall p, q | p in previous + {waiting[0]} && IsSuccessor(g, p, q) && q !in previous + {waiting[0]}
      ensures q in queue
    {
      if p != waiting[0] {
        var k :| 0 <= k < |waiting| && waiting[k] == q;
        assert queue[k - 1] == waiting[1..][k - 1] == q;
      }
    }
  }

  /** Once the queue is empty, the visited positions are closed under the
      beam's moves, so their cells are the energised ones. */
  lemma VisitedIsEnergized(g: Grid<char>, visited: set<Position>, energized: set<int>)
    requires IsContraption(g)
    requires AllVisitedReachable(g, visited)
    requires Closed(g, visited, [])
    requires Start in visited
    requires energized == Cells(visited)
    ensures energized == Energized(g)
    ensures 1 <= |energized| <= |g.cells|
  {
    var n := |g.cells|;
    forall i | i in Energized(g)
      ensures i in energized
    {
      var p :| p in States(n) && Reachable(g, p) && p.index == i;
      ClosedHoldsReachable(g, visited, p);
    }
    forall i | i in energized
      ensures i in Energized(g)
    {
      var p :| p in visited && p.index == i;
      StatesAre(n, p);
    }
    assert 0 in energized;
    IndexSetSize(energized, n);
  }

  /** The loop over the next directions of one position: the neighbour the
      beam reaches along each of them is queued unless that position was
      visited already; a beam leaving the grid is dropped. */
  method VisitPosition(g: Grid<char>, position: Position, visited: set<Position>, queue: seq<Position>)
    returns (queue': seq<Position>)
    requires IsContraption(g) && 0 <= position.index < |g.cells| && Reachable(g, position)
    requires AllReachable(g, queue)
    ensures |queue| <= |queue'| && queue'[..|queue|] == queue
    ensures AllReachable(g, queue')
    ensures forall k :: |queue| <= k < |queue'| ==>
              0 <= queue'[k].index < |g.cells| && Reachable(g, queue'[k])
              && IsSuccessor(g, position, queue'[k]) && queue'[k] !in visited
    ensures forall q :: IsSuccessor(g, position, q) ==> q in visited || q in queue'
  {
    var neighbors := GetNeighbors(g, position.index);
    var directions := NextDirections(position.direction, g.cells[position.index]);
    queue' := queue;
    for k := 0 to |directions|
      invariant |queue| <= |queue'| && queue'[..|queue|] == queue
      invariant AllReachable(g, queue')
      invariant forall j :: |queue| <= j < |queue'| ==>
                  0 <= queue'[j].index < |g.cells| && Reachable(g, queue'[j])
                  && IsSuccessor(g, position, queue'[j]) && queue'[j] !in visited
      invariant forall q :: IsSuccessor(g, position, q) && q.direction in directions[..k] ==>
                  q in visited || q in queue'
    {
      var direction := directions[k];
      var neighbor := neighbors.Get(direction);
      if neighbor.None? || Position(neighbor.value.index, direction) in visited {
        continue;
      }
      // Both branches of the source push the neighbour's index with the new
      // heading: the spread of `position` keeps its heading when it is the
      // same as `direction`.
      var next := Position(neighbor.value.index, direction);
      assert IsSuccessor(g, position, next);
      ReachStep(g, position, next);
      queue' := queue' + [next];
    }
    assert directions[..|directions|] == directions;
  }

  /* ---------------------------------------------------------------------- */
  /* Part 2: getStartingPositions                                           */

  /** `getStartingPositions`: every border cell with the heading that enters
      the grid there, top row heading down, bottom row heading up, first
      column heading right, last column heading left. */
  function StartingPositions(rows: int, columns: int): (r: seq<Position>)
    requires rows >= 0 && columns >= 0
    ensures |r| == 2 * columns + 2 * rows
    ensures forall k :: 0 <= k < columns ==> r[k] == Position(k, Down)
    ensures forall k :: columns <= k < 2 * columns ==> r[k] == Position((rows - 1) * columns + (k - columns), Up)
    ensures forall k :: 2 * columns <= k < 2 * columns + rows ==> r[k] == Position(columns * (k - 2 * columns), Right)
    ensures forall k :: 2 * columns + rows <= k < |r| ==>
              r[k] == Position(columns * (k - 2 * columns - rows) + columns - 1, Left)
  {
    var bottomRow := seq(columns, i => Position((rows - 1) * columns + i, Up));
    var firstColumn := seq(rows, i => Position(columns * i, Right));
    var lastColumn := seq(rows, i => Position(columns * i + (columns - 1), Left));
    var topRow := seq(columns, i => Position(i, Down));
    topRow + bottomRow + firstColumn + lastColumn
  }

  /** The starting positions are exactly the positions whose beam comes in
      from outside the grid: on the grid, with no neighbour behind them. */
  lemma StartingPositionsEnterGrid(g: Grid<char>, p: Position)
    requires g.Valid() && g.Rows() >= 1
    ensures p in StartingPositions(g.Rows(), g.columns)
        <==> 0 <= p.index < |g.cells| && GetNeighbors(g, p.index).Get(Opposite(p.direction)).None?
  {
    var w, rows := g.columns, g.Rows();
    var r := StartingPositions(rows, w);
    DivExact(|g.cells|, w);
    assert |g.cells| == rows * w;
    if p in r {
      var k :| 0 <= k < |r| && r[k] == p;
      EntryIsOnBorder(g, k);
    }
    if 0 <= p.index < |g.cells| && GetNeighbors(g, p.index).Get(Opposite(p.direction)).None? {
      var k := BorderEntry(g, p);
      assert r[k] == p;
    }
  }

  /** Each starting position is a cell of the grid with nothing behind it. */
  lemma EntryIsOnBorder(g: Grid<char>, k: int)
    requires g.Valid() && g.Rows() >= 1 && 0 <= k < 2 * g.columns + 2 * g.Rows()
    ensures var p := StartingPositions(g.Rows(), g.columns)[k];
            0 <= p.index < |g.cells| && GetNeighbors(g, p.index).Get(Opposite(p.direction)).None?
  {
    var w, rows := g.columns, g.Rows();
    var p := StartingPositions(rows, w)[k];
    DivExact(|g.cells|, w);
    assert |g.cells| == rows * w;
    if k < w {
      assert p.index == k;
    } else if k < 2 * w {
      var i := k - w;
      assert p.index == (rows - 1) * w + i;
      MulLe(0, rows - 1, w);
      assert p.index + w == rows * w + i;
    } else if k < 2 * w + rows {
      var i := k - 2 * w;
      MulLess(i, rows, w);
      MulLe(0, i, w);
      assert p.index == i * w + 0;
      DivModUnique(i, 0, w);
    } else {
      var i := k - 2 * w - rows;
      MulLess(i, rows, w);
      MulLe(0, i, w);
      assert p.index == i * w + (w - 1);
      DivModUnique(i, w - 1, w);
    }
  }

  /** A cell with nothing behind it has its starting position in the list:
      the place where it sits. */
  lemma BorderEntry(g: Grid<char>, p: Position) returns (k: int)
    requires g.Valid() && g.Rows() >= 1
    requires 0 <= p.index < |g.cells| && GetNeighbors(g, p.index).Get(Opposite(p.direction)).None?
    ensures 0 <= k < 2 * g.columns + 2 * g.Rows() && StartingPositions(g.Rows(), g.columns)[k] == p
  {
    var w, rows, i := g.columns, g.Rows(), p.index;
    DivExact(|g.cells|, w);
    assert |g.cells| == w * rows;
    var x := IndexToCoordinate(g, i).x;
    match p.direction
    case Down =>
      k := i;
    case Up =>
      k := w + (i - (rows - 1) * w);
    case Right =>
      k := FirstColumnEntry(w, rows, i);
    case Left =>
      k := LastColumnEntry(w, rows, i);
  }

  /** A cell in the first column is the `index / columns`-th entry of the
      first-column list. */
  lemma FirstColumnEntry(w: int, rows: int, i: int) returns (k: int)
    requires w > 0 && 0 <= i < w * rows && i % w == 0
    ensures k == 2 * w + i / w && 2 * w <= k < 2 * w + rows && w * (k - 2 * w) == i
  {
    DivBelow(i, rows, w);
    DivExact(i, w);
    k := 2 * w + i / w;
  }

  /** A cell in the last column is the `index / columns`-th entry of the
      last-column list. */
  lemma LastColumnEntry(w: int, rows: int, i: int) returns (k: int)
    requires w > 0 && 0 <= i < w * rows && i % w == w - 1
    ensures 2 * w + rows <= k < 2 * w + 2 * rows && w * (k - 2 * w - rows) + w - 1 == i
  {
    DivBelow(i, rows, w);
    k := 2 * w + rows + i / w;
  }
}
