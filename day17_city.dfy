/** Day 17, `src/17/city.ts`: a crucible crosses the city from the top-left
    block to the bottom-right one, losing the heat of every block it enters;
    it may not turn back and may not go more than three blocks in a straight
    line. `findBestPath` is a search over (block, axis, straight steps)
    states, popping the least heat loss first. */
module Cities {
  import opened Common
  import opened Grids

  /** The city's blocks as the digits of the input. */
  predicate IsCity(g: Grid<int>)
  {
    g.Valid() && |g.cells| > 0 && forall i :: 0 <= i < |g.cells| ==> 0 <= g.cells[i] <= 9
  }

  /** The digits of a row as numbers. */
  function Digits(s: seq<char>): (r: seq<int>)
    requires forall i :: 0 <= i < |s| ==> IsDigit(s[i])
    ensures |r| == |s|
  {
    seq(|s|, i requires 0 <= i < |s| => DigitValue(s[i]))
  }

  /** `createCity`: every character becomes its digit; the first row's
      length is the number of columns. */
  function CreateCity(rows: seq<seq<char>>): Grid<int>
    requires |rows| > 0 && forall i :: 0 <= i < |Flatten(rows)| ==> IsDigit(Flatten(rows)[i])
  {
    Grid(Digits(Flatten(rows)), |rows[0]|)
  }

  /** Equal rows of digits make a city whose block at column `x` of row `y`
      is the digit there. */
  lemma CreateCityBlocks(rows: seq<seq<char>>, x: int, y: int)
    requires |rows| > 0 && |rows[0]| > 0 && Rectangular(rows, |rows[0]|)
    requires forall i :: 0 <= i < |Flatten(rows)| ==> IsDigit(Flatten(rows)[i])
    requires 0 <= x < |rows[0]| && 0 <= y < |rows|
    ensures IsDigit(rows[y][x])
    ensures CreateCity(rows).Valid() && CreateCity(rows).Rows() == |rows|
    ensures var g := CreateCity(rows);
            0 <= CoordinateToIndex(g, Coordinate(x, y)) < |g.cells|
            && g.cells[CoordinateToIndex(g, Coordinate(x, y))] == DigitValue(rows[y][x])
  {
    FromRowsCells(rows, x, y);
  }

  /* ---------------------------------------------------------------------- */
  /* Positions and keys                                                     */

  /** A state of the search: the straight steps so far, the heat lost, the
      heading (none at the start), the block and the block it came from. */
  datatype Position = Position(
    consecutive: int, heatLoss: int, direction: Option<Direction>, index: int, previous: Option<int>)

  datatype Axis = Vertical | Horizontal

  /** The visited-set key: the block, the axis of travel and the straight
      steps. The source writes it as the string `index-axis-steps`. */
  datatype Key = Key(index: int, axis: Axis, steps: int)

  /** `positionToKey`: up and down share the vertical axis; every other
      heading, and no heading at all, is horizontal. */
  function PositionToKey(index: int, direction: Option<Direction>, steps: int): (k: Key)
    ensures k.index == index && k.steps == steps
    ensures k.axis == Vertical <==> direction == Some(Up) || direction == Some(Down)
  {
    var generalDirection := if direction == Some(Down) || direction == Some(Up) then Vertical else Horizontal;
    Key(index, generalDirection, steps)
  }

  /** Two positions share a key exactly when they are on the same block with
      the same straight steps along the same axis. */
  lemma SameKey(i: int, d: Option<Direction>, s: int, j: int, e: Option<Direction>, t: int)
    ensures PositionToKey(i, d, s) == PositionToKey(j, e, t)
        <==> i == j && s == t && ((d == Some(Up) || d == Some(Down)) <==> (e == Some(Up) || e == Some(Down)))
  {
  }

  function KeyOf(p: Position): Key
  {
    PositionToKey(p.index, p.direction, p.consecutive)
  }

  /** `hasVisitedPosition`: whether the position's key was visited, and the
      set with the key added when `mark` is set. */
  function HasVisitedPosition(position: Position, visited: set<Key>, mark: bool): (r: (bool, set<Key>))
    ensures r.0 <==> KeyOf(position) in visited
    ensures visited <= r.1 && (mark ==> KeyOf(position) in r.1) && r.1 - visited <= {KeyOf(position)}
    ensures !mark ==> r.1 == visited
  {
    var key := PositionToKey(position.index, position.direction, position.consecutive);
    (key in visited, if mark then visited + {key} else visited)
  }

  /* ---------------------------------------------------------------------- */
  /* Routes                                                                  */

  /** The search starts on the first block with no heading. */
  const Start := Position(0, 0, None, 0, None)

  /** `q` is a move `findBestPath` may push from `p`: into the neighbour
      towards `q`'s heading, adding that block's heat; a straight step
      counts one more, a turn starts again at one, and the first step counts
      as straight; never back to the block `p` came from, and never a fourth
      straight step. */
  predicate IsMove(g: Grid<int>, p: Position, q: Position)
    requires IsCity(g)
  {
    0 <= p.index < |g.cells| && q.direction.Some?
    && var d := q.direction.value;
       var neighbor := GetNeighbors(g, p.index).Get(d);
       neighbor.Some? && q.index == neighbor.value.index
       && q.heatLoss == p.heatLoss + g.cells[q.index]
       && q.consecutive == (if p.direction.None? || p.direction == Some(d) then p.consecutive + 1 else 1)
       && q.previous == Some(p.index)
       && p.previous != Some(q.index)
       && !(p.direction == Some(d) && p.consecutive == 3)
  }

  /** A sequence of moves from the start. */
  ghost predicate IsRoute(g: Grid<int>, path: seq<Position>)
    requires IsCity(g)
  {
    |path| >= 1 && path[0] == Start
    && forall k :: 0 <= k < |path| - 1 ==> IsMove(g, path[k], path[k + 1])
  }

  ghost predicate Reached(g: Grid<int>, q: Position)
    requires IsCity(g)
  {
    exists path :: IsRoute(g, path) && path[|path| - 1] == q
  }

  /** The heat lost on the blocks entered along a path: all but the first. */
  function EnteredLoss(g: Grid<int>, path: seq<Position>): int
    requires forall k :: 0 <= k < |path| ==> 0 <= path[k].index < |g.cells|
  {
    if |path| <= 1 then 0
    else EnteredLoss(g, path[..|path| - 1]) + g.cells[path[|path| - 1].index]
  }

  /** Along a route every position is on the grid, every position after the
      start has a heading and between one and three straight steps, and its
      heat loss is the heat of the blocks entered so far. */
  lemma {:induction false} RouteFacts(g: Grid<int>, path: seq<Position>)
    requires IsCity(g) && IsRoute(g, path)
    ensures forall k :: 0 <= k < |path| ==> 0 <= path[k].index < |g.cells|
    ensures forall k :: 1 <= k < |path| ==> path[k].direction.Some? && 1 <= path[k].consecutive <= 3
    ensures path[|path| - 1].heatLoss == EnteredLoss(g, path)
    decreases |path|
  {
    if |path| > 1 {
      var init := path[..|path| - 1];
      assert IsRoute(g, init) by {
        forall k | 0 <= k < |init| - 1
          ensures IsMove(g, init[k], init[k + 1])
        {
          assert init[k] == path[k] && init[k + 1] == path[k + 1];
        }
      }
      RouteFacts(g, init);
      var p, q := init[|init| - 1], path[|path| - 1];
      assert IsMove(g, p, q) by {
        assert p == path[|path| - 2];
      }
      assert 0 <= p.consecutive <= 3 && (p.direction.None? ==> p.consecutive == 0) by {
        if |init| == 1 {
          assert p == Start;
        }
      }
      MoveFacts(g, p, q);
      forall k | 0 <= k < |path|
        ensures 0 <= path[k].index < |g.cells|
      {
        if k < |init| {
          assert path[k] == init[k];
        }
      }
      forall k | 1 <= k < |path|
        ensures path[k].direction.Some? && 1 <= path[k].consecutive <= 3
      {
        if k < |init| {
          assert path[k] == init[k];
        }
      }
      assert path[..|path| - 1] == init;
    }
  }

  /** One move lands on the grid, with a heading and one to three straight
      steps, having lost the heat of the block it enters. */
  lemma MoveFacts(g: Grid<int>, p: Position, q: Position)
    requires IsCity(g) && IsMove(g, p, q)
    requires 0 <= p.consecutive <= 3 && (p.direction.None? ==> p.consecutive == 0)
    ensures 0 <= q.index < |g.cells| && q.direction.Some? && 1 <= q.consecutive <= 3
    ensures q.heatLoss == p.heatLoss + g.cells[q.index]
  {
  }

  /** A route never goes straight for four blocks: no four moves in a row
      share a heading. */
  lemma NoFourStraight(g: Grid<int>, path: seq<Position>, k: int)
    requires IsCity(g) && IsRoute(g, path) && 1 <= k && k + 3 < |path|
    ensures !(path[k].direction == path[k + 1].direction == path[k + 2].direction == path[k + 3].direction)
  {
    RouteFacts(g, path);
    assert IsMove(g, path[k], path[k + 1]);
    assert IsMove(g, path[k + 1], path[k + 2]);
    assert IsMove(g, path[k + 2], path[k + 3]);
  }

  /** A route never turns straight back to the block it just left. */
  lemma NeverBack(g: Grid<int>, path: seq<Position>, k: int)
    requires IsCity(g) && IsRoute(g, path) && 0 <= k && k + 2 < |path|
    ensures path[k + 2].index != path[k].index
  {
    assert IsMove(g, path[k], path[k + 1]);
    assert IsMove(g, path[k + 1], path[k + 2]);
  }

  /** The search reaches every move out of a reached position. */
  lemma ReachStep(g: Grid<int>, p: Position, q: Position)
    requires IsCity(g) && Reached(g, p) && IsMove(g, p, q)
    ensures Reached(g, q)
  {
    var path :| IsRoute(g, path) && path[|path| - 1] == p;
    assert IsRoute(g, path + [q]);
  }

  /** A reached position lies on the grid, its heat loss is that of a route
      to it and is not negative, and its straight steps are at most three. */
  lemma ReachedFacts(g: Grid<int>, q: Position)
    requires IsCity(g) && Reached(g, q)
    ensures 0 <= q.index < |g.cells| && 0 <= q.consecutive <= 3 && q.heatLoss >= 0
  {
    var path :| IsRoute(g, path) && path[|path| - 1] == q;
    RouteFacts(g, path);
    LossNonNegative(g, path);
  }

  lemma {:induction false} LossNonNegative(g: Grid<int>, path: seq<Position>)
    requires IsCity(g) && forall k :: 0 <= k < |path| ==> 0 <= path[k].index < |g.cells|
    ensures EnteredLoss(g, path) >= 0
    decreases |path|
  {
    if |path| > 1 {
      LossNonNegative(g, path[..|path| - 1]);
    }
  }

  /* ---------------------------------------------------------------------- */
  /* The priority queue                                                     */

  /** The heap's `pop`: a position with the least heat loss, taken out. Of
      several with the least, the model takes the first queued. */
  method PopMin(queue: seq<Position>) returns (position: Position, rest: seq<Position>)
    requires |queue| > 0
    ensures forall k :: 0 <= k < |queue| ==> position.heatLoss <= queue[k].heatLoss
    ensures exists j :: 0 <= j < |queue| && queue[j] == position && rest == queue[..j] + queue[j + 1..]
  {
    var best := 0;
    for k := 1 to |queue|
      invariant 0 <= best < |queue|
      invariant forall i :: 0 <= i < k ==> queue[best].heatLoss <= queue[i].heatLoss
    {
      if queue[k].heatLoss < queue[best].heatLoss {
        best := k;
      }
    }
    position := queue[best];
    rest := queue[..best] + queue[best + 1..];
  }

  /* ---------------------------------------------------------------------- */
  /* findBestPath                                                           */

  /** All keys a search on `n` blocks can visit. */
  function AllKeys(n: int): set<Key>
    decreases n
  {
    if n <= 0 then {}
    else AllKeys(n - 1) + StepKeys(n - 1, Vertical) + StepKeys(n - 1, Horizontal)
  }

  function StepKeys(index: int, axis: Axis): set<Key>
  {
    {Key(index, axis, 0), Key(index, axis, 1), Key(index, axis, 2), Key(index, axis, 3)}
  }

  lemma {:induction false} AllKeysAre(n: int, k: Key)
    ensures k in AllKeys(n) <==> 0 <= k.index < n && 0 <= k.steps <= 3
    decreases n
  {
    if n > 0 {
      AllKeysAre(n - 1, k);
      StepKeysAre(n - 1, Vertical, k);
      StepKeysAre(n - 1, Horizontal, k);
    }
  }

  lemma StepKeysAre(index: int, axis: Axis, k: Key)
    ensures k in StepKeys(index, axis) <==> k.index == index && k.axis == axis && 0 <= k.steps <= 3
  {
    if k.index == index && k.axis == axis && 0 <= k.steps <= 3 {
      assert k.steps == 0 || k.steps == 1 || k.steps == 2 || k.steps == 3;
    }
  }

  /** Every queued position is reached by a route. */
  ghost predicate AllReached(g: Grid<int>, queue: seq<Position>)
    requires IsCity(g)
  {
    forall k :: 0 <= k < |queue| ==> Reached(g, queue[k])
  }

  /** `findBestPath`: pops positions by least heat loss; the first one on
      the last block gives the answer, -1 when the queue runs dry. Any
      answer other than -1 is the heat loss of a route from the first block
      to the last that never turns back and never goes four straight. */
  method FindBestPath(g: Grid<int>) returns (loss: int)
    requires IsCity(g)
    ensures loss == -1 || loss >= 0
    ensures loss != -1 ==> exists q :: Reached(g, q) && q.index == |g.cells| - 1 && q.heatLoss == loss
  {
    var endPosition := |g.cells| - 1;
    var priorityQueue := [Start];
    var visited: set<Key> := {};
    assert IsRoute(g, [Start]);
    while |priorityQueue| > 0
      invariant AllReached(g, priorityQueue)
      decreases AllKeys(|g.cells|) - visited, |priorityQueue|
    {
      var position, rest := PopMin(priorityQueue);
      assert Reached(g, position);
      ReachedFacts(g, position);
      var marked := HasVisitedPosition(position, visited, true);
      if marked.0 {
        priorityQueue := rest;
        continue;
      }
      AllKeysAre(|g.cells|, KeyOf(position));
      visited := marked.1;
      if position.index == endPosition {
        return position.heatLoss;
      }
      priorityQueue := PushMoves(g, position, visited, rest);
    }
    return -1;
  }

  /** The loop over the neighbours of one position, up, right, down, left:
      each move that does not go back, is not visited and is not a fourth
      straight step is pushed. */
  method PushMoves(g: Grid<int>, position: Position, visited: set<Key>, queue: seq<Position>)
    returns (queue': seq<Position>)
    requires IsCity(g) && 0 <= position.index < |g.cells| && Reached(g, position)
    requires AllReached(g, queue)
    ensures AllReached(g, queue')
    ensures |queue| <= |queue'| && queue'[..|queue|] == queue
    ensures forall k :: |queue| <= k < |queue'| ==> IsMove(g, position, queue'[k])
  {
    var neighbors := Iterate(GetNeighbors(g, position.index));
    queue' := queue;
    for k := 0 to |neighbors|
      invariant AllReached(g, queue')
      invariant |queue| <= |queue'| && queue'[..|queue|] == queue
      invariant forall j :: |queue| <= j < |queue'| ==> IsMove(g, position, queue'[j])
    {
      var direction := neighbors[k].direction;
      var index, value := neighbors[k].value.index, neighbors[k].value.value;
      // The first block has no heading, so its first step counts as straight.
      var sameDirection := (if position.direction.Some? then position.direction.value else direction) == direction;
      var newConsecutive := if sameDirection then position.consecutive + 1 else 1;
      var neighborPosition := Position(newConsecutive, position.heatLoss + value, Some(direction), index, Some(position.index));
      if position.previous == Some(index)
         || HasVisitedPosition(neighborPosition, visited, false).0
         || (position.direction == Some(direction) && position.consecutive == 3)
      {
        continue;
      }
      assert IsMove(g, position, neighborPosition);
      ReachStep(g, position, neighborPosition);
      queue' := queue' + [neighborPosition];
    }
  }
}
