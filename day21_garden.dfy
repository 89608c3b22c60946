/** Day 21, `src/21/garden.ts`: from the start plot `S` the elf takes
    `maxSteps` steps north, east, south or west, never onto a rock. `walk`
    walks the garden breadth first and counts the plots reached on a step
    whose parity is that of `maxSteps`. */
module Gardens {
  import opened Common
  import opened Grids

  const Plot := '.'
  const Rock := '#'
  const StartTile := 'S'

  /** `indexOf`: the first position of `c`, or -1. */
  function IndexOf(s: seq<char>, c: char): (r: int)
    ensures -1 <= r < |s|
    ensures r == -1 <==> c !in s
    ensures r >= 0 ==> s[r] == c && c !in s[..r]
    decreases |s|
  {
    if |s| == 0 then -1
    else if s[0] == c then 0
    else
      var r := IndexOf(s[1..], c);
      assert s[1..][..r + 1] == s[..r + 2][1..] by {
        if r >= 0 {
          assert s[1..][..r + 1] == s[1..r + 2];
        }
      }
      if r == -1 then -1 else r + 1
  }

  /** A garden: its grid and the index of its start plot. The source's
      `Garden` class sets `startIndex` once, in its constructor. */
  datatype Garden = Garden(grid: Grid<char>, startIndex: int)

  /** The constructor: the start is the first `S` of the grid, -1 if none. */
  function NewGarden(grid: Grid<char>): (garden: Garden)
    ensures garden.grid == grid
    ensures 0 <= garden.startIndex ==> garden.startIndex < |grid.cells| && grid.cells[garden.startIndex] == StartTile
    ensures garden.startIndex == -1 <==> StartTile !in grid.cells
  {
    Garden(grid, IndexOf(grid.cells, StartTile))
  }

  /** `createGarden`: the lines joined up, with the first line's length as
      the number of columns. */
  function CreateGarden(lines: seq<seq<char>>): (garden: Garden)
    requires |lines| > 0
    ensures garden.grid == FromRows(lines)
  {
    NewGarden(FromRows(lines))
  }

  /** The garden can be walked: a rectangular grid with a start plot. */
  predicate IsWalkable(garden: Garden)
  {
    garden.grid.Valid() && 0 <= garden.startIndex < |garden.grid.cells|
    && garden.grid.cells[garden.startIndex] != Rock
  }

  /** The cells that are no rock. */
  function NonRocks(g: Grid<char>): set<int>
  {
    set i | 0 <= i < |g.cells| && g.cells[i] != Rock
  }

  /* ---------------------------------------------------------------------- */
  /* Walks                                                                  */

  /** `j` is one step from `i`: a neighbour of it that is no rock. */
  predicate IsStep(g: Grid<char>, i: int, j: int)
    requires g.Valid()
  {
    0 <= i < |g.cells|
    && exists d :: GetNeighbors(g, i).Get(d).Some? && GetNeighbors(g, i).Get(d).value.index == j && g.cells[j] != Rock
  }

  /** A walk from the start: each index one step from the one before. */
  ghost predicate IsWalk(garden: Garden, path: seq<int>)
    requires IsWalkable(garden)
  {
    |path| >= 1 && path[0] == garden.startIndex
    && forall k :: 0 <= k < |path| - 1 ==> IsStep(garden.grid, path[k], path[k + 1])
  }

  /** The elf can stand on `i` after exactly `steps` steps. */
  ghost predicate ReachedIn(garden: Garden, i: int, steps: int)
    requires IsWalkable(garden)
  {
    exists path :: IsWalk(garden, path) && |path| == steps + 1 && path[steps] == i
  }

  /** Plot `i` is reached in at most `maxSteps` steps, on a step whose
      parity is that of `maxSteps`. */
  ghost predicate EndsOn(garden: Garden, maxSteps: int, i: int)
    requires IsWalkable(garden)
  {
    exists steps :: 0 <= steps <= maxSteps && steps % 2 == maxSteps % 2 && ReachedIn(garden, i, steps)
  }

  lemma ReachStep(garden: Garden, i: int, steps: int, j: int)
    requires IsWalkable(garden) && ReachedIn(garden, i, steps) && IsStep(garden.grid, i, j)
    ensures ReachedIn(garden, j, steps + 1)
  {
    var path :| IsWalk(garden, path) && |path| == steps + 1 && path[steps] == i;
    assert IsWalk(garden, path + [j]);
  }

  /** Where a walk ends: on the grid, on no rock. */
  lemma ReachedIsPlot(garden: Garden, i: int, steps: int)
    requires IsWalkable(garden) && ReachedIn(garden, i, steps)
    ensures 0 <= i < |garden.grid.cells| && garden.grid.cells[i] != Rock
    ensures steps == 0 ==> i == garden.startIndex
  {
    var path :| IsWalk(garden, path) && |path| == steps + 1 && path[steps] == i;
    if steps > 0 {
      assert IsStep(garden.grid, path[steps - 1], path[steps]);
    }
  }

  /* ---------------------------------------------------------------------- */
  /* walk                                                                   */

  datatype QueueItem = QueueItem(index: int, steps: int)

  /** Every queued item is a plot reached in its number of steps, which is
      at most `maxSteps`. */
  ghost predicate QueueReached(garden: Garden, maxSteps: int, queue: seq<QueueItem>)
    requires IsWalkable(garden)
  {
    forall k :: 0 <= k < |queue| ==>
      0 <= queue[k].steps <= maxSteps && ReachedIn(garden, queue[k].index, queue[k].steps)
  }

  /** `walk`: the number of plots counted is at most the number of plots;
      every plot counted is reached in at most `maxSteps` steps with the
      parity of `maxSteps`; the start counts when `maxSteps` is even, and
      with no steps to take it is the only one. */
  method Walk(garden: Garden, maxSteps: int) returns (count: int)
    requires IsWalkable(garden) && maxSteps >= 0
    ensures exists tiles: set<int> :: |tiles| == count && forall i :: i in tiles ==> EndsOn(garden, maxSteps, i)
    ensures 0 <= count <= |NonRocks(garden.grid)|
    ensures maxSteps % 2 == 0 ==> count >= 1
    ensures maxSteps == 0 ==> count == 1
  {
    var n := |garden.grid.cells|;
    var queue := [QueueItem(garden.startIndex, 0)];
    var visitedIndexes: set<int> := {};
    var endTiles: set<int> := {};
    assert IsWalk(garden, [garden.startIndex]);
    while |queue| > 0
      invariant Walking(garden, maxSteps, queue, visitedIndexes, endTiles)
      decreases n - |visitedIndexes|, |queue|
    {
      IndexSetSize(visitedIndexes, n);
      queue, visitedIndexes, endTiles := TakeFirst(garden, maxSteps, queue, visitedIndexes, endTiles);
      IndexSetSize(visitedIndexes, n);
    }
    WalkCount(garden, maxSteps, endTiles);
    if maxSteps == 0 {
      assert endTiles == {garden.startIndex};
    }
    count := |endTiles|;
  }

  /** The invariant of the `walk` loop: queued items are plots reached in
      their number of steps, visited indexes lie in the grid, counted plots
      are plots the elf can end on, and the start is queued or counted. */
  ghost predicate Walking(garden: Garden, maxSteps: int, queue: seq<QueueItem>, visited: set<int>, endTiles: set<int>)
    requires IsWalkable(garden)
  {
    && QueueReached(garden, maxSteps, queue)
    && (forall i :: i in visited ==> 0 <= i < |garden.grid.cells|)
    && (forall i :: i in endTiles ==> EndsOn(garden, maxSteps, i))
    && (maxSteps % 2 == 0 ==> QueueItem(garden.startIndex, 0) in queue || garden.startIndex in endTiles)
  }

  /** One turn of the `walk` loop: the first item is taken off the queue and
      counted when its steps have the parity of `maxSteps`; unless it is on
      its last step or visited already, it is visited and its neighbours are
      queued. */
  method TakeFirst(garden: Garden, maxSteps: int, queue: seq<QueueItem>, visited: set<int>, endTiles: set<int>)
    returns (queue': seq<QueueItem>, visited': set<int>, endTiles': set<int>)
    requires IsWalkable(garden) && maxSteps >= 0 && |queue| > 0
    requires Walking(garden, maxSteps, queue, visited, endTiles)
    ensures Walking(garden, maxSteps, queue', visited', endTiles')
    ensures endTiles' == if queue[0].steps % 2 == maxSteps % 2 then endTiles + {queue[0].index} else endTiles
    ensures queue[0].steps == maxSteps || queue[0].index in visited ==> visited' == visited && queue' == queue[1..]
    ensures !(queue[0].steps == maxSteps || queue[0].index in visited) ==>
              && visited' == visited + {queue[0].index} && queue[0].index !in visited
              && queue' == queue[1..] + Queued(Iterate(GetNeighbors(garden.grid, queue[0].index)), visited', queue[0].steps)
  {
    var item := queue[0];
    queue' := queue[1..];
    visited' := visited;
    endTiles' := endTiles;
    ReachedIsPlot(garden, item.index, item.steps);
    if item.steps % 2 == maxSteps % 2 {
      endTiles' := endTiles + {item.index};
    }
    if item.steps == maxSteps || item.index in visited {
      return;
    }
    visited' := visited + {item.index};
    ghost var rest := queue';
    queue' := PushNeighbors(garden, maxSteps, item, visited', queue');
    assert maxSteps % 2 == 0 && QueueItem(garden.startIndex, 0) in rest ==> QueueItem(garden.startIndex, 0) in queue' by {
      if maxSteps % 2 == 0 && QueueItem(garden.startIndex, 0) in rest {
        var k :| 0 <= k < |rest| && rest[k] == QueueItem(garden.startIndex, 0);
        assert queue'[k] == rest[k];
      }
    }
  }

  /** The plots counted at the end of the walk: at most all plots, and just
      the start when there are no steps. */
  lemma WalkCount(garden: Garden, maxSteps: int, endTiles: set<int>)
    requires IsWalkable(garden) && maxSteps >= 0
    requires forall i :: i in endTiles ==> EndsOn(garden, maxSteps, i)
    ensures |endTiles| <= |NonRocks(garden.grid)|
    ensures maxSteps == 0 ==> endTiles <= {garden.startIndex}
  {
    forall i | i in endTiles
      ensures i in NonRocks(garden.grid)
      ensures maxSteps == 0 ==> i == garden.startIndex
    {
      var steps :| 0 <= steps <= maxSteps && steps % 2 == maxSteps % 2 && ReachedIn(garden, i, steps);
      ReachedIsPlot(garden, i, steps);
    }
    assert endTiles <= NonRocks(garden.grid);
    SubsetSize(endTiles, NonRocks(garden.grid));
  }

  /** The items `walk` queues for the neighbours `neighbors` of an item
      `steps` steps in: one step further for each neighbour that is no rock
      and not visited, in order. */
  function Queued(neighbors: seq<CellNeighbor<char>>, visited: set<int>, steps: int): seq<QueueItem>
  {
    if |neighbors| == 0 then []
    else QueuedFor(neighbors[0], visited, steps) + Queued(neighbors[1..], visited, steps)
  }

  /** The item queued for one neighbour, if any. */
  function QueuedFor(neighbor: CellNeighbor<char>, visited: set<int>, steps: int): seq<QueueItem>
  {
    if neighbor.value.value == Rock || neighbor.value.index in visited then []
    else [QueueItem(neighbor.value.index, steps + 1)]
  }

  /** An item is queued exactly for a neighbour that is no rock and not
      visited, one step further. */
  lemma {:induction false} QueuedExactly(neighbors: seq<CellNeighbor<char>>, visited: set<int>, steps: int)
    ensures forall q :: q in Queued(neighbors, visited, steps) <==>
              exists k :: 0 <= k < |neighbors| && neighbors[k].value.value != Rock && neighbors[k].value.index !in visited
                          && q == QueueItem(neighbors[k].value.index, steps + 1)
  {
    if |neighbors| > 0 {
      var rest := neighbors[1..];
      QueuedExactly(rest, visited, steps);
      forall q
        ensures q in Queued(neighbors, visited, steps) <==>
                  exists k :: 0 <= k < |neighbors| && neighbors[k].value.value != Rock && neighbors[k].value.index !in visited
                              && q == QueueItem(neighbors[k].value.index, steps + 1)
      {
        if q in Queued(rest, visited, steps) {
          var k :| 0 <= k < |rest| && rest[k].value.value != Rock && rest[k].value.index !in visited
                   && q == QueueItem(rest[k].value.index, steps + 1);
          assert neighbors[k + 1] == rest[k];
        }
        if exists k :: 0 <= k < |neighbors| && neighbors[k].value.value != Rock && neighbors[k].value.index !in visited
                       && q == QueueItem(neighbors[k].value.index, steps + 1) {
          var k :| 0 <= k < |neighbors| && neighbors[k].value.value != Rock && neighbors[k].value.index !in visited
                   && q == QueueItem(neighbors[k].value.index, steps + 1);
          if k > 0 {
            assert rest[k - 1] == neighbors[k];
          }
        }
      }
    }
  }

  /** The loop over the neighbours of an expanded plot: every neighbour that
      is no rock and not expanded yet is queued one step further, in the
      up, right, down, left order of the neighbours. */
  method PushNeighbors(garden: Garden, maxSteps: int, item: QueueItem, visitedIndexes: set<int>, queue: seq<QueueItem>)
    returns (queue': seq<QueueItem>)
    requires IsWalkable(garden) && 0 <= item.steps < maxSteps && ReachedIn(garden, item.index, item.steps)
    requires 0 <= item.index < |garden.grid.cells|
    requires QueueReached(garden, maxSteps, queue)
    ensures QueueReached(garden, maxSteps, queue')
    ensures |queue| <= |queue'| && queue'[..|queue|] == queue
    ensures queue' == queue + Queued(Iterate(GetNeighbors(garden.grid, item.index)), visitedIndexes, item.steps)
  {
    var neighbors := Iterate(GetNeighbors(garden.grid, item.index));
    queue' := QueueNeighbors(neighbors, visitedIndexes, item.steps, queue);
    QueuedReached(garden, maxSteps, item, visitedIndexes, neighbors);
    assert queue'[..|queue|] == queue;
  }

  /** The loop itself: each neighbour that is no rock and not visited is
      appended to the queue one step further, in order. */
  method QueueNeighbors(neighbors: seq<CellNeighbor<char>>, visitedIndexes: set<int>, steps: int, queue: seq<QueueItem>)
    returns (queue': seq<QueueItem>)
    ensures queue' == queue + Queued(neighbors, visitedIndexes, steps)
  {
    queue' := queue;
    assert neighbors[0..] == neighbors;
    for k := 0 to |neighbors|
      invariant queue' + Queued(neighbors[k..], visitedIndexes, steps) == queue + Queued(neighbors, visitedIndexes, steps)
    {
      assert neighbors[k..][1..] == neighbors[k + 1..];
      var neighbor := neighbors[k].value;
      if neighbor.value == Rock || neighbor.index in visitedIndexes {
        continue;
      }
      var item := QueueItem(neighbor.index, steps + 1);
      assert queue' + ([item] + Queued(neighbors[k + 1..], visitedIndexes, steps))
          == (queue' + [item]) + Queued(neighbors[k + 1..], visitedIndexes, steps);
      queue' := queue' + [item];
    }
    assert Queued(neighbors[|neighbors|..], visitedIndexes, steps) == [];
  }

  /** The items queued around a reached plot are reached one step further,
      and a queue of reached items stays one when they are appended. */
  lemma QueuedReached(garden: Garden, maxSteps: int, item: QueueItem, visited: set<int>, neighbors: seq<CellNeighbor<char>>)
    requires IsWalkable(garden) && 0 <= item.steps < maxSteps && ReachedIn(garden, item.index, item.steps)
    requires 0 <= item.index < |garden.grid.cells|
    requires neighbors == Iterate(GetNeighbors(garden.grid, item.index))
    ensures forall queue :: QueueReached(garden, maxSteps, queue) ==>
              QueueReached(garden, maxSteps, queue + Queued(neighbors, visited, item.steps))
  {
    var queued := Queued(neighbors, visited, item.steps);
    QueuedExactly(neighbors, visited, item.steps);
    forall k | 0 <= k < |queued|
      ensures 0 <= queued[k].steps <= maxSteps && ReachedIn(garden, queued[k].index, queued[k].steps)
    {
      assert queued[k] in queued;
      var j :| 0 <= j < |neighbors| && neighbors[j].value.value != Rock && neighbors[j].value.index !in visited
               && queued[k] == QueueItem(neighbors[j].value.index, item.steps + 1);
      var d := neighbors[j].direction;
      assert GetNeighbors(garden.grid, item.index).Get(d) == Some(neighbors[j].value);
      assert IsStep(garden.grid, item.index, neighbors[j].value.index);
      ReachStep(garden, item.index, item.steps, neighbors[j].value.index);
    }
    forall queue | QueueReached(garden, maxSteps, queue)
      ensures QueueReached(garden, maxSteps, queue + queued)
    {
      forall k | 0 <= k < |queue + queued|
        ensures 0 <= (queue + queued)[k].steps <= maxSteps && ReachedIn(garden, (queue + queued)[k].index, (queue + queued)[k].steps)
      {
        if k >= |queue| {
          assert (queue + queued)[k] == queued[k - |queue|];
        }
      }
    }
  }
}
