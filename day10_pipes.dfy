/** Day 10, `src/10/helper.ts`: the pipe maze. The grid is padded with a
    border of ground, the main loop is found by a depth-first search from
    the start tile along the pipes, and the tiles enclosed by the loop are
    found by clearing every tile off the loop, flood-filling the outside from
    the top-left corner and ray-casting the remaining ground tiles against the
    loop's polygon. */
module PipeMaze {
  import opened Common
  import opened Grids

  const Ground := '.'
  const Outside := 'O'
  const Start := 'S'

  /* ---------------------------------------------------------------------- */
  /* The pipe tables                                                        */

  /** The tiles a step in direction `d` may leave from (`validUpStart`,
      `validRightStart`, ...). */
  function Sources(d: Direction): string
  {
    match d
    case Up => "S|LJ"
    case Right => "S-LF"
    case Down => "S|F7"
    case Left => "S-7J"
  }

  /** The tiles a step in direction `d` may arrive at (`validUpDestination`,
      ...). */
  function Destinations(d: Direction): string
  {
    match d
    case Up => "S|F7"
    case Right => "S-J7"
    case Down => "S|LJ"
    case Left => "S-LF"
  }

  /** `getCellTypeAtIndex`: the tile at an index, `None` where the string has
      no character (JavaScript's `undefined`). */
  function At(cells: string, index: int): (r: Option<char>)
    ensures r.Some? <==> 0 <= index < |cells|
  {
    if 0 <= index < |cells| then Some(cells[index]) else None
  }

  /** `getIndexForNeighbor`: one row up or down, one index left or right,
      without any check for the edges of the grid. */
  function NeighborIndex(index: int, d: Direction, rowLength: int): int
  {
    match d
    case Up => index - rowLength
    case Right => index + 1
    case Down => index + rowLength
    case Left => index - 1
  }

  /** `isValidPath`: the tile at `index` may be left in direction `d` and the
      tile it leads to may be entered from that side. */
  predicate IsValidPath(cells: string, rowLength: int, index: int, d: Direction)
  {
    var source := At(cells, index);
    var destination := At(cells, NeighborIndex(index, d, rowLength));
    source.Some? && source.value in Sources(d) && destination.Some? && destination.value in Destinations(d)
  }

  /** The tables mirror each other: a step from `a` to `b` is valid exactly
      when the step back from `b` to `a` is. */
  lemma ValidPathSymmetric(cells: string, rowLength: int, index: int, d: Direction)
    ensures var other := NeighborIndex(index, d, rowLength);
            NeighborIndex(other, Opposite(d), rowLength) == index
            && (IsValidPath(cells, rowLength, index, d) <==> IsValidPath(cells, rowLength, other, Opposite(d)))
  {
  }

  /** The pipes connect `a` to `b`: some direction leads validly from `a` to
      `b`. */
  predicate Connected(cells: string, rowLength: int, a: int, b: int)
  {
    || (IsValidPath(cells, rowLength, a, Up) && b == NeighborIndex(a, Up, rowLength))
    || (IsValidPath(cells, rowLength, a, Right) && b == NeighborIndex(a, Right, rowLength))
    || (IsValidPath(cells, rowLength, a, Down) && b == NeighborIndex(a, Down, rowLength))
    || (IsValidPath(cells, rowLength, a, Left) && b == NeighborIndex(a, Left, rowLength))
  }

  /** Connection goes both ways. */
  lemma ConnectedSymmetric(cells: string, rowLength: int, a: int, b: int)
    ensures Connected(cells, rowLength, a, b) <==> Connected(cells, rowLength, b, a)
  {
    ValidPathSymmetric(cells, rowLength, a, Up);
    ValidPathSymmetric(cells, rowLength, a, Right);
    ValidPathSymmetric(cells, rowLength, a, Down);
    ValidPathSymmetric(cells, rowLength, a, Left);
    ValidPathSymmetric(cells, rowLength, b, Up);
    ValidPathSymmetric(cells, rowLength, b, Right);
    ValidPathSymmetric(cells, rowLength, b, Down);
    ValidPathSymmetric(cells, rowLength, b, Left);
  }

  function PathStep(cells: string, rowLength: int, index: int, d: Direction): seq<int>
  {
    if IsValidPath(cells, rowLength, index, d) then [NeighborIndex(index, d, rowLength)] else []
  }

  /** `findNeighbors`: the tiles the pipes lead to from `index`, looked for
      up, right, down and left, in that order. They all lie in the grid. */
  function FindNeighbors(cells: string, rowLength: int, index: int): (r: seq<int>)
    ensures forall n :: n in r <==> Connected(cells, rowLength, index, n)
    ensures forall n :: n in r ==> 0 <= n < |cells|
  {
    PathStep(cells, rowLength, index, Up) + PathStep(cells, rowLength, index, Right)
    + PathStep(cells, rowLength, index, Down) + PathStep(cells, rowLength, index, Left)
  }

  /** Every tile but the start is a pipe with two ends (or no pipe at all),
      so it leads to at most two tiles; the start may lead to four. */
  lemma AtMostTwoNeighbors(cells: string, rowLength: int, index: int)
    ensures At(cells, index) != Some(Start) ==> |FindNeighbors(cells, rowLength, index)| <= 2
  {
    if 0 <= index < |cells| && cells[index] != Start {
      var c := cells[index];
      assert c in Sources(Up) <==> c == '|' || c == 'L' || c == 'J';
      assert c in Sources(Right) <==> c == '-' || c == 'L' || c == 'F';
      assert c in Sources(Down) <==> c == '|' || c == 'F' || c == '7';
      assert c in Sources(Left) <==> c == '-' || c == '7' || c == 'J';
    }
  }

  /** Two indexes one step apart in the grid's index arithmetic. */
  predicate Adjacent(rowLength: int, a: int, b: int)
  {
    b == a - rowLength || b == a + 1 || b == a + rowLength || b == a - 1
  }

  function GroundStep(cells: string, rowLength: int, index: int, d: Direction): seq<int>
  {
    var n := NeighborIndex(index, d, rowLength);
    if At(cells, n) == Some(Ground) then [n] else []
  }

  /** `findGroundNeighbors`: the ground tiles one step up, right, down or
      left of `index`; they all lie in the grid. */
  function FindGroundNeighbors(cells: string, rowLength: int, index: int): (r: seq<int>)
    ensures forall n :: n in r <==> Adjacent(rowLength, index, n) && 0 <= n < |cells| && cells[n] == Ground
  {
    GroundStep(cells, rowLength, index, Up) + GroundStep(cells, rowLength, index, Right)
    + GroundStep(cells, rowLength, index, Down) + GroundStep(cells, rowLength, index, Left)
  }

  /* ---------------------------------------------------------------------- */
  /* Padding                                                                */

  lemma {:induction false} FlattenConcat<T>(a: seq<seq<T>>, b: seq<seq<T>>)
    ensures Flatten(a + b) == Flatten(a) + Flatten(b)
    decreases |b|
  {
    if b == [] {
      assert a + b == a;
    } else {
      var init, last := b[..|b| - 1], b[|b| - 1];
      assert (a + b)[..|a + b| - 1] == a + init && (a + b)[|a + b| - 1] == last;
      assert Flatten(a + b) == Flatten(a + init) + last;
      FlattenConcat(a, init);
      assert Flatten(b) == Flatten(init) + last;
    }
  }

  /** `getRows`: slices of `rowLength` tiles from the start, the last one
      clipped to the end of the string. */
  function Rows(cells: string, rowLength: nat): (rows: seq<string>)
    requires rowLength > 0 || cells == []
    ensures Flatten(rows) == cells
    ensures forall r :: 0 <= r < |rows| ==> 0 < |rows[r]| <= rowLength
    ensures forall r :: 0 <= r < |rows| - 1 ==> |rows[r]| == rowLength
    ensures |cells| % Max(rowLength, 1) == 0 ==> Rectangular(rows, rowLength)
    decreases |cells|
  {
    if cells == [] then []
    else if |cells| <= rowLength then
      FlattenSingle(cells);
      [cells]
    else
      var rest := Rows(cells[rowLength..], rowLength);
      FlattenConcat([cells[..rowLength]], rest);
      FlattenSingle(cells[..rowLength]);
      ModSubtract(|cells|, rowLength);
      [cells[..rowLength]] + rest
  }

  lemma FlattenSingle<T>(row: seq<T>)
    ensures Flatten([row]) == row
  {
    assert [row][..0] == [];
  }

  /** Taking one row off keeps the remainder. */
  lemma ModSubtract(n: int, rowLength: int)
    requires rowLength > 0 && n >= rowLength
    ensures (n - rowLength) % rowLength == n % rowLength
  {
    DivModUnique(n / rowLength - 1, n % rowLength, rowLength);
  }

  /** Rows cut the way `getRows` cuts them are `Rows`: there is one such
      cut. */
  lemma {:induction false} RowsUnique(rows: seq<string>, cells: string, rowLength: nat)
    requires rowLength > 0 && Flatten(rows) == cells
    requires forall r :: 0 <= r < |rows| ==> 0 < |rows[r]| <= rowLength
    requires forall r :: 0 <= r < |rows| - 1 ==> |rows[r]| == rowLength
    ensures rows == Rows(cells, rowLength)
    decreases |rows|
  {
    if rows != [] {
      var rest := rows[1..];
      assert rows == [rows[0]] + rest;
      FlattenConcat([rows[0]], rest);
      FlattenSingle(rows[0]);
      assert cells == rows[0] + Flatten(rest);
      if rest == [] {
        assert cells == rows[0];
      } else {
        assert |Flatten(rest)| > 0 by {
          FlattenConcat(rest[..|rest| - 1], [rest[|rest| - 1]]);
          assert rest == rest[..|rest| - 1] + [rest[|rest| - 1]];
          FlattenSingle(rest[|rest| - 1]);
        }
        assert cells[..rowLength] == rows[0];
        assert cells[rowLength..] == Flatten(rest);
        RowsUnique(rest, Flatten(rest), rowLength);
      }
    }
  }

  /** `length` copies of the ground tile. */
  function GroundRow(length: nat): (row: string)
    ensures |row| == length && forall i :: 0 <= i < length ==> row[i] == Ground
  {
    seq(length, _ => Ground)
  }

  /** `padGrid`'s rows: every row with a ground tile on either side, and a row
      of ground above and below. */
  function Framed(rows: seq<string>, rowLength: nat): (framed: seq<string>)
  {
    [GroundRow(rowLength + 2)] + seq(|rows|, i requires 0 <= i < |rows| => [Ground] + rows[i] + [Ground])
    + [GroundRow(rowLength + 2)]
  }

  /** The tiles after `padGrid`: the framed rows joined up. */
  function Padded(cells: string, rowLength: nat): string
    requires rowLength > 0 || cells == []
  {
    Flatten(Framed(Rows(cells, rowLength), rowLength))
  }

  /** The padded grid has two rows and two columns more. */
  lemma PaddedSize(cells: string, rowLength: nat, height: nat)
    requires rowLength > 0 && |cells| == height * rowLength
    ensures |Padded(cells, rowLength)| == (height + 2) * (rowLength + 2)
  {
    var rows := Rows(cells, rowLength);
    DivModUnique(height, 0, rowLength);
    RowCount(rows, cells, rowLength);
    FramedCell(rows, rowLength, 0, 0);
    FlattenLength(Framed(rows, rowLength), rowLength + 2);
  }

  /** The tile of the padded grid in row `r` and column `c` is the original
      tile in row `r - 1` and column `c - 1`; every tile on its border is
      ground. */
  lemma PaddedCell(cells: string, rowLength: nat, height: nat, r: int, c: int)
    requires rowLength > 0 && |cells| == height * rowLength
    requires 0 <= r < height + 2 && 0 <= c < rowLength + 2
    ensures At(Padded(cells, rowLength), r * (rowLength + 2) + c).Some?
    ensures At(Padded(cells, rowLength), r * (rowLength + 2) + c)
            == if 1 <= r <= height && 1 <= c <= rowLength then At(cells, (r - 1) * rowLength + c - 1) else Some(Ground)
  {
    var rows := Rows(cells, rowLength);
    var framed := Framed(rows, rowLength);
    DivModUnique(height, 0, rowLength);
    RowCount(rows, cells, rowLength);
    FramedCell(rows, rowLength, r, c);
    FlattenAtSome(framed, rowLength + 2, r, c);
    if 1 <= r <= height && 1 <= c <= rowLength {
      FlattenAtSome(rows, rowLength, r - 1, c - 1);
    }
  }

  /** `FlattenAt` in terms of `At`. */
  lemma FlattenAtSome(rows: seq<string>, width: int, r: int, c: int)
    requires Rectangular(rows, width) && 0 <= r < |rows| && 0 <= c < width
    ensures At(Flatten(rows), r * width + c) == Some(rows[r][c])
  {
    FlattenAt(rows, width, r, c);
    MulLe(0, r, width);
  }

  /** Rows of equal length cut from `cells`: as many as the length allows. */
  lemma RowCount(rows: seq<string>, cells: string, rowLength: nat)
    requires rowLength > 0 && Rectangular(rows, rowLength) && Flatten(rows) == cells
    ensures |rows| == |cells| / rowLength
  {
    FlattenLength(rows, rowLength);
    DivModUnique(|rows|, 0, rowLength);
  }

  /** The framed rows are all two tiles longer; inside the frame they hold the
      rows' tiles, on it ground. */
  lemma FramedCell(rows: seq<string>, rowLength: nat, r: int, c: int)
    requires Rectangular(rows, rowLength)
    requires 0 <= r < |rows| + 2 && 0 <= c < rowLength + 2
    ensures var framed := Framed(rows, rowLength);
            |framed| == |rows| + 2 && Rectangular(framed, rowLength + 2)
            && framed[r][c] == if 1 <= r <= |rows| && 1 <= c <= rowLength then rows[r - 1][c - 1] else Ground
  {
    var framed := Framed(rows, rowLength);
    forall i | 0 <= i < |framed|
      ensures |framed[i]| == rowLength + 2
    {
      if 0 < i <= |rows| {
        assert framed[i] == [Ground] + rows[i - 1] + [Ground];
      }
    }
    if 0 < r <= |rows| {
      assert framed[r] == [Ground] + rows[r - 1] + [Ground];
    }
  }

  /** `indexOf`: the first index of `x`, or -1 when there is none. */
  function IndexOf(s: string, x: char): (r: int)
    ensures r == -1 ==> x !in s
    ensures r != -1 ==> 0 <= r < |s| && s[r] == x && x !in s[..r]
  {
    if s == [] then -1
    else if s[0] == x then 0
    else
      var k := IndexOf(s[1..], x);
      if k == -1 then -1
      else
        assert s[..k + 1] == [s[0]] + s[1..][..k];
        k + 1
  }

  /** The padded grid keeps two rows of ground at least. */
  lemma PaddedLength(cells: string, rowLength: nat)
    requires rowLength > 0 || cells == []
    ensures |Padded(cells, rowLength)| >= 2 * (rowLength + 2)
  {
    var framed := Framed(Rows(cells, rowLength), rowLength);
    var border := [GroundRow(rowLength + 2)];
    var middle := framed[1..|framed| - 1];
    assert framed == border + middle + border;
    FlattenConcat(border + middle, border);
    FlattenConcat(border, middle);
    FlattenSingle(GroundRow(rowLength + 2));
  }

  /* ---------------------------------------------------------------------- */
  /* The main loop                                                          */

  /** Each tile of `path` leads to the next along the pipes. */
  predicate Walk(cells: string, rowLength: int, path: seq<int>)
  {
    forall i :: 0 <= i < |path| - 1 ==> Connected(cells, rowLength, path[i], path[i + 1])
  }

  /** No step of `path` goes straight back to the tile before. */
  predicate NoTurningBack(path: seq<int>)
  {
    forall i :: 0 <= i < |path| - 2 ==> path[i + 2] != path[i]
  }

  /** A loop through the start tile: the path starts there, follows the pipes
      without turning back, visits the start only once and leads back to it
      from its last tile. */
  predicate ClosedLoop(cells: string, rowLength: int, start: int, path: seq<int>)
  {
    && |path| >= 2 && path[0] == start && 0 <= start < |cells|
    && Walk(cells, rowLength, path + [start])
    && NoTurningBack(path + [start])
    && start !in path[1..]
  }

  /** An entry of `findMainLoop`'s stack. */
  datatype Item = Item(previousPosition: int, position: int, steps: int, path: seq<int>)

  /** `findMainLoop`'s result. */
  datatype LoopResult = LoopResult(steps: int, path: seq<int>)

  /** What holds of every stacked entry: its path starts at the start tile,
      follows the pipes without turning back and ends at its position, it
      counts its tiles in `steps`, and its previous position is the tile
      before the last (the start tile itself for the first entry). */
  predicate Searching(cells: string, rowLength: int, start: int, item: Item)
  {
    var path := item.path;
    && |path| == item.steps && |path| >= 1
    && path[0] == start
    && path[|path| - 1] == item.position
    && item.previousPosition == (if |path| >= 2 then path[|path| - 2] else start)
    && Walk(cells, rowLength, path)
    && NoTurningBack(path)
    && (|path| >= 2 ==> start !in path[1..|path| - 1])
  }

  /** No tile leads to itself when rows have a length. */
  lemma NotConnectedToItself(cells: string, rowLength: int, a: int)
    requires rowLength != 0
    ensures !Connected(cells, rowLength, a, a)
  {
  }

  lemma WalkSnoc(cells: string, rowLength: int, path: seq<int>, n: int)
    requires |path| > 0 && Walk(cells, rowLength, path) && Connected(cells, rowLength, path[|path| - 1], n)
    ensures Walk(cells, rowLength, path + [n])
  {
    var next := path + [n];
    forall i | 0 <= i < |next| - 1
      ensures Connected(cells, rowLength, next[i], next[i + 1])
    {
      if i < |path| - 1 {
        assert next[i] == path[i] && next[i + 1] == path[i + 1];
      }
    }
  }

  lemma NoTurningBackSnoc(path: seq<int>, n: int)
    requires NoTurningBack(path) && (|path| >= 2 ==> n != path[|path| - 2])
    ensures NoTurningBack(path + [n])
  {
    var next := path + [n];
    forall i | 0 <= i < |next| - 2
      ensures next[i + 2] != next[i]
    {
      if i < |path| - 2 {
        assert next[i] == path[i] && next[i + 2] == path[i + 2];
      }
    }
  }

  lemma TailSplit(path: seq<int>)
    requires |path| >= 2
    ensures path[1..] == path[1..|path| - 1] + [path[|path| - 1]]
  {
  }

  /** An entry that does not close the loop is extended by a tile its
      position leads to, other than its previous position. */
  lemma Extend(cells: string, rowLength: int, start: int, item: Item, n: int)
    requires rowLength != 0 && Searching(cells, rowLength, start, item)
    requires !(item.position == start && item.previousPosition != start)
    requires Connected(cells, rowLength, item.position, n) && n != item.previousPosition
    ensures Searching(cells, rowLength, start, Item(item.position, n, item.steps + 1, item.path + [n]))
  {
    var path := item.path;
    WalkSnoc(cells, rowLength, path, n);
    NoTurningBackSnoc(path, n);
    if |path| == 2 {
      assert Connected(cells, rowLength, path[0], path[1]);
      NotConnectedToItself(cells, rowLength, start);
    }
    StartOnce(path, start, n);
  }

  /** A path that visits the start tile first and nowhere else but perhaps
      at its end, extended from a tile other than the start, visits it
      nowhere but first. */
  lemma StartOnce(path: seq<int>, start: int, n: int)
    requires |path| >= 1 && path[0] == start
    requires |path| >= 2 ==> start !in path[1..|path| - 1]
    requires |path| >= 2 ==> path[|path| - 1] != start
    ensures start !in (path + [n])[1..|path|]
  {
    var next := path + [n];
    assert next[1..|path|] == path[1..] by {
      assert next[..|path|] == path;
    }
    if |path| >= 2 {
      TailSplit(path);
    }
  }

  /** An entry back at the start tile from elsewhere, with its last tile
      dropped, is a closed loop of `steps - 1` tiles. */
  lemma Close(cells: string, rowLength: int, start: int, item: Item)
    requires Searching(cells, rowLength, start, item)
    requires item.position == start && item.previousPosition != start
    ensures var loop := item.path[..|item.path| - 1];
            item.steps - 1 == |loop| && ClosedLoop(cells, rowLength, start, loop)
  {
    var path := item.path;
    var loop := path[..|path| - 1];
    assert |path| >= 2;
    assert loop + [start] == path;
    assert loop[1..] == path[1..|path| - 1];
    assert Connected(cells, rowLength, path[0], path[1]);
  }

  /** The entries one step longer than `item` towards each of `neighbors`
      but its previous position, in order. */
  function Children(item: Item, neighbors: seq<int>): seq<Item>
  {
    if neighbors == [] then []
    else
      var n := neighbors[|neighbors| - 1];
      Children(item, neighbors[..|neighbors| - 1])
      + if n != item.previousPosition then [Item(item.position, n, item.steps + 1, item.path + [n])] else []
  }

  /** The `forEach` of `findMainLoop`: the children of `item` pushed in
      order; they are all searching entries too. */
  method PushSteps(cells: string, rowLength: int, start: int, queue: seq<Item>, item: Item, neighbors: seq<int>)
    returns (pushed: seq<Item>)
    requires rowLength != 0 && Searching(cells, rowLength, start, item)
    requires !(item.position == start && item.previousPosition != start)
    requires forall n :: n in neighbors ==> Connected(cells, rowLength, item.position, n)
    requires forall l :: 0 <= l < |queue| ==> Searching(cells, rowLength, start, queue[l])
    ensures pushed == queue + Children(item, neighbors)
    ensures forall l :: 0 <= l < |pushed| ==> Searching(cells, rowLength, start, pushed[l])
  {
    pushed := queue;
    for k := 0 to |neighbors|
      invariant pushed == queue + Children(item, neighbors[..k])
      invariant forall l :: 0 <= l < |pushed| ==> Searching(cells, rowLength, start, pushed[l])
    {
      var neighbor := neighbors[k];
      assert neighbors[..k + 1][..k] == neighbors[..k];
      if neighbor != item.previousPosition {
        assert neighbor in neighbors;
        Extend(cells, rowLength, start, item, neighbor);
        pushed := pushed + [Item(item.position, neighbor, item.steps + 1, item.path + [neighbor])];
      }
    }
    assert neighbors[..|neighbors|] == neighbors;
  }

  /* ---------------------------------------------------------------------- */
  /* The ray cast                                                           */

  /** The edge between vertexes `a` and `b` crosses the ray from `p` to the
      right: one end lies below `p`'s row and the other does not, and the
      edge meets the row to the right of `p`. The division is exact, over
      the reals. */
  predicate Crosses(a: Coordinate, b: Coordinate, p: Coordinate)
  {
    && (a.y > p.y) != (b.y > p.y)
    && (p.x as real) < ((b.x - a.x) * (p.y - a.y)) as real / ((b.y - a.y) as real) + a.x as real
  }

  /** The vertex before vertex `i`, wrapping round to the last one. */
  function Previous(vertexes: seq<Coordinate>, i: int): int
    requires 0 <= i < |vertexes|
  {
    if i == 0 then |vertexes| - 1 else i - 1
  }

  /** The number of the first `n` edges (vertex `i` to the one before) that
      cross the ray from `p`. */
  function Crossings(vertexes: seq<Coordinate>, p: Coordinate, n: nat): nat
    requires n <= |vertexes|
  {
    if n == 0 then 0
    else Crossings(vertexes, p, n - 1) + (if Crosses(vertexes[n - 1], vertexes[Previous(vertexes, n - 1)], p) then 1 else 0)
  }

  /** One more edge flips the parity exactly when it crosses. */
  lemma CrossingsStep(vertexes: seq<Coordinate>, p: Coordinate, i: nat)
    requires i < |vertexes|
    ensures (Crossings(vertexes, p, i + 1) % 2 == 1)
            <==> ((Crossings(vertexes, p, i) % 2 == 1) != Crosses(vertexes[i], vertexes[Previous(vertexes, i)], p))
  {
  }

  /** The even-odd rule: `p` lies inside the polygon when the ray crosses
      an odd number of its edges. */
  predicate InsidePolygon(vertexes: seq<Coordinate>, p: Coordinate)
  {
    Crossings(vertexes, p, |vertexes|) % 2 == 1
  }

  /** Comparing with a quotient, multiplied out by the divisor. */
  lemma QuotientCompare(x: int, m: int, d: int)
    requires d != 0
    ensures (x as real) < (m as real) / (d as real) <==> if d > 0 then x * d < m else x * d > m
  {
    var t := (m as real) / (d as real);
    assert (t - x as real) * (d as real) == (m - x * d) as real;
    if d > 0 {
      assert t - x as real > 0.0 <==> (t - x as real) * (d as real) > 0.0;
    } else {
      assert t - x as real > 0.0 <==> (t - x as real) * (d as real) < 0.0;
    }
  }

  /** An edge never crosses the ray from a point at or right of both its
      ends: where it meets the row lies between its ends' columns. */
  lemma NoCrossingFromTheRight(a: Coordinate, b: Coordinate, p: Coordinate)
    requires a.x <= p.x && b.x <= p.x
    ensures !Crosses(a, b, p)
  {
    if (a.y > p.y) != (b.y > p.y) {
      var d, q := b.y - a.y, p.y - a.y;
      var u, v := p.x - a.x, b.x - a.x;
      QuotientCompare(u, v * q, d);
      if d > 0 {
        // 0 <= q < d and v <= u, so v * q <= u * d.
        MulLe(v, u, q);
        MulLe(q, d, u);
      } else {
        // d <= q < 0 and v <= u, so u * d <= v * d <= v * q when v >= 0,
        // and u * d <= 0 < v * q otherwise.
        MulLe(v, u, -d);
        if v >= 0 {
          MulLe(d, q, v);
        } else {
          MulLe(0, -v, -q);
        }
      }
    }
  }

  /** A point at or right of every vertex is outside. */
  lemma {:induction false} RightOfEveryVertexIsOutside(vertexes: seq<Coordinate>, p: Coordinate, n: nat)
    requires n <= |vertexes|
    requires forall i :: 0 <= i < |vertexes| ==> vertexes[i].x <= p.x
    ensures Crossings(vertexes, p, n) == 0
    ensures n == |vertexes| ==> !InsidePolygon(vertexes, p)
  {
    if n > 0 {
      RightOfEveryVertexIsOutside(vertexes, p, n - 1);
      NoCrossingFromTheRight(vertexes[n - 1], vertexes[Previous(vertexes, n - 1)], p);
    }
  }

  /** A point in a row that no edge reaches past is outside. */
  lemma {:induction false} BelowEveryVertexIsOutside(vertexes: seq<Coordinate>, p: Coordinate, n: nat)
    requires n <= |vertexes|
    requires forall i :: 0 <= i < |vertexes| ==> vertexes[i].y <= p.y
    ensures Crossings(vertexes, p, n) == 0
    ensures n == |vertexes| ==> !InsidePolygon(vertexes, p)
  {
    if n > 0 {
      BelowEveryVertexIsOutside(vertexes, p, n - 1);
    }
  }

  /** The tiles of the main loop as coordinates, the polygon's vertexes. */
  function Vertexes(rowLength: int, mainLoop: seq<int>): (vertexes: seq<Coordinate>)
    requires rowLength > 0
    ensures |vertexes| == |mainLoop|
  {
    seq(|mainLoop|, i requires 0 <= i < |mainLoop| => IndexToCoordinate(Grid([Ground], rowLength), mainLoop[i]))
  }

  /** `indexToCoordinate` of the pipe grid. */
  function Position(rowLength: int, index: int): Coordinate
    requires rowLength > 0
  {
    IndexToCoordinate(Grid([Ground], rowLength), index)
  }

  /** `findIndexesForCellType`: the indexes of the tiles equal to `c`, in
      ascending order. */
  function IndexesOf(cells: string, c: char): (r: seq<int>)
    ensures forall i :: i in r <==> 0 <= i < |cells| && cells[i] == c
    ensures forall k, l :: 0 <= k < l < |r| ==> r[k] < r[l]
  {
    if cells == [] then []
    else
      var init := IndexesOf(cells[..|cells| - 1], c);
      assert forall k :: 0 <= k < |init| ==> init[k] in init;
      if cells[|cells| - 1] == c then init + [|cells| - 1] else init
  }

  /* ---------------------------------------------------------------------- */
  /* The grid                                                               */

  class PipeGrid {
    var cells: string
    var rowLength: int
    var start: int

    /** What padding establishes and every later change keeps: rows of at
        least two tiles and at least two rows. */
    predicate Valid()
      reads this
    {
      rowLength >= 2 && |cells| >= 2 * rowLength
    }

    /** `new Grid(cells, rowLength)` and `init`: `padGrid`, then the index of
        the start tile. */
    constructor(cells0: string, rowLength0: nat)
      requires rowLength0 > 0 || cells0 == []
      ensures cells == Padded(cells0, rowLength0) && rowLength == rowLength0 + 2
      ensures start == IndexOf(cells, Start)
      ensures Valid()
    {
      var rows: seq<string> := [];
      if cells0 != [] {
        rows := GetRows(Grid(cells0, rowLength0));
        RowsUnique(rows, cells0, rowLength0);
      }
      var framed := seq(|rows|, i requires 0 <= i < |rows| => [Ground] + rows[i] + [Ground]);
      var newLength := rowLength0 + 2;
      framed := [GroundRow(newLength)] + framed;
      framed := framed + [GroundRow(newLength)];
      PaddedLength(cells0, rowLength0);
      var padded := Flatten(framed);
      cells := padded;
      rowLength := newLength;
      start := IndexOf(padded, Start);
    }

    /** `replaceCellAtIndex`: the string cut before and after `index` with
        `cellType` between. Inside the string that changes the one tile;
        past its end the tile is added at the end. */
    method ReplaceCellAtIndex(index: nat, cellType: char)
      modifies this
      ensures index < |old(cells)| ==> cells == old(cells)[index := cellType]
      ensures index >= |old(cells)| ==> cells == old(cells) + [cellType]
      ensures rowLength == old(rowLength) && start == old(start)
    {
      cells := cells[..Min(index, |cells|)] + [cellType] + cells[Min(index + 1, |cells|)..];
    }

    /** `clearNonLoopFilledCells`: the tiles of the path stay, every other
        tile becomes ground. */
    method ClearNonLoopFilledCells(path: seq<int>)
      modifies this
      ensures |cells| == |old(cells)| && rowLength == old(rowLength) && start == old(start)
      ensures forall i :: 0 <= i < |cells| ==> cells[i] == if i in path then old(cells)[i] else Ground
    {
      cells := seq(|cells|, i requires 0 <= i < |cells| reads this => if i in path then cells[i] else Ground);
    }

    /** `findMainLoop`: a depth-first search from the start tile along the
        pipes that never steps straight back. The first entry back at the
        start tile from elsewhere is a closed loop through the start tile,
        whose tiles are returned once each with their number. With no such
        entry the result is `-1` and no path; without a start tile, that
        is the result. `None` where `fuel` runs out first. */
    method FindMainLoop(fuel: nat) returns (r: Option<LoopResult>)
      requires Valid()
      ensures r.Some? && r.value.steps != -1 ==> r.value.steps == |r.value.path| && ClosedLoop(cells, rowLength, start, r.value.path)
      ensures r.Some? && r.value.steps == -1 ==> r.value.path == []
      ensures !(0 <= start < |cells|) && fuel > 0 ==> r == Some(LoopResult(-1, []))
    {
      var initial := Item(start, start, 1, [start]);
      var queue := [initial];
      var fuelLeft := fuel;
      while queue != [] && fuelLeft > 0
        invariant forall k :: 0 <= k < |queue| ==> Searching(cells, rowLength, start, queue[k])
        invariant !(0 <= start < |cells|) ==> queue == [] || (queue == [initial] && fuelLeft == fuel)
        decreases fuelLeft
      {
        var item := queue[|queue| - 1];
        queue := queue[..|queue| - 1];
        var neighbors := FindNeighbors(cells, rowLength, item.position);
        if item.position == start && item.previousPosition != start {
          Close(cells, rowLength, start, item);
          return Some(LoopResult(item.steps - 1, item.path[..|item.path| - 1]));
        }
        queue := PushSteps(cells, rowLength, start, queue, item, neighbors);
        fuelLeft := fuelLeft - 1;
      }
      if queue == [] {
        return Some(LoopResult(-1, []));
      }
      return None;
    }
  
    /** `floodFillGroundCells`: from index 0 (ground, thanks to the padding)
        every reachable ground tile becomes outside. Only ground tiles and
        index 0 change, the grid keeps its size, and every stacked index lies
        in the grid. When the stack runs empty before `fuel` does, the fill
        is closed: no changed tile, and not index 0, has a ground neighbour
        left. */
    method FloodFillGroundCells(fuel: nat) returns (finished: bool)
      requires Valid()
      modifies this
      ensures Valid() && rowLength == old(rowLength) && start == old(start)
      ensures |cells| == |old(cells)|
      ensures forall i :: 0 <= i < |cells| ==> cells[i] == old(cells)[i] || (cells[i] == Outside && (old(cells)[i] == Ground || i == 0))
      ensures finished ==> cells[0] == Outside
      ensures finished ==> forall n :: Adjacent(rowLength, 0, n) && 0 <= n < |cells| ==> cells[n] != Ground
      ensures finished ==> forall i, n :: 0 <= i < |cells| && cells[i] != old(cells)[i] && Adjacent(rowLength, i, n) && 0 <= n < |cells|
                                          ==> cells[n] != Ground
      ensures forall i :: 0 <= i < |cells| && cells[i] != old(cells)[i] ==> ReachableGround(old(cells), rowLength, i)
    {
      ghost var before := cells;
      ReachableOrigin(before, rowLength);
      var queue := [0];
      var visited: set<int> := {};
      var fuelLeft := fuel;
      while queue != [] && fuelLeft > 0
        invariant Valid() && rowLength == old(rowLength) && start == old(start)
        invariant Filling(before, cells, rowLength, visited, queue)
        decreases fuelLeft
      {
        ghost var stacked, cellsBefore := queue, cells;
        var index := queue[|queue| - 1];
        queue := queue[..|queue| - 1];
        ReplaceCellAtIndex(index, Outside);
        var neighbors := FindGroundNeighbors(cells, rowLength, index);
        var pushed := PushUnvisited(queue, neighbors, visited + {index});
        FillStep(before, cellsBefore, rowLength, visited, stacked, cells, neighbors, pushed);
        visited, queue := visited + {index}, pushed;
        fuelLeft := fuelLeft - 1;
      }
      finished := queue == [];
      if finished {
        assert 0 in visited;
        FillClosed(cells, rowLength, visited);
      }
    }

    /** `isIndexInsideMainLoop`: the even-odd ray cast of the tile at `index`
        against the polygon with the given vertexes, walking the edges from
        each vertex to the one before. */
    method IsIndexInsideMainLoop(index: int, vertexes: seq<Coordinate>) returns (inside: bool)
      requires rowLength > 0
      ensures inside <==> InsidePolygon(vertexes, Position(rowLength, index))
    {
      var p := Position(rowLength, index);
      inside := false;
      if vertexes == [] {
        return;
      }
      var i, j := 0, |vertexes| - 1;
      while i < |vertexes|
        invariant 0 <= i <= |vertexes| && j == if i == 0 then |vertexes| - 1 else i - 1
        invariant inside <==> Crossings(vertexes, p, i) % 2 == 1
      {
        var intersect := Crosses(vertexes[i], vertexes[j], p);
        CrossingsStep(vertexes, p, i);
        if intersect {
          inside := !inside;
        }
        j := i;
        i := i + 1;
      }
    }

    /** `processGroundCells`: each ground tile outside the loop's polygon
        becomes outside; nothing else changes. */
    method ProcessGroundCells(mainLoop: seq<int>)
      requires Valid()
      modifies this
      ensures Valid() && rowLength == old(rowLength) && start == old(start) && |cells| == |old(cells)|
      ensures forall i :: 0 <= i < |cells| ==>
                cells[i] == if old(cells)[i] == Ground && !InsidePolygon(Vertexes(rowLength, mainLoop), Position(rowLength, i))
                            then Outside else old(cells)[i]
    {
      var vertexes := Vertexes(rowLength, mainLoop);
      var groundIndexes := IndexesOf(cells, Ground);
      ghost var before := cells;
      for k := 0 to |groundIndexes|
        invariant Valid() && rowLength == old(rowLength) && start == old(start) && |cells| == |before|
        invariant forall i :: 0 <= i < |cells| ==>
                    cells[i] == if i in groundIndexes[..k] && !InsidePolygon(vertexes, Position(rowLength, i))
                                then Outside else before[i]
      {
        var index := groundIndexes[k];
        assert index in groundIndexes;
        assert groundIndexes[..k + 1] == groundIndexes[..k] + [index];
        var isInLoop := IsIndexInsideMainLoop(index, vertexes);
        if !isInLoop {
          ReplaceCellAtIndex(index, Outside);
        }
      }
      assert groundIndexes[..|groundIndexes|] == groundIndexes;
    }

    /** `getNumberOfCellsInMainLoop`: the number of ground tiles. */
    method GetNumberOfCellsInMainLoop() returns (count: nat)
      ensures count == Count(cells, Ground)
    {
      count := 0;
      for i := 0 to |cells|
        invariant count == Count(cells[..i], Ground)
      {
        assert cells[..i + 1][..i] == cells[..i];
        if cells[i] == Ground {
          count := count + 1;
        }
      }
      assert cells[..|cells|] == cells;
    }

    /** `markOutsideCells`: clear the tiles off the loop, flood-fill the
        outside, then ray-cast the ground that is left. `flooded` is the grid
        the flood fill leaves: the new tiles are its ray cast, so a tile is
        still ground exactly when the fill left it ground and it lies inside
        the loop's polygon. */
    method MarkOutsideCells(mainLoop: seq<int>, fuel: nat) returns (finished: bool, ghost flooded: string)
      requires Valid()
      modifies this
      ensures Valid() && rowLength == old(rowLength) && start == old(start) && |cells| == |old(cells)|
      ensures FloodFilled(Cleared(old(cells), mainLoop), rowLength, flooded, finished)
      ensures cells == RayCast(flooded, rowLength, mainLoop)
      ensures forall i :: 0 <= i < |cells| ==>
                (cells[i] == Ground <==> flooded[i] == Ground && InsidePolygon(Vertexes(rowLength, mainLoop), Position(rowLength, i)))
      ensures forall i :: 0 <= i < |cells| && cells[i] == Ground ==>
                InsidePolygon(Vertexes(rowLength, mainLoop), Position(rowLength, i)) && (i in mainLoop ==> old(cells)[i] == Ground)
      ensures forall i :: 0 < i < |cells| && i in mainLoop && old(cells)[i] != Ground ==> cells[i] == old(cells)[i]
      ensures finished ==> flooded == Flood(Cleared(old(cells), mainLoop), rowLength)
      ensures finished ==> cells == Marks(old(cells), rowLength, mainLoop)
    {
      ClearNonLoopFilledCells(mainLoop);
      assert cells == Cleared(old(cells), mainLoop);
      finished := FloodFillGroundCells(fuel);
      flooded := cells;
      ProcessGroundCells(mainLoop);
      assert cells == RayCast(flooded, rowLength, mainLoop);
      if finished {
        FloodFillExact(Cleared(old(cells), mainLoop), rowLength, flooded);
      }
    }
  }

  /** Tiles only turn outside, and only ground tiles or index 0. */
  predicate Filled(before: string, after: string)
  {
    |after| == |before|
    && forall i :: 0 <= i < |after| ==> after[i] == before[i] || (after[i] == Outside && (before[i] == Ground || i == 0))
  }

  /** `clearNonLoopFilledCells` on values: the tiles of `loop` keep their
      content, every other tile is ground. */
  function Cleared(cells: string, loop: seq<int>): string
  {
    seq(|cells|, i requires 0 <= i < |cells| => if i in loop then cells[i] else Ground)
  }

  /** What `floodFillGroundCells` leaves of `before`: only ground tiles and
      index 0 turned outside, each reachable from index 0; once the stack ran empty, index 0 is outside
      and neither it nor any changed tile has a ground neighbour. */
  ghost predicate FloodFilled(before: string, rowLength: int, after: string, finished: bool)
  {
    && Filled(before, after)
    && (forall i :: 0 <= i < |after| && after[i] != before[i] ==> ReachableGround(before, rowLength, i))
    && (finished ==>
          && 0 < |after| && after[0] == Outside
          && (forall n :: Adjacent(rowLength, 0, n) && 0 <= n < |after| ==> after[n] != Ground)
          && (forall i, n :: 0 <= i < |after| && after[i] != before[i] && Adjacent(rowLength, i, n) && 0 <= n < |after|
                             ==> after[n] != Ground))
  }

  /** `processGroundCells` on values: the ground outside the polygon of
      `loop` turns outside. */
  function RayCast(flooded: string, rowLength: int, loop: seq<int>): string
    requires rowLength > 0
  {
    seq(|flooded|, i requires 0 <= i < |flooded| =>
      if flooded[i] == Ground && !InsidePolygon(Vertexes(rowLength, loop), Position(rowLength, i)) then Outside else flooded[i])
  }

  /** A way the flood fill can spread: one-step moves from index 0 over
      tiles that are ground in `cells`. */
  ghost predicate GroundPath(cells: string, rowLength: int, path: seq<int>)
  {
    && |path| >= 1 && path[0] == 0
    && (forall k :: 0 < k < |path| ==> 0 <= path[k] < |cells| && cells[path[k]] == Ground)
    && (forall k :: 0 < k < |path| ==> Adjacent(rowLength, path[k - 1], path[k]))
  }

  /** Index 0, or a ground tile connected to it through ground tiles. */
  ghost predicate ReachableGround(cells: string, rowLength: int, i: int)
  {
    exists path :: GroundPath(cells, rowLength, path) && path[|path| - 1] == i
  }

  /** The grid with every tile reachable from index 0 turned outside: what
      a flood fill from index 0 leaves. */
  ghost function Flood(cells: string, rowLength: int): string
  {
    seq(|cells|, i requires 0 <= i < |cells| => if ReachableGround(cells, rowLength, i) then Outside else cells[i])
  }

  /** The tiles `markOutsideCells` leaves when its fill finishes: cleared
      to `loop`, flooded from index 0, then ray-cast against `loop`. */
  ghost function Marks(cells: string, rowLength: int, loop: seq<int>): string
    requires rowLength > 0
  {
    RayCast(Flood(Cleared(cells, loop), rowLength), rowLength, loop)
  }

  lemma ReachableOrigin(cells: string, rowLength: int)
    ensures ReachableGround(cells, rowLength, 0)
  {
    assert GroundPath(cells, rowLength, [0]);
  }

  /** The fill spreads from a reachable tile to a ground tile next to it. */
  lemma ReachStep(cells: string, rowLength: int, a: int, b: int)
    requires ReachableGround(cells, rowLength, a)
    requires Adjacent(rowLength, a, b) && 0 <= b < |cells| && cells[b] == Ground
    ensures ReachableGround(cells, rowLength, b)
  {
    var path :| GroundPath(cells, rowLength, path) && path[|path| - 1] == a;
    var longer := path + [b];
    assert forall k :: 0 <= k < |path| ==> longer[k] == path[k];
    assert GroundPath(cells, rowLength, longer);
  }

  /** A reachable tile is index 0 or a ground tile of the grid. */
  lemma ReachableIsGround(cells: string, rowLength: int, i: int)
    requires ReachableGround(cells, rowLength, i)
    ensures i == 0 || (0 <= i < |cells| && cells[i] == Ground)
  {
    var path :| GroundPath(cells, rowLength, path) && path[|path| - 1] == i;
  }

  /** A finished fill has turned every tile of a ground path outside. */
  lemma {:induction false} PathFlooded(before: string, rowLength: int, after: string, path: seq<int>)
    requires FloodFilled(before, rowLength, after, true) && GroundPath(before, rowLength, path)
    ensures after[path[|path| - 1]] == Outside
  {
    if |path| > 1 {
      var shorter := path[..|path| - 1];
      assert forall k :: 0 <= k < |shorter| ==> shorter[k] == path[k];
      assert GroundPath(before, rowLength, shorter);
      PathFlooded(before, rowLength, after, shorter);
      var a, b := path[|path| - 2], path[|path| - 1];
      assert Adjacent(rowLength, a, b) && 0 <= b < |after| && before[b] == Ground;
      if a != 0 {
        assert before[a] == Ground && after[a] != before[a];
      }
      assert after[b] != Ground;
    }
  }

  /** The flood fill is determined: a fill that ran until its stack was
      empty left exactly `Flood` of the grid, and `Flood` is such a fill. */
  lemma FloodFillExact(before: string, rowLength: int, after: string)
    ensures FloodFilled(before, rowLength, after, true) <==> |before| > 0 && after == Flood(before, rowLength)
  {
    var flood := Flood(before, rowLength);
    if FloodFilled(before, rowLength, after, true) {
      forall i | 0 <= i < |after|
        ensures after[i] == flood[i]
      {
        if ReachableGround(before, rowLength, i) {
          var path :| GroundPath(before, rowLength, path) && path[|path| - 1] == i;
          PathFlooded(before, rowLength, after, path);
        }
      }
    }
    if |before| > 0 && after == flood {
      ReachableOrigin(before, rowLength);
      forall i | 0 <= i < |after|
        ensures after[i] == before[i] || (after[i] == Outside && (before[i] == Ground || i == 0))
      {
        if ReachableGround(before, rowLength, i) {
          ReachableIsGround(before, rowLength, i);
        }
      }
      forall i, n | 0 <= i < |after| && (after[i] != before[i] || i == 0) && Adjacent(rowLength, i, n) && 0 <= n < |after|
        ensures after[n] != Ground
      {
        if before[n] == Ground {
          ReachStep(before, rowLength, i, n);
        }
      }
    }
  }

  /** What holds of `floodFillGroundCells`'s state at every turn of its
      loop: the tiles changed so far are the visited ones, each outside and
      reachable from index 0; every stacked tile is stackable and reachable;
      and every ground neighbour of a visited tile is stacked. */
  ghost predicate Filling(before: string, cells: string, rowLength: int, visited: set<int>, queue: seq<int>)
  {
    && Filled(before, cells)
    && (forall k :: 0 <= k < |queue| ==> Stackable(before, queue[k]))
    && (forall k :: 0 <= k < |queue| ==> ReachableGround(before, rowLength, queue[k]))
    && (forall v :: v in visited ==> ReachableGround(before, rowLength, v))
    && (forall v :: v in visited ==> 0 <= v < |cells| && cells[v] == Outside)
    && (forall i :: 0 <= i < |cells| && cells[i] != before[i] ==> i in visited)
    && Frontier(cells, rowLength, visited, queue)
    && (visited == {} ==> queue == [0])
    && (visited != {} ==> 0 in visited)
  }

  /** One turn of the fill's loop: pop a tile, turn it outside and push its
      unvisited ground neighbours keeps `Filling`. */
  lemma FillStep(before: string, cells: string, rowLength: int, visited: set<int>, stacked: seq<int>,
                 after: string, neighbors: seq<int>, pushed: seq<int>)
    requires |cells| > 0 && Filling(before, cells, rowLength, visited, stacked) && stacked != []
    requires var index := stacked[|stacked| - 1];
             && (index < |cells| ==> after == cells[index := Outside])
             && (index >= |cells| ==> after == cells + [Outside])
             && neighbors == FindGroundNeighbors(after, rowLength, index)
    requires var queue, index := stacked[..|stacked| - 1], stacked[|stacked| - 1];
             && |pushed| >= |queue| && pushed[..|queue|] == queue
             && (forall k :: |queue| <= k < |pushed| ==> pushed[k] in neighbors)
             && (forall n :: n in neighbors && n !in visited + {index} ==> n in pushed)
    ensures Filling(before, after, rowLength, visited + {stacked[|stacked| - 1]}, pushed)
  {
    var index, queue := stacked[|stacked| - 1], stacked[..|stacked| - 1];
    assert Stackable(before, index);
    FrontierAfterFill(cells, after, rowLength, visited, stacked, index);
    StackableAfterPush(before, after, queue, neighbors, pushed);
    ReachableAfterPush(before, after, rowLength, index, queue, neighbors, pushed);
    FrontierAfterPush(after, rowLength, visited, queue, index, pushed);
  }

  /** Ground neighbours of a reachable tile pushed onto a stack of
      reachable tiles keep it reachable. */
  lemma ReachableAfterPush(before: string, cells: string, rowLength: int, index: int, queue: seq<int>, neighbors: seq<int>, pushed: seq<int>)
    requires Filled(before, cells) && ReachableGround(before, rowLength, index)
    requires forall k :: 0 <= k < |queue| ==> ReachableGround(before, rowLength, queue[k])
    requires neighbors == FindGroundNeighbors(cells, rowLength, index)
    requires |pushed| >= |queue| && pushed[..|queue|] == queue
    requires forall k :: |queue| <= k < |pushed| ==> pushed[k] in neighbors
    ensures forall k :: 0 <= k < |pushed| ==> ReachableGround(before, rowLength, pushed[k])
  {
    forall k | 0 <= k < |pushed|
      ensures ReachableGround(before, rowLength, pushed[k])
    {
      if k < |queue| {
        assert pushed[k] == queue[k];
      } else {
        var n := pushed[k];
        assert Adjacent(rowLength, index, n) && 0 <= n < |cells| && cells[n] == Ground;
        ReachStep(before, rowLength, index, n);
      }
    }
  }

  /** The `forEach` of `floodFillGroundCells`: the neighbours not visited
      yet pushed in order onto the stack. */
  method PushUnvisited(queue: seq<int>, neighbors: seq<int>, visited: set<int>) returns (pushed: seq<int>)
    ensures |pushed| >= |queue| && pushed[..|queue|] == queue
    ensures forall k :: |queue| <= k < |pushed| ==> pushed[k] in neighbors
    ensures forall n :: n in neighbors && n !in visited ==> n in pushed
  {
    pushed := queue;
    for k := 0 to |neighbors|
      invariant |pushed| >= |queue| && pushed[..|queue|] == queue
      invariant forall l :: |queue| <= l < |pushed| ==> pushed[l] in neighbors
      invariant forall j :: 0 <= j < k && neighbors[j] !in visited ==> neighbors[j] in pushed
    {
      var neighbor := neighbors[k];
      if neighbor !in visited {
        pushed := pushed + [neighbor];
      }
    }
  }

  /** Ground neighbours pushed onto a stack of stackable tiles keep it
      stackable. */
  lemma StackableAfterPush(before: string, cells: string, queue: seq<int>, neighbors: seq<int>, pushed: seq<int>)
    requires Filled(before, cells)
    requires forall k :: 0 <= k < |queue| ==> Stackable(before, queue[k])
    requires forall n :: n in neighbors ==> 0 <= n < |cells| && cells[n] == Ground
    requires |pushed| >= |queue| && pushed[..|queue|] == queue
    requires forall k :: |queue| <= k < |pushed| ==> pushed[k] in neighbors
    ensures forall k :: 0 <= k < |pushed| ==> Stackable(before, pushed[k])
  {
    forall k | 0 <= k < |pushed|
      ensures Stackable(before, pushed[k])
    {
      if k < |queue| {
        assert pushed[k] == queue[k];
      }
    }
  }

  /** What may be stacked in the flood fill: index 0, or a tile that was
      ground when the fill began. */
  predicate Stackable(before: string, q: int)
  {
    q == 0 || (0 <= q < |before| && before[q] == Ground)
  }

  /** Every ground neighbour of a visited tile waits on the stack. */
  predicate Frontier(cells: string, rowLength: int, visited: set<int>, queue: seq<int>)
  {
    forall v, n :: v in visited && n in FindGroundNeighbors(cells, rowLength, v) ==> n in queue
  }

  /** With the stack empty, no visited tile has a ground neighbour. */
  lemma FillClosed(cells: string, rowLength: int, visited: set<int>)
    requires Frontier(cells, rowLength, visited, [])
    ensures forall v, n :: v in visited && Adjacent(rowLength, v, n) && 0 <= n < |cells| ==> cells[n] != Ground
  {
    forall v, n | v in visited && Adjacent(rowLength, v, n) && 0 <= n < |cells|
      ensures cells[n] != Ground
    {
      var ground := FindGroundNeighbors(cells, rowLength, v);
      assert n in ground ==> n in [];
      assert n in ground <==> cells[n] == Ground;
    }
  }

  /** Filling the popped tile keeps the frontier of the visited tiles without
      it on the rest of the stack. */
  lemma FrontierAfterFill(before: string, after: string, rowLength: int, visited: set<int>, queue: seq<int>, index: int)
    requires 0 <= index < |before| && after == before[index := Outside]
    requires Frontier(before, rowLength, visited, queue) && |queue| > 0 && queue[|queue| - 1] == index
    ensures Frontier(after, rowLength, visited, queue[..|queue| - 1])
  {
    forall v, n | v in visited && n in FindGroundNeighbors(after, rowLength, v)
      ensures n in queue[..|queue| - 1]
    {
      assert Adjacent(rowLength, v, n) && 0 <= n < |after| && after[n] == Ground;
      assert n != index && before[n] == Ground;
      assert n in FindGroundNeighbors(before, rowLength, v);
      assert n in queue;
      var k :| 0 <= k < |queue| && queue[k] == n;
      assert k < |queue| - 1 && queue[..|queue| - 1][k] == n;
    }
  }

  /** Pushing the popped tile's ground neighbours adds it to the frontier. */
  lemma FrontierAfterPush(cells: string, rowLength: int, visited: set<int>, queue: seq<int>, index: int, pushed: seq<int>)
    requires Frontier(cells, rowLength, visited, queue)
    requires |pushed| >= |queue| && pushed[..|queue|] == queue
    requires forall n :: n in FindGroundNeighbors(cells, rowLength, index) && n !in visited + {index} ==> n in pushed
    requires forall v :: v in visited + {index} ==> 0 <= v < |cells| && cells[v] == Outside
    ensures Frontier(cells, rowLength, visited + {index}, pushed)
  {
    forall q | q in queue
      ensures q in pushed
    {
      var k :| 0 <= k < |queue| && queue[k] == q;
      assert pushed[k] == q;
    }
  }

  /* ---------------------------------------------------------------------- */
  /* The puzzle                                                             */

  /** `initGrid` and part 1's `findSolution`: the input's lines joined up,
      with the first line's length as the row length; half the number of
      tiles of the main loop, or -1/2 when there is none. */
  method FindSolution(lines: seq<string>, fuel: nat) returns (answer: Option<real>)
    requires |lines| > 0 && (|lines[0]| > 0 || Flatten(lines) == [])
    ensures var cells := Padded(Flatten(lines), |lines[0]|);
            answer.Some? && answer.value != -0.5 ==>
              exists loop ::
                && ClosedLoop(cells, |lines[0]| + 2, IndexOf(cells, Start), loop)
                && answer.value == |loop| as real / 2.0
    ensures var cells := Padded(Flatten(lines), |lines[0]|);
            answer.Some? && answer.value != -0.5 ==> 0 <= IndexOf(cells, Start) < |cells|
  {
    var grid := new PipeGrid(Flatten(lines), |lines[0]|);
    var r := grid.FindMainLoop(fuel);
    if r.None? {
      return None;
    }
    answer := Some(r.value.steps as real / 2.0);
    if r.value.steps != -1 {
      assert ClosedLoop(grid.cells, grid.rowLength, grid.start, r.value.path);
    }
  }

  /** The tiles after marking: `marked` is the ray cast of `flooded`, a
      grid the flood fill, run until its stack was empty, left of `cells`
      cleared to `loop`. */
  ghost predicate Marked(cells: string, rowLength: int, loop: seq<int>, flooded: string, marked: string)
    requires rowLength > 0
  {
    FloodFilled(Cleared(cells, loop), rowLength, flooded, true) && marked == RayCast(flooded, rowLength, loop)
  }

  /** After marking, a tile is ground exactly when the flood fill left it
      ground and it lies inside the loop's polygon; such a tile on the loop
      was ground to begin with, and the loop's pipes other than at index 0
      stay. */
  lemma MarkedGround(cells: string, rowLength: int, loop: seq<int>, flooded: string, marked: string)
    requires rowLength > 0 && Marked(cells, rowLength, loop, flooded, marked)
    ensures |marked| == |cells|
    ensures forall i :: 0 <= i < |marked| ==>
              (marked[i] == Ground <==> flooded[i] == Ground && InsidePolygon(Vertexes(rowLength, loop), Position(rowLength, i)))
    ensures forall i :: 0 <= i < |marked| && marked[i] == Ground && i in loop ==> cells[i] == Ground
    ensures forall i :: 0 < i < |marked| && i in loop && cells[i] != Ground ==> marked[i] == cells[i]
  {
  }

  /** The loop `findMainLoop` hands to part 2: a closed loop through the
      start tile, or none at all. */
  predicate MainLoopOrNone(cells: string, rowLength: int, loop: seq<int>)
  {
    loop == [] || ClosedLoop(cells, rowLength, IndexOf(cells, Start), loop)
  }

  /** Part 2's answer for `lines`: the loop is a closed loop through `S` of
      the padded grid, or none, and the answer counts the ground tiles of
      `Marks` against it. */
  ghost predicate PartTwoAnswer(lines: seq<string>, loop: seq<int>, answer: nat)
    requires |lines| > 0 && (|lines[0]| > 0 || Flatten(lines) == [])
  {
    var cells := Padded(Flatten(lines), |lines[0]|);
    var rowLength := |lines[0]| + 2;
    && MainLoopOrNone(cells, rowLength, loop)
    && answer == Count(Marks(cells, rowLength, loop), Ground)
  }

  /** `PartTwoAnswer` from the padded grid's cells and row length. */
  lemma PartTwoAnswerIntro(lines: seq<string>, cells: string, rowLength: int, loop: seq<int>, answer: nat)
    requires |lines| > 0 && (|lines[0]| > 0 || Flatten(lines) == [])
    requires cells == Padded(Flatten(lines), |lines[0]|) && rowLength == |lines[0]| + 2
    requires MainLoopOrNone(cells, rowLength, loop) && answer == Count(Marks(cells, rowLength, loop), Ground)
    ensures PartTwoAnswer(lines, loop, answer)
  {
  }

  /** What `FindMainLoop` promises about the grid's own start tile, restated
      as `MainLoopOrNone`. */
  lemma FoundLoop(cells: string, rowLength: int, start: int, loop: seq<int>)
    requires start == IndexOf(cells, Start)
    requires loop == [] || ClosedLoop(cells, rowLength, start, loop)
    ensures MainLoopOrNone(cells, rowLength, loop)
  {
  }

  /** Part 2's `findSolution`: the main loop `findMainLoop` returns (`[]`
      when it finds none), the tiles marked against it, and the number of
      ground tiles left. */
  method FindSolutionPartTwo(lines: seq<string>, fuel: nat) returns (answer: Option<nat>, ghost loop: seq<int>)
    requires |lines| > 0 && (|lines[0]| > 0 || Flatten(lines) == [])
    ensures answer.Some? ==> PartTwoAnswer(lines, loop, answer.value)
  {
    var grid := new PipeGrid(Flatten(lines), |lines[0]|);
    var r := grid.FindMainLoop(fuel);
    if r.None? {
      return None, [];
    }
    var path := r.value.path;
    loop := path;
    ghost var cells, rowLength := grid.cells, grid.rowLength;
    FoundLoop(cells, rowLength, grid.start, loop);
    answer := MarkAndCount(grid, path, fuel);
    if answer.Some? {
      PartTwoAnswerIntro(lines, cells, rowLength, loop, answer.value);
    }
  }

  /** The second half of part 2's `findSolution`: mark the outside, then
      count the ground that is left. `None` where the fill runs out of
      `fuel`. */
  method MarkAndCount(grid: PipeGrid, path: seq<int>, fuel: nat) returns (answer: Option<nat>)
    requires grid.Valid()
    modifies grid
    ensures grid.rowLength == old(grid.rowLength) && grid.start == old(grid.start)
    ensures answer.Some? ==> answer.value == Count(Marks(old(grid.cells), grid.rowLength, path), Ground)
  {
    var finished, flooded := grid.MarkOutsideCells(path, fuel);
    if !finished {
      return None;
    }
    var count := grid.GetNumberOfCellsInMainLoop();
    answer := Some(count);
  }

  /** Without a loop nothing is inside, so no ground is left to count. */
  lemma NoLoopNoGround(cells: string, rowLength: int)
    requires rowLength > 0
    ensures Count(Marks(cells, rowLength, []), Ground) == 0
  {
    var marks := Marks(cells, rowLength, []);
    forall i | 0 <= i < |marks|
      ensures marks[i] != Ground
    {
      assert Crossings(Vertexes(rowLength, []), Position(rowLength, i), 0) == 0;
    }
    assert Ground !in marks;
    CountAbsent(marks, Ground);
  }
}
