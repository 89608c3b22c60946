/** Day 18, `polygon.ts`: the shoelace area and the Manhattan perimeter of a
    closed polygon given by its vertices, the last vertex joined back to
    the first. */
module Polygon {
  import opened Common
  import opened Grids

  function Cross(a: Coordinate, b: Coordinate): int
  {
    a.x * b.y - a.y * b.x
  }

  /** The vertex after vertex `i`: the last one is joined back to the first. */
  function Next(i: int, n: int): int
  {
    if i + 1 < n then i + 1 else 0
  }

  /** The source finds the next vertex as `(i + 1) % n`. */
  lemma NextIsRemainder(i: int, n: int)
    requires 0 <= i < n
    ensures Next(i, n) == (i + 1) % n
  {
    if i + 1 < n {
      DivModUnique(0, i + 1, n);
    } else {
      DivModUnique(1, 0, n);
    }
  }

  /** The term of edge `i`, from vertex `i` to the next one, wrapping. */
  function Edges(coordinates: seq<Coordinate>): (r: seq<int>)
    ensures |r| == |coordinates|
  {
    var n := |coordinates|;
    seq(n, i requires 0 <= i < n => Cross(coordinates[i], coordinates[Next(i, n)]))
  }

  /** The shoelace sum: twice the signed area. */
  function Shoelace(coordinates: seq<Coordinate>): int
  {
    Sum(Edges(coordinates))
  }

  /** `calculateArea`: the shoelace terms summed in a loop; half the
      absolute value. */
  method CalculateArea(coordinates: seq<Coordinate>) returns (area: real)
    ensures area == Abs(Shoelace(coordinates)) as real / 2.0
    ensures area >= 0.0
  {
    var total := 0;
    var edges := Edges(coordinates);
    for index := 0 to |coordinates|
      invariant total == Sum(edges[..index])
    {
      assert edges[..index + 1][..index] == edges[..index];
      NextIsRemainder(index, |coordinates|);
      var pointA := coordinates[index];
      var pointB := coordinates[(index + 1) % |coordinates|];
      total := total + (pointA.x * pointB.y - pointA.y * pointB.x);
    }
    assert edges[..|coordinates|] == edges;
    area := Abs(total) as real / 2.0;
  }

  /** Fewer than three vertices enclose nothing. */
  lemma {:induction false} DegenerateHasNoArea(coordinates: seq<Coordinate>)
    requires |coordinates| < 3
    ensures Shoelace(coordinates) == 0
  {
    var e := Edges(coordinates);
    if |coordinates| == 0 {
      assert e == [];
    } else if |coordinates| == 1 {
      var a := coordinates[0];
      assert a.x * a.y == a.y * a.x;
      assert e == [0] && e[..0] == [];
      assert Sum(e) == Sum(e[..0]) + e[0];
    } else if |coordinates| == 2 {
      var a, b := coordinates[0], coordinates[1];
      assert e[0] == Cross(a, b) && e[1] == Cross(b, a);
      assert a.x * b.y == b.y * a.x && a.y * b.x == b.x * a.y;
      assert e[..1] == [e[0]] && [e[0]][..0] == [];
      assert Sum(e[..1]) == e[0];
    }
  }

  lemma {:induction false} SumCons(x: int, s: seq<int>)
    ensures Sum([x] + s) == x + Sum(s)
  {
    if s != [] {
      assert ([x] + s)[..|s|] == [x] + s[..|s| - 1];
      SumCons(x, s[..|s| - 1]);
    } else {
      assert [x] + s == [x];
      assert [x][..0] == [];
    }
  }

  /** Starting the list at its second vertex lists the same edges. */
  lemma {:induction false} RotationKeepsArea(coordinates: seq<Coordinate>)
    requires |coordinates| > 0
    ensures Shoelace(coordinates[1..] + [coordinates[0]]) == Shoelace(coordinates)
  {
    var n := |coordinates|;
    var rotated := coordinates[1..] + [coordinates[0]];
    var e := Edges(coordinates);
    forall i | 0 <= i < n
      ensures rotated[i] == coordinates[Next(i, n)]
    {
    }
    forall i | 0 <= i < n
      ensures Edges(rotated)[i] == (e[1..] + [e[0]])[i]
    {
      assert rotated[Next(i, n)] == coordinates[Next(Next(i, n), n)];
    }
    assert Edges(rotated) == e[1..] + [e[0]];
    SumAppend(e[1..], [e[0]]);
    SumCons(e[0], e[1..]);
    assert [e[0]] + e[1..] == e;
    assert [e[0]][..0] == [];
  }

  function Negated(s: seq<int>): (r: seq<int>)
    ensures |r| == |s|
  {
    seq(|s|, i requires 0 <= i < |s| => -s[i])
  }

  lemma {:induction false} SumReversed(s: seq<int>)
    ensures Sum(Reversed(s)) == Sum(s)
  {
    if s != [] {
      var last := s[|s| - 1];
      var init := s[..|s| - 1];
      assert Reversed(s) == [last] + Reversed(init);
      SumCons(last, Reversed(init));
      SumReversed(init);
    }
  }

  lemma {:induction false} SumNegated(s: seq<int>)
    ensures Sum(Negated(s)) == -Sum(s)
  {
    if s != [] {
      assert Negated(s)[..|s| - 1] == Negated(s[..|s| - 1]);
      SumNegated(s[..|s| - 1]);
    }
  }

  /** Listing the vertices the other way round negates the signed area, so
      the area is unchanged. */
  lemma {:induction false} ReversalKeepsArea(coordinates: seq<Coordinate>)
    ensures Shoelace(Reversed(coordinates)) == -Shoelace(coordinates)
  {
    var n := |coordinates|;
    if n > 0 {
      var r := Reversed(coordinates);
      var e := Edges(coordinates);
      var front := e[..n - 1];
      forall i | 0 <= i < n
        ensures Edges(r)[i] == (Negated(Reversed(front)) + [-e[n - 1]])[i]
      {
        if i < n - 1 {
          assert Edges(r)[i] == Cross(coordinates[n - 1 - i], coordinates[n - 2 - i]);
          assert e[n - 2 - i] == Cross(coordinates[n - 2 - i], coordinates[n - 1 - i]);
        } else {
          assert Edges(r)[i] == Cross(coordinates[0], coordinates[n - 1]);
          assert e[n - 1] == Cross(coordinates[n - 1], coordinates[0]);
        }
      }
      assert Edges(r) == Negated(Reversed(front)) + [-e[n - 1]];
      SumAppend(Negated(Reversed(front)), [-e[n - 1]]);
      SumNegated(Reversed(front));
      SumReversed(front);
      assert e == front + [e[n - 1]];
      SumAppend(front, [e[n - 1]]);
      assert [-e[n - 1]][..0] == [] && [e[n - 1]][..0] == [];
    }
  }

  /** The Manhattan length of each edge, wrapping. */
  function EdgeLengths(coordinates: seq<Coordinate>): (r: seq<int>)
    ensures |r| == |coordinates|
  {
    var n := |coordinates|;
    seq(n, i requires 0 <= i < n =>
      Abs(coordinates[i].x - coordinates[Next(i, n)].x) + Abs(coordinates[i].y - coordinates[Next(i, n)].y))
  }

  function Perimeter(coordinates: seq<Coordinate>): int
  {
    Sum(EdgeLengths(coordinates))
  }

  /** `calculatePerimeter`. */
  method CalculatePerimeter(coordinates: seq<Coordinate>) returns (totalLength: int)
    ensures totalLength == Perimeter(coordinates)
    ensures totalLength >= 0
  {
    totalLength := 0;
    var lengths := EdgeLengths(coordinates);
    for i := 0 to |coordinates|
      invariant totalLength == Sum(lengths[..i])
    {
      assert lengths[..i + 1][..i] == lengths[..i];
      NextIsRemainder(i, |coordinates|);
      var a := coordinates[i];
      var b := coordinates[(i + 1) % |coordinates|];
      totalLength := totalLength + (Abs(a.x - b.x) + Abs(a.y - b.y));
    }
    assert lengths[..|coordinates|] == lengths;
    SumNonNegative(lengths);
  }
}

/** Day 18, parts 1 and 2: the dig plan is walked from `(0, 0)`, one vertex
    per instruction; the lagoon holds the polygon's area plus half its
    perimeter plus one. */
module Lagoon {
  import opened Common
  import opened Grids
  import opened Polygon

  datatype Instruction = Instruction(direction: Direction, distance: int)

  /** The direction letter of part 1. `U`, `R` and `D` are tested in turn and
      every other letter takes the last branch of the walk, so it moves left. */
  function ParseDirection(letter: char): Direction
  {
    if letter == 'U' then Up else if letter == 'R' then Right else if letter == 'D' then Down else Left
  }

  /** `directionMap` of part 2: `0` right, `1` down, `2` left, `3` up. Any
      other digit maps to `undefined`, which the walk also moves left. */
  function DirectionMap(digit: char): Direction
  {
    if digit == '0' then Right else if digit == '1' then Down else if digit == '2' then Left
    else if digit == '3' then Up else Left
  }

  /** The vertex reached from `p` by one instruction. */
  function Moved(p: Coordinate, instruction: Instruction): Coordinate
  {
    var d := instruction.distance;
    match instruction.direction
    case Up => Coordinate(p.x, p.y - d)
    case Right => Coordinate(p.x + d, p.y)
    case Down => Coordinate(p.x, p.y + d)
    case Left => Coordinate(p.x - d, p.y)
  }

  /** The vertices of the first `k` instructions, from `(0, 0)`. */
  function Vertices(instructions: seq<Instruction>): (r: seq<Coordinate>)
    ensures |r| == |instructions|
  {
    if instructions == [] then []
    else
      var init := Vertices(instructions[..|instructions| - 1]);
      var from := if init == [] then Coordinate(0, 0) else init[|init| - 1];
      init + [Moved(from, instructions[|instructions| - 1])]
  }

  function Distances(instructions: seq<Instruction>): (r: seq<int>)
    ensures |r| == |instructions|
  {
    seq(|instructions|, i requires 0 <= i < |instructions| => instructions[i].distance)
  }

  /** The walk of `findSolution`: one vertex pushed per instruction, and the
      distances summed into the perimeter. */
  method Dig(instructions: seq<Instruction>) returns (coordinates: seq<Coordinate>, perimeterLength: int)
    ensures coordinates == Vertices(instructions)
    ensures perimeterLength == Sum(Distances(instructions))
  {
    coordinates := [];
    perimeterLength := 0;
    var x, y := 0, 0;
    for i := 0 to |instructions|
      invariant coordinates == Vertices(instructions[..i])
      invariant perimeterLength == Sum(Distances(instructions[..i]))
      invariant Coordinate(x, y) == if i == 0 then Coordinate(0, 0) else coordinates[i - 1]
    {
      assert instructions[..i + 1][..i] == instructions[..i];
      assert Distances(instructions[..i + 1])[..i] == Distances(instructions[..i]);
      var direction, distance := instructions[i].direction, instructions[i].distance;
      perimeterLength := perimeterLength + distance;
      if direction == Up {
        y := y - distance;
      } else if direction == Right {
        x := x + distance;
      } else if direction == Down {
        y := y + distance;
      } else {
        x := x - distance;
      }
      coordinates := coordinates + [Coordinate(x, y)];
    }
    assert instructions[..|instructions|] == instructions;
  }

  /** The lagoon size: the area inside the line through the middle of the
      trench blocks, plus the half blocks outside it, plus one. */
  function LagoonSize(instructions: seq<Instruction>): real
  {
    Abs(Shoelace(Vertices(instructions))) as real / 2.0 + Sum(Distances(instructions)) as real / 2.0 + 1.0
  }

  /** `findSolution` of both parts, on the parsed instructions. */
  method FindSolution(instructions: seq<Instruction>) returns (size: real)
    ensures size == LagoonSize(instructions)
  {
    var coordinates, perimeterLength := Dig(instructions);
    var area := CalculateArea(coordinates);
    size := area + perimeterLength as real / 2.0 + 1.0;
  }

  /** An empty plan still digs the starting block. */
  lemma NothingDugIsOneBlock()
    ensures LagoonSize([]) == 1.0
  {
  }

  /** Each vertex is one instruction away from the one before. */
  lemma {:induction false} VertexSteps(instructions: seq<Instruction>, i: int)
    requires 0 <= i < |instructions|
    ensures Vertices(instructions)[i] ==
      Moved(if i == 0 then Coordinate(0, 0) else Vertices(instructions)[i - 1], instructions[i])
  {
    var n := |instructions|;
    if i < n - 1 {
      VertexSteps(instructions[..n - 1], i);
      assert instructions[..n - 1][i] == instructions[i];
    }
  }

  /** Each edge of the dug polygon is as long as its instruction. */
  lemma MoveLength(p: Coordinate, instruction: Instruction)
    requires instruction.distance >= 0
    ensures var q := Moved(p, instruction);
      Abs(p.x - q.x) + Abs(p.y - q.y) == instruction.distance
  {
  }

  /** When the plan returns to the start, the polygon's perimeter is the sum
      of the distances: the closing edge is the first instruction. */
  lemma {:induction false} ClosedPlanPerimeter(instructions: seq<Instruction>)
    requires |instructions| > 0
    requires forall i :: 0 <= i < |instructions| ==> instructions[i].distance >= 0
    requires Vertices(instructions)[|instructions| - 1] == Coordinate(0, 0)
    ensures Perimeter(Vertices(instructions)) == Sum(Distances(instructions))
  {
    var n := |instructions|;
    var v := Vertices(instructions);
    var lengths := EdgeLengths(v);
    var d := Distances(instructions);
    forall i | 0 <= i < n
      ensures lengths[i] == (d[1..] + [d[0]])[i]
    {
      if i < n - 1 {
        VertexSteps(instructions, i + 1);
        MoveLength(v[i], instructions[i + 1]);
      } else {
        VertexSteps(instructions, 0);
        MoveLength(v[n - 1], instructions[0]);
      }
    }
    assert lengths == d[1..] + [d[0]];
    SumAppend(d[1..], [d[0]]);
    SumCons(d[0], d[1..]);
    assert [d[0]] + d[1..] == d;
    assert [d[0]][..0] == [];
  }

  /* ---------------------------------------------------------------------- */
  /* Part 2: the colour code `#rrrrrd`                                       */

  predicate IsHexDigit(c: char)
  {
    '0' <= c <= '9' || 'a' <= c <= 'f' || 'A' <= c <= 'F'
  }

  function HexDigitValue(c: char): nat
    requires IsHexDigit(c)
  {
    if '0' <= c <= '9' then c as nat - '0' as nat
    else if 'a' <= c <= 'f' then c as nat - 'a' as nat + 10
    else c as nat - 'A' as nat + 10
  }

  /** The length of the leading run of hexadecimal digits. */
  function HexPrefixLength(s: string): (n: nat)
    ensures n <= |s|
  {
    if s != [] && IsHexDigit(s[0]) then 1 + HexPrefixLength(s[1..]) else 0
  }

  lemma {:induction false} HexPrefixDigits(s: string)
    ensures forall i :: 0 <= i < HexPrefixLength(s) ==> IsHexDigit(s[i])
  {
    if s != [] && IsHexDigit(s[0]) {
      HexPrefixDigits(s[1..]);
    }
  }

  function HexValue(s: string): nat
    requires forall i :: 0 <= i < |s| ==> IsHexDigit(s[i])
  {
    if s == [] then 0 else 16 * HexValue(s[..|s| - 1]) + HexDigitValue(s[|s| - 1])
  }

  /** `parseInt(s, 16)`: the value of the leading hexadecimal digits, `NaN`
      when there are none. */
  function ParseHex(s: string): Option<nat>
  {
    var n := HexPrefixLength(s);
    HexPrefixDigits(s);
    if n == 0 then None else Some(HexValue(s[..n]))
  }

  function HexDigitOf(v: int): (c: char)
    requires 0 <= v < 16
    ensures IsHexDigit(c) && HexDigitValue(c) == v
  {
    if v < 10 then ('0' as int + v) as char else ('a' as int + v - 10) as char
  }

  function Pow16(k: nat): (r: nat)
    ensures r >= 1
  {
    if k == 0 then 1 else 16 * Pow16(k - 1)
  }

  /** `n` written with `k` lower-case hexadecimal digits, most significant
      first. */
  function ToHex(n: nat, k: nat): (s: string)
    ensures |s| == k && forall i :: 0 <= i < k ==> IsHexDigit(s[i])
  {
    if k == 0 then [] else ToHex(n / 16, k - 1) + [HexDigitOf(n % 16)]
  }

  /** Reading back a distance written with five hex digits gives the
      distance, for every distance the five digits can hold. */
  lemma {:induction false} HexRoundTrip(n: nat, k: nat)
    requires n < Pow16(k)
    ensures HexValue(ToHex(n, k)) == n
  {
    if k > 0 {
      DivBelow(n, Pow16(k - 1), 16);
      HexRoundTrip(n / 16, k - 1);
      var s := ToHex(n, k);
      assert s[..|s| - 1] == ToHex(n / 16, k - 1);
    }
  }

  /** A code of five hexadecimal digits parses to its value. */
  lemma {:induction false} ParseHexOfDigits(s: string)
    requires forall i :: 0 <= i < |s| ==> IsHexDigit(s[i])
    ensures s != [] ==> ParseHex(s) == Some(HexValue(s))
  {
    HexPrefixAll(s);
    assert s[..|s|] == s;
  }

  lemma {:induction false} HexPrefixAll(s: string)
    requires forall i :: 0 <= i < |s| ==> IsHexDigit(s[i])
    ensures HexPrefixLength(s) == |s|
  {
    if s != [] {
      HexPrefixAll(s[1..]);
    }
  }

  /** `parseInstructions` of part 2: the five characters after `#` are the
      distance in hexadecimal, the sixth picks the direction. A distance
      that does not parse is `NaN`, returned as `None`. */
  function ParseColor(code: string): Option<Instruction>
    requires |code| == 6
  {
    var distance := ParseHex(code[..5]);
    if distance.None? then None else Some(Instruction(DirectionMap(code[5]), distance.value))
  }

  /** Writing an instruction as a colour code and reading it back gives it
      back, for the four directions and distances below `16^5`. */
  lemma ColorRoundTrip(distance: nat, digit: char)
    requires distance < Pow16(5) && '0' <= digit <= '3'
    ensures ParseColor(ToHex(distance, 5) + [digit]) == Some(Instruction(DirectionMap(digit), distance))
  {
    var code := ToHex(distance, 5) + [digit];
    assert code[..5] == ToHex(distance, 5);
    HexRoundTrip(distance, 5);
    ParseHexOfDigits(code[..5]);
  }
}
