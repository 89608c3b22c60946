/** Day 2: games of cubes drawn from a bag. Each game is a list of sets; a set
    maps a colour to the number of cubes of that colour shown. */
module CubeGames {
  import opened Common

  /** The three colours both parts look at; any other key of a set is
      never read. */
  datatype Color = Blue | Green | Red

  /** One `"<count> <colour>"` entry of a set, already split on the space. */
  datatype Cube = Cube(count: nat, color: Color)

  /** A set of cubes: colour to count. */
  type GameSet = map<Color, nat>

  /** The per-colour limits (or maxima) for the three colours. */
  datatype Dice = Dice(blue: nat, green: nat, red: nat)

  /** The bag of part 1: 12 red, 13 green and 14 blue cubes. */
  const MaxCubes := Dice(14, 13, 12)

  /** The `reduce` in `parseGame` that turns the cubes of one set into a
      record: a colour listed twice keeps its last count. */
  function ParseSet(cubes: seq<Cube>): (r: GameSet)
  {
    if cubes == [] then map[]
    else ParseSet(cubes[..|cubes| - 1])[cubes[|cubes| - 1].color := cubes[|cubes| - 1].count]
  }

  /** The record holds exactly the listed colours, each with the count of the
      last cube of that colour. */
  lemma {:induction false} ParseSetHolds(cubes: seq<Cube>, i: int)
    requires 0 <= i < |cubes|
    requires forall j :: i < j < |cubes| ==> cubes[j].color != cubes[i].color
    ensures cubes[i].color in ParseSet(cubes) && ParseSet(cubes)[cubes[i].color] == cubes[i].count
  {
    if i < |cubes| - 1 {
      ParseSetHolds(cubes[..|cubes| - 1], i);
    }
  }

  lemma {:induction false} ParseSetKeys(cubes: seq<Cube>, color: Color)
    ensures color in ParseSet(cubes) <==> exists j :: 0 <= j < |cubes| && cubes[j].color == color
  {
    if cubes != [] {
      var init := cubes[..|cubes| - 1];
      ParseSetKeys(init, color);
      if color in ParseSet(init) {
        var j :| 0 <= j < |init| && init[j].color == color;
        assert cubes[j].color == color;
      }
    }
  }

  /** `set.<colour> ?? 0`: a colour that was not drawn counts as 0. */
  function CountOf(s: GameSet, color: Color): nat
  {
    if color in s then s[color] else 0
  }

  predicate WithinLimits(s: GameSet, limits: Dice)
  {
    CountOf(s, Blue) <= limits.blue && CountOf(s, Green) <= limits.green &&
    CountOf(s, Red) <= limits.red
  }

  /** `isValidGame`: every set of the game fits in the bag. */
  predicate IsValidGame(game: seq<GameSet>, limits: Dice)
  {
    forall i :: 0 <= i < |game| ==> WithinLimits(game[i], limits)
  }

  /** The answer of part 1: the sum of the 1-based numbers of the valid games. */
  function SumOfValidGames(games: seq<seq<GameSet>>): int
  {
    if games == [] then 0
    else
      var number := if IsValidGame(games[|games| - 1], MaxCubes) then |games| else 0;
      SumOfValidGames(games[..|games| - 1]) + number
  }

  /** `1 + 2 + ... + n`. */
  function Triangle(n: nat): nat
  {
    if n == 0 then 0 else Triangle(n - 1) + n
  }

  lemma {:induction false} TriangleClosed(n: nat)
    ensures 2 * Triangle(n) == n * (n + 1)
  {
    if n > 0 {
      TriangleClosed(n - 1);
    }
  }

  /** A game whose sets all fit adds its number; a game with one set over the
      limit adds nothing. */
  lemma {:induction false} SumBounds(games: seq<seq<GameSet>>)
    ensures 0 <= SumOfValidGames(games) <= Triangle(|games|)
    ensures (forall i :: 0 <= i < |games| ==> IsValidGame(games[i], MaxCubes)) ==>
      SumOfValidGames(games) == Triangle(|games|)
    ensures (forall i :: 0 <= i < |games| ==> !IsValidGame(games[i], MaxCubes)) ==>
      SumOfValidGames(games) == 0
  {
    if games != [] {
      SumBounds(games[..|games| - 1]);
    }
  }

  /** The largest count of `color` over the sets, starting from 0. */
  function MaxCount(sets: seq<GameSet>, color: Color): nat
  {
    if sets == [] then 0 else Max(MaxCount(sets[..|sets| - 1], color), CountOf(sets[|sets| - 1], color))
  }

  /** The maximum is at least every set's count, and is 0 or one of them. */
  lemma {:induction false} MaxCountIsMaximum(sets: seq<GameSet>, color: Color)
    ensures forall i :: 0 <= i < |sets| ==> CountOf(sets[i], color) <= MaxCount(sets, color)
    ensures MaxCount(sets, color) == 0 ||
      exists i :: 0 <= i < |sets| && CountOf(sets[i], color) == MaxCount(sets, color)
  {
    if sets != [] {
      var init := sets[..|sets| - 1];
      MaxCountIsMaximum(init, color);
      if MaxCount(sets, color) != 0 && MaxCount(sets, color) == MaxCount(init, color) {
        var i :| 0 <= i < |init| && CountOf(init[i], color) == MaxCount(init, color);
        assert sets[i] == init[i];
      }
    }
  }

  /** The fewest cubes that make the game possible are the maxima: a bag with
      these counts admits every set, and no smaller bag does. */
  lemma FewestCubes(sets: seq<GameSet>, bag: Dice)
    ensures IsValidGame(sets, Dice(MaxCount(sets, Blue), MaxCount(sets, Green), MaxCount(sets, Red)))
    ensures IsValidGame(sets, bag) ==>
      MaxCount(sets, Blue) <= bag.blue && MaxCount(sets, Green) <= bag.green &&
      MaxCount(sets, Red) <= bag.red
  {
    MaxCountIsMaximum(sets, Blue);
    MaxCountIsMaximum(sets, Green);
    MaxCountIsMaximum(sets, Red);
  }

  /** The keys of the `result` record. */
  const Colors: seq<Color> := [Blue, Green, Red]

  /** The inner `forEach` over the keys of one set: each colour's maximum
      is raised to the set's count when that is larger. */
  method RaiseMaxima(result: map<Color, nat>, s: GameSet) returns (raised: map<Color, nat>)
    requires forall c: Color :: c in result
    ensures forall c: Color :: c in raised && raised[c] == Max(result[c], CountOf(s, c))
  {
    raised := result;
    for k := 0 to |Colors|
      invariant forall c: Color :: c in raised
      invariant forall c: Color :: raised[c] == if c in Colors[..k] then Max(result[c], CountOf(s, c)) else result[c]
    {
      var color := Colors[k];
      if color in s && s[color] > raised[color] {
        raised := raised[color := s[color]];
      }
    }
    assert Colors[..3] == Colors;
    forall c: Color
      ensures c in Colors
    {
      assert Colors[0] == Blue && Colors[1] == Green && Colors[2] == Red;
      assert c == Blue || c == Green || c == Red;
    }
  }

  /** `findDiceCount`: raises each colour's running maximum over the sets and
      multiplies the three. The source walks `Object.keys(set)`; a key other
      than the three colours compares with `undefined` and never updates, so
      the model walks the three colours. */
  method FindDiceCount(sets: seq<GameSet>) returns (power: int)
    ensures power == Power(sets)
  {
    var result := map[Blue := 0, Green := 0, Red := 0];
    forall c: Color
      ensures c in result && result[c] == 0
    {
      assert c == Blue || c == Green || c == Red;
    }
    for i := 0 to |sets|
      invariant forall c: Color :: c in result && result[c] == MaxCount(sets[..i], c)
    {
      assert sets[..i + 1][..i] == sets[..i];
      result := RaiseMaxima(result, sets[i]);
    }
    assert sets[..|sets|] == sets;
    power := result[Blue] * result[Green] * result[Red];
  }

  /** A colour that never shows makes the power 0. */
  lemma {:induction false} MissingColorGivesZero(sets: seq<GameSet>, color: Color)
    requires forall i :: 0 <= i < |sets| ==> color !in sets[i]
    ensures MaxCount(sets, color) == 0
  {
    if sets != [] {
      MissingColorGivesZero(sets[..|sets| - 1], color);
    }
  }

  /** The power of the fewest cubes that make a game possible. */
  function Power(sets: seq<GameSet>): nat
  {
    MaxCount(sets, Blue) * MaxCount(sets, Green) * MaxCount(sets, Red)
  }

  /** The sum of the powers of the games. */
  function TotalPower(games: seq<seq<GameSet>>): nat
  {
    if games == [] then 0 else TotalPower(games[..|games| - 1]) + Power(games[|games| - 1])
  }

  /** A game in which some colour never shows has power 0, and so adds
      nothing to the total. */
  lemma PowerWithoutColor(sets: seq<GameSet>, color: Color)
    requires forall i :: 0 <= i < |sets| ==> color !in sets[i]
    ensures Power(sets) == 0
  {
    MissingColorGivesZero(sets, color);
  }

  /** `findSolution` of part 2: the sum of the powers. */
  method SumOfPowers(games: seq<seq<GameSet>>) returns (total: int)
    ensures total == TotalPower(games)
  {
    total := 0;
    for i := 0 to |games|
      invariant total == TotalPower(games[..i])
    {
      assert games[..i + 1][..i] == games[..i];
      var power := FindDiceCount(games[i]);
      total := total + power;
    }
    assert games[..|games|] == games;
  }
}
