/** Day 5, part 1: single seed numbers are carried through the almanac's
    maps one block at a time. Each seed is an object whose `location` and
    `moved` fields are rewritten in place. */
module SeedLocations {
  import opened Common

  class Seed {
    var seed: int
    var location: int
    var moved: bool

    constructor (seed: int)
      ensures this.seed == seed && location == seed && !moved
    {
      this.seed := seed;
      this.location := seed;
      this.moved := false;
    }
  }

  /** A map line `destination source length`. */
  datatype Translation = Translation(destination: int, source: int, length: int)

  /** The state of one seed within a block. */
  datatype Position = Position(location: int, moved: bool)

  predicate Distinct(seeds: seq<Seed>)
  {
    forall i, j :: 0 <= i < j < |seeds| ==> seeds[i] != seeds[j]
  }

  /** The line covers the location: `source <= location < source + length`. */
  predicate Matches(t: Translation, location: int)
  {
    t.source <= location < t.source + t.length
  }

  /** One line applied to one seed (the body of the inner loop). */
  function Apply(p: Position, t: Translation): Position
  {
    if p.location >= t.source && p.location < t.source + t.length && !p.moved then
      Position(t.destination + (p.location - t.source), true)
    else
      p
  }

  /** The lines of a block applied in order. */
  function ApplyBlock(p: Position, block: seq<Translation>): Position
  {
    if block == [] then p else Apply(ApplyBlock(p, block[..|block| - 1]), block[|block| - 1])
  }

  /** The first line of a block that covers the location moves the seed, and
      no later line touches it again. */
  lemma {:induction false} FirstMatchWins(location: int, block: seq<Translation>, j: int)
    requires 0 <= j < |block| && Matches(block[j], location)
    requires forall i :: 0 <= i < j ==> !Matches(block[i], location)
    ensures ApplyBlock(Position(location, false), block) ==
      Position(block[j].destination + (location - block[j].source), true)
  {
    if |block| - 1 == j {
      NoMatchStays(location, block[..j]);
    } else {
      FirstMatchWins(location, block[..|block| - 1], j);
    }
  }

  /** A location that no line covers is left where it is. */
  lemma {:induction false} NoMatchStays(location: int, block: seq<Translation>)
    requires forall i :: 0 <= i < |block| ==> !Matches(block[i], location)
    ensures ApplyBlock(Position(location, false), block) == Position(location, false)
  {
    if block != [] {
      NoMatchStays(location, block[..|block| - 1]);
    }
  }

  /** `createSeeds` over the numbers of the first line. */
  method CreateSeeds(numbers: seq<int>) returns (seeds: seq<Seed>)
    ensures |seeds| == |numbers| && Distinct(seeds)
    ensures forall i :: 0 <= i < |seeds| ==> fresh(seeds[i])
    ensures forall i :: 0 <= i < |seeds| ==>
      seeds[i].seed == numbers[i] && seeds[i].location == numbers[i] && !seeds[i].moved
  {
    seeds := [];
    for i := 0 to |numbers|
      invariant |seeds| == i && Distinct(seeds)
      invariant forall k :: 0 <= k < i ==> fresh(seeds[k])
      invariant forall k :: 0 <= k < i ==>
        seeds[k].seed == numbers[k] && seeds[k].location == numbers[k] && !seeds[k].moved
    {
      var s := new Seed(numbers[i]);
      seeds := seeds + [s];
    }
  }

  /** `translateSeeds`: clears every flag, then lets each line of the block
      move the seeds it covers that have not moved yet. */
  method TranslateSeeds(seeds: seq<Seed>, block: seq<Translation>)
    requires Distinct(seeds)
    modifies set s | s in seeds
    ensures forall i :: 0 <= i < |seeds| ==> seeds[i].seed == old(seeds[i].seed)
    ensures forall i :: 0 <= i < |seeds| ==>
      Position(seeds[i].location, seeds[i].moved) ==
      ApplyBlock(Position(old(seeds[i].location), false), block)
  {
    for i := 0 to |seeds|
      invariant forall k :: 0 <= k < |seeds| ==>
        seeds[k].seed == old(seeds[k].seed) && seeds[k].location == old(seeds[k].location)
      invariant forall k :: 0 <= k < i ==> !seeds[k].moved
    {
      seeds[i].moved := false;
    }
    for t := 0 to |block|
      invariant forall k :: 0 <= k < |seeds| ==> seeds[k].seed == old(seeds[k].seed)
      invariant forall k :: 0 <= k < |seeds| ==>
        Position(seeds[k].location, seeds[k].moved) ==
        ApplyBlock(Position(old(seeds[k].location), false), block[..t])
    {
      var translation := block[t];
      var upperBound := translation.source + translation.length;
      assert block[..t + 1][..t] == block[..t];
      for i := 0 to |seeds|
        invariant forall k :: 0 <= k < |seeds| ==> seeds[k].seed == old(seeds[k].seed)
        invariant forall k :: 0 <= k < i ==>
          Position(seeds[k].location, seeds[k].moved) ==
          ApplyBlock(Position(old(seeds[k].location), false), block[..t + 1])
        invariant forall k :: i <= k < |seeds| ==>
          Position(seeds[k].location, seeds[k].moved) ==
          ApplyBlock(Position(old(seeds[k].location), false), block[..t])
      {
        var seed := seeds[i];
        if seed.location >= translation.source && seed.location < upperBound && !seed.moved {
          seed.location := translation.destination + (seed.location - translation.source);
          seed.moved := true;
        }
      }
    }
    assert block[..|block|] == block;
  }

  function Locations(seeds: seq<Seed>): (ls: seq<int>)
    reads set s | s in seeds
    ensures |ls| == |seeds| && forall i :: 0 <= i < |seeds| ==> ls[i] == seeds[i].location
  {
    if seeds == [] then [] else Locations(seeds[..|seeds| - 1]) + [seeds[|seeds| - 1].location]
  }

  /** `findLowestLocation`. */
  function FindLowestLocation(seeds: seq<Seed>): (r: Extended)
    reads set s | s in seeds
    ensures r == Infinity <==> seeds == []
    ensures r.Finite? ==> (forall i :: 0 <= i < |seeds| ==> r.value <= seeds[i].location) &&
                          exists i :: 0 <= i < |seeds| && seeds[i].location == r.value
  {
    Lowest(Locations(seeds))
  }

  /** Where a seed ends after all the blocks. */
  function Locate(location: int, blocks: seq<seq<Translation>>): int
  {
    if blocks == [] then location
    else ApplyBlock(Position(Locate(location, blocks[..|blocks| - 1]), false), blocks[|blocks| - 1]).location
  }

  /** `findSolution` over the seed numbers and the blocks of map lines: the
      lowest final location of any seed. */
  method FindSolution(numbers: seq<int>, blocks: seq<seq<Translation>>) returns (r: Extended)
    ensures r == Lowest(seq(|numbers|, i requires 0 <= i < |numbers| => Locate(numbers[i], blocks)))
  {
    var seeds := CreateSeeds(numbers);
    for index := 0 to |blocks|
      invariant forall k :: 0 <= k < |seeds| ==> seeds[k].location == Locate(numbers[k], blocks[..index])
    {
      assert blocks[..index + 1][..index] == blocks[..index];
      TranslateSeeds(seeds, blocks[index]);
    }
    assert blocks[..|blocks|] == blocks;
    assert Locations(seeds) == seq(|numbers|, i requires 0 <= i < |numbers| => Locate(numbers[i], blocks));
    r := FindLowestLocation(seeds);
  }
}
