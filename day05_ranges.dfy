/** Day 5, part 2: ranges of seeds are carried through the almanac's maps.
    Converting a range may split pieces off it; those pieces are appended to
    the very list the line is being applied to, so the `for…of` loop visits
    them too. The visit is harmless: every appended piece is either moved or
    outside the line's source range. */
module SeedRangeMapping {
  import opened Common
  import opened SeedRanges

  predicate Distinct(seeds: seq<SeedRange>)
  {
    forall i, j :: 0 <= i < j < |seeds| ==> seeds[i] != seeds[j]
  }

  predicate AllWellFormed(vs: seq<Range>)
  {
    forall i :: 0 <= i < |vs| ==> WellFormed(vs[i])
  }

  predicate AllLinesWellFormed(block: seq<MapLine>)
  {
    forall i :: 0 <= i < |block| ==> LineWellFormed(block[i])
  }

  /** What visiting one range does: moved or non-overlapping ranges are skipped. */
  function Visit(r: Range, m: MapLine): Conversion
  {
    if r.moved || !Overlapping(r, m) then Conversion(r, []) else ConvertOverlapping(r, m)
  }

  /** The ranges of the list after the visit, in their places. */
  function Updated(vs: seq<Range>, m: MapLine): (us: seq<Range>)
    ensures |us| == |vs|
  {
    if vs == [] then [] else Updated(vs[..|vs| - 1], m) + [Visit(vs[|vs| - 1], m).seed]
  }

  /** The pieces pushed onto the list, in order. */
  function Appended(vs: seq<Range>, m: MapLine): seq<Range>
  {
    if vs == [] then [] else Appended(vs[..|vs| - 1], m) + Visit(vs[|vs| - 1], m).splitRanges
  }

  /** The list after one line has been applied to every range in it. */
  function LinePass(vs: seq<Range>, m: MapLine): seq<Range>
  {
    Updated(vs, m) + Appended(vs, m)
  }

  /** The list after `resetMovedFlag`. */
  function Reset(vs: seq<Range>): (rs: seq<Range>)
    ensures |rs| == |vs| && forall i :: 0 <= i < |vs| ==> rs[i] == vs[i].(moved := false)
  {
    if vs == [] then [] else Reset(vs[..|vs| - 1]) + [vs[|vs| - 1].(moved := false)]
  }

  /** The lines of a block applied one after the other. */
  function BlockPass(vs: seq<Range>, block: seq<MapLine>): seq<Range>
  {
    if block == [] then vs else LinePass(BlockPass(vs, block[..|block| - 1]), block[|block| - 1])
  }

  /** `translateSeeds` on snapshots. */
  function Translate(vs: seq<Range>, block: seq<MapLine>): seq<Range>
  {
    BlockPass(Reset(vs), block)
  }

  /** Settled with respect to a line: moved already, or out of its reach. */
  predicate Settled(r: Range, m: MapLine)
  {
    WellFormed(r) && (r.moved || !Overlapping(r, m))
  }

  lemma VisitPreserves(r: Range, m: MapLine)
    requires WellFormed(r) && LineWellFormed(m)
    ensures var c := Visit(r, m);
      TotalLength(Pieces(c)) == r.length &&
      forall i :: 0 <= i < |Pieces(c)| ==> Settled(Pieces(c)[i], m)
  {
    var c := Visit(r, m);
    if r.moved || !Overlapping(r, m) {
      assert Pieces(c) == [r];
    } else {
      ConvertOverlappingPartitions(r, m);
      ConvertOverlappingSettles(r, m);
    }
  }

  /** One line keeps every range well-formed, keeps the total number of
      seeds, and leaves every range settled with respect to the line. */
  lemma LinePassPreserves(vs: seq<Range>, m: MapLine)
    requires AllWellFormed(vs) && LineWellFormed(m)
    ensures TotalLength(LinePass(vs, m)) == TotalLength(vs)
    ensures forall i :: 0 <= i < |LinePass(vs, m)| ==> Settled(LinePass(vs, m)[i], m)
  {
    LinePassLength(vs, m);
    LinePassSettles(vs, m);
  }

  lemma {:induction false} LinePassLength(vs: seq<Range>, m: MapLine)
    requires AllWellFormed(vs) && LineWellFormed(m)
    ensures TotalLength(LinePass(vs, m)) == TotalLength(vs)
  {
    if vs != [] {
      var init := vs[..|vs| - 1];
      var last := vs[|vs| - 1];
      var c := Visit(last, m);
      LinePassLength(init, m);
      VisitPreserves(last, m);
      TotalLengthAppend([c.seed], c.splitRanges);
      TotalLengthAppend(Updated(init, m), Appended(init, m));
      TotalLengthAppend(Updated(init, m), [c.seed]);
      TotalLengthAppend(Appended(init, m), c.splitRanges);
      TotalLengthAppend(Updated(vs, m), Appended(vs, m));
      assert vs == init + [last];
      TotalLengthAppend(init, [last]);
      assert TotalLength([last]) == last.length;
    }
  }

  lemma {:induction false} LinePassSettles(vs: seq<Range>, m: MapLine)
    requires AllWellFormed(vs) && LineWellFormed(m)
    ensures forall i :: 0 <= i < |LinePass(vs, m)| ==> Settled(LinePass(vs, m)[i], m)
  {
    if vs != [] {
      var init := vs[..|vs| - 1];
      var last := vs[|vs| - 1];
      var c := Visit(last, m);
      LinePassSettles(init, m);
      VisitPreserves(last, m);
      assert Settled(c.seed, m) by {
        assert Pieces(c)[0] == c.seed;
      }
      PushedSettled(last, m);
      var before := LinePass(init, m);
      var after := LinePass(vs, m);
      var u := |Updated(init, m)|;
      var a := |Appended(init, m)|;
      assert after == before[..u] + [c.seed] + before[u..] + c.splitRanges;
      forall i | 0 <= i < |after|
        ensures Settled(after[i], m)
      {
        if i < u {
          assert after[i] == before[i];
        } else if i == u {
          assert after[i] == c.seed;
        } else if i < u + 1 + a {
          assert after[i] == before[i - 1];
        } else {
          assert after[i] == c.splitRanges[i - u - 1 - a];
        }
      }
    }
  }

  /** A whole block keeps the total number of seeds and well-formedness. */
  lemma {:induction false} BlockPassPreserves(vs: seq<Range>, block: seq<MapLine>)
    requires AllWellFormed(vs) && AllLinesWellFormed(block)
    ensures TotalLength(BlockPass(vs, block)) == TotalLength(vs)
    ensures AllWellFormed(BlockPass(vs, block))
  {
    if block != [] {
      BlockPassPreserves(vs, block[..|block| - 1]);
      LinePassPreserves(BlockPass(vs, block[..|block| - 1]), block[|block| - 1]);
    }
  }

  lemma {:induction false} ResetKeepsLengths(vs: seq<Range>)
    ensures TotalLength(Reset(vs)) == TotalLength(vs)
  {
    if vs != [] {
      ResetKeepsLengths(vs[..|vs| - 1]);
    }
  }

  /** `translateSeeds` preserves the number of seeds. */
  lemma TranslatePreservesSeedCount(vs: seq<Range>, block: seq<MapLine>)
    requires AllWellFormed(vs) && AllLinesWellFormed(block)
    ensures TotalLength(Translate(vs, block)) == TotalLength(vs)
    ensures AllWellFormed(Translate(vs, block))
  {
    ResetKeepsLengths(vs);
    BlockPassPreserves(Reset(vs), block);
  }

  /** A range that is already moved is neither changed nor split by a line. */
  lemma MovedUntouched(vs: seq<Range>, m: MapLine, i: int)
    requires 0 <= i < |vs| && vs[i].moved
    ensures LinePass(vs, m)[i] == vs[i]
  {
    UpdatedAt(vs, m, i);
  }

  lemma {:induction false} UpdatedAt(vs: seq<Range>, m: MapLine, i: int)
    requires 0 <= i < |vs|
    ensures Updated(vs, m)[i] == Visit(vs[i], m).seed
  {
    if i < |vs| - 1 {
      UpdatedAt(vs[..|vs| - 1], m, i);
    }
  }

  /** `createSeeds` over the "start length" pairs of the first line. */
  method CreateSeeds(pairs: seq<(int, int)>) returns (seeds: seq<SeedRange>)
    ensures |seeds| == |pairs| && Distinct(seeds)
    ensures forall i :: 0 <= i < |seeds| ==> fresh(seeds[i])
    ensures forall i :: 0 <= i < |seeds| ==>
      seeds[i].Value() == Range(pairs[i].0, pairs[i].0 + pairs[i].1 - 1, pairs[i].1, false)
  {
    seeds := [];
    for i := 0 to |pairs|
      invariant |seeds| == i && Distinct(seeds)
      invariant forall k :: 0 <= k < i ==> fresh(seeds[k])
      invariant forall k :: 0 <= k < i ==>
        seeds[k].Value() == Range(pairs[k].0, pairs[k].0 + pairs[k].1 - 1, pairs[k].1, false)
    {
      var s := new SeedRange(pairs[i].0, pairs[i].1);
      seeds := seeds + [s];
    }
  }

  /** `resetMovedFlag`. */
  method ResetMovedFlag(seeds: seq<SeedRange>)
    requires Distinct(seeds)
    modifies set s | s in seeds
    ensures Values(seeds) == Reset(old(Values(seeds)))
  {
    for i := 0 to |seeds|
      invariant forall k :: 0 <= k < i ==> seeds[k].Value() == old(seeds[k].Value()).(moved := false)
      invariant forall k :: i <= k < |seeds| ==> seeds[k].Value() == old(seeds[k].Value())
    {
      seeds[i].moved := false;
    }
  }

  /** One visit of the inner loop: the range at `index` is converted when it
      is unmoved and overlaps the line, and the pieces split off it are pushed
      onto the end of the list. */
  method VisitAt(seeds: seq<SeedRange>, index: int, mapLine: MapLine, ghost vs: seq<Range>)
    returns (result: seq<SeedRange>, ghost us: seq<Range>)
    requires Distinct(seeds) && 0 <= index < |seeds| && |vs| == |seeds|
    requires forall i :: 0 <= i < |seeds| ==> seeds[i].Value() == vs[i]
    modifies seeds[index]
    ensures Distinct(result) && |seeds| <= |result|
    ensures forall i :: 0 <= i < |seeds| ==> result[i] == seeds[i]
    ensures forall i :: |seeds| <= i < |result| ==> fresh(result[i])
    ensures us == vs[index := Visit(vs[index], mapLine).seed] + Visit(vs[index], mapLine).splitRanges
    ensures |us| == |result| && forall i :: 0 <= i < |result| ==> result[i].Value() == us[i]
  {
    var seed := seeds[index];
    if seed.moved || !Overlapping(seed.Value(), mapLine) {
      result, us := seeds, vs;
      assert vs[index := Visit(vs[index], mapLine).seed] == vs;
      return;
    }
    var conversion := ConvertSeedRangeOverlappingWithMapLine(seed, mapLine);
    result := seeds + conversion.splitRanges;
    us := vs[index := seed.Value()] + Values(conversion.splitRanges);
  }

  /** The list being walked, after the first `index` of the ranges that were
      in it at the start have been visited: each visit replaces the range in
      place and pushes its pieces. */
  function Walked(start: seq<Range>, index: int, m: MapLine): (w: seq<Range>)
    requires 0 <= index <= |start|
    ensures |w| >= |start|
  {
    if index == 0 then start
    else
      var before := Walked(start, index - 1, m);
      var c := Visit(before[index - 1], m);
      before[index - 1 := c.seed] + c.splitRanges
  }

  /** The walked list, in closed form: the visited ranges in their places,
      the ranges not visited yet, then every piece pushed so far. */
  lemma {:induction false} WalkedClosedForm(start: seq<Range>, index: int, m: MapLine)
    requires 0 <= index <= |start|
    ensures Walked(start, index, m) ==
      Updated(start[..index], m) + start[index..] + Appended(start[..index], m)
  {
    if index == 0 {
      assert start[..0] == [] && start[0..] == start;
    } else {
      var i := index - 1;
      var head, tail := Updated(start[..i], m), Appended(start[..i], m);
      var c := Visit(start[i], m);
      WalkedClosedForm(start, i, m);
      assert Walked(start, i, m)[i] == start[i];
      ReplaceVisited(head, start[i..], tail, c.seed, c.splitRanges);
      PassStep(start, i, m);
      assert start[i..][1..] == start[i + 1..];
    }
  }

  /** The two sequences describing a line pass grow by one visit. */
  lemma PassStep(start: seq<Range>, i: int, m: MapLine)
    requires 0 <= i < |start|
    ensures Updated(start[..i + 1], m) == Updated(start[..i], m) + [Visit(start[i], m).seed]
    ensures Appended(start[..i + 1], m) == Appended(start[..i], m) + Visit(start[i], m).splitRanges
  {
    assert start[..i + 1][..i] == start[..i];
  }

  /** Replacing the visited range inside the list that is being walked. */
  lemma ReplaceVisited(head: seq<Range>, rest: seq<Range>, tail: seq<Range>, x: Range, pieces: seq<Range>)
    requires |rest| >= 1
    ensures (head + rest + tail)[|head| := x] + pieces == (head + [x]) + rest[1..] + (tail + pieces)
  {
  }

  /** Walking every original range performs the line pass. */
  lemma WalkIsLinePass(start: seq<Range>, m: MapLine)
    ensures Walked(start, |start|, m) == LinePass(start, m)
  {
    WalkedClosedForm(start, |start|, m);
    assert start[..|start|] == start;
  }

  /** Every piece pushed while walking is settled. */
  lemma WalkedTailSettled(start: seq<Range>, index: int, m: MapLine)
    requires 0 <= index <= |start| && AllWellFormed(start) && LineWellFormed(m)
    ensures forall i :: |start| <= i < |Walked(start, index, m)| ==> Settled(Walked(start, index, m)[i], m)
  {
    if index > 0 {
      var before := Walked(start, index - 1, m);
      WalkedTailSettled(start, index - 1, m);
      WalkedClosedForm(start, index - 1, m);
      assert before[index - 1] == start[index - 1];
      PushedSettled(start[index - 1], m);
      SettledAfterVisit(before, index - 1, |start|, Visit(before[index - 1], m), m);
    }
  }

  /** Visiting a well-formed range settles every piece pushed for it. */
  lemma PushedSettled(r: Range, m: MapLine)
    requires WellFormed(r) && LineWellFormed(m)
    ensures forall j :: 0 <= j < |Visit(r, m).splitRanges| ==> Settled(Visit(r, m).splitRanges[j], m)
  {
    var c := Visit(r, m);
    VisitPreserves(r, m);
    assert forall j :: 0 <= j < |c.splitRanges| ==> c.splitRanges[j] == Pieces(c)[j + 1];
  }

  /** The pushed pieces join the settled tail of the walked list. */
  lemma SettledAfterVisit(before: seq<Range>, index: int, count: int, c: Conversion, m: MapLine)
    requires 0 <= index < count <= |before|
    requires forall i :: count <= i < |before| ==> Settled(before[i], m)
    requires forall j :: 0 <= j < |c.splitRanges| ==> Settled(c.splitRanges[j], m)
    ensures var after := before[index := c.seed] + c.splitRanges;
      forall i :: count <= i < |after| ==> Settled(after[i], m)
  {
  }

  /** A settled range is left as it is by a visit. */
  lemma SettledUnchanged(r: Range, m: MapLine)
    requires Settled(r, m)
    ensures Visit(r, m) == Conversion(r, [])
  {
  }

  /** The first stretch of the inner loop of `translateSeeds`: the ranges
      that were in the list when the line was reached. */
  method VisitOriginals(seeds: seq<SeedRange>, mapLine: MapLine) returns (result: seq<SeedRange>, ghost vs: seq<Range>)
    requires Distinct(seeds) && AllWellFormed(Values(seeds)) && LineWellFormed(mapLine)
    modifies set s | s in seeds
    ensures |seeds| <= |result| && Distinct(result)
    ensures forall i :: 0 <= i < |seeds| ==> result[i] == seeds[i]
    ensures forall i :: |seeds| <= i < |result| ==> fresh(result[i])
    ensures |vs| == |result| && forall i :: 0 <= i < |result| ==> result[i].Value() == vs[i]
    ensures vs == LinePass(old(Values(seeds)), mapLine)
    ensures forall i :: |seeds| <= i < |result| ==> Settled(vs[i], mapLine)
  {
    ghost var start := Values(seeds);
    var count := |seeds|;
    result := seeds;
    vs := start;
    var index := 0;
    while index < count
      invariant count <= |result| && Distinct(result)
      invariant forall i :: 0 <= i < count ==> result[i] == seeds[i]
      invariant forall i :: count <= i < |result| ==> fresh(result[i])
      invariant 0 <= index <= count
      invariant |vs| == |result| && forall i :: 0 <= i < |result| ==> result[i].Value() == vs[i]
      invariant vs == Walked(start, index, mapLine)
    {
      ghost var walked := result;
      assert result[index] in seeds;
      result, vs := VisitAt(result, index, mapLine, vs);
      assert forall i :: count <= i < |walked| ==> fresh(result[i]);
      index := index + 1;
    }
    WalkIsLinePass(start, mapLine);
    WalkedTailSettled(start, count, mapLine);
  }

  /** The rest of the inner loop: the `for…of` goes on over the pieces pushed
      meanwhile, each of which is already settled and so left alone. */
  method VisitPushed(seeds: seq<SeedRange>, count: int, mapLine: MapLine, ghost vs: seq<Range>)
    returns (result: seq<SeedRange>)
    requires 0 <= count <= |seeds| && Distinct(seeds)
    requires |vs| == |seeds| && forall i :: 0 <= i < |seeds| ==> seeds[i].Value() == vs[i]
    requires forall i :: count <= i < |seeds| ==> Settled(vs[i], mapLine)
    modifies set i | count <= i < |seeds| :: seeds[i]
    ensures result == seeds
    ensures forall i :: 0 <= i < |seeds| ==> seeds[i].Value() == vs[i]
  {
    result := seeds;
    var index := count;
    while index < |result|
      invariant count <= index <= |result| && result == seeds
      invariant forall i :: 0 <= i < |result| ==> result[i].Value() == vs[i]
      decreases |result| - index
    {
      SettledUnchanged(vs[index], mapLine);
      ghost var us;
      result, us := VisitAt(result, index, mapLine, vs);
      assert us == vs;
      assert result[..|seeds|] == seeds;
      index := index + 1;
    }
  }

  /** The inner loop of `translateSeeds` for one map line. The list grows
      while it is walked; the pieces pushed onto it are visited but left
      alone. */
  method ApplyLine(seeds: seq<SeedRange>, mapLine: MapLine) returns (result: seq<SeedRange>)
    requires Distinct(seeds) && AllWellFormed(Values(seeds)) && LineWellFormed(mapLine)
    modifies set s | s in seeds
    ensures Distinct(result) && |seeds| <= |result|
    ensures forall i :: 0 <= i < |seeds| ==> result[i] == seeds[i]
    ensures forall i :: |seeds| <= i < |result| ==> fresh(result[i])
    ensures Values(result) == LinePass(old(Values(seeds)), mapLine)
  {
    ghost var vs;
    result, vs := VisitOriginals(seeds, mapLine);
    result := VisitPushed(result, |seeds|, mapLine, vs);
  }

  /** `translateSeeds`: clears the flags, then applies the block's lines one
      after the other to the growing list. */
  method TranslateSeeds(seeds: seq<SeedRange>, block: seq<MapLine>) returns (result: seq<SeedRange>)
    requires Distinct(seeds) && AllWellFormed(Values(seeds)) && AllLinesWellFormed(block)
    modifies set s | s in seeds
    ensures Distinct(result) && |seeds| <= |result|
    ensures forall i :: 0 <= i < |seeds| ==> result[i] == seeds[i]
    ensures forall i :: |seeds| <= i < |result| ==> fresh(result[i])
    ensures Values(result) == Translate(old(Values(seeds)), block)
  {
    ResetMovedFlag(seeds);
    result := ApplyLines(seeds, block);
  }

  /** The outer loop of `translateSeeds`, over the lines of the block. */
  method ApplyLines(seeds: seq<SeedRange>, block: seq<MapLine>) returns (result: seq<SeedRange>)
    requires Distinct(seeds) && AllWellFormed(Values(seeds)) && AllLinesWellFormed(block)
    modifies set s | s in seeds
    ensures Distinct(result) && |seeds| <= |result|
    ensures forall i :: 0 <= i < |seeds| ==> result[i] == seeds[i]
    ensures forall i :: |seeds| <= i < |result| ==> fresh(result[i])
    ensures Values(result) == BlockPass(old(Values(seeds)), block)
  {
    ghost var start := Values(seeds);
    result := seeds;
    assert block[..0] == [];
    for t := 0 to |block|
      invariant Distinct(result) && |seeds| <= |result|
      invariant forall i :: 0 <= i < |seeds| ==> result[i] == seeds[i]
      invariant forall i :: |seeds| <= i < |result| ==> fresh(result[i])
      invariant Values(result) == BlockPass(start, block[..t])
      invariant AllWellFormed(Values(result))
    {
      assert block[..t + 1][..t] == block[..t];
      ghost var current := Values(result);
      result := ApplyLine(result, block[t]);
      LinePassPreserves(current, block[t]);
    }
    assert block[..|block|] == block;
  }

  function Starts(vs: seq<Range>): (ss: seq<int>)
    ensures |ss| == |vs| && forall i :: 0 <= i < |vs| ==> ss[i] == vs[i].start
  {
    if vs == [] then [] else Starts(vs[..|vs| - 1]) + [vs[|vs| - 1].start]
  }

  /** `findLowestLocation`: the least `start` over all ranges. */
  function FindLowestLocation(seeds: seq<SeedRange>): (r: Extended)
    reads set s | s in seeds
    ensures r == Infinity <==> seeds == []
    ensures r.Finite? ==> (forall i :: 0 <= i < |seeds| ==> r.value <= seeds[i].start) &&
                          exists i :: 0 <= i < |seeds| && seeds[i].start == r.value
  {
    Lowest(Starts(Values(seeds)))
  }

  /** The ranges made from the "start length" pairs. */
  function Initial(pairs: seq<(int, int)>): (vs: seq<Range>)
    ensures |vs| == |pairs| &&
      forall i :: 0 <= i < |pairs| ==> vs[i] == Range(pairs[i].0, pairs[i].0 + pairs[i].1 - 1, pairs[i].1, false)
  {
    if pairs == [] then []
    else
      var p := pairs[|pairs| - 1];
      Initial(pairs[..|pairs| - 1]) + [Range(p.0, p.0 + p.1 - 1, p.1, false)]
  }

  /** The ranges after every block has been applied. */
  function Solve(vs: seq<Range>, blocks: seq<seq<MapLine>>): seq<Range>
  {
    if blocks == [] then vs else Translate(Solve(vs, blocks[..|blocks| - 1]), blocks[|blocks| - 1])
  }

  /** Every block keeps the number of seeds covered by the ranges. */
  lemma {:induction false} SolvePreservesSeedCount(vs: seq<Range>, blocks: seq<seq<MapLine>>)
    requires AllWellFormed(vs)
    requires forall b :: 0 <= b < |blocks| ==> AllLinesWellFormed(blocks[b])
    ensures TotalLength(Solve(vs, blocks)) == TotalLength(vs) && AllWellFormed(Solve(vs, blocks))
  {
    if blocks != [] {
      SolvePreservesSeedCount(vs, blocks[..|blocks| - 1]);
      TranslatePreservesSeedCount(Solve(vs, blocks[..|blocks| - 1]), blocks[|blocks| - 1]);
    }
  }

  /** `findSolution` over the seed pairs and the blocks of map lines: the
      lowest start of any range once every block has been applied. */
  method FindSolution(pairs: seq<(int, int)>, blocks: seq<seq<MapLine>>) returns (r: Extended)
    requires forall i :: 0 <= i < |pairs| ==> pairs[i].1 >= 1
    requires forall b :: 0 <= b < |blocks| ==> AllLinesWellFormed(blocks[b])
    ensures r == Lowest(Starts(Solve(Initial(pairs), blocks)))
  {
    var seeds := CreateSeeds(pairs);
    assert Values(seeds) == Initial(pairs);
    seeds := TranslateBlocks(seeds, blocks);
    r := FindLowestLocation(seeds);
  }

  /** The loop of `findSolution` over the blocks. */
  method TranslateBlocks(seeds: seq<SeedRange>, blocks: seq<seq<MapLine>>) returns (result: seq<SeedRange>)
    requires Distinct(seeds) && AllWellFormed(Values(seeds))
    requires forall b :: 0 <= b < |blocks| ==> AllLinesWellFormed(blocks[b])
    modifies set s | s in seeds
    ensures Values(result) == Solve(old(Values(seeds)), blocks)
  {
    ghost var start := Values(seeds);
    result := seeds;
    assert blocks[..0] == [];
    for index := 0 to |blocks|
      invariant Distinct(result) && |seeds| <= |result|
      invariant forall i :: 0 <= i < |seeds| ==> result[i] == seeds[i]
      invariant forall i :: |seeds| <= i < |result| ==> fresh(result[i])
      invariant Values(result) == Solve(start, blocks[..index])
      invariant AllWellFormed(Values(result))
    {
      assert blocks[..index + 1][..index] == blocks[..index];
      TranslatePreservesSeedCount(Values(result), blocks[index]);
      result := TranslateSeeds(result, blocks[index]);
    }
    assert blocks[..|blocks|] == blocks;
  }
}
