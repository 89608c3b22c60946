/** Day 5: closed ranges of seed positions that are split and shifted by the
    lines of an almanac map. A `SeedRange` is an object whose fields are
    overwritten in place; `Range` is a snapshot of its fields, and the pure
    functions over snapshots are the specification the methods are proved
    against. */
module SeedRanges {
  import opened Common

  /** The fields of a seed range at one moment. */
  datatype Range = Range(start: int, end: int, length: int, moved: bool)

  /** One line of a map: positions `sourceStart..sourceEnd` move to
      `destinationStart..`. */
  datatype MapLine = MapLine(destinationStart: int, length: int, sourceEnd: int, sourceStart: int)

  class SeedRange {
    var start: int
    var end: int
    var length: int
    var moved: bool

    function Value(): Range
      reads this
    {
      Range(start, end, length, moved)
    }

    /** `createSeedRange`: the first position and the number of positions. */
    constructor (start: int, length: int)
      ensures Value() == Range(start, start + length - 1, length, false)
    {
      this.start := start;
      this.end := start + length - 1;
      this.length := length;
      this.moved := false;
    }
  }

  /** The result of converting one range: the range passed in plus the pieces
      split off from it. */
  datatype SeedConversionResult = SeedConversionResult(seed: SeedRange, splitRanges: seq<SeedRange>)

  /** A range whose fields agree and which holds at least one position. */
  predicate WellFormed(r: Range)
  {
    r.length >= 1 && r.end == r.start + r.length - 1
  }

  predicate LineWellFormed(m: MapLine)
  {
    m.length >= 1 && m.sourceEnd == m.sourceStart + m.length - 1
  }

  predicate Contains(r: Range, p: int)
  {
    r.start <= p <= r.end
  }

  predicate InSource(m: MapLine, p: int)
  {
    m.sourceStart <= p <= m.sourceEnd
  }

  /** `createMapLine` over the three numbers of a line, destination first. */
  function CreateMapLine(destination: int, source: int, length: int): (m: MapLine)
    ensures m.destinationStart == destination && m.sourceStart == source && m.length == length
    ensures length >= 1 ==> LineWellFormed(m)
    ensures forall p :: InSource(m, p) <==> source <= p < source + length
  {
    MapLine(destination, length, source + length - 1, source)
  }

  /** `areSeedAndMapLineRangesOverlapping`. */
  function Overlapping(r: Range, m: MapLine): (b: bool)
    ensures WellFormed(r) && LineWellFormed(m) ==>
      (b <==> exists p :: Contains(r, p) && InSource(m, p))
  {
    var b := r.end >= m.sourceStart && r.start <= m.sourceEnd;
    assert WellFormed(r) && LineWellFormed(m) && b ==>
      Contains(r, Max(r.start, m.sourceStart)) && InSource(m, Max(r.start, m.sourceStart));
    b
  }

  /** What `convertSeedRange` leaves in the range. */
  function Convert(r: Range, m: MapLine): Range
  {
    var start := m.destinationStart + Abs(m.sourceStart - r.start);
    Range(start, start + r.length - 1, r.length, true)
  }

  /** Which part `splitSeedRange` keeps in the range it was given. */
  datatype Keep = Before | After

  /** What `splitSeedRange` leaves: the updated original and the new piece. */
  datatype Split = Split(kept: Range, piece: Range)

  function SplitAt(r: Range, cutoff: int, keep: Keep): Split
  {
    match keep
    case Before =>
      Split(r.(end := cutoff - 1, length := cutoff - 1 - r.start + 1),
            Range(cutoff, r.end, r.end - cutoff + 1, false))
    case After =>
      Split(r.(start := cutoff + 1, length := r.end - (cutoff + 1) + 1),
            Range(r.start, cutoff, cutoff - r.start + 1, false))
  }

  /** The snapshot of `convertSeedRangeOverlappingWithMapLine`'s result. */
  datatype Conversion = Conversion(seed: Range, splitRanges: seq<Range>)

  function ConvertOverlapping(r: Range, m: MapLine): Conversion
  {
    var overlapStart := Max(r.start, m.sourceStart);
    var overlapEnd := Min(r.end, m.sourceEnd);
    if overlapStart == r.start && overlapEnd == r.end then
      Conversion(Convert(r, m), [])
    else if overlapStart > r.start && overlapEnd == r.end then
      var s := SplitAt(r, overlapStart, Before);
      Conversion(s.kept, [Convert(s.piece, m)])
    else if overlapStart == r.start && overlapEnd < r.end then
      var s := SplitAt(r, overlapEnd, After);
      Conversion(s.kept, [Convert(s.piece, m)])
    else
      var before := SplitAt(r, overlapStart - 1, After);
      var after := SplitAt(before.kept, overlapEnd + 1, Before);
      Conversion(Convert(after.kept, m), [before.piece, after.piece])
  }

  /** The seed followed by its split ranges. */
  function Pieces(c: Conversion): seq<Range>
  {
    [c.seed] + c.splitRanges
  }

  function TotalLength(rs: seq<Range>): int
  {
    if rs == [] then 0 else TotalLength(rs[..|rs| - 1]) + rs[|rs| - 1].length
  }

  lemma TotalLengthAppend(a: seq<Range>, b: seq<Range>)
    ensures TotalLength(a + b) == TotalLength(a) + TotalLength(b)
  {
    if b != [] {
      assert (a + b)[..|a + b| - 1] == a + b[..|b| - 1];
      TotalLengthAppend(a, b[..|b| - 1]);
    } else {
      assert a + b == a;
    }
  }

  /** `convertSeedRange` keeps the length and shifts the start by the map
      line's offset when the range starts inside the source. */
  lemma ConvertShifts(r: Range, m: MapLine)
    requires WellFormed(r) && r.start >= m.sourceStart
    ensures var c := Convert(r, m);
      WellFormed(c) && c.moved && c.length == r.length &&
      c.start == m.destinationStart + (r.start - m.sourceStart)
  {
  }

  /** `splitSeedRange` at a cutoff strictly inside the range gives two
      adjacent well-formed ranges whose lengths add up; the new piece is
      unmoved and the original keeps its flag. */
  lemma SplitPartitions(r: Range, cutoff: int, keep: Keep)
    requires WellFormed(r)
    requires keep == Before ==> r.start < cutoff <= r.end
    requires keep == After ==> r.start <= cutoff < r.end
    ensures var s := SplitAt(r, cutoff, keep);
      WellFormed(s.kept) && WellFormed(s.piece) && !s.piece.moved &&
      s.kept.moved == r.moved &&
      s.kept.length + s.piece.length == r.length &&
      (keep == Before ==> s.kept.start == r.start && s.kept.end + 1 == s.piece.start && s.piece.end == r.end) &&
      (keep == After ==> s.piece.start == r.start && s.piece.end + 1 == s.kept.start && s.kept.end == r.end)
  {
  }

  /** When the map line covers the whole range, the range is shifted as a
      whole and nothing is split off. */
  lemma CoverShiftsWhole(r: Range, m: MapLine)
    requires WellFormed(r) && m.sourceStart <= r.start && r.end <= m.sourceEnd
    ensures var c := ConvertOverlapping(r, m);
      c.splitRanges == [] && c.seed.moved && c.seed.length == r.length &&
      c.seed.start == m.destinationStart + (r.start - m.sourceStart)
  {
  }

  /** The one moved piece: it is the overlap, shifted. */
  predicate IsShiftedOverlap(p: Range, r: Range, m: MapLine)
  {
    var overlapStart := Max(r.start, m.sourceStart);
    var overlapEnd := Min(r.end, m.sourceEnd);
    p.moved && WellFormed(p) &&
    p.start == m.destinationStart + (overlapStart - m.sourceStart) &&
    p.length == overlapEnd - overlapStart + 1
  }

  /** An unmoved piece keeps positions of the original that the map line does
      not cover. */
  predicate IsUntouchedPart(p: Range, r: Range, m: MapLine)
  {
    !p.moved && WellFormed(p) && r.start <= p.start && p.end <= r.end &&
    (p.end < m.sourceStart || m.sourceEnd < p.start)
  }

  /** Given overlap, the pieces keep the total length; exactly one piece is
      moved and it is the shifted overlap; every other piece is an untouched
      part of the original lying outside the source range; and a position of
      the original outside the source range is in one of those parts. */
  lemma ConvertOverlappingPartitions(r: Range, m: MapLine)
    requires WellFormed(r) && !r.moved && LineWellFormed(m) && Overlapping(r, m)
    ensures var ps := Pieces(ConvertOverlapping(r, m));
      TotalLength(ps) == r.length &&
      (forall i :: 0 <= i < |ps| ==> IsShiftedOverlap(ps[i], r, m) || IsUntouchedPart(ps[i], r, m)) &&
      (exists i :: 0 <= i < |ps| && ps[i].moved) &&
      (forall i, j :: 0 <= i < j < |ps| && ps[i].moved ==> !ps[j].moved) &&
      (forall p :: Contains(r, p) && !InSource(m, p) ==>
        exists i :: 0 <= i < |ps| && !ps[i].moved && Contains(ps[i], p))
  {
    var c := ConvertOverlapping(r, m);
    var ps := Pieces(c);
    var overlapStart := Max(r.start, m.sourceStart);
    var overlapEnd := Min(r.end, m.sourceEnd);
    if overlapStart == r.start && overlapEnd == r.end {
      assert ps == [c.seed];
    } else if overlapStart > r.start && overlapEnd == r.end {
      assert ps == [c.seed, c.splitRanges[0]];
      assert TotalLength(ps) == TotalLength([c.seed]) + c.splitRanges[0].length;
    } else if overlapStart == r.start && overlapEnd < r.end {
      assert ps == [c.seed, c.splitRanges[0]];
      assert TotalLength(ps) == TotalLength([c.seed]) + c.splitRanges[0].length;
    } else {
      assert ps == [c.seed, c.splitRanges[0], c.splitRanges[1]];
      assert ps[..|ps| - 1] == [c.seed, c.splitRanges[0]];
      assert TotalLength(ps) == TotalLength([c.seed, c.splitRanges[0]]) + c.splitRanges[1].length;
      assert TotalLength([c.seed, c.splitRanges[0]]) == TotalLength([c.seed]) + c.splitRanges[0].length;
    }
  }

  /** After conversion, no unmoved piece overlaps the map line any more, so
      a second pass over the same line leaves every piece alone. */
  lemma ConvertOverlappingSettles(r: Range, m: MapLine)
    requires WellFormed(r) && !r.moved && LineWellFormed(m) && Overlapping(r, m)
    ensures var ps := Pieces(ConvertOverlapping(r, m));
      forall i :: 0 <= i < |ps| ==> WellFormed(ps[i]) && (ps[i].moved || !Overlapping(ps[i], m))
  {
    ConvertOverlappingPartitions(r, m);
  }

  /** `convertSeedRange`, in place. */
  method ConvertSeedRange(seed: SeedRange, mapLine: MapLine) returns (r: SeedRange)
    modifies seed
    ensures r == seed && seed.Value() == Convert(old(seed.Value()), mapLine)
  {
    seed.start := mapLine.destinationStart + Abs(mapLine.sourceStart - seed.start);
    seed.end := seed.start + seed.length - 1;
    seed.moved := true;
    return seed;
  }

  /** `splitSeedRange`: shortens the range in place and returns the new piece. */
  method SplitSeedRange(seedRange: SeedRange, cutoffPosition: int, keep: Keep) returns (newSeed: SeedRange)
    modifies seedRange
    ensures fresh(newSeed)
    ensures seedRange.Value() == SplitAt(old(seedRange.Value()), cutoffPosition, keep).kept
    ensures newSeed.Value() == SplitAt(old(seedRange.Value()), cutoffPosition, keep).piece
  {
    if keep == Before {
      newSeed := new SeedRange(cutoffPosition, seedRange.end - cutoffPosition + 1);
      seedRange.end := cutoffPosition - 1;
      seedRange.length := seedRange.end - seedRange.start + 1;
    } else {
      newSeed := new SeedRange(seedRange.start, cutoffPosition - seedRange.start + 1);
      seedRange.start := cutoffPosition + 1;
      seedRange.length := seedRange.end - seedRange.start + 1;
    }
  }

  /** The snapshots of a list of ranges. */
  function Values(rs: seq<SeedRange>): (vs: seq<Range>)
    reads set r | r in rs
    ensures |vs| == |rs| && forall i :: 0 <= i < |rs| ==> vs[i] == rs[i].Value()
  {
    if rs == [] then [] else Values(rs[..|rs| - 1]) + [rs[|rs| - 1].Value()]
  }

  /** `convertSeedRangeOverlappingWithMapLine`: updates the range in place and
      returns it with the freshly made pieces. */
  method ConvertSeedRangeOverlappingWithMapLine(seedRange: SeedRange, mapLine: MapLine)
    returns (result: SeedConversionResult)
    modifies seedRange
    ensures result.seed == seedRange
    ensures forall i :: 0 <= i < |result.splitRanges| ==> fresh(result.splitRanges[i])
    ensures forall i, j :: 0 <= i < j < |result.splitRanges| ==> result.splitRanges[i] != result.splitRanges[j]
    ensures Conversion(seedRange.Value(), Values(result.splitRanges)) == ConvertOverlapping(old(seedRange.Value()), mapLine)
  {
    var overlapStart := Max(seedRange.start, mapLine.sourceStart);
    var overlapEnd := Min(seedRange.end, mapLine.sourceEnd);
    if overlapStart == seedRange.start && overlapEnd == seedRange.end {
      var converted := ConvertSeedRange(seedRange, mapLine);
      return SeedConversionResult(converted, []);
    }
    if overlapStart > seedRange.start && overlapEnd == seedRange.end {
      var piece := SplitSeedRange(seedRange, overlapStart, Before);
      var newRange := ConvertSeedRange(piece, mapLine);
      return SeedConversionResult(seedRange, [newRange]);
    }
    if overlapStart == seedRange.start && overlapEnd < seedRange.end {
      var piece := SplitSeedRange(seedRange, overlapEnd, After);
      var newSeed := ConvertSeedRange(piece, mapLine);
      return SeedConversionResult(seedRange, [newSeed]);
    }
    var beforeSeed := SplitSeedRange(seedRange, overlapStart - 1, After);
    var afterSeed := SplitSeedRange(seedRange, overlapEnd + 1, Before);
    var _ := ConvertSeedRange(seedRange, mapLine);
    return SeedConversionResult(seedRange, [beforeSeed, afterSeed]);
  }
}
