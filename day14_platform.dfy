/** Day 14, `platform.ts`: a platform of rounded rocks `O`, cube rocks `#`
    and empty space `.`, stored row by row. Tilting it north lets every
    rounded rock roll up its column until it meets a cube rock; a row of cube
    rocks is put in front of the grid so that every column has one to stop at.
    The load of a rock is the number of rows from it to the south edge. */
module Platforms {
  import opened Common
  import Grids

  const CubeRock := '#'
  const EmptySpace := '.'
  const RoundedRock := 'O'

  /* ---------------------------------------------------------------------- */
  /* The padded grid                                                        */

  /** `addCubeRockEdge`: one row of cube rocks, `columnCount` wide, in front
      of the grid. */
  function WithCubeEdge(grid: string, columnCount: nat): (padded: string)
    ensures |padded| == columnCount + |grid|
    ensures forall k :: 0 <= k < columnCount ==> padded[k] == CubeRock
    ensures padded[columnCount..] == grid
  {
    seq(columnCount, _ => CubeRock) + grid
  }

  /** A padded grid of width `w`: its first row is all cube rocks. */
  predicate HasCubeEdge(s: seq<char>, w: int)
  {
    0 < w <= |s| && forall k :: 0 <= k < w ==> s[k] == CubeRock
  }

  /* ---------------------------------------------------------------------- */
  /* Columns                                                                */

  /** One row up keeps the column. */
  lemma ColumnUp(i: int, w: int)
    requires w > 0 && i >= w
    ensures (i - w) % w == i % w
  {
    var q, r := i / w, i % w;
    assert (q - 1) * w + r == i - w;
    DivModUnique(q - 1, r, w);
  }

  /** An earlier index in the same column is at least a row earlier. */
  lemma SameColumnAbove(j: int, i: int, w: int)
    requires w > 0 && 0 <= j < i && j % w == i % w
    ensures j <= i - w
  {
    var qj, qi, r := j / w, i / w, i % w;
    assert j == qj * w + r && i == qi * w + r;
    MulLe(qi, qj, w);
    MulLess(qj, qi, w);
  }

  /** The nearest cube rock above index `i` in its column, or -1 when there
      is none. */
  function CubeAbove(s: seq<char>, w: int, i: int): (c: int)
    requires w > 0 && 0 <= i <= |s|
    ensures -1 <= c < i
    decreases i
  {
    if i < w then -1
    else if s[i - w] == CubeRock then i - w
    else CubeAbove(s, w, i - w)
  }

  /** How many rows below that cube rock index `i` lies. */
  function Depth(s: seq<char>, w: int, i: int): nat
    requires w > 0 && 0 <= i <= |s|
    decreases i
  {
    if i < w then 0
    else if s[i - w] == CubeRock then 1
    else 1 + Depth(s, w, i - w)
  }

  /** The number of cells from `p` down its column before the next cube rock
      or the south edge. */
  function FreeRun(s: seq<char>, w: int, p: int): nat
    requires w > 0
    decreases |s| - p
  {
    if p < 0 || p >= |s| || s[p] == CubeRock then 0 else 1 + FreeRun(s, w, p + w)
  }

  /** The test `moveRocksNorth` hands to `findLastIndex` for the rock at
      `index`: a cube rock, earlier, in the same column. */
  predicate CubeInColumnAbove(s: seq<char>, w: int, index: int, j: int)
    requires w > 0 && 0 <= j < |s|
  {
    s[j] == CubeRock && j < index && j % w == index % w
  }

  /** `CubeAbove` is the greatest index passing that test, or -1 if none
      does. */
  lemma {:induction false} CubeAboveIsNearest(s: seq<char>, w: int, i: int)
    requires w > 0 && 0 <= i <= |s|
    ensures var c := CubeAbove(s, w, i);
            (c == -1 || CubeInColumnAbove(s, w, i, c))
            && forall j :: c < j < |s| && 0 <= j ==> !CubeInColumnAbove(s, w, i, j)
    decreases i
  {
    var c := CubeAbove(s, w, i);
    if i < w {
      forall j | c < j < |s| && 0 <= j
        ensures !CubeInColumnAbove(s, w, i, j)
      {
        if j < i {
          DivModUnique(0, j, w);
          DivModUnique(0, i, w);
        }
      }
    } else if s[i - w] == CubeRock {
      ColumnUp(i, w);
      forall j | c < j < |s| && 0 <= j
        ensures !CubeInColumnAbove(s, w, i, j)
      {
        if j < i && j % w == i % w {
          SameColumnAbove(j, i, w);
        }
      }
    } else {
      CubeAboveIsNearest(s, w, i - w);
      ColumnUp(i, w);
      forall j | c < j < |s| && 0 <= j
        ensures !CubeInColumnAbove(s, w, i, j)
      {
        if j < i && j % w == i % w {
          SameColumnAbove(j, i, w);
          if j < i - w {
            assert !CubeInColumnAbove(s, w, i - w, j);
          }
        }
      }
    }
  }

  /** Only the cube rocks matter to `CubeAbove`. */
  lemma {:induction false} CubeAboveSameCubes(s: seq<char>, t: seq<char>, w: int, i: int)
    requires w > 0 && 0 <= i <= |s| == |t|
    requires forall k :: 0 <= k < |s| ==> (s[k] == CubeRock <==> t[k] == CubeRock)
    ensures CubeAbove(s, w, i) == CubeAbove(t, w, i)
    decreases i
  {
    if i >= w {
      CubeAboveSameCubes(s, t, w, i - w);
    }
  }

  /** Below the edge row every cell has a cube rock above it. */
  lemma {:induction false} EdgeStopsEveryColumn(s: seq<char>, w: int, i: int)
    requires HasCubeEdge(s, w) && w <= i <= |s|
    ensures 0 <= CubeAbove(s, w, i) && s[CubeAbove(s, w, i)] == CubeRock
    decreases i
  {
    if s[i - w] != CubeRock {
      EdgeStopsEveryColumn(s, w, i - w);
    }
  }

  /** A cell that is not a cube rock lies `Depth` rows below its cube rock,
      and the free run below that cube rock passes through it. */
  lemma {:induction false} DepthBelowCube(s: seq<char>, w: int, i: int)
    requires w > 0 && 0 <= i < |s| && s[i] != CubeRock && CubeAbove(s, w, i) >= 0
    ensures var c := CubeAbove(s, w, i);
            Depth(s, w, i) >= 1 && i == c + Depth(s, w, i) * w
            && FreeRun(s, w, c + w) == Depth(s, w, i) - 1 + FreeRun(s, w, i)
    decreases i
  {
    if s[i - w] != CubeRock {
      var d := Depth(s, w, i - w);
      DepthBelowCube(s, w, i - w);
      assert (d + 1) * w == d * w + w;
      assert FreeRun(s, w, i - w) == 1 + FreeRun(s, w, i);
    }
  }

  /** The `j`-th cell of the free run below a cube rock is on the grid, is no
      cube rock, and has that cube rock above it at depth `j`. */
  lemma {:induction false} BelowCube(s: seq<char>, w: int, c: int, j: int)
    requires w > 0 && 0 <= c < |s| && s[c] == CubeRock
    requires 1 <= j <= FreeRun(s, w, c + w)
    ensures c + j * w < |s| && s[c + j * w] != CubeRock
    ensures CubeAbove(s, w, c + j * w) == c && Depth(s, w, c + j * w) == j
    ensures FreeRun(s, w, c + j * w) == FreeRun(s, w, c + w) - (j - 1)
    decreases j
  {
    if j > 1 {
      BelowCube(s, w, c, j - 1);
      var q := c + (j - 1) * w;
      assert c + j * w == q + w;
      assert FreeRun(s, w, q) == 1 + FreeRun(s, w, q + w);
    }
  }

  /* ---------------------------------------------------------------------- */
  /* Counting through injections                                            */

  /** The integers from 1 to `n`. */
  function UpTo(n: int): set<int>
    decreases n
  {
    if n <= 0 then {} else UpTo(n - 1) + {n}
  }

  lemma {:induction false} UpToSize(n: nat)
    ensures |UpTo(n)| == n
    ensures forall j :: j in UpTo(n) <==> 1 <= j <= n
  {
    if n > 0 {
      UpToSize(n - 1);
    }
  }

  /** A map that is one-to-one on `a` and sends it into `b` shows that `a` is
      no larger than `b`. */
  lemma {:induction false} InjectionSize(a: set<int>, b: set<int>, f: int -> int)
    requires forall x :: x in a ==> f(x) in b
    requires forall x, y :: x in a && y in a && f(x) == f(y) ==> x == y
    ensures |a| <= |b|
    decreases |a|
  {
    NonEmptySet(a);
    if a != {} {
      var x :| x in a;
      InjectionSize(a - {x}, b - {f(x)}, f);
    }
  }

  /* ---------------------------------------------------------------------- */
  /* Which cube rock each rounded rock rolls against                        */

  /** The rounded rocks among the first `n` cells whose nearest cube rock
      above is `c`. */
  function AttributedBefore(s: seq<char>, w: int, c: int, n: int): set<int>
    requires w > 0 && n <= |s|
  {
    set i | 0 <= i < n && s[i] == RoundedRock && CubeAbove(s, w, i) == c
  }

  /** The cube rocks that some rounded rock among the first `n` cells rolls
      against. */
  function CubesBefore(s: seq<char>, w: int, n: int): set<int>
    requires w > 0 && n <= |s|
  {
    set i | 0 <= i < n && s[i] == RoundedRock :: CubeAbove(s, w, i)
  }

  /** The `cubes` tally `moveRocksNorth` has built after visiting the first
      `n` cells: for each cube rock met, how many rounded rocks roll against it. */
  function Counts(s: seq<char>, w: int, n: int): map<int, nat>
    requires w > 0 && n <= |s|
  {
    map c | c in CubesBefore(s, w, n) :: |AttributedBefore(s, w, c, n)|
  }

  /** Visiting one more cell adds one to the tally of its cube rock when it
      holds a rounded rock, starting from 0 for a cube rock not met yet. */
  lemma CountsStep(s: seq<char>, w: int, n: int)
    requires w > 0 && 0 <= n < |s|
    ensures s[n] != RoundedRock ==> Counts(s, w, n + 1) == Counts(s, w, n)
    ensures s[n] == RoundedRock ==>
              var c, m := CubeAbove(s, w, n), Counts(s, w, n);
              Counts(s, w, n + 1) == m[c := (if c in m then m[c] else 0) + 1]
  {
    if s[n] == RoundedRock {
      CountsStepRock(s, w, n);
    } else {
      CountsStepOther(s, w, n);
    }
  }

  lemma CountsStepRock(s: seq<char>, w: int, n: int)
    requires w > 0 && 0 <= n < |s| && s[n] == RoundedRock
    ensures var c, m := CubeAbove(s, w, n), Counts(s, w, n);
            Counts(s, w, n + 1) == m[c := (if c in m then m[c] else 0) + 1]
  {
    var c, m := CubeAbove(s, w, n), Counts(s, w, n);
    var m1 := Counts(s, w, n + 1);
    var m2 := m[c := (if c in m then m[c] else 0) + 1];
    CubesStep(s, w, n);
    assert m1.Keys == m2.Keys;
    forall d | d in m1
      ensures m1[d] == m2[d]
    {
      AttributedStep(s, w, d, n);
      if d == c && c !in m {
        assert AttributedBefore(s, w, c, n) == {};
      }
    }
  }

  lemma CountsStepOther(s: seq<char>, w: int, n: int)
    requires w > 0 && 0 <= n < |s| && s[n] != RoundedRock
    ensures Counts(s, w, n + 1) == Counts(s, w, n)
  {
    var m, m1 := Counts(s, w, n), Counts(s, w, n + 1);
    CubesStep(s, w, n);
    forall d | d in m1
      ensures m1[d] == m[d]
    {
      AttributedStep(s, w, d, n);
    }
  }

  lemma CubesStep(s: seq<char>, w: int, n: int)
    requires w > 0 && 0 <= n < |s|
    ensures CubesBefore(s, w, n + 1)
         == CubesBefore(s, w, n) + (if s[n] == RoundedRock then {CubeAbove(s, w, n)} else {})
  {
  }

  lemma AttributedStep(s: seq<char>, w: int, d: int, n: int)
    requires w > 0 && 0 <= n < |s|
    ensures n !in AttributedBefore(s, w, d, n)
    ensures AttributedBefore(s, w, d, n + 1)
         == AttributedBefore(s, w, d, n) + (if s[n] == RoundedRock && d == CubeAbove(s, w, n) then {n} else {})
  {
  }

  /** The rounded rocks resting against one cube rock fit in the free run
      below it. */
  lemma RocksFit(s: seq<char>, w: int, c: int)
    requires w > 0 && 0 <= c < |s| && s[c] == CubeRock
    ensures |AttributedBefore(s, w, c, |s|)| <= FreeRun(s, w, c + w)
  {
    var a := AttributedBefore(s, w, c, |s|);
    var n := FreeRun(s, w, c + w);
    UpToSize(n);
    forall i | i in a
      ensures Depth(s, w, i) in UpTo(n) && i == c + Depth(s, w, i) * w
    {
      DepthBelowCube(s, w, i);
    }
    InjectionSize(a, UpTo(n), i => if 0 <= i <= |s| then Depth(s, w, i) else 0);
  }

  /** On a padded grid, every cube rock in the tally is a real cube rock
      whose free run has room for its rocks. */
  lemma TallyIsCubes(s: seq<char>, w: int)
    requires HasCubeEdge(s, w)
    ensures forall c :: c in Counts(s, w, |s|) ==>
              0 <= c < |s| && s[c] == CubeRock
              && 1 <= Counts(s, w, |s|)[c] <= FreeRun(s, w, c + w)
  {
    forall c | c in CubesBefore(s, w, |s|)
      ensures 0 <= c < |s| && s[c] == CubeRock
      ensures 1 <= |AttributedBefore(s, w, c, |s|)| <= FreeRun(s, w, c + w)
    {
      var i :| 0 <= i < |s| && s[i] == RoundedRock && CubeAbove(s, w, i) == c;
      EdgeStopsEveryColumn(s, w, i);
      assert i in AttributedBefore(s, w, c, |s|);
      RocksFit(s, w, c);
    }
  }

  /* ---------------------------------------------------------------------- */
  /* The tilted platform                                                    */

  /** The platform with the first `n` cells' rounded rocks taken away, as the
      walk over the cells leaves it. */
  function ClearedBefore(s: seq<char>, n: int): (r: seq<char>)
    ensures |r| == |s|
  {
    seq(|s|, i requires 0 <= i < |s| => if i < n && s[i] == RoundedRock then EmptySpace else s[i])
  }

  /** Clearing one more cell empties it when it held a rounded rock, and
      keeps every cube rock. */
  lemma ClearedStep(s: seq<char>, n: int)
    requires 0 <= n < |s|
    ensures ClearedBefore(s, n)[n] == s[n]
    ensures ClearedBefore(s, n + 1)
         == if s[n] == RoundedRock then ClearedBefore(s, n)[n := EmptySpace] else ClearedBefore(s, n)
    ensures forall k :: 0 <= k < |s| ==> (s[k] == CubeRock <==> ClearedBefore(s, n)[k] == CubeRock)
  {
  }

  /** Whether `distributeRoundedRocks` puts a rock into cell `p` for cube rock
      `c` with `count` rocks, `stride` cells apart. */
  predicate Hits(c: int, count: int, stride: int, p: int)
    requires stride > 0
  {
    c < p && (p - c) % stride == 0 && (p - c) / stride <= count
  }

  /** Whether some cube rock of the tally puts a rock into cell `p`. */
  predicate Struck(counts: map<int, nat>, stride: int, p: int)
    requires stride > 0
  {
    exists c :: c in counts && Hits(c, counts[c], stride, p)
  }

  /** The cells after every cube rock of the tally has had its rocks put
      below it, `stride` cells apart. */
  function Placed(base: seq<char>, counts: map<int, nat>, stride: int): (r: seq<char>)
    requires stride > 0
    ensures |r| == |base|
  {
    seq(|base|, p requires 0 <= p < |base| => if Struck(counts, stride, p) then RoundedRock else base[p])
  }

  /** The platform after `moveRocksNorth`, with the rocks put one row width
      apart. */
  function Tilted(s: seq<char>, w: int): (r: seq<char>)
    requires w > 0
    ensures |r| == |s|
  {
    Placed(ClearedBefore(s, |s|), Counts(s, w, |s|), w)
  }

  /** The platform after `moveRocksNorth` as written, with the rocks put
      `rowCount` cells apart, as long as every one lands inside the cells
      (see `IsTiltedAsWritten` for the general case). */
  function TiltedAsWritten(s: seq<char>, w: int, rowCount: int): (r: seq<char>)
    requires w > 0 && rowCount > 0
    ensures |r| == |s|
  {
    Placed(ClearedBefore(s, |s|), Counts(s, w, |s|), rowCount)
  }

  /** Every cube rock of a tally is a real cube rock whose free run has room
      for its rocks. */
  predicate TallyFits(s: seq<char>, w: int, m: map<int, nat>)
    requires w > 0
  {
    forall c :: c in m ==> 0 <= c < |s| && s[c] == CubeRock && m[c] <= FreeRun(s, w, c + w)
  }

  /** A cell struck by a tally that fits lies within the first `m[c]` cells
      below its cube rock `c`. */
  lemma StruckIsBelowCube(s: seq<char>, w: int, m: map<int, nat>, p: int)
    requires w > 0 && TallyFits(s, w, m) && 0 <= p < |s| && Struck(m, w, p)
    ensures s[p] != CubeRock && CubeAbove(s, w, p) in m && Depth(s, w, p) <= m[CubeAbove(s, w, p)]
  {
    var d :| d in m && Hits(d, m[d], w, p);
    var j := HitDepth(d, m[d], w, p);
    assert m[d] <= FreeRun(s, w, d + w);
    BelowCube(s, w, d, j);
  }

  /** A struck cell lies a whole number `j` of strides below the cube rock,
      with `1 <= j <= count`. */
  lemma HitDepth(c: int, count: int, stride: int, p: int) returns (j: int)
    requires stride > 0 && Hits(c, count, stride, p)
    ensures 1 <= j <= count && p == c + j * stride
  {
    j := (p - c) / stride;
    DivExact(p - c, stride);
    MulLe(j, 0, stride);
  }

  /** Conversely every such cell is struck. */
  lemma BelowCubeIsStruck(s: seq<char>, w: int, m: map<int, nat>, p: int)
    requires w > 0 && TallyFits(s, w, m) && 0 <= p < |s|
    requires s[p] != CubeRock && CubeAbove(s, w, p) in m && Depth(s, w, p) <= m[CubeAbove(s, w, p)]
    ensures Struck(m, w, p)
  {
    var c := CubeAbove(s, w, p);
    DepthBelowCube(s, w, p);
    DivModUnique(Depth(s, w, p), 0, w);
    assert Hits(c, m[c], w, p);
  }

  /** After the tilt a cell holds a rounded rock exactly when it is no cube
      rock and lies within the first `k` cells below its cube rock, `k` being
      the number of rocks that rolled against that cube rock. */
  lemma TiltedRock(s: seq<char>, w: int, p: int)
    requires HasCubeEdge(s, w) && 0 <= p < |s|
    ensures var m, c := Counts(s, w, |s|), CubeAbove(s, w, p);
            Tilted(s, w)[p] == RoundedRock
            <==> s[p] != CubeRock && c in m && Depth(s, w, p) <= m[c]
  {
    var m := Counts(s, w, |s|);
    TallyIsCubes(s, w);
    assert TallyFits(s, w, m);
    assert Tilted(s, w)[p] == RoundedRock <==> Struck(m, w, p);
    if Struck(m, w, p) {
      StruckIsBelowCube(s, w, m, p);
    }
    if s[p] != CubeRock && CubeAbove(s, w, p) in m && Depth(s, w, p) <= m[CubeAbove(s, w, p)] {
      BelowCubeIsStruck(s, w, m, p);
    }
  }

  /** The tilt leaves every cube rock where it was and adds none. */
  lemma TiltKeepsCubes(s: seq<char>, w: int, p: int)
    requires HasCubeEdge(s, w) && 0 <= p < |s|
    ensures Tilted(s, w)[p] == CubeRock <==> s[p] == CubeRock
  {
    TiltedRock(s, w, p);
  }

  /** Every tallied cube rock has room below it for all its rocks. */
  lemma TallyWithinGrid(s: seq<char>, w: int)
    requires HasCubeEdge(s, w)
    ensures forall c :: c in Counts(s, w, |s|) ==> 0 <= c && c + Counts(s, w, |s|)[c] * w < |s|
  {
    TallyIsCubes(s, w);
    forall c | c in Counts(s, w, |s|)
      ensures 0 <= c && c + Counts(s, w, |s|)[c] * w < |s|
    {
      BelowCube(s, w, c, Counts(s, w, |s|)[c]);
    }
  }

  /** The tilt keeps the row of cube rocks along the north edge. */
  lemma TiltKeepsEdge(s: seq<char>, w: int)
    requires HasCubeEdge(s, w)
    ensures HasCubeEdge(Tilted(s, w), w)
  {
    forall p | 0 <= p < w
      ensures Tilted(s, w)[p] == CubeRock
    {
      TiltKeepsCubes(s, w, p);
    }
  }

  /** The cells holding a rounded rock. */
  function Rocks(s: seq<char>): set<int>
  {
    set i | 0 <= i < |s| && s[i] == RoundedRock
  }

  /** The rounded rocks that roll against one of the cube rocks `k`. */
  function RocksAgainst(s: seq<char>, w: int, k: set<int>): set<int>
    requires w > 0
  {
    set i | 0 <= i < |s| && s[i] == RoundedRock && CubeAbove(s, w, i) in k
  }

  /** The cells below the cube rocks `k` that the tilt fills with the rocks of
      the tally `m`. */
  function SlotsBelow(s: seq<char>, w: int, m: map<int, nat>, k: set<int>): set<int>
    requires w > 0
  {
    set p | 0 <= p < |s| && s[p] != CubeRock && CubeAbove(s, w, p) in k
                          && CubeAbove(s, w, p) in m && Depth(s, w, p) <= m[CubeAbove(s, w, p)]
  }

  /** Below one cube rock the tilt fills as many cells as its tally says. */
  lemma SlotsOfOneCube(s: seq<char>, w: int, m: map<int, nat>, c: int)
    requires w > 0 && TallyFits(s, w, m) && c in m
    ensures |SlotsBelow(s, w, m, {c})| == m[c]
  {
    var a, n := SlotsBelow(s, w, m, {c}), m[c];
    UpToSize(n);
    forall p | p in a
      ensures Depth(s, w, p) in UpTo(n) && p == c + Depth(s, w, p) * w
    {
      DepthBelowCube(s, w, p);
    }
    InjectionSize(a, UpTo(n), p => if 0 <= p <= |s| then Depth(s, w, p) else 0);
    EnoughSlots(s, w, m, c);
  }

  lemma EnoughSlots(s: seq<char>, w: int, m: map<int, nat>, c: int)
    requires w > 0 && TallyFits(s, w, m) && c in m
    ensures m[c] <= |SlotsBelow(s, w, m, {c})|
  {
    var a, n := SlotsBelow(s, w, m, {c}), m[c];
    UpToSize(n);
    var f := j => c + j * w;
    forall j | j in UpTo(n)
      ensures f(j) in a
    {
      BelowCube(s, w, c, j);
    }
    forall x, y | x in UpTo(n) && y in UpTo(n) && f(x) == f(y)
      ensures x == y
    {
      MulCancel(x, y, w);
    }
    InjectionSize(UpTo(n), a, f);
  }

  lemma MulCancel(x: int, y: int, w: int)
    requires w > 0 && x * w == y * w
    ensures x == y
  {
    MulLess(x, y, w);
    MulLess(y, x, w);
  }

  /** The tally counts the rocks against each cube rock. */
  predicate TallyCounts(s: seq<char>, w: int, m: map<int, nat>)
    requires w > 0
  {
    forall c :: c in m ==> m[c] == |AttributedBefore(s, w, c, |s|)|
  }

  /** Cube rock by cube rock, the tilt fills as many cells as there were
      rocks. */
  lemma {:induction false} SlotsMatchRocks(s: seq<char>, w: int, m: map<int, nat>, k: set<int>)
    requires w > 0 && TallyFits(s, w, m) && TallyCounts(s, w, m) && k <= m.Keys
    ensures |SlotsBelow(s, w, m, k)| == |RocksAgainst(s, w, k)|
    decreases |k|
  {
    NonEmptySet(k);
    if k == {} {
      assert SlotsBelow(s, w, m, k) == {};
      assert RocksAgainst(s, w, k) == {};
    } else {
      var c :| c in k;
      var rest := k - {c};
      assert k == rest + {c};
      SlotsMatchRocks(s, w, m, rest);
      SlotsOfOneCube(s, w, m, c);
      SlotsSplit(s, w, m, rest, c);
      RocksSplit(s, w, rest, c);
    }
  }

  lemma SlotsSplit(s: seq<char>, w: int, m: map<int, nat>, rest: set<int>, c: int)
    requires w > 0 && c !in rest
    ensures |SlotsBelow(s, w, m, rest + {c})| == |SlotsBelow(s, w, m, rest)| + |SlotsBelow(s, w, m, {c})|
  {
    assert SlotsBelow(s, w, m, rest + {c}) == SlotsBelow(s, w, m, rest) + SlotsBelow(s, w, m, {c});
    assert SlotsBelow(s, w, m, rest) * SlotsBelow(s, w, m, {c}) == {};
  }

  lemma RocksSplit(s: seq<char>, w: int, rest: set<int>, c: int)
    requires w > 0 && c !in rest
    ensures |RocksAgainst(s, w, rest + {c})| == |RocksAgainst(s, w, rest)| + |AttributedBefore(s, w, c, |s|)|
  {
    assert RocksAgainst(s, w, rest + {c}) == RocksAgainst(s, w, rest) + AttributedBefore(s, w, c, |s|);
    assert RocksAgainst(s, w, rest) * AttributedBefore(s, w, c, |s|) == {};
  }

  /** The tilt keeps the number of rounded rocks. */
  lemma TiltKeepsRockCount(s: seq<char>, w: int)
    requires HasCubeEdge(s, w)
    ensures |Rocks(Tilted(s, w))| == |Rocks(s)|
  {
    var m := Counts(s, w, |s|);
    TallyIsCubes(s, w);
    SlotsMatchRocks(s, w, m, m.Keys);
    forall i | i in Rocks(s)
      ensures i in RocksAgainst(s, w, m.Keys)
    {
      assert CubeAbove(s, w, i) in CubesBefore(s, w, |s|);
    }
    assert Rocks(s) == RocksAgainst(s, w, m.Keys);
    forall p | 0 <= p < |s|
      ensures p in Rocks(Tilted(s, w)) <==> p in SlotsBelow(s, w, m, m.Keys)
    {
      TiltedRock(s, w, p);
    }
    assert Rocks(Tilted(s, w)) == SlotsBelow(s, w, m, m.Keys);
  }

  /* ---------------------------------------------------------------------- */
  /* Load                                                                   */

  /** The load of a rounded rock at `index`: `rowCount` minus its row in the
      padded grid, plus one. */
  function RockLoad(rowCount: int, columnCount: int, index: int): int
    requires columnCount > 0
  {
    rowCount - index / columnCount + 1
  }

  /** The total load of the cells, summed from the first cell on. */
  function Load(cells: seq<char>, rowCount: int, columnCount: int): int
    requires columnCount > 0
  {
    if cells == [] then 0
    else Load(cells[..|cells| - 1], rowCount, columnCount)
         + (if cells[|cells| - 1] == RoundedRock then RockLoad(rowCount, columnCount, |cells| - 1) else 0)
  }

  /** A rock in padded row `r`, `1 <= r <= rowCount`, weighs between 1 and
      `rowCount`; so the load is at least the number of rocks and at most
      `rowCount` times it. */
  lemma {:induction false} LoadBounds(cells: seq<char>, rowCount: int, columnCount: int)
    requires columnCount > 0 && rowCount >= 0
    requires |cells| <= (rowCount + 1) * columnCount
    requires forall i :: 0 <= i < |cells| && cells[i] == RoundedRock ==> i >= columnCount
    ensures Count(cells, RoundedRock) <= Load(cells, rowCount, columnCount) <= rowCount * Count(cells, RoundedRock)
  {
    if cells != [] {
      var init, i := cells[..|cells| - 1], |cells| - 1;
      LoadBounds(init, rowCount, columnCount);
      if cells[i] == RoundedRock {
        var r := i / columnCount;
        DivBelow(i, rowCount + 1, columnCount);
        MulLe(r, 0, columnCount);
        assert 1 <= RockLoad(rowCount, columnCount, i) <= rowCount;
        assert rowCount * (Count(init, RoundedRock) + 1) == rowCount * Count(init, RoundedRock) + rowCount;
      }
    }
  }

  /* ---------------------------------------------------------------------- */
  /* Writing past the end of the cells                                      */

  /** What a JavaScript array holds between its old end and a cell written
      past it: a hole, which `forEach` and `reduce` skip and which is neither
      rock. */
  const Hole := ' '

  /** `cells[index] = value` on a JavaScript array: past the end the array
      grows to `index + 1` cells, the new ones before `index` being holes. */
  function Assign(cells: seq<char>, index: nat, value: char): (r: seq<char>)
    ensures |r| == if index < |cells| then |cells| else index + 1
    ensures r[index] == value
    ensures forall k :: 0 <= k < |r| && k != index ==> r[k] == if k < |cells| then cells[k] else Hole
  {
    if index < |cells| then cells[index := value]
    else cells + seq(index - |cells|, _ => Hole) + [value]
  }

  /** How far the cells reach once cube rock `c` has written its `count`
      rocks, `stride` cells apart. */
  function Reach(base: seq<char>, c: int, count: int, stride: int): int
  {
    if count > 0 && c + count * stride >= |base| then c + count * stride + 1 else |base|
  }

  /** The cells once cube rock `c` has written its first `count` rocks,
      `stride` cells apart: the struck cells hold rounded rocks, the others
      what they held or holes, and the cells reach just past the last rock. */
  function Dropped(base: seq<char>, c: int, count: int, stride: int): (r: seq<char>)
    requires stride > 0 && c >= 0 && count >= 0
    ensures |base| <= |r|
    ensures forall p :: 0 <= p < |r| ==>
              r[p] == if Hits(c, count, stride, p) then RoundedRock else if p < |base| then base[p] else Hole
    ensures forall p :: |r| <= p ==> !Hits(c, count, stride, p)
    ensures |base| < |r| ==> Hits(c, count, stride, |r| - 1)
  {
    var n := Reach(base, c, count, stride);
    assert |base| < n ==> Hits(c, count, stride, n - 1) by {
      if |base| < n {
        DivModUnique(count, 0, stride);
      }
    }
    assert forall p :: n <= p ==> !Hits(c, count, stride, p) by {
      forall p | Hits(c, count, stride, p)
        ensures p < n
      {
        var j := HitDepth(c, count, stride, p);
        MulLe(j, count, stride);
      }
    }
    seq(n, p requires 0 <= p < n => if Hits(c, count, stride, p) then RoundedRock else if p < |base| then base[p] else Hole)
  }

  /** Writing the `j`-th rock below cube rock `c` is one `Assign`. */
  lemma DroppedStep(base: seq<char>, c: int, j: int, stride: int)
    requires stride > 0 && c >= 0 && j >= 1
    ensures Dropped(base, c, j, stride) == Assign(Dropped(base, c, j - 1, stride), c + j * stride, RoundedRock)
  {
    var before, after := Dropped(base, c, j - 1, stride), Dropped(base, c, j, stride);
    var r := Assign(before, c + j * stride, RoundedRock);
    WriteHits(c, j, stride);
    assert j * stride == (j - 1) * stride + stride;
    MulLe(0, j - 1, stride);
    if |base| < |before| {
      var k := HitDepth(c, j - 1, stride, |before| - 1);
      MulLe(k, j - 1, stride);
    }
    assert |after| == |r|;
    forall p | 0 <= p < |r|
      ensures after[p] == r[p]
    {
    }
  }

  /** The cells once the cube rocks `keys` have written their rocks, in the
      order of `keys`. */
  function PlacedKeys(base: seq<char>, keys: seq<int>, counts: map<int, nat>, stride: int): (r: seq<char>)
    requires stride > 0
    requires forall u :: 0 <= u < |keys| ==> keys[u] in counts && keys[u] >= 0
  {
    if keys == [] then base
    else
      var last := keys[|keys| - 1];
      Dropped(PlacedKeys(base, keys[..|keys| - 1], counts, stride), last, counts[last], stride)
  }

  /** Whether one of the cube rocks `keys` writes a rock into cell `p`. */
  predicate StruckBy(keys: seq<int>, counts: map<int, nat>, stride: int, p: int)
    requires stride > 0
    requires forall u :: 0 <= u < |keys| ==> keys[u] in counts
  {
    exists u :: 0 <= u < |keys| && Hits(keys[u], counts[keys[u]], stride, p)
  }

  /** `r` is what writing the rocks of `counts`, `stride` cells apart, makes
      of `base`: a struck cell holds a rounded rock, any other what it held or
      a hole, and the cells reach just past the farthest rock. */
  ghost predicate IsPlacement(r: seq<char>, base: seq<char>, counts: map<int, nat>, stride: int)
    requires stride > 0
  {
    |base| <= |r|
    && (forall p :: 0 <= p < |r| ==>
          r[p] == if Struck(counts, stride, p) then RoundedRock else if p < |base| then base[p] else Hole)
    && (forall p :: |r| <= p ==> !Struck(counts, stride, p))
    && (|base| < |r| ==> Struck(counts, stride, |r| - 1))
  }

  /** Cell by cell, the cells after the cube rocks `keys` have written
      their rocks. */
  lemma {:induction false} PlacedKeysShape(base: seq<char>, keys: seq<int>, counts: map<int, nat>, stride: int)
    requires stride > 0
    requires forall u :: 0 <= u < |keys| ==> keys[u] in counts && keys[u] >= 0
    ensures var r := PlacedKeys(base, keys, counts, stride);
            |base| <= |r|
            && (forall p :: 0 <= p < |r| ==>
                  r[p] == if StruckBy(keys, counts, stride, p) then RoundedRock else if p < |base| then base[p] else Hole)
            && (forall p :: |r| <= p ==> !StruckBy(keys, counts, stride, p))
            && (|base| < |r| ==> StruckBy(keys, counts, stride, |r| - 1))
  {
    if keys != [] {
      var init, last := keys[..|keys| - 1], keys[|keys| - 1];
      PlacedKeysShape(base, init, counts, stride);
      var before := PlacedKeys(base, init, counts, stride);
      var r := PlacedKeys(base, keys, counts, stride);
      assert r == Dropped(before, last, counts[last], stride);
      forall p
        ensures StruckBy(keys, counts, stride, p)
            <==> StruckBy(init, counts, stride, p) || Hits(last, counts[last], stride, p)
      {
        StruckBySnoc(keys, counts, stride, p);
      }
    }
  }

  /** A cell is struck by the keys when it is struck by all but the last or
      hit by the last. */
  lemma StruckBySnoc(keys: seq<int>, counts: map<int, nat>, stride: int, p: int)
    requires stride > 0 && keys != []
    requires forall u :: 0 <= u < |keys| ==> keys[u] in counts && keys[u] >= 0
    ensures var init, last := keys[..|keys| - 1], keys[|keys| - 1];
            StruckBy(keys, counts, stride, p)
            <==> StruckBy(init, counts, stride, p) || Hits(last, counts[last], stride, p)
  {
    var init, last := keys[..|keys| - 1], keys[|keys| - 1];
    if StruckBy(keys, counts, stride, p) {
      var u :| 0 <= u < |keys| && Hits(keys[u], counts[keys[u]], stride, p);
      if u < |init| {
        assert init[u] == keys[u];
      }
    }
    if StruckBy(init, counts, stride, p) {
      var u :| 0 <= u < |init| && Hits(init[u], counts[init[u]], stride, p);
      assert keys[u] == init[u];
    }
  }

  /** Once every cube rock of the tally has written its rocks, the cells are
      its placement. */
  lemma PlacedKeysAll(base: seq<char>, keys: seq<int>, counts: map<int, nat>, stride: int)
    requires stride > 0
    requires forall u :: 0 <= u < |keys| ==> keys[u] in counts && keys[u] >= 0
    requires forall c :: c in counts ==> c in keys
    ensures IsPlacement(PlacedKeys(base, keys, counts, stride), base, counts, stride)
  {
    PlacedKeysShape(base, keys, counts, stride);
    forall p
      ensures StruckBy(keys, counts, stride, p) <==> Struck(counts, stride, p)
    {
      if Struck(counts, stride, p) {
        var c :| c in counts && Hits(c, counts[c], stride, p);
        var u :| 0 <= u < |keys| && keys[u] == c;
      }
    }
  }

  /** When every rock lands inside the cells, the placement is `Placed`: the
      cells do not grow. */
  lemma PlacementWithin(r: seq<char>, base: seq<char>, counts: map<int, nat>, stride: int)
    requires stride > 0 && IsPlacement(r, base, counts, stride)
    requires forall c :: c in counts ==> 0 <= c && c + counts[c] * stride < |base|
    ensures r == Placed(base, counts, stride)
  {
    if |base| < |r| {
      var c :| c in counts && Hits(c, counts[c], stride, |r| - 1);
      var j := HitDepth(c, counts[c], stride, |r| - 1);
      MulLe(j, counts[c], stride);
      assert false;
    }
  }

  /** The sorted keys of a tally list exactly its cube rocks. */
  lemma KeysListed(counts: map<int, nat>)
    ensures forall u :: 0 <= u < |SortedKeys(counts.Keys)| ==> SortedKeys(counts.Keys)[u] in counts
    ensures forall c :: c in counts ==> c in SortedKeys(counts.Keys)
  {
    SortedKeysFacts(counts.Keys);
  }

  /** Writing the `j`-th rock below cube rock `c` strikes exactly one more
      cell than the first `j - 1` did. */
  lemma WriteHits(c: int, j: int, stride: int)
    requires stride > 0 && j >= 1
    ensures forall p :: Hits(c, j, stride, p) <==> Hits(c, j - 1, stride, p) || p == c + j * stride
  {
    DivModUnique(j, 0, stride);
    MulLe(1, j, stride);
    forall p | Hits(c, j, stride, p) && !Hits(c, j - 1, stride, p)
      ensures p == c + j * stride
    {
      DivExact(p - c, stride);
    }
  }

  /* ---------------------------------------------------------------------- */
  /* The tilt as written                                                    */

  /** `r` is the platform `s` after `moveRocksNorth` as written: the rocks
      are tallied as intended, then written `stride` (the source's
      `rowCount`) cells apart, the cells growing where a rock lands past
      their end. */
  ghost predicate IsTiltedAsWritten(r: seq<char>, s: seq<char>, w: int, stride: int)
    requires w > 0 && stride > 0
  {
    IsPlacement(r, ClearedBefore(s, |s|), Counts(s, w, |s|), stride)
  }

  /** While the stride is at most the row width every rock lands inside the
      cells, and the tilt as written is `TiltedAsWritten`; with the row width
      itself it is the intended `Tilted`. */
  lemma TiltedAsWrittenWithin(r: seq<char>, s: seq<char>, w: int, stride: int)
    requires HasCubeEdge(s, w) && 0 < stride <= w && IsTiltedAsWritten(r, s, w, stride)
    ensures r == TiltedAsWritten(s, w, stride)
    ensures stride == w ==> r == Tilted(s, w)
  {
    var m := Counts(s, w, |s|);
    TallyWithinGrid(s, w);
    forall c | c in m
      ensures 0 <= c && c + m[c] * stride < |ClearedBefore(s, |s|)|
    {
      MulLe(stride, w, m[c]);
    }
    PlacementWithin(r, ClearedBefore(s, |s|), m, stride);
  }

  /** With `rowCount` as the stride, a two-column platform of one row
      `O.` tilts into `#O..`: the rock overwrites the second cube rock of
      the edge row and its load becomes 2, while rolling north leaves it in
      place with load 1. */
  lemma StrideByRowCountMisplaces()
    ensures var s := WithCubeEdge("O.", 2);
            IsTiltedAsWritten("#O..", s, 2, 1) && Load("#O..", 1, 2) == 2
            && Tilted(s, 2) == "##O." && Load(Tilted(s, 2), 1, 2) == 1
  {
    MisplacedTilts();
    MisplacedLoads();
  }

  lemma MisplacedLoads()
    ensures Load("#O..", 1, 2) == 2 && Load("##O.", 1, 2) == 1
  {
    LoadOfOneRock("#O..", 1);
    LoadOfOneRock("##O.", 2);
  }

  lemma MisplacedTilts()
    ensures var s := WithCubeEdge("O.", 2);
            IsTiltedAsWritten("#O..", s, 2, 1) && Tilted(s, 2) == "##O."
  {
    MisplacedAsWritten();
    MisplacedIntended();
  }

  lemma MisplacedAsWritten()
    ensures IsTiltedAsWritten("#O..", WithCubeEdge("O.", 2), 2, 1)
  {
    var s := WithCubeEdge("O.", 2);
    assert s == "##O.";
    var m := Counts(s, 2, 4);
    OneRockTally(s);
    assert ClearedBefore(s, 4) == "##..";
    forall p
      ensures Struck(m, 1, p) <==> p == 1
    {
      StruckByOne(m, 1, p);
    }
  }

  lemma MisplacedIntended()
    ensures Tilted(WithCubeEdge("O.", 2), 2) == "##O."
  {
    var s := WithCubeEdge("O.", 2);
    assert s == "##O.";
    var m := Counts(s, 2, 4);
    OneRockTally(s);
    assert ClearedBefore(s, 4) == "##..";
    forall p
      ensures Struck(m, 2, p) <==> p == 2
    {
      StruckByOne(m, 2, p);
    }
  }

  /** With `rowCount` as the stride, a one-column platform `O`, `O`, `.`
      grows: the two rocks are written 3 and 6 cells below the edge, past
      the end of the four cells, and the load becomes -1, while rolling north
      gives `#OO.` with load 5. */
  lemma StrideByRowCountGrows()
    ensures var s := WithCubeEdge("OO.", 1);
            IsTiltedAsWritten("#..O  O", s, 1, 3) && Load("#..O  O", 3, 1) == -1
            && Tilted(s, 1) == "#OO." && Load(Tilted(s, 1), 3, 1) == 5
  {
    GrownTilts();
    GrownLoad();
    FourCellLoad();
  }

  lemma GrownLoad()
    ensures Load("#..O  O", 3, 1) == -1
  {
    var c0: seq<char> := [];
    var c1 := c0 + ['#'];
    var c2 := c1 + ['.'];
    var c3 := c2 + ['.'];
    var c4 := c3 + ['O'];
    var c5 := c4 + [' '];
    var c6 := c5 + [' '];
    var c7 := c6 + ['O'];
    LoadSnoc(c0, '#', 3, 1);
    LoadSnoc(c1, '.', 3, 1);
    LoadSnoc(c2, '.', 3, 1);
    LoadSnoc(c3, 'O', 3, 1);
    LoadSnoc(c4, ' ', 3, 1);
    LoadSnoc(c5, ' ', 3, 1);
    LoadSnoc(c6, 'O', 3, 1);
    assert c7 == "#..O  O";
  }

  lemma FourCellLoad()
    ensures Load("#OO.", 3, 1) == 5
  {
    var c0: seq<char> := [];
    var c1 := c0 + ['#'];
    var c2 := c1 + ['O'];
    var c3 := c2 + ['O'];
    var c4 := c3 + ['.'];
    LoadSnoc(c0, '#', 3, 1);
    LoadSnoc(c1, 'O', 3, 1);
    LoadSnoc(c2, 'O', 3, 1);
    LoadSnoc(c3, '.', 3, 1);
    assert c4 == "#OO.";
  }

  lemma GrownTilts()
    ensures var s := WithCubeEdge("OO.", 1);
            IsTiltedAsWritten("#..O  O", s, 1, 3) && Tilted(s, 1) == "#OO."
  {
    GrownAsWritten();
    GrownIntended();
  }

  lemma GrownAsWritten()
    ensures IsTiltedAsWritten("#..O  O", WithCubeEdge("OO.", 1), 1, 3)
  {
    var s := WithCubeEdge("OO.", 1);
    assert s == "#OO.";
    var m := Counts(s, 1, 4);
    TwoRockTally(s);
    assert ClearedBefore(s, 4) == "#...";
    forall p
      ensures Struck(m, 3, p) <==> p == 3 || p == 6
    {
      StruckByTwo(m, 3, p);
    }
  }

  lemma GrownIntended()
    ensures Tilted(WithCubeEdge("OO.", 1), 1) == "#OO."
  {
    var s := WithCubeEdge("OO.", 1);
    assert s == "#OO.";
    var m := Counts(s, 1, 4);
    TwoRockTally(s);
    assert ClearedBefore(s, 4) == "#...";
    forall p
      ensures Struck(m, 1, p) <==> p == 1 || p == 2
    {
      StruckByTwo(m, 1, p);
    }
  }

  lemma StruckByTwo(m: map<int, nat>, stride: int, p: int)
    requires m == map[0 := 2] && stride > 0
    ensures Struck(m, stride, p) <==> Hits(0, 2, stride, p)
  {
    if Hits(0, 2, stride, p) {
      assert 0 in m;
    }
  }

  /** The load grows by the cell appended last. */
  lemma LoadSnoc(cells: seq<char>, c: char, rowCount: int, columnCount: int)
    requires columnCount > 0
    ensures Load(cells + [c], rowCount, columnCount)
         == Load(cells, rowCount, columnCount) + (if c == RoundedRock then RockLoad(rowCount, columnCount, |cells|) else 0)
  {
    assert (cells + [c])[..|cells|] == cells;
  }

  lemma OneRockTally(s: seq<char>)
    requires s == "##O."
    ensures Counts(s, 2, 4) == map[0 := 1]
  {
    assert CubeAbove(s, 2, 2) == 0;
    assert AttributedBefore(s, 2, 0, 4) == {2};
    assert CubesBefore(s, 2, 4) == {0};
  }

  lemma TwoRockTally(s: seq<char>)
    requires s == "#OO."
    ensures Counts(s, 1, 4) == map[0 := 2]
  {
    assert CubeAbove(s, 1, 1) == 0;
    assert CubeAbove(s, 1, 2) == 0;
    assert AttributedBefore(s, 1, 0, 4) == {1, 2};
    assert CubesBefore(s, 1, 4) == {0};
  }

  lemma StruckByOne(m: map<int, nat>, stride: int, p: int)
    requires m == map[0 := 1] && stride > 0
    ensures Struck(m, stride, p) <==> Hits(0, 1, stride, p)
  {
    if Hits(0, 1, stride, p) {
      assert 0 in m;
    }
  }

  /** The load of four cells with one rock, at `at`, in a grid of width 2
      with one row under the edge row. */
  lemma LoadOfOneRock(cells: seq<char>, at: int)
    requires |cells| == 4 && 0 <= at < 4 && cells[at] == RoundedRock
    requires forall i :: 0 <= i < 4 && i != at ==> cells[i] != RoundedRock
    ensures Load(cells, 1, 2) == 1 - at / 2 + 1
  {
    assert cells[..4][..3] == cells[..3];
    assert cells[..3][..2] == cells[..2];
    assert cells[..2][..1] == cells[..1];
    assert cells[..1][..0] == [];
    assert cells[..4] == cells;
    var l0 := Load(cells[..0], 1, 2);
    var l1 := Load(cells[..1], 1, 2);
    var l2 := Load(cells[..2], 1, 2);
    var l3 := Load(cells[..3], 1, 2);
    assert l1 == l0 + (if at == 0 then 2 else 0);
    assert l2 == l1 + (if at == 1 then 2 else 0);
    assert l3 == l2 + (if at == 2 then 1 else 0);
  }

  /** What `moveRocksNorth` leaves: the placement of the tally is the tilt
      as written, which is `TiltedAsWritten` while the stride is at most the
      row width and the intended tilt, edge row kept, when it is the row
      width; a platform of no rows is left as it is. */
  lemma TiltOutcome(r: seq<char>, s: seq<char>, w: int, rowCount: int)
    requires w > 0 && rowCount >= 0 && |s| == (rowCount + 1) * w && HasCubeEdge(s, w)
    requires rowCount > 0 ==> IsPlacement(r, ClearedBefore(s, |s|), Counts(s, w, |s|), rowCount)
    requires rowCount == 0 ==> Counts(s, w, |s|) == map[] && ClearedBefore(s, |s|) == s && r == s
    ensures rowCount > 0 ==> IsTiltedAsWritten(r, s, w, rowCount)
    ensures 0 < rowCount <= w ==> r == TiltedAsWritten(s, w, rowCount)
    ensures rowCount == w ==> r == Tilted(s, w) && |r| == (rowCount + 1) * w && HasCubeEdge(r, w)
  {
    if 0 < rowCount <= w {
      TiltedAsWrittenWithin(r, s, w, rowCount);
    }
    if rowCount == w {
      TiltKeepsEdge(s, w);
    }
  }

  /** A platform with no rounded rock has an empty tally. */
  lemma NoRocksNoTally(s: seq<char>, w: int)
    requires w > 0 && forall k :: 0 <= k < |s| ==> s[k] != RoundedRock
    ensures Counts(s, w, |s|) == map[] && ClearedBefore(s, |s|) == s
  {
    assert CubesBefore(s, w, |s|) == {};
  }

  /** In place of the predicate `findLastIndex` takes: the greatest index
      whose element passes `matches`, or -1 when none does. */
  method FindLastIndex<T>(source: seq<T>, matches: (T, int) -> bool) returns (index: int)
    ensures -1 <= index < |source|
    ensures 0 <= index ==> matches(source[index], index)
    ensures forall j :: index < j < |source| ==> !matches(source[j], j)
  {
    index := |source| - 1;
    while index >= 0
      invariant -1 <= index < |source|
      invariant forall j :: index < j < |source| ==> !matches(source[j], j)
    {
      if matches(source[index], index) {
        return;
      }
      index := index - 1;
    }
  }

  /* ---------------------------------------------------------------------- */
  /* The platform                                                           */

  /** `Platform`. `cells` is a JavaScript array: a write past its end makes
      it longer. */
  class Platform {
    var grid: string
    var columnCount: int
    var rowCount: int
    var cubes: map<int, nat>
    var cells: seq<char>

    /** The cells are the padded grid: `rowCount` rows of the input under an
        edge row of cube rocks. */
    ghost predicate Valid()
      reads this
    {
      columnCount > 0 && rowCount >= 0
      && |cells| == (rowCount + 1) * columnCount
      && HasCubeEdge(cells, columnCount)
    }

    /** The constructor: `rowCount` is the input's number of rows, taken
        before `addCubeRockEdge` adds the edge row. */
    constructor(grid: string, columnCount: int)
      requires columnCount > 0 && |grid| % columnCount == 0
      ensures Valid()
      ensures this.columnCount == columnCount && rowCount * columnCount == |grid|
      ensures this.grid == WithCubeEdge(grid, columnCount) && cells == this.grid
      ensures cubes == map[]
    {
      this.grid := grid;
      this.columnCount := columnCount;
      rowCount := |grid| / columnCount;
      cubes := map[];
      cells := [];
      new;
      DivExact(|grid|, columnCount);
      AddCubeRockEdge();
      cells := this.grid;
      assert (rowCount + 1) * columnCount == rowCount * columnCount + columnCount;
    }

    /** `createPlatform`: the rows of the input joined, as wide as the first
        row. */
    static method CreatePlatform(rows: seq<string>) returns (platform: Platform)
      requires |rows| > 0 && |rows[0]| > 0 && |Flatten(rows)| % |rows[0]| == 0
      ensures fresh(platform) && platform.Valid()
      ensures platform.columnCount == |rows[0]|
      ensures platform.grid == WithCubeEdge(Flatten(rows), |rows[0]|)
    {
      platform := new Platform(Flatten(rows), |rows[0]|);
    }

    /** `addCubeRockEdge`. */
    method AddCubeRockEdge()
      requires columnCount >= 0
      modifies this
      ensures columnCount == old(columnCount) && rowCount == old(rowCount)
      ensures grid == WithCubeEdge(old(grid), columnCount)
      ensures cubes == old(cubes) && cells == old(cells)
    {
      grid := seq(columnCount, _ => CubeRock) + grid;
    }

    /** `indexToCoordinate`: `Math.floor(index / columnCount)` is the row and
        `index % columnCount` the column. */
    function IndexToCoordinate(index: int): (c: Grids.Coordinate)
      reads this
      requires columnCount > 0
      ensures index >= 0 ==> 0 <= c.x < columnCount && c.y >= 0 && c.y * columnCount + c.x == index
    {
      Grids.Coordinate(JsRem(index, columnCount), index / columnCount)
    }

    /** `calculateLoad`. */
    method CalculateLoad() returns (total: int)
      requires columnCount > 0
      ensures total == Load(cells, rowCount, columnCount)
    {
      total := 0;
      for index := 0 to |cells|
        invariant total == Load(cells[..index], rowCount, columnCount)
      {
        assert cells[..index + 1][..index] == cells[..index];
        if cells[index] == RoundedRock {
          total := total + (rowCount - index / columnCount + 1);
        }
      }
      assert cells[..|cells|] == cells;
    }

    /** `moveRocksNorth`: every rounded rock is taken away and tallied
        against the nearest cube rock above it in its column, then the tally
        is written back below the cube rocks `rowCount` cells apart. */
    method MoveRocksNorth()
      requires Valid()
      modifies this
      ensures grid == old(grid) && columnCount == old(columnCount) && rowCount == old(rowCount)
      ensures cubes == map[]
      ensures rowCount > 0 ==> IsTiltedAsWritten(cells, old(cells), columnCount, rowCount)
      ensures rowCount == 0 ==> cells == old(cells)
      ensures 0 < rowCount <= columnCount ==> cells == TiltedAsWritten(old(cells), columnCount, rowCount)
      ensures rowCount == columnCount ==> cells == Tilted(old(cells), columnCount) && Valid()
    {
      ghost var s := cells;
      var w := columnCount;
      TallyRocks();
      TallyWithinGrid(s, w);
      if rowCount == 0 {
        assert |s| == w;
        NoRocksNoTally(s, w);
      }
      DistributeRoundedRocks();
      TiltOutcome(cells, s, w, rowCount);
    }

    /** The `forEach` of `moveRocksNorth`: every cell visited in turn, so
        every rounded rock is tallied and its cell emptied. */
    method TallyRocks()
      requires columnCount > 0
      modifies this
      ensures grid == old(grid) && columnCount == old(columnCount) && rowCount == old(rowCount)
      ensures cells == ClearedBefore(old(cells), |old(cells)|)
      ensures cubes == Counts(old(cells), columnCount, |old(cells)|)
    {
      ghost var s := cells;
      var w := columnCount;
      cubes := map[];
      assert cubes == Counts(s, w, 0);
      var index := 0;
      while index < |cells|
        invariant 0 <= index <= |cells| == |s|
        invariant cells == ClearedBefore(s, index)
        invariant cubes == Counts(s, w, index)
        invariant w == columnCount && grid == old(grid) && rowCount == old(rowCount)
      {
        VisitCell(s, index);
        index := index + 1;
      }
    }

    /** The callback `moveRocksNorth` hands to `forEach`, at cell `index`: a
        rounded rock is tallied against the cube rock `findLastIndex` finds
        for it and its cell is emptied; any other cell is left alone. */
    method VisitCell(ghost s: seq<char>, index: int)
      requires columnCount > 0 && 0 <= index < |cells| == |s|
      requires cells == ClearedBefore(s, index) && cubes == Counts(s, columnCount, index)
      modifies this
      ensures grid == old(grid) && columnCount == old(columnCount) && rowCount == old(rowCount)
      ensures cells == ClearedBefore(s, index + 1) && cubes == Counts(s, columnCount, index + 1)
    {
      var w := columnCount;
      ClearedStep(s, index);
      if cells[index] != RoundedRock {
        CountsStep(s, w, index);
        return;
      }
      var coordinate := IndexToCoordinate(index);
      var x := coordinate.x;
      var cubeIndex := FindLastIndex(cells,
        (cell: char, cellIndex: int) => cell == CubeRock && cellIndex < index && cellIndex % w == x);
      AttributedToNearest(s, cells, w, index, x, cubeIndex);
      var previous := if cubeIndex in cubes then cubes[cubeIndex] else 0;
      CountsStep(s, w, index);
      cubes := cubes[cubeIndex := previous + 1];
      cells := cells[index := EmptySpace];
    }

    /** `distributeRoundedRocks`: for each tallied cube rock, in ascending
        order, its rocks go into the cells below it, `rowCount` cells apart;
        the tally is then emptied. */
    method DistributeRoundedRocks()
      requires rowCount > 0 || cubes == map[]
      requires forall c :: c in cubes ==> 0 <= c
      modifies this
      ensures grid == old(grid) && columnCount == old(columnCount) && rowCount == old(rowCount)
      ensures cubes == map[]
      ensures rowCount > 0 ==> IsPlacement(cells, old(cells), old(cubes), rowCount)
      ensures old(cubes) == map[] ==> cells == old(cells)
    {
      ghost var base := cells;
      var counts := cubes;
      var keys := SortedKeys(counts.Keys);
      KeysListed(counts);
      if counts != map[] {
        DropEach(keys, counts);
        PlacedKeysAll(base, keys, counts, rowCount);
      } else if rowCount > 0 {
        PlacedKeysAll(base, [], counts, rowCount);
      }
      cubes := map[];
    }

    /** The loop of `distributeRoundedRocks`: the rocks of each cube rock of
        `keys`, in order. */
    method DropEach(keys: seq<int>, counts: map<int, nat>)
      requires rowCount > 0
      requires forall u :: 0 <= u < |keys| ==> keys[u] in counts && keys[u] >= 0
      modifies this
      ensures grid == old(grid) && columnCount == old(columnCount) && rowCount == old(rowCount)
      ensures cubes == old(cubes)
      ensures cells == PlacedKeys(old(cells), keys, counts, rowCount)
    {
      ghost var base := cells;
      for t := 0 to |keys|
        invariant grid == old(grid) && columnCount == old(columnCount) && rowCount == old(rowCount)
        invariant cubes == old(cubes)
        invariant cells == PlacedKeys(base, keys[..t], counts, rowCount)
      {
        var cubeIndex := keys[t];
        assert keys[..t + 1][..t] == keys[..t];
        DropRocks(cubeIndex, counts[cubeIndex]);
      }
      assert keys[..|keys|] == keys;
    }

    /** The loop `distributeRoundedRocks` runs for one cube rock: its
        `rockCount` rocks go into the cells 1 to `rockCount` strides below
        it. */
    method DropRocks(cubeIndex: int, rockCount: int)
      requires rowCount > 0 && 0 <= cubeIndex && 0 <= rockCount
      modifies this
      ensures grid == old(grid) && columnCount == old(columnCount) && rowCount == old(rowCount)
      ensures cubes == old(cubes)
      ensures cells == Dropped(old(cells), cubeIndex, rockCount, rowCount)
    {
      ghost var base := cells;
      for index := 1 to rockCount + 1
        invariant grid == old(grid) && columnCount == old(columnCount) && rowCount == old(rowCount)
        invariant cells == Dropped(base, cubeIndex, index - 1, rowCount)
        invariant cubes == old(cubes)
      {
        DroppedStep(base, cubeIndex, index, rowCount);
        MulLe(0, index, rowCount);
        cells := Assign(cells, cubeIndex + index * rowCount, RoundedRock);
      }
    }
  }

  /** The rock at `index` is tallied against the nearest cube rock above it:
      `findLastIndex` over the partly cleared cells finds `CubeAbove` of the
      original ones. */
  lemma AttributedToNearest(s: seq<char>, current: seq<char>, w: int, index: int, x: int, cubeIndex: int)
    requires w > 0 && 0 <= index < |s| == |current|
    requires forall k :: 0 <= k < |s| ==> (s[k] == CubeRock <==> current[k] == CubeRock)
    requires x == index % w
    requires -1 <= cubeIndex < |current|
    requires 0 <= cubeIndex ==> current[cubeIndex] == CubeRock && cubeIndex < index && cubeIndex % w == x
    requires forall j :: cubeIndex < j < |current| ==> !(current[j] == CubeRock && j < index && j % w == x)
    ensures cubeIndex == CubeAbove(s, w, index)
  {
    CubeAboveSameCubes(s, current, w, index);
    CubeAboveIsNearest(current, w, index);
    var c := CubeAbove(current, w, index);
    assert 0 <= c ==> CubeInColumnAbove(current, w, index, c);
    assert 0 <= cubeIndex ==> CubeInColumnAbove(current, w, index, cubeIndex);
  }
}
