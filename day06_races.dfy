/** Day 6: holding the button for `w` of the race's `t` milliseconds moves the
    boat `w * (t - w)`. The number of ways to beat the record is found from
    the smallest and the largest winning hold time, each searched by a
    counting loop that returns at the first hit (`undefined` when there is
    none). */
module BoatRaces {
  import opened Common

  datatype Race = Race(distance: int, time: int)

  /** `calculateDistance`. */
  function CalculateDistance(waitTime: int, time: int): int
  {
    waitTime * (time - waitTime)
  }

  predicate Wins(race: Race, waitTime: int)
  {
    CalculateDistance(waitTime, race.time) > race.distance
  }

  /** Some hold time in `[1, t)` beats the record. */
  predicate CanWin(race: Race)
  {
    exists w :: 1 <= w < race.time && Wins(race, w)
  }

  /** The winning hold times in `[1, t)` are exactly `lo .. lo + count - 1`,
      which lies inside `[1, t)`. */
  predicate WinningInterval(race: Race, lo: int, count: int)
  {
    1 <= lo && lo + count <= race.time
    && forall w :: 1 <= w < race.time ==> (Wins(race, w) <==> lo <= w < lo + count)
  }

  /** The number of winning hold times in `[1, n)`, counted one by one. */
  function WinsBelow(race: Race, n: int): nat
    decreases n
  {
    if n <= 1 then 0 else WinsBelow(race, n - 1) + (if Wins(race, n - 1) then 1 else 0)
  }

  /** The number of ways to beat the record: the winning hold times in `[1, t)`. */
  function Ways(race: Race): nat
  {
    WinsBelow(race, race.time)
  }

  /** When the winners form an interval, counting them one by one gives its
      length. */
  lemma {:induction false} IntervalCount(race: Race, lo: int, count: int, n: int)
    requires WinningInterval(race, lo, count) && 0 <= count && 1 <= n <= race.time
    ensures WinsBelow(race, n) == if n <= lo then 0 else if n >= lo + count then count else n - lo
    decreases n
  {
    if n > 1 {
      IntervalCount(race, lo, count, n - 1);
      assert Wins(race, n - 1) <==> lo <= n - 1 < lo + count;
    }
  }

  /** Waiting `w` or `t - w` covers the same distance. */
  lemma DistanceSymmetric(waitTime: int, time: int)
    ensures CalculateDistance(waitTime, time) == CalculateDistance(time - waitTime, time)
  {
  }

  /** `findMinimumWaitTime`: counts up from 1. */
  method FindMinimumWaitTime(race: Race) returns (r: Option<int>)
    ensures r.Some? ==> 1 <= r.value < race.time && Wins(race, r.value)
    ensures r.Some? ==> forall w :: 1 <= w < r.value ==> !Wins(race, w)
    ensures r.None? ==> forall w :: 1 <= w < race.time ==> !Wins(race, w)
  {
    var waitTime := 1;
    while waitTime < race.time
      invariant 1 <= waitTime
      invariant forall w :: 1 <= w < waitTime ==> !Wins(race, w)
      decreases race.time - waitTime
    {
      if CalculateDistance(waitTime, race.time) > race.distance {
        return Some(waitTime);
      }
      waitTime := waitTime + 1;
    }
    return None;
  }

  /** `findMaximumWaitTime`: counts down from `t - 1`. */
  method FindMaximumWaitTime(race: Race) returns (r: Option<int>)
    ensures r.Some? ==> 1 <= r.value < race.time && Wins(race, r.value)
    ensures r.Some? ==> forall w :: r.value < w < race.time ==> !Wins(race, w)
    ensures r.None? ==> forall w :: 1 <= w < race.time ==> !Wins(race, w)
  {
    var waitTime := race.time - 1;
    while waitTime > 0
      invariant waitTime <= race.time - 1
      invariant forall w :: waitTime < w < race.time ==> !Wins(race, w)
      decreases waitTime
    {
      if CalculateDistance(waitTime, race.time) > race.distance {
        return Some(waitTime);
      }
      waitTime := waitTime - 1;
    }
    return None;
  }

  /** The winning hold times form one interval: between two winners every
      hold time wins, since the distance is a concave parabola. */
  lemma Between(race: Race, lo: int, hi: int, w: int)
    requires lo <= w <= hi && Wins(race, lo) && Wins(race, hi)
    ensures Wins(race, w)
  {
    var t := race.time;
    if t - w - lo >= 0 {
      assert CalculateDistance(w, t) - CalculateDistance(lo, t) == (w - lo) * (t - w - lo);
      MulLe(0, w - lo, t - w - lo);
    } else {
      assert CalculateDistance(w, t) - CalculateDistance(hi, t) == (hi - w) * (w + hi - t);
      MulLe(0, hi - w, w + hi - t);
    }
  }

  /** The answer for one race: the number of winning hold times, or `NaN`
      when one of the searches finds none. */
  method WaysToWin(race: Race) returns (ways: Option<int>)
    ensures ways.Some? <==> CanWin(race)
    ensures ways.Some? ==> ways.value >= 1 && exists lo :: WinningInterval(race, lo, ways.value)
    ensures ways.Some? ==> ways.value == Ways(race)
  {
    var maximum := FindMaximumWaitTime(race);
    var minimum := FindMinimumWaitTime(race);
    if maximum.Some? && minimum.Some? {
      ways := Some(maximum.value - minimum.value + 1);
      forall w | 1 <= w < race.time
        ensures Wins(race, w) <==> minimum.value <= w < minimum.value + ways.value
      {
        if minimum.value <= w <= maximum.value {
          Between(race, minimum.value, maximum.value, w);
        }
      }
      assert WinningInterval(race, minimum.value, ways.value);
      IntervalCount(race, minimum.value, ways.value, race.time);
    } else {
      ways := None;
    }
  }

  /** The largest winner mirrors the smallest one: `max == t - min`. */
  lemma MaximumMirrorsMinimum(race: Race, minimum: int)
    requires 1 <= minimum < race.time && Wins(race, minimum)
    requires forall w :: 1 <= w < minimum ==> !Wins(race, w)
    ensures 1 <= race.time - minimum < race.time && Wins(race, race.time - minimum)
    ensures forall w :: race.time - minimum < w < race.time ==> !Wins(race, w)
  {
    DistanceSymmetric(minimum, race.time);
    forall w | race.time - minimum < w < race.time
      ensures !Wins(race, w)
    {
      DistanceSymmetric(w, race.time);
      assert !Wins(race, race.time - w);
    }
  }

  /** The product of the ways to win over the races. */
  function WaysProduct(races: seq<Race>): int
  {
    if races == [] then 1 else WaysProduct(races[..|races| - 1]) * Ways(races[|races| - 1])
  }

  /** `findSolution` of part 1: the product of the ways over all races. */
  method ProductOfWays(races: seq<Race>) returns (total: Option<int>)
    ensures total.Some? ==> total.value >= 1 && total.value == WaysProduct(races)
    ensures total.Some? <==> forall i :: 0 <= i < |races| ==> CanWin(races[i])
  {
    total := Some(1);
    for i := 0 to |races|
      invariant total.Some? ==> total.value >= 1 && total.value == WaysProduct(races[..i])
      invariant total.Some? <==> forall k :: 0 <= k < i ==> CanWin(races[k])
    {
      var ways := WaysToWin(races[i]);
      assert races[..i + 1][..i] == races[..i];
      if total.Some? && ways.Some? {
        MulLe(1, total.value, ways.value);
        total := Some(total.value * ways.value);
      } else {
        total := None;
      }
    }
    assert races[..|races|] == races;
  }

  /** A character the regular expression class `\s` matches: the ASCII
      white space, the no-break and other Unicode space separators, the line
      and paragraph separators and the byte-order mark. */
  predicate IsSpace(c: char)
  {
    c == ' ' || c == '\t' || c == '\n' || c == '\r' || c == '\U{000B}' || c == '\U{000C}'
    || c == '\U{00A0}' || c == '\U{1680}' || ('\U{2000}' <= c <= '\U{200A}') || c == '\U{2028}' || c == '\U{2029}'
    || c == '\U{202F}' || c == '\U{205F}' || c == '\U{3000}' || c == '\U{FEFF}'
  }

  /** Part 2 reads each line as one number: `replace(/\s+/g, '')` removes the
      white space between the digit groups before `Number` is applied. */
  function WithoutSpaces(s: string): (r: string)
    ensures |r| <= |s|
  {
    if s == [] then []
    else WithoutSpaces(s[..|s| - 1]) + (if IsSpace(s[|s| - 1]) then [] else [s[|s| - 1]])
  }

  /** Removing spaces from a line of digit groups leaves only digits. */
  lemma {:induction false} WithoutSpacesDigits(s: string)
    requires forall i :: 0 <= i < |s| ==> IsDigit(s[i]) || IsSpace(s[i])
    ensures forall i :: 0 <= i < |WithoutSpaces(s)| ==> IsDigit(WithoutSpaces(s)[i])
  {
    if s != [] {
      WithoutSpacesDigits(s[..|s| - 1]);
    }
  }

  /** The number read from a line of space-separated digit groups. */
  function Concatenated(s: string): nat
    requires forall i :: 0 <= i < |s| ==> IsDigit(s[i]) || IsSpace(s[i])
  {
    WithoutSpacesDigits(s);
    DecimalValue(WithoutSpaces(s))
  }

  function Pow10(n: nat): (r: nat)
    ensures r >= 1
  {
    if n == 0 then 1 else 10 * Pow10(n - 1)
  }

  /** Reading two digit strings one after the other shifts the first by the
      length of the second. */
  lemma {:induction false} DecimalAppend(a: string, b: string)
    requires forall i :: 0 <= i < |a| ==> IsDigit(a[i])
    requires forall i :: 0 <= i < |b| ==> IsDigit(b[i])
    ensures DecimalValue(a + b) == DecimalValue(a) * Pow10(|b|) + DecimalValue(b)
  {
    if b == [] {
      assert a + b == a;
    } else {
      var init := b[..|b| - 1];
      assert (a + b)[..|a + b| - 1] == a + init;
      assert (a + b)[|a + b| - 1] == b[|b| - 1];
      DecimalAppend(a, init);
      var x, y, p := DecimalValue(a), DecimalValue(init), Pow10(|init|);
      assert DecimalValue(a + b) == 10 * (x * p + y) + DigitValue(b[|b| - 1]);
      assert DecimalValue(b) == 10 * y + DigitValue(b[|b| - 1]);
      MulAssoc(x, p, 10);
      assert Pow10(|b|) == 10 * p;
    }
  }

  /** `findSolution` of part 2: one race read from the two lines. */
  method SingleRace(timeLine: string, distanceLine: string) returns (ways: Option<int>)
    requires forall i :: 0 <= i < |timeLine| ==> IsDigit(timeLine[i]) || IsSpace(timeLine[i])
    requires forall i :: 0 <= i < |distanceLine| ==> IsDigit(distanceLine[i]) || IsSpace(distanceLine[i])
    ensures var race := Race(Concatenated(distanceLine), Concatenated(timeLine));
      (ways.Some? <==> CanWin(race)) &&
      (ways.Some? ==> ways.value == Ways(race) && exists lo :: WinningInterval(race, lo, ways.value))
  {
    ways := WaysToWin(Race(Concatenated(distanceLine), Concatenated(timeLine)));
  }

  /** The spaces between groups do not matter: "7  15" reads as 715. */
  lemma ConcatenatedExample()
    ensures Concatenated("7  15") == 715
  {
    assert WithoutSpaces("7  15") == "715" by {
      assert "7  15"[..4] == "7  1" && "7  1"[..3] == "7  " && "7  "[..2] == "7 ";
      assert "7 "[..1] == "7" && "7"[..0] == [];
    }
    assert "715"[..2] == "71" && "71"[..1] == "7" && "7"[..0] == [];
  }
}
