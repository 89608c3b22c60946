/** Day 20, part 1, `src/20/part-1.ts`: the score of a number of button
    pushes, worked out from the pulse counts of the pushes that make up a
    cycle of the machine. The score is the number of high pulses times the
    number of low pulses over all the pushes. */
module PulseScores {
  import opened Common

  /** `PulseCounter`: the high and low pulses of one push, counted once per
      destination. */
  datatype PulseCounter = PulseCounter(high: nat, low: nat)

  /** The counters added up, as the `reduce` in
      `calculatePulsesForCompletedCycles` does. */
  function Totals(cycle: seq<PulseCounter>): PulseCounter
  {
    if cycle == [] then PulseCounter(0, 0)
    else
      var t := Totals(cycle[..|cycle| - 1]);
      var step := cycle[|cycle| - 1];
      PulseCounter(t.high + step.high, t.low + step.low)
  }

  lemma {:induction false} TotalsAppend(a: seq<PulseCounter>, b: seq<PulseCounter>)
    ensures Totals(a + b) == PulseCounter(Totals(a).high + Totals(b).high, Totals(a).low + Totals(b).low)
    decreases |b|
  {
    if b == [] {
      assert a + b == a;
    } else {
      assert (a + b)[..|a + b| - 1] == a + b[..|b| - 1];
      TotalsAppend(a, b[..|b| - 1]);
    }
  }

  /** `calculatePulsesForCompletedCycles`: the whole cycles among the
      pushes, `k` of them, score the cycle's highs times `k` times its lows
      times `k`. */
  function PulsesForCompletedCycles(cycle: seq<PulseCounter>, numberOfPushes: nat): (score: nat)
    requires |cycle| > 0
  {
    var totalPulses := Totals(cycle);
    var completedCycles := numberOfPushes / |cycle|;
    totalPulses.high * completedCycles * totalPulses.low * completedCycles
  }

  /** The score of the pushes after the last whole cycle: the highs times the
      lows of that many first steps of the cycle. */
  function RemainingScore(cycle: seq<PulseCounter>, numberOfPushes: nat): (score: nat)
    requires |cycle| > 0
  {
    var t := Totals(cycle[..numberOfPushes % |cycle|]);
    t.high * t.low
  }

  /** `calculateScoreForRemainingSteps`. */
  method ScoreForRemainingSteps(cycle: seq<PulseCounter>, numberOfPushes: nat) returns (score: nat)
    requires |cycle| > 0
    ensures score == RemainingScore(cycle, numberOfPushes)
  {
    var remainingSteps := numberOfPushes % |cycle|;
    var high: nat, low: nat := 0, 0;
    for index := 0 to remainingSteps
      invariant PulseCounter(high, low) == Totals(cycle[..index])
    {
      assert cycle[..index + 1][..index] == cycle[..index];
      high := high + cycle[index].high;
      low := low + cycle[index].low;
    }
    score := high * low;
  }

  /** With a whole number of cycles there is nothing left over. */
  lemma RemainingScoreOfWholeCycles(cycle: seq<PulseCounter>, numberOfPushes: nat)
    requires |cycle| > 0 && numberOfPushes % |cycle| == 0
    ensures RemainingScore(cycle, numberOfPushes) == 0
  {
    assert cycle[..0] == [];
  }

  /** `calculateScore` as written: the two parts added. */
  function CalculateScore(cycle: seq<PulseCounter>, numberOfPushes: nat): (score: nat)
    requires |cycle| > 0
  {
    PulsesForCompletedCycles(cycle, numberOfPushes) + RemainingScore(cycle, numberOfPushes)
  }

  /* ---------------------------------------------------------------------- */
  /* The score of the pushes                                                */

  /** The counters of `n` pushes of a machine that repeats `cycle`: push `i`
      counts as step `i % |cycle|`. */
  function Repeated(cycle: seq<PulseCounter>, n: nat): (r: seq<PulseCounter>)
    requires |cycle| > 0
    ensures |r| == n
  {
    seq(n, i requires 0 <= i < n => cycle[i % |cycle|])
  }

  /** The score the puzzle asks for: all the highs times all the lows of
      the pushes. */
  function PushScore(cycle: seq<PulseCounter>, n: nat): nat
    requires |cycle| > 0
  {
    Score(Totals(Repeated(cycle, n)))
  }

  /** The highs times the lows. */
  function Score(counts: PulseCounter): nat
  {
    counts.high * counts.low
  }

  /** The counts of `k` runs of a cycle with totals `t`, and then of steps
      with totals `rest`. */
  function Combine(t: PulseCounter, k: nat, rest: PulseCounter): PulseCounter
  {
    PulseCounter(t.high * k + rest.high, t.low * k + rest.low)
  }

  /** Past `k` whole cycles, the pushes run through the cycle from its
      start again. */
  lemma RepeatedSplit(cycle: seq<PulseCounter>, k: nat, r: nat)
    requires 0 <= r <= |cycle| && |cycle| > 0
    ensures k * |cycle| + r >= 0
    ensures Repeated(cycle, k * |cycle| + r) == Repeated(cycle, k * |cycle|) + cycle[..r]
  {
    var w := |cycle|;
    var whole := Repeated(cycle, k * w + r);
    forall j | 0 <= j < r
      ensures whole[k * w + j] == cycle[j]
    {
      DivModUnique(k, j, w);
    }
    assert whole == Repeated(cycle, k * w) + cycle[..r];
  }

  /** `k` whole cycles count `k` times the cycle's pulses. */
  lemma {:induction false} WholeCyclesTotals(cycle: seq<PulseCounter>, k: nat)
    requires |cycle| > 0
    ensures Totals(Repeated(cycle, k * |cycle|)) == PulseCounter(Totals(cycle).high * k, Totals(cycle).low * k)
    decreases k
  {
    var w, t := |cycle|, Totals(cycle);
    if k == 0 {
      assert Repeated(cycle, 0) == [];
    } else {
      var j := k - 1;
      assert k * w == j * w + w;
      RepeatedSplit(cycle, j, w);
      assert cycle[..w] == cycle;
      WholeCyclesTotals(cycle, j);
      TotalsAppend(Repeated(cycle, j * w), cycle);
      MulSucc(t.high, j);
      MulSucc(t.low, j);
    }
  }

  /** `k` whole cycles and then the first `r` steps of the next. */
  lemma RepeatedTotals(cycle: seq<PulseCounter>, k: nat, r: nat)
    requires 0 <= r < |cycle|
    ensures var t, s := Totals(cycle), Totals(cycle[..r]);
            Totals(Repeated(cycle, k * |cycle| + r)) == PulseCounter(t.high * k + s.high, t.low * k + s.low)
  {
    RepeatedSplit(cycle, k, r);
    WholeCyclesTotals(cycle, k);
    TotalsAppend(Repeated(cycle, k * |cycle|), cycle[..r]);
  }

  lemma MulSucc(a: int, j: int)
    ensures a * j + a == a * (j + 1)
  {
  }

  /** Multiplying out a product of two sums. */
  lemma ProductOfSums(a: int, b: int, c: int, d: int)
    ensures (a + b) * (c + d) == a * c + a * d + b * c + b * d
  {
  }

  /** The evidently intended `calculateScore`: the highs and the lows of
      the whole cycles and of the remaining steps added up first, then
      multiplied. It is the score of the pushes. */
  function CalculateScoreIntended(cycle: seq<PulseCounter>, numberOfPushes: nat): (score: nat)
    requires |cycle| > 0
    ensures score == PushScore(cycle, numberOfPushes)
  {
    WholeCyclesAndRest(numberOfPushes, |cycle|);
    var k, r := numberOfPushes / |cycle|, numberOfPushes % |cycle|;
    IntendedTotals(cycle, numberOfPushes);
    Score(Combine(Totals(cycle), k, Totals(cycle[..r])))
  }

  /** The pushes are the whole cycles and the steps left over. */
  lemma WholeCyclesAndRest(n: nat, length: nat)
    requires length > 0
    ensures n == (n / length) * length + n % length
    ensures n / length >= 0 && 0 <= n % length < length
  {
  }

  /** The pushes are the whole cycles and then the first steps of one more,
      so their counts add up to the cycle's totals `k` times plus those of
      the steps left over. */
  lemma IntendedTotals(cycle: seq<PulseCounter>, n: nat)
    requires |cycle| > 0
    ensures n / |cycle| >= 0 && 0 <= n % |cycle| < |cycle|
    ensures Totals(Repeated(cycle, n)) == Combine(Totals(cycle), n / |cycle|, Totals(cycle[..n % |cycle|]))
  {
    WholeCyclesAndRest(n, |cycle|);
    RepeatedTotals(cycle, n / |cycle|, n % |cycle|);
  }

  /** The product of the sums, the sum of the products. */
  lemma Regroup(th: int, tl: int, k: int, rh: int, rl: int)
    ensures th * k * tl * k + rh * rl + th * k * rl + rh * tl * k == (th * k + rh) * (tl * k + rl)
  {
    var h, l := th * k, tl * k;
    ProductOfSums(h, rh, l, rl);
    assert h * l == th * k * tl * k by {
      MulAssoc(h, tl, k);
    }
    assert rh * l == rh * tl * k by {
      MulAssoc(rh, tl, k);
    }
  }

  /** `calculateScore` as written drops the cross terms of that product:
      it is short by the whole cycles' highs times the remaining lows plus
      the remaining highs times the whole cycles' lows. */
  lemma CalculateScoreDropsCrossTerms(cycle: seq<PulseCounter>, numberOfPushes: nat)
    requires |cycle| > 0
    ensures var t, k, rest := Totals(cycle), numberOfPushes / |cycle|, Totals(cycle[..numberOfPushes % |cycle|]);
            CalculateScore(cycle, numberOfPushes) + t.high * k * rest.low + rest.high * t.low * k
            == PushScore(cycle, numberOfPushes)
  {
    var t, k, rest := Totals(cycle), numberOfPushes / |cycle|, Totals(cycle[..numberOfPushes % |cycle|]);
    Regroup(t.high, t.low, k, rest.high, rest.low);
    assert CalculateScoreIntended(cycle, numberOfPushes) == PushScore(cycle, numberOfPushes);
  }

  /** A cycle of two pushes of one high and one low pulse each, pushed three
      times: three highs and three lows make 9, but `calculateScore` gives
      2 * 1 * 2 * 1 + 1 * 1 = 5. */
  lemma CalculateScoreOfThreePushes()
    ensures var cycle := [PulseCounter(1, 1), PulseCounter(1, 1)];
            CalculateScore(cycle, 3) == 5 && PushScore(cycle, 3) == 9
  {
    var cycle := [PulseCounter(1, 1), PulseCounter(1, 1)];
    assert cycle[..1] == [PulseCounter(1, 1)];
    assert Totals(cycle[..1]) == PulseCounter(1, 1);
    assert Totals(cycle) == PulseCounter(2, 2);
    assert CalculateScoreIntended(cycle, 3) == 9;
  }

  /** When the pushes are a whole number of cycles, the two agree. */
  lemma CalculateScoreOfWholeCycles(cycle: seq<PulseCounter>, numberOfPushes: nat)
    requires |cycle| > 0 && numberOfPushes % |cycle| == 0
    ensures CalculateScore(cycle, numberOfPushes) == PushScore(cycle, numberOfPushes)
  {
    assert cycle[..0] == [];
    CalculateScoreDropsCrossTerms(cycle, numberOfPushes);
  }
}
