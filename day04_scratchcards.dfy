/** Day 4, part 1: a scratch card's wins are its winning numbers that also
    occur among the player's numbers; the first win scores 1 point and every
    further win doubles the score. */
module Scratchcards {
  import opened Common

  /** A card, with both lists of numbers already parsed. */
  datatype Game = Game(winningNumbers: seq<int>, playerNumbers: seq<int>)

  /** `winningNumbers.filter(n => playerNumbers.includes(n))`. */
  function Matching(winning: seq<int>, player: seq<int>): (r: seq<int>)
    ensures |r| <= |winning|
  {
    if winning == [] then []
    else
      var last := winning[|winning| - 1];
      Matching(winning[..|winning| - 1], player) + (if last in player then [last] else [])
  }

  /** `countWinningNumbers`. */
  function CountWinningNumbers(game: Game): nat
  {
    |Matching(game.winningNumbers, game.playerNumbers)|
  }

  /** The matching numbers are exactly the winning numbers the player has,
      each counted as often as it is listed among the winning numbers. */
  lemma {:induction false} MatchingIsCommon(winning: seq<int>, player: seq<int>)
    ensures forall x :: x in Matching(winning, player) <==> x in winning && x in player
    ensures forall x :: x in player ==> Count(Matching(winning, player), x) == Count(winning, x)
  {
    if winning != [] {
      var init := winning[..|winning| - 1];
      var last := winning[|winning| - 1];
      MatchingIsCommon(init, player);
      assert winning == init + [last];
      forall x | x in player
        ensures Count(Matching(winning, player), x) == Count(winning, x)
      {
        CountAppend(Matching(init, player), if last in player then [last] else [], x);
        CountAppend(init, [last], x);
        assert [last][..0] == [];
        if last in player {
          assert Count([last], x) == (if last == x then 1 else 0);
        }
      }
    }
  }

  /** A card with no numbers in common has no wins, and one whose winning
      numbers all occur among the player's has as many wins as numbers. */
  lemma {:induction false} CountExtremes(winning: seq<int>, player: seq<int>)
    ensures (forall i :: 0 <= i < |winning| ==> winning[i] !in player) ==> Matching(winning, player) == []
    ensures (forall i :: 0 <= i < |winning| ==> winning[i] in player) ==> Matching(winning, player) == winning
  {
    if winning != [] {
      CountExtremes(winning[..|winning| - 1], player);
    }
  }

  function Pow2(n: nat): (r: nat)
    ensures r >= 1
  {
    if n == 0 then 1 else 2 * Pow2(n - 1)
  }

  /** `calculateScore`: 0 and 1 score themselves, `n` wins score `2^(n-1)`. */
  function CalculateScore(numberOfWins: nat): nat
  {
    if numberOfWins < 2 then numberOfWins else Pow2(numberOfWins - 1)
  }

  /** Every win after the first doubles the score. */
  lemma ScoreDoubles(n: nat)
    requires n >= 1
    ensures CalculateScore(n + 1) == 2 * CalculateScore(n)
  {
    if n == 1 {
      assert Pow2(1) == 2 * Pow2(0);
    }
  }

  /** The answer of part 1: the sum of the card scores. */
  function PointsTotal(games: seq<Game>): nat
  {
    if games == [] then 0
    else PointsTotal(games[..|games| - 1]) + CalculateScore(CountWinningNumbers(games[|games| - 1]))
  }

  /** A pile of cards without wins is worth nothing. */
  lemma {:induction false} NoWinsNoPoints(games: seq<Game>)
    requires forall i :: 0 <= i < |games| ==> CountWinningNumbers(games[i]) == 0
    ensures PointsTotal(games) == 0
  {
    if games != [] {
      NoWinsNoPoints(games[..|games| - 1]);
    }
  }
}

/** Day 4, part 2: each card wins copies of the cards that follow it, one per
    win; every copy of a card wins again. The `copies` field of each entry is
    increased in place, card by card. */
module ScratchcardCopies {
  import opened Common

  /** The copies of card `k` after the cards before `start` have handed out
      their copies: the specification of the `forEach` loop. */
  function CopiesAfter(scores: seq<nat>, start: nat): (r: seq<int>)
    requires start <= |scores|
    ensures |r| == |scores|
  {
    if start == 0 then seq(|scores|, i => 1)
    else Spread(CopiesAfter(scores, start - 1), scores, start - 1)
  }

  /** `createCopies(winsPerGame, start)` on values: card `start` adds its
      copies to each of the next `scores[start]` cards that exist. */
  function Spread(copies: seq<int>, scores: seq<nat>, start: nat): (r: seq<int>)
    requires |copies| == |scores| && start < |scores|
    ensures |r| == |copies|
  {
    seq(|copies|, k requires 0 <= k < |copies| =>
      if start < k <= start + scores[start] then copies[k] + copies[start] else copies[k])
  }

  /** `createCopies`: the loop from `start + 1` up to `start + score`,
      skipping indexes past the end of the list. */
  method CreateCopies(scores: seq<nat>, copies: array<int>, start: nat)
    requires copies.Length == |scores| && start < |scores|
    modifies copies
    ensures copies[..] == Spread(old(copies[..]), scores, start)
  {
    var index := start + 1;
    var upperBound := index + scores[start];
    while index < upperBound
      invariant start + 1 <= index <= upperBound || (index == start + 1 && upperBound == start + 1)
      invariant forall k :: 0 <= k < copies.Length ==>
        copies[k] == if start < k < index then old(copies[k]) + old(copies[start]) else old(copies[k])
    {
      if index < copies.Length {
        copies[index] := copies[index] + copies[start];
      }
      index := index + 1;
    }
  }

  /** `findSolution` of part 2: every card starts as one copy, each card in
      turn hands out its copies, and the copies are summed. */
  method TotalCards(scores: seq<nat>) returns (total: int)
    ensures total == Sum(CopiesAfter(scores, |scores|))
    ensures total >= |scores|
  {
    var copies := new int[|scores|](_ => 1);
    assert copies[..] == CopiesAfter(scores, 0);
    for index := 0 to |scores|
      invariant copies[..] == CopiesAfter(scores, index)
    {
      CreateCopies(scores, copies, index);
    }
    total := 0;
    for k := 0 to |scores|
      invariant total == Sum(copies[..k])
    {
      assert copies[..k + 1][..k] == copies[..k];
      total := total + copies[k];
    }
    assert copies[..|scores|] == copies[..];
    AtLeastOneEach(scores, |scores|);
    SumAtLeast(copies[..]);
  }

  /** Copies are never lost: every card keeps at least one. */
  lemma {:induction false} AtLeastOneEach(scores: seq<nat>, start: nat)
    requires start <= |scores|
    ensures forall k :: 0 <= k < |scores| ==> CopiesAfter(scores, start)[k] >= 1
  {
    if start > 0 {
      AtLeastOneEach(scores, start - 1);
    }
  }

  lemma {:induction false} SumAtLeast(s: seq<int>)
    requires forall k :: 0 <= k < |s| ==> s[k] >= 1
    ensures Sum(s) >= |s|
  {
    if s != [] {
      SumAtLeast(s[..|s| - 1]);
    }
  }

  /** A card's count is final once the cards before it have been processed:
      `createCopies(start)` never touches cards at or before `start`. */
  lemma {:induction false} Settled(scores: seq<nat>, k: nat, start: nat)
    requires k < |scores| && k <= start <= |scores|
    ensures CopiesAfter(scores, start)[k] == CopiesAfter(scores, k)[k]
  {
    if start > k {
      Settled(scores, k, start - 1);
    }
  }

  /** The copies of card `k` are one plus the copies of every earlier card
      whose wins reach it. */
  lemma {:induction false} CopiesRecurrence(scores: seq<nat>, k: nat, start: nat)
    requires k < |scores| && start <= k
    ensures CopiesAfter(scores, start)[k] ==
      1 + Sum(seq(start, j requires 0 <= j < start =>
        if k <= j + scores[j] then CopiesAfter(scores, |scores|)[j] else 0))
  {
    if start > 0 {
      CopiesRecurrence(scores, k, start - 1);
      var j := start - 1;
      Settled(scores, j, |scores|);
      var all := CopiesAfter(scores, |scores|);
      var f := seq(start, i requires 0 <= i < start => if k <= i + scores[i] then all[i] else 0);
      assert f[..start - 1] == seq(start - 1, i requires 0 <= i < start - 1 =>
        if k <= i + scores[i] then all[i] else 0);
    }
  }
}
