/** Day 7, part 2 (src/07/joker-scoring.ts): Camel Cards where `J` is a
    joker. Jokers are counted apart from the other cards and added to
    whichever group makes the strongest hand. */
module JokerScoring {
  import opened Common
  import opened Hands
  import Scoring

  datatype Hand = Hand(betValue: Option<int>, cards: string, jokers: int, score: int, cardValues: seq<int>)

  /** The card labels in order of strength: the label at index i is worth i. */
  const Labels := "J123456789TQKA"

  predicate IsCard(c: char)
  {
    c == '0' || c in Labels
  }

  /** `convertCardToNumber`: the joker is worth 0, `T` 10, `Q` 11, `K` 12
      and `A` 13; a digit is worth its value. */
  function ConvertCardToNumber(card: char): (n: int)
    requires IsCard(card)
    ensures forall i :: 0 <= i < |Labels| && Labels[i] == card ==> n == i
    ensures card == '0' ==> n == 0
    ensures n == 0 <==> card == 'J' || card == '0'
  {
    match card
    case 'T' => 10
    case 'J' => 0
    case 'Q' => 11
    case 'K' => 12
    case 'A' => 13
    case _ => DigitValue(card)
  }

  /** `hand.split('').map(convertCardToNumber)`. */
  function CardValues(hand: string): (values: seq<int>)
    requires forall i :: 0 <= i < |hand| ==> IsCard(hand[i])
    ensures |values| == |hand|
    ensures forall i :: 0 <= i < |hand| ==> (values[i] == 0 <==> hand[i] == 'J' || hand[i] == '0')
  {
    seq(|hand|, i requires 0 <= i < |hand| => ConvertCardToNumber(hand[i]))
  }

  /** `filter(card => card !== 0)`. */
  function NonJokers(values: seq<int>): (r: seq<int>)
    ensures |r| + Count(values, 0) == |values|
  {
    if values == [] then []
    else
      var rest := NonJokers(values[..|values| - 1]);
      var last := values[|values| - 1];
      if last == 0 then rest else rest + [last]
  }

  /** Leaving out the jokers keeps every other card as often as it was. */
  lemma {:induction false} NonJokersCount(values: seq<int>, x: int)
    requires x != 0
    ensures Count(NonJokers(values), x) == Count(values, x)
  {
    if values != [] {
      var init := values[..|values| - 1];
      var last := values[|values| - 1];
      NonJokersCount(init, x);
      if last != 0 {
        assert (NonJokers(init) + [last])[..|NonJokers(init)|] == NonJokers(init);
      }
    }
  }

  /** `some(count => count + jokers === total)`. */
  predicate SomeCountMakes(counts: seq<int>, jokers: int, total: int)
  {
    exists i :: 0 <= i < |counts| && counts[i] + jokers == total
  }

  predicate IsFiveOfAKind(hand: map<int, nat>, jokers: int)
  {
    SomeCountMakes(ObjectValues(hand), jokers, 5) || jokers == 5
  }

  predicate IsFourOfAKind(hand: map<int, nat>, jokers: int)
  {
    SomeCountMakes(ObjectValues(hand), jokers, 4) || jokers == 4
  }

  /** The two last of the sorted counts, plus the jokers, make five. */
  predicate IsFullHouse(hand: map<int, nat>, jokers: int)
  {
    LastTwo(SortCounts(ObjectValues(hand))) + jokers >= 5
  }

  predicate IsThreeOfAKind(hand: map<int, nat>, jokers: int)
  {
    SomeCountMakes(ObjectValues(hand), jokers, 3) || jokers == 3
  }

  /** The two last of the sorted counts, plus the jokers, make four. */
  predicate IsTwoPair(hand: map<int, nat>, jokers: int)
  {
    LastTwo(SortCounts(ObjectValues(hand))) + jokers >= 4
  }

  predicate IsOnePair(hand: map<int, nat>, jokers: int)
  {
    var vs := ObjectValues(hand);
    (exists i :: 0 <= i < |vs| && (vs[i] + jokers == 2 || vs[i] == 2)) || jokers == 2
  }

  /** `scoreHand`: the first predicate that holds, strongest first. */
  function ScoreHand(hand: map<int, nat>, jokers: int): int
  {
    FirstThatHolds(IsFiveOfAKind(hand, jokers), IsFourOfAKind(hand, jokers), IsFullHouse(hand, jokers),
      IsThreeOfAKind(hand, jokers), IsTwoPair(hand, jokers), IsOnePair(hand, jokers))
  }

  /** What the `some` predicates say about the grouped cards: some card,
      with the jokers added to it, makes the wanted group. */
  lemma PredicatesOnGroups(hand: map<int, nat>, jokers: int)
    ensures IsFiveOfAKind(hand, jokers) <==> (exists k :: k in hand && hand[k] + jokers == 5) || jokers == 5
    ensures IsFourOfAKind(hand, jokers) <==> (exists k :: k in hand && hand[k] + jokers == 4) || jokers == 4
    ensures IsThreeOfAKind(hand, jokers) <==> (exists k :: k in hand && hand[k] + jokers == 3) || jokers == 3
    ensures IsOnePair(hand, jokers) <==>
      (exists k :: k in hand && hand[k] + jokers == 2) || (exists k :: k in hand && hand[k] == 2) || jokers == 2
  {
    SomeCountOnGroups(hand, jokers, 5);
    SomeCountOnGroups(hand, jokers, 4);
    SomeCountOnGroups(hand, jokers, 3);
    SomeCountOnGroups(hand, jokers, 2);
    SomeCountOnGroups(hand, 0, 2);
    OnePairSplit(ObjectValues(hand), jokers);
  }

  lemma SomeCountOnGroups(hand: map<int, nat>, jokers: int, total: int)
    ensures SomeCountMakes(ObjectValues(hand), jokers, total) <==> exists k :: k in hand && hand[k] + jokers == total
  {
    var vs := ObjectValues(hand);
    if SomeCountMakes(vs, jokers, total) {
      var i :| 0 <= i < |vs| && vs[i] + jokers == total;
      assert exists k :: k in hand && hand[k] == vs[i] by {
        ObjectValuesAre(hand);
        assert vs[i] in vs;
      }
      var k :| k in hand && hand[k] == vs[i];
      assert hand[k] + jokers == total;
    }
    if exists k :: k in hand && hand[k] + jokers == total {
      var k :| k in hand && hand[k] + jokers == total;
      assert hand[k] in vs by {
        ObjectValuesListed(hand);
      }
      var i :| 0 <= i < |vs| && vs[i] == hand[k];
      assert vs[i] + jokers == total;
    }
  }

  lemma OnePairSplit(vs: seq<int>, jokers: int)
    ensures (exists i :: 0 <= i < |vs| && (vs[i] + jokers == 2 || vs[i] == 2)) <==>
      SomeCountMakes(vs, jokers, 2) || SomeCountMakes(vs, 0, 2)
  {
    if SomeCountMakes(vs, 0, 2) {
      var i :| 0 <= i < |vs| && vs[i] + 0 == 2;
      assert vs[i] == 2;
    }
  }

  /** Every count, with the jokers, that makes `total` is the value
      `total - jokers` among the counts. */
  lemma SomeCountIsMember(counts: seq<int>, jokers: int, total: int)
    ensures SomeCountMakes(counts, jokers, total) <==> (total - jokers) in counts
  {
    if (total - jokers) in counts {
      var i :| 0 <= i < |counts| && counts[i] == total - jokers;
      assert counts[i] + jokers == total;
    }
  }

  /** The chain of predicates, read off the sorted counts `s`. */
  function SortedChain(s: seq<int>, jokers: int): int
  {
    FirstThatHolds((5 - jokers) in s || jokers == 5, (4 - jokers) in s || jokers == 4,
      LastTwo(s) + jokers >= 5, (3 - jokers) in s || jokers == 3,
      LastTwo(s) + jokers >= 4, (2 - jokers) in s || 2 in s || jokers == 2)
  }

  /** The `some` predicates do not depend on the order of the counts, so
      the scorer can be read off the sorted counts. */
  lemma ScoreHandSorted(hand: map<int, nat>, jokers: int)
    ensures ScoreHand(hand, jokers) == SortedChain(SortCounts(ObjectValues(hand)), jokers)
  {
    var vs := ObjectValues(hand);
    var s := SortCounts(vs);
    assert forall x :: x in vs <==> x in s by {
      SortCountsPermutes(vs);
      SameElements(vs, s);
    }
    SomeTestsSorted(hand, jokers, s);
  }

  /** The tests that look for one count read the same on any listing `s`
      of the same counts. */
  lemma SomeTestsSorted(hand: map<int, nat>, jokers: int, s: seq<int>)
    requires forall x :: x in ObjectValues(hand) <==> x in s
    ensures IsFiveOfAKind(hand, jokers) == ((5 - jokers) in s || jokers == 5)
    ensures IsFourOfAKind(hand, jokers) == ((4 - jokers) in s || jokers == 4)
    ensures IsThreeOfAKind(hand, jokers) == ((3 - jokers) in s || jokers == 3)
    ensures IsOnePair(hand, jokers) == ((2 - jokers) in s || 2 in s || jokers == 2)
  {
    LargeTestsSorted(hand, jokers, s);
    SmallTestsSorted(hand, jokers, s);
  }

  lemma LargeTestsSorted(hand: map<int, nat>, jokers: int, s: seq<int>)
    requires forall x :: x in ObjectValues(hand) <==> x in s
    ensures IsFiveOfAKind(hand, jokers) == ((5 - jokers) in s || jokers == 5)
    ensures IsFourOfAKind(hand, jokers) == ((4 - jokers) in s || jokers == 4)
  {
    SomeCountSorted(ObjectValues(hand), s, jokers, 5);
    SomeCountSorted(ObjectValues(hand), s, jokers, 4);
  }

  lemma SmallTestsSorted(hand: map<int, nat>, jokers: int, s: seq<int>)
    requires forall x :: x in ObjectValues(hand) <==> x in s
    ensures IsThreeOfAKind(hand, jokers) == ((3 - jokers) in s || jokers == 3)
    ensures IsOnePair(hand, jokers) == ((2 - jokers) in s || 2 in s || jokers == 2)
  {
    SomeCountSorted(ObjectValues(hand), s, jokers, 3);
    OnePairSorted(ObjectValues(hand), s, jokers);
  }

  /** Whether some count makes `total` depends only on which counts occur. */
  lemma SomeCountSorted(vs: seq<int>, s: seq<int>, jokers: int, total: int)
    requires forall x :: x in vs <==> x in s
    ensures SomeCountMakes(vs, jokers, total) == ((total - jokers) in s)
  {
    SomeCountIsMember(vs, jokers, total);
  }

  lemma OnePairSorted(vs: seq<int>, s: seq<int>, jokers: int)
    requires forall x :: x in vs <==> x in s
    ensures (exists i :: 0 <= i < |vs| && (vs[i] + jokers == 2 || vs[i] == 2)) == ((2 - jokers) in s || 2 in s)
  {
    OnePairSplit(vs, jokers);
    SomeCountIsMember(vs, jokers, 2);
    SomeCountIsMember(vs, 0, 2);
  }

  /** The jokers join the largest group: five cards, `jokers` of them
      jokers and the rest grouped into `hand`, score the category given by
      the number of groups and the largest group plus the jokers. Five
      jokers (no groups) are five of a kind. */
  lemma ScoreByProfile(hand: map<int, nat>, jokers: int)
    requires 0 <= jokers
    requires Sum(ObjectValues(hand)) + jokers == 5
    requires forall i :: 0 <= i < |ObjectValues(hand)| ==> ObjectValues(hand)[i] >= 1
    ensures ScoreHand(hand, jokers) == Category(|hand|, Largest(ObjectValues(hand)) + jokers)
  {
    var vs := ObjectValues(hand);
    var s := SortCounts(vs);
    assert |hand| == |vs|;
    ScoreHandSorted(hand, jokers);
    assert SortedChain(s, jokers) == Category(|vs|, Largest(vs) + jokers) by {
      SortCountsFacts(vs);
      SortedProfile(vs, s, jokers);
    }
  }

  /** The sorted counts `s` of the non-joker groups `vs` have the profile of
      a partition of the non-joker cards. */
  lemma SortedProfile(vs: seq<int>, s: seq<int>, jokers: int)
    requires 0 <= jokers && Sum(vs) + jokers == 5
    requires forall i :: 0 <= i < |vs| ==> vs[i] >= 1
    requires Ascending(s) && multiset(s) == multiset(vs) && Sum(s) == Sum(vs)
    ensures SortedChain(s, jokers) == Category(|vs|, Largest(vs) + jokers)
  {
    assert |vs| == |s| && Largest(vs) == Largest(s) by {
      Rearranged(vs, s);
    }
    PartitionProfile(vs, s, jokers);
  }

  lemma PartitionProfile(vs: seq<int>, s: seq<int>, jokers: int)
    requires 0 <= jokers && Sum(vs) + jokers == 5
    requires forall i :: 0 <= i < |vs| ==> vs[i] >= 1
    requires Ascending(s) && multiset(s) == multiset(vs) && Sum(s) == Sum(vs)
    ensures SortedChain(s, jokers) == Category(|s|, Largest(s) + jokers)
  {
    assert s in PartitionsOf(Sum(s)) by {
      SameElements(vs, s);
      PositiveRearranged(vs, s);
      Partitions(s);
    }
    JokerProfiles(s, jokers);
  }

  /** The sorted chain on every partition of the non-joker cards, with
      `groups` groups and largest group `largest`. */
  lemma JokerProfiles(s: seq<int>, jokers: int)
    requires 0 <= jokers && s in PartitionsOf(Sum(s)) && Sum(s) + jokers == 5
    ensures SortedChain(s, jokers) == Category(|s|, Largest(s) + jokers)
  {
    if jokers <= 1 {
      FewJokerProfiles(s, jokers);
    } else {
      ManyJokerProfiles(s, jokers);
    }
  }

  lemma FewJokerProfiles(s: seq<int>, jokers: int)
    requires 0 <= jokers <= 1 && s in PartitionsOf(Sum(s)) && Sum(s) + jokers == 5
    ensures SortedChain(s, jokers) == Category(|s|, Largest(s) + jokers)
  {
    if jokers == 0 {
      NoJokerProfiles(s);
    } else {
      OneJokerProfiles(s);
    }
  }

  lemma ManyJokerProfiles(s: seq<int>, jokers: int)
    requires 2 <= jokers && s in PartitionsOf(Sum(s)) && Sum(s) + jokers == 5
    ensures SortedChain(s, jokers) == Category(|s|, Largest(s) + jokers)
  {
    if jokers == 2 {
      TwoJokerProfiles(s);
    } else if jokers == 3 {
      ThreeJokerProfiles(s);
    } else if jokers == 4 {
      FourJokerProfiles(s);
    } else {
      FiveJokerProfiles(s);
    }
  }

  lemma NoJokerProfiles(s: seq<int>)
    requires s in PartitionsOf(5)
    ensures SortedChain(s, 0) == Category(|s|, Largest(s))
  {
    if |s| <= 2 {
      NoJokerFewGroups(s);
    } else {
      NoJokerManyGroups(s);
    }
  }

  lemma NoJokerFewGroups(s: seq<int>)
    requires s in PartitionsOf(5) && |s| <= 2
    ensures SortedChain(s, 0) == Category(|s|, Largest(s))
  {
    NoJokerFewTable();
    if |s| == 1 {
      assert s == [5];
    } else if s[0] == 1 {
      assert s == [1, 4];
    } else {
      assert s == [2, 3];
    }
  }

  lemma NoJokerManyGroups(s: seq<int>)
    requires s in PartitionsOf(5) && |s| > 2
    ensures SortedChain(s, 0) == Category(|s|, Largest(s))
  {
    NoJokerManyTable();
    if |s| == 3 {
      if s[1] == 1 {
        assert s == [1, 1, 3];
      } else {
        assert s == [1, 2, 2];
      }
    } else if |s| == 4 {
      assert s == [1, 1, 1, 2];
    } else {
      assert s == [1, 1, 1, 1, 1];
    }
  }

  lemma NoJokerFewTable()
    ensures SortedChain([5], 0) == Category(1, Largest([5]))
    ensures SortedChain([1, 4], 0) == Category(2, Largest([1, 4]))
    ensures SortedChain([2, 3], 0) == Category(2, Largest([2, 3]))
  {
  }

  lemma NoJokerManyTable()
    ensures SortedChain([1, 1, 3], 0) == Category(3, Largest([1, 1, 3]))
    ensures SortedChain([1, 2, 2], 0) == Category(3, Largest([1, 2, 2]))
    ensures SortedChain([1, 1, 1, 2], 0) == Category(4, Largest([1, 1, 1, 2]))
    ensures SortedChain([1, 1, 1, 1, 1], 0) == Category(5, Largest([1, 1, 1, 1, 1]))
  {
  }

  lemma OneJokerProfiles(s: seq<int>)
    requires s in PartitionsOf(4)
    ensures SortedChain(s, 1) == Category(|s|, Largest(s) + 1)
  {
    OneJokerTable();
    if |s| == 1 {
      assert s == [4];
    } else if |s| == 2 {
      if s[0] == 1 {
        assert s == [1, 3];
      } else {
        assert s == [2, 2];
      }
    } else if |s| == 3 {
      assert s == [1, 1, 2];
    } else {
      assert s == [1, 1, 1, 1];
    }
  }

  lemma OneJokerTable()
    ensures SortedChain([4], 1) == Category(1, Largest([4]) + 1)
    ensures SortedChain([1, 3], 1) == Category(2, Largest([1, 3]) + 1)
    ensures SortedChain([2, 2], 1) == Category(2, Largest([2, 2]) + 1)
    ensures SortedChain([1, 1, 2], 1) == Category(3, Largest([1, 1, 2]) + 1)
    ensures SortedChain([1, 1, 1, 1], 1) == Category(4, Largest([1, 1, 1, 1]) + 1)
  {
  }

  lemma TwoJokerProfiles(s: seq<int>)
    requires s in PartitionsOf(3)
    ensures SortedChain(s, 2) == Category(|s|, Largest(s) + 2)
  {
    TwoJokerTable();
    if |s| == 1 {
      assert s == [3];
    } else if |s| == 2 {
      assert s == [1, 2];
    } else {
      assert s == [1, 1, 1];
    }
  }

  lemma TwoJokerTable()
    ensures SortedChain([3], 2) == Category(1, Largest([3]) + 2)
    ensures SortedChain([1, 2], 2) == Category(2, Largest([1, 2]) + 2)
    ensures SortedChain([1, 1, 1], 2) == Category(3, Largest([1, 1, 1]) + 2)
  {
  }

  lemma ThreeJokerProfiles(s: seq<int>)
    requires s in PartitionsOf(2)
    ensures SortedChain(s, 3) == Category(|s|, Largest(s) + 3)
  {
    ThreeJokerTable();
    if |s| == 1 {
      assert s == [2];
    } else {
      assert s == [1, 1];
    }
  }

  lemma ThreeJokerTable()
    ensures SortedChain([2], 3) == Category(1, Largest([2]) + 3)
    ensures SortedChain([1, 1], 3) == Category(2, Largest([1, 1]) + 3)
  {
  }

  lemma FourJokerProfiles(s: seq<int>)
    requires s in PartitionsOf(1)
    ensures SortedChain(s, 4) == Category(|s|, Largest(s) + 4)
  {
    FourJokerTable();
    assert s == [1];
  }

  lemma FourJokerTable()
    ensures SortedChain([1], 4) == Category(1, Largest([1]) + 4)
  {
  }

  lemma FiveJokerProfiles(s: seq<int>)
    requires s in PartitionsOf(0)
    ensures SortedChain(s, 5) == Category(|s|, Largest(s) + 5)
  {
    FiveJokerTable();
    assert s == [];
  }

  lemma FiveJokerTable()
    ensures SortedChain([], 5) == Category(0, Largest([]) + 5)
  {
  }

  /** The five cards, `jokers` of them jokers and the others in
      `nonJokers`: the score is the category with the jokers in the largest
      group. */
  lemma ScoreHandCategory(nonJokers: seq<int>, jokers: int)
    requires 0 <= jokers && |nonJokers| + jokers == 5
    ensures ScoreHand(Groups(nonJokers), jokers) ==
      Category(|Groups(nonJokers)|, Largest(ObjectValues(Groups(nonJokers))) + jokers)
  {
    GroupsValues(nonJokers);
    GroupsScore(nonJokers, jokers);
  }

  lemma GroupsScore(nonJokers: seq<int>, jokers: int)
    requires 0 <= jokers && Sum(ObjectValues(Groups(nonJokers))) + jokers == 5
    requires forall i :: 0 <= i < |ObjectValues(Groups(nonJokers))| ==> ObjectValues(Groups(nonJokers))[i] >= 1
    ensures ScoreHand(Groups(nonJokers), jokers) ==
      Category(|Groups(nonJokers)|, Largest(ObjectValues(Groups(nonJokers))) + jokers)
  {
    var groups := Groups(nonJokers);
    ScoreByProfile(groups, jokers);
  }

  /** Without jokers, both scorers agree on every hand of five cards. */
  lemma NoJokersAsPlain(cards: seq<int>)
    requires |cards| == 5
    ensures ScoreHand(Groups(cards), 0) == Scoring.ScoreHand(Groups(cards))
  {
    ScoreHandCategory(cards, 0);
    Scoring.ScoreHandCategory(cards);
  }

  /** `processHand`: the jokers are counted and left out of the groups,
      which hold the other cards; `ScoreHandCategory` gives the score of a
      hand of five cards split this way. */
  function ProcessHand(hand: string, betValue: Option<int>): (h: Hand)
    requires forall i :: 0 <= i < |hand| ==> IsCard(hand[i])
    ensures h.cards == hand && h.betValue == betValue && h.cardValues == CardValues(hand)
    ensures h.jokers == Count(h.cardValues, 0)
    ensures |NonJokers(h.cardValues)| + h.jokers == |hand|
    ensures forall x :: x != 0 ==> Count(NonJokers(h.cardValues), x) == Count(h.cardValues, x)
    ensures h.score == ScoreHand(Groups(NonJokers(h.cardValues)), h.jokers)
  {
    var numericCards := CardValues(hand);
    var jokers := Count(numericCards, 0);
    forall x | x != 0
      ensures Count(NonJokers(numericCards), x) == Count(numericCards, x)
    {
      NonJokersCount(numericCards, x);
    }
    var score := ScoreHand(Groups(NonJokers(numericCards)), jokers);
    Hand(betValue, hand, jokers, score, numericCards)
  }

  function HandKey(h: Hand): Key
  {
    Key(h.score, h.cardValues)
  }

  /** `sortHands`: ascending by score and, among equal scores, by card
      values, in which a joker is worth 0. */
  method SortHands(hands: array<Hand>)
    requires forall i, j :: 0 <= i < hands.Length && 0 <= j < hands.Length ==>
      |hands[i].cardValues| == |hands[j].cardValues|
    modifies hands
    ensures multiset(hands[..]) == multiset(old(hands[..]))
    ensures forall p, q :: 0 <= p < q < hands.Length ==>
      hands[p].score <= hands[q].score &&
      (hands[p].score == hands[q].score ==> LexLessOrEqual(hands[p].cardValues, hands[q].cardValues))
  {
    SortByKey(hands, HandKey);
    forall p, q | 0 <= p < q < hands.Length
      ensures hands[p].score <= hands[q].score &&
        (hands[p].score == hands[q].score ==> LexLessOrEqual(hands[p].cardValues, hands[q].cardValues))
    {
      SortedMeans(hands[..], HandKey, p, q);
    }
  }
}
