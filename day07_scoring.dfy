/** Day 7, part 1 (src/07/scoring.ts): Camel Cards hands scored by their
    groups of equal cards. */
module Scoring {
  import opened Common
  import opened Hands

  datatype Hand = Hand(betValue: Option<int>, cards: string, score: int, cardValues: seq<int>)

  /** The card labels from weakest to strongest. */
  const Labels := "123456789TJQKA"

  predicate IsCard(c: char)
  {
    c == '0' || c in Labels
  }

  /** `convertCardToNumber`: a card's strength, 1 for `1` up to 14 for `A`. */
  function ConvertCardToNumber(card: char): (n: int)
    requires IsCard(card)
    ensures forall i :: 0 <= i < |Labels| && Labels[i] == card ==> n == i + 1
    ensures card == '0' ==> n == 0
  {
    match card
    case 'T' => 10
    case 'J' => 11
    case 'Q' => 12
    case 'K' => 13
    case 'A' => 14
    case _ => DigitValue(card)
  }

  /** `hand.split('').map(convertCardToNumber)`. */
  function CardValues(hand: string): (values: seq<int>)
    requires forall i :: 0 <= i < |hand| ==> IsCard(hand[i])
    ensures |values| == |hand|
  {
    seq(|hand|, i requires 0 <= i < |hand| => ConvertCardToNumber(hand[i]))
  }

  predicate IsFiveOfAKind(hand: map<int, nat>)
  {
    5 in ObjectValues(hand)
  }

  predicate IsFourOfAKind(hand: map<int, nat>)
  {
    4 in ObjectValues(hand)
  }

  predicate IsFullHouse(hand: map<int, nat>)
  {
    3 in ObjectValues(hand) && 2 in ObjectValues(hand)
  }

  predicate IsThreeOfAKind(hand: map<int, nat>)
  {
    3 in ObjectValues(hand)
  }

  predicate IsTwoPair(hand: map<int, nat>)
  {
    Count(ObjectValues(hand), 2) == 2
  }

  predicate IsOnePair(hand: map<int, nat>)
  {
    Count(ObjectValues(hand), 2) == 1 && CountAbove(ObjectValues(hand), 2) == 0
  }

  /** What the predicates say about the cards and their counts: five, four
      or three of a card; a full house holds a card three times and another
      twice; two pair is exactly two cards held twice; one pair is exactly
      one card held twice and none held more often. */
  lemma PredicatesOnGroups(hand: map<int, nat>)
    ensures IsFiveOfAKind(hand) <==> exists k :: k in hand && hand[k] == 5
    ensures IsFourOfAKind(hand) <==> exists k :: k in hand && hand[k] == 4
    ensures IsFullHouse(hand) <==> (exists k :: k in hand && hand[k] == 3) && (exists k :: k in hand && hand[k] == 2)
    ensures IsThreeOfAKind(hand) <==> exists k :: k in hand && hand[k] == 3
    ensures IsTwoPair(hand) <==> |KeysWith(hand, 2)| == 2
    ensures IsOnePair(hand) <==> |KeysWith(hand, 2)| == 1 && forall k :: k in hand ==> hand[k] <= 2
  {
    ObjectValuesAre(hand);
    ObjectValuesListed(hand);
    CountValues(hand, 2);
    ObjectValuesAtMost(hand, 2);
  }

  /** `scoreHand`: the first predicate that holds, strongest first. */
  function ScoreHand(hand: map<int, nat>): int
  {
    if IsFiveOfAKind(hand) then FiveOfAKind
    else if IsFourOfAKind(hand) then FourOfAKind
    else if IsFullHouse(hand) then FullHouse
    else if IsThreeOfAKind(hand) then ThreeOfAKind
    else if IsTwoPair(hand) then TwoPair
    else if IsOnePair(hand) then OnePair
    else HighCard
  }

  /** For the grouping of five cards the chain of predicates picks the
      poker category: it depends only on how many different cards there are
      and how many copies of the most frequent one. */
  lemma ScoreHandCategory(cards: seq<int>)
    requires |cards| == 5
    ensures ScoreHand(Groups(cards)) == Category(|Groups(cards)|, Largest(ObjectValues(Groups(cards))))
  {
    GroupsValues(cards);
    ScoreByProfile(Groups(cards));
  }

  lemma ScoreByProfile(hand: map<int, nat>)
    requires Sum(ObjectValues(hand)) == 5
    requires forall i :: 0 <= i < |ObjectValues(hand)| ==> ObjectValues(hand)[i] >= 1
    ensures ScoreHand(hand) == Category(|hand|, Largest(ObjectValues(hand)))
  {
    CountsProfile(ObjectValues(hand));
    ScoreFromProfile(hand);
  }

  /** Five cards' counts, in whatever order, have one of the profiles of
      a partition of 5. */
  lemma CountsProfile(vs: seq<int>)
    requires Sum(vs) == 5 && forall i :: 0 <= i < |vs| ==> vs[i] >= 1
    ensures FiveCardFacts(vs)
  {
    var s := SortCounts(vs);
    SortCountsFacts(vs);
    Rearranged(vs, s);
    assert s in PartitionsOf(5) by {
      PositiveRearranged(vs, s);
      Partitions(s);
    }
    FiveCardProfiles(s);
  }

  /** The last step: the predicates read off the counts. */
  lemma ScoreFromProfile(hand: map<int, nat>)
    requires FiveCardFacts(ObjectValues(hand))
    ensures ScoreHand(hand) == Category(|hand|, Largest(ObjectValues(hand)))
  {
    var vs := ObjectValues(hand);
    ChainIsCategory(|vs|, Largest(vs), 5 in vs, 4 in vs, 3 in vs && 2 in vs,
      3 in vs, Count(vs, 2) == 2, Count(vs, 2) == 1 && CountAbove(vs, 2) == 0);
  }

  /** The predicate chain, once each predicate is known in terms of the
      number of groups `n` and the largest group `largest`. */
  lemma ChainIsCategory(n: int, largest: int, five: bool, four: bool, fullHouse: bool,
                        three: bool, twoPair: bool, onePair: bool)
    requires 1 <= n <= 5
    requires five <==> n == 1
    requires four <==> n == 2 && largest == 4
    requires fullHouse <==> n == 2 && largest == 3
    requires three <==> largest == 3
    requires twoPair <==> n == 3 && largest == 2
    requires onePair <==> n == 4
    requires n == 2 ==> largest == 3 || largest == 4
    requires n == 3 ==> largest == 2 || largest == 3
    requires n >= 4 ==> largest <= 2
    ensures Category(n, largest) ==
      if five then FiveOfAKind
      else if four then FourOfAKind
      else if fullHouse then FullHouse
      else if three then ThreeOfAKind
      else if twoPair then TwoPair
      else if onePair then OnePair
      else HighCard
  {
  }

  /** `processHand`: the card values and the score of a hand. */
  function ProcessHand(hand: string, betValue: Option<int>): (h: Hand)
    requires forall i :: 0 <= i < |hand| ==> IsCard(hand[i])
    ensures h.cards == hand && h.betValue == betValue && h.cardValues == CardValues(hand)
    ensures |hand| == 5 ==> h.score == Category(|Groups(h.cardValues)|, Largest(ObjectValues(Groups(h.cardValues))))
  {
    var numericCards := CardValues(hand);
    ScoreHandCategory(if |hand| == 5 then numericCards else [0, 0, 0, 0, 0]);
    Hand(betValue, hand, ScoreHand(Groups(numericCards)), numericCards)
  }

  function HandKey(h: Hand): Key
  {
    Key(h.score, h.cardValues)
  }

  /** `sortHands`: the hands, all of one length, end ascending by score and,
      among equal scores, lexicographically by card values. */
  method SortHands(hands: array<Hand>)
    requires forall i, j :: 0 <= i < hands.Length && 0 <= j < hands.Length ==>
      |hands[i].cardValues| == |hands[j].cardValues|
    modifies hands
    ensures multiset(hands[..]) == multiset(old(hands[..]))
    ensures forall p, q :: 0 <= p < q < hands.Length ==>
      hands[p].score <= hands[q].score &&
      (hands[p].score == hands[q].score ==> LexLessOrEqual(hands[p].cardValues, hands[q].cardValues))
  {
    SortByKey(hands, HandKey);
    forall p, q | 0 <= p < q < hands.Length
      ensures hands[p].score <= hands[q].score &&
        (hands[p].score == hands[q].score ==> LexLessOrEqual(hands[p].cardValues, hands[q].cardValues))
    {
      SortedMeans(hands[..], HandKey, p, q);
    }
  }
}
