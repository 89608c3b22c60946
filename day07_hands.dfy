/** Day 7: what the plain scorer (src/07/scoring.ts) and the joker scorer
    (src/07/joker-scoring.ts) share. Both files carry identical copies of the
    hand categories, of `groupCards` and of the comparator behind `sortHands`;
    here each is written once. */
module Hands {
  import opened Common

  /* ---------------------------------------------------------------------- */
  /* Categories                                                              */

  const FiveOfAKind := 120
  const FourOfAKind := 100
  const FullHouse := 80
  const ThreeOfAKind := 60
  const TwoPair := 40
  const OnePair := 20
  const HighCard := 0

  /** `scoreHand`'s chain of tests: the category of the first test that
      holds, strongest first, and high card when none does. */
  function FirstThatHolds(five: bool, four: bool, fullHouse: bool, three: bool,
                          twoPair: bool, onePair: bool): int
  {
    if five then FiveOfAKind
    else if four then FourOfAKind
    else if fullHouse then FullHouse
    else if three then ThreeOfAKind
    else if twoPair then TwoPair
    else if onePair then OnePair
    else HighCard
  }

  /** The category of a five-card hand in the usual poker sense, determined
      by how many different cards it holds and how large its biggest group
      is (jokers counted into that group). This is the reference against
      which both scorers' chains of predicates are proved. */
  function Category(groups: nat, largest: int): int
  {
    if groups <= 1 then FiveOfAKind
    else if groups == 2 then (if largest == 4 then FourOfAKind else FullHouse)
    else if groups == 3 then (if largest == 3 then ThreeOfAKind else TwoPair)
    else if groups == 4 then OnePair
    else HighCard
  }

  /** The largest count, 0 for no counts. */
  function Largest(s: seq<int>): (m: int)
    ensures forall i :: 0 <= i < |s| ==> s[i] <= m
    ensures s != [] ==> m in s
    ensures s == [] ==> m == 0
  {
    if |s| <= 1 then (if s == [] then 0 else s[0])
    else
      var rest := Largest(s[..|s| - 1]);
      assert forall i :: 0 <= i < |s| - 1 ==> s[i] == s[..|s| - 1][i];
      if s[|s| - 1] < rest then rest else s[|s| - 1]
  }

  /* ---------------------------------------------------------------------- */
  /* Grouping                                                                */

  /** `groupCards` (also src/07/joker-scoring.ts:42-50): counts each card
      value in a dictionary, one card at a time. */
  method GroupCards(numericCards: seq<int>) returns (groups: map<int, nat>)
    ensures groups == Groups(numericCards)
  {
    groups := map[];
    for k := 0 to |numericCards|
      invariant groups == Groups(numericCards[..k])
    {
      var card := numericCards[k];
      assert numericCards[..k + 1][..k] == numericCards[..k];
      groups := groups[card := (if card in groups then groups[card] else 0) + 1];
    }
    assert numericCards[..|numericCards|] == numericCards;
  }

  /** The grouping of a hand lists every distinct card once, with its count:
      the counts are positive and add up to the number of cards. */
  lemma GroupCardsCounts(numericCards: seq<int>)
    ensures forall x :: x in Groups(numericCards) <==> x in numericCards
    ensures forall x :: x in Groups(numericCards) ==> Groups(numericCards)[x] == Count(numericCards, x)
    ensures Sum(ObjectValues(Groups(numericCards))) == |numericCards|
    ensures forall i :: 0 <= i < |ObjectValues(Groups(numericCards))| ==>
      ObjectValues(Groups(numericCards))[i] >= 1
  {
    GroupsCount(numericCards);
    GroupsValues(numericCards);
  }

  /* ---------------------------------------------------------------------- */
  /* Sorting counts (`Object.values(hand).sort()`)                           */

  predicate Ascending(s: seq<int>)
  {
    forall i, j :: 0 <= i < j < |s| ==> s[i] <= s[j]
  }

  lemma SumFront(x: int, s: seq<int>)
    ensures Sum([x] + s) == x + Sum(s)
  {
    SumAppend([x], s);
    assert Sum([x]) == Sum([]) + x;
  }

  /** `x` inserted before the first entry of `s` that is not smaller. */
  function Insert(x: int, s: seq<int>): (r: seq<int>)
    ensures |r| == |s| + 1
  {
    if s == [] || x <= s[0] then [x] + s
    else [s[0]] + Insert(x, s[1..])
  }

  /** Inserting into ascending counts keeps them ascending; the first
      entry is the smaller of `x` and the old first entry. */
  lemma {:induction false} InsertAscending(x: int, s: seq<int>)
    requires Ascending(s)
    ensures Ascending(Insert(x, s))
    ensures Insert(x, s)[0] == if s == [] || x <= s[0] then x else s[0]
  {
    if s != [] && x > s[0] {
      InsertAscending(x, s[1..]);
      InsertFront(s[0], Insert(x, s[1..]));
    }
  }

  /** Inserting adds `x` to the sum and one `x` to the multiset. */
  lemma {:induction false} InsertAdds(x: int, s: seq<int>)
    ensures Sum(Insert(x, s)) == Sum(s) + x
    ensures multiset(Insert(x, s)) == multiset(s) + multiset{x}
  {
    if s == [] || x <= s[0] {
      SumFront(x, s);
    } else {
      InsertAdds(x, s[1..]);
      assert s == [s[0]] + s[1..];
      SumFront(s[0], s[1..]);
      SumFront(s[0], Insert(x, s[1..]));
    }
  }

  lemma InsertFront(x: int, s: seq<int>)
    requires Ascending(s) && (s != [] ==> x <= s[0])
    ensures Ascending([x] + s)
  {
  }

  /** The counts in ascending order. JavaScript's default `sort` compares
      them as strings, which agrees with this while every count is below 10. */
  function SortCounts(s: seq<int>): (r: seq<int>)
    ensures |r| == |s|
  {
    if s == [] then []
    else
      Insert(s[|s| - 1], SortCounts(s[..|s| - 1]))
  }

  /** The sorted counts are ascending. */
  lemma {:induction false} SortCountsAscending(s: seq<int>)
    ensures Ascending(SortCounts(s))
  {
    if s != [] {
      SortCountsAscending(s[..|s| - 1]);
      InsertAscending(s[|s| - 1], SortCounts(s[..|s| - 1]));
    }
  }

  /** The sorted counts are a rearrangement of the counts. */
  lemma {:induction false} SortCountsPermutes(s: seq<int>)
    ensures Sum(SortCounts(s)) == Sum(s)
    ensures multiset(SortCounts(s)) == multiset(s)
  {
    if s != [] {
      SortCountsPermutes(s[..|s| - 1]);
      InsertAdds(s[|s| - 1], SortCounts(s[..|s| - 1]));
      assert s == s[..|s| - 1] + [s[|s| - 1]];
    }
  }

  /** Both facts about the sorted counts. */
  lemma SortCountsFacts(s: seq<int>)
    ensures Ascending(SortCounts(s))
    ensures Sum(SortCounts(s)) == Sum(s)
    ensures multiset(SortCounts(s)) == multiset(s)
  {
    SortCountsAscending(s);
    SortCountsPermutes(s);
  }

  /** `(values.at(-2) ?? 0) + (values.at(-1) ?? 0)`: the last two entries,
      a missing one counting as 0. */
  function LastTwo(s: seq<int>): int
  {
    (if |s| >= 2 then s[|s| - 2] else 0) + (if |s| >= 1 then s[|s| - 1] else 0)
  }

  /** Of sorted counts, the last two are the two largest: the sum of the
      last two is at least any two different entries. */
  lemma LastTwoIsTopTwo(s: seq<int>, i: int, j: int)
    requires Ascending(s) && 0 <= i < j < |s|
    ensures s[i] + s[j] <= LastTwo(s)
  {
  }

  /** `filter(count => count > t).length`. */
  function CountAbove(s: seq<int>, t: int): (n: nat)
    ensures n == 0 <==> forall i :: 0 <= i < |s| ==> s[i] <= t
  {
    if s == [] then 0
    else
      assert forall i :: 0 <= i < |s| - 1 ==> s[i] == s[..|s| - 1][i];
      CountAbove(s[..|s| - 1], t) + (if s[|s| - 1] > t then 1 else 0)
  }

  /* ---------------------------------------------------------------------- */
  /* Profiles of five-card hands                                             */

  /** `Count` is the multiplicity of the value in the sequence's multiset, so
      rearranging a sequence leaves every count as it was. */
  lemma {:induction false} CountIsMultiplicity(s: seq<int>, x: int)
    ensures Count(s, x) == multiset(s)[x]
  {
    if s != [] {
      CountIsMultiplicity(s[..|s| - 1], x);
      assert s == s[..|s| - 1] + [s[|s| - 1]];
    }
  }

  /** Two arrangements of the same counts have the same largest count. */
  lemma LargestOfRearranged(s: seq<int>, t: seq<int>)
    requires multiset(s) == multiset(t)
    ensures Largest(s) == Largest(t)
  {
    assert forall x :: x in s <==> x in t by {
      assert forall x :: x in s <==> x in multiset(s);
      assert forall x :: x in t <==> x in multiset(t);
    }
    assert |s| == |multiset(s)| == |multiset(t)| == |t|;
  }

  lemma {:induction false} SumAtLeastLength(s: seq<int>)
    requires forall i :: 0 <= i < |s| ==> s[i] >= 1
    ensures Sum(s) >= |s|
  {
    if s != [] {
      SumAtLeastLength(s[..|s| - 1]);
    }
  }

  lemma SumOfFew(s: seq<int>)
    requires |s| <= 5
    ensures |s| == 1 ==> Sum(s) == s[0]
    ensures |s| == 2 ==> Sum(s) == s[0] + s[1]
    ensures |s| == 3 ==> Sum(s) == s[0] + s[1] + s[2]
    ensures |s| == 4 ==> Sum(s) == s[0] + s[1] + s[2] + s[3]
    ensures |s| == 5 ==> Sum(s) == s[0] + s[1] + s[2] + s[3] + s[4]
  {
    if |s| >= 1 {
      var p := s[..|s| - 1];
      assert forall i :: 0 <= i < |p| ==> p[i] == s[i];
      SumOfFew(p);
    }
  }

  /** The partitions of `t` into positive parts, each listed in ascending
      order, for `t` up to 5. */
  function PartitionsOf(t: int): set<seq<int>>
  {
    if t == 5 then {[5], [1, 4], [2, 3], [1, 1, 3], [1, 2, 2], [1, 1, 1, 2], [1, 1, 1, 1, 1]}
    else if t == 4 then {[4], [1, 3], [2, 2], [1, 1, 2], [1, 1, 1, 1]}
    else if t == 3 then {[3], [1, 2], [1, 1, 1]}
    else if t == 2 then {[2], [1, 1]}
    else if t == 1 then {[1]}
    else if t == 0 then {[]}
    else {}
  }

  /** Every ascending sequence of positive counts adding up to at most 5 is
      one of the listed partitions. */
  lemma Partitions(s: seq<int>)
    requires Ascending(s) && forall i :: 0 <= i < |s| ==> s[i] >= 1
    requires Sum(s) <= 5
    ensures s in PartitionsOf(Sum(s))
  {
    SumAtLeastLength(s);
    if |s| <= 1 {
      PartitionsShort(s);
    } else if |s| == 2 {
      PartitionsOfTwo(s);
    } else if |s| == 3 {
      PartitionsOfThree(s);
    } else {
      PartitionsLong(s);
    }
  }

  lemma PartitionsShort(s: seq<int>)
    requires |s| <= 1 && forall i :: 0 <= i < |s| ==> s[i] >= 1
    requires Sum(s) <= 5
    ensures s in PartitionsOf(Sum(s))
  {
    SumOfFew(s);
    if |s| == 1 {
      assert s == [s[0]];
    }
  }

  lemma PartitionsOfTwo(s: seq<int>)
    requires |s| == 2 && 1 <= s[0] <= s[1]
    requires Sum(s) <= 5
    ensures s in PartitionsOf(Sum(s))
  {
    SumOfFew(s);
    assert s == [s[0], s[1]];
    if Sum(s) == 5 {
      assert s == [1, 4] || s == [2, 3];
    } else if Sum(s) == 4 {
      assert s == [1, 3] || s == [2, 2];
    }
  }

  lemma PartitionsOfThree(s: seq<int>)
    requires |s| == 3 && 1 <= s[0] <= s[1] <= s[2]
    requires Sum(s) <= 5
    ensures s in PartitionsOf(Sum(s))
  {
    SumOfFew(s);
    assert s == [s[0], s[1], s[2]];
    if Sum(s) == 5 {
      assert s == [1, 1, 3] || s == [1, 2, 2];
    }
  }

  lemma PartitionsLong(s: seq<int>)
    requires 4 <= |s| <= 5 && 1 <= s[0] <= s[1] <= s[2] <= s[3]
    requires |s| == 5 ==> s[3] <= s[4]
    requires Sum(s) <= 5
    ensures s in PartitionsOf(Sum(s))
  {
    SumOfFew(s);
    if |s| == 4 {
      assert s == [s[0], s[1], s[2], s[3]];
    } else {
      assert s == [s[0], s[1], s[2], s[3], s[4]];
    }
  }

  /** How the categories show in the sorted counts `s` of a five-card hand:
      five of a kind is one group, four of a kind and a full house are two
      groups with 4 or 3 the largest, three of a kind and two pair are three
      groups with 3 or 2 the largest, one pair is four groups. */
  predicate FiveCardFacts(s: seq<int>)
  {
    && |s| >= 1
    && (5 in s <==> |s| == 1)
    && (4 in s <==> |s| == 2 && Largest(s) == 4)
    && ((3 in s && 2 in s) <==> |s| == 2 && Largest(s) == 3)
    && (3 in s <==> Largest(s) == 3)
    && (Count(s, 2) == 2 <==> |s| == 3 && Largest(s) == 2)
    && ((Count(s, 2) == 1 && CountAbove(s, 2) == 0) <==> |s| == 4)
    && (|s| == 2 ==> Largest(s) == 3 || Largest(s) == 4)
    && (|s| == 3 ==> Largest(s) == 2 || Largest(s) == 3)
    && (|s| >= 4 ==> |s| <= 5 && Largest(s) <= 2)
  }

  lemma FiveCardProfiles(s: seq<int>)
    requires s in PartitionsOf(5)
    ensures FiveCardFacts(s)
  {
    FewGroupsTable();
    ManyGroupsTable();
    if |s| == 1 {
      assert s == [5];
    } else if |s| == 2 {
      if s[0] == 1 {
        assert s == [1, 4];
      } else {
        assert s == [2, 3];
      }
    } else if |s| == 3 {
      if s[1] == 1 {
        assert s == [1, 1, 3];
      } else {
        assert s == [1, 2, 2];
      }
    } else if |s| == 4 {
      assert s == [1, 1, 1, 2];
    } else {
      assert s == [1, 1, 1, 1, 1];
    }
  }

  lemma FewGroupsTable()
    ensures FiveCardFacts([5])
    ensures FiveCardFacts([1, 4]) && FiveCardFacts([2, 3])
  {
  }

  lemma ManyGroupsTable()
    ensures FiveCardFacts([1, 1, 3]) && FiveCardFacts([1, 2, 2])
    ensures FiveCardFacts([1, 1, 1, 2]) && FiveCardFacts([1, 1, 1, 1, 1])
  {
    CountIsMultiplicity([1, 1, 3], 2);
    CountIsMultiplicity([1, 2, 2], 2);
    CountIsMultiplicity([1, 1, 1, 2], 2);
    CountIsMultiplicity([1, 1, 1, 1, 1], 2);
  }

  /** Sorting the counts keeps every fact the predicates read. */
  lemma Rearranged(vs: seq<int>, s: seq<int>)
    requires multiset(vs) == multiset(s)
    ensures |vs| == |s|
    ensures forall x :: x in vs <==> x in s
    ensures Count(vs, 2) == Count(s, 2)
    ensures CountAbove(vs, 2) == 0 <==> CountAbove(s, 2) == 0
    ensures Largest(vs) == Largest(s)
  {
    assert |vs| == |multiset(vs)| == |multiset(s)| == |s|;
    SameElements(vs, s);
    CountIsMultiplicity(vs, 2);
    CountIsMultiplicity(s, 2);
    CountAboveRearranged(vs, s, 2);
    LargestOfRearranged(vs, s);
  }

  lemma PositiveRearranged(vs: seq<int>, s: seq<int>)
    requires forall x :: x in vs <==> x in s
    requires forall i :: 0 <= i < |vs| ==> vs[i] >= 1
    ensures forall i :: 0 <= i < |s| ==> s[i] >= 1
  {
    forall i | 0 <= i < |s|
      ensures s[i] >= 1
    {
      assert s[i] in s;
      var j :| 0 <= j < |vs| && vs[j] == s[i];
    }
  }

  lemma SameElements(vs: seq<int>, s: seq<int>)
    requires multiset(vs) == multiset(s)
    ensures forall x :: x in vs <==> x in s
  {
    assert forall x :: x in vs <==> x in multiset(vs);
    assert forall x :: x in s <==> x in multiset(s);
  }

  lemma CountAboveRearranged(vs: seq<int>, s: seq<int>, t: int)
    requires multiset(vs) == multiset(s)
    ensures CountAbove(vs, t) == 0 <==> CountAbove(s, t) == 0
  {
    forall i | 0 <= i < |s|
      ensures s[i] in vs
    {
      assert s[i] in multiset(s);
    }
    forall i | 0 <= i < |vs|
      ensures vs[i] in s
    {
      assert vs[i] in multiset(vs);
    }
  }

  /* ---------------------------------------------------------------------- */
  /* The comparator of `sortHands`                                          */

  /** What the comparator reads of a hand. */
  datatype Key = Key(score: int, cardValues: seq<int>)

  /** The card-value loop of the comparator from position `i` on. Where `b`
      has no value, `a[i] !== undefined` holds and `a[i] > undefined` does
      not, so the comparator answers -1. */
  function CompareFrom(a: seq<int>, b: seq<int>, i: nat): int
    requires i <= |a|
    decreases |a| - i
  {
    if i == |a| then 0
    else if i >= |b| then -1
    else if a[i] != b[i] then (if a[i] > b[i] then 1 else -1)
    else CompareFrom(a, b, i + 1)
  }

  /** The comparator passed to `hands.sort`: score first, then the card
      values in order. */
  function CompareKeys(a: Key, b: Key): int
  {
    if a.score > b.score then 1
    else if a.score < b.score then -1
    else CompareFrom(a.cardValues, b.cardValues, 0)
  }

  /** Lexicographic order on card values of one width, written out: equal,
      or smaller at the first position where they differ. */
  predicate LexLessOrEqual(a: seq<int>, b: seq<int>)
  {
    a == b || exists k :: 0 <= k < |a| && k < |b| && a[..k] == b[..k] && a[k] < b[k]
  }

  lemma {:induction false} CompareFromAntisymmetric(a: seq<int>, b: seq<int>, i: nat)
    requires |a| == |b| && i <= |a|
    ensures CompareFrom(a, b, i) == -CompareFrom(b, a, i)
    decreases |a| - i
  {
    if i < |a| && a[i] == b[i] {
      CompareFromAntisymmetric(a, b, i + 1);
    }
  }

  lemma {:induction false} CompareFromTransitive(a: seq<int>, b: seq<int>, c: seq<int>, i: nat)
    requires |a| == |b| == |c| && i <= |a|
    requires CompareFrom(a, b, i) <= 0 && CompareFrom(b, c, i) <= 0
    ensures CompareFrom(a, c, i) <= 0
    decreases |a| - i
  {
    if i < |a| && a[i] == b[i] && b[i] == c[i] {
      CompareFromTransitive(a, b, c, i + 1);
    }
  }

  /** On one width the card-value loop answers 0 exactly for equal values,
      and at most 0 exactly when `a` is lexicographically at most `b`. */
  lemma {:induction false} CompareFromMeans(a: seq<int>, b: seq<int>, i: nat)
    requires |a| == |b| && i <= |a| && a[..i] == b[..i]
    ensures CompareFrom(a, b, i) == 0 <==> a == b
    ensures CompareFrom(a, b, i) <= 0 <==> LexLessOrEqual(a, b)
    decreases |a| - i
  {
    if i == |a| {
      assert a == a[..i] && b == b[..i];
    } else if a[i] != b[i] {
      assert a[i] < b[i] ==> LexLessOrEqual(a, b);
      PrefixEqual(a, b, i);
      forall k | 0 <= k <= |a| && a[..k] == b[..k]
        ensures forall j :: 0 <= j < k ==> a[j] == b[j]
      {
        PrefixEqual(a, b, k);
      }
    } else {
      assert a[..i + 1] == a[..i] + [a[i]];
      assert b[..i + 1] == b[..i] + [b[i]];
      CompareFromMeans(a, b, i + 1);
    }
  }

  lemma PrefixEqual(a: seq<int>, b: seq<int>, n: int)
    requires 0 <= n <= |a| && n <= |b| && a[..n] == b[..n]
    ensures forall j :: 0 <= j < n ==> a[j] == b[j]
  {
    assert forall j :: 0 <= j < n ==> a[j] == a[..n][j] && b[j] == b[..n][j];
  }

  /** On hands of one width the comparator orders by score and then
      lexicographically by card values, and it is a total preorder. */
  lemma CompareKeysMeans(a: Key, b: Key)
    requires |a.cardValues| == |b.cardValues|
    ensures CompareKeys(a, b) <= 0 <==>
      a.score < b.score || (a.score == b.score && LexLessOrEqual(a.cardValues, b.cardValues))
    ensures CompareKeys(a, b) == -CompareKeys(b, a)
  {
    CompareFromMeans(a.cardValues, b.cardValues, 0);
    CompareFromAntisymmetric(a.cardValues, b.cardValues, 0);
  }

  lemma CompareKeysTransitive(a: Key, b: Key, c: Key)
    requires |a.cardValues| == |b.cardValues| == |c.cardValues|
    requires CompareKeys(a, b) <= 0 && CompareKeys(b, c) <= 0
    ensures CompareKeys(a, c) <= 0
  {
    if a.score == b.score == c.score {
      CompareFromTransitive(a.cardValues, b.cardValues, c.cardValues, 0);
    }
  }

  /** The comparator as the source runs it: a loop with early returns. */
  method Compare(a: Key, b: Key) returns (c: int)
    ensures c == CompareKeys(a, b)
    ensures c == -1 || c == 0 || c == 1
  {
    if a.score > b.score {
      return 1;
    }
    if a.score < b.score {
      return -1;
    }
    var index := 0;
    while index < |a.cardValues|
      invariant 0 <= index <= |a.cardValues|
      invariant CompareFrom(a.cardValues, b.cardValues, 0) == CompareFrom(a.cardValues, b.cardValues, index)
      invariant forall k :: 0 <= k < index ==> k < |b.cardValues| && a.cardValues[k] == b.cardValues[k]
    {
      if index >= |b.cardValues| || a.cardValues[index] != b.cardValues[index] {
        return if index < |b.cardValues| && a.cardValues[index] > b.cardValues[index] then 1 else -1;
      }
      index := index + 1;
    }
    return 0;
  }

  /* ---------------------------------------------------------------------- */
  /* `sortHands`                                                             */

  predicate InOrder(x: Key, y: Key)
  {
    CompareKeys(x, y) <= 0
  }

  /** Every earlier hand compares at most equal to every later one. */
  predicate Sorted<T>(s: seq<T>, key: T -> Key)
  {
    forall p, q :: 0 <= p < q < |s| ==> InOrder(key(s[p]), key(s[q]))
  }

  /** `hands.sort(comparator)` on hands whose card values all have one
      width: the array ends as a permutation of itself in which every
      earlier hand compares at most equal to every later one. The engine's
      own algorithm is not the point; an insertion sort stands for it. */
  method SortByKey<T>(hands: array<T>, key: T -> Key)
    requires forall i, j :: 0 <= i < hands.Length && 0 <= j < hands.Length ==>
      |key(hands[i]).cardValues| == |key(hands[j]).cardValues|
    modifies hands
    ensures multiset(hands[..]) == multiset(old(hands[..]))
    ensures Sorted(hands[..], key)
    ensures forall i, j :: 0 <= i < hands.Length && 0 <= j < hands.Length ==>
      |key(hands[i]).cardValues| == |key(hands[j]).cardValues|
  {
    if hands.Length == 0 {
      return;
    }
    ghost var width := |key(hands[0]).cardValues|;
    for i := 1 to hands.Length
      invariant multiset(hands[..]) == multiset(old(hands[..]))
      invariant forall k :: 0 <= k < hands.Length ==> |key(hands[k]).cardValues| == width
      invariant forall p, q :: 0 <= p < q < i ==> InOrder(key(hands[p]), key(hands[q]))
    {
      InsertAt(hands, i, key, width);
    }
  }

  /** One pass of the insertion sort: moves `hands[i]` down into the sorted
      prefix before it. */
  method InsertAt<T>(hands: array<T>, i: int, key: T -> Key, ghost width: nat)
    requires 0 < i < hands.Length
    requires forall k :: 0 <= k < hands.Length ==> |key(hands[k]).cardValues| == width
    requires forall p, q :: 0 <= p < q < i ==> InOrder(key(hands[p]), key(hands[q]))
    modifies hands
    ensures multiset(hands[..]) == multiset(old(hands[..]))
    ensures forall k :: 0 <= k < hands.Length ==> |key(hands[k]).cardValues| == width
    ensures forall p, q :: 0 <= p < q <= i ==> InOrder(key(hands[p]), key(hands[q]))
  {
    var j := i;
    while j > 0
      invariant 0 <= j <= i
      invariant multiset(hands[..]) == multiset(old(hands[..]))
      invariant forall k :: 0 <= k < hands.Length ==> |key(hands[k]).cardValues| == width
      invariant forall p, q :: 0 <= p < q <= i && p != j && q != j ==> InOrder(key(hands[p]), key(hands[q]))
      invariant forall q :: j < q <= i ==> InOrder(key(hands[j]), key(hands[q]))
    {
      var c := Compare(key(hands[j - 1]), key(hands[j]));
      if c <= 0 {
        forall p | 0 <= p < j
          ensures InOrder(key(hands[p]), key(hands[j]))
        {
          if p < j - 1 {
            CompareKeysTransitive(key(hands[p]), key(hands[j - 1]), key(hands[j]));
          }
        }
        return;
      }
      CompareKeysMeans(key(hands[j - 1]), key(hands[j]));
      Swap(hands, j - 1, j);
      j := j - 1;
    }
  }

  method Swap<T>(a: array<T>, i: int, j: int)
    requires 0 <= i < j < a.Length
    modifies a
    ensures a[i] == old(a[j]) && a[j] == old(a[i])
    ensures forall k :: 0 <= k < a.Length && k != i && k != j ==> a[k] == old(a[k])
    ensures multiset(a[..]) == multiset(old(a[..]))
  {
    a[i], a[j] := a[j], a[i];
  }

  /** What `Sorted` promises: ascending by score, and among equal scores
      ascending lexicographically by card values. */
  lemma SortedMeans<T>(s: seq<T>, key: T -> Key, p: int, q: int)
    requires Sorted(s, key) && 0 <= p < q < |s|
    requires |key(s[p]).cardValues| == |key(s[q]).cardValues|
    ensures key(s[p]).score <= key(s[q]).score
    ensures key(s[p]).score == key(s[q]).score ==>
      LexLessOrEqual(key(s[p]).cardValues, key(s[q]).cardValues)
  {
    assert InOrder(key(s[p]), key(s[q]));
    CompareKeysMeans(key(s[p]), key(s[q]));
  }
}
