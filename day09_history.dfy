/** Day 9, part 2: each history is extrapolated backwards. The rows of
    differences are built until a row is all zeros or has at most one value,
    the first value of every row is kept, and the prediction is the right
    fold `v0 - (v1 - (v2 - ...))` of those first values.

    `firstValues` holds `current[0]`, which is `undefined` when `current` is
    empty; the model keeps such entries as `None`, and the fold then yields
    `NaN`, also `None`. */
module Extrapolation {
  import opened Common

  /** The differences of neighbouring values: the inner `for` loop. */
  function Differences(row: seq<int>): (next: seq<int>)
    ensures |next| == if row == [] then 0 else |row| - 1
  {
    if |row| <= 1 then [] else [row[1] - row[0]] + Differences(row[1..])
  }

  /** Each difference is the next value minus the current one. */
  lemma {:induction false} DifferenceAt(row: seq<int>, i: int)
    requires 0 <= i < |row| - 1
    ensures Differences(row)[i] == row[i + 1] - row[i]
  {
    if i > 0 {
      DifferenceAt(row[1..], i - 1);
    }
  }

  /** The differences of a constant row are all zero. */
  lemma ConstantDifferences(c: int, n: nat)
    requires n >= 1
    ensures Differences(Constant(c, n)) == Constant(0, n - 1)
  {
    var s := Constant(c, n);
    forall i | 0 <= i < n - 1
      ensures Differences(s)[i] == 0
    {
      DifferenceAt(s, i);
    }
  }

  /** The differences of an arithmetic row are its step. */
  lemma ArithmeticDifferences(a: int, d: int, n: nat)
    requires n >= 1
    ensures Differences(Arithmetic(a, d, n)) == Constant(d, n - 1)
  {
    var s := Arithmetic(a, d, n);
    forall i | 0 <= i < n - 1
      ensures Differences(s)[i] == d
    {
      DifferenceAt(s, i);
      assert s[i + 1] - s[i] == (i + 1) * d - i * d;
    }
  }

  /** `current[0]`, `undefined` for an empty row. */
  function Head(row: seq<int>): Option<int>
  {
    if row == [] then None else Some(row[0])
  }

  /** The loop goes on while some value is non-zero and more than one is left. */
  predicate Continues(row: seq<int>)
  {
    (exists i :: 0 <= i < |row| && row[i] != 0) && |row| > 1
  }

  /** The first values pushed by the `do`-`while` loop when it starts from
      `current`. */
  function Pushed(current: seq<int>): (r: seq<Option<int>>)
    ensures |r| >= 1
    decreases |current|
  {
    var next := Differences(current);
    [Head(next)] + (if Continues(next) then Pushed(next) else [])
  }

  /** All first values of a history: its own first value, then the pushed ones. */
  function FirstValues(history: seq<int>): seq<Option<int>>
    requires history != []
  {
    [Some(history[0])] + Pushed(history)
  }

  /** `reduceRight((total, value) => value - total, 0)`; `NaN` propagates. */
  function FoldBack(values: seq<Option<int>>): Option<int>
  {
    if values == [] then Some(0)
    else
      var rest := FoldBack(values[1..]);
      if values[0].Some? && rest.Some? then Some(values[0].value - rest.value) else None
  }

  /** `findNextValue` as written. */
  method FindNextValue(history: seq<int>) returns (prediction: Option<int>)
    requires history != []
    ensures prediction == FoldBack(FirstValues(history))
  {
    var current := history;
    var firstValues := [Some(current[0])];
    while true
      invariant current != []
      invariant firstValues + Pushed(current) == FirstValues(history)
      decreases |current|
    {
      var input := current;
      current := NextRow(input);
      var more := SomeNonZero(current);
      var rest := if more && |current| > 1 then Pushed(current) else [];
      assert firstValues + Pushed(input) == (firstValues + [Head(current)]) + rest;
      firstValues := firstValues + [Head(current)];
      if !(more && |current| > 1) {
        assert firstValues + rest == firstValues;
        break;
      }
    }
    prediction := FoldBack(firstValues);
  }

  /** The body of the `do` block: the differences of a non-empty row. */
  method NextRow(input: seq<int>) returns (current: seq<int>)
    requires input != []
    ensures current == Differences(input)
  {
    current := [];
    for index := 0 to |input| - 1
      invariant |current| == index
      invariant forall k :: 0 <= k < index ==> current[k] == input[k + 1] - input[k]
    {
      current := current + [input[index + 1] - input[index]];
    }
    forall k | 0 <= k < |input| - 1
      ensures current[k] == Differences(input)[k]
    {
      DifferenceAt(input, k);
    }
  }

  /** `current.some(value => value !== 0)`. */
  method SomeNonZero(row: seq<int>) returns (more: bool)
    ensures more <==> exists i :: 0 <= i < |row| && row[i] != 0
  {
    more := false;
    for k := 0 to |row|
      invariant more <==> exists i :: 0 <= i < k && row[i] != 0
    {
      if row[k] != 0 {
        more := true;
      }
    }
  }

  /** From a history of at least two values no row is ever empty, so every
      first value is a number. */
  lemma {:induction false} PushedDefined(current: seq<int>)
    requires |current| >= 2
    ensures forall i :: 0 <= i < |Pushed(current)| ==> Pushed(current)[i].Some?
    decreases |current|
  {
    var next := Differences(current);
    if Continues(next) {
      PushedDefined(next);
    }
  }

  /** A single value is followed by an empty row of differences, whose first
      value is `undefined`: the prediction is `NaN` instead of the value. */
  lemma SingleValueIsNaN(v: int)
    ensures FoldBack(FirstValues([v])) == None
  {
    assert Pushed([v]) == [None];
    assert FirstValues([v])[1..] == [None];
    assert FoldBack([None]) == None;
  }

  /** The corrected prediction: a row without values adds no first value,
      so a single value is its own prediction. */
  function Predicted(history: seq<int>): (r: int)
    requires history != []
  {
    if |history| == 1 then history[0]
    else
      PushedDefined(history);
      Unwrapped(FirstValues(history))
  }

  /** The numbers of a sequence of defined values. */
  function Unwrapped(values: seq<Option<int>>): (r: int)
    requires forall i :: 0 <= i < |values| ==> values[i].Some?
  {
    if values == [] then 0 else values[0].value - Unwrapped(values[1..])
  }

  lemma {:induction false} UnwrappedIsFold(values: seq<Option<int>>)
    requires forall i :: 0 <= i < |values| ==> values[i].Some?
    ensures FoldBack(values) == Some(Unwrapped(values))
  {
    if values != [] {
      UnwrappedIsFold(values[1..]);
    }
  }

  /** With at least two values the source and the corrected prediction agree. */
  lemma AgreesFromTwoValues(history: seq<int>)
    requires |history| >= 2
    ensures FoldBack(FirstValues(history)) == Some(Predicted(history))
  {
    PushedDefined(history);
    UnwrappedIsFold(FirstValues(history));
  }

  function Constant(c: int, n: nat): (s: seq<int>)
    ensures |s| == n && forall i :: 0 <= i < n ==> s[i] == c
  {
    seq(n, i => c)
  }

  /** An arithmetic sequence `a, a + d, a + 2d, ...` of `n` values. */
  function Arithmetic(a: int, d: int, n: nat): (s: seq<int>)
    ensures |s| == n && forall i :: 0 <= i < n ==> s[i] == a + i * d
  {
    seq(n, i => a + i * d)
  }

  /** A constant history predicts its value. */
  lemma ConstantPredicts(c: int, n: nat)
    requires n >= 1
    ensures Predicted(Constant(c, n)) == c
  {
    var s := Constant(c, n);
    if n >= 2 {
      var next := Differences(s);
      ConstantDifferences(c, n);
      assert !Continues(next);
      assert Pushed(s) == [Some(0)];
      assert FirstValues(s) == [Some(c), Some(0)];
      assert Unwrapped([Some(0)]) == 0 by { assert [Some(0)][1..] == []; }
      assert FirstValues(s)[1..] == [Some(0)];
    }
  }

  /** An arithmetic history with first term `a` and step `d` predicts `a - d`. */
  lemma ArithmeticPredicts(a: int, d: int, n: nat)
    requires n >= 2
    ensures Predicted(Arithmetic(a, d, n)) == a - d
  {
    var s := Arithmetic(a, d, n);
    var next := Differences(s);
    ArithmeticDifferences(a, d, n);
    var tail := if Continues(next) then Pushed(next) else [];
    if Continues(next) {
      var zeros := Differences(next);
      ConstantDifferences(d, n - 1);
      assert !Continues(zeros);
      assert |next| >= 2;
      assert Pushed(next) == [Some(0)];
      assert Unwrapped([Some(0)]) == 0 by { assert [Some(0)][1..] == []; }
    }
    assert Pushed(s) == [Some(d)] + tail;
    assert Unwrapped(Pushed(s)) == d by {
      assert Pushed(s)[1..] == tail;
      assert Unwrapped(tail) == 0;
    }
    assert FirstValues(s)[1..] == Pushed(s);
  }

  /** `calculateTotal` over the corrected predictions. */
  function Total(histories: seq<seq<int>>): int
    requires forall i :: 0 <= i < |histories| ==> histories[i] != []
  {
    if histories == [] then 0
    else Total(histories[..|histories| - 1]) + Predicted(histories[|histories| - 1])
  }

  /** The total of constant histories is the sum of their values. */
  lemma {:induction false} TotalOfConstants(values: seq<int>, n: nat)
    requires n >= 1
    ensures Total(seq(|values|, i requires 0 <= i < |values| => Constant(values[i], n))) == Sum(values)
  {
    if values != [] {
      var init := values[..|values| - 1];
      var hs := seq(|values|, i requires 0 <= i < |values| => Constant(values[i], n));
      assert hs[..|hs| - 1] == seq(|init|, i requires 0 <= i < |init| => Constant(init[i], n));
      TotalOfConstants(init, n);
      ConstantPredicts(values[|values| - 1], n);
    }
  }

  /** The predictions `findSolution` maps the histories to, as written. */
  function Predictions(histories: seq<seq<int>>): (r: seq<Option<int>>)
    requires forall i :: 0 <= i < |histories| ==> histories[i] != []
    ensures |r| == |histories|
  {
    seq(|histories|, i requires 0 <= i < |histories| => FoldBack(FirstValues(histories[i])))
  }

  /** `findSolution` of part 2 as written: every history's prediction,
      added up by `calculateTotal`, where one `NaN` prediction makes the
      total `NaN`. */
  method FindSolution(histories: seq<seq<int>>) returns (total: Option<int>)
    requires forall i :: 0 <= i < |histories| ==> histories[i] != []
    ensures total == SumOfValues(Predictions(histories))
  {
    var predictions: seq<Option<int>> := [];
    for i := 0 to |histories|
      invariant predictions == Predictions(histories[..i])
    {
      var prediction := FindNextValue(histories[i]);
      assert histories[..i + 1][..i] == histories[..i];
      predictions := predictions + [prediction];
    }
    assert histories[..|histories|] == histories;
    total := SumOfValues(predictions);
  }

  /** The total as written is a number exactly when every history has at
      least two values, and then it is the corrected `Total`. */
  lemma {:induction false} FindSolutionIsTotal(histories: seq<seq<int>>)
    requires forall i :: 0 <= i < |histories| ==> histories[i] != []
    ensures SumOfValues(Predictions(histories)).Some? <==> forall i :: 0 <= i < |histories| ==> |histories[i]| >= 2
    ensures SumOfValues(Predictions(histories)).Some? ==> SumOfValues(Predictions(histories)).value == Total(histories)
  {
    if histories != [] {
      var init := histories[..|histories| - 1];
      var last := histories[|histories| - 1];
      FindSolutionIsTotal(init);
      assert Predictions(histories)[..|histories| - 1] == Predictions(init);
      if |last| >= 2 {
        AgreesFromTwoValues(last);
      } else {
        assert last == [last[0]];
        SingleValueIsNaN(last[0]);
      }
    }
  }
}
