/** Day 19, part 1: a part carries four ratings and is sent through named
    workflows, starting at `in`. A workflow is a list of rules; the first
    rule that applies names the next workflow, or `A` (accepted) or `R`
    (rejected). The answer is the sum of the ratings of the accepted parts. */
module Workflows {
  import opened Common

  /** The four rating categories, by the letters `x`, `m`, `a` and `s`. */
  datatype Category = Cool | Musical | Aerodynamic | Shiny

  datatype Part = Part(x: int, m: int, a: int, s: int)

  /** `part[rule.ratingProp]`. */
  function Rating(part: Part, category: Category): int
  {
    match category
    case Cool => part.x
    case Musical => part.m
    case Aerodynamic => part.a
    case Shiny => part.s
  }

  /** The two comparison functions a rule can hold. */
  datatype Comparison = Smaller | Greater

  predicate IsSmaller(a: int, b: int)
  {
    a < b
  }

  predicate IsGreater(a: int, b: int)
  {
    a > b
  }

  /** `comparison === '<' ? isSmaller : isGreater`: every character other
      than `<` selects the greater-than test. */
  function ComparisonOf(operator: char): Comparison
  {
    if operator == '<' then Smaller else Greater
  }

  predicate Holds(comparison: Comparison, a: int, b: int)
  {
    match comparison
    case Smaller => IsSmaller(a, b)
    case Greater => IsGreater(a, b)
  }

  /** Both comparisons are strict, and the operator character picks one. */
  lemma StrictComparisons(operator: char, a: int, b: int)
    ensures !Holds(ComparisonOf(operator), a, a)
    ensures Holds(ComparisonOf(operator), a, b) <==> if operator == '<' then a < b else b < a
  {
  }

  /** A rule: a test of one rating against a value, or the last rule of a
      workflow, which has no rating and always applies. */
  datatype Rule =
    | Check(category: Category, comparison: Comparison, value: int, next: string)
    | Fallback(next: string)

  predicate Applies(rule: Rule, part: Part)
  {
    match rule
    case Fallback(_) => true
    case Check(category, comparison, value, _) => Holds(comparison, Rating(part, category), value)
  }

  /** `runWorkflow`: the next name of the first rule that applies, or
      `None` (`undefined`) when the scan falls off the end. */
  function RunWorkflow(rules: seq<Rule>, part: Part): Option<string>
  {
    if rules == [] then None
    else if Applies(rules[0], part) then Some(rules[0].next)
    else RunWorkflow(rules[1..], part)
  }

  /** Rule `i` is the first one that applies. */
  predicate FirstMatch(rules: seq<Rule>, part: Part, i: int)
  {
    0 <= i < |rules| && Applies(rules[i], part) &&
    forall j :: 0 <= j < i ==> !Applies(rules[j], part)
  }

  /** The scan answers the name of the first applying rule, and nothing
      when no rule applies. */
  lemma {:induction false} RunWorkflowFirstMatch(rules: seq<Rule>, part: Part)
    ensures RunWorkflow(rules, part).None? <==> forall i :: 0 <= i < |rules| ==> !Applies(rules[i], part)
    ensures forall i :: FirstMatch(rules, part, i) ==> RunWorkflow(rules, part) == Some(rules[i].next)
  {
    if rules != [] {
      RunWorkflowFirstMatch(rules[1..], part);
      forall i | FirstMatch(rules, part, i)
        ensures RunWorkflow(rules, part) == Some(rules[i].next)
      {
        if i > 0 {
          assert FirstMatch(rules[1..], part, i - 1);
        }
      }
      if RunWorkflow(rules, part).None? {
        forall i | 0 <= i < |rules|
          ensures !Applies(rules[i], part)
        {
          if i > 0 {
            assert rules[i] == rules[1..][i - 1];
          }
        }
      }
    }
  }

  /** A workflow that ends in a fallback rule always sends the part on. */
  lemma {:induction false} FallbackAlwaysAnswers(rules: seq<Rule>, part: Part)
    requires rules != [] && rules[|rules| - 1].Fallback?
    ensures RunWorkflow(rules, part).Some?
  {
    RunWorkflowFirstMatch(rules, part);
    assert Applies(rules[|rules| - 1], part);
  }

  const Initial := "in"
  const AcceptedLabel := "A"
  const RejectedLabel := "R"

  type Workflows = map<string, seq<Rule>>

  /** One pass of the `do … while` body. `None` when the workflow does not
      exist, or when its scan answers `undefined`: the lookup that follows
      then finds no workflow either, and iterating it throws. */
  function Step(workflows: Workflows, name: string, part: Part): Option<string>
  {
    if name in workflows then RunWorkflow(workflows[name], part) else None
  }

  /** How the loop ends for a part. `Crash` is the thrown `TypeError`;
      `OutOfFuel` stands for a loop that has not ended within the bound. */
  datatype Verdict = Accept | Reject | Crash | OutOfFuel

  /** The loop from `name`, with at most `fuel` passes. */
  function Process(workflows: Workflows, name: string, part: Part, fuel: nat): Verdict
    decreases fuel
  {
    if fuel == 0 then OutOfFuel
    else match Step(workflows, name, part)
      case None => Crash
      case Some(next) =>
        if next == AcceptedLabel then Accept
        else if next == RejectedLabel then Reject
        else Process(workflows, next, part, fuel - 1)
  }

  /** The accept/reject loop of `findSolution` for one part. */
  method Sort(workflows: Workflows, part: Part, fuel: nat) returns (verdict: Verdict)
    ensures verdict == Process(workflows, Initial, part, fuel)
  {
    var nextWorkflow := Initial;
    var remaining := fuel;
    while true
      invariant Process(workflows, nextWorkflow, part, remaining) == Process(workflows, Initial, part, fuel)
      decreases remaining
    {
      if remaining == 0 {
        return OutOfFuel;
      }
      if nextWorkflow !in workflows {
        return Crash;
      }
      var result := RunWorkflow(workflows[nextWorkflow], part);
      if result.None? {
        return Crash;
      }
      nextWorkflow := result.value;
      remaining := remaining - 1;
      if nextWorkflow == AcceptedLabel {
        return Accept;
      }
      if nextWorkflow == RejectedLabel {
        return Reject;
      }
    }
  }

  /** The labels a part visits: each is the one the workflow before sends
      it to, and only the last is `A` or `R`. */
  predicate Route(workflows: Workflows, part: Part, labels: seq<string>)
  {
    |labels| >= 2 &&
    (forall i :: 0 <= i < |labels| - 1 ==> Step(workflows, labels[i], part) == Some(labels[i + 1])) &&
    (forall i :: 0 <= i < |labels| - 1 ==> labels[i] != AcceptedLabel && labels[i] != RejectedLabel) &&
    (labels[|labels| - 1] == AcceptedLabel || labels[|labels| - 1] == RejectedLabel)
  }

  function VerdictOf(name: string): Verdict
  {
    if name == AcceptedLabel then Accept else Reject
  }

  /** A route of `n` steps is followed to its end by a loop allowed `n` or
      more passes. */
  lemma {:induction false} ProcessFollowsRoute(workflows: Workflows, part: Part, labels: seq<string>, fuel: nat)
    requires Route(workflows, part, labels)
    requires |labels| - 1 <= fuel
    ensures Process(workflows, labels[0], part, fuel) == VerdictOf(labels[|labels| - 1])
  {
    if |labels| > 2 {
      var rest := labels[1..];
      assert Route(workflows, part, rest) by {
        forall i | 0 <= i < |rest| - 1
          ensures Step(workflows, rest[i], part) == Some(rest[i + 1])
        {
          assert rest[i] == labels[i + 1] && rest[i + 1] == labels[i + 2];
        }
      }
      ProcessFollowsRoute(workflows, part, rest, fuel - 1);
    }
  }

  /** Conversely, a part that the loop accepts or rejects has a route no
      longer than the passes it took. */
  lemma {:induction false} ProcessHasRoute(workflows: Workflows, name: string, part: Part, fuel: nat)
    requires name != AcceptedLabel && name != RejectedLabel
    requires Process(workflows, name, part, fuel) in {Accept, Reject}
    ensures exists labels :: (Route(workflows, part, labels) && labels[0] == name && |labels| - 1 <= fuel &&
      VerdictOf(labels[|labels| - 1]) == Process(workflows, name, part, fuel))
    decreases fuel
  {
    var next := Step(workflows, name, part).value;
    if next == AcceptedLabel || next == RejectedLabel {
      var labels := [name, next];
      assert Route(workflows, part, labels);
    } else {
      ProcessHasRoute(workflows, next, part, fuel - 1);
      var rest :| Route(workflows, part, rest) && rest[0] == next && |rest| - 1 <= fuel - 1 &&
        VerdictOf(rest[|rest| - 1]) == Process(workflows, next, part, fuel - 1);
      var labels := [name] + rest;
      assert Route(workflows, part, labels) by {
        forall i | 0 <= i < |labels| - 1
          ensures Step(workflows, labels[i], part) == Some(labels[i + 1])
          ensures labels[i] != AcceptedLabel && labels[i] != RejectedLabel
        {
          if i > 0 {
            assert labels[i] == rest[i - 1] && labels[i + 1] == rest[i];
          }
        }
      }
    }
  }

  /** More passes never change a verdict that was reached. */
  lemma {:induction false} FuelMonotone(workflows: Workflows, name: string, part: Part, fuel: nat, more: nat)
    requires fuel <= more
    requires Process(workflows, name, part, fuel) != OutOfFuel
    ensures Process(workflows, name, part, more) == Process(workflows, name, part, fuel)
    decreases fuel
  {
    var next := Step(workflows, name, part);
    if next.Some? && next.value != AcceptedLabel && next.value != RejectedLabel {
      FuelMonotone(workflows, next.value, part, fuel - 1, more - 1);
    }
  }

  /** `Object.values(part).reduce(...)`: the sum of the four ratings. */
  function PartTotal(part: Part): int
  {
    part.x + part.m + part.a + part.s
  }

  /** The `acceptedParts` list: the rating sum of each accepted part, in
      input order. */
  function AcceptedRatings(workflows: Workflows, parts: seq<Part>, fuel: nat): seq<int>
  {
    if parts == [] then []
    else
      var last := parts[|parts| - 1];
      AcceptedRatings(workflows, parts[..|parts| - 1], fuel) +
        (if Process(workflows, Initial, last, fuel) == Accept then [PartTotal(last)] else [])
  }

  /** A part the loop of `findSolution` settles: accepted or rejected. */
  predicate Settled(verdict: Verdict)
  {
    verdict == Accept || verdict == Reject
  }

  /** `findSolution` of part 1, on parsed workflows and parts. A part whose
      workflow answers nothing makes the next `workflows.get` return
      `undefined`, and iterating it throws: the whole run fails, which is
      `None` here; so is a part the `fuel` passes do not settle. */
  method FindSolution(workflows: Workflows, parts: seq<Part>, fuel: nat) returns (total: Option<int>)
    ensures total.Some? <==> forall i :: 0 <= i < |parts| ==> Settled(Process(workflows, Initial, parts[i], fuel))
    ensures total.Some? ==> total.value == Sum(AcceptedRatings(workflows, parts, fuel))
  {
    var acceptedParts: seq<int> := [];
    for i := 0 to |parts|
      invariant acceptedParts == AcceptedRatings(workflows, parts[..i], fuel)
      invariant forall j :: 0 <= j < i ==> Settled(Process(workflows, Initial, parts[j], fuel))
    {
      assert parts[..i + 1][..i] == parts[..i];
      var verdict := Sort(workflows, parts[i], fuel);
      if !Settled(verdict) {
        return None;
      }
      if verdict == Accept {
        acceptedParts := acceptedParts + [PartTotal(parts[i])];
      }
    }
    assert parts[..|parts|] == parts;
    total := Some(Sum(acceptedParts));
  }

  /** A workflow `in{x<0:A}` has no rule for the part `{x=5,m=0,a=0,s=0}`:
      the run fails however many passes it is given, so `FindSolution`
      answers `None` for any list holding that part. */
  lemma NoFallbackFails(fuel: nat)
    requires fuel > 0
    ensures !Settled(Process(map[Initial := [Check(Cool, Smaller, 0, AcceptedLabel)]], Initial, Part(5, 0, 0, 0), fuel))
  {
    var rules := [Check(Cool, Smaller, 0, AcceptedLabel)];
    assert !Applies(rules[0], Part(5, 0, 0, 0));
    assert RunWorkflow(rules[1..], Part(5, 0, 0, 0)) == None;
  }

  /** The sum of the rating sums of all parts. */
  function AllRatings(parts: seq<Part>): int
  {
    if parts == [] then 0 else AllRatings(parts[..|parts| - 1]) + PartTotal(parts[|parts| - 1])
  }

  /** With non-negative ratings the answer lies between 0 and the ratings of
      all parts; it is all of them when every part is accepted and 0 when
      none is. */
  lemma {:induction false} AcceptedBounds(workflows: Workflows, parts: seq<Part>, fuel: nat)
    requires forall i :: 0 <= i < |parts| ==> PartTotal(parts[i]) >= 0
    ensures 0 <= Sum(AcceptedRatings(workflows, parts, fuel)) <= AllRatings(parts)
    ensures (forall i :: 0 <= i < |parts| ==> Process(workflows, Initial, parts[i], fuel) == Accept) ==>
      Sum(AcceptedRatings(workflows, parts, fuel)) == AllRatings(parts)
    ensures (forall i :: 0 <= i < |parts| ==> Process(workflows, Initial, parts[i], fuel) != Accept) ==>
      Sum(AcceptedRatings(workflows, parts, fuel)) == 0
  {
    if parts != [] {
      var init := parts[..|parts| - 1];
      var last := parts[|parts| - 1];
      AcceptedBounds(workflows, init, fuel);
      var tail := if Process(workflows, Initial, last, fuel) == Accept then [PartTotal(last)] else [];
      SumAppend(AcceptedRatings(workflows, init, fuel), tail);
      if tail != [] {
        assert tail[..0] == [];
      }
    }
  }
}
