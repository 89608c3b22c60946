/** Day 8, part 1: a network of nodes, each with a left and a right
    neighbour, walked by repeating a list of left/right instructions from
    `AAA` until `ZZZ` is reached. */
module NodeWalk {
  import opened Common

  /** A node id to its `[left, right]` pair. */
  type NodeMap = map<string, seq<string>>

  /** One `"AAA = (BBB, CCC)"` line, already split into its three ids. */
  datatype NodeLine = NodeLine(id: string, values: seq<string>)

  /** `processInstructions`: `L` is 0, every other character is 1. */
  function ProcessInstructions(directions: string): (r: seq<int>)
    ensures |r| == |directions|
    ensures forall i :: 0 <= i < |r| ==> (r[i] == 0 <==> directions[i] == 'L') && 0 <= r[i] <= 1
  {
    seq(|directions|, i requires 0 <= i < |directions| => if directions[i] == 'L' then 0 else 1)
  }

  /** The map the lines build: a later line for the same id replaces an
      earlier one. */
  function NodesOf(lines: seq<NodeLine>): NodeMap
  {
    if lines == [] then map[]
    else NodesOf(lines[..|lines| - 1])[lines[|lines| - 1].id := lines[|lines| - 1].values]
  }

  /** `processNodesLines` (part 1): `nodeMap.set` for every line in turn. */
  method ProcessNodesLines(lines: seq<NodeLine>) returns (nodeMap: NodeMap)
    ensures nodeMap == NodesOf(lines)
  {
    nodeMap := map[];
    for i := 0 to |lines|
      invariant nodeMap == NodesOf(lines[..i])
    {
      assert lines[..i + 1][..i] == lines[..i];
      nodeMap := nodeMap[lines[i].id := lines[i].values];
    }
    assert lines[..|lines|] == lines;
  }

  /** Every listed id is a node, and it has the pair of its last line. */
  lemma {:induction false} NodesOfLast(lines: seq<NodeLine>, i: int)
    requires 0 <= i < |lines|
    requires forall j :: i < j < |lines| ==> lines[j].id != lines[i].id
    ensures lines[i].id in NodesOf(lines) && NodesOf(lines)[lines[i].id] == lines[i].values
  {
    if i < |lines| - 1 {
      NodesOfLast(lines[..|lines| - 1], i);
    }
  }

  /** Only listed ids are nodes. */
  lemma {:induction false} NodesOfKeys(lines: seq<NodeLine>, id: string)
    ensures id in NodesOf(lines) ==> exists j :: 0 <= j < |lines| && lines[j].id == id
  {
    if lines != [] && id in NodesOf(lines) && id != lines[|lines| - 1].id {
      NodesOfKeys(lines[..|lines| - 1], id);
      var j :| 0 <= j < |lines| - 1 && lines[..|lines| - 1][j].id == id;
      assert lines[j].id == id;
    }
  }

  /** One move: `nodeMap.get(node)[move]`. A node missing from the map, or a
      pair without that entry, makes the walk fail (the source then throws a
      `TypeError`). */
  function Move(nodeMap: NodeMap, node: string, move: int): Option<string>
  {
    if node in nodeMap && 0 <= move < |nodeMap[node]| then Some(nodeMap[node][move]) else None
  }

  /** The node reached after `k` steps from `start` when the first step uses
      instruction `offset`, the instructions repeating cyclically. */
  function NodeAfter(nodeMap: NodeMap, directions: seq<int>, start: string, offset: nat, k: nat): Option<string>
    requires |directions| > 0
  {
    if k == 0 then Some(start)
    else
      var previous := NodeAfter(nodeMap, directions, start, offset, k - 1);
      if previous.None? then None
      else Move(nodeMap, previous.value, directions[(offset + k - 1) % |directions|])
  }

  /** Steps `1 .. k` all reach a node, and none of them is an end node. */
  predicate Avoids(nodeMap: NodeMap, directions: seq<int>, start: string, offset: nat, k: nat, isEnd: string -> bool)
    requires |directions| > 0
  {
    forall j :: 1 <= j <= k ==>
      NodeAfter(nodeMap, directions, start, offset, j).Some? &&
      !isEnd(NodeAfter(nodeMap, directions, start, offset, j).value)
  }

  /** How a walk ended: at an end node after `steps` steps, failing at step
      `steps`, or still walking when the fuel ran out. */
  datatype Outcome = Reached(steps: nat) | Failed(steps: nat) | OutOfFuel

  /** The walk's result against its specification: `Reached(s)` is the first
      end node, `Failed(s)` the first failing step, and `OutOfFuel` means the
      first `fuel` steps went on without reaching an end. */
  predicate WalkResult(nodeMap: NodeMap, directions: seq<int>, start: string, offset: nat, fuel: nat,
                       isEnd: string -> bool, r: Outcome)
    requires |directions| > 0
  {
    match r
    case Reached(s) =>
      1 <= s <= fuel && Avoids(nodeMap, directions, start, offset, s - 1, isEnd) &&
      NodeAfter(nodeMap, directions, start, offset, s).Some? &&
      isEnd(NodeAfter(nodeMap, directions, start, offset, s).value)
    case Failed(s) =>
      1 <= s <= fuel && Avoids(nodeMap, directions, start, offset, s - 1, isEnd) &&
      NodeAfter(nodeMap, directions, start, offset, s).None?
    case OutOfFuel =>
      Avoids(nodeMap, directions, start, offset, fuel, isEnd)
  }

  /** Advancing the index by one and wrapping is the next step's index. */
  lemma ModNext(a: nat, n: int)
    requires n > 0
    ensures (a % n + 1) % n == (a + 1) % n
  {
    var q, r := a / n, a % n;
    assert a == q * n + r;
    if r + 1 < n {
      DivModUnique(q, r + 1, n);
      DivModUnique(0, r + 1, n);
    } else {
      assert (q + 1) * n == q * n + n;
      DivModUnique(q + 1, 0, n);
      DivModUnique(1, 0, n);
    }
  }

  /** One more step extends the walk, and keeps it away from end nodes
      when the new node is not one. */
  lemma WalkStep(nodeMap: NodeMap, directions: seq<int>, start: string, offset: nat, k: nat, node: string,
                 isEnd: string -> bool)
    requires |directions| > 0
    requires NodeAfter(nodeMap, directions, start, offset, k) == Some(node)
    requires Avoids(nodeMap, directions, start, offset, k, isEnd)
    ensures NodeAfter(nodeMap, directions, start, offset, k + 1) ==
      Move(nodeMap, node, directions[(offset + k) % |directions|])
    ensures var next := NodeAfter(nodeMap, directions, start, offset, k + 1);
      next.Some? && !isEnd(next.value) ==> Avoids(nodeMap, directions, start, offset, k + 1, isEnd)
  {
  }

  predicate IsZZZ(node: string)
  {
    node == "ZZZ"
  }

  /** `countStepsToEndNode`: walks from `AAA` until `ZZZ`. The source loops
      without bound; `fuel` caps the number of steps. */
  method CountStepsToEndNode(directions: seq<int>, nodeMap: NodeMap, fuel: nat) returns (r: Outcome)
    requires |directions| > 0
    ensures WalkResult(nodeMap, directions, "AAA", 0, fuel, IsZZZ, r)
  {
    var currentNode := "AAA";
    var directionIndex := 0;
    var steps := 0;
    while steps < fuel
      invariant steps <= fuel
      invariant directionIndex == steps % |directions|
      invariant NodeAfter(nodeMap, directions, "AAA", 0, steps) == Some(currentNode)
      invariant Avoids(nodeMap, directions, "AAA", 0, steps, IsZZZ)
    {
      WalkStep(nodeMap, directions, "AAA", 0, steps, currentNode, IsZZZ);
      steps := steps + 1;
      var moveTo := directions[directionIndex];
      ModNext(steps - 1, |directions|);
      directionIndex := (directionIndex + 1) % |directions|;
      var next := Move(nodeMap, currentNode, moveTo);
      if next.None? {
        return Failed(steps);
      }
      currentNode := next.value;
      if currentNode == "ZZZ" {
        return Reached(steps);
      }
    }
    return OutOfFuel;
  }

  /** Walking `a + k` steps is walking `a` steps and then `k` more, the
      second walk starting at instruction `offset + a`. */
  lemma {:induction false} Resumes(nodeMap: NodeMap, directions: seq<int>, start: string, offset: nat, a: nat, k: nat)
    requires |directions| > 0
    ensures NodeAfter(nodeMap, directions, start, offset, a + k) ==
      match NodeAfter(nodeMap, directions, start, offset, a)
      case None => None
      case Some(node) => NodeAfter(nodeMap, directions, node, offset + a, k)
  {
    if k > 0 {
      Resumes(nodeMap, directions, start, offset, a, k - 1);
      var middle := NodeAfter(nodeMap, directions, start, offset, a);
      if middle.Some? {
        assert offset + a + k - 1 == (offset + a) + k - 1;
      }
    }
  }

  /** Only the instruction index matters, not how many rounds were done. */
  lemma {:induction false} OffsetCycles(nodeMap: NodeMap, directions: seq<int>, start: string, o1: nat, o2: nat, k: nat)
    requires |directions| > 0 && o1 % |directions| == o2 % |directions|
    ensures NodeAfter(nodeMap, directions, start, o1, k) == NodeAfter(nodeMap, directions, start, o2, k)
  {
    if k > 0 {
      OffsetCycles(nodeMap, directions, start, o1, o2, k - 1);
      var n := |directions|;
      var d1, d2 := (o1 + k - 1) % n, (o2 + k - 1) % n;
      DivModUnique(o1 / n, o1 % n, n);
      DivModUnique(o2 / n, o2 % n, n);
      SameIndexAhead(o1, o2, k - 1, n);
    }
  }

  lemma SameIndexAhead(o1: nat, o2: nat, j: nat, n: int)
    requires n > 0 && o1 % n == o2 % n
    ensures (o1 + j) % n == (o2 + j) % n
  {
    var r := o1 % n;
    var s := (r + j) % n;
    var t := (r + j) / n;
    assert r + j == t * n + s;
    assert o1 + j == (o1 / n + t) * n + s;
    assert o2 + j == (o2 / n + t) * n + s;
    DivModUnique(o1 / n + t, s, n);
    DivModUnique(o2 / n + t, s, n);
  }

  /** Once the walk is back at the same node with the same instruction
      index, everything after repeats: the walk is periodic from there. */
  lemma Periodic(nodeMap: NodeMap, directions: seq<int>, start: string, a: nat, b: nat, k: nat)
    requires |directions| > 0 && a % |directions| == b % |directions|
    requires NodeAfter(nodeMap, directions, start, 0, a).Some?
    requires NodeAfter(nodeMap, directions, start, 0, a) == NodeAfter(nodeMap, directions, start, 0, b)
    ensures NodeAfter(nodeMap, directions, start, 0, a + k) == NodeAfter(nodeMap, directions, start, 0, b + k)
  {
    var node := NodeAfter(nodeMap, directions, start, 0, a).value;
    Resumes(nodeMap, directions, start, 0, a, k);
    Resumes(nodeMap, directions, start, 0, b, k);
    OffsetCycles(nodeMap, directions, node, a, b, k);
  }
}

/** Day 8, part 2: a ghost starts on every node whose id ends in `A` and
    walks until it reaches a node whose id ends in `Z`; the answer is the
    least common multiple of their step counts. */
module GhostWalk {
  import opened Common
  import opened NodeWalk
  import Lcm

  predicate EndsWithA(id: string)
  {
    |id| > 0 && id[|id| - 1] == 'A'
  }

  /** `node.endsWith('Z')`. */
  predicate EndsWithZ(id: string)
  {
    |id| > 0 && id[|id| - 1] == 'Z'
  }

  /** The ids ending in `A`, in line order. */
  function StartNodes(lines: seq<NodeLine>): seq<string>
  {
    if lines == [] then []
    else
      var id := lines[|lines| - 1].id;
      StartNodes(lines[..|lines| - 1]) + (if EndsWithA(id) then [id] else [])
  }

  /** The start nodes are exactly the listed ids ending in `A`. */
  lemma {:induction false} StartNodesAreStarts(lines: seq<NodeLine>, id: string)
    ensures id in StartNodes(lines) <==> EndsWithA(id) && exists j :: 0 <= j < |lines| && lines[j].id == id
  {
    if lines != [] {
      var init := lines[..|lines| - 1];
      StartNodesAreStarts(init, id);
      if exists j :: 0 <= j < |init| && init[j].id == id {
        var j :| 0 <= j < |init| && init[j].id == id;
        assert lines[j].id == id;
      }
    }
  }

  /** `processNodesLines` (part 2): the map and the start nodes. */
  method ProcessNodesLines(lines: seq<NodeLine>) returns (nodeMap: NodeMap, startNodes: seq<string>)
    ensures nodeMap == NodesOf(lines) && startNodes == StartNodes(lines)
  {
    nodeMap := map[];
    startNodes := [];
    for i := 0 to |lines|
      invariant nodeMap == NodesOf(lines[..i]) && startNodes == StartNodes(lines[..i])
    {
      assert lines[..i + 1][..i] == lines[..i];
      nodeMap := nodeMap[lines[i].id := lines[i].values];
      if EndsWithA(lines[i].id) {
        startNodes := startNodes + [lines[i].id];
      }
    }
    assert lines[..|lines|] == lines;
  }

  /** A ghost: the node it is on and the steps it has taken. */
  class Ghost {
    var node: string
    var steps: nat

    constructor(node: string)
      ensures this.node == node && steps == 0
    {
      this.node := node;
      steps := 0;
    }
  }

  /** `findPossibleEndNode`: the ghost resumes at instruction
      `steps % length` and walks until its node ends in `Z`; `fuel` caps
      the number of steps. The walk runs on locals that are written back to
      the ghost when it stops, where the source writes the fields at every
      step; nothing reads them in between. */
  method FindPossibleEndNode(directions: seq<int>, nodeMap: NodeMap, walker: Ghost, fuel: nat) returns (r: Outcome)
    requires |directions| > 0
    modifies walker
    ensures WalkResult(nodeMap, directions, old(walker.node), old(walker.steps), fuel, EndsWithZ, r)
    ensures r.Reached? ==> walker.steps == old(walker.steps) + r.steps && EndsWithZ(walker.node)
  {
    var node, steps := walker.node, walker.steps;
    ghost var offset := steps;
    var directionIndex := steps % |directions|;
    var taken := 0;
    while taken < fuel
      invariant taken <= fuel && steps == offset + taken
      invariant directionIndex == steps % |directions|
      invariant NodeAfter(nodeMap, directions, old(walker.node), offset, taken) == Some(node)
      invariant Avoids(nodeMap, directions, old(walker.node), offset, taken, EndsWithZ)
    {
      WalkStep(nodeMap, directions, old(walker.node), offset, taken, node, EndsWithZ);
      steps := steps + 1;
      taken := taken + 1;
      var moveTo := directions[directionIndex];
      var next := Move(nodeMap, node, moveTo);
      if next.None? {
        walker.steps := steps;
        return Failed(taken);
      }
      node := next.value;
      if EndsWithZ(node) {
        walker.node, walker.steps := node, steps;
        return Reached(taken);
      }
      ModNext(steps - 1, |directions|);
      directionIndex := (directionIndex + 1) % |directions|;
    }
    walker.node, walker.steps := node, steps;
    return OutOfFuel;
  }

  /** The walks of `findSolution` of part 2: one ghost per start node, each
      walked to its first `Z` node. `arrived` is false when some walker does
      not arrive within `fuel` steps or its walk fails. */
  method WalkGhosts(directions: seq<int>, lines: seq<NodeLine>, fuel: nat)
    returns (arrived: bool, counts: seq<nat>)
    requires |directions| > 0
    ensures arrived ==> |counts| == |StartNodes(lines)|
    ensures arrived ==> forall i :: 0 <= i < |counts| ==>
      WalkResult(NodesOf(lines), directions, StartNodes(lines)[i], 0, fuel, EndsWithZ, Reached(counts[i]))
  {
    var nodeMap, startNodes := ProcessNodesLines(lines);
    counts := [];
    for i := 0 to |startNodes|
      invariant |counts| == i
      invariant forall k :: 0 <= k < i ==>
        WalkResult(nodeMap, directions, startNodes[k], 0, fuel, EndsWithZ, Reached(counts[k]))
    {
      var walker := new Ghost(startNodes[i]);
      var r := FindPossibleEndNode(directions, nodeMap, walker, fuel);
      if !r.Reached? {
        return false, counts;
      }
      counts := counts + [walker.steps];
    }
    arrived := true;
  }

  /** `findSolution` of part 2 as written: the step counts of the ghosts
      combined by the least-common-multiple utility as it stands, which
      leaves out the factors 2 and 3 (see `Lcm.LcmAsWrittenOfFour`); only
      the product of the factors it does find is promised to divide the
      answer. */
  method FindSolution(directions: seq<int>, lines: seq<NodeLine>, fuel: nat)
    returns (answer: Option<int>, counts: seq<nat>)
    requires |directions| > 0
    ensures answer.Some? ==> |counts| == |StartNodes(lines)|
    ensures answer.Some? ==> forall i :: 0 <= i < |counts| ==>
      WalkResult(NodesOf(lines), directions, StartNodes(lines)[i], 0, fuel, EndsWithZ, Reached(counts[i]))
    ensures answer.Some? ==> answer.value == Lcm.LcmAsWritten(counts)
    ensures answer.Some? ==> forall i :: 0 <= i < |counts| ==>
      Lcm.Divides(Product(Lcm.FactorsFrom(counts[i], 2)), answer.value)
  {
    var arrived;
    arrived, counts := WalkGhosts(directions, lines, fuel);
    if !arrived {
      return None, counts;
    }
    var numbers: seq<int> := counts;
    var lcm := Lcm.CalculateLeastCommonMultipleAsWritten(numbers);
    forall i | 0 <= i < |counts|
      ensures Lcm.Divides(Product(Lcm.FactorsFrom(counts[i], 2)), lcm)
    {
      Lcm.FactorProductDividesLcmAsWritten(numbers, i);
    }
    answer := Some(lcm);
  }

  /** `findSolution` of part 2 with the corrected least common multiple:
      every step count divides the answer. */
  method FindSolutionIntended(directions: seq<int>, lines: seq<NodeLine>, fuel: nat)
    returns (answer: Option<int>, counts: seq<nat>)
    requires |directions| > 0
    ensures answer.Some? ==> |counts| == |StartNodes(lines)|
    ensures answer.Some? ==> forall i :: 0 <= i < |counts| ==>
      WalkResult(NodesOf(lines), directions, StartNodes(lines)[i], 0, fuel, EndsWithZ, Reached(counts[i]))
    ensures answer.Some? ==> answer.value == Lcm.Lcm(counts)
    ensures answer.Some? ==> forall i :: 0 <= i < |counts| ==> Lcm.Divides(counts[i], answer.value)
  {
    var arrived;
    arrived, counts := WalkGhosts(directions, lines, fuel);
    if !arrived {
      return None, counts;
    }
    var numbers: seq<int> := counts;
    var lcm := Lcm.CalculateLeastCommonMultiple(numbers);
    forall i | 0 <= i < |counts|
      ensures Lcm.Divides(counts[i], lcm)
    {
      assert WalkResult(NodesOf(lines), directions, StartNodes(lines)[i], 0, fuel, EndsWithZ, Reached(counts[i]));
      assert numbers[i] >= 1;
    }
    answer := Some(lcm);
  }
}
