/** Day 15, part 1: the HASH algorithm. Each character's code is added to
    the running value, which is then multiplied by 17 and reduced modulo 256. */
module LensHash {
  import opened Common

  /** One step of the algorithm for the character `c`. */
  function Step(value: int, c: char): int
  {
    ((value + c as int) * 17) % 256
  }

  /** The hash of a string, as a left fold of `Step` from 0. */
  function Hash(s: string): (r: int)
    ensures 0 <= r < 256
  {
    if s == [] then 0 else Step(Hash(s[..|s| - 1]), s[|s| - 1])
  }

  /** `hashSequence`: the index loop over the characters. */
  method HashSequence(sequence: string) returns (currentValue: int)
    ensures currentValue == Hash(sequence)
    ensures 0 <= currentValue < 256
  {
    currentValue := 0;
    for index := 0 to |sequence|
      invariant currentValue == Hash(sequence[..index])
    {
      assert sequence[..index + 1][..index] == sequence[..index];
      currentValue := ((currentValue + sequence[index] as int) * 17) % 256;
    }
    assert sequence[..|sequence|] == sequence;
  }

  /** The same fold written from the front with an accumulator. */
  function HashFrom(value: int, s: string): int
    decreases |s|
  {
    if s == [] then value else HashFrom(Step(value, s[0]), s[1..])
  }

  /** Folding from the back and from the front agree, so extending a string
      by one character takes one more step from its hash. */
  lemma {:induction false} HashFolds(value: int, s: string, t: string)
    requires value == Hash(s)
    ensures HashFrom(value, t) == Hash(s + t)
    decreases |t|
  {
    if t == [] {
      assert s + t == s;
    } else {
      assert (s + [t[0]])[..|s|] == s;
      assert (s + [t[0]]) + t[1..] == s + t;
      HashFolds(Step(value, t[0]), s + [t[0]], t[1..]);
    }
  }

  lemma HashIsFold(s: string)
    ensures Hash(s) == HashFrom(0, s)
  {
    HashFolds(0, [], s);
    assert [] + s == s;
  }

  /** The example from the puzzle statement. */
  lemma HashOfHASH()
    ensures Hash("HASH") == 52
  {
    assert Hash("H") == 200 by { assert "H"[..0] == []; }
    assert Hash("HA") == 153 by { assert "HA"[..1] == "H"; }
    assert Hash("HAS") == 172 by { assert "HAS"[..2] == "HA"; }
    assert "HASH"[..3] == "HAS";
  }

  /** The answer of part 1: the sum of the hashes of the comma-separated steps. */
  function SumOfHashes(steps: seq<string>): (r: int)
    ensures 0 <= r <= 255 * |steps|
  {
    if steps == [] then 0 else SumOfHashes(steps[..|steps| - 1]) + Hash(steps[|steps| - 1])
  }
}

/** Day 15, part 2: the HASHMAP. Boxes are keyed by the hash of a lens's
    name; a `-` step removes the lens with that name from its box, an `=`
    step replaces the focal length of the lens with that name or appends a
    new lens at the back of the box. */
module LensBoxes {
  import opened Common
  import opened LensHash

  /** A lens; `name` is its label. */
  datatype Lens = Lens(name: string, focalLength: int)

  /** A step of the initialisation sequence, already split on `=` or `-`. */
  datatype Operation = Remove(name: string) | Insert(name: string, focalLength: int)

  /** The index of the first lens with the name (`Array.prototype.find`). */
  function Find(lenses: seq<Lens>, name: string): (r: Option<nat>)
    ensures r.Some? ==> r.value < |lenses| && lenses[r.value].name == name
    ensures r.Some? ==> forall i :: 0 <= i < r.value ==> lenses[i].name != name
    ensures r.None? ==> forall i :: 0 <= i < |lenses| ==> lenses[i].name != name
  {
    if lenses == [] then None
    else if lenses[0].name == name then Some(0)
    else match Find(lenses[1..], name)
      case None => None
      case Some(i) => Some(i + 1)
  }

  /** The `filter` that keeps the lenses with another label, in order. */
  function Without(lenses: seq<Lens>, name: string): (r: seq<Lens>)
    ensures |r| <= |lenses|
  {
    if lenses == [] then []
    else
      var last := lenses[|lenses| - 1];
      Without(lenses[..|lenses| - 1], name) + (if last.name == name then [] else [last])
  }

  /** The `=` step on one box: update in place, or append. */
  function Placed(lenses: seq<Lens>, name: string, focalLength: int): (r: seq<Lens>)
  {
    match Find(lenses, name)
    case Some(i) => lenses[i := Lens(name, focalLength)]
    case None => lenses + [Lens(name, focalLength)]
  }

  /** A box holds at most one lens per name. */
  predicate UniqueLabels(lenses: seq<Lens>)
  {
    forall i, j :: 0 <= i < j < |lenses| ==> lenses[i].name != lenses[j].name
  }

  /** Removing keeps exactly the other lenses, in their order. */
  lemma {:induction false} WithoutKeepsOthers(lenses: seq<Lens>, name: string)
    ensures forall i :: 0 <= i < |Without(lenses, name)| ==> Without(lenses, name)[i].name != name
    ensures forall l :: l in lenses && l.name != name ==> l in Without(lenses, name)
    ensures forall l :: l in Without(lenses, name) ==> l in lenses
  {
    if lenses != [] {
      var init := lenses[..|lenses| - 1];
      WithoutKeepsOthers(init, name);
      assert lenses == init + [lenses[|lenses| - 1]];
    }
  }

  /** Removing a name that is absent changes nothing. */
  lemma {:induction false} WithoutAbsent(lenses: seq<Lens>, name: string)
    requires forall i :: 0 <= i < |lenses| ==> lenses[i].name != name
    ensures Without(lenses, name) == lenses
  {
    if lenses != [] {
      WithoutAbsent(lenses[..|lenses| - 1], name);
    }
  }

  /** Removing a lens from a box with unique labels keeps them unique. */
  lemma {:induction false} WithoutUnique(lenses: seq<Lens>, name: string)
    requires UniqueLabels(lenses)
    ensures UniqueLabels(Without(lenses, name))
  {
    if lenses != [] {
      var init := lenses[..|lenses| - 1];
      var last := lenses[|lenses| - 1];
      WithoutUnique(init, name);
      WithoutKeepsOthers(init, name);
      var w := Without(init, name);
      forall i | 0 <= i < |w|
        ensures w[i].name != last.name
      {
        assert w[i] in init;
      }
    }
  }

  /** An `=` step leaves one lens with the name, carrying the new focal
      length, and keeps the labels unique. */
  lemma PlacedUnique(lenses: seq<Lens>, name: string, focalLength: int)
    requires UniqueLabels(lenses)
    ensures UniqueLabels(Placed(lenses, name, focalLength))
    ensures Lens(name, focalLength) in Placed(lenses, name, focalLength)
  {
    var placed := Placed(lenses, name, focalLength);
    match Find(lenses, name)
    case Some(k) =>
      assert placed[k] == Lens(name, focalLength);
    case None =>
      assert placed[|lenses|] == Lens(name, focalLength);
  }

  /** An `=` step keeps every other lens where it was; a new lens goes to
      the back. */
  lemma PlacedKeepsOthers(lenses: seq<Lens>, name: string, focalLength: int)
    ensures Find(lenses, name).Some? ==> |Placed(lenses, name, focalLength)| == |lenses|
    ensures Find(lenses, name).None? ==> Placed(lenses, name, focalLength)[..|lenses|] == lenses
    ensures forall i :: 0 <= i < |lenses| && lenses[i].name != name ==>
      Placed(lenses, name, focalLength)[i] == lenses[i]
  {
  }

  /** Inserting a new name and then removing it restores the box. */
  lemma {:induction false} RemoveUndoesInsert(lenses: seq<Lens>, name: string, focalLength: int)
    requires forall i :: 0 <= i < |lenses| ==> lenses[i].name != name
    ensures Without(Placed(lenses, name, focalLength), name) == lenses
  {
    var placed := Placed(lenses, name, focalLength);
    assert placed == lenses + [Lens(name, focalLength)];
    assert placed[..|placed| - 1] == lenses;
    WithoutAbsent(lenses, name);
  }

  /** Repeating an `=` step changes nothing. */
  lemma PlacedIdempotent(lenses: seq<Lens>, name: string, focalLength: int)
    ensures Placed(Placed(lenses, name, focalLength), name, focalLength) ==
      Placed(lenses, name, focalLength)
  {
    var once := Placed(lenses, name, focalLength);
    match Find(lenses, name)
    case Some(i) =>
      assert Find(once, name) == Some(i) by { FindSame(lenses, once, name, i); }
    case None =>
      assert Find(once, name) == Some(|lenses|) by { FindSame(once, once, name, |lenses|); }
  }

  lemma {:induction false} FindSame(a: seq<Lens>, b: seq<Lens>, name: string, i: nat)
    requires i < |b| && b[i].name == name
    requires forall k :: 0 <= k < i ==> b[k].name != name
    ensures Find(b, name) == Some(i)
  {
    if i > 0 {
      FindSame(a, b[1..], name, i - 1);
    }
  }

  /** The focusing power of one box: `(box + 1) * (slot + 1) * focalLength`
      summed over its lenses. */
  function BoxPower(box: int, lenses: seq<Lens>): int
  {
    if lenses == [] then 0
    else BoxPower(box, lenses[..|lenses| - 1]) + (box + 1) * |lenses| * lenses[|lenses| - 1].focalLength
  }

  /** The power of the boxes `keys`, in that order. */
  function PowerOver(boxes: map<int, seq<Lens>>, keys: seq<int>): int
    requires forall i :: 0 <= i < |keys| ==> keys[i] in boxes
  {
    if keys == [] then 0
    else PowerOver(boxes, keys[..|keys| - 1]) + BoxPower(keys[|keys| - 1], boxes[keys[|keys| - 1]])
  }

  /** The boxes after one step: the name's box, created empty when missing,
      is the only one that changes. */
  function StepBoxes(boxes: map<int, seq<Lens>>, op: Operation): (r: map<int, seq<Lens>>)
    ensures r.Keys == boxes.Keys + {Hash(op.name)}
    ensures forall b :: b in boxes && b != Hash(op.name) ==> r[b] == boxes[b]
  {
    var box := Hash(op.name);
    var lenses := if box in boxes then boxes[box] else [];
    boxes[box := match op
      case Remove(name) => Without(lenses, name)
      case Insert(name, focalLength) => Placed(lenses, name, focalLength)]
  }

  /** The lenses of box `box` all hash to it, at most one per label. */
  predicate BoxPlaced(lenses: seq<Lens>, box: int)
  {
    UniqueLabels(lenses) && forall i :: 0 <= i < |lenses| ==> Hash(lenses[i].name) == box
  }

  /** Every lens sits in the box its label hashes to, at most once per box. */
  predicate WellPlaced(boxes: map<int, seq<Lens>>)
  {
    forall b :: b in boxes ==> 0 <= b < 256 && BoxPlaced(boxes[b], b)
  }

  lemma WithoutPlaced(lenses: seq<Lens>, box: int, name: string)
    requires BoxPlaced(lenses, box)
    ensures BoxPlaced(Without(lenses, name), box)
  {
    WithoutUnique(lenses, name);
    WithoutKeepsOthers(lenses, name);
    var w := Without(lenses, name);
    forall i | 0 <= i < |w|
      ensures Hash(w[i].name) == box
    {
      assert w[i] in lenses;
    }
  }

  lemma PlacedPlaced(lenses: seq<Lens>, box: int, name: string, focalLength: int)
    requires BoxPlaced(lenses, box) && Hash(name) == box
    ensures BoxPlaced(Placed(lenses, name, focalLength), box)
  {
    PlacedUnique(lenses, name, focalLength);
  }

  /** Each step keeps every lens in its own box and the labels unique. */
  lemma StepKeepsPlacement(boxes: map<int, seq<Lens>>, op: Operation)
    requires WellPlaced(boxes)
    ensures WellPlaced(StepBoxes(boxes, op))
  {
    var box := Hash(op.name);
    var lenses := if box in boxes then boxes[box] else [];
    assert BoxPlaced(lenses, box);
    match op {
      case Remove(name) =>
        WithoutPlaced(lenses, box, name);
      case Insert(name, focalLength) =>
        PlacedPlaced(lenses, box, name, focalLength);
    }
  }

  /** The boxes after a whole sequence of steps. */
  function Run(ops: seq<Operation>): map<int, seq<Lens>>
  {
    if ops == [] then map[] else StepBoxes(Run(ops[..|ops| - 1]), ops[|ops| - 1])
  }

  lemma {:induction false} RunWellPlaced(ops: seq<Operation>)
    ensures WellPlaced(Run(ops))
  {
    if ops != [] {
      RunWellPlaced(ops[..|ops| - 1]);
      StepKeepsPlacement(Run(ops[..|ops| - 1]), ops[|ops| - 1]);
    }
  }

  /** The focusing power of all boxes; the source visits them in insertion
      order, the sum does not depend on the order, so the model visits them
      by number. */
  function Power(boxes: map<int, seq<Lens>>): int
  {
    SortedKeysFacts(boxes.Keys);
    PowerOver(boxes, SortedKeys(boxes.Keys))
  }

  /** The boxes of part 2: a map from box number to its lenses, updated in
      place by each step. */
  class Boxes {
    var boxes: map<int, seq<Lens>>

    constructor ()
      ensures boxes == map[]
    {
      boxes := map[];
    }

    /** One step of the initialisation sequence. */
    method Apply(op: Operation)
      modifies this
      ensures boxes == StepBoxes(old(boxes), op)
    {
      var box := HashSequence(op.name);
      if box !in boxes {
        boxes := boxes[box := []];
      }
      var lenses := boxes[box];
      match op {
        case Remove(name) =>
          boxes := boxes[box := Without(lenses, name)];
        case Insert(name, focalLength) =>
          var found := Find(lenses, name);
          if found.None? {
            boxes := boxes[box := lenses + [Lens(name, focalLength)]];
          } else {
            boxes := boxes[box := lenses[found.value := Lens(name, focalLength)]];
          }
      }
    }
  }

  /** `findSolution` of part 2: runs the steps, then sums the focusing power. */
  method Initialise(ops: seq<Operation>) returns (power: int)
    ensures power == Power(Run(ops))
  {
    var b := new Boxes();
    for k := 0 to |ops|
      invariant b.boxes == Run(ops[..k])
    {
      assert ops[..k + 1][..k] == ops[..k];
      b.Apply(ops[k]);
    }
    assert ops[..|ops|] == ops;
    power := Power(b.boxes);
  }
}
