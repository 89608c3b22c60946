/** Day 20, `src/20/helpers.ts`, `src/20/part-1.ts` and `src/20/part-2.ts`:
    pushing the button. A push sends one low pulse to the broadcaster; the
    pulses then travel first in, first out, each one reaching its
    destinations in order, and every module that answers puts its pulse at
    the back of the queue. A push is counted in high and low pulses, one per
    destination; part 1 pushes until no flip-flop is on, part 2 until each
    watched conjunction has sent a high pulse.

    A push need not end (two modules can keep answering each other), so the
    functions that describe it take a `fuel` bound on the number of pulses
    taken from the queue, and the methods report when it runs out. */
module PulsePropagation {
  import opened Common
  import opened PulseModules
  import opened PulseScores
  import Lcm

  /** The pulse the button sends. */
  const ButtonPulse := Pulse([BroadcasterName], "button", Low)

  /** `pulseCount[type] += n`. */
  function Added(c: PulseCounter, pulseType: PulseType, n: nat): (r: PulseCounter)
    ensures r.high + r.low == c.high + c.low + n
  {
    if pulseType == High then c.(high := c.high + n) else c.(low := c.low + n)
  }

  /** `pulse` reaching destination `d` after the states and answers `r`. */
  function DeliverOne(r: (map<string, ModuleState>, seq<Pulse>), pulse: Pulse, d: string)
    : (r': (map<string, ModuleState>, seq<Pulse>))
    ensures r'.0.Keys == r.0.Keys
  {
    var (after, answer) := Delivered(r.0, d, pulse.pulseType, pulse.source);
    (after, if answer.Some? then r.1 + [answer.value] else r.1)
  }

  /** The states after `pulse` reached the destinations `ds` in turn, and the
      pulses the modules answered with, in order. */
  function DeliverAll(states: map<string, ModuleState>, pulse: Pulse, ds: seq<string>)
    : (r: (map<string, ModuleState>, seq<Pulse>))
    ensures r.0.Keys == states.Keys
    decreases |ds|
  {
    if ds == [] then (states, [])
    else DeliverOne(DeliverAll(states, pulse, ds[..|ds| - 1]), pulse, ds[|ds| - 1])
  }

  lemma DeliverAllStep(states: map<string, ModuleState>, pulse: Pulse, ds: seq<string>, j: int)
    requires 0 <= j < |ds|
    ensures DeliverAll(states, pulse, ds[..j + 1]) == DeliverOne(DeliverAll(states, pulse, ds[..j]), pulse, ds[j])
  {
    assert ds[..j + 1][..j] == ds[..j];
  }

  /** A module answers once at most: a pulse makes at most as many answers
      as it has destinations, and destinations without a module give none. */
  lemma {:induction false} DeliverAllAnswers(states: map<string, ModuleState>, pulse: Pulse, ds: seq<string>)
    ensures |DeliverAll(states, pulse, ds).1| <= |ds|
    ensures (forall j :: 0 <= j < |ds| ==> ds[j] !in states) ==> DeliverAll(states, pulse, ds) == (states, [])
    decreases |ds|
  {
    if ds != [] {
      DeliverAllAnswers(states, pulse, ds[..|ds| - 1]);
    }
  }

  /** The end of a push: the states reached and every pulse taken from the
      queue, in order. */
  datatype Run = Run(states: map<string, ModuleState>, trace: seq<Pulse>)

  /** The rest of a push with `queue` still to be sent, taking at most `fuel`
      pulses from it; `None` when that is not enough to empty it. */
  function Propagate(states: map<string, ModuleState>, queue: seq<Pulse>, fuel: nat): Option<Run>
    decreases fuel
  {
    if queue == [] then Some(Run(states, []))
    else if fuel == 0 then None
    else
      var (after, sent) := DeliverAll(states, queue[0], queue[0].destinations);
      Prefixed([queue[0]], Propagate(after, queue[1..] + sent, fuel - 1))
  }

  /** `trace` put in front of a run's pulses. */
  function Prefixed(trace: seq<Pulse>, run: Option<Run>): Option<Run>
  {
    match run
    case None => None
    case Some(r) => Some(Run(r.states, trace + r.trace))
  }

  /** First in, first out: a push sends the pulses of its queue first, in
      their order, and leaves the machine with the modules it had. */
  lemma {:induction false} PropagateKeepsQueueOrder(states: map<string, ModuleState>, queue: seq<Pulse>, fuel: nat)
    ensures Propagate(states, queue, fuel).Some? ==>
      var r := Propagate(states, queue, fuel).value;
      |queue| <= |r.trace| && r.trace[..|queue|] == queue && r.states.Keys == states.Keys
    decreases fuel
  {
    if queue != [] && fuel > 0 {
      var (after, sent) := DeliverAll(states, queue[0], queue[0].destinations);
      PropagateKeepsQueueOrder(after, queue[1..] + sent, fuel - 1);
      if Propagate(states, queue, fuel).Some? {
        var rest := Propagate(after, queue[1..] + sent, fuel - 1).value;
        assert rest.trace[..|queue| - 1] == (queue[1..] + sent)[..|queue| - 1] == queue[1..];
        assert ([queue[0]] + rest.trace)[..|queue|] == [queue[0]] + rest.trace[..|queue| - 1];
      }
    }
  }

  /** The counts of a trace: every pulse is counted once per destination,
      as high or low. */
  function Tally(trace: seq<Pulse>): PulseCounter
  {
    if trace == [] then PulseCounter(0, 0)
    else
      var p := trace[|trace| - 1];
      Added(Tally(trace[..|trace| - 1]), p.pulseType, |p.destinations|)
  }

  /** Every pulse reaching a destination, whatever its type. */
  function Deliveries(trace: seq<Pulse>): nat
  {
    if trace == [] then 0 else Deliveries(trace[..|trace| - 1]) + |trace[|trace| - 1].destinations|
  }

  /** The pulse counts add up: high and low together are the deliveries,
      and the highs are the deliveries of the high pulses. */
  lemma {:induction false} TallyAddsUp(trace: seq<Pulse>)
    ensures Tally(trace).high + Tally(trace).low == Deliveries(trace)
    ensures Tally(trace).high == Deliveries(HighPulses(trace))
  {
    if trace != [] {
      var init := trace[..|trace| - 1];
      TallyAddsUp(init);
      var p := trace[|trace| - 1];
      var highs := HighPulses(init) + [p];
      if p.pulseType == High {
        assert HighPulses(trace) == highs;
        assert highs[..|highs| - 1] == HighPulses(init);
        assert Deliveries(highs) == Deliveries(HighPulses(init)) + |p.destinations|;
      } else {
        assert HighPulses(trace) == HighPulses(init) + [];
        assert HighPulses(init) + [] == HighPulses(init);
      }
    }
  }

  /** The high pulses of a trace. */
  function HighPulses(trace: seq<Pulse>): (r: seq<Pulse>)
    ensures forall p :: p in r ==> p in trace && p.pulseType == High
  {
    if trace == [] then []
    else
      var p := trace[|trace| - 1];
      HighPulses(trace[..|trace| - 1]) + (if p.pulseType == High then [p] else [])
  }

  /** A push that ends counts the button's own pulse: at least one low. */
  lemma PushCountsTheButton(states: map<string, ModuleState>, fuel: nat)
    requires Propagate(states, [ButtonPulse], fuel).Some?
    ensures Tally(Propagate(states, [ButtonPulse], fuel).value.trace).low >= 1
  {
    var trace := Propagate(states, [ButtonPulse], fuel).value.trace;
    PropagateKeepsQueueOrder(states, [ButtonPulse], fuel);
    TallyOfPrefix(trace, 1);
    assert trace[..1] == [ButtonPulse];
    assert Tally(trace[..1]) == PulseCounter(0, 1) by {
      assert trace[..1][..0] == [];
    }
  }

  /** Counts only grow along a trace. */
  lemma {:induction false} TallyOfPrefix(trace: seq<Pulse>, n: nat)
    requires n <= |trace|
    ensures Tally(trace[..n]).high <= Tally(trace).high && Tally(trace[..n]).low <= Tally(trace).low
    decreases |trace| - n
  {
    if n < |trace| {
      TallyOfPrefix(trace, n + 1);
      assert trace[..n + 1][..n] == trace[..n];
    } else {
      assert trace[..n] == trace;
    }
  }

  /** The inner loop of `pushButton`: `pulse` reaches each of its
      destinations in turn, counted once per destination; the answers come
      back in order. */
  method Transmit(modules: Modules, pulse: Pulse, pulseCount: PulseCounter)
    returns (counted: PulseCounter, sent: seq<Pulse>)
    requires Distinct(modules)
    modifies Objects(modules)
    ensures (States(modules), sent) == DeliverAll(old(States(modules)), pulse, pulse.destinations)
    ensures counted == Added(pulseCount, pulse.pulseType, |pulse.destinations|)
  {
    ghost var start := States(modules);
    counted, sent := pulseCount, [];
    for j := 0 to |pulse.destinations|
      invariant States(modules) == DeliverAll(start, pulse, pulse.destinations[..j]).0
      invariant sent == DeliverAll(start, pulse, pulse.destinations[..j]).1
      invariant counted == Added(pulseCount, pulse.pulseType, j)
    {
      var destination := pulse.destinations[j];
      DeliverAllStep(start, pulse, pulse.destinations, j);
      counted := Added(counted, pulse.pulseType, 1);
      var newPulse := Deliver(modules, destination, pulse.pulseType, pulse.source);
      if newPulse.Some? {
        sent := sent + [newPulse.value];
      }
    }
    assert pulse.destinations[..|pulse.destinations|] == pulse.destinations;
  }

  /** `pushButton`: one push of the button. `trace` is every pulse taken
      from the queue, in order, which is what the spy of `helpers.ts` is
      shown; `done` is false when `fuel` pulses did not empty the queue.
      The count is the trace's tally either way. */
  method PushButton(modules: Modules, fuel: nat) returns (pulseCount: PulseCounter, trace: seq<Pulse>, done: bool)
    requires Distinct(modules)
    modifies Objects(modules)
    ensures done <==> Propagate(old(States(modules)), [ButtonPulse], fuel).Some?
    ensures done ==> Propagate(old(States(modules)), [ButtonPulse], fuel) == Some(Run(States(modules), trace))
    ensures pulseCount == Tally(trace)
  {
    ghost var start := States(modules);
    var queue := [ButtonPulse];
    pulseCount, trace := PulseCounter(0, 0), [];
    var fuelLeft := fuel;
    if Propagate(start, queue, fuel).Some? {
      assert [] + Propagate(start, queue, fuel).value.trace == Propagate(start, queue, fuel).value.trace;
    }
    while queue != [] && fuelLeft > 0
      invariant Propagate(start, [ButtonPulse], fuel) == Prefixed(trace, Propagate(States(modules), queue, fuelLeft))
      invariant pulseCount == Tally(trace)
      decreases fuelLeft
    {
      var pulse := queue[0];
      ghost var traceBefore := trace;
      queue := queue[1..];
      var sent;
      pulseCount, sent := Transmit(modules, pulse, pulseCount);
      trace := trace + [pulse];
      assert trace[..|trace| - 1] == traceBefore;
      queue := queue + sent;
      fuelLeft := fuelLeft - 1;
      PrefixedTwice(traceBefore, pulse, Propagate(States(modules), queue, fuelLeft));
    }
    done := queue == [];
    if done {
      assert trace + [] == trace;
    }
  }

  lemma PrefixedTwice(trace: seq<Pulse>, pulse: Pulse, run: Option<Run>)
    ensures Prefixed(trace, Prefixed([pulse], run)) == Prefixed(trace + [pulse], run)
  {
    if run.Some? {
      assert trace + ([pulse] + run.value.trace) == (trace + [pulse]) + run.value.trace;
    }
  }

  /* ---------------------------------------------------------------------- */
  /* Pushing the button again and again                                     */

  /** `n` pushes in a row from `states`, one run each, every push starting
      from where the one before left the machine; `None` when one of them
      runs out of fuel. */
  function Pushes(states: map<string, ModuleState>, n: nat, fuel: nat): (r: Option<seq<Run>>)
    ensures r.Some? ==> |r.value| == n
  {
    if n == 0 then Some([])
    else
      match Pushes(states, n - 1, fuel)
      case None => None
      case Some(runs) =>
        match Propagate(After(states, runs), [ButtonPulse], fuel)
        case None => None
        case Some(run) => Some(runs + [run])
  }

  /** Where a series of pushes left the machine. */
  function After(states: map<string, ModuleState>, runs: seq<Run>): map<string, ModuleState>
  {
    if runs == [] then states else runs[|runs| - 1].states
  }

  /** The counts of each push. */
  function Tallies(runs: seq<Run>): (r: seq<PulseCounter>)
    ensures |r| == |runs|
  {
    seq(|runs|, i requires 0 <= i < |runs| => Tally(runs[i].trace))
  }

  lemma TalliesSnoc(runs: seq<Run>, run: Run)
    ensures Tallies(runs + [run]) == Tallies(runs) + [Tally(run.trace)]
  {
    assert forall i :: 0 <= i < |runs| ==> (runs + [run])[i] == runs[i];
  }

  /** Pushes that go on from where earlier ones stopped are the earlier
      ones and then some. */
  lemma {:induction false} PushesPrefix(states: map<string, ModuleState>, m: nat, n: nat, fuel: nat)
    requires m <= n && Pushes(states, n, fuel).Some?
    ensures Pushes(states, m, fuel).Some? && Pushes(states, m, fuel).value == Pushes(states, n, fuel).value[..m]
    decreases n - m
  {
    if m < n {
      PushesPrefix(states, m, n - 1, fuel);
      var runs := Pushes(states, n - 1, fuel).value;
      assert Pushes(states, n, fuel).value[..n - 1] == runs;
      assert runs[..m] == Pushes(states, n, fuel).value[..m];
    } else {
      assert Pushes(states, n, fuel).value[..n] == Pushes(states, n, fuel).value;
    }
  }

  /** `flipFlops.some(module => module.enabled)`. */
  predicate AnyEnabled(states: map<string, ModuleState>)
  {
    exists n :: n in states && states[n].FlipFlopState? && states[n].enabled
  }

  /** After every push but the last, some flip-flop was on and fewer than
      `maxSteps` pushes had been made: the pushing went on. */
  predicate KeptPushing(runs: seq<Run>, maxSteps: int)
  {
    forall i :: 0 <= i < |runs| - 1 ==> AnyEnabled(runs[i].states) && i + 1 < maxSteps
  }

  lemma KeptPushingStep(before: seq<Run>, run: Run, maxSteps: int)
    requires |before| >= 1 && KeptPushing(before, maxSteps)
    requires AnyEnabled(before[|before| - 1].states) && |before| < maxSteps
    ensures KeptPushing(before + [run], maxSteps)
  {
    assert forall i :: 0 <= i < |before| ==> (before + [run])[i] == before[i];
  }

  /** `n` pushes from `initial` are the ones `findCycle` makes: each of them
      finishes, the loop went on while some flip-flop was on and fewer than
      `maxSteps` pushes were made, and it stops after the `n`-th. */
  ghost predicate CyclePushes(initial: map<string, ModuleState>, n: nat, maxSteps: int, fuel: nat)
  {
    && 1 <= n <= Max(1, maxSteps)
    && Pushes(initial, n, fuel).Some?
    && KeptPushing(Pushes(initial, n, fuel).value, maxSteps)
    && (AnyEnabled(After(initial, Pushes(initial, n, fuel).value)) ==> n >= maxSteps)
  }

  /** Fewer pushes than those `findCycle` makes do not meet its stop rule:
      after each of them a flip-flop was still on, below `maxSteps`. */
  lemma StopsAtFirst(initial: map<string, ModuleState>, m: nat, n: nat, maxSteps: int, fuel: nat)
    requires 1 <= m < n && CyclePushes(initial, n, maxSteps, fuel)
    ensures !CyclePushes(initial, m, maxSteps, fuel)
  {
    PushesPrefix(initial, m, n, fuel);
    var runs := Pushes(initial, n, fuel).value;
    assert runs[..m][m - 1] == runs[m - 1];
  }

  /** The stop rule of `findCycle` leaves no choice: a single number of
      pushes meets it. */
  lemma CyclePushesUnique(initial: map<string, ModuleState>, n1: nat, n2: nat, maxSteps: int, fuel: nat)
    ensures CyclePushes(initial, n1, maxSteps, fuel) && CyclePushes(initial, n2, maxSteps, fuel) ==> n1 == n2
  {
    if 1 <= n1 < n2 && CyclePushes(initial, n2, maxSteps, fuel) {
      StopsAtFirst(initial, n1, n2, maxSteps, fuel);
    } else if 1 <= n2 < n1 && CyclePushes(initial, n1, maxSteps, fuel) {
      StopsAtFirst(initial, n2, n1, maxSteps, fuel);
    }
  }

  /** One more push of a series: the pushes, their counts and the state
      reached all grow by the new one. */
  method PushAgain(modules: Modules, fuel: nat, ghost start: map<string, ModuleState>, ghost runs: seq<Run>, steps: seq<PulseCounter>)
    returns (more: seq<PulseCounter>, ghost extended: seq<Run>, trace: seq<Pulse>, done: bool)
    requires Distinct(modules) && Pushes(start, |runs|, fuel) == Some(runs)
    requires States(modules) == After(start, runs) && steps == Tallies(runs)
    modifies Objects(modules)
    ensures done <==> Pushes(start, |runs| + 1, fuel).Some?
    ensures done ==> Pushes(start, |runs| + 1, fuel) == Some(extended) && extended == runs + [Run(States(modules), trace)]
    ensures done ==> States(modules) == After(start, extended) && more == Tallies(extended)
  {
    var pulseCount;
    pulseCount, trace, done := PushButton(modules, fuel);
    more := steps + [pulseCount];
    extended := runs + [Run(States(modules), trace)];
    TalliesSnoc(runs, Run(States(modules), trace));
  }

  /** `findCycle`: pushes the button, then again while some flip-flop is
      on and fewer than `maxSteps` pushes were made, and returns the count
      of every push. `complete` is false when a push ran out of fuel. */
  method FindCycle(modules: Modules, maxSteps: int, fuel: nat) returns (steps: seq<PulseCounter>, complete: bool)
    requires Distinct(modules)
    modifies Objects(modules)
    ensures complete ==> 1 <= |steps| <= Max(1, maxSteps) && Pushes(old(States(modules)), |steps|, fuel).Some?
    ensures complete ==> var runs := Pushes(old(States(modules)), |steps|, fuel).value;
      steps == Tallies(runs) && States(modules) == After(old(States(modules)), runs)
      && KeptPushing(runs, maxSteps)
      && (AnyEnabled(States(modules)) ==> |steps| >= maxSteps)
    ensures complete ==> CyclePushes(old(States(modules)), |steps|, maxSteps, fuel)
    ensures !complete ==> Pushes(old(States(modules)), |steps| + 1, fuel).None? && |steps| + 1 <= Max(1, maxSteps)
  {
    ghost var start := States(modules);
    ghost var runs: seq<Run> := [];
    steps := [];
    var trace;
    steps, runs, trace, complete := PushAgain(modules, fuel, start, runs, steps);
    if !complete {
      return [], false;
    }
    while AnyEnabled(States(modules)) && |steps| < maxSteps
      invariant 1 <= |steps| <= Max(1, maxSteps) && Pushes(start, |steps|, fuel) == Some(runs)
      invariant steps == Tallies(runs) && States(modules) == After(start, runs)
      invariant KeptPushing(runs, maxSteps)
      decreases maxSteps - |steps|
    {
      ghost var before := runs;
      var more;
      more, runs, trace, complete := PushAgain(modules, fuel, start, runs, steps);
      if !complete {
        return steps, false;
      }
      KeptPushingStep(before, Run(States(modules), trace), maxSteps);
      steps := more;
    }
  }

  /** `findSolution` of part 1 as written: 1000 pushes scored with
      `calculateScore`. */
  method FindSolution(configs: seq<Config>, fuel: nat) returns (score: Option<nat>)
    ensures score.Some? ==>
      exists n ::
        && CyclePushes(Registered(CreatedAll(configs)), n, 1000, fuel)
        && score.value == CalculateScore(Tallies(Pushes(Registered(CreatedAll(configs)), n, fuel).value), 1000)
    ensures score.None? ==> exists n :: 1 <= n <= 1000 && Pushes(Registered(CreatedAll(configs)), n, fuel).None?
  {
    var numberOfPushes := 1000;
    var modules := CreateModules(configs);
    var cycle, complete := FindCycle(modules, numberOfPushes, fuel);
    ghost var initial := Registered(CreatedAll(configs));
    if !complete {
      assert Pushes(initial, |cycle| + 1, fuel).None?;
      return None;
    }
    assert CyclePushes(initial, |cycle|, numberOfPushes, fuel) && cycle == Tallies(Pushes(initial, |cycle|, fuel).value);
    score := Some(CalculateScore(cycle, numberOfPushes));
  }

  /** `findSolution` of part 1 scored with the corrected
      `CalculateScoreIntended`: the highs times the lows of 1000 pushes of
      a machine that repeats the cycle found. */
  method FindSolutionIntended(configs: seq<Config>, fuel: nat) returns (score: Option<nat>)
    ensures score.Some? ==>
      exists n ::
        && CyclePushes(Registered(CreatedAll(configs)), n, 1000, fuel)
        && score.value == PushScore(Tallies(Pushes(Registered(CreatedAll(configs)), n, fuel).value), 1000)
    ensures score.None? ==> exists n :: 1 <= n <= 1000 && Pushes(Registered(CreatedAll(configs)), n, fuel).None?
  {
    var numberOfPushes := 1000;
    var modules := CreateModules(configs);
    var cycle, complete := FindCycle(modules, numberOfPushes, fuel);
    ghost var initial := Registered(CreatedAll(configs));
    if !complete {
      assert Pushes(initial, |cycle| + 1, fuel).None?;
      return None;
    }
    assert CyclePushes(initial, |cycle|, numberOfPushes, fuel) && cycle == Tallies(Pushes(initial, |cycle|, fuel).value);
    score := Some(CalculateScoreIntended(cycle, numberOfPushes));
  }

  /* ---------------------------------------------------------------------- */
  /* Part 2: when the watched conjunctions first send a high pulse          */

  /** The push at which each watched module first sent a high pulse;
      `None` (`null`) while it has not. */
  type Sources = map<string, Option<nat>>

  /** `{ cc: null, jq: null, nx: null, sp: null }`. */
  const Watched: Sources := map["cc" := None, "jq" := None, "nx" := None, "sp" := None]

  /** The part 2 `spy`: the first high pulse a watched module sends is
      recorded with the number of the push. */
  function Spy(sources: Sources, pulse: Pulse, numberOfPushes: nat): (r: Sources)
    ensures r.Keys == sources.Keys
  {
    if pulse.source !in sources then sources
    else if sources[pulse.source].Some? || pulse.pulseType == Low then sources
    else sources[pulse.source := Some(numberOfPushes)]
  }

  /** The spy shown every pulse of one push. */
  function SpyAll(sources: Sources, trace: seq<Pulse>, numberOfPushes: nat): (r: Sources)
    ensures r.Keys == sources.Keys
  {
    if trace == [] then sources
    else Spy(SpyAll(sources, trace[..|trace| - 1], numberOfPushes), trace[|trace| - 1], numberOfPushes)
  }

  /** The spy shown every push, the push numbers counting from 1. */
  function SpyPushes(sources: Sources, runs: seq<Run>): (r: Sources)
    ensures r.Keys == sources.Keys
  {
    if runs == [] then sources
    else SpyAll(SpyPushes(sources, runs[..|runs| - 1]), runs[|runs| - 1].trace, |runs|)
  }

  /** Whether module `k` sent a high pulse in `trace`. */
  predicate SentHigh(trace: seq<Pulse>, k: string)
  {
    exists i :: 0 <= i < |trace| && trace[i].source == k && trace[i].pulseType == High
  }

  /** In one push, a watched module is recorded if it had been already or
      else sent a high pulse. */
  lemma {:induction false} SpyAllRecords(sources: Sources, trace: seq<Pulse>, numberOfPushes: nat, k: string)
    requires k in sources
    ensures SpyAll(sources, trace, numberOfPushes)[k] ==
      if sources[k].Some? then sources[k]
      else if SentHigh(trace, k) then Some(numberOfPushes)
      else None
  {
    if trace != [] {
      var init := trace[..|trace| - 1];
      SpyAllRecords(sources, init, numberOfPushes, k);
      assert forall j :: 0 <= j < |init| ==> init[j] == trace[j];
      if !SentHigh(init, k) && SentHigh(trace, k) {
        var i :| 0 <= i < |trace| && trace[i].source == k && trace[i].pulseType == High;
        assert i == |trace| - 1;
      }
    }
  }

  /** Over a series of pushes, an unrecorded watched module ends up with
      the number of the first push in which it sent a high pulse, and with
      none when it never did. */
  lemma {:induction false} SpyPushesRecordsFirst(sources: Sources, runs: seq<Run>, k: string)
    requires k in sources && sources[k].None?
    ensures SpyPushes(sources, runs)[k].None? <==> forall q :: 0 <= q < |runs| ==> !SentHigh(runs[q].trace, k)
    ensures forall p :: SpyPushes(sources, runs)[k] == Some(p) <==>
      1 <= p <= |runs| && SentHigh(runs[p - 1].trace, k) && forall q :: 0 <= q < p - 1 ==> !SentHigh(runs[q].trace, k)
  {
    if runs != [] {
      var init := runs[..|runs| - 1];
      SpyPushesRecordsFirst(sources, init, k);
      SpyAllRecords(SpyPushes(sources, init), runs[|runs| - 1].trace, |runs|, k);
      assert forall q :: 0 <= q < |init| ==> init[q] == runs[q];
    }
  }

  /** `Object.values(sources).some(value => value === null)`. */
  predicate Unresolved(sources: Sources)
  {
    exists k :: k in sources && sources[k].None?
  }

  /** After every push but the last, some watched module was still
      unrecorded: the predicate kept the pushing going. */
  ghost predicate KeptRecording(watched: Sources, runs: seq<Run>)
  {
    forall i :: 1 <= i < |runs| ==> Unresolved(SpyFirst(watched, runs, i))
  }

  /** The sources after the first `i` pushes. */
  function SpyFirst(watched: Sources, runs: seq<Run>, i: int): Sources
    requires 0 <= i <= |runs|
  {
    SpyPushes(watched, runs[..i])
  }

  lemma KeptRecordingStep(watched: Sources, before: seq<Run>, run: Run)
    requires KeptRecording(watched, before)
    requires |before| >= 1 ==> Unresolved(SpyPushes(watched, before))
    ensures KeptRecording(watched, before + [run])
    ensures SpyPushes(watched, before + [run]) == SpyAll(SpyPushes(watched, before), run.trace, |before| + 1)
  {
    var runs := before + [run];
    assert runs[..|before|] == before;
    forall i | 1 <= i < |runs|
      ensures Unresolved(SpyFirst(watched, runs, i))
    {
      assert runs[..i] == before[..i];
      assert SpyFirst(watched, runs, i) == SpyPushes(watched, before[..i]);
      if i == |before| {
        assert before[..i] == before;
      } else {
        assert SpyFirst(watched, before, i) == SpyPushes(watched, before[..i]);
      }
    }
  }

  /** One push of `recordPulseCounts`, its pulses shown to the spy with the
      number of the push. */
  method RecordOnce(modules: Modules, fuel: nat, ghost start: map<string, ModuleState>, watched: Sources,
                    ghost runs: seq<Run>, steps: seq<PulseCounter>, sources: Sources)
    returns (more: seq<PulseCounter>, ghost extended: seq<Run>, recorded: Sources, done: bool)
    requires Distinct(modules) && Pushes(start, |runs|, fuel) == Some(runs)
    requires States(modules) == After(start, runs) && steps == Tallies(runs)
    requires sources == SpyPushes(watched, runs) && KeptRecording(watched, runs)
    requires |runs| >= 1 ==> Unresolved(sources)
    modifies Objects(modules)
    ensures done <==> Pushes(start, |runs| + 1, fuel).Some?
    ensures done ==> Pushes(start, |runs| + 1, fuel) == Some(extended)
    ensures done ==> States(modules) == After(start, extended) && more == Tallies(extended)
    ensures done ==> recorded == SpyPushes(watched, extended) && KeptRecording(watched, extended)
  {
    var trace;
    more, extended, trace, done := PushAgain(modules, fuel, start, runs, steps);
    recorded := sources;
    if done {
      ghost var run := Run(States(modules), trace);
      RecordStep(watched, runs, run, steps, sources);
      recorded := SpyAll(sources, trace, |steps| + 1);
    }
  }

  /** The spy's record after one more push: the pulses of that push shown to
      it with the push's number. */
  lemma RecordStep(watched: Sources, runs: seq<Run>, run: Run, steps: seq<PulseCounter>, sources: Sources)
    requires steps == Tallies(runs) && sources == SpyPushes(watched, runs) && KeptRecording(watched, runs)
    requires |runs| >= 1 ==> Unresolved(sources)
    ensures KeptRecording(watched, runs + [run])
    ensures SpyPushes(watched, runs + [run]) == SpyAll(sources, run.trace, |steps| + 1)
  {
    KeptRecordingStep(watched, runs, run);
  }

  /** `recordPulseCounts` with the part 2 spy and predicate: pushes the
      button, showing the spy every pulse, until every watched module is
      recorded. `pushLimit` bounds the pushes; `complete` is true when the
      predicate stopped the pushing. */
  method RecordPulseCounts(modules: Modules, watched: Sources, pushLimit: nat, fuel: nat)
    returns (steps: seq<PulseCounter>, sources: Sources, complete: bool)
    requires Distinct(modules)
    modifies Objects(modules)
    ensures complete ==> |steps| >= 1 && Pushes(old(States(modules)), |steps|, fuel).Some?
    ensures complete ==> var runs := Pushes(old(States(modules)), |steps|, fuel).value;
      steps == Tallies(runs) && sources == SpyPushes(watched, runs) && !Unresolved(sources)
      && KeptRecording(watched, runs)
  {
    ghost var start := States(modules);
    ghost var runs: seq<Run>;
    var done;
    steps, runs, sources, done := RecordOnce(modules, fuel, start, watched, [], [], watched);
    if !done {
      return [], watched, false;
    }
    while Unresolved(sources)
      invariant Pushes(start, |steps|, fuel) == Some(runs)
      invariant States(modules) == After(start, runs) && steps == Tallies(runs)
      invariant sources == SpyPushes(watched, runs) && KeptRecording(watched, runs)
      invariant |runs| >= 1
      decreases pushLimit - |steps|
    {
      if |steps| >= pushLimit {
        return steps, sources, false;
      }
      var more, recorded;
      more, runs, recorded, done := RecordOnce(modules, fuel, start, watched, runs, steps, sources);
      if !done {
        return steps, sources, false;
      }
      steps, sources := more, recorded;
    }
    complete := true;
  }

  /** `findSolution` of part 2: the least common multiple, as
      `calculateLeastCommonMultiple` works it out, of the first push at
      which each of `cc`, `jq`, `nx` and `sp` sent a high pulse; `None`
      when `pushLimit` pushes did not find them all. */
  method FindSolutionPartTwo(configs: seq<Config>, pushLimit: nat, fuel: nat) returns (answer: Option<int>)
    ensures answer.Some? ==> exists n, cc, jq, nx, sp ::
      Pushes(Registered(CreatedAll(configs)), n, fuel).Some?
      && SpyPushes(Watched, Pushes(Registered(CreatedAll(configs)), n, fuel).value)
         == map["cc" := Some(cc), "jq" := Some(jq), "nx" := Some(nx), "sp" := Some(sp)]
      && answer.value == Lcm.LcmAsWritten([cc, jq, nx, sp])
  {
    var modules := CreateModules(configs);
    var steps, sources, complete := RecordPulseCounts(modules, Watched, pushLimit, fuel);
    if !complete {
      return None;
    }
    assert sources.Keys == Watched.Keys;
    assert sources["cc"].Some? && sources["jq"].Some? && sources["nx"].Some? && sources["sp"].Some?;
    var values: seq<int> := [sources["cc"].value, sources["jq"].value, sources["nx"].value, sources["sp"].value];
    assert sources == map["cc" := Some(values[0]), "jq" := Some(values[1]), "nx" := Some(values[2]), "sp" := Some(values[3])];
    var lcm := Lcm.CalculateLeastCommonMultipleAsWritten(values);
    answer := Some(lcm);
  }
}
