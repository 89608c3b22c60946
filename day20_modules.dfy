/** Day 20, `src/20/modules.ts` and its older copy `src/20/helper.ts`: the
    modules of a machine that passes high and low pulses. A broadcaster
    passes every pulse on as a low one; a flip-flop ignores high pulses and
    toggles on a low one, sending high when it turns on and low when it
    turns off; a conjunction remembers the last pulse from each of its
    inputs and sends low only when all of them were high. The copy in
    `helper.ts` differs only in not keeping the conjunction's last pulse in
    a field, which nothing there reads. */
module PulseModules {
  import opened Common

  /** `PulseType`. */
  datatype PulseType = High | Low

  /** `Pulse`: one pulse of `pulseType` from `source` to each of
      `destinations`. */
  datatype Pulse = Pulse(destinations: seq<string>, source: string, pulseType: PulseType)

  /** What a module is and remembers, as a value. */
  datatype ModuleState =
    | BroadCasterState(destinations: seq<string>, name: string)
    | FlipFlopState(destinations: seq<string>, name: string, enabled: bool)
    | ConjunctionState(destinations: seq<string>, name: string, inputs: map<string, PulseType>, pulseToSend: PulseType)

  /** The name every broadcaster gets. */
  const BroadcasterName := "broadcaster"

  /** `Array.from(inputs.values()).some(pulse => pulse === 'low')`. */
  predicate AnyLow(inputs: map<string, PulseType>)
  {
    exists k :: k in inputs && inputs[k] == Low
  }

  /** `processPulse` of each kind of module, on its state: the state after
      and the pulse sent, if any. */
  function Process(m: ModuleState, pulse: PulseType, input: string): (r: (ModuleState, Option<Pulse>))
    ensures r.0.destinations == m.destinations && r.0.name == m.name
    ensures m.BroadCasterState? ==> r == (m, Some(Pulse(m.destinations, m.name, Low)))
    ensures m.FlipFlopState? && pulse == High ==> r == (m, None)
    ensures m.FlipFlopState? && pulse == Low ==>
              r.0.FlipFlopState? && r.0.enabled == !m.enabled
              && r.1 == Some(Pulse(m.destinations, m.name, if r.0.enabled then High else Low))
    ensures m.ConjunctionState? ==>
              r.0.ConjunctionState? && r.0.inputs == m.inputs[input := pulse]
              && r.1 == Some(Pulse(m.destinations, m.name, r.0.pulseToSend))
              && (r.0.pulseToSend == Low <==> forall k :: k in r.0.inputs ==> r.0.inputs[k] == High)
  {
    match m
    case BroadCasterState(destinations, name) =>
      (m, Some(Pulse(destinations, name, Low)))
    case FlipFlopState(destinations, name, enabled) =>
      if pulse == High then (m, None)
      else (m.(enabled := !enabled), Some(Pulse(destinations, name, if !enabled then High else Low)))
    case ConjunctionState(destinations, name, inputs, _) =>
      var remembered := inputs[input := pulse];
      var pulseToSend := if AnyLow(remembered) then High else Low;
      (m.(inputs := remembered, pulseToSend := pulseToSend), Some(Pulse(destinations, name, pulseToSend)))
  }

  /** Two low pulses turn a flip-flop on and off again: the first sends high
      and the second low when it started off, and the other way round when
      it started on. */
  lemma FlipFlopTwoLows(m: ModuleState, a: string, b: string)
    requires m.FlipFlopState?
    ensures var (m1, p1) := Process(m, Low, a);
            var (m2, p2) := Process(m1, Low, b);
            m2 == m && p1.Some? && p2.Some?
            && p1.value.pulseType == (if m.enabled then Low else High)
            && p2.value.pulseType == (if m.enabled then High else Low)
  {
  }

  /** A conjunction that has heard low from an input sends high until that
      input sends high again. */
  lemma ConjunctionRemembersLow(m: ModuleState, lowInput: string, pulse: PulseType, input: string)
    requires m.ConjunctionState? && lowInput in m.inputs && m.inputs[lowInput] == Low
    requires input != lowInput
    ensures var (m1, p) := Process(m, pulse, input);
            p == Some(Pulse(m.destinations, m.name, High)) && m1.inputs[lowInput] == Low
  {
    assert Process(m, pulse, input).0.inputs[lowInput] == Low;
  }

  /* ---------------------------------------------------------------------- */
  /* The modules                                                            */

  /** `BroadCaster`. */
  class BroadCaster {
    const destinations: seq<string>
    const name: string

    constructor(destinations: seq<string>)
      ensures this.destinations == destinations && name == BroadcasterName
    {
      this.destinations := destinations;
      name := BroadcasterName;
    }

    function State(): ModuleState
    {
      BroadCasterState(destinations, name)
    }

    /** `processPulse`: a low pulse to every destination, whatever came in. */
    method ProcessPulse() returns (r: Pulse)
      ensures forall pulse, input :: Process(State(), pulse, input) == (State(), Some(r))
    {
      r := Pulse(destinations, name, Low);
    }
  }

  /** `FlipFlop`. */
  class FlipFlop {
    const destinations: seq<string>
    const name: string
    var enabled: bool

    constructor(destinations: seq<string>, name: string)
      ensures this.destinations == destinations && this.name == name && !enabled
    {
      this.destinations := destinations;
      this.name := name;
      enabled := false;
    }

    function State(): ModuleState
      reads this
    {
      FlipFlopState(destinations, name, enabled)
    }

    /** `processPulse`: nothing on a high pulse; on a low one the flip-flop
        toggles and sends high exactly when it is now on. */
    method ProcessPulse(pulse: PulseType) returns (r: Option<Pulse>)
      modifies this
      ensures forall input :: (State(), r) == Process(old(State()), pulse, input)
    {
      if pulse == High {
        return None;
      }
      enabled := !enabled;
      r := Some(Pulse(destinations, name, if enabled then High else Low));
    }
  }

  /** `Conjunction`. */
  class Conjunction {
    const destinations: seq<string>
    const name: string
    var pulseToSend: PulseType
    var inputs: map<string, PulseType>

    constructor(destinations: seq<string>, name: string)
      ensures this.destinations == destinations && this.name == name
      ensures pulseToSend == High && inputs == map[]
    {
      this.destinations := destinations;
      this.name := name;
      pulseToSend := High;
      inputs := map[];
    }

    function State(): ModuleState
      reads this
    {
      ConjunctionState(destinations, name, inputs, pulseToSend)
    }

    /** `processPulse`: the pulse is remembered for its input, then low is
        sent when every remembered input is high, and high otherwise. */
    method ProcessPulse(pulse: PulseType, input: string) returns (r: Pulse)
      modifies this
      ensures (State(), Some(r)) == Process(old(State()), pulse, input)
    {
      inputs := inputs[input := pulse];
      pulseToSend := if exists k :: k in inputs && inputs[k] == Low then High else Low;
      r := Pulse(destinations, name, pulseToSend);
    }

    /** `registerInput`: the input is remembered as having sent low. */
    method RegisterInput(input: string)
      modifies this
      ensures inputs == old(inputs)[input := Low] && pulseToSend == old(pulseToSend)
    {
      inputs := inputs[input := Low];
    }
  }

  /** One entry of `Modules`: a module of one of the three kinds. */
  datatype ModuleRef = Broad(b: BroadCaster) | Flip(f: FlipFlop) | Conj(c: Conjunction)
  {
    function Obj(): object
    {
      match this
      case Broad(b) => b
      case Flip(f) => f
      case Conj(c) => c
    }

    function State(): ModuleState
      reads Obj()
    {
      match this
      case Broad(b) => b.State()
      case Flip(f) => f.State()
      case Conj(c) => c.State()
    }
  }

  /** `module.processPulse(pulse.type, pulse.source)` on a module of any
      kind. */
  method ProcessModule(m: ModuleRef, pulse: PulseType, input: string) returns (r: Option<Pulse>)
    modifies m.Obj()
    ensures (m.State(), r) == Process(old(m.State()), pulse, input)
  {
    match m
    case Broad(b) =>
      var p := b.ProcessPulse();
      r := Some(p);
    case Flip(f) =>
      r := f.ProcessPulse(pulse);
    case Conj(c) =>
      var p := c.ProcessPulse(pulse, input);
      r := Some(p);
  }

  /* ---------------------------------------------------------------------- */
  /* Modules                                                                */

  /** `Modules`: the modules by name. */
  type Modules = map<string, ModuleRef>

  function Objects(modules: Modules): set<object>
  {
    set n | n in modules :: modules[n].Obj()
  }

  /** Different names hold different modules. */
  ghost predicate Distinct(modules: Modules)
  {
    forall a, b :: a in modules && b in modules && a != b ==> modules[a].Obj() != modules[b].Obj()
  }

  /** What every module of the machine remembers. */
  function States(modules: Modules): map<string, ModuleState>
    reads Objects(modules)
  {
    map n | n in modules :: modules[n].State()
  }

  /** `modules[destination]?.processPulse(pulse.type, pulse.source)`: a
      destination without a module sends nothing and changes nothing; the
      module of one that has one takes the pulse, and no other module
      changes. */
  method Deliver(modules: Modules, destination: string, pulse: PulseType, input: string) returns (r: Option<Pulse>)
    requires Distinct(modules)
    modifies Objects(modules)
    ensures States(modules) == Delivered(old(States(modules)), destination, pulse, input).0
    ensures r == Delivered(old(States(modules)), destination, pulse, input).1
  {
    if destination !in modules {
      return None;
    }
    var m := modules[destination];
    r := ProcessModule(m, pulse, input);
    forall n | n in modules && n != destination
      ensures modules[n].State() == old(modules[n].State())
    {
      assert modules[n].Obj() != m.Obj();
    }
  }

  /** `Deliver` on the states. */
  function Delivered(states: map<string, ModuleState>, destination: string, pulse: PulseType, input: string)
    : (r: (map<string, ModuleState>, Option<Pulse>))
    ensures r.0.Keys == states.Keys
    ensures destination !in states ==> r == (states, None)
    ensures forall n :: n in states && n != destination ==> r.0[n] == states[n]
  {
    if destination in states then
      var (m, p) := Process(states[destination], pulse, input);
      (states[destination := m], p)
    else (states, None)
  }

  /* ---------------------------------------------------------------------- */
  /* createModule, createModules                                            */

  /** One line of the configuration, split at ` -> ` and `, `. */
  datatype Config = Config(name: string, destinations: seq<string>)

  /** `createModule` on the states: `%` makes a flip-flop and `&` a
      conjunction, named without that first character; anything else is the
      broadcaster. */
  function Created(config: Config): (m: ModuleState)
    ensures m.destinations == config.destinations
    ensures |config.name| > 0 && config.name[0] == '%' <==> m.FlipFlopState?
    ensures |config.name| > 0 && config.name[0] == '&' <==> m.ConjunctionState?
    ensures !m.BroadCasterState? ==> m.name == config.name[1..]
    ensures m.BroadCasterState? ==> m.name == BroadcasterName
    ensures m.FlipFlopState? ==> !m.enabled
    ensures m.ConjunctionState? ==> m.inputs == map[] && m.pulseToSend == High
  {
    var cleanName := if |config.name| > 0 then config.name[1..] else "";
    if |config.name| > 0 && config.name[0] == '%' then FlipFlopState(config.destinations, cleanName, false)
    else if |config.name| > 0 && config.name[0] == '&' then ConjunctionState(config.destinations, cleanName, map[], High)
    else BroadCasterState(config.destinations, BroadcasterName)
  }

  /** `createModule`. */
  method CreateModule(config: Config) returns (m: ModuleRef)
    ensures fresh(m.Obj()) && m.State() == Created(config)
  {
    var cleanName := if |config.name| > 0 then config.name[1..] else "";
    if |config.name| > 0 && config.name[0] == '%' {
      var f := new FlipFlop(config.destinations, cleanName);
      m := Flip(f);
    } else if |config.name| > 0 && config.name[0] == '&' {
      var c := new Conjunction(config.destinations, cleanName);
      m := Conj(c);
    } else {
      var b := new BroadCaster(config.destinations);
      m := Broad(b);
    }
  }

  /** The modules of the first lines, each stored under its name, a later
      line replacing an earlier one of the same name. */
  function CreatedAll(configs: seq<Config>): map<string, ModuleState>
  {
    if configs == [] then map[]
    else
      var m := Created(configs[|configs| - 1]);
      CreatedAll(configs[..|configs| - 1])[m.name := m]
  }

  /** The names of the modules of the lines. */
  function Names(configs: seq<Config>): set<string>
  {
    set i | 0 <= i < |configs| :: Created(configs[i]).name
  }

  /** One more line adds its module's name. */
  lemma NamesStep(configs: seq<Config>, i: int)
    requires 0 <= i < |configs|
    ensures Names(configs[..i + 1]) == Names(configs[..i]) + {Created(configs[i]).name}
  {
    var longer, shorter := configs[..i + 1], configs[..i];
    assert forall k :: 0 <= k < i ==> longer[k] == shorter[k];
    assert longer[i] == configs[i];
  }

  /** What `createModules` stores before registering: every module under
      its own name, no conjunction with an input yet. */
  ghost predicate AsCreated(states: map<string, ModuleState>)
  {
    && (forall n :: n in states ==> states[n].name == n)
    && (forall n :: n in states && states[n].ConjunctionState? ==> states[n].inputs == map[])
  }

  /** Every module is stored under its own name, and the names are those of
      the lines; no conjunction has an input yet. */
  lemma {:induction false} CreatedAllNames(configs: seq<Config>)
    ensures AsCreated(CreatedAll(configs))
    ensures CreatedAll(configs).Keys == Names(configs)
  {
    if configs != [] {
      var init := configs[..|configs| - 1];
      CreatedAllNames(init);
      NamesStep(configs, |configs| - 1);
      assert configs[..|configs|] == configs;
    }
  }

  /** The sources among `done` that list `n` as a destination, each
      remembered as low. */
  function InputsFrom(states: map<string, ModuleState>, n: string, done: set<string>): map<string, PulseType>
  {
    map source | source in done && source in states && n in states[source].destinations :: Low
  }

  /** The states once every module of `done` has been registered as an input
      of the conjunctions among its destinations, and `source` of those among
      `destinations`. */
  function RegisteredPartly(states: map<string, ModuleState>, done: set<string>, source: string, destinations: seq<string>)
    : (r: map<string, ModuleState>)
    ensures r.Keys == states.Keys
  {
    map n | n in states ::
      if states[n].ConjunctionState? then
        states[n].(inputs := InputsFrom(states, n, done) + (if n in destinations then map[source := Low] else map[]))
      else states[n]
  }

  /** The states once every module of `done` has been registered. */
  function RegisteredBy(states: map<string, ModuleState>, done: set<string>): (r: map<string, ModuleState>)
    ensures r.Keys == states.Keys
  {
    RegisteredPartly(states, done, "", [])
  }

  /** The states `createModules` returns: every conjunction remembers, as
      low, each module that lists it as a destination. */
  function Registered(states: map<string, ModuleState>): (r: map<string, ModuleState>)
    ensures r.Keys == states.Keys
    ensures forall n :: n in r && states[n].ConjunctionState? ==>
              r[n].ConjunctionState? && r[n].pulseToSend == states[n].pulseToSend
              && (forall source :: source in r[n].inputs <==> source in states && n in states[source].destinations)
              && (forall source :: source in r[n].inputs ==> r[n].inputs[source] == Low)
    ensures forall n :: n in r && !states[n].ConjunctionState? ==> r[n] == states[n]
  {
    RegisteredBy(states, states.Keys)
  }

  /** The conjunction `d` with `name` added to its inputs, as low. */
  function WithInput(states: map<string, ModuleState>, d: string, name: string): (r: map<string, ModuleState>)
    requires d in states && states[d].ConjunctionState?
  {
    states[d := states[d].(inputs := states[d].inputs[name := Low])]
  }

  /** `registerInput` reached through the modules: conjunction `d` takes
      `name` as an input and no other module changes. */
  method RegisterAt(modules: Modules, d: string, name: string)
    requires Distinct(modules) && d in modules && modules[d].Conj?
    modifies modules[d].c
    ensures States(modules) == WithInput(old(States(modules)), d, name)
  {
    modules[d].c.RegisterInput(name);
    forall n | n in modules && n != d
      ensures modules[n].State() == old(modules[n].State())
    {
      assert modules[n].Obj() != modules[d].Obj();
    }
  }

  /** A conjunction the current source lists is registered; one it does
      not list is left as it was. */
  lemma RegisterStep(states: map<string, ModuleState>, done: set<string>, source: string, destinations: seq<string>, d: string)
    requires d in states && states[d].ConjunctionState?
    ensures RegisteredPartly(states, done, source, destinations + [d])
         == WithInput(RegisteredPartly(states, done, source, destinations), d, source)
  {
    var a := RegisteredPartly(states, done, source, destinations + [d]);
    var c := WithInput(RegisteredPartly(states, done, source, destinations), d, source);
    forall n | n in states
      ensures a[n] == c[n]
    {
      if n == d {
        var base := InputsFrom(states, d, done);
        var extra: map<string, PulseType> := if d in destinations then map[source := Low] else map[];
        assert (base + extra)[source := Low] == base + map[source := Low];
      } else if states[n].ConjunctionState? {
        assert n in destinations + [d] <==> n in destinations;
      }
    }
  }

  /** `createModules`: a module per line under its name, a later line
      replacing an earlier one; then each module is registered as an input
      of every conjunction among its destinations. */
  method CreateModules(configs: seq<Config>) returns (modules: Modules)
    ensures Distinct(modules) && fresh(Objects(modules))
    ensures States(modules) == Registered(CreatedAll(configs))
  {
    modules := CreateEach(configs);
    RegisterEach(modules, configs);
  }

  /** The first loop of `createModules`. */
  method CreateEach(configs: seq<Config>) returns (modules: Modules)
    ensures Distinct(modules) && fresh(Objects(modules))
    ensures States(modules) == CreatedAll(configs)
  {
    modules := map[];
    for i := 0 to |configs|
      invariant Distinct(modules) && fresh(Objects(modules))
      invariant States(modules) == CreatedAll(configs[..i])
    {
      ghost var before := States(modules);
      var m := CreateModule(configs[i]);
      assert States(modules) == before;
      assert configs[..i + 1][..i] == configs[..i];
      assert m.Obj() !in Objects(modules);
      ghost var previous := modules;
      StatesUpdate(modules, m.State().name, m);
      modules := modules[m.State().name := m];
      assert Objects(modules) <= Objects(previous) + {m.Obj()};
    }
    assert configs[..|configs|] == configs;
  }

  /** Storing a module under a name changes the states at that name only. */
  lemma StatesUpdate(modules: Modules, k: string, m: ModuleRef)
    ensures States(modules[k := m]) == States(modules)[k := m.State()]
  {
  }

  /** The second loop of `createModules`, over the modules in the order of
      their lines. */
  method RegisterEach(modules: Modules, configs: seq<Config>)
    requires Distinct(modules) && States(modules) == CreatedAll(configs)
    modifies Objects(modules)
    ensures States(modules) == Registered(CreatedAll(configs))
  {
    ghost var states := CreatedAll(configs);
    CreatedAllNames(configs);
    RegisteredByNone(states);
    assert Names(configs[..0]) == {};
    for i := 0 to |configs|
      invariant States(modules) == RegisteredBy(states, Names(configs[..i]))
    {
      var source := Created(configs[i]).name;
      NamesStep(configs, i);
      NamesStep(configs[..|configs|], i);
      RegisterSource(modules, states, Names(configs[..i]), source);
    }
    assert configs[..|configs|] == configs;
  }

  /** Before any module is registered the states are as created. */
  lemma RegisteredByNone(states: map<string, ModuleState>)
    requires AsCreated(states)
    ensures RegisteredBy(states, {}) == states
  {
    var r := RegisteredBy(states, {});
    forall n | n in states
      ensures r[n] == states[n]
    {
      if states[n].ConjunctionState? {
        assert InputsFrom(states, n, {}) == map[];
      }
    }
  }

  /** The body `createModules` runs for one module: it is registered as an
      input of each conjunction among its destinations. */
  method RegisterSource(modules: Modules, ghost states: map<string, ModuleState>, ghost done: set<string>, source: string)
    requires Distinct(modules) && modules.Keys == states.Keys && source in states
    requires AsCreated(states)
    requires States(modules) == RegisteredBy(states, done)
    modifies Objects(modules)
    ensures States(modules) == RegisteredBy(states, done + {source})
  {
    var entry := modules[source];
    var name := entry.State().name;
    var destinations := entry.State().destinations;
    assert name == source && destinations == states[source].destinations;
    assert RegisteredPartly(states, done, source, []) == RegisteredBy(states, done);
    for j := 0 to |destinations|
      invariant States(modules) == RegisteredPartly(states, done, source, destinations[..j])
    {
      var d := destinations[j];
      assert destinations[..j + 1] == destinations[..j] + [d];
      if d in modules && modules[d].Conj? {
        RegisterAt(modules, d, name);
        RegisterStep(states, done, source, destinations[..j], d);
      } else {
        NoRegisterStep(states, done, source, destinations[..j], d);
      }
    }
    assert destinations[..|destinations|] == destinations;
    RegisteredDone(states, done, source);
  }

  /** A destination that is no conjunction registers nothing. */
  lemma NoRegisterStep(states: map<string, ModuleState>, done: set<string>, source: string, destinations: seq<string>, d: string)
    requires d !in states || !states[d].ConjunctionState?
    ensures RegisteredPartly(states, done, source, destinations + [d]) == RegisteredPartly(states, done, source, destinations)
  {
    var a := RegisteredPartly(states, done, source, destinations + [d]);
    var b := RegisteredPartly(states, done, source, destinations);
    forall n | n in states
      ensures a[n] == b[n]
    {
      if states[n].ConjunctionState? {
        assert n in destinations + [d] <==> n in destinations;
      }
    }
  }

  /** Once all its destinations are done, the source is registered. */
  lemma RegisteredDone(states: map<string, ModuleState>, done: set<string>, source: string)
    requires source in states
    ensures RegisteredPartly(states, done, source, states[source].destinations) == RegisteredBy(states, done + {source})
  {
    var a := RegisteredPartly(states, done, source, states[source].destinations);
    var b := RegisteredBy(states, done + {source});
    forall n | n in states
      ensures a[n] == b[n]
    {
      if states[n].ConjunctionState? {
        InputsFromAdd(states, n, done, source);
      }
    }
  }

  /** Adding a source adds it to the inputs of each module it lists. */
  lemma InputsFromAdd(states: map<string, ModuleState>, n: string, done: set<string>, source: string)
    requires source in states
    ensures InputsFrom(states, n, done + {source})
         == InputsFrom(states, n, done) + (if n in states[source].destinations then map[source := Low] else map[])
  {
    var a := InputsFrom(states, n, done + {source});
    var b := InputsFrom(states, n, done) + (if n in states[source].destinations then map[source := Low] else map[]);
    assert a.Keys == b.Keys;
  }
}
