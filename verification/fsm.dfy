/** The finite-state dialogue flow: states with templates and scored
    transitions, built from an already-parsed configuration, and the turn
    step that scores the current state's transitions, fires at most one of
    them and reports the events it invoked, in order. */
module Fsm {
  import opened Basics
  import opened Models
  import opened Parser
  import opened Containers
  import opened Ranking
  import Condition
  import Facts

  // ---- configuration records (absent keys are `None`) ----

  datatype TransitionConfig = TransitionConfig(
    urgency: Option<real>, freedom: Option<real>, to: Option<string>, template: Option<string>,
    condition: Option<string>, onEnter: Option<string>, onExit: Option<string>)

  datatype StateConfig = StateConfig(
    urgency: Option<real>, freedom: Option<real>, template: Option<string>,
    transitions: Option<seq<TransitionConfig>>, onEnter: Option<string>, onExit: Option<string>)

  /** The state table in declaration order, and the optional initial state. */
  datatype MachineConfig = MachineConfig(states: Option<seq<(string, StateConfig)>>, initialState: Option<string>)

  // ---- the built machine ----

  datatype Transition = Transition(
    urgency: real, freedom: real, to: Option<string>, template: string, condition: Expr, onEnter: string)

  datatype State = State(
    name: string, urgency: real, freedom: real, template: string,
    transitions: seq<Transition>, onEnter: Option<string>, onExit: Option<string>)

  datatype Machine = Machine(states: map<string, State>, current: Option<string>, threshold: real, minDiff: real)

  const TransitionUrgency: real := 0.5
  const TransitionFreedom: real := 0.0
  const StateUrgency: real := 0.5
  const StateFreedom: real := 0.5

  /** `Transition.from_dict`. Missing urgency is 0.5 but missing freedom is
      0; the condition is compiled at once, so a missing one (compiled as
      the empty text) is a syntax error; the transition's `on_enter` event is
      read from the `on_exit` key, defaulting to the empty name. */
  function BuildTransition(cfg: TransitionConfig, o: Oracles, k: nat): (r: Result<Transition>)
    ensures r.Ok? <==> Compile(cfg.condition.GetOr(""), o, k).Ok?
    ensures r.Err? ==> r.error == Compile(cfg.condition.GetOr(""), o, k).error
    ensures r.Ok? ==> r.value.condition == Compile(cfg.condition.GetOr(""), o, k).value
    ensures r.Ok? ==> r.value.urgency == (if cfg.urgency.Some? then cfg.urgency.value else TransitionUrgency)
    ensures r.Ok? ==> r.value.freedom == (if cfg.freedom.Some? then cfg.freedom.value else TransitionFreedom)
    ensures r.Ok? ==> r.value.to == cfg.to
    ensures r.Ok? ==> r.value.template == (if cfg.template.Some? then cfg.template.value else "")
    ensures r.Ok? ==> r.value.onEnter == (if cfg.onExit.Some? then cfg.onExit.value else "")
  {
    var cond :- Compile(cfg.condition.GetOr(""), o, k);
    Ok(Transition(cfg.urgency.GetOr(TransitionUrgency), cfg.freedom.GetOr(TransitionFreedom), cfg.to,
                  cfg.template.GetOr(""), cond, cfg.onExit.GetOr("")))
  }

  /** The `on_enter` key of a transition is never read. */
  lemma OnEnterKeyIgnored(cfg: TransitionConfig, other: Option<string>, o: Oracles, k: nat)
    ensures BuildTransition(cfg.(onEnter := other), o, k) == BuildTransition(cfg, o, k)
    ensures cfg.onExit.None? && BuildTransition(cfg, o, k).Ok? ==> BuildTransition(cfg, o, k).value.onEnter == ""
  {
  }

  /** A transition without a condition cannot be loaded. */
  lemma MissingConditionRejected(cfg: TransitionConfig, o: Oracles, k: nat)
    requires cfg.condition.None?
    ensures BuildTransition(cfg, o, k) == Err(UnexpectedToken(None))
  {
    assert Lexer.Scan("", 0) == Ok([]);
    assert Lexer.Tokenize("") == Ok([]);
  }

  /** The transitions of a state, one per entry in list order; an entry
      that fails to compile aborts the load. */
  function BuildTransitions(cfgs: seq<TransitionConfig>, o: Oracles, k: nat): (r: Result<seq<Transition>>)
    ensures r.Ok? <==> forall i :: 0 <= i < |cfgs| ==> BuildTransition(cfgs[i], o, k).Ok?
    ensures r.Ok? ==> |r.value| == |cfgs| && forall i :: 0 <= i < |cfgs| ==> r.value[i] == BuildTransition(cfgs[i], o, k).value
    ensures r.Err? ==> exists i :: 0 <= i < |cfgs| && BuildTransition(cfgs[i], o, k).Err?
                                   && r.error == BuildTransition(cfgs[i], o, k).error
                                   && forall j :: 0 <= j < i ==> BuildTransition(cfgs[j], o, k).Ok?
  {
    Collect(cfgs, c => BuildTransition(c, o, k))
  }

  /** `State.from_dict`: the name is the argument, not a key of the entry;
      urgency and freedom default to 0.5, the template to the empty text,
      the transitions to none and both events to `None`. */
  function BuildState(name: string, cfg: StateConfig, o: Oracles, k: nat): (r: Result<State>)
    ensures r.Ok? <==> BuildTransitions(cfg.transitions.GetOr([]), o, k).Ok?
    ensures r.Ok? ==> r.value.name == name
    ensures r.Ok? ==> r.value.urgency == (if cfg.urgency.Some? then cfg.urgency.value else StateUrgency)
    ensures r.Ok? ==> r.value.freedom == (if cfg.freedom.Some? then cfg.freedom.value else StateFreedom)
    ensures r.Ok? ==> r.value.template == (if cfg.template.Some? then cfg.template.value else "")
    ensures r.Ok? ==> r.value.transitions == BuildTransitions(cfg.transitions.GetOr([]), o, k).value
    ensures r.Ok? && cfg.transitions.None? ==> r.value.transitions == []
    ensures r.Ok? ==> r.value.onEnter == cfg.onEnter && r.value.onExit == cfg.onExit
  {
    var ts :- BuildTransitions(cfg.transitions.GetOr([]), o, k);
    Ok(State(name, cfg.urgency.GetOr(StateUrgency), cfg.freedom.GetOr(StateFreedom), cfg.template.GetOr(""),
             ts, cfg.onEnter, cfg.onExit))
  }

  /** A dictionary from built states, keyed by their names; a later state
      with the same name replaces an earlier one. */
  function Table(states: seq<State>): (r: map<string, State>)
    ensures forall n :: n in r ==> r[n].name == n
    ensures forall i :: 0 <= i < |states| ==> states[i].name in r
    ensures forall n :: n in r ==> exists i :: 0 <= i < |states| && states[i].name == n && r[n] == states[i]
                                               && forall j :: i < j < |states| ==> states[j].name != n
    decreases |states|
  {
    if states == [] then map[]
    else
      var init := states[..|states| - 1];
      var last := states[|states| - 1];
      assert states == init + [last];
      TableAppend(init, last, Table(init));
      Table(init)[last.name := last]
  }

  /** Entering one more state into the table of the earlier ones. */
  lemma TableAppend(init: seq<State>, last: State, t: map<string, State>)
    requires forall n :: n in t ==> t[n].name == n
    requires forall i :: 0 <= i < |init| ==> init[i].name in t
    requires forall n :: n in t ==> exists i :: 0 <= i < |init| && init[i].name == n && t[n] == init[i]
                                                && forall j :: i < j < |init| ==> init[j].name != n
    ensures var r, states := t[last.name := last], init + [last];
      && (forall n :: n in r ==> r[n].name == n)
      && (forall i :: 0 <= i < |states| ==> states[i].name in r)
      && (forall n :: n in r ==> exists i :: 0 <= i < |states| && states[i].name == n && r[n] == states[i]
                                             && forall j :: i < j < |states| ==> states[j].name != n)
  {
    var r, states := t[last.name := last], init + [last];
    forall n | n in r
      ensures exists i :: 0 <= i < |states| && states[i].name == n && r[n] == states[i]
                          && forall j :: i < j < |states| ==> states[j].name != n
    {
      if n == last.name {
        assert states[|init|].name == n && r[n] == states[|init|];
      } else {
        var i :| 0 <= i < |init| && init[i].name == n && t[n] == init[i]
                 && forall j :: i < j < |init| ==> init[j].name != n;
        assert states[i].name == n && r[n] == states[i];
      }
    }
    assert forall i :: 0 <= i < |init| ==> states[i] == init[i];
  }

  /** The state table, `{name: State.from_dict(name, entry) ...}`: every
      entry is built, in order, and the first that fails aborts the load;
      each declared name then maps to a state of that name, and no other
      name is in the table. */
  function BuildStates(entries: seq<(string, StateConfig)>, o: Oracles, k: nat): (r: Result<map<string, State>>)
    ensures r.Ok? <==> forall i :: 0 <= i < |entries| ==> BuildState(entries[i].0, entries[i].1, o, k).Ok?
    ensures r.Ok? ==> forall i :: 0 <= i < |entries| ==> entries[i].0 in r.value
    ensures r.Ok? ==> forall n :: n in r.value ==>
                        r.value[n].name == n
                        && exists i :: 0 <= i < |entries| && entries[i].0 == n
                                       && r.value[n] == BuildState(entries[i].0, entries[i].1, o, k).value
                                       && forall j :: i < j < |entries| ==> entries[j].0 != n
  {
    var states :- Collect(entries, (e: (string, StateConfig)) => BuildState(e.0, e.1, o, k));
    TableOfBuilt(entries, states, o, k);
    Ok(Table(states))
  }

  /** The table of the built states, described entry by entry. */
  lemma TableOfBuilt(entries: seq<(string, StateConfig)>, states: seq<State>, o: Oracles, k: nat)
    requires |states| == |entries|
    requires forall i :: 0 <= i < |entries| ==>
               BuildState(entries[i].0, entries[i].1, o, k) == Ok(states[i])
    ensures forall i :: 0 <= i < |entries| ==> entries[i].0 in Table(states)
    ensures forall n :: n in Table(states) ==>
              exists i :: 0 <= i < |entries| && entries[i].0 == n && Table(states)[n] == states[i]
                          && forall j :: i < j < |entries| ==> entries[j].0 != n
  {
    assert forall i :: 0 <= i < |entries| ==> states[i].name == entries[i].0;
  }

  /** A name declared once maps to the state built from its own entry. */
  lemma DeclaredOnceLoadsItsEntry(entries: seq<(string, StateConfig)>, o: Oracles, k: nat, i: nat)
    requires BuildStates(entries, o, k).Ok? && i < |entries|
    requires forall j :: 0 <= j < |entries| && j != i ==> entries[j].0 != entries[i].0
    ensures BuildStates(entries, o, k).value[entries[i].0] == BuildState(entries[i].0, entries[i].1, o, k).value
  {
    var t := BuildStates(entries, o, k).value;
    var n := entries[i].0;
    var i' :| 0 <= i' < |entries| && entries[i'].0 == n && t[n] == BuildState(entries[i'].0, entries[i'].1, o, k).value
              && forall j :: i' < j < |entries| ==> entries[j].0 != n;
    assert i' == i;
  }

  /** `FSMDialogueFlowModule.__init__`: the table must exist; all states
      are built; the first declared name is looked up even when an initial
      state is configured, so an empty table stops the load; the machine
      starts in `initial_state` when given and in the first declared state
      otherwise. */
  function BuildMachine(cfg: MachineConfig, o: Oracles, k: nat, threshold: real, minDiff: real): (r: Result<Machine>)
    ensures cfg.states.None? ==> r == Err(KeyError("states"))
    ensures cfg.states.Some? && cfg.states.value == [] ==> r == Err(NoStates)
    ensures r.Ok? ==> cfg.states.Some? && |cfg.states.value| > 0
    ensures r.Ok? ==> r.value.current == Some(if cfg.initialState.Some? then cfg.initialState.value else cfg.states.value[0].0)
    ensures r.Ok? ==> r.value.threshold == threshold && r.value.minDiff == minDiff
    ensures r.Ok? ==> forall i :: 0 <= i < |cfg.states.value| ==> cfg.states.value[i].0 in r.value.states
    ensures cfg.states.Some? && BuildStates(cfg.states.value, o, k).Err? ==> r == Err(BuildStates(cfg.states.value, o, k).error)
    ensures r.Ok? ==> r.value.states == BuildStates(cfg.states.value, o, k).value
  {
    if cfg.states.None? then Err(KeyError("states"))
    else
      var entries := cfg.states.value;
      var states :- BuildStates(entries, o, k);
      if entries == [] then Err(NoStates)
      else
        Ok(Machine(states, Some(cfg.initialState.GetOr(entries[0].0)), threshold, minDiff))
  }

  // ---- one turn ----

  /** What a turn did: the machine and container afterwards, the fact store
      (conditions register the facts they read), the events invoked in
      order, and the exception that ended the turn, if any. Everything done
      before the exception stays done. */
  datatype Outcome = Outcome(machine: Machine, container: Container, store: Facts.FactStore,
                             events: seq<Option<string>>, error: Option<Error>)

  /** The score of each transition on the input, in declaration order. */
  function Scores(ts: seq<Transition>, input: string, store: Facts.FactStore, o: Oracles): (r: seq<real>)
    ensures |r| == |ts|
    ensures forall i :: 0 <= i < |ts| ==> r[i] == Condition.Score(ts[i].condition, input, store, o)
  {
    seq(|ts|, i requires 0 <= i < |ts| => Condition.Score(ts[i].condition, input, store, o))
  }

  function ConditionNames(ts: seq<Transition>): set<string> {
    if ts == [] then {} else Condition.FactNames(ts[0].condition) + ConditionNames(ts[1..])
  }

  /** Evaluates every transition's condition in order, each on the store
      the previous ones left. */
  function EvaluateTransitions(ts: seq<Transition>, input: string, store: Facts.FactStore, o: Oracles): (r: (Facts.FactStore, seq<real>))
    ensures r.1 == Scores(ts, input, store, o)
    ensures Condition.RegisteredOnly(store, r.0, ConditionNames(ts))
  {
    if ts == [] then (store, [])
    else
      var (s1, a) := Condition.Evaluate(ts[0].condition, input, store, o);
      var (s2, rest) := EvaluateTransitions(ts[1..], input, s1, o);
      Condition.RegisteredKeepsValues(store, s1, Condition.FactNames(ts[0].condition));
      Condition.RegisteredTransitive(store, s1, s2, Condition.FactNames(ts[0].condition), ConditionNames(ts[1..]));
      ScoresOnSameValues(ts[1..], input, store, s1, o);
      (s2, [a] + rest)
  }

  lemma ScoresOnSameValues(ts: seq<Transition>, input: string, a: Facts.FactStore, b: Facts.FactStore, o: Oracles)
    requires forall n :: Facts.ValueOf(a, n) == Facts.ValueOf(b, n)
    ensures Scores(ts, input, a, o) == Scores(ts, input, b, o)
  {
    forall i | 0 <= i < |ts|
      ensures Condition.Score(ts[i].condition, input, a, o) == Condition.Score(ts[i].condition, input, b, o)
    {
      Condition.ScoreReadsValuesOnly(ts[i].condition, input, a, b, o);
    }
  }

  /** The turn's ending when no transition fires: the state's freedom,
      urgency and template, and no event. */
  function Stay(m: Machine, c: Container, st: State, s1: Facts.FactStore): Outcome {
    Outcome(m, c.(freedom := st.freedom, urgency := st.urgency, instructions := c.instructions + [st.template]),
            s1, [], None)
  }

  /** The turn's ending when transition `t` of state `st` fires: the machine
      moves to its target, freedom and urgency come from the transition, and
      its template then the target's template are appended; the events are
      the old state's `on_exit`, the transition's `on_enter`, the new state's
      `on_enter`, in that order. A target missing from the table raises after
      the first two of those steps. */
  function Fire(m: Machine, c: Container, st: State, t: Transition, s1: Facts.FactStore): (r: Outcome)
    ensures r.machine == m.(current := t.to) && r.store == s1
    ensures r.container == c.(freedom := t.freedom, urgency := t.urgency, instructions := r.container.instructions)
    ensures t.to.Some? && t.to.value in m.states ==>
              r.error.None?
              && r.container.instructions == c.instructions + [t.template, m.states[t.to.value].template]
              && r.events == [st.onExit, Some(t.onEnter), m.states[t.to.value].onEnter]
    ensures t.to.None? || t.to.value !in m.states ==>
              r.error == Some(UnknownState(t.to))
              && r.container.instructions == c.instructions + [t.template]
              && r.events == [st.onExit, Some(t.onEnter)]
  {
    var m1 := m.(current := t.to);
    var c1 := c.(freedom := t.freedom, urgency := t.urgency, instructions := c.instructions + [t.template]);
    var events := [st.onExit, Some(t.onEnter)];
    if t.to.None? || t.to.value !in m.states then Outcome(m1, c1, s1, events, Some(UnknownState(t.to)))
    else
      var target := m.states[t.to.value];
      assert c1.instructions + [target.template] == c.instructions + [t.template, target.template];
      Outcome(m1, c1.(instructions := c1.instructions + [target.template]), s1, events + [target.onEnter], None)
  }

  /** `FSMDialogueFlowModule.process`. */
  function Process(m: Machine, c: Container, store: Facts.FactStore, o: Oracles): (r: Outcome)
    // an unknown current state raises before anything happens
    ensures (m.current.None? || m.current.value !in m.states) ==>
              r == Outcome(m, c, store, [], Some(UnknownState(m.current)))
    // whatever happens, only the current state, urgency, freedom and instructions can change
    ensures r.machine.states == m.states && r.machine.threshold == m.threshold && r.machine.minDiff == m.minDiff
    ensures r.container.input == c.input && r.container.history == c.history
    ensures r.container.facts == c.facts && r.container.personality == c.personality
    // the only exception a turn can end with is an unknown state
    ensures r.error.None? || r.error.value.UnknownState?
  {
    if m.current.None? || m.current.value !in m.states then Outcome(m, c, store, [], Some(UnknownState(m.current)))
    else
      var st := m.states[m.current.value];
      var ev := EvaluateTransitions(st.transitions, c.input, store, o);
      Conclude(m, c, st, ev.1, ev.0)
  }

  /** The rest of the turn once the transitions have been scored: the
      ranked choice decides between staying and firing. */
  function Conclude(m: Machine, c: Container, st: State, scores: seq<real>, s1: Facts.FactStore): (r: Outcome)
    requires |scores| == |st.transitions|
    ensures r.error.None? || r.error.value.UnknownState?
    ensures r.machine.states == m.states && r.machine.threshold == m.threshold && r.machine.minDiff == m.minDiff
  {
    match Choose(scores, m.threshold, m.minDiff)
    case None => Stay(m, c, st, s1)
    case Some(i) =>
      NoneUnlessFires(scores, m.threshold, m.minDiff);
      Fire(m, c, st, st.transitions[i], s1)
  }

  /** The turn when no transition fires: the machine stays put, freedom
      and urgency come from the state, exactly its template is appended and
      no event is invoked. */
  lemma NothingFires(m: Machine, c: Container, store: Facts.FactStore, o: Oracles)
    requires m.current.Some? && m.current.value in m.states
    requires forall i: nat :: !Fires(Scores(m.states[m.current.value].transitions, c.input, store, o), i, m.threshold, m.minDiff)
    ensures var st := m.states[m.current.value];
      var r := Process(m, c, store, o);
      r.machine == m && r.error.None? && r.events == []
      && r.container.freedom == st.freedom && r.container.urgency == st.urgency
      && r.container.instructions == c.instructions + [st.template]
  {
    var st := m.states[m.current.value];
    var scores := Scores(st.transitions, c.input, store, o);
    if Choose(scores, m.threshold, m.minDiff).Some? {
      ChooseMeansFires(scores, m.threshold, m.minDiff, Choose(scores, m.threshold, m.minDiff).value);
    }
  }

  /** The turn when transition `i` fires, in the sense of `Fires`, ends as
      `Fire` describes. */
  lemma TransitionFires(m: Machine, c: Container, store: Facts.FactStore, o: Oracles, i: nat)
    requires m.current.Some? && m.current.value in m.states
    requires Fires(Scores(m.states[m.current.value].transitions, c.input, store, o), i, m.threshold, m.minDiff)
    ensures i < |m.states[m.current.value].transitions|
    ensures var st := m.states[m.current.value];
      Process(m, c, store, o)
        == Fire(m, c, st, st.transitions[i], EvaluateTransitions(st.transitions, c.input, store, o).0)
  {
    var st := m.states[m.current.value];
    ChooseMeansFires(Scores(st.transitions, c.input, store, o), m.threshold, m.minDiff, i);
  }

  /** The first turn of a freshly loaded machine: without a configured
      initial state it starts in its first declared state, which is in the
      table, so the turn gets past the state lookup; a configured initial
      state that names no state makes the very first turn raise before
      anything happens. */
  lemma FirstTurn(cfg: MachineConfig, o: Oracles, k: nat, c: Container, store: Facts.FactStore)
    requires BuildMachine(cfg, o, k, DefaultThreshold, DefaultMinDiff).Ok?
    ensures var m := BuildMachine(cfg, o, k, DefaultThreshold, DefaultMinDiff).value;
            (cfg.initialState.None? ==> m.current == Some(cfg.states.value[0].0) && m.current.value in m.states)
            && (cfg.initialState.Some? && cfg.initialState.value !in m.states ==>
                  Process(m, c, store, o) == Outcome(m, c, store, [], Some(UnknownState(cfg.initialState))))
  {
  }

  // ---- the code as written ----

  /** The transitions' scores with the condition evaluation as the code
      stands: the first condition that raises ends the evaluation. */
  function EvaluateTransitionsAsWritten(ts: seq<Transition>, input: string, store: Facts.FactStore, o: Oracles): (r: Result<(Facts.FactStore, seq<real>)>)
    ensures r.Ok? ==> |r.value.1| == |ts|
  {
    if ts == [] then Ok((store, []))
    else
      var (s1, a) :- Condition.EvaluateAsWritten(ts[0].condition, input, store, o);
      var (s2, rest) :- EvaluateTransitionsAsWritten(ts[1..], input, s1, o);
      Ok((s2, [a] + rest))
  }

  /** `process` as written: an exception from a condition leaves the turn
      before anything has changed. */
  function ProcessAsWritten(m: Machine, c: Container, store: Facts.FactStore, o: Oracles): (r: Outcome)
    ensures r.error.Some? && !r.error.value.UnknownState? ==> r == Outcome(m, c, store, [], r.error)
  {
    if m.current.None? || m.current.value !in m.states then Outcome(m, c, store, [], Some(UnknownState(m.current)))
    else
      var st := m.states[m.current.value];
      match EvaluateTransitionsAsWritten(st.transitions, c.input, store, o)
      case Err(e) => Outcome(m, c, store, [], Some(e))
      case Ok(ev) => Conclude(m, c, st, ev.1, ev.0)
  }

  lemma {:induction false} TransitionsAsWrittenWithoutFacts(ts: seq<Transition>, input: string, store: Facts.FactStore, o: Oracles)
    requires ConditionNames(ts) == {}
    ensures EvaluateTransitionsAsWritten(ts, input, store, o) == Ok(EvaluateTransitions(ts, input, store, o))
  {
    if ts != [] {
      Condition.AsWrittenAgreesWithoutFacts(ts[0].condition, input, store, o);
      TransitionsAsWrittenWithoutFacts(ts[1..], input, Condition.Evaluate(ts[0].condition, input, store, o).0, o);
    }
  }

  /** A machine whose transition conditions read no fact behaves the same
      as written and as intended. */
  lemma ProcessAsWrittenWithoutFacts(m: Machine, c: Container, store: Facts.FactStore, o: Oracles)
    requires forall n :: n in m.states ==> ConditionNames(m.states[n].transitions) == {}
    ensures ProcessAsWritten(m, c, store, o) == Process(m, c, store, o)
  {
    if m.current.Some? && m.current.value in m.states {
      TransitionsAsWrittenWithoutFacts(m.states[m.current.value].transitions, c.input, store, o);
    }
  }

  /** The discrepancy: a first transition that reads a fact that has been
      set makes the turn raise, which the intended turn never does. */
  lemma KnownFactTransitionRaises(m: Machine, c: Container, store: Facts.FactStore, o: Oracles, name: string)
    requires m.current.Some? && m.current.value in m.states
    requires m.states[m.current.value].transitions != []
    requires m.states[m.current.value].transitions[0].condition == FactRef(name) && name in store
    ensures ProcessAsWritten(m, c, store, o) == Outcome(m, c, store, [], Some(AttributeError("get")))
    ensures Process(m, c, store, o).error != Some(AttributeError("get"))
  {
  }
}
