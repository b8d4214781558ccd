/** The goal-oriented dialogue flow: actions with preconditions, effects and
    a success condition, a planner that searches for a path to a goal over a
    private copy of the relevant facts, and the turn step that executes the
    head of the current plan. */
module Goap {
  import opened Basics
  import opened Values
  import opened Models
  import opened Parser
  import opened Containers
  import Condition
  import Facts

  // ---- configuration and built actions ----

  /** An action's `effects` entry. Iterating it yields event names: the
      items of a list, or the keys of a mapping. Only a mapping also carries
      the values the planner writes into its working state. A missing entry
      is the empty list. */
  datatype Effects = EffectList(names: seq<string>) | EffectMap(entries: seq<(string, Value)>)

  function EffectNames(e: Effects): (r: seq<string>)
    ensures e.EffectList? ==> r == e.names
    ensures e.EffectMap? ==> |r| == |e.entries| && forall i :: 0 <= i < |r| ==> r[i] == e.entries[i].0
  {
    match e
    case EffectList(ns) => ns
    case EffectMap(es) => seq(|es|, i requires 0 <= i < |es| => es[i].0)
  }

  datatype ActionConfig = ActionConfig(
    preconditions: Option<seq<string>>, effects: Option<Effects>, template: Option<string>,
    condition: Option<string>, onSuccess: Option<string>, onFail: Option<string>)

  /** The `actions` mapping in declaration order, and the `goal` mapping. */
  datatype GoapConfig = GoapConfig(actions: Option<seq<(string, ActionConfig)>>, goal: Option<seq<(string, Value)>>)

  datatype Action = Action(
    name: string, preconditions: seq<Expr>, effects: Effects, template: string,
    evaluator: Expr, onSuccess: Option<string>, onFail: Option<string>)

  /** The module's state between turns: its actions, its goal, and the
      current plan (`None` once planning has failed). */
  datatype Module = Module(actions: seq<Action>, goal: seq<(string, Value)>, plan: Option<seq<Action>>)

  /** Compiles condition texts in order; the first one that fails aborts. */
  function CompileAll(texts: seq<string>, o: Oracles, k: nat): (r: Result<seq<Expr>>)
    ensures r.Ok? <==> forall i :: 0 <= i < |texts| ==> Compile(texts[i], o, k).Ok?
    ensures r.Ok? ==> |r.value| == |texts| && forall i :: 0 <= i < |texts| ==> r.value[i] == Compile(texts[i], o, k).value
    ensures r.Err? ==> exists i :: 0 <= i < |texts| && Compile(texts[i], o, k).Err? && r.error == Compile(texts[i], o, k).error
                                   && forall j :: 0 <= j < i ==> Compile(texts[j], o, k).Ok?
  {
    Collect(texts, t => Compile(t, o, k))
  }

  /** `Action.from_dict`, as the module calls it: no paraphrasings. The
      arguments are evaluated in order, so a precondition that does not
      compile is reported before a bad `condition`; a missing condition is
      the empty text, which does not compile. */
  function BuildAction(name: string, cfg: ActionConfig, o: Oracles): (r: Result<Action>)
    ensures r.Ok? <==> CompileAll(cfg.preconditions.GetOr([]), o, 0).Ok? && Compile(cfg.condition.GetOr(""), o, 0).Ok?
    ensures CompileAll(cfg.preconditions.GetOr([]), o, 0).Err? ==> r == Err(CompileAll(cfg.preconditions.GetOr([]), o, 0).error)
    ensures r.Ok? ==> r.value.name == name
  {
    var pre :- CompileAll(cfg.preconditions.GetOr([]), o, 0);
    var ev :- Compile(cfg.condition.GetOr(""), o, 0);
    Ok(Action(name, pre, cfg.effects.GetOr(EffectList([])), cfg.template.GetOr(""), ev, cfg.onSuccess, cfg.onFail))
  }

  /** The defaults of `Action.from_dict`: no preconditions, the empty list
      of effects, the empty template, and no `on_success` or `on_fail`
      event. */
  lemma ActionDefaults(name: string, cfg: ActionConfig, o: Oracles)
    requires BuildAction(name, cfg, o).Ok?
    ensures var a := BuildAction(name, cfg, o).value;
      a.evaluator == Compile(cfg.condition.GetOr(""), o, 0).value
      && (cfg.preconditions.None? ==> a.preconditions == [])
      && (cfg.preconditions.Some? ==> a.preconditions == CompileAll(cfg.preconditions.value, o, 0).value)
      && (cfg.effects.None? ==> a.effects == EffectList([]))
      && (cfg.effects.Some? ==> a.effects == cfg.effects.value)
      && (cfg.template.None? ==> a.template == "")
      && (cfg.template.Some? ==> a.template == cfg.template.value)
      && a.onSuccess == cfg.onSuccess && a.onFail == cfg.onFail
  {
  }

  function BuildActions(entries: seq<(string, ActionConfig)>, o: Oracles): (r: Result<seq<Action>>)
    ensures r.Ok? <==> forall i :: 0 <= i < |entries| ==> BuildAction(entries[i].0, entries[i].1, o).Ok?
    ensures r.Ok? ==> |r.value| == |entries|
    ensures r.Ok? ==> forall i :: 0 <= i < |entries| ==> r.value[i] == BuildAction(entries[i].0, entries[i].1, o).value
    ensures r.Err? ==> exists i :: 0 <= i < |entries| && BuildAction(entries[i].0, entries[i].1, o).Err?
                                   && r.error == BuildAction(entries[i].0, entries[i].1, o).error
                                   && forall j :: 0 <= j < i ==> BuildAction(entries[j].0, entries[j].1, o).Ok?
  {
    Collect(entries, (e: (string, ActionConfig)) => BuildAction(e.0, e.1, o))
  }

  /** `GOAPDialogueFlowModule.__init__`: the `actions` table is read first,
      then the `goal`; the module starts with an empty plan. */
  function Build(cfg: GoapConfig, o: Oracles): (r: Result<Module>)
    ensures cfg.actions.None? ==> r == Err(KeyError("actions"))
    ensures cfg.actions.Some? && BuildActions(cfg.actions.value, o).Err? ==> r == Err(BuildActions(cfg.actions.value, o).error)
    ensures cfg.actions.Some? && BuildActions(cfg.actions.value, o).Ok? && cfg.goal.None? ==> r == Err(KeyError("goal"))
    ensures r.Ok? <==> cfg.actions.Some? && BuildActions(cfg.actions.value, o).Ok? && cfg.goal.Some?
    ensures r.Ok? ==> r.value == Module(BuildActions(cfg.actions.value, o).value, cfg.goal.value, Some([]))
  {
    if cfg.actions.None? then Err(KeyError("actions"))
    else
      var actions :- BuildActions(cfg.actions.value, o);
      if cfg.goal.None? then Err(KeyError("goal"))
      else Ok(Module(actions, cfg.goal.value, Some([])))
  }

  // ---- applicability ----

  /** Every condition scores nonzero on the input. */
  predicate AllNonzero(es: seq<Expr>, input: string, store: Facts.FactStore, o: Oracles) {
    forall i :: 0 <= i < |es| ==> Condition.Score(es[i], input, store, o) != 0.0
  }

  lemma AllNonzeroCons(es: seq<Expr>, input: string, store: Facts.FactStore, o: Oracles)
    requires es != []
    ensures AllNonzero(es, input, store, o)
            <==> Condition.Score(es[0], input, store, o) != 0.0 && AllNonzero(es[1..], input, store, o)
  {
    assert forall i :: 1 <= i < |es| ==> es[i] == es[1..][i - 1];
  }

  /** An action is ready when every precondition scores nonzero on the
      empty input. */
  predicate Ready(a: Action, store: Facts.FactStore, o: Oracles) {
    AllNonzero(a.preconditions, "", store, o)
  }

  lemma AllNonzeroOnSameValues(es: seq<Expr>, input: string, a: Facts.FactStore, b: Facts.FactStore, o: Oracles)
    requires forall n :: Facts.ValueOf(a, n) == Facts.ValueOf(b, n)
    ensures AllNonzero(es, input, a, o) <==> AllNonzero(es, input, b, o)
  {
    forall i | 0 <= i < |es|
      ensures Condition.Score(es[i], input, a, o) == Condition.Score(es[i], input, b, o)
    {
      Condition.ScoreReadsValuesOnly(es[i], input, a, b, o);
    }
  }

  /** `Action.is_applicable`: `all(...)` over the preconditions, which
      stops at the first one scoring zero. Evaluating only registers the
      fact names read. */
  function Applicable(pre: seq<Expr>, store: Facts.FactStore, o: Oracles): (r: (Facts.FactStore, bool))
    ensures r.1 <==> AllNonzero(pre, "", store, o)
    ensures Condition.Grows(store, r.0)
  {
    if pre == [] then (store, true)
    else
      var (s1, a) := Condition.Evaluate(pre[0], "", store, o);
      Condition.RegisteredGrows(store, s1, Condition.FactNames(pre[0]));
      AllNonzeroCons(pre, "", store, o);
      if a == 0.0 then (s1, false)
      else
        var (s2, b) := Applicable(pre[1..], s1, o);
        Condition.GrowsKeepsValues(store, s1);
        AllNonzeroOnSameValues(pre[1..], "", store, s1, o);
        Condition.GrowsTransitive(store, s1, s2);
        (s2, b)
  }

  /** The first step of `Applicable`: a zero score stops it, any other
      goes on with the rest on the store the first evaluation left. */
  lemma ApplicableUnfold(pre: seq<Expr>, store: Facts.FactStore, o: Oracles)
    requires pre != []
    ensures Condition.Evaluate(pre[0], "", store, o).1 == 0.0 ==>
              Applicable(pre, store, o) == (Condition.Evaluate(pre[0], "", store, o).0, false)
    ensures Condition.Evaluate(pre[0], "", store, o).1 != 0.0 ==>
              Applicable(pre, store, o) == Applicable(pre[1..], Condition.Evaluate(pre[0], "", store, o).0, o)
  {
  }

  /** Short-circuit: once precondition `j` scores zero, the ones after it
      are never evaluated, so they register nothing. */
  lemma {:induction false} ApplicableStopsAtFirstZero(pre: seq<Expr>, store: Facts.FactStore, o: Oracles, j: nat)
    requires j < |pre| && Condition.Score(pre[j], "", store, o) == 0.0
    ensures Applicable(pre, store, o) == Applicable(pre[..j + 1], store, o)
  {
    var prefix := pre[..j + 1];
    assert prefix[0] == pre[0];
    var first := Condition.Evaluate(pre[0], "", store, o);
    ApplicableUnfold(pre, store, o);
    ApplicableUnfold(prefix, store, o);
    if first.1 != 0.0 {
      var s1 := first.0;
      assert j > 0;
      Condition.GrowsKeepsValues(store, s1);
      Condition.ScoreReadsValuesOnly(pre[j], "", store, s1, o);
      assert pre[1..][j - 1] == pre[j];
      ApplicableStopsAtFirstZero(pre[1..], s1, o, j - 1);
      TailOfPrefix(pre, j + 1);
      assert Applicable(pre, store, o) == Applicable(pre[1..], s1, o);
      assert Applicable(prefix, store, o) == Applicable(prefix[1..], s1, o);
    }
  }

  lemma TailOfPrefix<T>(s: seq<T>, n: nat)
    requires 0 < n <= |s|
    ensures s[..n][1..] == s[1..][..n - 1]
  {
  }

  /** The ready actions, in declaration order. */
  function ReadyActions(actions: seq<Action>, store: Facts.FactStore, o: Oracles): seq<Action> {
    if actions == [] then []
    else (if Ready(actions[0], store, o) then [actions[0]] else []) + ReadyActions(actions[1..], store, o)
  }

  lemma {:induction false} ReadyActionsOnSameValues(actions: seq<Action>, s: Facts.FactStore, t: Facts.FactStore, o: Oracles)
    requires forall n :: Facts.ValueOf(s, n) == Facts.ValueOf(t, n)
    ensures ReadyActions(actions, s, o) == ReadyActions(actions, t, o)
  {
    if actions != [] {
      AllNonzeroOnSameValues(actions[0].preconditions, "", s, t, o);
      ReadyActionsOnSameValues(actions[1..], s, t, o);
    }
  }

  /** `[a for a in actions if a.is_applicable()]`: every action is checked,
      each on the store the previous checks left. */
  function ApplicableActions(actions: seq<Action>, store: Facts.FactStore, o: Oracles): (r: (Facts.FactStore, seq<Action>))
    ensures r.1 == ReadyActions(actions, store, o)
    ensures Condition.Grows(store, r.0)
  {
    if actions == [] then (store, [])
    else
      var (s1, ok) := Applicable(actions[0].preconditions, store, o);
      var (s2, rest) := ApplicableActions(actions[1..], s1, o);
      Condition.GrowsKeepsValues(store, s1);
      ReadyActionsOnSameValues(actions[1..], store, s1, o);
      Condition.GrowsTransitive(store, s1, s2);
      (s2, (if ok then [actions[0]] else []) + rest)
  }

  // ---- planning ----

  /** The planner's working state: for each goal key, what `get_fact`
      returned for it (the stored value, or a new empty fact object for a
      name never seen), later overwritten by effect values. */
  type WorkingState = map<string, Facts.FactHandle>

  /** `state.get(k) == v`: a fact object equals no configured value, and a
      key missing from the state reads as `None`. */
  predicate SlotEquals(state: WorkingState, k: string, v: Value) {
    if k in state then state[k].RawValue? && PyEq(state[k].value, v) else PyEq(Null, v)
  }

  /** `_goal_met`. */
  predicate GoalMet(state: WorkingState, goal: seq<(string, Value)>) {
    forall i :: 0 <= i < |goal| ==> SlotEquals(state, goal[i].0, goal[i].1)
  }

  /** The keys of a list of entries. */
  function Keys(entries: seq<(string, Value)>): set<string> {
    if entries == [] then {} else Keys(entries[..|entries| - 1]) + {entries[|entries| - 1].0}
  }

  /** `{k: facts.get_fact(k) for k in goal.keys()}`. The keys of a mapping
      are distinct, so each is read once against the store as it was: a
      known name yields its value, an unseen one a new empty fact object,
      and every goal key ends up registered. */
  function Seed(goal: seq<(string, Value)>, store: Facts.FactStore): (r: (Facts.FactStore, WorkingState))
    ensures r.1.Keys == Keys(goal)
    ensures forall k :: k in r.1 ==> r.1[k] == Facts.GetFact(store, k).1
    ensures Condition.RegisteredOnly(store, r.0, Keys(goal))
  {
    (RegisterAll(store, Keys(goal)), map k | k in Keys(goal) :: Facts.GetFact(store, k).1)
  }

  /** Registers every name of `names` the store has not seen. */
  function RegisterAll(store: Facts.FactStore, names: set<string>): (r: Facts.FactStore)
    ensures Condition.RegisteredOnly(store, r, names)
  {
    var all := store.Keys + names;
    var r := map k | k in all :: if k in store then store[k] else Facts.NewFact(Null);
    assert r.Keys == all;
    r
  }

  /** `for k, v in action.effects.items(): state[k] = v`. */
  function Apply(state: WorkingState, entries: seq<(string, Value)>): (r: WorkingState)
    ensures r.Keys == state.Keys + Keys(entries)
    decreases |entries|
  {
    if entries == [] then state
    else
      var last := entries[|entries| - 1];
      Apply(state, entries[..|entries| - 1])[last.0 := Facts.RawValue(last.1)]
  }

  /** The map the effects write, the last entry winning per key. */
  function Written(entries: seq<(string, Value)>): map<string, Facts.FactHandle>
    decreases |entries|
  {
    if entries == [] then map[]
    else Written(entries[..|entries| - 1])[entries[|entries| - 1].0 := Facts.RawValue(entries[|entries| - 1].1)]
  }

  /** Applying effects overrides the state with what they write. */
  lemma {:induction false} ApplyOverrides(state: WorkingState, entries: seq<(string, Value)>)
    ensures Apply(state, entries) == state + Written(entries)
    decreases |entries|
  {
    if entries != [] {
      ApplyOverrides(state, entries[..|entries| - 1]);
    }
  }

  /** Writing the same effects twice is writing them once. */
  lemma ApplyIdempotent(state: WorkingState, entries: seq<(string, Value)>)
    ensures Apply(Apply(state, entries), entries) == Apply(state, entries)
  {
    ApplyOverrides(state, entries);
    ApplyOverrides(Apply(state, entries), entries);
    var w := Written(entries);
    assert state + w + w == state + w;
  }

  /** What `plan` ended with: a list of actions, `None` when nothing is
      applicable, an exception, or (for the fuel-bounded loop) no end yet. */
  datatype PlanResult = Found(steps: seq<Action>) | NoAction | Raised(error: Error) | OutOfFuel

  /** The `while not goal_met` loop of `GOAPPlanner.plan`, with at most
      `fuel` more effect applications. An action whose effects are a list
      has no `items`, which raises. */
  function PlanLoop(actions: seq<Action>, goal: seq<(string, Value)>, state: WorkingState,
                    store: Facts.FactStore, o: Oracles, fuel: nat, acc: seq<Action>): (r: (Facts.FactStore, PlanResult))
    ensures Condition.Grows(store, r.0)
    ensures r.1.Found? ==> GoalMet(state, goal) || |r.1.steps| > |acc|
    decreases fuel
  {
    if GoalMet(state, goal) then (store, Found(acc))
    else
      var (s1, applicable) := ApplicableActions(actions, store, o);
      if applicable == [] then (s1, NoAction)
      else
        var a := applicable[0];
        match a.effects
        case EffectList(_) => (s1, Raised(AttributeError("items")))
        case EffectMap(es) =>
          if fuel == 0 then (s1, OutOfFuel)
          else
            var r := PlanLoop(actions, goal, Apply(state, es), s1, o, fuel - 1, acc + [a]);
            Condition.GrowsTransitive(store, s1, r.0);
            r
  }

  /** `GOAPPlanner.plan`, with at most `fuel` loop iterations. */
  function Plan(actions: seq<Action>, goal: seq<(string, Value)>, store: Facts.FactStore, o: Oracles, fuel: nat): (r: (Facts.FactStore, PlanResult))
    ensures Condition.Grows(store, r.0)
  {
    var seeded := Seed(goal, store);
    var r := PlanLoop(actions, goal, seeded.1, seeded.0, o, fuel, []);
    Condition.RegisteredGrows(store, seeded.0, Keys(goal));
    Condition.GrowsTransitive(store, seeded.0, r.0);
    r
  }

  /** What the planning loop does from a working state, stated without
      the loop. The ready actions never change while it runs (it writes no
      fact), so the first one is chosen every time and writes the same values
      again: a goal not met after one application is never met, and the loop
      does not end (`OutOfFuel` for every fuel). */
  function LoopExpected(goal: seq<(string, Value)>, state: WorkingState, ready: seq<Action>): PlanResult {
    if GoalMet(state, goal) then Found([])
    else if ready == [] then NoAction
    else if ready[0].effects.EffectList? then Raised(AttributeError("items"))
    else if GoalMet(Apply(state, ready[0].effects.entries), goal) then Found([ready[0]])
    else OutOfFuel
  }

  /** What `plan` does, stated without the loop: the loop's result from
      the seeded working state. */
  function Expected(actions: seq<Action>, goal: seq<(string, Value)>, store: Facts.FactStore, o: Oracles): PlanResult {
    LoopExpected(goal, Seed(goal, store).1, ReadyActions(actions, store, o))
  }

  /** Once the first ready action's effects have been written and the goal
      is still not met, the loop keeps choosing it and never ends. */
  lemma {:induction false} StuckLoop(actions: seq<Action>, goal: seq<(string, Value)>, state: WorkingState,
                                     store: Facts.FactStore, o: Oracles, fuel: nat, acc: seq<Action>,
                                     es: seq<(string, Value)>)
    requires ReadyActions(actions, store, o) != [] && ReadyActions(actions, store, o)[0].effects == EffectMap(es)
    requires state == Apply(state, es) && !GoalMet(state, goal)
    ensures PlanLoop(actions, goal, state, store, o, fuel, acc).1 == OutOfFuel
    decreases fuel
  {
    var (s1, applicable) := ApplicableActions(actions, store, o);
    if fuel > 0 {
      Condition.GrowsKeepsValues(store, s1);
      ReadyActionsOnSameValues(actions, store, s1, o);
      StuckLoop(actions, goal, Apply(state, es), s1, o, fuel - 1, acc + [applicable[0]], es);
    }
  }

  /** One iteration of the loop: the goal is not met, so the first ready
      action's effects are written and the loop goes on from there. */
  lemma LoopUnfold(actions: seq<Action>, goal: seq<(string, Value)>, state: WorkingState,
                   store: Facts.FactStore, o: Oracles, fuel: nat, acc: seq<Action>)
    requires fuel >= 1 && !GoalMet(state, goal)
    requires ReadyActions(actions, store, o) != [] && ReadyActions(actions, store, o)[0].effects.EffectMap?
    ensures var a := ReadyActions(actions, store, o)[0];
      PlanLoop(actions, goal, state, store, o, fuel, acc).1
        == PlanLoop(actions, goal, Apply(state, a.effects.entries), ApplicableActions(actions, store, o).0, o, fuel - 1, acc + [a]).1
  {
  }

  /** A loop that starts at the goal ends at once with what it has. */
  lemma LoopAtGoal(actions: seq<Action>, goal: seq<(string, Value)>, state: WorkingState,
                   store: Facts.FactStore, o: Oracles, fuel: nat, acc: seq<Action>)
    requires GoalMet(state, goal)
    ensures PlanLoop(actions, goal, state, store, o, fuel, acc).1 == Found(acc)
  {
  }

  /** One effect application, then either the goal holds or the loop is
      stuck. */
  lemma OneStep(actions: seq<Action>, goal: seq<(string, Value)>, state: WorkingState,
                store: Facts.FactStore, o: Oracles, fuel: nat, acc: seq<Action>)
    requires fuel >= 1 && !GoalMet(state, goal)
    requires ReadyActions(actions, store, o) != [] && ReadyActions(actions, store, o)[0].effects.EffectMap?
    ensures var a := ReadyActions(actions, store, o)[0];
      var next := Apply(state, a.effects.entries);
      PlanLoop(actions, goal, state, store, o, fuel, acc).1 == (if GoalMet(next, goal) then Found(acc + [a]) else OutOfFuel)
  {
    var s1 := ApplicableActions(actions, store, o).0;
    var a := ReadyActions(actions, store, o)[0];
    var es := a.effects.entries;
    var next := Apply(state, es);
    var rest := PlanLoop(actions, goal, next, s1, o, fuel - 1, acc + [a]).1;
    LoopUnfold(actions, goal, state, store, o, fuel, acc);
    assert PlanLoop(actions, goal, state, store, o, fuel, acc).1 == rest;
    if GoalMet(next, goal) {
      LoopAtGoal(actions, goal, next, s1, o, fuel - 1, acc + [a]);
      assert rest == Found(acc + [a]);
    } else {
      StuckAfterOneStep(actions, goal, state, store, o, fuel, acc);
      assert rest == OutOfFuel;
    }
  }

  /** After one application that misses the goal, the loop is stuck. */
  lemma StuckAfterOneStep(actions: seq<Action>, goal: seq<(string, Value)>, state: WorkingState,
                          store: Facts.FactStore, o: Oracles, fuel: nat, acc: seq<Action>)
    requires fuel >= 1
    requires ReadyActions(actions, store, o) != [] && ReadyActions(actions, store, o)[0].effects.EffectMap?
    requires !GoalMet(Apply(state, ReadyActions(actions, store, o)[0].effects.entries), goal)
    ensures var a := ReadyActions(actions, store, o)[0];
      PlanLoop(actions, goal, Apply(state, a.effects.entries), ApplicableActions(actions, store, o).0, o, fuel - 1, acc + [a]).1
        == OutOfFuel
  {
    var s1 := ApplicableActions(actions, store, o).0;
    var a := ReadyActions(actions, store, o)[0];
    var es := a.effects.entries;
    Condition.GrowsKeepsValues(store, s1);
    ReadyActionsOnSameValues(actions, store, s1, o);
    ApplyIdempotent(state, es);
    StuckLoop(actions, goal, Apply(state, es), s1, o, fuel - 1, acc + [a], es);
  }

  /** With one iteration of fuel or more, the loop ends as stated. */
  lemma LoopMatchesExpected(actions: seq<Action>, goal: seq<(string, Value)>, state: WorkingState,
                            store: Facts.FactStore, o: Oracles, fuel: nat)
    requires fuel >= 1
    ensures PlanLoop(actions, goal, state, store, o, fuel, []).1 == LoopExpected(goal, state, ReadyActions(actions, store, o))
  {
    var ready := ReadyActions(actions, store, o);
    if !GoalMet(state, goal) && ready != [] && ready[0].effects.EffectMap? {
      OneStep(actions, goal, state, store, o, fuel, []);
    }
  }

  /** Seeding only registers names, so the same actions are ready. */
  lemma SeedKeepsReady(actions: seq<Action>, goal: seq<(string, Value)>, store: Facts.FactStore, o: Oracles)
    ensures ReadyActions(actions, Seed(goal, store).0, o) == ReadyActions(actions, store, o)
  {
    var s1 := Seed(goal, store).0;
    Condition.RegisteredGrows(store, s1, Keys(goal));
    Condition.GrowsKeepsValues(store, s1);
    ReadyActionsOnSameValues(actions, store, s1, o);
  }

  /** With one iteration of fuel or more, `plan` ends exactly as `Expected`
      says; with the goal unreachable it runs out of any fuel. */
  lemma PlanMatchesExpected(actions: seq<Action>, goal: seq<(string, Value)>, store: Facts.FactStore, o: Oracles, fuel: nat)
    requires fuel >= 1
    ensures Plan(actions, goal, store, o, fuel).1 == Expected(actions, goal, store, o)
  {
    var seeded := Seed(goal, store);
    SeedKeepsReady(actions, goal, store, o);
    LoopMatchesExpected(actions, goal, seeded.1, seeded.0, o, fuel);
  }

  // ---- one turn ----

  datatype Status = Completed | Failed(error: Error) | Diverged

  /** What a turn did: the module and container afterwards, the fact store
      (conditions register the facts they read), the events invoked in
      order, and how the turn ended. */
  datatype Outcome = Outcome(flow: Module, container: Container, store: Facts.FactStore,
                             events: seq<Option<string>>, status: Status)

  const GiveUp: string := "I can't help you right now."

  /** `self.current_plan = self.planner.plan(...)` after a failed action: an
      exception leaves the old plan in place and ends the turn. */
  function Replan(m: Module, c: Container, store: Facts.FactStore, o: Oracles, fuel: nat,
                  events: seq<Option<string>>): (r: Outcome)
    ensures Condition.Grows(store, r.store) && r.container == c && r.events == events
    ensures r.flow.actions == m.actions && r.flow.goal == m.goal
  {
    var (s1, pr) := Plan(m.actions, m.goal, store, o, fuel);
    match pr
    case Found(steps) => Outcome(m.(plan := Some(steps)), c, s1, events, Completed)
    case NoAction => Outcome(m.(plan := None), c, s1, events, Completed)
    case Raised(e) => Outcome(m, c, s1, events, Failed(e))
    case OutOfFuel => Outcome(m, c, s1, events, Diverged)
  }

  /** The head action succeeded: its effect names, then `on_success`, are
      invoked, the head is dropped and its template appended. */
  function Succeed(m: Module, c: Container, s1: Facts.FactStore): (r: Outcome)
    requires m.plan.Some? && m.plan.value != []
    ensures var a := m.plan.value[0];
      r.status == Completed && r.flow == m.(plan := Some(m.plan.value[1..])) && r.store == s1
      && r.container == c.(instructions := c.instructions + [a.template])
      && |r.events| == |EffectNames(a.effects)| + 1
      && (forall i :: 0 <= i < |EffectNames(a.effects)| ==> r.events[i] == Some(EffectNames(a.effects)[i]))
      && r.events[|r.events| - 1] == a.onSuccess
  {
    var a := m.plan.value[0];
    var names := EffectNames(a.effects);
    var events := seq(|names|, i requires 0 <= i < |names| => Some(names[i])) + [a.onSuccess];
    Outcome(m.(plan := Some(m.plan.value[1..])), c.(instructions := c.instructions + [a.template]), s1, events, Completed)
  }

  /** Executes the head of a non-empty plan: `execute` succeeds when the
      action's condition scores nonzero on the input; it then invokes the
      action's effect names and `on_success`, drops the head and appends the
      template; otherwise it invokes `on_fail` and replans. */
  function Step(m: Module, c: Container, store: Facts.FactStore, o: Oracles, fuel: nat): (r: Outcome)
    requires m.plan.Some? && m.plan.value != []
    ensures Condition.Grows(store, r.store)
    ensures r.flow.actions == m.actions && r.flow.goal == m.goal
    ensures r.container == c || r.container == c.(instructions := c.instructions + [m.plan.value[0].template])
  {
    var a := m.plan.value[0];
    var (s1, score) := Condition.Evaluate(a.evaluator, c.input, store, o);
    Condition.RegisteredGrows(store, s1, Condition.FactNames(a.evaluator));
    if score != 0.0 then Succeed(m, c, s1)
    else
      var r := Replan(m, c, s1, o, fuel, [a.onFail]);
      Condition.GrowsTransitive(store, s1, r.store);
      r
  }

  /** `GOAPDialogueFlowModule.process`: an empty or missing plan is
      replaced by a new one first; when that is empty too, the turn only
      appends the apology. */
  function Process(m: Module, c: Container, store: Facts.FactStore, o: Oracles, fuel: nat): (r: Outcome)
    ensures Condition.Grows(store, r.store)
    ensures r.flow.actions == m.actions && r.flow.goal == m.goal
    ensures r.container.input == c.input && r.container.history == c.history
    ensures r.container.urgency == c.urgency && r.container.freedom == c.freedom
    ensures r.container.facts == c.facts && r.container.personality == c.personality
  {
    if m.plan.Some? && m.plan.value != [] then Step(m, c, store, o, fuel)
    else StartPlan(m, c, store, o, fuel)
  }

  /** The turn with an empty or missing plan: a new plan is made and,
      when it is not empty, its head executed; an empty one only appends
      the apology. */
  function StartPlan(m: Module, c: Container, store: Facts.FactStore, o: Oracles, fuel: nat): (r: Outcome)
    ensures Condition.Grows(store, r.store)
    ensures r.flow.actions == m.actions && r.flow.goal == m.goal
    ensures r.container == c.(instructions := r.container.instructions)
  {
    var (s1, pr) := Plan(m.actions, m.goal, store, o, fuel);
    match pr
    case Raised(e) => Outcome(m, c, s1, [], Failed(e))
    case OutOfFuel => Outcome(m, c, s1, [], Diverged)
    case NoAction => Outcome(m.(plan := None), c.(instructions := c.instructions + [GiveUp]), s1, [], Completed)
    case Found(steps) =>
      if steps == [] then Outcome(m.(plan := Some([])), c.(instructions := c.instructions + [GiveUp]), s1, [], Completed)
      else
        var r := Step(m.(plan := Some(steps)), c, s1, o, fuel);
        Condition.GrowsTransitive(store, s1, r.store);
        r
  }

  /** A turn writes no fact: every name reads the same before and after,
      whatever the plan and the actions' effects. */
  lemma ProcessWritesNoFact(m: Module, c: Container, store: Facts.FactStore, o: Oracles, fuel: nat)
    ensures forall n :: Facts.ValueOf(store, n) == Facts.ValueOf(Process(m, c, store, o, fuel).store, n)
  {
    Condition.GrowsKeepsValues(store, Process(m, c, store, o, fuel).store);
  }

  /** A successful head action: its effect names, then `on_success`, are
      invoked; the head is dropped and its template appended. */
  lemma HeadSucceeds(m: Module, c: Container, store: Facts.FactStore, o: Oracles, fuel: nat)
    requires m.plan.Some? && m.plan.value != []
    requires Condition.Score(m.plan.value[0].evaluator, c.input, store, o) != 0.0
    ensures var a := m.plan.value[0];
      var r := Process(m, c, store, o, fuel);
      r.status == Completed && r.flow.plan == Some(m.plan.value[1..])
      && r.container.instructions == c.instructions + [a.template]
      && |r.events| == |EffectNames(a.effects)| + 1
      && (forall i :: 0 <= i < |EffectNames(a.effects)| ==> r.events[i] == Some(EffectNames(a.effects)[i]))
      && r.events[|r.events| - 1] == a.onSuccess
  {
  }

  /** Replanning ends as the planner is expected to, keeping the old plan
      when it raises. */
  lemma ReplanMatchesExpected(m: Module, c: Container, store: Facts.FactStore, o: Oracles, fuel: nat,
                              events: seq<Option<string>>)
    requires fuel >= 1
    ensures var r := Replan(m, c, store, o, fuel, events);
      var x := Expected(m.actions, m.goal, store, o);
      (x.Found? ==> r.status == Completed && r.flow.plan == Some(x.steps))
      && (x.NoAction? ==> r.status == Completed && r.flow.plan == None)
      && (x.Raised? ==> r.status == Failed(x.error) && r.flow.plan == m.plan)
      && (x.OutOfFuel? ==> r.status == Diverged)
  {
    PlanMatchesExpected(m.actions, m.goal, store, o, fuel);
  }

  /** A failed head action: only `on_fail` is invoked, nothing is appended,
      and the plan is whatever replanning yields on the store the action's
      condition left (a goal key that condition registered now reads as
      `None` rather than as a new fact object). */
  lemma HeadFails(m: Module, c: Container, store: Facts.FactStore, o: Oracles, fuel: nat)
    requires m.plan.Some? && m.plan.value != []
    requires Condition.Score(m.plan.value[0].evaluator, c.input, store, o) == 0.0
    ensures var a := m.plan.value[0];
      Process(m, c, store, o, fuel)
        == Replan(m, c, Condition.Evaluate(a.evaluator, c.input, store, o).0, o, fuel, [a.onFail])
  {
  }

  /** With an empty plan and nothing left to do, whether because the goal
      already holds or because no action is ready, the turn appends the
      apology and invokes nothing. */
  lemma NothingToDoGivesUp(m: Module, c: Container, store: Facts.FactStore, o: Oracles, fuel: nat)
    requires m.plan.None? || m.plan.value == []
    requires Expected(m.actions, m.goal, store, o) in {Found([]), NoAction}
    requires fuel >= 1
    ensures var r := Process(m, c, store, o, fuel);
      r.status == Completed && r.events == [] && r.container.instructions == c.instructions + [GiveUp]
  {
    PlanMatchesExpected(m.actions, m.goal, store, o, fuel);
  }

  /** A turn without a plan: the planner runs first, and a plan it finds
      is executed at once, in the same turn, from the store planning left;
      a planner that raises ends the turn with the plan, the container and
      the events untouched, and one that never ends diverges. */
  lemma FirstTurnPlansThenActs(m: Module, c: Container, store: Facts.FactStore, o: Oracles, fuel: nat)
    requires m.plan.None? || m.plan.value == []
    requires fuel >= 1
    ensures var s1, x := Plan(m.actions, m.goal, store, o, fuel).0, Expected(m.actions, m.goal, store, o);
      var r := Process(m, c, store, o, fuel);
      (x.Found? && x.steps != [] ==> r == Step(m.(plan := Some(x.steps)), c, s1, o, fuel))
      && (x.Raised? ==> r == Outcome(m, c, s1, [], Failed(x.error)))
      && (x.OutOfFuel? ==> r == Outcome(m, c, s1, [], Diverged))
  {
    PlanMatchesExpected(m.actions, m.goal, store, o, fuel);
  }

  // ---- the code as written ----

  /** `is_applicable` with the condition evaluation as the code stands. */
  function ApplicableAsWritten(pre: seq<Expr>, store: Facts.FactStore, o: Oracles): (r: Result<(Facts.FactStore, bool)>)
  {
    if pre == [] then Ok((store, true))
    else
      var (s1, a) :- Condition.EvaluateAsWritten(pre[0], "", store, o);
      if a == 0.0 then Ok((s1, false)) else ApplicableAsWritten(pre[1..], s1, o)
  }

  function ApplicableActionsAsWritten(actions: seq<Action>, store: Facts.FactStore, o: Oracles): (r: Result<(Facts.FactStore, seq<Action>)>)
    ensures r.Ok? ==> |r.value.1| <= |actions|
  {
    if actions == [] then Ok((store, []))
    else
      var (s1, ok) :- ApplicableAsWritten(actions[0].preconditions, store, o);
      var (s2, rest) :- ApplicableActionsAsWritten(actions[1..], s1, o);
      Ok((s2, (if ok then [actions[0]] else []) + rest))
  }

  /** The planning loop as written: an exception from a precondition
      leaves `plan`. */
  function PlanLoopAsWritten(actions: seq<Action>, goal: seq<(string, Value)>, state: WorkingState,
                             store: Facts.FactStore, o: Oracles, fuel: nat, acc: seq<Action>): (r: (Facts.FactStore, PlanResult))
    ensures r.1.Found? ==> GoalMet(state, goal) || |r.1.steps| > |acc|
    decreases fuel
  {
    if GoalMet(state, goal) then (store, Found(acc))
    else
      match ApplicableActionsAsWritten(actions, store, o)
      case Err(e) => (store, Raised(e))
      case Ok((s1, applicable)) =>
        if applicable == [] then (s1, NoAction)
        else
          var a := applicable[0];
          match a.effects
          case EffectList(_) => (s1, Raised(AttributeError("items")))
          case EffectMap(es) =>
            if fuel == 0 then (s1, OutOfFuel)
            else PlanLoopAsWritten(actions, goal, Apply(state, es), s1, o, fuel - 1, acc + [a])
  }

  function PlanAsWritten(actions: seq<Action>, goal: seq<(string, Value)>, store: Facts.FactStore, o: Oracles, fuel: nat): (r: (Facts.FactStore, PlanResult))
    ensures r.1.Found? && r.1.steps == [] ==> GoalMet(Seed(goal, store).1, goal)
  {
    var seeded := Seed(goal, store);
    PlanLoopAsWritten(actions, goal, seeded.1, seeded.0, o, fuel, [])
  }

  function ReplanAsWritten(m: Module, c: Container, store: Facts.FactStore, o: Oracles, fuel: nat,
                           events: seq<Option<string>>): (r: Outcome)
    ensures r.container == c && r.events == events
    ensures r.flow.actions == m.actions && r.flow.goal == m.goal
  {
    var (s1, pr) := PlanAsWritten(m.actions, m.goal, store, o, fuel);
    match pr
    case Found(steps) => Outcome(m.(plan := Some(steps)), c, s1, events, Completed)
    case NoAction => Outcome(m.(plan := None), c, s1, events, Completed)
    case Raised(e) => Outcome(m, c, s1, events, Failed(e))
    case OutOfFuel => Outcome(m, c, s1, events, Diverged)
  }

  /** Executing the head as written: an exception from its condition is
      caught and counts as a failure, so `on_fail` is invoked and the
      module replans. */
  function StepAsWritten(m: Module, c: Container, store: Facts.FactStore, o: Oracles, fuel: nat): (r: Outcome)
    requires m.plan.Some? && m.plan.value != []
    ensures r.flow.actions == m.actions && r.flow.goal == m.goal
    ensures Condition.EvaluateAsWritten(m.plan.value[0].evaluator, c.input, store, o).Err? ==>
              r == ReplanAsWritten(m, c, store, o, fuel, [m.plan.value[0].onFail])
  {
    var a := m.plan.value[0];
    match Condition.EvaluateAsWritten(a.evaluator, c.input, store, o)
    case Err(_) => ReplanAsWritten(m, c, store, o, fuel, [a.onFail])
    case Ok((s1, score)) =>
      if score != 0.0 then Succeed(m, c, s1) else ReplanAsWritten(m, c, s1, o, fuel, [a.onFail])
  }

  function ProcessAsWritten(m: Module, c: Container, store: Facts.FactStore, o: Oracles, fuel: nat): (r: Outcome)
    ensures r.flow.actions == m.actions && r.flow.goal == m.goal
  {
    if m.plan.Some? && m.plan.value != [] then StepAsWritten(m, c, store, o, fuel)
    else StartPlanAsWritten(m, c, store, o, fuel)
  }

  function StartPlanAsWritten(m: Module, c: Container, store: Facts.FactStore, o: Oracles, fuel: nat): (r: Outcome)
    ensures r.flow.actions == m.actions && r.flow.goal == m.goal
  {
    var (s1, pr) := PlanAsWritten(m.actions, m.goal, store, o, fuel);
    match pr
    case Raised(e) => Outcome(m, c, s1, [], Failed(e))
    case OutOfFuel => Outcome(m, c, s1, [], Diverged)
    case NoAction => Outcome(m.(plan := None), c.(instructions := c.instructions + [GiveUp]), s1, [], Completed)
    case Found(steps) =>
      if steps == [] then Outcome(m.(plan := Some([])), c.(instructions := c.instructions + [GiveUp]), s1, [], Completed)
      else StepAsWritten(m.(plan := Some(steps)), c, s1, o, fuel)
  }

  // ---- the two agree when no condition reads a fact ----

  /** Actions none of whose conditions reads a fact. */
  predicate ReadNoFact(actions: seq<Action>) {
    forall i :: 0 <= i < |actions| ==>
      Condition.FactNames(actions[i].evaluator) == {}
      && forall j :: 0 <= j < |actions[i].preconditions| ==> Condition.FactNames(actions[i].preconditions[j]) == {}
  }

  lemma {:induction false} ApplicableAsWrittenWithoutFacts(pre: seq<Expr>, store: Facts.FactStore, o: Oracles)
    requires forall j :: 0 <= j < |pre| ==> Condition.FactNames(pre[j]) == {}
    ensures ApplicableAsWritten(pre, store, o) == Ok(Applicable(pre, store, o))
  {
    if pre != [] {
      Condition.AsWrittenAgreesWithoutFacts(pre[0], "", store, o);
      ApplicableUnfold(pre, store, o);
      var s1 := Condition.Evaluate(pre[0], "", store, o).0;
      assert forall j :: 0 <= j < |pre[1..]| ==> pre[1..][j] == pre[j + 1];
      ApplicableAsWrittenWithoutFacts(pre[1..], s1, o);
    }
  }

  lemma {:induction false} ApplicableActionsAsWrittenWithoutFacts(actions: seq<Action>, store: Facts.FactStore, o: Oracles)
    requires ReadNoFact(actions)
    ensures ApplicableActionsAsWritten(actions, store, o) == Ok(ApplicableActions(actions, store, o))
  {
    if actions != [] {
      ApplicableAsWrittenWithoutFacts(actions[0].preconditions, store, o);
      var s1 := Applicable(actions[0].preconditions, store, o).0;
      assert forall i :: 0 <= i < |actions[1..]| ==> actions[1..][i] == actions[i + 1];
      ApplicableActionsAsWrittenWithoutFacts(actions[1..], s1, o);
    }
  }

  lemma {:induction false} PlanLoopAsWrittenWithoutFacts(actions: seq<Action>, goal: seq<(string, Value)>, state: WorkingState,
                                                          store: Facts.FactStore, o: Oracles, fuel: nat, acc: seq<Action>)
    requires ReadNoFact(actions)
    ensures PlanLoopAsWritten(actions, goal, state, store, o, fuel, acc) == PlanLoop(actions, goal, state, store, o, fuel, acc)
    decreases fuel
  {
    if GoalMet(state, goal) {
      LoopsAtGoal(actions, goal, state, store, o, fuel, acc);
    } else {
      ApplicableActionsAsWrittenWithoutFacts(actions, store, o);
      var (s1, applicable) := ApplicableActions(actions, store, o);
      if applicable != [] && applicable[0].effects.EffectMap? && fuel > 0 {
        var a := applicable[0];
        var next := Apply(state, a.effects.entries);
        LoopAsWrittenGoesOn(actions, goal, state, store, o, fuel, acc);
        LoopGoesOn(actions, goal, state, store, o, fuel, acc);
        PlanLoopAsWrittenWithoutFacts(actions, goal, next, s1, o, fuel - 1, acc + [a]);
      } else {
        LoopAsWrittenStops(actions, goal, state, store, o, fuel, acc);
      }
    }
  }

  lemma LoopsAtGoal(actions: seq<Action>, goal: seq<(string, Value)>, state: WorkingState,
                    store: Facts.FactStore, o: Oracles, fuel: nat, acc: seq<Action>)
    requires GoalMet(state, goal)
    ensures PlanLoopAsWritten(actions, goal, state, store, o, fuel, acc) == (store, Found(acc))
    ensures PlanLoop(actions, goal, state, store, o, fuel, acc) == (store, Found(acc))
  {
  }

  /** One iteration of each loop, when the first ready action has effects
      to write and fuel is left. */
  lemma LoopAsWrittenGoesOn(actions: seq<Action>, goal: seq<(string, Value)>, state: WorkingState,
                            store: Facts.FactStore, o: Oracles, fuel: nat, acc: seq<Action>)
    requires !GoalMet(state, goal) && fuel > 0
    requires ApplicableActionsAsWritten(actions, store, o) == Ok(ApplicableActions(actions, store, o))
    requires ApplicableActions(actions, store, o).1 != [] && ApplicableActions(actions, store, o).1[0].effects.EffectMap?
    ensures var (s1, applicable) := ApplicableActions(actions, store, o);
      PlanLoopAsWritten(actions, goal, state, store, o, fuel, acc)
        == PlanLoopAsWritten(actions, goal, Apply(state, applicable[0].effects.entries), s1, o, fuel - 1, acc + [applicable[0]])
  {
  }

  lemma LoopGoesOn(actions: seq<Action>, goal: seq<(string, Value)>, state: WorkingState,
                   store: Facts.FactStore, o: Oracles, fuel: nat, acc: seq<Action>)
    requires !GoalMet(state, goal) && fuel > 0
    requires ApplicableActions(actions, store, o).1 != [] && ApplicableActions(actions, store, o).1[0].effects.EffectMap?
    ensures var (s1, applicable) := ApplicableActions(actions, store, o);
      PlanLoop(actions, goal, state, store, o, fuel, acc)
        == PlanLoop(actions, goal, Apply(state, applicable[0].effects.entries), s1, o, fuel - 1, acc + [applicable[0]])
  {
  }

  /** The iterations that end the loops end both the same way. */
  lemma LoopAsWrittenStops(actions: seq<Action>, goal: seq<(string, Value)>, state: WorkingState,
                           store: Facts.FactStore, o: Oracles, fuel: nat, acc: seq<Action>)
    requires !GoalMet(state, goal)
    requires ApplicableActionsAsWritten(actions, store, o) == Ok(ApplicableActions(actions, store, o))
    requires var applicable := ApplicableActions(actions, store, o).1;
      applicable == [] || applicable[0].effects.EffectList? || fuel == 0
    ensures PlanLoopAsWritten(actions, goal, state, store, o, fuel, acc) == PlanLoop(actions, goal, state, store, o, fuel, acc)
  {
  }

  lemma PlanAsWrittenWithoutFacts(actions: seq<Action>, goal: seq<(string, Value)>, store: Facts.FactStore, o: Oracles, fuel: nat)
    requires ReadNoFact(actions)
    ensures PlanAsWritten(actions, goal, store, o, fuel) == Plan(actions, goal, store, o, fuel)
  {
    var seeded := Seed(goal, store);
    PlanLoopAsWrittenWithoutFacts(actions, goal, seeded.1, seeded.0, o, fuel, []);
  }

  /** A module whose actions, and whose current plan's head, read no fact
      behaves the same as written and as intended. */
  lemma ProcessAsWrittenWithoutFacts(m: Module, c: Container, store: Facts.FactStore, o: Oracles, fuel: nat)
    requires ReadNoFact(m.actions)
    requires m.plan.Some? && m.plan.value != [] ==> Condition.FactNames(m.plan.value[0].evaluator) == {}
    ensures ProcessAsWritten(m, c, store, o, fuel) == Process(m, c, store, o, fuel)
  {
    if m.plan.Some? && m.plan.value != [] {
      Condition.AsWrittenAgreesWithoutFacts(m.plan.value[0].evaluator, c.input, store, o);
      StepAsWrittenAgrees(m, c, store, o, fuel);
    } else {
      StartPlanAsWrittenAgrees(m, c, store, o, fuel);
    }
  }

  lemma StartPlanAsWrittenAgrees(m: Module, c: Container, store: Facts.FactStore, o: Oracles, fuel: nat)
    requires ReadNoFact(m.actions)
    ensures StartPlanAsWritten(m, c, store, o, fuel) == StartPlan(m, c, store, o, fuel)
  {
    PlanAsWrittenWithoutFacts(m.actions, m.goal, store, o, fuel);
    var (s1, pr) := Plan(m.actions, m.goal, store, o, fuel);
    if pr.Found? && pr.steps != [] {
      var seeded := Seed(m.goal, store);
      LoopStepsFromActions(m.actions, m.goal, seeded.1, seeded.0, o, fuel, []);
      assert pr.steps[0] in m.actions;
      var m1 := m.(plan := Some(pr.steps));
      Condition.AsWrittenAgreesWithoutFacts(pr.steps[0].evaluator, c.input, s1, o);
      StepAsWrittenAgrees(m1, c, s1, o, fuel);
      StartPlanSteps(m, c, store, o, fuel);
    } else {
      StartPlanEnds(m, c, store, o, fuel);
    }
  }

  /** A plan with a head: both turns execute it. */
  lemma StartPlanSteps(m: Module, c: Container, store: Facts.FactStore, o: Oracles, fuel: nat)
    requires PlanAsWritten(m.actions, m.goal, store, o, fuel) == Plan(m.actions, m.goal, store, o, fuel)
    requires var pr := Plan(m.actions, m.goal, store, o, fuel).1; pr.Found? && pr.steps != []
    ensures var (s1, pr) := Plan(m.actions, m.goal, store, o, fuel);
      StartPlan(m, c, store, o, fuel) == Step(m.(plan := Some(pr.steps)), c, s1, o, fuel)
      && StartPlanAsWritten(m, c, store, o, fuel) == StepAsWritten(m.(plan := Some(pr.steps)), c, s1, o, fuel)
  {
  }

  /** No plan, or an empty one: the turn ends the same way in both. */
  lemma StartPlanEnds(m: Module, c: Container, store: Facts.FactStore, o: Oracles, fuel: nat)
    requires PlanAsWritten(m.actions, m.goal, store, o, fuel) == Plan(m.actions, m.goal, store, o, fuel)
    requires var pr := Plan(m.actions, m.goal, store, o, fuel).1; !(pr.Found? && pr.steps != [])
    ensures StartPlanAsWritten(m, c, store, o, fuel) == StartPlan(m, c, store, o, fuel)
  {
    var (s1, pr) := Plan(m.actions, m.goal, store, o, fuel);
    var expected :=
      match pr
      case Raised(e) => Outcome(m, c, s1, [], Failed(e))
      case OutOfFuel => Outcome(m, c, s1, [], Diverged)
      case NoAction => Outcome(m.(plan := None), c.(instructions := c.instructions + [GiveUp]), s1, [], Completed)
      case Found(_) => Outcome(m.(plan := Some([])), c.(instructions := c.instructions + [GiveUp]), s1, [], Completed);
    assert StartPlan(m, c, store, o, fuel) == expected;
    assert StartPlanAsWritten(m, c, store, o, fuel) == expected;
  }

  /** With the head's condition agreeing, and the planner's
      preconditions reading no fact, executing the head agrees. */
  lemma StepAsWrittenAgrees(m: Module, c: Container, store: Facts.FactStore, o: Oracles, fuel: nat)
    requires m.plan.Some? && m.plan.value != [] && ReadNoFact(m.actions)
    requires Condition.EvaluateAsWritten(m.plan.value[0].evaluator, c.input, store, o)
             == Ok(Condition.Evaluate(m.plan.value[0].evaluator, c.input, store, o))
    ensures StepAsWritten(m, c, store, o, fuel) == Step(m, c, store, o, fuel)
  {
    var a := m.plan.value[0];
    var (s1, score) := Condition.Evaluate(a.evaluator, c.input, store, o);
    if score != 0.0 {
      assert Step(m, c, store, o, fuel) == Succeed(m, c, s1);
      assert StepAsWritten(m, c, store, o, fuel) == Succeed(m, c, s1);
    } else {
      PlanAsWrittenWithoutFacts(m.actions, m.goal, s1, o, fuel);
      ReplanAgrees(m, c, s1, o, fuel, [a.onFail]);
      assert Step(m, c, store, o, fuel) == Replan(m, c, s1, o, fuel, [a.onFail]);
      assert StepAsWritten(m, c, store, o, fuel) == ReplanAsWritten(m, c, s1, o, fuel, [a.onFail]);
    }
  }

  lemma ReplanAgrees(m: Module, c: Container, store: Facts.FactStore, o: Oracles, fuel: nat, events: seq<Option<string>>)
    requires PlanAsWritten(m.actions, m.goal, store, o, fuel) == Plan(m.actions, m.goal, store, o, fuel)
    ensures ReplanAsWritten(m, c, store, o, fuel, events) == Replan(m, c, store, o, fuel, events)
  {
    var (s1, pr) := Plan(m.actions, m.goal, store, o, fuel);
    var expected :=
      match pr
      case Found(steps) => Outcome(m.(plan := Some(steps)), c, s1, events, Completed)
      case NoAction => Outcome(m.(plan := None), c, s1, events, Completed)
      case Raised(e) => Outcome(m, c, s1, events, Failed(e))
      case OutOfFuel => Outcome(m, c, s1, events, Diverged);
    assert Replan(m, c, store, o, fuel, events) == expected;
    assert ReplanAsWritten(m, c, store, o, fuel, events) == expected;
  }

  lemma {:induction false} ReadyFromActions(actions: seq<Action>, store: Facts.FactStore, o: Oracles)
    ensures forall a :: a in ReadyActions(actions, store, o) ==> a in actions
  {
    if actions != [] {
      ReadyFromActions(actions[1..], store, o);
      assert forall a :: a in actions[1..] ==> a in actions;
    }
  }

  /** Every step of a plan is one of the module's actions. */
  lemma {:induction false} LoopStepsFromActions(actions: seq<Action>, goal: seq<(string, Value)>, state: WorkingState,
                                               store: Facts.FactStore, o: Oracles, fuel: nat, acc: seq<Action>)
    requires forall a :: a in acc ==> a in actions
    ensures var r := PlanLoop(actions, goal, state, store, o, fuel, acc).1;
      r.Found? ==> forall a :: a in r.steps ==> a in actions
    decreases fuel
  {
    if !GoalMet(state, goal) {
      var (s1, applicable) := ApplicableActions(actions, store, o);
      ReadyFromActions(actions, store, o);
      if applicable != [] && applicable[0].effects.EffectMap? && fuel > 0 {
        assert applicable[0] in actions;
        LoopStepsFromActions(actions, goal, Apply(state, applicable[0].effects.entries), s1, o, fuel - 1, acc + [applicable[0]]);
      }
    }
  }

  /** The discrepancy: a head action whose condition reads a fact that
      has been set always fails as written, invoking `on_fail` and
      replanning, where the intended module executes it when the fact's
      value scores nonzero. */
  lemma KnownFactActionFails(m: Module, c: Container, store: Facts.FactStore, o: Oracles, fuel: nat, name: string)
    requires m.plan.Some? && m.plan.value != []
    requires m.plan.value[0].evaluator == FactRef(name) && name in store
    ensures ProcessAsWritten(m, c, store, o, fuel) == ReplanAsWritten(m, c, store, o, fuel, [m.plan.value[0].onFail])
    ensures Condition.FactScore(store[name].value) != 0.0 ==>
              Process(m, c, store, o, fuel).status == Completed
              && Process(m, c, store, o, fuel).flow.plan == Some(m.plan.value[1..])
  {
  }
}
