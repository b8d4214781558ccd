/** The behaviour-tree personality: a tree of sequence, selector, condition
    and action nodes loaded from nested configuration entries, run once per
    turn after the personality's description has been added. */
module BehaviourTree {
  import opened Basics
  import opened Models
  import opened Parser
  import opened Containers
  import Condition
  import Facts

  /** A node entry of the configuration (absent keys are `None`). A
      callback written as null is present but `None`. */
  datatype NodeConfig = NodeConfig(
    nodeType: Option<string>, children: Children, condition: Option<string>,
    template: Option<string>, callback: Option<Option<string>>, mode: Option<string>)

  /** The `children` entry of a node entry, present or not. */
  datatype Children = NoChildren | ChildList(configs: seq<NodeConfig>)

  datatype Node =
    | Sequence(children: seq<Node>)
    | Selector(children: seq<Node>)
    | ConditionNode(condition: Expr)
    | ActionNode(template: string, callback: Option<string>, mode: string)

  const AppendMode: string := "append"
  const OverwriteMode: string := "overwrite"

  /** `BTNode.from_dict`: the type is required; composites require their
      children, built in order; a condition node requires and compiles its
      condition; an action node requires its template, then its callback,
      and defaults its mode to `"append"`; any other type is rejected. */
  function BuildNode(cfg: NodeConfig, o: Oracles, k: nat): (r: Result<Node>)
    ensures cfg.nodeType.None? ==> r == Err(KeyError("type"))
    ensures cfg.nodeType.Some? && cfg.nodeType.value !in {"sequence", "selector", "condition", "action"} ==>
              r == Err(UnknownNodeType(cfg.nodeType.value))
    ensures cfg.nodeType == Some("sequence") || cfg.nodeType == Some("selector") ==>
              (cfg.children.NoChildren? ==> r == Err(KeyError("children")))
              && (r.Ok? ==> (r.value.Sequence? || r.value.Selector?) && |r.value.children| == |cfg.children.configs|)
              && (cfg.children.ChildList? ==>
                    && (r.Ok? <==> BuildChildren(cfg.children.configs, cfg, o, k).Ok?)
                    && (r.Ok? ==> r.value.children == BuildChildren(cfg.children.configs, cfg, o, k).value)
                    && (r.Err? ==> r.error == BuildChildren(cfg.children.configs, cfg, o, k).error))
    ensures cfg.nodeType == Some("sequence") && r.Ok? ==> r.value.Sequence?
    ensures cfg.nodeType == Some("selector") && r.Ok? ==> r.value.Selector?
    ensures cfg.nodeType == Some("condition") ==>
              (cfg.condition.None? ==> r == Err(KeyError("condition")))
              && (cfg.condition.Some? ==> r == (match Compile(cfg.condition.value, o, k)
                                                case Ok(e) => Ok(ConditionNode(e))
                                                case Err(e) => Err(e)))
    ensures cfg.nodeType == Some("action") ==>
              (cfg.template.None? ==> r == Err(KeyError("template")))
              && (cfg.template.Some? && cfg.callback.None? ==> r == Err(KeyError("callback")))
              && (cfg.template.Some? && cfg.callback.Some? ==>
                    r == Ok(ActionNode(cfg.template.value, cfg.callback.value,
                                       if cfg.mode.Some? then cfg.mode.value else AppendMode)))
    decreases cfg, 1
  {
    if cfg.nodeType.None? then Err(KeyError("type"))
    else
      var t := cfg.nodeType.value;
      if t == "sequence" || t == "selector" then
        if cfg.children.NoChildren? then Err(KeyError("children"))
        else
          var cs :- BuildChildren(cfg.children.configs, cfg, o, k);
          Ok(if t == "sequence" then Sequence(cs) else Selector(cs))
      else if t == "condition" then
        if cfg.condition.None? then Err(KeyError("condition"))
        else
          var e :- Compile(cfg.condition.value, o, k);
          Ok(ConditionNode(e))
      else if t == "action" then
        if cfg.template.None? then Err(KeyError("template"))
        else if cfg.callback.None? then Err(KeyError("callback"))
        else Ok(ActionNode(cfg.template.value, cfg.callback.value, cfg.mode.GetOr(AppendMode)))
      else Err(UnknownNodeType(t))
  }

  /** The children of a composite entry, in order; the first bad child
      aborts. */
  function BuildChildren(cs: seq<NodeConfig>, ghost parent: NodeConfig, o: Oracles, k: nat): (r: Result<seq<Node>>)
    requires forall i :: 0 <= i < |cs| ==> cs[i] < parent
    ensures r.Ok? <==> forall i :: 0 <= i < |cs| ==> BuildNode(cs[i], o, k).Ok?
    ensures r.Ok? ==> |r.value| == |cs| && forall i :: 0 <= i < |cs| ==> r.value[i] == BuildNode(cs[i], o, k).value
    ensures r.Err? ==> exists i :: 0 <= i < |cs| && BuildNode(cs[i], o, k).Err? && r.error == BuildNode(cs[i], o, k).error
                                   && forall j :: 0 <= j < i ==> BuildNode(cs[j], o, k).Ok?
    decreases parent, 0, |cs|
  {
    if cs == [] then Ok([])
    else
      match BuildNode(cs[0], o, k)
      case Err(e) => Err(e)
      case Ok(n) =>
        match BuildChildren(cs[1..], parent, o, k)
        case Err(e) => Err(e)
        case Ok(rest) => Ok([n] + rest)
  }

  /** When a node entry loads, stated without building it: the type is
      one of the four, a composite has children that all load, a condition
      node has a condition that compiles, an action node has a template and
      a callback. */
  predicate Loads(cfg: NodeConfig, o: Oracles, k: nat) {
    match cfg.nodeType
    case None => false
    case Some(t) =>
      if t == "sequence" || t == "selector" then
        match cfg.children
        case NoChildren => false
        case ChildList(cs) => forall i :: 0 <= i < |cs| ==> Loads(cs[i], o, k)
      else if t == "condition" then cfg.condition.Some? && Compile(cfg.condition.value, o, k).Ok?
      else if t == "action" then cfg.template.Some? && cfg.callback.Some?
      else false
  }

  /** A whole tree loads exactly when every entry in it is well formed. */
  lemma {:induction false} BuildNodeLoads(cfg: NodeConfig, o: Oracles, k: nat)
    ensures BuildNode(cfg, o, k).Ok? <==> Loads(cfg, o, k)
  {
    if cfg.nodeType == Some("sequence") || cfg.nodeType == Some("selector") {
      if cfg.children.ChildList? {
        var cs := cfg.children.configs;
        forall i | 0 <= i < |cs| ensures BuildNode(cs[i], o, k).Ok? <==> Loads(cs[i], o, k) {
          BuildNodeLoads(cs[i], o, k);
        }
      }
    }
  }

  /** What running a node did: the container and store afterwards, the
      events invoked in order, and the node's result. */
  datatype Run = Run(container: Container, store: Facts.FactStore, events: seq<Option<string>>, ok: bool)

  /** The result a node has, stated without running it: an action always
      succeeds, a condition when it scores nonzero, a sequence when all its
      children do, a selector when one of them does. */
  predicate Holds(n: Node, input: string, store: Facts.FactStore, o: Oracles) {
    match n
    case Sequence(cs) => forall i :: 0 <= i < |cs| ==> Holds(cs[i], input, store, o)
    case Selector(cs) => exists i :: 0 <= i < |cs| && Holds(cs[i], input, store, o)
    case ConditionNode(e) => Condition.Score(e, input, store, o) != 0.0
    case ActionNode(_, _, _) => true
  }

  lemma {:induction false} HoldsOnSameValues(n: Node, input: string, a: Facts.FactStore, b: Facts.FactStore, o: Oracles)
    requires forall x :: Facts.ValueOf(a, x) == Facts.ValueOf(b, x)
    ensures Holds(n, input, a, o) <==> Holds(n, input, b, o)
  {
    match n
    case Sequence(cs) =>
      forall i | 0 <= i < |cs| ensures Holds(cs[i], input, a, o) <==> Holds(cs[i], input, b, o) {
        HoldsOnSameValues(cs[i], input, a, b, o);
      }
    case Selector(cs) =>
      forall i | 0 <= i < |cs| ensures Holds(cs[i], input, a, o) <==> Holds(cs[i], input, b, o) {
        HoldsOnSameValues(cs[i], input, a, b, o);
      }
    case ConditionNode(e) =>
      Condition.ScoreReadsValuesOnly(e, input, a, b, o);
    case ActionNode(_, _, _) =>
  }

  /** The effect of an action node on the instructions. */
  function Act(template: string, mode: string, instructions: seq<string>): seq<string> {
    if mode == OverwriteMode then [template] else instructions + [template]
  }

  /** `run`. Only the instructions of the container change; the result is
      the one `Holds` states, because the input never changes and conditions
      only register the facts they read. */
  function RunNode(n: Node, c: Container, store: Facts.FactStore, o: Oracles): (r: Run)
    ensures r.container == c.(instructions := r.container.instructions)
    ensures r.ok == Holds(n, c.input, store, o)
    ensures Condition.Grows(store, r.store)
    decreases n, 1
  {
    match n
    case Sequence(cs) => RunSequence(cs, n, c, store, o)
    case Selector(cs) => RunSelector(cs, n, c, store, o)
    case ConditionNode(e) =>
      var (s, v) := Condition.Evaluate(e, c.input, store, o);
      Condition.RegisteredGrows(store, s, Condition.FactNames(e));
      Run(c, s, [], v != 0.0)
    case ActionNode(t, cb, mode) =>
      Run(c.(instructions := Act(t, mode, c.instructions)), store, [cb], true)
  }

  /** `SequenceNode.run`: stops at the first child that fails. */
  function RunSequence(cs: seq<Node>, ghost parent: Node, c: Container, store: Facts.FactStore, o: Oracles): (r: Run)
    requires forall x :: x in cs ==> x < parent
    ensures r.container == c.(instructions := r.container.instructions)
    ensures r.ok <==> forall i :: 0 <= i < |cs| ==> Holds(cs[i], c.input, store, o)
    ensures Condition.Grows(store, r.store)
    decreases parent, 0, |cs|
  {
    if cs == [] then Run(c, store, [], true)
    else
      assert cs[0] in cs && forall x :: x in cs[1..] ==> x in cs;
      var first := RunNode(cs[0], c, store, o);
      if !first.ok then first
      else
        var rest := RunSequence(cs[1..], parent, first.container, first.store, o);
        Condition.GrowsKeepsValues(store, first.store);
        Condition.GrowsTransitive(store, first.store, rest.store);
        forall i | 1 <= i < |cs|
          ensures Holds(cs[i], c.input, store, o) <==> Holds(cs[1..][i - 1], c.input, first.store, o)
        {
          assert cs[1..][i - 1] == cs[i];
          HoldsOnSameValues(cs[i], c.input, store, first.store, o);
        }
        Run(rest.container, rest.store, first.events + rest.events, rest.ok)
  }

  /** `SelectorNode.run`: stops at the first child that succeeds. */
  function RunSelector(cs: seq<Node>, ghost parent: Node, c: Container, store: Facts.FactStore, o: Oracles): (r: Run)
    requires forall x :: x in cs ==> x < parent
    ensures r.container == c.(instructions := r.container.instructions)
    ensures r.ok <==> exists i :: 0 <= i < |cs| && Holds(cs[i], c.input, store, o)
    ensures Condition.Grows(store, r.store)
    decreases parent, 0, |cs|
  {
    if cs == [] then Run(c, store, [], false)
    else
      assert cs[0] in cs && forall x :: x in cs[1..] ==> x in cs;
      var first := RunNode(cs[0], c, store, o);
      if first.ok then first
      else
        var rest := RunSelector(cs[1..], parent, first.container, first.store, o);
        Condition.GrowsKeepsValues(store, first.store);
        Condition.GrowsTransitive(store, first.store, rest.store);
        forall i | 1 <= i < |cs|
          ensures Holds(cs[i], c.input, store, o) <==> Holds(cs[1..][i - 1], c.input, first.store, o)
        {
          assert cs[1..][i - 1] == cs[i];
          HoldsOnSameValues(cs[i], c.input, store, first.store, o);
        }
        Run(rest.container, rest.store, first.events + rest.events, rest.ok)
  }

  /** A tree without action nodes. */
  predicate ActionFree(n: Node) {
    match n
    case Sequence(cs) => forall i :: 0 <= i < |cs| ==> ActionFree(cs[i])
    case Selector(cs) => forall i :: 0 <= i < |cs| ==> ActionFree(cs[i])
    case ConditionNode(_) => true
    case ActionNode(_, _, _) => false
  }

  /** Without action nodes a run invokes no event and leaves the container
      as it was. */
  lemma {:induction false} ActionFreeRunIsPure(n: Node, c: Container, store: Facts.FactStore, o: Oracles)
    requires ActionFree(n)
    ensures RunNode(n, c, store, o).container == c && RunNode(n, c, store, o).events == []
    decreases n, 1
  {
    match n
    case Sequence(cs) => ActionFreeSequenceIsPure(cs, n, c, store, o);
    case Selector(cs) => ActionFreeSelectorIsPure(cs, n, c, store, o);
    case ConditionNode(_) =>
  }

  lemma {:induction false} ActionFreeSequenceIsPure(cs: seq<Node>, parent: Node, c: Container, store: Facts.FactStore, o: Oracles)
    requires forall x :: x in cs ==> x < parent
    requires forall i :: 0 <= i < |cs| ==> ActionFree(cs[i])
    ensures RunSequence(cs, parent, c, store, o).container == c && RunSequence(cs, parent, c, store, o).events == []
    decreases parent, 0, |cs|
  {
    if cs != [] {
      assert cs[0] in cs && forall x :: x in cs[1..] ==> x in cs;
      ActionFreeRunIsPure(cs[0], c, store, o);
      var first := RunNode(cs[0], c, store, o);
      assert forall i :: 1 <= i < |cs| ==> cs[1..][i - 1] == cs[i];
      ActionFreeSequenceIsPure(cs[1..], parent, c, first.store, o);
    }
  }

  lemma {:induction false} ActionFreeSelectorIsPure(cs: seq<Node>, parent: Node, c: Container, store: Facts.FactStore, o: Oracles)
    requires forall x :: x in cs ==> x < parent
    requires forall i :: 0 <= i < |cs| ==> ActionFree(cs[i])
    ensures RunSelector(cs, parent, c, store, o).container == c && RunSelector(cs, parent, c, store, o).events == []
    decreases parent, 0, |cs|
  {
    if cs != [] {
      assert cs[0] in cs && forall x :: x in cs[1..] ==> x in cs;
      ActionFreeRunIsPure(cs[0], c, store, o);
      var first := RunNode(cs[0], c, store, o);
      assert forall i :: 1 <= i < |cs| ==> cs[1..][i - 1] == cs[i];
      ActionFreeSelectorIsPure(cs[1..], parent, c, first.store, o);
    }
  }

  /** A guarded action, `sequence [condition, action]`: the action runs,
      invoking its callback and changing the instructions, exactly when the
      condition scores nonzero. */
  lemma GuardedAction(e: Expr, template: string, callback: Option<string>, mode: string,
                      c: Container, store: Facts.FactStore, o: Oracles)
    ensures var r := RunNode(Sequence([ConditionNode(e), ActionNode(template, callback, mode)]), c, store, o);
      (Condition.Score(e, c.input, store, o) != 0.0 ==>
         r.events == [callback] && r.container.instructions == Act(template, mode, c.instructions))
      && (Condition.Score(e, c.input, store, o) == 0.0 ==> r.events == [] && r.container == c)
  {
    var action := ActionNode(template, callback, mode);
    var cs := [ConditionNode(e), action];
    var n := Sequence(cs);
    var first := RunNode(ConditionNode(e), c, store, o);
    if first.ok {
      assert cs[1..] == [action];
      var acted := RunNode(action, c, first.store, o);
      assert RunSequence([action], n, c, first.store, o).events == acted.events + [];
      assert RunSequence(cs, n, c, store, o).events == first.events + RunSequence([action], n, c, first.store, o).events;
    }
  }

  /** A selector whose first child fails goes on with the rest, on the
      store the first child left. */
  lemma SelectorFallsThrough(cs: seq<Node>, parent: Node, c: Container, store: Facts.FactStore, o: Oracles)
    requires forall x :: x in cs ==> x < parent
    requires cs != [] && !RunNode(cs[0], c, store, o).ok
    ensures var first := RunNode(cs[0], c, store, o);
            assert forall x :: x in cs[1..] ==> x in cs;
            var rest := RunSelector(cs[1..], parent, first.container, first.store, o);
            RunSelector(cs, parent, c, store, o).events == first.events + rest.events
            && RunSelector(cs, parent, c, store, o).container == rest.container
            && RunSelector(cs, parent, c, store, o).ok == rest.ok
  {
  }

  /** A selector whose guards all fail without acting falls through to
      its last child, a fallback action: the action runs and the selector
      succeeds. */
  lemma FallbackAction(guards: seq<Node>, template: string, callback: Option<string>, mode: string,
                       c: Container, store: Facts.FactStore, o: Oracles)
    requires forall i :: 0 <= i < |guards| ==> ActionFree(guards[i]) && !Holds(guards[i], c.input, store, o)
    ensures var r := RunNode(Selector(guards + [ActionNode(template, callback, mode)]), c, store, o);
      r.ok && r.events == [callback] && r.container.instructions == Act(template, mode, c.instructions)
  {
    var n := Selector(guards + [ActionNode(template, callback, mode)]);
    FallsToAction(guards, template, callback, mode, n, c, store, o);
  }

  lemma {:induction false} FallsToAction(guards: seq<Node>, template: string, callback: Option<string>, mode: string,
                                         parent: Node, c: Container, store: Facts.FactStore, o: Oracles)
    requires forall x :: x in guards + [ActionNode(template, callback, mode)] ==> x < parent
    requires forall i :: 0 <= i < |guards| ==> ActionFree(guards[i]) && !Holds(guards[i], c.input, store, o)
    ensures var r := RunSelector(guards + [ActionNode(template, callback, mode)], parent, c, store, o);
      r.ok && r.events == [callback] && r.container.instructions == Act(template, mode, c.instructions)
    decreases |guards|
  {
    var action := ActionNode(template, callback, mode);
    var cs := guards + [action];
    if guards == [] {
      assert cs == [action] && cs[1..] == [];
    } else {
      assert cs[0] == guards[0] && cs[1..] == guards[1..] + [action];
      ActionFreeRunIsPure(guards[0], c, store, o);
      var first := RunNode(cs[0], c, store, o);
      Condition.GrowsKeepsValues(store, first.store);
      forall i | 0 <= i < |guards[1..]|
        ensures ActionFree(guards[1..][i]) && !Holds(guards[1..][i], c.input, first.store, o)
      {
        assert guards[1..][i] == guards[i + 1];
        HoldsOnSameValues(guards[i + 1], c.input, store, first.store, o);
      }
      assert forall x :: x in cs[1..] ==> x in cs;
      FallsToAction(guards[1..], template, callback, mode, parent, c, first.store, o);
      SelectorFallsThrough(cs, parent, c, store, o);
    }
  }

  /** The personality's configuration. */
  datatype TreeConfig = TreeConfig(description: Option<string>, tree: Option<NodeConfig>)

  datatype TreePersonality = TreePersonality(description: string, root: Node)

  /** `BehaviorTreePersonalityModule.__init__`: the `behavior_tree` entry is
      required. */
  function Build(cfg: TreeConfig, o: Oracles, k: nat): (r: Result<TreePersonality>)
    ensures cfg.tree.None? ==> r == Err(KeyError("behavior_tree"))
    ensures cfg.tree.Some? ==> (r.Ok? <==> BuildNode(cfg.tree.value, o, k).Ok?)
    ensures r.Ok? ==> r.value.root == BuildNode(cfg.tree.value, o, k).value
    ensures r.Ok? ==> r.value.description == (if cfg.description.Some? then cfg.description.value else "")
  {
    if cfg.tree.None? then Err(KeyError("behavior_tree"))
    else
      var root :- BuildNode(cfg.tree.value, o, k);
      Ok(TreePersonality(cfg.description.GetOr(""), root))
  }

  /** `process`: the description is added to the personality lines, then
      the tree runs once; its result is not used. */
  function Process(p: TreePersonality, c: Container, store: Facts.FactStore, o: Oracles): (r: Run)
    ensures r.container.personality == c.personality + [p.description]
    ensures r.container.input == c.input && r.container.history == c.history && r.container.facts == c.facts
    ensures r.container.urgency == c.urgency && r.container.freedom == c.freedom
    ensures Condition.Grows(store, r.store)
  {
    RunNode(p.root, c.(personality := c.personality + [p.description]), store, o)
  }

  // ---- the code as written ----

  /** `run` with the condition evaluation as the code stands: an exception
      from a condition node leaves the whole tree. */
  function RunNodeAsWritten(n: Node, c: Container, store: Facts.FactStore, o: Oracles): (r: Result<Run>)
    ensures r.Ok? ==> r.value.container == c.(instructions := r.value.container.instructions)
    decreases n, 1
  {
    match n
    case Sequence(cs) => RunSequenceAsWritten(cs, n, c, store, o)
    case Selector(cs) => RunSelectorAsWritten(cs, n, c, store, o)
    case ConditionNode(e) =>
      var (s, v) :- Condition.EvaluateAsWritten(e, c.input, store, o);
      Ok(Run(c, s, [], v != 0.0))
    case ActionNode(t, cb, mode) =>
      Ok(Run(c.(instructions := Act(t, mode, c.instructions)), store, [cb], true))
  }

  function RunSequenceAsWritten(cs: seq<Node>, ghost parent: Node, c: Container, store: Facts.FactStore, o: Oracles): (r: Result<Run>)
    requires forall x :: x in cs ==> x < parent
    ensures r.Ok? ==> r.value.container == c.(instructions := r.value.container.instructions)
    decreases parent, 0, |cs|
  {
    if cs == [] then Ok(Run(c, store, [], true))
    else
      assert cs[0] in cs && forall x :: x in cs[1..] ==> x in cs;
      var first :- RunNodeAsWritten(cs[0], c, store, o);
      if !first.ok then Ok(first)
      else
        var rest :- RunSequenceAsWritten(cs[1..], parent, first.container, first.store, o);
        Ok(Run(rest.container, rest.store, first.events + rest.events, rest.ok))
  }

  function RunSelectorAsWritten(cs: seq<Node>, ghost parent: Node, c: Container, store: Facts.FactStore, o: Oracles): (r: Result<Run>)
    requires forall x :: x in cs ==> x < parent
    ensures r.Ok? ==> r.value.container == c.(instructions := r.value.container.instructions)
    decreases parent, 0, |cs|
  {
    if cs == [] then Ok(Run(c, store, [], false))
    else
      assert cs[0] in cs && forall x :: x in cs[1..] ==> x in cs;
      var first :- RunNodeAsWritten(cs[0], c, store, o);
      if first.ok then Ok(first)
      else
        var rest :- RunSelectorAsWritten(cs[1..], parent, first.container, first.store, o);
        Ok(Run(rest.container, rest.store, first.events + rest.events, rest.ok))
  }

  function ProcessAsWritten(p: TreePersonality, c: Container, store: Facts.FactStore, o: Oracles): (r: Result<Run>)
    ensures r.Ok? ==> r.value.container.personality == c.personality + [p.description]
  {
    RunNodeAsWritten(p.root, c.(personality := c.personality + [p.description]), store, o)
  }

  /** A tree none of whose conditions reads a fact. */
  predicate ReadsNoFact(n: Node) {
    match n
    case Sequence(cs) => forall i :: 0 <= i < |cs| ==> ReadsNoFact(cs[i])
    case Selector(cs) => forall i :: 0 <= i < |cs| ==> ReadsNoFact(cs[i])
    case ConditionNode(e) => Condition.FactNames(e) == {}
    case ActionNode(_, _, _) => true
  }

  /** A tree whose conditions read no fact runs the same as written and as
      intended. */
  lemma {:induction false} RunAsWrittenWithoutFacts(n: Node, c: Container, store: Facts.FactStore, o: Oracles)
    requires ReadsNoFact(n)
    ensures RunNodeAsWritten(n, c, store, o) == Ok(RunNode(n, c, store, o))
    decreases n, 1
  {
    match n
    case Sequence(cs) => SequenceAsWrittenWithoutFacts(cs, n, c, store, o);
    case Selector(cs) => SelectorAsWrittenWithoutFacts(cs, n, c, store, o);
    case ConditionNode(e) => Condition.AsWrittenAgreesWithoutFacts(e, c.input, store, o);
    case ActionNode(_, _, _) =>
  }

  lemma {:induction false} SequenceAsWrittenWithoutFacts(cs: seq<Node>, parent: Node, c: Container, store: Facts.FactStore, o: Oracles)
    requires forall x :: x in cs ==> x < parent
    requires forall i :: 0 <= i < |cs| ==> ReadsNoFact(cs[i])
    ensures RunSequenceAsWritten(cs, parent, c, store, o) == Ok(RunSequence(cs, parent, c, store, o))
    decreases parent, 0, |cs|
  {
    if cs != [] {
      assert cs[0] in cs && forall x :: x in cs[1..] ==> x in cs;
      RunAsWrittenWithoutFacts(cs[0], c, store, o);
      var first := RunNode(cs[0], c, store, o);
      assert forall i :: 1 <= i < |cs| ==> cs[1..][i - 1] == cs[i];
      SequenceAsWrittenWithoutFacts(cs[1..], parent, first.container, first.store, o);
    }
  }

  lemma {:induction false} SelectorAsWrittenWithoutFacts(cs: seq<Node>, parent: Node, c: Container, store: Facts.FactStore, o: Oracles)
    requires forall x :: x in cs ==> x < parent
    requires forall i :: 0 <= i < |cs| ==> ReadsNoFact(cs[i])
    ensures RunSelectorAsWritten(cs, parent, c, store, o) == Ok(RunSelector(cs, parent, c, store, o))
    decreases parent, 0, |cs|
  {
    if cs != [] {
      assert cs[0] in cs && forall x :: x in cs[1..] ==> x in cs;
      RunAsWrittenWithoutFacts(cs[0], c, store, o);
      var first := RunNode(cs[0], c, store, o);
      assert forall i :: 1 <= i < |cs| ==> cs[1..][i - 1] == cs[i];
      SelectorAsWrittenWithoutFacts(cs[1..], parent, first.container, first.store, o);
    }
  }

  lemma ProcessAsWrittenWithoutFacts(p: TreePersonality, c: Container, store: Facts.FactStore, o: Oracles)
    requires ReadsNoFact(p.root)
    ensures ProcessAsWritten(p, c, store, o) == Ok(Process(p, c, store, o))
  {
    RunAsWrittenWithoutFacts(p.root, c.(personality := c.personality + [p.description]), store, o);
  }

  /** The discrepancy: a guard that reads a fact that has been set makes
      the whole turn raise, where the intended run goes on to the next
      child. */
  lemma KnownFactGuardRaises(name: string, rest: seq<Node>, description: string, c: Container, store: Facts.FactStore, o: Oracles)
    requires name in store
    ensures ProcessAsWritten(TreePersonality(description, Selector([ConditionNode(FactRef(name))] + rest)), c, store, o)
            == Err(AttributeError("get"))
  {
    var guard := ConditionNode(FactRef(name));
    var cs := [guard] + rest;
    var c1 := c.(personality := c.personality + [description]);
    assert cs[0] == guard;
    assert Condition.EvaluateAsWritten(FactRef(name), c1.input, store, o) == Err(AttributeError("get"));
    assert RunNodeAsWritten(guard, c1, store, o) == Err(AttributeError("get"));
    assert RunSelectorAsWritten(cs, Selector(cs), c1, store, o) == Err(AttributeError("get"));
  }
}
