/** The rule-based personality: named rules, each a condition with a
    template, a freedom level and a type, loaded from a mapping; on every
    turn the personality's description is added and each rule whose freedom
    admits the container's and whose condition clears the threshold either
    appends its template to the instructions or replaces them all. */
module Rules {
  import opened Basics
  import opened Models
  import opened Parser
  import opened Containers
  import Condition
  import Facts

  /** A rule entry of the configuration (absent keys are `None`). */
  datatype RuleConfig = RuleConfig(
    template: Option<string>, condition: Option<string>, freedom: Option<real>,
    ruleType: Option<string>, callback: Option<string>)

  datatype Rule = Rule(
    name: string, template: string, condition: Expr, freedom: real, ruleType: string, callback: Option<string>)

  const RuleFreedom: real := 0.5
  const InsertType: string := "insert"
  const OverwriteType: string := "overwrite"

  /** The personality's default firing threshold. */
  const DefaultThreshold: real := 0.8

  /** One entry of `Rule.parse_rules`. The keyword arguments are evaluated
      in order: `template` is required first, then `condition`, which is
      compiled on the spot; freedom defaults to 0.5 and the type to
      `"insert"`. */
  function ParseRule(name: string, cfg: RuleConfig, o: Oracles, k: nat): (r: Result<Rule>)
    ensures cfg.template.None? ==> r == Err(KeyError("template"))
    ensures cfg.template.Some? && cfg.condition.None? ==> r == Err(KeyError("condition"))
    ensures cfg.template.Some? && cfg.condition.Some? ==>
              (r.Ok? <==> Compile(cfg.condition.value, o, k).Ok?)
              && (r.Err? ==> r.error == Compile(cfg.condition.value, o, k).error)
    ensures r.Ok? ==> r.value == Rule(name, cfg.template.value, Compile(cfg.condition.value, o, k).value,
                                      if cfg.freedom.Some? then cfg.freedom.value else RuleFreedom,
                                      if cfg.ruleType.Some? then cfg.ruleType.value else InsertType,
                                      cfg.callback)
  {
    if cfg.template.None? then Err(KeyError("template"))
    else if cfg.condition.None? then Err(KeyError("condition"))
    else
      var cond :- Compile(cfg.condition.value, o, k);
      Ok(Rule(name, cfg.template.value, cond, cfg.freedom.GetOr(RuleFreedom), cfg.ruleType.GetOr(InsertType), cfg.callback))
  }

  /** `Rule.parse_rules`: one rule per entry, in order; the first bad entry
      aborts. */
  function ParseRules(entries: seq<(string, RuleConfig)>, o: Oracles, k: nat): (r: Result<seq<Rule>>)
    ensures r.Ok? <==> forall i :: 0 <= i < |entries| ==> ParseRule(entries[i].0, entries[i].1, o, k).Ok?
    ensures r.Ok? ==> |r.value| == |entries|
    ensures r.Ok? ==> forall i :: 0 <= i < |entries| ==> r.value[i] == ParseRule(entries[i].0, entries[i].1, o, k).value
    ensures r.Err? ==> exists i :: 0 <= i < |entries| && ParseRule(entries[i].0, entries[i].1, o, k).Err?
                                   && r.error == ParseRule(entries[i].0, entries[i].1, o, k).error
                                   && forall j :: 0 <= j < i ==> ParseRule(entries[j].0, entries[j].1, o, k).Ok?
  {
    Collect(entries, (e: (string, RuleConfig)) => ParseRule(e.0, e.1, o, k))
  }

  /** The personality's configuration: `rules` is a mapping when present. */
  datatype PersonalityConfig = PersonalityConfig(description: Option<string>, rules: Option<seq<(string, RuleConfig)>>)

  datatype Personality = Personality(description: string, rules: seq<Rule>, threshold: real)

  /** `SimplePersonalityModule.__init__`. A missing `rules` entry defaults
      to an empty list, which has no `items`, so loading fails. The
      module's `paraphrasings` argument lands in the `events` parameter of
      `parse_rules`, so rules are always compiled without paraphrases. */
  function Build(cfg: PersonalityConfig, o: Oracles, threshold: real): (r: Result<Personality>)
    ensures cfg.rules.None? ==> r == Err(AttributeError("items"))
    ensures cfg.rules.Some? ==> (r.Ok? <==> ParseRules(cfg.rules.value, o, 0).Ok?)
    ensures r.Ok? ==> r.value.rules == ParseRules(cfg.rules.value, o, 0).value
    ensures r.Ok? ==> r.value.description == (if cfg.description.Some? then cfg.description.value else "")
    ensures r.Ok? ==> r.value.threshold == threshold
  {
    if cfg.rules.None? then Err(AttributeError("items"))
    else
      var rules :- ParseRules(cfg.rules.value, o, 0);
      Ok(Personality(cfg.description.GetOr(""), rules, threshold))
  }

  /** A rule fires when its freedom is at least the container's and its
      condition scores at least the threshold on the input. */
  predicate Fires(rule: Rule, c: Container, store: Facts.FactStore, o: Oracles, threshold: real) {
    rule.freedom >= c.freedom && Condition.Score(rule.condition, c.input, store, o) >= threshold
  }

  /** Which rules fire, in order. */
  function Firing(rules: seq<Rule>, c: Container, store: Facts.FactStore, o: Oracles, threshold: real): (r: seq<bool>)
    ensures |r| == |rules|
    ensures forall i :: 0 <= i < |rules| ==> (r[i] <==> Fires(rules[i], c, store, o, threshold))
  {
    seq(|rules|, i requires 0 <= i < |rules| => Fires(rules[i], c, store, o, threshold))
  }

  lemma FiringOnSameValues(rules: seq<Rule>, c: Container, a: Facts.FactStore, b: Facts.FactStore, o: Oracles, threshold: real)
    requires forall n :: Facts.ValueOf(a, n) == Facts.ValueOf(b, n)
    ensures Firing(rules, c, a, o, threshold) == Firing(rules, c, b, o, threshold)
  {
    forall i | 0 <= i < |rules|
      ensures Condition.Score(rules[i].condition, c.input, a, o) == Condition.Score(rules[i].condition, c.input, b, o)
    {
      Condition.ScoreReadsValuesOnly(rules[i].condition, c.input, a, b, o);
    }
  }

  /** The templates of the rules that fire, in order. */
  function FiredTemplates(rules: seq<Rule>, fired: seq<bool>): (r: seq<string>)
    requires |fired| == |rules|
    ensures |r| <= |rules|
  {
    if rules == [] then []
    else (if fired[0] then [rules[0].template] else []) + FiredTemplates(rules[1..], fired[1..])
  }

  /** The position of the last firing rule of type `"overwrite"`. */
  function LastOverwrite(rules: seq<Rule>, fired: seq<bool>): (r: Option<nat>)
    requires |fired| == |rules|
    ensures r.Some? ==> r.value < |rules| && fired[r.value] && rules[r.value].ruleType == OverwriteType
    ensures r.Some? ==> forall j :: r.value < j < |rules| && fired[j] ==> rules[j].ruleType != OverwriteType
    ensures r.None? ==> forall j :: 0 <= j < |rules| && fired[j] ==> rules[j].ruleType != OverwriteType
  {
    if rules == [] then None
    else
      match LastOverwrite(rules[1..], fired[1..])
      case Some(j) => Some(j + 1)
      case None => if fired[0] && rules[0].ruleType == OverwriteType then Some(0) else None
  }

  /** The instructions after the rules, stated without the loop: with a
      firing overwrite, the templates of the firing rules from the last such
      one on; otherwise the old instructions followed by every firing rule's
      template. */
  function Expected(rules: seq<Rule>, fired: seq<bool>, instructions: seq<string>): seq<string>
    requires |fired| == |rules|
  {
    match LastOverwrite(rules, fired)
    case Some(j) => FiredTemplates(rules[j..], fired[j..])
    case None => instructions + FiredTemplates(rules, fired)
  }

  /** The effect of one rule that fires on the instructions. */
  function Effect(rule: Rule, instructions: seq<string>): seq<string> {
    if rule.ruleType == OverwriteType then [rule.template] else instructions + [rule.template]
  }

  /** Taking the first rule's effect, then the rest, is the same as the
      stated result for all of them. */
  lemma ExpectedStep(rules: seq<Rule>, fired: seq<bool>, instructions: seq<string>)
    requires |fired| == |rules| && rules != []
    ensures Expected(rules, fired, instructions)
            == Expected(rules[1..], fired[1..], if fired[0] then Effect(rules[0], instructions) else instructions)
  {
    match LastOverwrite(rules[1..], fired[1..])
    case Some(j) => ExpectedStepLaterOverwrite(rules, fired, instructions, j);
    case None => ExpectedStepNoLaterOverwrite(rules, fired, instructions);
  }

  lemma ExpectedStepLaterOverwrite(rules: seq<Rule>, fired: seq<bool>, instructions: seq<string>, j: nat)
    requires |fired| == |rules| && rules != [] && LastOverwrite(rules[1..], fired[1..]) == Some(j)
    ensures Expected(rules, fired, instructions)
            == Expected(rules[1..], fired[1..], if fired[0] then Effect(rules[0], instructions) else instructions)
  {
    assert LastOverwrite(rules, fired) == Some(j + 1);
    assert rules[j + 1..] == rules[1..][j..] && fired[j + 1..] == fired[1..][j..];
  }

  lemma ExpectedStepNoLaterOverwrite(rules: seq<Rule>, fired: seq<bool>, instructions: seq<string>)
    requires |fired| == |rules| && rules != [] && LastOverwrite(rules[1..], fired[1..]).None?
    ensures Expected(rules, fired, instructions)
            == Expected(rules[1..], fired[1..], if fired[0] then Effect(rules[0], instructions) else instructions)
  {
    var rest := FiredTemplates(rules[1..], fired[1..]);
    assert FiredTemplates(rules, fired) == (if fired[0] then [rules[0].template] else []) + rest;
    if fired[0] && rules[0].ruleType == OverwriteType {
      assert LastOverwrite(rules, fired) == Some(0);
      assert rules[0..] == rules && fired[0..] == fired;
    } else {
      assert LastOverwrite(rules, fired).None?;
      if fired[0] {
        assert instructions + ([rules[0].template] + rest) == (instructions + [rules[0].template]) + rest;
      }
    }
  }

  /** One iteration of `__apply_rules__`: the rule is evaluated
      (registering the facts it reads) only when its freedom admits the
      container's, and applied when it fires. */
  function ApplyRule(rule: Rule, c: Container, store: Facts.FactStore, o: Oracles, threshold: real): (r: (Container, Facts.FactStore))
    ensures r.0 == c.(instructions := if Fires(rule, c, store, o, threshold) then Effect(rule, c.instructions) else c.instructions)
    ensures Condition.Grows(store, r.1)
  {
    if rule.freedom >= c.freedom then
      var (s, v) := Condition.Evaluate(rule.condition, c.input, store, o);
      Condition.RegisteredGrows(store, s, Condition.FactNames(rule.condition));
      if v >= threshold then (c.(instructions := Effect(rule, c.instructions)), s) else (c, s)
    else (c, store)
  }

  /** `__apply_rules__`: each rule whose freedom admits the container's is
      evaluated and applied when it clears the threshold; the others are
      skipped without evaluation. Only the instructions change. */
  function ApplyRules(rules: seq<Rule>, c: Container, store: Facts.FactStore, o: Oracles, threshold: real): (r: (Container, Facts.FactStore))
    ensures r.0 == c.(instructions := r.0.instructions)
    ensures r.0.instructions == Expected(rules, Firing(rules, c, store, o, threshold), c.instructions)
    ensures Condition.Grows(store, r.1)
  {
    if rules == [] then (c, store)
    else
      var (c1, s1) := ApplyRule(rules[0], c, store, o, threshold);
      var (c2, s2) := ApplyRules(rules[1..], c1, s1, o, threshold);
      FiringAfterFirst(rules, c, c1, store, s1, o, threshold);
      ExpectedStep(rules, Firing(rules, c, store, o, threshold), c.instructions);
      Condition.GrowsTransitive(store, s1, s2);
      (c2, s2)
  }

  /** The rules after the first fire on the container and store the first
      one left exactly as they did before it ran. */
  lemma FiringAfterFirst(rules: seq<Rule>, c: Container, c1: Container, store: Facts.FactStore, s1: Facts.FactStore,
                         o: Oracles, threshold: real)
    requires rules != [] && c1 == c.(instructions := c1.instructions) && Condition.Grows(store, s1)
    ensures Firing(rules, c, store, o, threshold)[1..] == Firing(rules[1..], c1, s1, o, threshold)
  {
    Condition.GrowsKeepsValues(store, s1);
    FiringOnSameValues(rules[1..], c1, store, s1, o, threshold);
    var f := Firing(rules, c, store, o, threshold);
    var g := Firing(rules[1..], c1, store, o, threshold);
    assert forall i :: 0 <= i < |g| ==> f[1..][i] == g[i];
  }

  /** `SimplePersonalityModule.process`: the description is added to the
      personality lines, then the rules are applied. */
  function Process(p: Personality, c: Container, store: Facts.FactStore, o: Oracles): (r: (Container, Facts.FactStore))
    ensures r.0.personality == c.personality + [p.description]
    ensures r.0.input == c.input && r.0.history == c.history && r.0.facts == c.facts
    ensures r.0.urgency == c.urgency && r.0.freedom == c.freedom
    ensures r.0.instructions == Expected(p.rules, Firing(p.rules, c, store, o, p.threshold), c.instructions)
    ensures Condition.Grows(store, r.1)
  {
    var c1 := c.(personality := c.personality + [p.description]);
    assert Firing(p.rules, c1, store, o, p.threshold) == Firing(p.rules, c, store, o, p.threshold);
    ApplyRules(p.rules, c1, store, o, p.threshold)
  }

  /** No rule fires: the instructions are kept as they were. */
  lemma NothingFiresKeepsInstructions(p: Personality, c: Container, store: Facts.FactStore, o: Oracles)
    requires forall i :: 0 <= i < |p.rules| ==> !Fires(p.rules[i], c, store, o, p.threshold)
    ensures Process(p, c, store, o).0.instructions == c.instructions
  {
    var fired := Firing(p.rules, c, store, o, p.threshold);
    NoneFiredNoTemplates(p.rules, fired);
  }

  lemma {:induction false} NoneFiredNoTemplates(rules: seq<Rule>, fired: seq<bool>)
    requires |fired| == |rules| && forall i :: 0 <= i < |fired| ==> !fired[i]
    ensures FiredTemplates(rules, fired) == []
  {
    if rules != [] {
      NoneFiredNoTemplates(rules[1..], fired[1..]);
    }
  }

  /** An insert rule followed by an overwrite rule, both firing, leave only
      the overwrite's template; in the other order both templates remain. */
  lemma OverwriteOrder(p: Personality, c: Container, store: Facts.FactStore, o: Oracles)
    requires |p.rules| == 2
    requires Fires(p.rules[0], c, store, o, p.threshold) && Fires(p.rules[1], c, store, o, p.threshold)
    ensures p.rules[0].ruleType != OverwriteType && p.rules[1].ruleType == OverwriteType ==>
              Process(p, c, store, o).0.instructions == [p.rules[1].template]
    ensures p.rules[0].ruleType == OverwriteType && p.rules[1].ruleType != OverwriteType ==>
              Process(p, c, store, o).0.instructions == [p.rules[0].template, p.rules[1].template]
  {
    assert Firing(p.rules, c, store, o, p.threshold) == [true, true];
    BothFire(p.rules, c.instructions);
  }

  lemma BothFire(rules: seq<Rule>, instructions: seq<string>)
    requires |rules| == 2
    ensures rules[0].ruleType != OverwriteType && rules[1].ruleType == OverwriteType ==>
              Expected(rules, [true, true], instructions) == [rules[1].template]
    ensures rules[0].ruleType == OverwriteType && rules[1].ruleType != OverwriteType ==>
              Expected(rules, [true, true], instructions) == [rules[0].template, rules[1].template]
  {
    var fired := [true, true];
    ExpectedStep(rules, fired, instructions);
    var after := Effect(rules[0], instructions);
    ExpectedStep(rules[1..], fired[1..], after);
    assert rules[1..][1..] == [] && fired[1..][1..] == [];
  }

  /** A rule whose freedom is below the container's never fires, whatever
      its condition scores. */
  lemma StrictRuleSkipped(rule: Rule, c: Container, store: Facts.FactStore, o: Oracles, threshold: real)
    requires rule.freedom < c.freedom
    ensures Process(Personality("", [rule], threshold), c, store, o).0.instructions == c.instructions
  {
    NothingFiresKeepsInstructions(Personality("", [rule], threshold), c, store, o);
  }

  // ---- the code as written ----

  /** One iteration of `__apply_rules__` with the condition evaluated as
      the code stands: a fact that has been set makes it raise. */
  function ApplyRuleAsWritten(rule: Rule, c: Container, store: Facts.FactStore, o: Oracles, threshold: real): (r: Result<(Container, Facts.FactStore)>)
    ensures rule.freedom < c.freedom ==> r == Ok((c, store))
    ensures r.Ok? ==> r.value.0 == c.(instructions := r.value.0.instructions)
  {
    if rule.freedom >= c.freedom then
      var (s, v) :- Condition.EvaluateAsWritten(rule.condition, c.input, store, o);
      Ok(if v >= threshold then (c.(instructions := Effect(rule, c.instructions)), s) else (c, s))
    else Ok((c, store))
  }

  /** `__apply_rules__` as written: the first rule that raises ends the
      pass, and the exception leaves the module. */
  function ApplyRulesAsWritten(rules: seq<Rule>, c: Container, store: Facts.FactStore, o: Oracles, threshold: real): (r: Result<(Container, Facts.FactStore)>)
    ensures r.Ok? ==> r.value.0 == c.(instructions := r.value.0.instructions)
  {
    if rules == [] then Ok((c, store))
    else
      var (c1, s1) :- ApplyRuleAsWritten(rules[0], c, store, o, threshold);
      ApplyRulesAsWritten(rules[1..], c1, s1, o, threshold)
  }

  function ProcessAsWritten(p: Personality, c: Container, store: Facts.FactStore, o: Oracles): (r: Result<(Container, Facts.FactStore)>)
    ensures r.Ok? ==> r.value.0.personality == c.personality + [p.description]
  {
    ApplyRulesAsWritten(p.rules, c.(personality := c.personality + [p.description]), store, o, p.threshold)
  }

  /** Rules whose conditions read no fact behave the same as written and as
      intended. */
  lemma {:induction false} ApplyRulesAsWrittenWithoutFacts(rules: seq<Rule>, c: Container, store: Facts.FactStore, o: Oracles, threshold: real)
    requires forall i :: 0 <= i < |rules| ==> Condition.FactNames(rules[i].condition) == {}
    ensures ApplyRulesAsWritten(rules, c, store, o, threshold) == Ok(ApplyRules(rules, c, store, o, threshold))
  {
    if rules != [] {
      Condition.AsWrittenAgreesWithoutFacts(rules[0].condition, c.input, store, o);
      var (c1, s1) := ApplyRule(rules[0], c, store, o, threshold);
      assert ApplyRuleAsWritten(rules[0], c, store, o, threshold) == Ok((c1, s1));
      ApplyRulesAsWrittenWithoutFacts(rules[1..], c1, s1, o, threshold);
    }
  }

  lemma ProcessAsWrittenWithoutFacts(p: Personality, c: Container, store: Facts.FactStore, o: Oracles)
    requires forall i :: 0 <= i < |p.rules| ==> Condition.FactNames(p.rules[i].condition) == {}
    ensures ProcessAsWritten(p, c, store, o) == Ok(Process(p, c, store, o))
  {
    ApplyRulesAsWrittenWithoutFacts(p.rules, c.(personality := c.personality + [p.description]), store, o, p.threshold);
  }

  /** The discrepancy: a rule that is allowed to run and reads a fact that
      has been set makes the turn raise, where the intended pass completes. */
  lemma KnownFactRuleRaises(description: string, rule: Rule, name: string, c: Container, store: Facts.FactStore, o: Oracles, threshold: real)
    requires rule.freedom >= c.freedom && rule.condition == FactRef(name) && name in store
    ensures ProcessAsWritten(Personality(description, [rule], threshold), c, store, o) == Err(AttributeError("get"))
  {
  }
}
