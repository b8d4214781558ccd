# Modular dialogue system: the decision engine

This project models the core of a modular dialogue system for game characters and proves properties of that model. A turn passes one container through five stages:

- a preprocessor, which summarises long inputs;
- a dialogue-flow module, either a finite-state machine or a goal-oriented planner;
- a personality module, either a rule list or a behaviour tree;
- a memory module, which fills `${name}` placeholders in the instructions with fact values;
- an output module, which writes the prompt for a language model and strips quotes from the reply.

All decisions rest on *conditions*. A condition is a small expression language (`sim('…')`, `sent('…')`, `fact('…')`, numbers, comparisons, `and`, `or`, parentheses) that is tokenised, parsed and scored against the input. The scores come from learned models (embeddings, cosine similarity, sentiment, paraphrase), which here are parameters. Facts live in a fact system with change listeners. Named events are dispatched through an event bus.

The model is functional:

- Every stateful object becomes an immutable datatype, and every operation becomes a function. A function takes the object, the container and the fact store, and returns them updated, together with the names of the events it invoked, in order.
- An exception becomes an `Err`, or an `error` field, carrying the Python exception it stands for. Everything done before it stays done.
- Python's `float` is modelled as Dafny's `real`.
- Python's mixed equality (`1 == True`, `0 == False`) is `Values.PyEq`.
- A lookup of an unseen fact registers it, as `get_fact` does.

Some behaviour of the source is kept exactly as written, because the rest of the system depends on it:

- `==` in a condition compares with `<=` (condition.py:145-146).
- A transition's `on_enter` is read from the key `on_exit` (flow/impl/transition.py:27).
- A transition's freedom defaults to 0 (flow/impl/transition.py:22).
- A rule list missing from the configuration fails on `.items()` (personality/impl/simplePersonalityModule.py:18-19).
- Rule conditions never get paraphrases, because `paraphrasings` lands in the `events` slot of `Rule.parse_rules`.
- The GOAP planner reads the goal keys with `get_fact` as written (flow/impl/goapDialogueFlow.py:56).

The one place where the code disagrees with its own evident intent is the fact read inside conditions and inside the memory module. That is logged under "## Findings". The engines use the corrected read, and each engine also has an `AsWritten` twin with a bridge lemma.

Modules, one per source file or concept:

| module | file | source |
|---|---|---|
| `Basics` | basics.dfy | results, options, joining, ASCII case and character classes |
| `Values`, `Models` | values.dfy, models.dfy | fact values and Python equality; the learned-model oracles |
| `Containers` | container.dfy | container.py |
| `Facts` | facts.dfy | facts.py |
| `Events` | events.dfy | events.py |
| `Lexer`, `Parser`, `ParserProps`, `Condition` | lexer.dfy, parser.dfy, parser_props.dfy, condition.dfy | condition.py |
| `Ranking`, `Fsm` | ranking.dfy, fsm.dfy | flow/impl/fsmDialogueFlowModule.py, state.py, transition.py |
| `Goap` | goap.dfy | flow/impl/goapDialogueFlow.py |
| `Rules` | rules.dfy | personality/rule.py, personality/impl/simplePersonalityModule.py |
| `BehaviourTree` | behaviour_tree.dfy | personality/impl/behaviourTreePresonalityModule.py |
| `Memory` | memory.dfy | memory/impl/knowledgeGrpaphMemoryModule.py |
| `Preprocess` | preprocess.dfy | preprocessing/impl/simplePreprocessor.py |
| `Output` | output.dfy | output/impl/simpleProcessingModule.py |
| `Pipeline` | pipeline.dfy | pipeline.py |

## Model

| member | source | states |
|---|---|---|
| Containers.NewContainer | container.py:2-9 | each omitted argument takes its default (empty input, urgency and freedom 0.5, a fresh empty list), and each given one is kept as passed |
| Containers.ForTurn | pipeline.py:22 | the container a turn starts from holds the input and history with every other field at its default |
| Containers.MissingMeansDefault | container.py:2-9 | leaving an argument out is the same as passing its default explicitly |
| Values.PyEqIsEquivalence | facts.py:17 | Python's `!=` test in `Fact.set` is an equivalence, and it identifies only numbers with booleans (1 with True, 0 with False) |
| Facts.Set | facts.py:16-21 | setting an equal value (by Python equality) changes nothing and notifies nobody; a different value is stored and every listener is called once, each seeing the new value |
| Facts.NotificationOrder | facts.py:44-59 | on a change the listeners run grouped no-argument, then new-value, then old-and-new; each group runs in registration order, and they receive `()`, `(new)` and `(old, new)` |
| Facts.GroupCalls | facts.py:45-59 | one call per listener of a group, in order, each with the group's arguments |
| Facts.CalledFromAppend | facts.py:44-59 | the listeners called of a kind split over consecutive groups of calls |
| Facts.AddListener | facts.py:26-33 | registering appends to the listener list of that kind only, and the value is untouched |
| Facts.RemoveListener | facts.py:35-42 | removing fails (ValueError) exactly when the listener is not registered for that kind; otherwise the first occurrence is removed, the order of the rest is kept, and the other kinds are untouched |
| Facts.RemoveFirst | facts.py:36 | `list.remove`: exactly the first occurrence is dropped, and it fails when the element is absent |
| Facts.AddThenRemove | facts.py:26-42 | adding a listener and then removing it restores the fact when the listener was new; otherwise the older copy is removed and the new one stays last |
| Facts.Register | facts.py:76-77 | reading an unseen name registers it with a null value and leaves every other fact as it was |
| Facts.SetFact | facts.py:66-70 | an unseen name is created with the value and notifies nobody; a known name is updated through `Fact.set`, with its notifications; other facts are untouched |
| Facts.GetFact | facts.py:72-78 | as written: for a known name the bare value is returned, and for an unseen name a new fact object is returned and registered |
| Facts.ReadFact | facts.py:72-78 | the corrected read used by conditions and memory: the current value (null when unseen), registering the name |
| Facts.Subscribe | facts.py:26-27 | a listener can be attached through `get_fact` only for a name not yet set, because only then is a fact object returned |
| Facts.LazyRegistrationKeepsListeners | facts.py:66-78 | a listener attached to a lazily created fact is notified when the fact is first set to a non-null value |
| Events.AddEvt | events.py:10-17 | registering an action creates the event if needed and appends the action only when it is not already registered; other events are untouched |
| Events.RemoveEvt | events.py:19-26 | removing drops the first registration of the action from that event only, keeping the others in order, deletes the event once it has no actions left, and does nothing when the action is not registered |
| Events.InvokeAfterRemove | events.py:19-38 | after a removal the event runs the remaining actions in their earlier order, without the removed one |
| Events.Invoke | events.py:28-38 | a missing or empty event name, or an unknown one, runs nothing; otherwise every registered action runs once, in registration order |
| Events.DispatchAppend | events.py:28-38 | invoking two lists of event names one after the other runs the concatenation of their actions |
| Events.AddEvtPreservesWellFormed | events.py:10-17 | after registering, every event still has at least one action and no duplicates |
| Events.RemoveEvtPreservesWellFormed | events.py:19-26 | after removing, every event still has at least one action and no duplicates |
| Events.AddEvtIdempotent | events.py:13-17 | registering the same action twice is registering it once |
| Events.RemoveUndoesAdd | events.py:10-26 | removing a newly registered action restores the bus, including deleting an event that registration created |
| Events.RemoveEvtRemovesAll | events.py:19-26 | on a well-formed bus, after removal the action is no longer registered for that event |
| Lexer.Tokenize | condition.py:26-51 | tokenising succeeds exactly when the scan does; the tokens are the scanned lexemes with blanks dropped, and each matches its pattern |
| Lexer.Scan | condition.py:43-50 | the scan either reports an unexpected character or produces lexemes each matching the pattern of its kind |
| Lexer.FirstMatch | condition.py:39-44 | the first pattern of the alternation that matches at the position wins, and none matches only when every pattern fails |
| Lexer.ScanReassembles | condition.py:43-50 | the scanned lexemes, blanks included, concatenate back to the text, every lexeme is non-empty, and blank lexemes hold only spaces and tabs |
| Lexer.ScanErrorPosition | condition.py:45-47 | a scan error names a position at which no pattern matches |
| Lexer.PatternsDisjoint | condition.py:27-38 | at most one pattern kind can match at any position, so the order of the alternation never decides between two matches |
| Lexer.LeadingChar | condition.py:28-37 | a lexeme's kind is determined by its first character (a digit, `s` + `i`/`e`, `f`, `a`, `o`, one of `<>=`, a parenthesis, or a blank) |
| Lexer.QuoteParenEnd | condition.py:29-31 | the lazy `'.*?'\)` of a call ends at the first `')` on the same line |
| Parser.Compile | condition.py:21-24 | compiling fails with the lexer's error, or with the parser's error on the tokens, and otherwise yields the parsed condition |
| Parser.ParsePrimary | condition.py:89-117 | no token left and an unexpected token are errors; an operand token becomes one leaf and advances one token |
| Parser.DecimalValue | condition.py:115 | a `\d+(\.\d*)?` lexeme denotes a non-negative value, and the value of its digits when it has no dot |
| Parser.Phrases | condition.py:100-104 | a `sim` condition compares against its argument first, followed by the paraphrases only when paraphrasing is asked for |
| Parser.ParseOr | condition.py:65-71 | a successful parse consumes at least one token and stays within the tokens |
| ParserProps.OperandsPreserved | condition.py:65-117 | the leaves of the parsed condition are exactly the operand tokens it consumed, in order; only parentheses and operators leave no trace |
| ParserProps.TrailingTokensIgnored | condition.py:62-63 | tokens after a complete condition are never looked at: the parse of a prefix stands whatever follows a stopping token |
| ParserProps.AndBindsTighterThanOr | condition.py:65-79 | `a and b or c` groups as `(a and b) or c`, and `a or b and c` as `a or (b and c)` |
| ParserProps.ComparisonsGroupLeft | condition.py:81-87 | chained comparisons group to the left |
| ParserProps.EmptyConditionRejected | condition.py:116-117 | an empty condition is a syntax error at the missing token |
| ParserProps.UnclosedParenthesisRejected | condition.py:94-95 | a parenthesised condition not followed by `)` is a missing-parenthesis error |
| Condition.CompareScore | condition.py:135-146 | a comparison scores 1 when it holds and 0 otherwise, with `==` holding exactly when `<=` does |
| Condition.EqualsMeansAtMost | condition.py:145-146 | `==` agrees with `<=`, so for distinct operands it holds exactly when the left one is smaller |
| Condition.BestCosine | condition.py:178-181 | the running maximum is at least its start and every cosine, and it is one of them or the start |
| Condition.SimilarityScore | condition.py:176-183 | the similarity is the best cosine of the input against the phrases, floored at 0 |
| Condition.SentimentScore | condition.py:190-195 | the classifier's score when its label is the category upper-cased, and 0 otherwise |
| Condition.SentimentCategoryCaseInsensitive | condition.py:193 | a sentiment category scores the same written in any ASCII case |
| Condition.FactScore | condition.py:204-210 | a string scores 1, a number its value, and a boolean or null 1 or 0; a non-string scores nonzero exactly when it is truthy |
| Condition.Score | condition.py:121-210 | `and` is at most either side, `or` at least either side, comparisons score 0 or 1, and numbers score their value |
| Condition.Evaluate | condition.py:121-122 | evaluating yields the score of the condition on the store it started from, and only registers the names it reads |
| Condition.ScoreReadsValuesOnly | condition.py:202-210 | a condition's score depends on the fact store only through the values of the facts it names |
| Condition.ScoreInUnitInterval | condition.py:135-195 | with calibrated models, a condition without fact leaves whose numbers lie in [0, 1] scores within [0, 1] |
| Condition.InputFreeIgnoresInput | condition.py:135-169 | a condition without `sim` or `sent` leaves scores the same on every input |
| Condition.FactLeafAsWritten | condition.py:202-203 | as written, a fact leaf raises AttributeError exactly for a known name, and scores 0 while registering an unseen one |
| Condition.FactConditionFailsOnKnownFact | condition.py:202-210 | as written, a fact condition raises as soon as its fact exists, whether only read before or set; the corrected read scores the value set |
| Condition.AsWrittenAgreesWithoutFacts | condition.py:121-210 | a condition that names no fact evaluates the same as written and corrected |
| Ranking.Indexed | flow/impl/fsmDialogueFlowModule.py:35-36 | each score is paired with its transition's position |
| Ranking.SortDescending | flow/impl/fsmDialogueFlowModule.py:37 | sorting permutes the scored transitions |
| Ranking.SortDescendingSorted | flow/impl/fsmDialogueFlowModule.py:37 | the result is descending by score, and equal scores keep declaration order (a stable reverse sort) |
| Ranking.SortedArrangement | flow/impl/fsmDialogueFlowModule.py:35-37 | the sorted list is an arrangement of all transitions with their scores |
| Ranking.ChooseMeansFires | flow/impl/fsmDialogueFlowModule.py:40-45 | transition `i` is chosen exactly when it scores above the threshold, strictly above every earlier one, at least as high as every later one, and more than `min_diff` above every other |
| Ranking.CloseRunnerUpBlocks | flow/impl/fsmDialogueFlowModule.py:41-42 | with the defaults 0.4 and 0.1, 0.9 against 0.85 chooses nothing |
| Ranking.ClearLeadFires | flow/impl/fsmDialogueFlowModule.py:40-43 | with the defaults, 0.9 against 0.5 chooses the leader |
| Ranking.ChosenFires | flow/impl/fsmDialogueFlowModule.py:37-45 | whatever the sorted arrangement picks fires in the sense stated on the unsorted scores |
| Ranking.FiresIsHead | flow/impl/fsmDialogueFlowModule.py:37-45 | a transition that fires is the one the sorted arrangement picks |
| Ranking.ClearLeadFiresAnywhere | flow/impl/fsmDialogueFlowModule.py:40-43 | a clear leader is chosen wherever it is declared |
| Ranking.LoneTransitionNeedsThreshold | flow/impl/fsmDialogueFlowModule.py:40-45 | a lone transition needs only to score strictly above the threshold, and no transitions chooses nothing |
| Ranking.NoneUnlessFires | flow/impl/fsmDialogueFlowModule.py:40-45 | a choice is always a valid transition position |
| Fsm.BuildTransition | flow/impl/transition.py:18-28 | a transition loads exactly when its condition (default empty) compiles; urgency defaults to 0.5, freedom to 0, the template to empty, and `on_enter` comes from the `on_exit` key |
| Fsm.OnEnterKeyIgnored | flow/impl/transition.py:27 | the `on_enter` key of a transition has no effect, and without `on_exit` the transition enters with the empty event |
| Fsm.MissingConditionRejected | flow/impl/transition.py:25 | a transition without a condition fails to load, because the empty condition does not parse |
| Fsm.BuildTransitions | flow/impl/state.py:23-26 | the transitions all load, in order, or the load fails at a transition that does not |
| Fsm.BuildState | flow/impl/state.py:19-29 | a state loads exactly when its transitions do, and holds the built transitions; urgency and freedom default to 0.5, the template to empty, and no transitions to none |
| Fsm.Table | flow/impl/fsmDialogueFlowModule.py:20-24 | the state table has exactly the declared names as keys, each mapping to the last state declared with that name |
| Fsm.BuildStates | flow/impl/fsmDialogueFlowModule.py:21-24 | loading fails exactly when some state fails; otherwise every declared name is in the table, and only those, mapped to the state built from the last entry with that name |
| Fsm.DeclaredOnceLoadsItsEntry | flow/impl/fsmDialogueFlowModule.py:21-24 | a name declared once maps to the state built from its own entry |
| Fsm.BuildMachine | flow/impl/fsmDialogueFlowModule.py:15-27 | a missing `states` is a KeyError and an empty table stops the load; the machine starts in `initial_state`, else in the first declared state, with the given threshold and `min_diff`; a state that fails to load fails the machine with its error, and the machine's table is the built one |
| Fsm.FirstTurn | flow/impl/fsmDialogueFlowModule.py:26-34 | without `initial_state` the first turn finds its state; an `initial_state` naming no state makes the first turn raise before doing anything |
| Fsm.Scores | flow/impl/fsmDialogueFlowModule.py:35-36 | one score per transition, in order, each its condition's score on the input |
| Fsm.EvaluateTransitions | flow/impl/fsmDialogueFlowModule.py:35-36 | scoring the transitions only registers the fact names they read |
| Fsm.Fire | flow/impl/fsmDialogueFlowModule.py:51-60 | a fired transition moves to its target and sets freedom and urgency from the transition; it appends the transition's then the target's template and invokes old `on_exit`, transition `on_enter`, new `on_enter`; an unknown target raises after the first two steps |
| Fsm.Process | flow/impl/fsmDialogueFlowModule.py:33-60 | an unknown current state raises before anything happens; a turn changes only the current state, urgency, freedom and instructions, and can only raise an unknown-state error |
| Fsm.NothingFires | flow/impl/fsmDialogueFlowModule.py:46-50 | when no transition fires, the machine stays, takes the state's freedom, urgency and template, and invokes nothing |
| Fsm.TransitionFires | flow/impl/fsmDialogueFlowModule.py:40-60 | when transition `i` fires in the sense of the ranking, the turn is that transition's firing |
| Fsm.ScoresOnSameValues | flow/impl/fsmDialogueFlowModule.py:35-36 | stores with the same fact values give the same scores |
| Fsm.ProcessAsWritten | flow/impl/fsmDialogueFlowModule.py:33-36 | as written, a condition that raises ends the turn with nothing changed |
| Fsm.ProcessAsWrittenWithoutFacts | flow/impl/fsmDialogueFlowModule.py:33-60 | for machines whose conditions name no fact, the turn as written is the corrected turn |
| Fsm.KnownFactTransitionRaises | flow/impl/fsmDialogueFlowModule.py:35 | as written, a transition reading a known fact makes the turn raise AttributeError, which the corrected turn never does |
| Goap.EffectNames | flow/impl/goapDialogueFlow.py:40-42 | the event names an action's effects invoke: the list itself, or a mapping's keys in order |
| Goap.CompileAll | flow/impl/goapDialogueFlow.py:27-28 | the preconditions all compile, in order, or the load fails with the error of one that does not |
| Goap.BuildAction | flow/impl/goapDialogueFlow.py:24-35 | an action loads exactly when its preconditions and condition compile, and a precondition error comes first |
| Goap.ActionDefaults | flow/impl/goapDialogueFlow.py:28-34 | by default an action has no preconditions, no effects, an empty template, and no success or failure event |
| Goap.BuildActions | flow/impl/goapDialogueFlow.py:80-83 | all actions load, in declaration order, or the load fails at one that does not |
| Goap.Build | flow/impl/goapDialogueFlow.py:74-87 | `actions` is required, then every action is built, then `goal` is required; the module starts with an empty plan |
| Goap.Applicable | flow/impl/goapDialogueFlow.py:37-38 | an action is applicable exactly when every precondition scores nonzero on the empty input |
| Goap.ApplicableStopsAtFirstZero | flow/impl/goapDialogueFlow.py:38 | `all` short-circuits: preconditions after the first zero are not evaluated |
| Goap.ApplicableActions | flow/impl/goapDialogueFlow.py:59 | the applicable actions, in declaration order |
| Goap.ReadyActionsOnSameValues | flow/impl/goapDialogueFlow.py:59 | stores with the same fact values give the same applicable actions |
| Goap.Seed | flow/impl/goapDialogueFlow.py:56 | the working state holds exactly the goal keys, each with what `get_fact` returns, and only those names get registered |
| Goap.Apply | flow/impl/goapDialogueFlow.py:65-66 | writing effects adds their keys to the working state |
| Goap.ApplyOverrides | flow/impl/goapDialogueFlow.py:65-66 | writing effects overrides the state with them, the last entry per key winning |
| Goap.ApplyIdempotent | flow/impl/goapDialogueFlow.py:65-66 | writing the same effects twice is writing them once |
| Goap.PlanLoop | flow/impl/goapDialogueFlow.py:58-66 | a found plan either starts at the goal or adds at least one step |
| Goap.LoopMatchesExpected | flow/impl/goapDialogueFlow.py:58-67 | the loop ends as stated without a loop: at the goal with no step, with no applicable action as `None`, on a list of effects with AttributeError from `.items()`, with the first applicable action alone when its effects reach the goal, and never otherwise |
| Goap.PlanMatchesExpected | flow/impl/goapDialogueFlow.py:54-67 | `plan` ends as the loop-free statement predicts, from the seeded working state |
| Goap.StuckLoop | flow/impl/goapDialogueFlow.py:58-66 | once the first applicable action's effects no longer change the state and the goal is unmet, the loop never ends |
| Goap.LoopStepsFromActions | flow/impl/goapDialogueFlow.py:58-66 | every step of a plan is one of the module's actions |
| Goap.Step | flow/impl/goapDialogueFlow.py:99-116 | executing the head changes nothing but the instructions, which at most gain the head's template |
| Goap.Replan | flow/impl/goapDialogueFlow.py:116 | replanning after a failure leaves the container untouched |
| Goap.ReplanMatchesExpected | flow/impl/goapDialogueFlow.py:116 | replanning yields the plan the planner is expected to find, `None` when nothing is applicable, and keeps the old plan when planning raises |
| Goap.Process | flow/impl/goapDialogueFlow.py:90-119 | a turn changes only the plan and the instructions of the container |
| Goap.StartPlan | flow/impl/goapDialogueFlow.py:91-97 | a turn without a plan changes only the instructions |
| Goap.ProcessWritesNoFact | flow/impl/goapDialogueFlow.py:90-119 | a turn writes no fact value |
| Goap.HeadSucceeds | flow/impl/goapDialogueFlow.py:103-112 | a head action whose condition scores nonzero invokes its effects then `on_success`, is dropped from the plan, and appends its template |
| Goap.HeadFails | flow/impl/goapDialogueFlow.py:113-116 | a head action whose condition scores zero invokes only `on_fail`, and the turn is a replanning |
| Goap.NothingToDoGivesUp | flow/impl/goapDialogueFlow.py:91-97 | without a plan, when the goal already holds or nothing is applicable, the turn appends the apology and invokes nothing |
| Goap.FirstTurnPlansThenActs | flow/impl/goapDialogueFlow.py:90-116 | without a plan, a plan the planner finds is executed in the same turn from the store planning left; a planner that raises ends the turn with the plan, container and events untouched, and one that never ends diverges |
| Goap.ProcessAsWrittenWithoutFacts | flow/impl/goapDialogueFlow.py:90-119 | for modules whose conditions name no fact, the turn as written is the corrected turn |
| Goap.KnownFactActionFails | flow/impl/goapDialogueFlow.py:102-106 | as written, a head action reading a known fact always fails into `on_fail` and replanning, because the exception is caught; corrected, it succeeds when the value scores nonzero |
| Rules.ParseRule | personality/rule.py:21-30 | `template`, then `condition`, are required; the condition is compiled; freedom defaults to 0.5 and the type to `insert` |
| Rules.ParseRules | personality/rule.py:19-33 | all rules load, in declaration order, or the load fails at one that does not |
| Rules.Build | personality/impl/simplePersonalityModule.py:14-20 | a missing rule mapping fails on `.items()`; the description defaults to empty, and the threshold is the one given |
| Rules.Firing | personality/impl/simplePersonalityModule.py:24-27 | a rule fires exactly when its freedom is at least the container's and its condition scores at least the threshold |
| Rules.LastOverwrite | personality/impl/simplePersonalityModule.py:28-30 | the last firing rule of type `overwrite`, if any |
| Rules.ApplyRule | personality/impl/simplePersonalityModule.py:24-33 | one rule changes only the instructions: replaced by its template when it overwrites, extended by it otherwise |
| Rules.ApplyRules | personality/impl/simplePersonalityModule.py:22-33 | after all rules, the instructions are the firing templates from the last firing overwrite on, or the old instructions followed by every firing template when none overwrites |
| Rules.Process | personality/impl/simplePersonalityModule.py:35-37 | the description is added to the personality lines, and the instructions end as the rule pass states |
| Rules.NothingFiresKeepsInstructions | personality/impl/simplePersonalityModule.py:22-33 | when no rule fires, the instructions are unchanged |
| Rules.OverwriteOrder | personality/impl/simplePersonalityModule.py:28-33 | an overwrite discards what earlier rules appended, and later appends follow it |
| Rules.StrictRuleSkipped | personality/impl/simplePersonalityModule.py:24 | a rule less free than the container is skipped without evaluating its condition |
| Rules.FiringOnSameValues | personality/impl/simplePersonalityModule.py:24-27 | stores with the same fact values fire the same rules |
| Rules.ProcessAsWrittenWithoutFacts | personality/impl/simplePersonalityModule.py:22-37 | for rules whose conditions name no fact, the pass as written is the corrected pass |
| Rules.KnownFactRuleRaises | personality/impl/simplePersonalityModule.py:25 | as written, a free-enough rule reading a known fact makes the pass raise AttributeError |
| BehaviourTree.BuildNode | personality/impl/behaviourTreePresonalityModule.py:20-32 | `type` is required and must be one of four; composites need `children`, conditions compile theirs, actions need a template and a callback, with mode defaulting to `append`; a composite holds the children built from its entries, in order, and fails with the first failing child's error |
| BehaviourTree.BuildChildren | personality/impl/behaviourTreePresonalityModule.py:23-25 | the children load exactly when every child entry does, each built from its own entry in order, and otherwise the first failing child's error ends the load |
| BehaviourTree.BuildNodeLoads | personality/impl/behaviourTreePresonalityModule.py:20-32 | a tree loads exactly when every entry in it has a known type and the keys that type needs, and every condition in it compiles |
| BehaviourTree.Build | personality/impl/behaviourTreePresonalityModule.py:81-87 | `behavior_tree` is required, and the description defaults to empty |
| BehaviourTree.RunNode | personality/impl/behaviourTreePresonalityModule.py:35-78 | running a node changes only the instructions, and its result is whether the node holds |
| BehaviourTree.RunSequence | personality/impl/behaviourTreePresonalityModule.py:39-43 | a sequence succeeds exactly when every child holds |
| BehaviourTree.RunSelector | personality/impl/behaviourTreePresonalityModule.py:50-54 | a selector succeeds exactly when some child holds |
| BehaviourTree.HoldsOnSameValues | personality/impl/behaviourTreePresonalityModule.py:61-62 | stores with the same fact values give the same results |
| BehaviourTree.ActionFreeRunIsPure | personality/impl/behaviourTreePresonalityModule.py:35-62 | a tree without action nodes changes nothing and invokes nothing |
| BehaviourTree.GuardedAction | personality/impl/behaviourTreePresonalityModule.py:39-78 | `sequence [condition, action]` runs the action, invoking its callback and changing the instructions, exactly when the condition scores nonzero |
| BehaviourTree.SelectorFallsThrough | personality/impl/behaviourTreePresonalityModule.py:50-54 | a failing first child passes the turn to the rest of the selector, which starts from what the first child left |
| BehaviourTree.FallbackAction | personality/impl/behaviourTreePresonalityModule.py:50-78 | a selector whose guards all fail runs its final action and succeeds |
| BehaviourTree.Process | personality/impl/behaviourTreePresonalityModule.py:89-92 | the description is added to the personality lines before the tree runs, and only the instructions change besides |
| BehaviourTree.ProcessAsWrittenWithoutFacts | personality/impl/behaviourTreePresonalityModule.py:89-92 | for trees that read no fact, the run as written is the corrected run |
| BehaviourTree.KnownFactGuardRaises | personality/impl/behaviourTreePresonalityModule.py:61-62 | as written, a selector guarded by a known fact makes the whole turn raise |
| Memory.CloseAt | memory/impl/knowledgeGrpaphMemoryModule.py:28 | the lazy `.*?` of `\$\{(.*?)\}` closes at the first `}` before any newline |
| Memory.SegmentsRoundTrip | memory/impl/knowledgeGrpaphMemoryModule.py:28-31 | splitting an instruction into literal text and placeholders loses nothing: the pieces reassemble to the text |
| Memory.UnclosedAllLiteral | memory/impl/knowledgeGrpaphMemoryModule.py:28-31 | text in which no `${` is closed by a `}` on its line is all literal, so an unclosed `${` is copied as it is |
| Memory.SinglePlaceholder | memory/impl/knowledgeGrpaphMemoryModule.py:28 | `${name}` is one placeholder when the name has no `}` and no newline |
| Memory.Replace | memory/impl/knowledgeGrpaphMemoryModule.py:33-36 | a placeholder becomes the fact's value written out when it is truthy, and the empty string otherwise |
| Memory.ReplaceAsWritten | memory/impl/knowledgeGrpaphMemoryModule.py:33-36 | as written, a placeholder succeeds exactly for an unseen name, giving the empty string, and raises AttributeError for a known one |
| Memory.Fill | memory/impl/knowledgeGrpaphMemoryModule.py:29-31 | filling an instruction registers only the names of its placeholders |
| Memory.FillOnSameValues | memory/impl/knowledgeGrpaphMemoryModule.py:29-36 | stores with the same fact values give the same text |
| Memory.FillLiterals | memory/impl/knowledgeGrpaphMemoryModule.py:29-31 | literal pieces are copied as they are |
| Memory.Insert | memory/impl/knowledgeGrpaphMemoryModule.py:29-31 | inserting facts into one instruction writes no fact value |
| Memory.TextWithoutPlaceholderUnchanged | memory/impl/knowledgeGrpaphMemoryModule.py:27-31 | an instruction without a complete placeholder, such as `${name` or `${a` and `b}` on two lines, is left as it is and registers nothing |
| Memory.UnclosedPlaceholderKept | memory/impl/knowledgeGrpaphMemoryModule.py:28-31 | a `${` that no `}` closes stays in the instruction as typed |
| Memory.PlaceholderBecomesValue | memory/impl/knowledgeGrpaphMemoryModule.py:30-36 | `${name}` becomes the value when truthy, and empty otherwise |
| Memory.InsertOnGrown | memory/impl/knowledgeGrpaphMemoryModule.py:27-31 | registering names before an instruction does not change what it becomes |
| Memory.InsertFacts | memory/impl/knowledgeGrpaphMemoryModule.py:27-31 | every instruction is replaced in place by its filled text, each filled against the store the pass started with |
| Memory.Process | memory/impl/knowledgeGrpaphMemoryModule.py:38-40 | the memory stage changes only the instructions, filling each one, and keeps their number |
| Memory.FillAsWritten | memory/impl/knowledgeGrpaphMemoryModule.py:29-36 | as written, any placeholder naming a known fact makes the pass raise AttributeError |
| Memory.KnownFactPlaceholderRaises | memory/impl/knowledgeGrpaphMemoryModule.py:35 | as written, `${name}` for a set, truthy fact raises, where the corrected stage inserts the value |
| Preprocess.WordEnd | preprocessing/impl/simplePreprocessor.py:16 | the end of a maximal run of non-space characters |
| Preprocess.Words | preprocessing/impl/simplePreprocessor.py:16 | `split()` yields non-empty words free of Python whitespace |
| Preprocess.WordsAreRuns | preprocessing/impl/simplePreprocessor.py:16 | on any text, `split()` yields one word per position where a word begins, in order, each running to the next whitespace character or the end |
| Preprocess.GateCountsWordStarts | preprocessing/impl/simplePreprocessor.py:16-19 | the gate compares the number of word beginnings with `max_input_len`, whatever whitespace separates the words |
| Preprocess.WordsOfJoin | preprocessing/impl/simplePreprocessor.py:16 | splitting undoes joining words with single spaces |
| Preprocess.Process | preprocessing/impl/simplePreprocessor.py:15-19 | an input of more than `max_input_len` words is replaced by its summary with the two bounds, any other input is kept, and nothing else changes |
| Preprocess.DefaultGate | preprocessing/impl/simplePreprocessor.py:10-19 | with the defaults, fifteen single-spaced words pass unchanged and sixteen go to the summariser with the bounds 10 and 15 |
| Output.BandOf | output/impl/simpleProcessingModule.py:14-19 | urgency 0.75 and above is quick, from 0.5 below that is timely, and below 0.5 is unhurried |
| Output.BandMonotone | output/impl/simpleProcessingModule.py:14-19 | a higher urgency never asks for a more leisurely answer |
| Output.JoinEmpty | output/impl/simpleProcessingModule.py:21-23 | a join with a non-empty separator is empty exactly for no parts or one empty part |
| Output.PersonalityLine | output/impl/simpleProcessingModule.py:21 | the personality lines joined by `, `, or "neutral" exactly when that is empty, including a single empty description |
| Output.FactsLine | output/impl/simpleProcessingModule.py:22 | the facts joined by spaces, or "No specific context." exactly when that is empty |
| Output.InstructionsBlock | output/impl/simpleProcessingModule.py:23 | one `- ` bullet per instruction joined by newlines, with the default bullet exactly when there are no instructions |
| Output.Window | output/impl/simpleProcessingModule.py:41 | `history[-limit:]`: a positive limit keeps the last `limit` entries or all, 0 keeps all, and a negative limit drops leading entries |
| Output.BuildPrompt | output/impl/simpleProcessingModule.py:13-49 | the prompt shows the personality, facts, urgency with its guidance, the history window, the input and the instructions |
| Output.Unquote | output/impl/simpleProcessingModule.py:55-57 | one pair of matching outer quotes is removed, a lone quote becomes empty, and an unquoted reply is kept |
| Output.UnquoteQuote | output/impl/simpleProcessingModule.py:55-57 | quoting any text with either quote and unquoting it gives the text back |
| Output.Generate | output/impl/simpleProcessingModule.py:51-57 | the reply is the model's answer to the rendered prompt with its quotes stripped |
| Pipeline.RunFlow | pipeline.py:24 | the flow stage keeps its kind, changes neither input, history, facts nor personality, and can end the turn only with an error or a divergence |
| Pipeline.RunCharacter | pipeline.py:25 | the personality stage adds the character's description and otherwise changes only the instructions |
| Pipeline.Prepare | pipeline.py:22-26 | the container reaching the output stage holds the preprocessed input, the pipeline's history, no facts, and exactly the character's description |
| Pipeline.Evaluate | pipeline.py:21-30 | a turn keeps the stages' configuration; it grows the history by the preprocessed input and the reply when it answers, and leaves it unchanged when it ends early |
| Pipeline.Speak | pipeline.py:27-30 | the reply is the output stage's answer, recorded after the input |
| Pipeline.ShortInputRecorded | pipeline.py:23-29 | an input of at most `max_input_len` words is recorded as typed |
| Pipeline.PromptPersonality | pipeline.py:22-27 | the prompt names the character by its description alone, or calls it neutral when that is empty |
| Pipeline.HistoryInPairs | pipeline.py:28-29 | the history stays a sequence of whole turns, each turn appending after the old entries |

## Left out

- Floats: every score, urgency and freedom is a `real`, so comparisons are exact where Python rounds. For example `0.8 - 0.7 > 0.1` at flow/impl/fsmDialogueFlowModule.py:42 is True in Python and False here. Parser.DecimalValue gives the exact rational of a number lexeme, not the nearest double.
- Basics.Upper: ASCII letters only. Python's `str.upper()` is Unicode (`é` → `É`, `ß` → `SS`). Condition.SentimentScore and Condition.SentimentCategoryCaseInsensitive inherit this.
- Basics.IsDigit: ASCII digits only. Python's `\d` also matches other decimal digits, so a lexeme like `٣` is a number in Python and an unexpected character here. Lexer.Tokenize inherits this.
- Basics.IsWordChar: ASCII only. Python's `\w` and `\b` are Unicode. This only affects where `and`/`or` are recognised next to non-ASCII letters (Lexer.Tokenize).
- Logging everywhere, including the log calls inside the listener and event loops.
- The learned models (embedder, cosine similarity, sentiment classifier, paraphraser, summariser, language model, entity extractor) are parameters (`Models.Oracles`, `Pipeline.World`) that never raise.
- Goap.Step: the `except` branch at flow/impl/goapDialogueFlow.py:104-106 is reached only through the fact read of the Findings. Goap.StepAsWritten models it; with never-raising models, the corrected step has no exception to catch.
- Configuration loading (`loader.load_config`, JSON/YAML files): configurations are datatypes with `Option` fields for absent keys. Wrong value types in a configuration are not modelled.
- Callbacks and event actions are opaque values. The model returns which events were invoked and which listeners were called, with what arguments. It does not run them, so a listener that calls `set` or `set_fact` again, or an action that raises, is not modelled. Their exceptions are swallowed by the source anyway (facts.py:46-59, events.py:34-38).
- Containers.NewContainer: `history` is stored by reference (container.py:4), so the pipeline's history list and the container's are the same object. No stage mutates `container.history`, so passing it by value is equivalent, and the aliasing itself is not modelled.
- `Container.__str__` (container.py:11-20): display only.
- Memory.Process: `__populate_facts__` (memory/impl/knowledgeGrpaphMemoryModule.py:18-25) returns at the first extracted entity, before reading the knowledge data. It never adds a fact, so the extraction call is left out and the facts list is unchanged.
- Memory.Show: `str(value)` for numbers is a parameter (`showNumber`); booleans and strings are written as Python writes them.
- Output.Render: the `:.2f` urgency format and Python's list display of the history window are parameters (`Output.Formats`). The fixed text of the prompt is `Output.PromptLayout`.
- Fsm.Process, Goap.Applicable, Goap.ApplicableActions, Goap.Plan, Goap.Step, Goap.Process, Rules.ApplyRules, Rules.Process, BehaviourTree.RunNode, BehaviourTree.Process and Memory.Process: these use the corrected fact read of the Findings, not the code as written. Each has an `AsWritten` twin (Fsm.ProcessAsWritten, Goap.ApplicableAsWritten, Goap.ApplicableActionsAsWritten, Goap.PlanAsWritten, Goap.StepAsWritten, Goap.ProcessAsWritten, Rules.ApplyRulesAsWritten, Rules.ProcessAsWritten, BehaviourTree.RunNodeAsWritten, BehaviourTree.ProcessAsWritten, Memory.InsertFactsAsWritten). A bridge lemma shows that both agree when no condition names a fact. In the `AsWritten` twins, names registered before the exception are dropped with the store.
- Goap.Plan: the planner's loop is bounded by a `fuel` count. A loop that never ends in Python (the first applicable action's effects never reach the goal) ends here as `OutOfFuel`, and Pipeline.Evaluate reports it as `Diverged`. Goap.StuckLoop proves that such a loop is indeed endless.
- Pipeline.Evaluate: how the fact store grows over a turn is not stated, beyond each stage's own contract. The event names invoked are returned but not dispatched.
- Pipeline.Evaluate: the pipeline uses the corrected engines, so its personality and memory stages never raise. An exception in the flow stage ends the turn with `Raised`, as it propagates out of `evaluate` in Python.
- The abstract base classes (flow/dialogue.py, personality/personality.py, memory/memory.py and the others), the chat front end, `main.py` and the wrappers are not part of this model.

## Findings

| source | as written | input that shows it | evidently intended | confidence | as-written member | corrected member |
|---|---|---|---|---|---|---|
| condition.py:203 | `self.facts.get_fact(self.arg).get()`, but `get_fact` returns the bare value for a known name (facts.py:74), so `.get()` raises AttributeError. Every fact condition raises once its fact exists, and the value branches at condition.py:204-210 are unreachable. | `set_fact("mood", 1)`, then the condition `fact('mood') > 0` | read the fact's current value and score it (1 for the number 1) | high; not executed | Condition.EvaluateAsWritten, shown by Condition.FactConditionFailsOnKnownFact | Condition.Evaluate (through Facts.ReadFact) |
| memory/impl/knowledgeGrpaphMemoryModule.py:35 | `self.facts.get_fact(fact_name).get()` raises AttributeError for any known name, for the same reason. This includes a name registered by an earlier placeholder in the same pass. | `set_fact("mood", "happy")`, then the instruction `${mood}` | replace the placeholder by the value written out | high; not executed | Memory.InsertFactsAsWritten, shown by Memory.KnownFactPlaceholderRaises | Memory.Process |
