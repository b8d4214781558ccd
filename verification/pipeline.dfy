/** `DialoguePipline`: one turn runs the preprocessor, the dialogue flow,
    the personality, the memory and the output stage in that order on a
    fresh container, then records the (possibly summarised) input and the
    reply in the history. */
module Pipeline {
  import opened Basics
  import opened Containers
  import opened Models
  import Facts
  import Fsm
  import Goap
  import Rules
  import BehaviourTree
  import Memory
  import Preprocess
  import Output

  /** The dialogue flow stage: a state machine or a planner. */
  datatype Flow = StateMachine(machine: Fsm.Machine) | Planner(planner: Goap.Module)

  /** The personality stage: the rule list or the behaviour tree. */
  datatype Character = RuleSet(rules: Rules.Personality) | Tree(tree: BehaviourTree.TreePersonality)

  datatype Pipeline = Pipeline(preprocessor: Preprocess.Preprocessor, flow: Flow, character: Character,
                               output: Output.Generator, history: seq<string>)

  /** Everything a turn consults outside the pipeline: the learned models,
      how numbers and the history are written into text, the language model,
      and the planner's search bound. */
  datatype World = World(oracles: Oracles, showNumber: real -> string, formats: Output.Formats,
                         llm: string -> string, fuel: nat)

  /** How a turn ended: with a reply, with an exception out of the flow
      stage, or with the planner's search bound used up. */
  datatype Reply = Said(text: string) | Raised(error: Error) | Diverged

  /** The flow stage's effect; `halt` is how the turn ends early, if it does. */
  datatype FlowStep = FlowStep(flow: Flow, container: Container, store: Facts.FactStore,
                               events: seq<Option<string>>, halt: Option<Reply>)

  function RunFlow(f: Flow, c: Container, store: Facts.FactStore, w: World): (r: FlowStep)
    ensures r.flow.StateMachine? == f.StateMachine?
    ensures r.container.input == c.input && r.container.history == c.history
    ensures r.container.facts == c.facts && r.container.personality == c.personality
    ensures r.halt.None? || !r.halt.value.Said?
  {
    match f
    case StateMachine(m) =>
      var out := Fsm.Process(m, c, store, w.oracles);
      FlowStep(StateMachine(out.machine), out.container, out.store, out.events,
               if out.error.Some? then Some(Raised(out.error.value)) else None)
    case Planner(g) =>
      var out := Goap.Process(g, c, store, w.oracles, w.fuel);
      FlowStep(Planner(out.flow), out.container, out.store, out.events,
               match out.status
               case Completed => None
               case Failed(e) => Some(Raised(e))
               case Diverged => Some(Diverged))
  }

  /** The personality stage's effect: its description joins the personality
      lines and only the instructions may change besides. */
  function RunCharacter(ch: Character, c: Container, store: Facts.FactStore, o: Oracles): (r: (Container, Facts.FactStore, seq<Option<string>>))
    ensures r.0 == c.(personality := r.0.personality, instructions := r.0.instructions)
    ensures r.0.personality == c.personality + [Description(ch)]
  {
    match ch
    case RuleSet(p) =>
      var (c1, s1) := Rules.Process(p, c, store, o);
      (c1, s1, [])
    case Tree(t) =>
      var run := BehaviourTree.Process(t, c, store, o);
      (run.container, run.store, run.events)
  }

  function Description(ch: Character): string {
    match ch
    case RuleSet(p) => p.description
    case Tree(t) => t.description
  }

  /** What the output stage receives: the flow stage's step, the container
      after the memory stage, the store and the events so far. */
  datatype Prepared = Prepared(step: FlowStep, container: Container, store: Facts.FactStore,
                               events: seq<Option<string>>)

  /** The stages before the output, in the pipeline's order. */
  function Prepare(p: Pipeline, input: string, store: Facts.FactStore, w: World): (r: Prepared)
    ensures r.container.input == Preprocess.Process(p.preprocessor, ForTurn(input, p.history), w.oracles.summarize).input
    ensures r.container.history == p.history && r.container.facts == []
    ensures r.container.personality == [Description(p.character)]
  {
    var c1 := Preprocess.Process(p.preprocessor, ForTurn(input, p.history), w.oracles.summarize);
    var f := RunFlow(p.flow, c1, store, w);
    var ch := RunCharacter(p.character, f.container, f.store, w.oracles);
    var mem := Memory.Process(ch.0, ch.1, w.showNumber);
    assert mem.0 == ch.0.(instructions := mem.0.instructions);
    Prepared(f, mem.0, mem.1, f.events + ch.2)
  }

  /** What a turn leaves behind. */
  datatype Turn = Turn(pipeline: Pipeline, store: Facts.FactStore, events: seq<Option<string>>, reply: Reply)

  /** `evaluate`. A turn the flow stage ends early leaves the history as it
      was; otherwise the history grows by exactly two entries, the input as
      the preprocessor left it and the reply. */
  function Evaluate(p: Pipeline, input: string, store: Facts.FactStore, w: World): (r: Turn)
    ensures r.pipeline.preprocessor == p.preprocessor && r.pipeline.character == p.character
    ensures r.pipeline.output == p.output && r.pipeline.flow.StateMachine? == p.flow.StateMachine?
    ensures !r.reply.Said? ==> r.pipeline.history == p.history
    ensures r.reply.Said? ==>
              r.pipeline.history == p.history
                + [Preprocess.Process(p.preprocessor, ForTurn(input, p.history), w.oracles.summarize).input, r.reply.text]
  {
    var pr := Prepare(p, input, store, w);
    if pr.step.halt.Some? then Turn(p.(flow := pr.step.flow), pr.step.store, pr.step.events, pr.step.halt.value)
    else Speak(p, pr, w)
  }

  /** The output stage's reply, recorded after the input. */
  function Speak(p: Pipeline, pr: Prepared, w: World): (r: Turn)
    ensures r.reply == Said(Output.Generate(p.output, pr.container, w.formats, w.llm))
    ensures r.pipeline.history == p.history + [pr.container.input, r.reply.text]
    ensures r.pipeline.flow == pr.step.flow && r.pipeline.preprocessor == p.preprocessor
    ensures r.pipeline.character == p.character && r.pipeline.output == p.output
  {
    var text := Output.Generate(p.output, pr.container, w.formats, w.llm);
    Turn(p.(flow := pr.step.flow, history := p.history + [pr.container.input, text]), pr.store, pr.events, Said(text))
  }

  /** An input of at most `max_input_len` words is recorded as typed. */
  lemma ShortInputRecorded(p: Pipeline, input: string, store: Facts.FactStore, w: World)
    requires |Preprocess.Words(input)| <= p.preprocessor.maxInputLen
    ensures var r := Evaluate(p, input, store, w);
      r.reply.Said? ==> r.pipeline.history == p.history + [input, r.reply.text]
  {
  }

  /** The prompt names the character by its description alone, or calls it
      neutral when the description is empty: every turn starts from a
      container without personality lines. */
  lemma PromptPersonality(p: Pipeline, input: string, store: Facts.FactStore, w: World)
    ensures var c := Prepare(p, input, store, w).container;
      Output.BuildPrompt(p.output, c).personality
        == (if Description(p.character) == "" then Output.Neutral else Description(p.character))
  {
    var c := Prepare(p, input, store, w).container;
    assert c.personality == [Description(p.character)];
    assert Join(c.personality, ", ") == Description(p.character);
  }

  /** Turns add the history in pairs: a history that held whole turns
      still does, the input of each at an even position. */
  lemma HistoryInPairs(p: Pipeline, input: string, store: Facts.FactStore, w: World)
    requires |p.history| % 2 == 0
    ensures var r := Evaluate(p, input, store, w);
      |r.pipeline.history| % 2 == 0 && r.pipeline.history[..|p.history|] == p.history
  {
    var r := Evaluate(p, input, store, w);
    if r.reply.Said? {
      var x := Preprocess.Process(p.preprocessor, ForTurn(input, p.history), w.oracles.summarize).input;
      var h := r.pipeline.history;
      assert h == p.history + [x, r.reply.text];
      assert h[..|p.history|] == p.history;
      assert |h| == |p.history| + 2;
      PairKeepsParity(|p.history|);
    }
  }

  lemma PairKeepsParity(n: nat)
    ensures (n + 2) % 2 == n % 2
  {
  }
}
