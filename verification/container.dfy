/** The record the pipeline stages pass along: the user's input, the
    conversation history, the current urgency and freedom, and the facts,
    instructions and personality lines gathered for the prompt. */
module Containers {
  import opened Basics

  datatype Container = Container(
    input: string,
    history: seq<string>,
    urgency: real,
    freedom: real,
    facts: seq<string>,
    instructions: seq<string>,
    personality: seq<string>
  )

  const DefaultUrgency: real := 0.5
  const DefaultFreedom: real := 0.5

  /** `Container(...)`: every argument is optional. The input defaults to the
      empty string, urgency and freedom to 0.5, and a missing list to a new
      empty list. */
  function NewContainer(input: Option<string>, history: Option<seq<string>>, urgency: Option<real>,
                        freedom: Option<real>, facts: Option<seq<string>>,
                        instructions: Option<seq<string>>, personality: Option<seq<string>>): (c: Container)
    ensures input.None? ==> c.input == ""
    ensures urgency.None? ==> c.urgency == DefaultUrgency
    ensures freedom.None? ==> c.freedom == DefaultFreedom
    ensures history.None? ==> c.history == []
    ensures facts.None? ==> c.facts == []
    ensures instructions.None? ==> c.instructions == []
    ensures personality.None? ==> c.personality == []
    ensures input.Some? ==> c.input == input.value
    ensures history.Some? ==> c.history == history.value
    ensures urgency.Some? ==> c.urgency == urgency.value
    ensures freedom.Some? ==> c.freedom == freedom.value
    ensures facts.Some? ==> c.facts == facts.value
    ensures instructions.Some? ==> c.instructions == instructions.value
    ensures personality.Some? ==> c.personality == personality.value
  {
    Container(input.GetOr(""), history.GetOr([]), urgency.GetOr(DefaultUrgency), freedom.GetOr(DefaultFreedom),
              facts.GetOr([]), instructions.GetOr([]), personality.GetOr([]))
  }

  /** The container the pipeline starts a turn with. */
  function ForTurn(input: string, history: seq<string>): (c: Container)
    ensures c.input == input && c.history == history
    ensures c.urgency == DefaultUrgency && c.freedom == DefaultFreedom
    ensures c.facts == [] && c.instructions == [] && c.personality == []
  {
    NewContainer(Some(input), Some(history), None, None, None, None, None)
  }

  /** Leaving a list out is the same as passing an empty one, and leaving
      urgency or freedom out the same as passing 0.5. */
  lemma MissingMeansDefault(input: Option<string>, history: Option<seq<string>>, urgency: Option<real>,
                            freedom: Option<real>, facts: Option<seq<string>>,
                            instructions: Option<seq<string>>, personality: Option<seq<string>>)
    ensures NewContainer(input, history, urgency, freedom, facts, instructions, personality)
         == NewContainer(Some(input.GetOr("")), Some(history.GetOr([])), Some(urgency.GetOr(DefaultUrgency)),
                         Some(freedom.GetOr(DefaultFreedom)), Some(facts.GetOr([])),
                         Some(instructions.GetOr([])), Some(personality.GetOr([])))
  {
  }
}
