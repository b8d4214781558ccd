/** The output stage (`SimpleProcessingModule`): it writes the prompt for the
    language model from the container and strips one pair of matching quotes
    from the model's reply. */
module Output {
  import opened Basics
  import opened Containers

  /** `SimpleProcessingModule(llm, history_limit=5)` together with the
      prompt's fixed text; the model itself is a parameter of `Generate`. */
  datatype Generator = Generator(historyLimit: int, layout: Layout)

  const DefaultHistoryLimit: int := 5

  // ---- urgency ----

  /** The three urgency bands of the prompt, most pressing first. */
  datatype Band = Quick | Timely | Unhurried

  /** Both thresholds are inclusive: 0.75 is already quick, 0.5 already
      timely. */
  function BandOf(urgency: real): (b: Band)
    ensures b == Quick <==> 0.75 <= urgency
    ensures b == Timely <==> 0.5 <= urgency < 0.75
    ensures b == Unhurried <==> urgency < 0.5
  {
    if urgency >= 0.75 then Quick
    else if urgency >= 0.5 then Timely
    else Unhurried
  }

  function Pressure(b: Band): nat {
    match b
    case Unhurried => 0
    case Timely => 1
    case Quick => 2
  }

  /** A higher urgency never asks for a more leisurely answer. */
  lemma BandMonotone(u: real, v: real)
    requires u <= v
    ensures Pressure(BandOf(u)) <= Pressure(BandOf(v))
  {
  }

  function Guidance(b: Band): string {
    match b
    case Quick => "Respond quickly and decisively."
    case Timely => "Respond in a timely and calm manner."
    case Unhurried => "Take your time and respond thoughtfully."
  }

  // ---- the joined lines ----

  /** With a non-empty separator the joined text is empty only for no parts
      or a single empty part. */
  lemma JoinEmpty(parts: seq<string>, sep: string)
    requires sep != ""
    ensures Join(parts, sep) == "" <==> (parts == [] || parts == [""])
  {
    if |parts| >= 2 {
      assert |Join(parts, sep)| >= |sep|;
    }
  }

  const Neutral: string := "neutral"
  const NoContext: string := "No specific context."
  const NoInstructions: string := "- No specific instructions."

  /** `", ".join(personality) or "neutral"`: the default replaces the joined
      text when that is empty, which is also the case for one empty line. */
  function PersonalityLine(lines: seq<string>): (r: string)
    ensures (lines == [] || lines == [""]) ==> r == Neutral
    ensures !(lines == [] || lines == [""]) ==> r == Join(lines, ", ") && r != ""
  {
    JoinEmpty(lines, ", ");
    var j := Join(lines, ", ");
    if j == "" then Neutral else j
  }

  /** `" ".join(facts) or "No specific context."`. */
  function FactsLine(facts: seq<string>): (r: string)
    ensures (facts == [] || facts == [""]) ==> r == NoContext
    ensures !(facts == [] || facts == [""]) ==> r == Join(facts, " ") && r != ""
  {
    JoinEmpty(facts, " ");
    var j := Join(facts, " ");
    if j == "" then NoContext else j
  }

  /** Each instruction as a bullet line. */
  function Bullets(instructions: seq<string>): (r: seq<string>)
    ensures |r| == |instructions|
    ensures forall i :: 0 <= i < |r| ==> r[i] == "- " + instructions[i]
  {
    seq(|instructions|, i requires 0 <= i < |instructions| => "- " + instructions[i])
  }

  /** The bullets joined by newlines, or the default bullet. Every bullet
      is non-empty, so the default appears exactly when there is no
      instruction at all, even an empty one. */
  function InstructionsBlock(instructions: seq<string>): (r: string)
    ensures instructions == [] ==> r == NoInstructions
    ensures instructions != [] ==> r == Join(Bullets(instructions), "\n") && |r| >= 2
  {
    var bullets := Bullets(instructions);
    JoinEmpty(bullets, "\n");
    assert bullets != [] ==> |bullets[0]| >= 2;
    var j := Join(bullets, "\n");
    if j == "" then NoInstructions else j
  }

  // ---- the history window ----

  /** `history[-history_limit:]` with Python's slice rules: a positive limit
      keeps the last `limit` entries (all of them when there are fewer), a
      limit of 0 keeps the whole history because `-0` is `0`, and a negative
      limit drops the first `-limit` entries. */
  function Window(history: seq<string>, limit: int): (r: seq<string>)
    ensures 0 < limit ==> |r| == (if limit < |history| then limit else |history|)
    ensures 0 < limit ==> history == history[..|history| - |r|] + r
    ensures limit == 0 ==> r == history
    ensures limit < 0 ==> r == history[(if -limit < |history| then -limit else |history|)..]
  {
    var start := -limit;
    if start < 0 then
      (if |history| + start < 0 then history else history[|history| + start..])
    else if start <= |history| then history[start..]
    else []
  }

  // ---- the prompt ----

  /** What the prompt shows, field by field; `Render` lays it out. */
  datatype Prompt = Prompt(personality: string, facts: string, urgency: real, guidance: string,
                           history: seq<string>, input: string, instructions: string)

  /** `__build_prompt__`, before layout. */
  function BuildPrompt(g: Generator, c: Container): (p: Prompt)
    ensures p.guidance == Guidance(BandOf(c.urgency)) && p.urgency == c.urgency
    ensures p.personality == PersonalityLine(c.personality)
    ensures p.facts == FactsLine(c.facts)
    ensures p.instructions == InstructionsBlock(c.instructions)
    ensures p.history == Window(c.history, g.historyLimit)
    ensures p.input == c.input
  {
    Prompt(PersonalityLine(c.personality), FactsLine(c.facts), c.urgency, Guidance(BandOf(c.urgency)),
           Window(c.history, g.historyLimit), c.input, InstructionsBlock(c.instructions))
  }

  /** How two values are written into the text: the urgency with two
      decimals (`:.2f`) and the history as Python's list display. */
  datatype Formats = Formats(urgency: real -> string, history: seq<string> -> string)

  /** The fixed text of the prompt between the values it shows, in order. */
  datatype Layout = Layout(opening: string, beforeFacts: string, beforeUrgency: string, arrow: string,
                           beforeHistory: string, beforeInput: string, beforeInstructions: string,
                           closing: string)

  /** The text `__build_prompt__` writes around the values. */
  const PromptLayout: Layout := Layout(
    "You are roleplaying a character with the following personality traits: **",
    "**.\n\nContext to consider:\n- **Known facts**: \n",
    "\n- **Urgency**: ",
    " \U{2192} ",
    "\n\nYour task:\n"
      + "- React naturally to the user's input.\n"
      + "- Follow the intent of the instructions below, but rephrase them in a natural, in-character way.\n"
      + "- Stay grounded in the provided facts and personality.\n"
      + "- Do not invent new actions or topics, only reword what's given.\n"
      + "- Do not add anything new\n"
      + "- Write small response\n\n"
      + "Conversation history:\n",
    "\n\nUser input:\n\"",
    "\"\n\nFollowing intent of instruction below rephrase:\n",
    "\n\nYour short response:")

  /** The generator the pipeline is usually built with. */
  const DefaultGenerator: Generator := Generator(DefaultHistoryLimit, PromptLayout)

  /** The prompt text: the fixed pieces with the values between them. */
  function Render(t: Layout, p: Prompt, f: Formats): string {
    t.opening + p.personality + t.beforeFacts + p.facts + t.beforeUrgency + f.urgency(p.urgency)
    + t.arrow + p.guidance + t.beforeHistory + f.history(p.history) + t.beforeInput + p.input
    + t.beforeInstructions + p.instructions + t.closing
  }

  // ---- the reply ----

  /** Starts and ends with the same kind of quote; a lone quote character
      counts, as it both starts and ends the text. */
  predicate Quoted(s: string) {
    |s| >= 1 && ((s[0] == '"' && s[|s| - 1] == '"') || (s[0] == '\'' && s[|s| - 1] == '\''))
  }

  /** `r` is `s` with its matching outer quotes taken off, or `s` itself
      when it is not quoted. */
  predicate Unquoted(s: string, r: string) {
    (!Quoted(s) ==> r == s)
    && (Quoted(s) && |s| == 1 ==> r == "")
    && (Quoted(s) && |s| >= 2 ==> s == [s[0]] + r + [s[0]])
  }

  /** `response[1:-1]` for a quoted reply, the reply itself otherwise. */
  function Unquote(s: string): (r: string)
    ensures Unquoted(s, r)
  {
    if Quoted(s) then (if |s| == 1 then "" else s[1..|s| - 1]) else s
  }

  /** Quoting any text and unquoting it gives the text back. */
  lemma UnquoteQuote(t: string, q: char)
    requires q == '"' || q == '\''
    ensures Unquote([q] + t + [q]) == t
  {
    var s := [q] + t + [q];
    assert Quoted(s);
    assert s[1..|s| - 1] == t;
  }

  /** `generate`: the model answers the rendered prompt, and one pair of
      matching quotes is taken off its answer. */
  function Generate(g: Generator, c: Container, f: Formats, llm: string -> string): (r: string)
    ensures Unquoted(Answer(g, c, f, llm), r)
  {
    Unquote(Answer(g, c, f, llm))
  }

  /** The model's raw answer to the prompt built from the container. */
  function Answer(g: Generator, c: Container, f: Formats, llm: string -> string): string {
    llm(Render(g.layout, BuildPrompt(g, c), f))
  }
}
