/** The memory stage: `${name}` placeholders in the instructions are
    replaced by the current value of the named fact. The entity-lookup pass
    that precedes it returns before doing anything, so the container's
    facts never change. */
module Memory {
  import opened Basics
  import opened Values
  import opened Containers
  import Facts
  import Condition

  // ---- the placeholder pattern `\$\{(.*?)\}` ----

  /** A piece of an instruction as the pattern splits it: a character
      copied as it is, or a complete placeholder with the name between its
      braces. */
  datatype Segment = Literal(ch: char) | Placeholder(name: string)

  /** A `${` starts at position `i`. */
  predicate OpensAt(s: string, i: nat) {
    i + 1 < |s| && s[i] == '$' && s[i + 1] == '{'
  }

  /** The lazy group `(.*?)` followed by `\}`: the first `}` at or after
      `from`, provided no line break comes before it (`.` does not match a
      line break). */
  function CloseAt(s: string, from: nat): (r: Option<nat>)
    requires from <= |s|
    ensures r.Some? ==> from <= r.value < |s| && s[r.value] == '}'
                        && forall j :: from <= j < r.value ==> s[j] != '}' && s[j] != '\n'
    ensures r.None? ==> forall j :: from <= j < |s| && s[j] == '}' ==> exists m :: from <= m < j && s[m] == '\n'
    decreases |s| - from
  {
    if from == |s| then None
    else if s[from] == '}' then Some(from)
    else if s[from] == '\n' then None
    else CloseAt(s, from + 1)
  }

  /** The text a piece stands for: the character, or `${name}`. */
  function Text(seg: Segment): string {
    match seg
    case Literal(ch) => [ch]
    case Placeholder(name) => "${" + name + "}"
  }

  function Unparse(segs: seq<Segment>): string {
    if segs == [] then "" else Text(segs[0]) + Unparse(segs[1..])
  }

  /** The piece the scan finds at position `i`, and where it goes on: a
      `${` whose placeholder closes is one piece up to its `}`; anything
      else is one literal character. */
  function Piece(s: string, i: nat): (r: (Segment, nat))
    requires i < |s|
    ensures i < r.1 <= |s|
  {
    if OpensAt(s, i) && CloseAt(s, i + 2).Some? then
      var close := CloseAt(s, i + 2).value;
      (Placeholder(s[i + 2..close]), close + 1)
    else (Literal(s[i]), i + 1)
  }

  /** `pattern.sub` scans from left to right: where a placeholder starts and
      closes it is replaced and the scan goes on after its `}`; anywhere
      else one character is copied. */
  function Segments(s: string, i: nat): seq<Segment>
    requires i <= |s|
    decreases |s| - i
  {
    if i == |s| then [] else [Piece(s, i).0] + Segments(s, Piece(s, i).1)
  }

  /** A piece stands for exactly the text it was scanned from. */
  lemma PieceText(s: string, i: nat)
    requires i < |s|
    ensures s[i..] == Text(Piece(s, i).0) + s[Piece(s, i).1..]
  {
    if OpensAt(s, i) && CloseAt(s, i + 2).Some? {
      var close := CloseAt(s, i + 2).value;
      assert s[i..i + 2] == "${";
      assert s[i..] == s[i..i + 2] + s[i + 2..close] + [s[close]] + s[close + 1..];
    } else {
      assert s[i..] == [s[i]] + s[i + 1..];
    }
  }

  /** The scan loses nothing: putting the pieces back together gives the
      scanned text. */
  lemma {:induction false} SegmentsRoundTrip(s: string, i: nat)
    requires i <= |s|
    ensures Unparse(Segments(s, i)) == s[i..]
    decreases |s| - i
  {
    if i < |s| {
      var (seg, next) := Piece(s, i);
      var segs := Segments(s, i);
      assert segs[0] == seg && segs[1..] == Segments(s, next);
      SegmentsRoundTrip(s, next);
      PieceText(s, i);
    }
  }

  /** Text in which no `${` is closed (there is none, or no `}` follows it
      on its line) is all literal characters: an unclosed `${` is copied
      as it is. */
  lemma {:induction false} UnclosedAllLiteral(s: string, i: nat)
    requires i <= |s|
    requires forall j :: i <= j < |s| && OpensAt(s, j) ==> CloseAt(s, j + 2).None?
    ensures forall j :: 0 <= j < |Segments(s, i)| ==> Segments(s, i)[j].Literal?
    decreases |s| - i
  {
    if i < |s| {
      UnclosedAllLiteral(s, i + 1);
    }
  }

  /** A single placeholder whose name holds no `}` and no line break is
      recognised as one piece, with that name. */
  lemma SinglePlaceholder(name: string)
    requires '}' !in name && '\n' !in name
    ensures Segments("${" + name + "}", 0) == [Placeholder(name)]
  {
    var s := "${" + name + "}";
    assert OpensAt(s, 0);
    CloseAfterName(name, s, 2);
    assert s[2..|s| - 1] == name;
  }

  lemma {:induction false} CloseAfterName(name: string, s: string, from: nat)
    requires '}' !in name && '\n' !in name
    requires s == "${" + name + "}" && 2 <= from <= |s| - 1
    ensures CloseAt(s, from) == Some(|s| - 1)
    decreases |s| - from
  {
    if from < |s| - 1 {
      assert s[from] == name[from - 2];
      CloseAfterName(name, s, from + 1);
    }
  }

  // ---- replacing one placeholder ----

  /** Python's `str(value)` for the values that get printed; numbers are
      shown by the given rendering. */
  function Show(v: Value, showNumber: real -> string): string {
    match v
    case Null => "None"
    case Num(x) => showNumber(x)
    case Bool(b) => if b then "True" else "False"
    case Str(t) => t
  }

  /** `__replace_fact__` as its author evidently meant it: the fact's value,
      shown when it is truthy and dropped otherwise (so `0`, `False`, `""`
      and `None` all vanish); an unseen name is registered and reads as
      `None`. */
  function Replace(store: Facts.FactStore, name: string, showNumber: real -> string): (r: (Facts.FactStore, string))
    ensures r.0 == Facts.Register(store, name)
    ensures !Truthy(Facts.ValueOf(store, name)) ==> r.1 == ""
    ensures Truthy(Facts.ValueOf(store, name)) ==> r.1 == Show(Facts.ValueOf(store, name), showNumber)
    ensures name !in store ==> r.1 == ""
  {
    var (s, v) := Facts.ReadFact(store, name);
    (s, if Truthy(v) then Show(v, showNumber) else "")
  }

  /** `__replace_fact__` as written: `get_fact(name).get()`. A known name
      yields the bare value, which has no `get`, so the call raises; an
      unseen name yields its new empty fact, which reads as `None`. */
  function ReplaceAsWritten(store: Facts.FactStore, name: string, showNumber: real -> string): (r: Result<(Facts.FactStore, string)>)
    ensures r.Ok? <==> name !in store
    ensures r.Ok? ==> r.value == (Facts.Register(store, name), "")
    ensures r.Err? ==> r.error == AttributeError("get")
  {
    match Facts.GetFact(store, name)
    case (s, FactObject(f)) => Ok((s, if Truthy(f.value) then Show(f.value, showNumber) else ""))
    case (_, RawValue(_)) => Err(AttributeError("get"))
  }

  // ---- one instruction ----

  function PlaceholderNames(segs: seq<Segment>): set<string> {
    if segs == [] then {}
    else (if segs[0].Placeholder? then {segs[0].name} else {}) + PlaceholderNames(segs[1..])
  }

  /** The text with every placeholder replaced, in order, each on the store
      the previous ones left. */
  function Fill(segs: seq<Segment>, store: Facts.FactStore, showNumber: real -> string): (r: (Facts.FactStore, string))
    ensures Condition.RegisteredOnly(store, r.0, PlaceholderNames(segs))
  {
    if segs == [] then (store, "")
    else
      var (s1, head) :=
        match segs[0]
        case Literal(ch) => (store, [ch])
        case Placeholder(name) => Replace(store, name, showNumber);
      var (s2, rest) := Fill(segs[1..], s1, showNumber);
      (s2, head + rest)
  }

  /** What a filled text says depends only on what the facts read as, not
      on which names the store has registered. */
  lemma {:induction false} FillOnSameValues(segs: seq<Segment>, a: Facts.FactStore, b: Facts.FactStore, showNumber: real -> string)
    requires forall n :: Facts.ValueOf(a, n) == Facts.ValueOf(b, n)
    ensures Fill(segs, a, showNumber).1 == Fill(segs, b, showNumber).1
  {
    if segs != [] {
      match segs[0]
      case Literal(ch) =>
        FillOnSameValues(segs[1..], a, b, showNumber);
      case Placeholder(name) =>
        var sa := Replace(a, name, showNumber).0;
        var sb := Replace(b, name, showNumber).0;
        assert forall n :: Facts.ValueOf(sa, n) == Facts.ValueOf(sb, n);
        FillOnSameValues(segs[1..], sa, sb, showNumber);
    }
  }

  /** Literal characters are copied unchanged. */
  lemma {:induction false} FillLiterals(segs: seq<Segment>, store: Facts.FactStore, showNumber: real -> string)
    requires forall j :: 0 <= j < |segs| ==> segs[j].Literal?
    ensures Fill(segs, store, showNumber) == (store, Unparse(segs))
  {
    if segs != [] {
      FillLiterals(segs[1..], store, showNumber);
    }
  }

  /** `pattern.sub(replace, text)` with the intended replacement. */
  function Insert(text: string, store: Facts.FactStore, showNumber: real -> string): (r: (Facts.FactStore, string))
    ensures Condition.Grows(store, r.0)
  {
    var segs := Segments(text, 0);
    var r := Fill(segs, store, showNumber);
    Condition.RegisteredGrows(store, r.0, PlaceholderNames(segs));
    r
  }

  /** Text with no complete placeholder in it, such as `"${name"` or
      `"${a\nb}"`, is left exactly as it was, and registers nothing. */
  lemma TextWithoutPlaceholderUnchanged(text: string, store: Facts.FactStore, showNumber: real -> string)
    requires forall j :: 0 <= j < |text| && OpensAt(text, j) ==> CloseAt(text, j + 2).None?
    ensures Insert(text, store, showNumber) == (store, text)
  {
    UnclosedAllLiteral(text, 0);
    FillLiterals(Segments(text, 0), store, showNumber);
    SegmentsRoundTrip(text, 0);
  }

  /** A `${` never closed, as in `"${name"`, stays in the instruction. */
  lemma UnclosedPlaceholderKept(name: string, store: Facts.FactStore, showNumber: real -> string)
    requires '}' !in name
    ensures Insert("${" + name, store, showNumber) == (store, "${" + name)
  {
    var text := "${" + name;
    forall j | 0 <= j < |text| && OpensAt(text, j) ensures CloseAt(text, j + 2).None? {
      assert forall k :: 0 <= k < |text| ==> text[k] != '}' by {
        forall k | 0 <= k < |text| ensures text[k] != '}' {
          if k >= 2 {
            assert text[k] == name[k - 2];
          }
        }
      }
    }
    TextWithoutPlaceholderUnchanged(text, store, showNumber);
  }

  /** An instruction that is just `${name}` becomes the fact's value when it
      is truthy, and the empty string otherwise. */
  lemma PlaceholderBecomesValue(name: string, store: Facts.FactStore, showNumber: real -> string)
    requires '}' !in name && '\n' !in name
    ensures var v := Facts.ValueOf(store, name);
            Insert("${" + name + "}", store, showNumber).1 == (if Truthy(v) then Show(v, showNumber) else "")
  {
    SinglePlaceholder(name);
    var segs := [Placeholder(name)];
    var r := Replace(store, name, showNumber);
    assert segs[1..] == [] && Fill([], r.0, showNumber).1 == "";
    assert Fill(segs, store, showNumber).1 == r.1 + Fill([], r.0, showNumber).1;
  }

  // ---- the module ----

  /** `__insert_facts__`: every instruction is rewritten in place, in
      order. The number and order of the instructions never change, no fact
      changes value, and each instruction comes out as it would have on the
      store the turn started with. */
  /** Registering names does not change what a later instruction reads. */
  lemma InsertOnGrown(text: string, store: Facts.FactStore, grown: Facts.FactStore, showNumber: real -> string)
    requires Condition.Grows(store, grown)
    ensures Insert(text, grown, showNumber).1 == Insert(text, store, showNumber).1
  {
    Condition.GrowsKeepsValues(store, grown);
    FillOnSameValues(Segments(text, 0), grown, store, showNumber);
  }

  function InsertFacts(instructions: seq<string>, store: Facts.FactStore, showNumber: real -> string): (r: (Facts.FactStore, seq<string>))
    ensures |r.1| == |instructions|
    ensures Condition.Grows(store, r.0)
    ensures forall i :: 0 <= i < |instructions| ==> r.1[i] == Insert(instructions[i], store, showNumber).1
  {
    if instructions == [] then (store, [])
    else
      var (s1, head) := Insert(instructions[0], store, showNumber);
      var (s2, rest) := InsertFacts(instructions[1..], s1, showNumber);
      Condition.GrowsTransitive(store, s1, s2);
      var all := [head] + rest;
      forall i | 0 <= i < |instructions|
        ensures all[i] == Insert(instructions[i], store, showNumber).1
      {
        if i > 0 {
          assert all[i] == rest[i - 1] && instructions[1..][i - 1] == instructions[i];
          InsertOnGrown(instructions[i], store, s1, showNumber);
        }
      }
      (s2, all)
  }

  /** `process`: the entity pass changes nothing, then the placeholders are
      filled. Only the instructions change. */
  function Process(c: Container, store: Facts.FactStore, showNumber: real -> string): (r: (Container, Facts.FactStore))
    ensures r.0 == c.(instructions := r.0.instructions)
    ensures |r.0.instructions| == |c.instructions|
    ensures forall i :: 0 <= i < |c.instructions| ==> r.0.instructions[i] == Insert(c.instructions[i], store, showNumber).1
    ensures Condition.Grows(store, r.1)
  {
    var (s, ins) := InsertFacts(c.instructions, store, showNumber);
    (c.(instructions := ins), s)
  }

  // ---- the code as written ----

  function FillAsWritten(segs: seq<Segment>, store: Facts.FactStore, showNumber: real -> string): (r: Result<(Facts.FactStore, string)>)
    ensures (exists j :: 0 <= j < |segs| && segs[j].Placeholder? && segs[j].name in store) ==> r.Err?
    ensures r.Err? ==> r.error == AttributeError("get")
  {
    if segs == [] then Ok((store, ""))
    else
      match segs[0]
      case Literal(ch) =>
        (match FillAsWritten(segs[1..], store, showNumber)
         case Err(e) => Err(e)
         case Ok((s, rest)) =>
           assert forall j :: 1 <= j < |segs| ==> segs[j] == segs[1..][j - 1];
           Ok((s, [ch] + rest)))
      case Placeholder(name) =>
        match ReplaceAsWritten(store, name, showNumber)
        case Err(e) => Err(e)
        case Ok((s1, head)) =>
          assert forall j :: 1 <= j < |segs| ==> segs[j] == segs[1..][j - 1];
          match FillAsWritten(segs[1..], s1, showNumber)
          case Err(e) => Err(e)
          case Ok((s2, rest)) => Ok((s2, head + rest))
  }

  /** `__insert_facts__` as written: the first placeholder naming a known
      fact raises, whatever its value. */
  function InsertFactsAsWritten(instructions: seq<string>, store: Facts.FactStore, showNumber: real -> string): (r: Result<(Facts.FactStore, seq<string>)>)
    ensures r.Ok? ==> |r.value.1| == |instructions|
  {
    if instructions == [] then Ok((store, []))
    else
      match FillAsWritten(Segments(instructions[0], 0), store, showNumber)
      case Err(e) => Err(e)
      case Ok((s1, head)) =>
        match InsertFactsAsWritten(instructions[1..], s1, showNumber)
        case Err(e) => Err(e)
        case Ok((s2, rest)) => Ok((s2, [head] + rest))
  }

  /** The discrepancy: an instruction mentioning a fact that has been set
      makes the code as written raise, where the value was meant to be
      inserted. */
  lemma KnownFactPlaceholderRaises(name: string, v: Value, store: Facts.FactStore, showNumber: real -> string)
    requires '}' !in name && '\n' !in name
    requires name in store && store[name].value == v && Truthy(v)
    ensures InsertFactsAsWritten(["${" + name + "}"], store, showNumber) == Err(AttributeError("get"))
    ensures Process(Container("", [], 0.5, 0.5, [], ["${" + name + "}"], []), store, showNumber).0.instructions
            == [Show(v, showNumber)]
  {
    SinglePlaceholder(name);
    var segs := [Placeholder(name)];
    assert FillAsWritten(segs, store, showNumber) == Err(AttributeError("get"));
    PlaceholderBecomesValue(name, store, showNumber);
  }
}
