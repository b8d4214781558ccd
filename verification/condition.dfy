/** Evaluating a parsed condition on one user input. Every evaluator yields
    a real score; the learned models are the oracles of `Models`, and a fact
    leaf reads the fact store. */
module Condition {
  import opened Basics
  import opened Values
  import opened Models
  import opened Parser
  import Facts

  function Min(a: real, b: real): real {
    if b < a then b else a
  }

  function Max(a: real, b: real): real {
    if b > a then b else a
  }

  /** `OperatorEvaluator.eval`: `int(...)` of the comparison. The `==`
      operator is evaluated with `<=`, so `2 == 3` scores 1. */
  function CompareScore(op: Op, a: real, b: real): (r: real)
    ensures r == 0.0 || r == 1.0
    ensures op == Gt ==> (r == 1.0 <==> a > b)
    ensures op == Ge ==> (r == 1.0 <==> a >= b)
    ensures op == Lt ==> (r == 1.0 <==> a < b)
    ensures op == Le || op == Eq ==> (r == 1.0 <==> a <= b)
  {
    match op
    case Gt => BoolAsReal(a > b)
    case Ge => BoolAsReal(a >= b)
    case Lt => BoolAsReal(a < b)
    case Le => BoolAsReal(a <= b)
    case Eq => BoolAsReal(a <= b)
  }

  /** The running maximum of `SimilarityEvaluator.eval`, starting from
      `best`, over the stored embeddings in order. */
  function BestCosine(q: seq<real>, embs: seq<seq<real>>, best: real, o: Oracles): (r: real)
    ensures r >= best
    ensures forall i :: 0 <= i < |embs| ==> o.cosine(q, embs[i]) <= r
    ensures r == best || exists i :: 0 <= i < |embs| && r == o.cosine(q, embs[i])
    decreases |embs|
  {
    if embs == [] then best
    else
      var r := BestCosine(q, embs[1..], Max(best, o.cosine(q, embs[0])), o);
      assert forall i :: 1 <= i < |embs| ==> embs[i] == embs[1..][i - 1];
      r
  }

  /** `SimilarityEvaluator.eval`: the input is embedded and compared with
      every stored embedding; the score is the largest cosine, or 0 when
      all are negative or there are none. */
  function SimilarityScore(embs: seq<seq<real>>, input: string, o: Oracles): (r: real)
    ensures r >= 0.0
    ensures forall i :: 0 <= i < |embs| ==> o.cosine(o.embed(input), embs[i]) <= r
    ensures r == 0.0 || exists i :: 0 <= i < |embs| && r == o.cosine(o.embed(input), embs[i])
  {
    BestCosine(o.embed(input), embs, 0.0, o)
  }

  /** `SentimentEvaluator.eval`: the classifier's confidence when its label
      is the configured category in upper case, and 0 otherwise. */
  function SentimentScore(category: string, input: string, o: Oracles): (r: real)
    ensures o.classify(input).category == Upper(category) ==> r == o.classify(input).score
    ensures o.classify(input).category != Upper(category) ==> r == 0.0
  {
    var data := o.classify(input);
    if data.category == Upper(category) then data.score else 0.0
  }

  /** `FactEvaluator.eval` on the value read: `None` scores 0, a number its
      value, a boolean 0 or 1 (`bool` is a number in Python), and any other
      value 1, even the empty string. */
  function FactScore(v: Value): (r: real)
    ensures !v.Str? ==> (r != 0.0 <==> Truthy(v))
    ensures v.Str? ==> r == 1.0
    ensures v.Num? ==> r == v.n
    ensures v.Null? || v.Bool? ==> r == 0.0 || r == 1.0
  {
    match v
    case Null => 0.0
    case Num(n) => n
    case Bool(b) => BoolAsReal(b)
    case Str(_) => 1.0
  }

  /** The score of a tree on an input, reading facts from `store` without
      changing it. `and` is the smaller and `or` the larger of the two
      scores; a number is its own value whatever the input. */
  function Score(e: Expr, input: string, store: Facts.FactStore, o: Oracles): (r: real)
    ensures e.Const? ==> r == e.value
    ensures e.And? ==> r <= Score(e.left, input, store, o) && r <= Score(e.right, input, store, o)
                       && (r == Score(e.left, input, store, o) || r == Score(e.right, input, store, o))
    ensures e.Or? ==> r >= Score(e.left, input, store, o) && r >= Score(e.right, input, store, o)
                      && (r == Score(e.left, input, store, o) || r == Score(e.right, input, store, o))
    ensures e.Compare? ==> r == 0.0 || r == 1.0
  {
    match e
    case Const(v) => v
    case Similarity(embs) => SimilarityScore(embs, input, o)
    case SentimentIs(c) => SentimentScore(c, input, o)
    case FactRef(n) => FactScore(Facts.ValueOf(store, n))
    case And(l, r) => Min(Score(l, input, store, o), Score(r, input, store, o))
    case Or(l, r) => Max(Score(l, input, store, o), Score(r, input, store, o))
    case Compare(op, l, r) => CompareScore(op, Score(l, input, store, o), Score(r, input, store, o))
  }

  /** The fact names a tree reads. */
  function FactNames(e: Expr): set<string> {
    match e
    case FactRef(n) => {n}
    case And(l, r) => FactNames(l) + FactNames(r)
    case Or(l, r) => FactNames(l) + FactNames(r)
    case Compare(_, l, r) => FactNames(l) + FactNames(r)
    case _ => {}
  }

  /** The store after reading the names `names`: every unseen one holds an
      empty fact; nothing else changed. */
  ghost predicate RegisteredOnly(before: Facts.FactStore, after: Facts.FactStore, names: set<string>) {
    after.Keys == before.Keys + names
    && (forall k :: k in before ==> after[k] == before[k])
    && (forall k :: k in after && k !in before ==> after[k] == Facts.NewFact(Null))
  }

  /** `Condition.eval`, with each fact read as `get_fact(name)` followed by
      reading the value of what it returned (see `EvaluateAsWritten` for the
      code as it stands). The left operand is evaluated before the right.
      The score is the one the tree has on the initial store, and the only
      effect is that unseen fact names become registered. */
  function Evaluate(e: Expr, input: string, store: Facts.FactStore, o: Oracles): (r: (Facts.FactStore, real))
    ensures r.1 == Score(e, input, store, o)
    ensures RegisteredOnly(store, r.0, FactNames(e))
    decreases e, 1
  {
    match e
    case FactRef(n) =>
      var (s, v) := Facts.ReadFact(store, n);
      (s, FactScore(v))
    case And(_, _) =>
      var (s, a, b) := EvaluateOperands(e, input, store, o);
      (s, Min(a, b))
    case Or(_, _) =>
      var (s, a, b) := EvaluateOperands(e, input, store, o);
      (s, Max(a, b))
    case Compare(op, _, _) =>
      var (s, a, b) := EvaluateOperands(e, input, store, o);
      (s, CompareScore(op, a, b))
    case _ => (store, Score(e, input, store, o))
  }

  /** Both operands of a binary node, left first, the right one on the
      store the left one left behind. */
  function EvaluateOperands(e: Expr, input: string, store: Facts.FactStore, o: Oracles): (r: (Facts.FactStore, real, real))
    requires e.And? || e.Or? || e.Compare?
    ensures r.1 == Score(e.left, input, store, o) && r.2 == Score(e.right, input, store, o)
    ensures RegisteredOnly(store, r.0, FactNames(e))
    decreases e, 0
  {
    var (s1, a) := Evaluate(e.left, input, store, o);
    var (s2, b) := Evaluate(e.right, input, s1, o);
    RegisteredKeepsValues(store, s1, FactNames(e.left));
    ScoreReadsValuesOnly(e.right, input, store, s1, o);
    RegisteredTransitive(store, s1, s2, FactNames(e.left), FactNames(e.right));
    assert FactNames(e) == FactNames(e.left) + FactNames(e.right);
    (s2, a, b)
  }

  lemma RegisteredKeepsValues(before: Facts.FactStore, after: Facts.FactStore, names: set<string>)
    requires RegisteredOnly(before, after, names)
    ensures forall n :: Facts.ValueOf(before, n) == Facts.ValueOf(after, n)
  {
  }

  lemma RegisteredTransitive(a: Facts.FactStore, b: Facts.FactStore, c: Facts.FactStore, x: set<string>, y: set<string>)
    requires RegisteredOnly(a, b, x) && RegisteredOnly(b, c, y)
    ensures RegisteredOnly(a, c, x + y)
  {
  }

  /** A store that differs from another only by newly registered names. */
  ghost predicate Grows(before: Facts.FactStore, after: Facts.FactStore) {
    RegisteredOnly(before, after, after.Keys - before.Keys)
  }

  lemma GrowsKeepsValues(a: Facts.FactStore, b: Facts.FactStore)
    requires Grows(a, b)
    ensures forall n :: Facts.ValueOf(a, n) == Facts.ValueOf(b, n)
  {
    RegisteredKeepsValues(a, b, b.Keys - a.Keys);
  }

  lemma GrowsTransitive(a: Facts.FactStore, b: Facts.FactStore, c: Facts.FactStore)
    requires Grows(a, b) && Grows(b, c)
    ensures Grows(a, c)
  {
  }

  lemma RegisteredGrows(a: Facts.FactStore, b: Facts.FactStore, names: set<string>)
    requires RegisteredOnly(a, b, names)
    ensures Grows(a, b)
  {
  }

  /** The score depends on the store only through the values it holds. */
  lemma {:induction false} ScoreReadsValuesOnly(e: Expr, input: string, a: Facts.FactStore, b: Facts.FactStore, o: Oracles)
    requires forall n :: n in FactNames(e) ==> Facts.ValueOf(a, n) == Facts.ValueOf(b, n)
    ensures Score(e, input, a, o) == Score(e, input, b, o)
  {
    match e
    case And(l, r) =>
      ScoreReadsValuesOnly(l, input, a, b, o);
      ScoreReadsValuesOnly(r, input, a, b, o);
    case Or(l, r) =>
      ScoreReadsValuesOnly(l, input, a, b, o);
      ScoreReadsValuesOnly(r, input, a, b, o);
    case Compare(_, l, r) =>
      ScoreReadsValuesOnly(l, input, a, b, o);
      ScoreReadsValuesOnly(r, input, a, b, o);
    case _ =>
  }

  /** `FactEvaluator.eval` as written: `get_fact(name).get()`. For an unseen
      name `get_fact` returns a fresh fact, whose value is `None`; for a known
      name it returns the bare value, which has no `get` method. */
  function FactLeafAsWritten(store: Facts.FactStore, name: string): (r: Result<(Facts.FactStore, real)>)
    ensures name in store <==> r == Err(AttributeError("get"))
    ensures name !in store ==> r == Ok((Facts.Register(store, name), 0.0))
  {
    var (s, h) := Facts.GetFact(store, name);
    match h
    case FactObject(f) => Ok((s, FactScore(f.value)))
    case RawValue(_) => Err(AttributeError("get"))
  }

  /** `Condition.eval` as the code stands: the first exception raised by the
      left operand, then by the right, escapes. */
  function EvaluateAsWritten(e: Expr, input: string, store: Facts.FactStore, o: Oracles): (r: Result<(Facts.FactStore, real)>)
  {
    match e
    case FactRef(n) => FactLeafAsWritten(store, n)
    case And(l, r) =>
      var (s1, a) :- EvaluateAsWritten(l, input, store, o);
      var (s2, b) :- EvaluateAsWritten(r, input, s1, o);
      Ok((s2, Min(a, b)))
    case Or(l, r) =>
      var (s1, a) :- EvaluateAsWritten(l, input, store, o);
      var (s2, b) :- EvaluateAsWritten(r, input, s1, o);
      Ok((s2, Max(a, b)))
    case Compare(op, l, r) =>
      var (s1, a) :- EvaluateAsWritten(l, input, store, o);
      var (s2, b) :- EvaluateAsWritten(r, input, s1, o);
      Ok((s2, CompareScore(op, a, b)))
    case _ => Ok((store, Score(e, input, store, o)))
  }

  /** The discrepancy: a fact condition can be evaluated once. The first
      evaluation registers the name and scores 0; every later evaluation,
      and every evaluation after `set_fact` gave the name a value, raises
      `AttributeError`. */
  lemma FactConditionFailsOnKnownFact(name: string, store: Facts.FactStore, input: string, o: Oracles)
    ensures name !in store ==> EvaluateAsWritten(FactRef(name), input, store, o) == Ok((Facts.Register(store, name), 0.0))
    ensures EvaluateAsWritten(FactRef(name), input, Facts.Register(store, name), o) == Err(AttributeError("get"))
    ensures EvaluateAsWritten(FactRef(name), input, Facts.SetFact(store, name, Num(1.0)).0, o) == Err(AttributeError("get"))
    ensures Evaluate(FactRef(name), input, Facts.SetFact(store, name, Num(1.0)).0, o).1 == 1.0
  {
    var written := Facts.SetFact(store, name, Num(1.0)).0;
    assert FactScore(Facts.ValueOf(written, name)) == 1.0 by {
      if name in store && PyEq(Num(1.0), store[name].value) {
        assert store[name].value == Num(1.0) || store[name].value == Bool(true);
      }
    }
  }

  /** Where no fact is read, the code as written and the corrected reading
      agree. */
  lemma {:induction false} AsWrittenAgreesWithoutFacts(e: Expr, input: string, store: Facts.FactStore, o: Oracles)
    requires FactNames(e) == {}
    ensures EvaluateAsWritten(e, input, store, o) == Ok(Evaluate(e, input, store, o))
  {
    match e
    case And(l, r) =>
      AsWrittenAgreesWithoutFacts(l, input, store, o);
      AsWrittenAgreesWithoutFacts(r, input, Evaluate(l, input, store, o).0, o);
    case Or(l, r) =>
      AsWrittenAgreesWithoutFacts(l, input, store, o);
      AsWrittenAgreesWithoutFacts(r, input, Evaluate(l, input, store, o).0, o);
    case Compare(_, l, r) =>
      AsWrittenAgreesWithoutFacts(l, input, store, o);
      AsWrittenAgreesWithoutFacts(r, input, Evaluate(l, input, store, o).0, o);
    case _ =>
  }

  // ---- ranges ----

  /** A tree whose score is a probability-like number when the models are
      calibrated: no fact leaf, and every number between 0 and 1. */
  predicate InUnit(e: Expr) {
    match e
    case Const(v) => 0.0 <= v <= 1.0
    case FactRef(_) => false
    case And(l, r) => InUnit(l) && InUnit(r)
    case Or(l, r) => InUnit(l) && InUnit(r)
    case _ => true
  }

  /** With calibrated models, similarity and sentiment scores lie in [0, 1],
      comparisons always do, and `and`/`or` keep the range. */
  lemma {:induction false} ScoreInUnitInterval(e: Expr, input: string, store: Facts.FactStore, o: Oracles)
    requires Calibrated(o) && InUnit(e)
    ensures 0.0 <= Score(e, input, store, o) <= 1.0
  {
    match e
    case And(l, r) =>
      ScoreInUnitInterval(l, input, store, o);
      ScoreInUnitInterval(r, input, store, o);
    case Or(l, r) =>
      ScoreInUnitInterval(l, input, store, o);
      ScoreInUnitInterval(r, input, store, o);
    case Similarity(embs) =>
      var s := SimilarityScore(embs, input, o);
      if s != 0.0 {
        var i :| 0 <= i < |embs| && s == o.cosine(o.embed(input), embs[i]);
      }
    case SentimentIs(c) =>
    case _ =>
  }

  /** Trees without similarity or sentiment leaves ignore the input. */
  predicate InputFree(e: Expr) {
    match e
    case Similarity(_) => false
    case SentimentIs(_) => false
    case And(l, r) => InputFree(l) && InputFree(r)
    case Or(l, r) => InputFree(l) && InputFree(r)
    case Compare(_, l, r) => InputFree(l) && InputFree(r)
    case _ => true
  }

  lemma {:induction false} InputFreeIgnoresInput(e: Expr, a: string, b: string, store: Facts.FactStore, o: Oracles)
    requires InputFree(e)
    ensures Score(e, a, store, o) == Score(e, b, store, o)
  {
    match e
    case And(l, r) =>
      InputFreeIgnoresInput(l, a, b, store, o);
      InputFreeIgnoresInput(r, a, b, store, o);
    case Or(l, r) =>
      InputFreeIgnoresInput(l, a, b, store, o);
      InputFreeIgnoresInput(r, a, b, store, o);
    case Compare(_, l, r) =>
      InputFreeIgnoresInput(l, a, b, store, o);
      InputFreeIgnoresInput(r, a, b, store, o);
    case _ =>
  }

  /** The configured sentiment category is compared in upper case, so
      `sent('positive')` and `sent('POSITIVE')` score alike. */
  lemma SentimentCategoryCaseInsensitive(category: string, input: string, o: Oracles)
    ensures SentimentScore(category, input, o) == SentimentScore(Upper(category), input, o)
  {
    UpperIdempotent(category);
  }

  lemma UpperIdempotent(s: string)
    ensures Upper(Upper(s)) == Upper(s)
  {
    var u := Upper(s);
    assert forall i :: 0 <= i < |u| ==> UpperChar(u[i]) == u[i];
  }

  /** `==` accepts any left score not above the right one: of two
      different scores, it accepts exactly the pairs whose left one is
      smaller. */
  lemma EqualsMeansAtMost(a: real, b: real)
    ensures CompareScore(Eq, a, b) == CompareScore(Le, a, b)
    ensures a != b ==> (CompareScore(Eq, a, b) == 1.0 <==> a < b)
  {
  }
}
