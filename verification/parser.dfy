/** The recursive-descent parser of the condition language. Each parsing
    function reads from a token position and returns the tree it built
    together with the position after it; precedence is `or` below `and` below
    the comparison operators, all left-associative. */
module Parser {
  import opened Basics
  import opened Lexer
  import opened Models

  datatype Op = Gt | Ge | Lt | Le | Eq

  /** The evaluator tree. A similarity leaf keeps the embeddings of its
      phrase and its paraphrases, computed when the condition is built. */
  datatype Expr =
    | Const(value: real)
    | Similarity(embeddings: seq<seq<real>>)
    | SentimentIs(category: string)
    | FactRef(name: string)
    | And(left: Expr, right: Expr)
    | Or(left: Expr, right: Expr)
    | Compare(op: Op, left: Expr, right: Expr)

  /** A parsed sub-condition and the position of the first token after it. */
  datatype Parsed = Parsed(e: Expr, end: nat)

  /** The operator a comparison lexeme spells; the lexer only produces the
      five spellings of `ComparisonTexts`, so the last case is `==`. */
  function OpOf(text: string): Op {
    if text == ">" then Gt
    else if text == ">=" then Ge
    else if text == "<" then Lt
    else if text == "<=" then Le
    else Eq
  }

  function DigitValue(c: char): nat {
    if IsDigit(c) then c as nat - '0' as nat else 0
  }

  /** The value of a run of decimal digits. */
  function DigitsValue(ds: string): nat {
    if ds == [] then 0 else DigitsValue(ds[..|ds| - 1]) * 10 + DigitValue(ds[|ds| - 1])
  }

  function Pow10(n: nat): (r: nat)
    ensures r >= 1
  {
    if n == 0 then 1 else 10 * Pow10(n - 1)
  }

  function DotIndex(t: string): (i: nat)
    ensures i <= |t|
    ensures forall k :: 0 <= k < i ==> t[k] != '.'
    ensures i < |t| ==> t[i] == '.'
  {
    if t == [] || t[0] == '.' then 0 else 1 + DotIndex(t[1..])
  }

  /** The decimal value of a lexeme of the form `\d+(\.\d*)?`, as an exact
      rational; Python's `float(...)` rounds it to the nearest double. */
  function DecimalValue(t: string): (r: real)
    ensures r >= 0.0
    ensures (forall k :: 0 <= k < |t| ==> t[k] != '.') ==> r == DigitsValue(t) as real
  {
    var d := DotIndex(t);
    var whole := DigitsValue(t[..d]) as real;
    if d == |t| then
      assert t[..d] == t;
      whole
    else
      var frac := t[d + 1..];
      whole + DigitsValue(frac) as real / Pow10(|frac|) as real
  }

  predicate IsOperand(t: Token) {
    t.kind == Number || t.kind == SimCall || t.kind == SentCall || t.kind == FactCall
  }

  /** The text between `name('` and `')` of a call lexeme (the lexer
      guarantees the lexeme is long enough; see `TokenOk`). */
  function CallArgument(t: Token): string {
    var open := if t.kind == SimCall then 5 else 6;
    if |t.text| >= open + 2 then t.text[open..|t.text| - 2] else ""
  }

  /** The phrases a similarity leaf compares against: its own, followed by
      `k` paraphrases when `k` is positive. */
  function Phrases(arg: string, o: Oracles, k: nat): (r: seq<string>)
    ensures |r| >= 1 && r[0] == arg
    ensures k == 0 ==> r == [arg]
  {
    [arg] + (if k > 0 then o.paraphrase(k, arg) else [])
  }

  /** The leaf a primary token stands for. */
  function Leaf(t: Token, o: Oracles, k: nat): (e: Expr)
    requires IsOperand(t)
  {
    match t.kind
    case Number => Const(DecimalValue(t.text))
    case SimCall =>
      var ps := Phrases(CallArgument(t), o, k);
      Similarity(seq(|ps|, i requires 0 <= i < |ps| => o.embed(ps[i])))
    case SentCall => SentimentIs(CallArgument(t))
    case _ => FactRef(CallArgument(t))
  }

  /** The leaves of a tree, left to right. */
  function Operands(e: Expr): seq<Expr> {
    match e
    case And(l, r) => Operands(l) + Operands(r)
    case Or(l, r) => Operands(l) + Operands(r)
    case Compare(_, l, r) => Operands(l) + Operands(r)
    case _ => [e]
  }

  /** The leaves the operand tokens of `ts` stand for, in order. */
  function OperandLeaves(ts: seq<Token>, o: Oracles, k: nat): seq<Expr> {
    if ts == [] then []
    else (if IsOperand(ts[0]) then [Leaf(ts[0], o, k)] else []) + OperandLeaves(ts[1..], o, k)
  }

  /** `_parse_or`, reading from token `pos`. */
  function ParseOr(ts: seq<Token>, pos: nat, o: Oracles, k: nat): (r: Result<Parsed>)
    requires pos <= |ts|
    ensures r.Ok? ==> pos < r.value.end <= |ts|
    decreases |ts| - pos, 3
  {
    match ParseAnd(ts, pos, o, k)
    case Err(e) => Err(e)
    case Ok(left) => OrTail(ts, left.e, left.end, o, k)
  }

  /** The loop of `_parse_or`: while the next token reads `or`. */
  function OrTail(ts: seq<Token>, acc: Expr, pos: nat, o: Oracles, k: nat): (r: Result<Parsed>)
    requires pos <= |ts|
    ensures r.Ok? ==> pos <= r.value.end <= |ts|
    decreases |ts| - pos, 0
  {
    if pos < |ts| && ts[pos].text == "or" then
      match ParseAnd(ts, pos + 1, o, k)
      case Err(e) => Err(e)
      case Ok(right) => OrTail(ts, Or(acc, right.e), right.end, o, k)
    else Ok(Parsed(acc, pos))
  }

  /** `_parse_and`. */
  function ParseAnd(ts: seq<Token>, pos: nat, o: Oracles, k: nat): (r: Result<Parsed>)
    requires pos <= |ts|
    ensures r.Ok? ==> pos < r.value.end <= |ts|
    decreases |ts| - pos, 2
  {
    match ParseComparison(ts, pos, o, k)
    case Err(e) => Err(e)
    case Ok(left) => AndTail(ts, left.e, left.end, o, k)
  }

  /** The loop of `_parse_and`: while the next token reads `and`. */
  function AndTail(ts: seq<Token>, acc: Expr, pos: nat, o: Oracles, k: nat): (r: Result<Parsed>)
    requires pos <= |ts|
    ensures r.Ok? ==> pos <= r.value.end <= |ts|
    decreases |ts| - pos, 0
  {
    if pos < |ts| && ts[pos].text == "and" then
      match ParseComparison(ts, pos + 1, o, k)
      case Err(e) => Err(e)
      case Ok(right) => AndTail(ts, And(acc, right.e), right.end, o, k)
    else Ok(Parsed(acc, pos))
  }

  /** `_parse_comparison`. */
  function ParseComparison(ts: seq<Token>, pos: nat, o: Oracles, k: nat): (r: Result<Parsed>)
    requires pos <= |ts|
    ensures r.Ok? ==> pos < r.value.end <= |ts|
    decreases |ts| - pos, 1
  {
    match ParsePrimary(ts, pos, o, k)
    case Err(e) => Err(e)
    case Ok(left) => ComparisonTail(ts, left.e, left.end, o, k)
  }

  /** The loop of `_parse_comparison`: while the next token is an operator. */
  function ComparisonTail(ts: seq<Token>, acc: Expr, pos: nat, o: Oracles, k: nat): (r: Result<Parsed>)
    requires pos <= |ts|
    ensures r.Ok? ==> pos <= r.value.end <= |ts|
    decreases |ts| - pos, 0
  {
    if pos < |ts| && ts[pos].kind == Comparison then
      match ParsePrimary(ts, pos + 1, o, k)
      case Err(e) => Err(e)
      case Ok(right) => ComparisonTail(ts, Compare(OpOf(ts[pos].text), acc, right.e), right.end, o, k)
    else Ok(Parsed(acc, pos))
  }

  /** `_parse_primary`: a parenthesised condition or a single operand; at
      the end of the input the unexpected token is `None`. */
  function ParsePrimary(ts: seq<Token>, pos: nat, o: Oracles, k: nat): (r: Result<Parsed>)
    requires pos <= |ts|
    ensures r.Ok? ==> pos < r.value.end <= |ts|
    ensures pos == |ts| ==> r == Err(UnexpectedToken(None))
    ensures pos < |ts| && !IsOperand(ts[pos]) && ts[pos].kind != LParen ==> r == Err(UnexpectedToken(Some(ts[pos].text)))
    ensures pos < |ts| && IsOperand(ts[pos]) ==> r == Ok(Parsed(Leaf(ts[pos], o, k), pos + 1))
    decreases |ts| - pos, 0
  {
    if pos == |ts| then Err(UnexpectedToken(None))
    else if ts[pos].kind == LParen then
      match ParseOr(ts, pos + 1, o, k)
      case Err(e) => Err(e)
      case Ok(inner) =>
        if inner.end == |ts| || ts[inner.end].kind != RParen then Err(MissingClosingParenthesis)
        else Ok(Parsed(inner.e, inner.end + 1))
    else if IsOperand(ts[pos]) then Ok(Parsed(Leaf(ts[pos], o, k), pos + 1))
    else Err(UnexpectedToken(Some(ts[pos].text)))
  }

  /** `Condition.__init__` up to the tree: tokenize, then parse one
      condition from the first token. Tokens after the first complete
      condition are not read. */
  function Compile(text: string, o: Oracles, k: nat): (r: Result<Expr>)
    ensures Tokenize(text).Err? ==> r == Err(Tokenize(text).error)
    ensures Tokenize(text).Ok? ==> (r.Ok? <==> ParseOr(Tokenize(text).value, 0, o, k).Ok?)
    ensures r.Ok? ==> r.value == ParseOr(Tokenize(text).value, 0, o, k).value.e
  {
    var ts :- Tokenize(text);
    var p :- ParseOr(ts, 0, o, k);
    Ok(p.e)
  }
}
