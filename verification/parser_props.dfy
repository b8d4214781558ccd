/** Properties of the condition parser: what it does with tokens after a
    complete condition, that it keeps every operand, how it groups
    operators, and which errors it reports. */
module ParserProps {
  import opened Basics
  import opened Lexer
  import opened Models
  import opened Parser

  // ---- tokens after a complete condition ----

  /** A token that ends every loop of the parser: not `or`, not `and`, not
      a comparison operator. */
  predicate Stops(t: Token) {
    t.text != "or" && t.text != "and" && t.kind != Comparison
  }

  /** Parsing stopped at `end` before the tokens `extra` appended to `ts`:
      either it stopped inside `ts`, or nothing follows, or what follows
      cannot continue the condition. */
  predicate StopsBefore(ts: seq<Token>, extra: seq<Token>, end: nat) {
    end < |ts| || extra == [] || Stops(extra[0])
  }

  /** The parser reads no further than it must: once a condition is
      complete, appending tokens that cannot continue it changes neither the
      tree nor where parsing stopped. `Condition` never checks that every
      token was used, so `fact('a') > 1 (` compiles to `fact('a') > 1`. */
  lemma {:induction false} TrailingTokensIgnored(ts: seq<Token>, extra: seq<Token>, pos: nat, o: Oracles, k: nat)
    requires pos <= |ts| && ParseOr(ts, pos, o, k).Ok?
    requires StopsBefore(ts, extra, ParseOr(ts, pos, o, k).value.end)
    ensures ParseOr(ts + extra, pos, o, k) == ParseOr(ts, pos, o, k)
    decreases |ts| - pos, 4
  {
    var left := ParseAnd(ts, pos, o, k).value;
    AndExtends(ts, extra, pos, o, k);
    OrTailExtends(ts, extra, left.e, left.end, o, k);
  }

  lemma {:induction false} OrTailExtends(ts: seq<Token>, extra: seq<Token>, acc: Expr, pos: nat, o: Oracles, k: nat)
    requires pos <= |ts| && OrTail(ts, acc, pos, o, k).Ok?
    requires StopsBefore(ts, extra, OrTail(ts, acc, pos, o, k).value.end)
    ensures OrTail(ts + extra, acc, pos, o, k) == OrTail(ts, acc, pos, o, k)
    ensures pos == |ts| ==> StopsBefore(ts, extra, pos)
    decreases |ts| - pos, 1
  {
    if pos < |ts| && ts[pos].text == "or" {
      var right := ParseAnd(ts, pos + 1, o, k).value;
      OrTailExtends(ts, extra, Or(acc, right.e), right.end, o, k);
      AndExtends(ts, extra, pos + 1, o, k);
    }
  }

  lemma {:induction false} AndExtends(ts: seq<Token>, extra: seq<Token>, pos: nat, o: Oracles, k: nat)
    requires pos <= |ts| && ParseAnd(ts, pos, o, k).Ok?
    requires StopsBefore(ts, extra, ParseAnd(ts, pos, o, k).value.end)
    ensures ParseAnd(ts + extra, pos, o, k) == ParseAnd(ts, pos, o, k)
    decreases |ts| - pos, 3
  {
    var left := ParseComparison(ts, pos, o, k).value;
    AndTailExtends(ts, extra, left.e, left.end, o, k);
    ComparisonExtends(ts, extra, pos, o, k);
  }

  lemma {:induction false} AndTailExtends(ts: seq<Token>, extra: seq<Token>, acc: Expr, pos: nat, o: Oracles, k: nat)
    requires pos <= |ts| && AndTail(ts, acc, pos, o, k).Ok?
    requires StopsBefore(ts, extra, AndTail(ts, acc, pos, o, k).value.end)
    ensures AndTail(ts + extra, acc, pos, o, k) == AndTail(ts, acc, pos, o, k)
    ensures pos == |ts| ==> StopsBefore(ts, extra, pos)
    decreases |ts| - pos, 1
  {
    if pos < |ts| && ts[pos].text == "and" {
      var right := ParseComparison(ts, pos + 1, o, k).value;
      AndTailExtends(ts, extra, And(acc, right.e), right.end, o, k);
      ComparisonExtends(ts, extra, pos + 1, o, k);
    }
  }

  lemma {:induction false} ComparisonExtends(ts: seq<Token>, extra: seq<Token>, pos: nat, o: Oracles, k: nat)
    requires pos <= |ts| && ParseComparison(ts, pos, o, k).Ok?
    requires StopsBefore(ts, extra, ParseComparison(ts, pos, o, k).value.end)
    ensures ParseComparison(ts + extra, pos, o, k) == ParseComparison(ts, pos, o, k)
    decreases |ts| - pos, 2
  {
    var left := ParsePrimary(ts, pos, o, k).value;
    ComparisonTailExtends(ts, extra, left.e, left.end, o, k);
    PrimaryExtends(ts, extra, pos, o, k);
  }

  lemma {:induction false} ComparisonTailExtends(ts: seq<Token>, extra: seq<Token>, acc: Expr, pos: nat, o: Oracles, k: nat)
    requires pos <= |ts| && ComparisonTail(ts, acc, pos, o, k).Ok?
    requires StopsBefore(ts, extra, ComparisonTail(ts, acc, pos, o, k).value.end)
    ensures ComparisonTail(ts + extra, acc, pos, o, k) == ComparisonTail(ts, acc, pos, o, k)
    ensures pos == |ts| ==> StopsBefore(ts, extra, pos)
    decreases |ts| - pos, 1
  {
    if pos < |ts| && ts[pos].kind == Comparison {
      var right := ParsePrimary(ts, pos + 1, o, k).value;
      ComparisonTailExtends(ts, extra, Compare(OpOf(ts[pos].text), acc, right.e), right.end, o, k);
      PrimaryExtends(ts, extra, pos + 1, o, k);
    }
  }

  lemma {:induction false} PrimaryExtends(ts: seq<Token>, extra: seq<Token>, pos: nat, o: Oracles, k: nat)
    requires pos <= |ts| && ParsePrimary(ts, pos, o, k).Ok?
    ensures ParsePrimary(ts + extra, pos, o, k) == ParsePrimary(ts, pos, o, k)
    decreases |ts| - pos, 1
  {
    if ts[pos].kind == LParen {
      var inner := ParseOr(ts, pos + 1, o, k).value;
      TrailingTokensIgnored(ts, extra, pos + 1, o, k);
    }
  }

  // ---- the parser loses no operand and invents none ----

  /** The leaves of a parsed condition are the operand tokens it read, in
      order: every number, `sim`, `sent` and `fact` lexeme read becomes
      exactly one leaf, and only parentheses and operators leave no trace. */
  lemma {:induction false} OperandsPreserved(ts: seq<Token>, pos: nat, o: Oracles, k: nat)
    requires WellLexed(ts) && pos <= |ts| && ParseOr(ts, pos, o, k).Ok?
    ensures Operands(ParseOr(ts, pos, o, k).value.e)
            == OperandLeaves(ts[pos..ParseOr(ts, pos, o, k).value.end], o, k)
    decreases |ts| - pos, 4
  {
    var left := ParseAnd(ts, pos, o, k).value;
    AndOperands(ts, pos, o, k);
    OrTailOperands(ts, left.e, left.end, o, k);
    SplitLeaves(ts, pos, left.end, ParseOr(ts, pos, o, k).value.end, o, k);
  }

  lemma {:induction false} OrTailOperands(ts: seq<Token>, acc: Expr, pos: nat, o: Oracles, k: nat)
    requires WellLexed(ts) && pos <= |ts| && OrTail(ts, acc, pos, o, k).Ok?
    ensures Operands(OrTail(ts, acc, pos, o, k).value.e)
            == Operands(acc) + OperandLeaves(ts[pos..OrTail(ts, acc, pos, o, k).value.end], o, k)
    decreases |ts| - pos, 1
  {
    if pos < |ts| && ts[pos].text == "or" {
      assert TokenOk(ts[pos]) && ts[pos].text[0] == 'o';
      var right := ParseAnd(ts, pos + 1, o, k).value;
      var fin := OrTail(ts, acc, pos, o, k).value;
      AndOperands(ts, pos + 1, o, k);
      OrTailOperands(ts, Or(acc, right.e), right.end, o, k);
      RoundLeaves(ts, pos, right.end, fin.end, Operands(acc), Operands(right.e), Operands(fin.e), o, k);
    } else {
      assert ts[pos..pos] == [];
    }
  }

  lemma {:induction false} AndOperands(ts: seq<Token>, pos: nat, o: Oracles, k: nat)
    requires WellLexed(ts) && pos <= |ts| && ParseAnd(ts, pos, o, k).Ok?
    ensures Operands(ParseAnd(ts, pos, o, k).value.e)
            == OperandLeaves(ts[pos..ParseAnd(ts, pos, o, k).value.end], o, k)
    decreases |ts| - pos, 3
  {
    var left := ParseComparison(ts, pos, o, k).value;
    ComparisonOperands(ts, pos, o, k);
    AndTailOperands(ts, left.e, left.end, o, k);
    SplitLeaves(ts, pos, left.end, ParseAnd(ts, pos, o, k).value.end, o, k);
  }

  lemma {:induction false} AndTailOperands(ts: seq<Token>, acc: Expr, pos: nat, o: Oracles, k: nat)
    requires WellLexed(ts) && pos <= |ts| && AndTail(ts, acc, pos, o, k).Ok?
    ensures Operands(AndTail(ts, acc, pos, o, k).value.e)
            == Operands(acc) + OperandLeaves(ts[pos..AndTail(ts, acc, pos, o, k).value.end], o, k)
    decreases |ts| - pos, 1
  {
    if pos < |ts| && ts[pos].text == "and" {
      assert TokenOk(ts[pos]) && ts[pos].text[0] == 'a';
      var right := ParseComparison(ts, pos + 1, o, k).value;
      var fin := AndTail(ts, acc, pos, o, k).value;
      ComparisonOperands(ts, pos + 1, o, k);
      AndTailOperands(ts, And(acc, right.e), right.end, o, k);
      RoundLeaves(ts, pos, right.end, fin.end, Operands(acc), Operands(right.e), Operands(fin.e), o, k);
    } else {
      assert ts[pos..pos] == [];
    }
  }

  lemma {:induction false} ComparisonOperands(ts: seq<Token>, pos: nat, o: Oracles, k: nat)
    requires WellLexed(ts) && pos <= |ts| && ParseComparison(ts, pos, o, k).Ok?
    ensures Operands(ParseComparison(ts, pos, o, k).value.e)
            == OperandLeaves(ts[pos..ParseComparison(ts, pos, o, k).value.end], o, k)
    decreases |ts| - pos, 2
  {
    var left := ParsePrimary(ts, pos, o, k).value;
    PrimaryOperands(ts, pos, o, k);
    ComparisonTailOperands(ts, left.e, left.end, o, k);
    SplitLeaves(ts, pos, left.end, ParseComparison(ts, pos, o, k).value.end, o, k);
  }

  lemma {:induction false} ComparisonTailOperands(ts: seq<Token>, acc: Expr, pos: nat, o: Oracles, k: nat)
    requires WellLexed(ts) && pos <= |ts| && ComparisonTail(ts, acc, pos, o, k).Ok?
    ensures Operands(ComparisonTail(ts, acc, pos, o, k).value.e)
            == Operands(acc) + OperandLeaves(ts[pos..ComparisonTail(ts, acc, pos, o, k).value.end], o, k)
    decreases |ts| - pos, 1
  {
    if pos < |ts| && ts[pos].kind == Comparison {
      var right := ParsePrimary(ts, pos + 1, o, k).value;
      var node := Compare(OpOf(ts[pos].text), acc, right.e);
      var fin := ComparisonTail(ts, acc, pos, o, k).value;
      PrimaryOperands(ts, pos + 1, o, k);
      ComparisonTailOperands(ts, node, right.end, o, k);
      RoundLeaves(ts, pos, right.end, fin.end, Operands(acc), Operands(right.e), Operands(fin.e), o, k);
    } else {
      assert ts[pos..pos] == [];
    }
  }

  lemma {:induction false} PrimaryOperands(ts: seq<Token>, pos: nat, o: Oracles, k: nat)
    requires WellLexed(ts) && pos <= |ts| && ParsePrimary(ts, pos, o, k).Ok?
    ensures Operands(ParsePrimary(ts, pos, o, k).value.e)
            == OperandLeaves(ts[pos..ParsePrimary(ts, pos, o, k).value.end], o, k)
    decreases |ts| - pos, 1
  {
    if ts[pos].kind == LParen {
      var inner := ParseOr(ts, pos + 1, o, k).value;
      OperandsPreserved(ts, pos + 1, o, k);
      SplitLeaves(ts, pos, pos + 1, inner.end + 1, o, k);
      SplitLeaves(ts, pos + 1, inner.end, inner.end + 1, o, k);
      NoLeaf(ts, pos, o, k);
      NoLeaf(ts, inner.end, o, k);
    } else {
      assert ts[pos..pos + 1] == [ts[pos]];
      assert OperandLeaves([ts[pos]], o, k) == [Leaf(ts[pos], o, k)];
    }
  }

  lemma {:induction false} OperandLeavesAppend(a: seq<Token>, b: seq<Token>, o: Oracles, k: nat)
    ensures OperandLeaves(a + b, o, k) == OperandLeaves(a, o, k) + OperandLeaves(b, o, k)
  {
    if a == [] {
      assert a + b == b;
    } else {
      assert (a + b)[0] == a[0];
      assert (a + b)[1..] == a[1..] + b;
      OperandLeavesAppend(a[1..], b, o, k);
    }
  }

  lemma SplitLeaves(ts: seq<Token>, a: nat, b: nat, c: nat, o: Oracles, k: nat)
    requires a <= b <= c <= |ts|
    ensures OperandLeaves(ts[a..c], o, k) == OperandLeaves(ts[a..b], o, k) + OperandLeaves(ts[b..c], o, k)
  {
    assert ts[a..c] == ts[a..b] + ts[b..c];
    OperandLeavesAppend(ts[a..b], ts[b..c], o, k);
  }

  /** A token that is not an operand contributes no leaf. */
  lemma NoLeaf(ts: seq<Token>, i: nat, o: Oracles, k: nat)
    requires i < |ts| && !IsOperand(ts[i])
    ensures OperandLeaves(ts[i..i + 1], o, k) == []
  {
    assert ts[i..i + 1] == [ts[i]];
    assert [ts[i]][1..] == [];
  }

  /** One round of a left-associative loop: an operator token at `pos`,
      the right operand read up to `mid`, then the rest of the loop up to
      `end`; the operands read add up. */
  lemma RoundLeaves(ts: seq<Token>, pos: nat, mid: nat, end: nat,
                    acc: seq<Expr>, right: seq<Expr>, final: seq<Expr>, o: Oracles, k: nat)
    requires pos < mid <= end <= |ts| && !IsOperand(ts[pos])
    requires right == OperandLeaves(ts[pos + 1..mid], o, k)
    requires final == (acc + right) + OperandLeaves(ts[mid..end], o, k)
    ensures final == acc + OperandLeaves(ts[pos..end], o, k)
  {
    LeavesAfterOperator(ts, pos, mid, end, o, k);
    Regroup(acc, right, OperandLeaves(ts[mid..end], o, k), OperandLeaves(ts[pos..end], o, k));
  }

  /** The operator token itself contributes no operand. */
  lemma LeavesAfterOperator(ts: seq<Token>, pos: nat, mid: nat, end: nat, o: Oracles, k: nat)
    requires pos < mid <= end <= |ts| && !IsOperand(ts[pos])
    ensures OperandLeaves(ts[pos..end], o, k) == OperandLeaves(ts[pos + 1..mid], o, k) + OperandLeaves(ts[mid..end], o, k)
  {
    SplitLeaves(ts, pos, pos + 1, end, o, k);
    NoLeaf(ts, pos, o, k);
    SplitLeaves(ts, pos + 1, mid, end, o, k);
    assert OperandLeaves(ts[pos..end], o, k) == [] + OperandLeaves(ts[pos + 1..end], o, k);
  }

  lemma Regroup<T>(acc: seq<T>, right: seq<T>, rest: seq<T>, whole: seq<T>)
    requires whole == right + rest
    ensures (acc + right) + rest == acc + whole
  {
  }

  // ---- errors ----

  /** An empty condition is rejected with an unexpected end of input. */
  lemma EmptyConditionRejected(o: Oracles, k: nat)
    ensures ParseOr([], 0, o, k) == Err(UnexpectedToken(None))
  {
  }

  /** An opening parenthesis whose condition is not followed by `)` is
      reported as a missing closing parenthesis, whatever the enclosing
      condition. */
  lemma UnclosedParenthesisRejected(ts: seq<Token>, pos: nat, o: Oracles, k: nat)
    requires pos < |ts| && ts[pos].kind == LParen && ParseOr(ts, pos + 1, o, k).Ok?
    requires var end := ParseOr(ts, pos + 1, o, k).value.end; end == |ts| || ts[end].kind != RParen
    ensures ParseOr(ts, pos, o, k) == Err(MissingClosingParenthesis)
  {
    assert ParsePrimary(ts, pos, o, k) == Err(MissingClosingParenthesis);
    assert ParseComparison(ts, pos, o, k) == Err(MissingClosingParenthesis);
  }

  // ---- grouping ----

  const AndToken := Token(AndWord, "and")
  const OrToken := Token(OrWord, "or")

  predicate IsLeafToken(t: Token) {
    IsOperand(t) && TokenOk(t)
  }

  lemma LeafTokenStops(t: Token)
    requires IsLeafToken(t)
    ensures Stops(t) && t.kind != LParen
  {
    assert t.text[0] != 'o' && t.text[0] != 'a';
  }

  /** `and` binds tighter than `or`, on whichever side the `or` stands. */
  lemma AndBindsTighterThanOr(a: Token, b: Token, c: Token, o: Oracles, k: nat)
    requires IsLeafToken(a) && IsLeafToken(b) && IsLeafToken(c)
    ensures ParseOr([a, AndToken, b, OrToken, c], 0, o, k)
            == Ok(Parsed(Or(And(Leaf(a, o, k), Leaf(b, o, k)), Leaf(c, o, k)), 5))
    ensures ParseOr([a, OrToken, b, AndToken, c], 0, o, k)
            == Ok(Parsed(Or(Leaf(a, o, k), And(Leaf(b, o, k), Leaf(c, o, k))), 5))
  {
    LeafTokenStops(a);
    LeafTokenStops(b);
    LeafTokenStops(c);
    AndFirst(a, b, c, o, k);
    OrFirst(a, b, c, o, k);
  }

  lemma AndFirst(a: Token, b: Token, c: Token, o: Oracles, k: nat)
    requires IsLeafToken(a) && IsLeafToken(b) && IsLeafToken(c)
    requires Stops(a) && Stops(b) && Stops(c)
    ensures ParseOr([a, AndToken, b, OrToken, c], 0, o, k)
            == Ok(Parsed(Or(And(Leaf(a, o, k), Leaf(b, o, k)), Leaf(c, o, k)), 5))
  {
    var ts := [a, AndToken, b, OrToken, c];
    var A, B, C := Leaf(a, o, k), Leaf(b, o, k), Leaf(c, o, k);
    assert ParseComparison(ts, 4, o, k) == Ok(Parsed(C, 5));
    assert ParseAnd(ts, 4, o, k) == Ok(Parsed(C, 5));
    assert OrTail(ts, And(A, B), 3, o, k) == Ok(Parsed(Or(And(A, B), C), 5));
    assert ParseComparison(ts, 2, o, k) == Ok(Parsed(B, 3));
    assert AndTail(ts, A, 1, o, k) == Ok(Parsed(And(A, B), 3));
    assert ParseComparison(ts, 0, o, k) == Ok(Parsed(A, 1));
    assert ParseAnd(ts, 0, o, k) == Ok(Parsed(And(A, B), 3));
  }

  lemma OrFirst(a: Token, b: Token, c: Token, o: Oracles, k: nat)
    requires IsLeafToken(a) && IsLeafToken(b) && IsLeafToken(c)
    requires Stops(a) && Stops(b) && Stops(c)
    ensures ParseOr([a, OrToken, b, AndToken, c], 0, o, k)
            == Ok(Parsed(Or(Leaf(a, o, k), And(Leaf(b, o, k), Leaf(c, o, k))), 5))
  {
    var ts := [a, OrToken, b, AndToken, c];
    var A, B, C := Leaf(a, o, k), Leaf(b, o, k), Leaf(c, o, k);
    assert ParseComparison(ts, 4, o, k) == Ok(Parsed(C, 5));
    assert AndTail(ts, B, 3, o, k) == Ok(Parsed(And(B, C), 5));
    assert ParseComparison(ts, 2, o, k) == Ok(Parsed(B, 3));
    assert ParseAnd(ts, 2, o, k) == Ok(Parsed(And(B, C), 5));
    assert OrTail(ts, A, 1, o, k) == Ok(Parsed(Or(A, And(B, C)), 5));
    assert ParseComparison(ts, 0, o, k) == Ok(Parsed(A, 1));
    assert ParseAnd(ts, 0, o, k) == Ok(Parsed(A, 1));
  }

  /** A chain of comparisons groups to the left: `a > b > c` compares the
      0-or-1 outcome of `a > b` with `c`. */
  lemma ComparisonsGroupLeft(a: Token, op1: Token, b: Token, op2: Token, c: Token, o: Oracles, k: nat)
    requires IsLeafToken(a) && IsLeafToken(b) && IsLeafToken(c)
    requires op1.kind == Comparison && op2.kind == Comparison
    ensures ParseOr([a, op1, b, op2, c], 0, o, k)
            == Ok(Parsed(Compare(OpOf(op2.text), Compare(OpOf(op1.text), Leaf(a, o, k), Leaf(b, o, k)), Leaf(c, o, k)), 5))
  {
    LeafTokenStops(a);
    LeafTokenStops(b);
    LeafTokenStops(c);
    var ts := [a, op1, b, op2, c];
    var A, B, C := Leaf(a, o, k), Leaf(b, o, k), Leaf(c, o, k);
    var ab := Compare(OpOf(op1.text), A, B);
    var abc := Compare(OpOf(op2.text), ab, C);
    assert ParsePrimary(ts, 4, o, k) == Ok(Parsed(C, 5));
    assert ComparisonTail(ts, ab, 3, o, k) == Ok(Parsed(abc, 5));
    assert ParsePrimary(ts, 2, o, k) == Ok(Parsed(B, 3));
    assert ComparisonTail(ts, A, 1, o, k) == Ok(Parsed(abc, 5));
    assert ParseComparison(ts, 0, o, k) == Ok(Parsed(abc, 5));
    assert AndTail(ts, abc, 5, o, k) == Ok(Parsed(abc, 5));
    assert ParseAnd(ts, 0, o, k) == Ok(Parsed(abc, 5));
  }
}
