/** The tokenizer of the condition language. At each position the patterns
    are tried in their listed order and the first that matches wins; blank
    runs are matched like any other lexeme and then dropped. */
module Lexer {
  import opened Basics

  datatype Kind =
    | Number        // \d+(\.\d*)?
    | SimCall       // sim\('.*?'\)
    | SentCall      // sent\('.*?'\)
    | FactCall      // fact\('.*?'\)
    | AndWord       // \band\b
    | OrWord        // \bor\b
    | Comparison    // <=|>=|==|<|>
    | LParen
    | RParen
    | Blank         // [ \t]+

  /** The patterns in the order the tokenizer tries them. */
  const PatternOrder: seq<Kind> :=
    [Number, SimCall, SentCall, FactCall, AndWord, OrWord, Comparison, LParen, RParen, Blank]

  /** A matched lexeme: its pattern and the text it covers. */
  datatype Token = Token(kind: Kind, text: string)

  const ComparisonTexts: set<string> := {"<=", ">=", "==", "<", ">"}

  /** What the parser relies on of a lexeme: an operator is one of the five
      comparison spellings, a number starts with a digit, and a call lexeme
      starts with its name and is long enough to hold its prefix and its
      closing quote and parenthesis. */
  predicate TokenOk(t: Token) {
    match t.kind
    case Comparison => t.text in ComparisonTexts
    case Number => |t.text| > 0 && IsDigit(t.text[0])
    case SimCall => |t.text| >= 7 && t.text[0] == 's'
    case SentCall => |t.text| >= 8 && t.text[0] == 's'
    case FactCall => |t.text| >= 8 && t.text[0] == 'f'
    case _ => true
  }

  predicate WellLexed(ts: seq<Token>) {
    forall t :: t in ts ==> TokenOk(t)
  }

  predicate IsBlankChar(c: char) {
    c == ' ' || c == '\t'
  }

  /** End of the maximal run of digits starting at `i`. */
  function DigitsEnd(s: string, i: nat): (e: nat)
    requires i <= |s|
    ensures i <= e <= |s|
    ensures forall k :: i <= k < e ==> IsDigit(s[k])
    ensures e == |s| || !IsDigit(s[e])
    decreases |s| - i
  {
    if i < |s| && IsDigit(s[i]) then DigitsEnd(s, i + 1) else i
  }

  /** End of the maximal run of spaces and tabs starting at `i`. */
  function BlanksEnd(s: string, i: nat): (e: nat)
    requires i <= |s|
    ensures i <= e <= |s|
    ensures forall k :: i <= k < e ==> IsBlankChar(s[k])
    ensures e == |s| || !IsBlankChar(s[e])
    decreases |s| - i
  {
    if i < |s| && IsBlankChar(s[i]) then BlanksEnd(s, i + 1) else i
  }

  /** The lazy `.*?'\)` from `i`: the end of the first `')` reachable
      without crossing a newline (`.` does not match one). */
  function QuoteParenEnd(s: string, i: nat): (r: Option<nat>)
    requires i <= |s|
    ensures r.Some? ==> i + 2 <= r.value <= |s| && s[r.value - 2] == '\'' && s[r.value - 1] == ')'
    ensures r.Some? ==> forall k :: i <= k < r.value - 2 ==> s[k] != '\n'
    ensures r.Some? ==> forall k :: i <= k < r.value - 2 ==> !(s[k] == '\'' && s[k + 1] == ')')
    decreases |s| - i
  {
    if i + 1 < |s| && s[i] == '\'' && s[i + 1] == ')' then Some(i + 2)
    else if i >= |s| || s[i] == '\n' then None
    else QuoteParenEnd(s, i + 1)
  }

  function MatchCall(s: string, pos: nat, prefix: string): (r: Option<nat>)
    requires pos <= |s|
    ensures r.Some? ==> pos + |prefix| + 2 <= r.value <= |s|
  {
    if HasPrefixAt(s, pos, prefix) then QuoteParenEnd(s, pos + |prefix|) else None
  }

  /** `\bw\b` for a word `w` made of word characters. */
  function MatchWord(s: string, pos: nat, w: string): (r: Option<nat>)
    requires pos <= |s|
    ensures r.Some? ==> r.value == pos + |w| <= |s|
  {
    if HasPrefixAt(s, pos, w)
       && (pos == 0 || !IsWordChar(s[pos - 1]))
       && (pos + |w| == |s| || !IsWordChar(s[pos + |w|]))
    then Some(pos + |w|)
    else None
  }

  function MatchComparison(s: string, pos: nat): (r: Option<nat>)
    requires pos <= |s|
  {
    if HasPrefixAt(s, pos, "<=") || HasPrefixAt(s, pos, ">=") || HasPrefixAt(s, pos, "==") then Some(pos + 2)
    else if HasPrefixAt(s, pos, "<") || HasPrefixAt(s, pos, ">") then Some(pos + 1)
    else None
  }

  /** Where pattern `k` matching at `pos` ends, if it matches. */
  function MatchKind(k: Kind, s: string, pos: nat): (r: Option<nat>)
    requires pos < |s|
    ensures r.Some? ==> pos < r.value <= |s|
  {
    match k
    case Number =>
      if !IsDigit(s[pos]) then None
      else
        var e := DigitsEnd(s, pos);
        if e < |s| && s[e] == '.' then Some(DigitsEnd(s, e + 1)) else Some(e)
    case SimCall => MatchCall(s, pos, "sim('")
    case SentCall => MatchCall(s, pos, "sent('")
    case FactCall => MatchCall(s, pos, "fact('")
    case AndWord => MatchWord(s, pos, "and")
    case OrWord => MatchWord(s, pos, "or")
    case Comparison => MatchComparison(s, pos)
    case LParen => if s[pos] == '(' then Some(pos + 1) else None
    case RParen => if s[pos] == ')' then Some(pos + 1) else None
    case Blank => if IsBlankChar(s[pos]) then Some(BlanksEnd(s, pos)) else None
  }

  /** The first pattern of `kinds`, in order, that matches at `pos`. */
  function FirstMatch(kinds: seq<Kind>, s: string, pos: nat): (r: Option<(Kind, nat)>)
    requires pos < |s|
    ensures r.None? <==> forall k :: k in kinds ==> MatchKind(k, s, pos).None?
    ensures r.Some? ==> r.value.0 in kinds && MatchKind(r.value.0, s, pos) == Some(r.value.1)
  {
    if kinds == [] then None
    else match MatchKind(kinds[0], s, pos)
      case Some(e) => Some((kinds[0], e))
      case None => FirstMatch(kinds[1..], s, pos)
  }

  /** The scanning loop from `pos`: every lexeme, blanks included. */
  function Scan(s: string, pos: nat): (r: Result<seq<Token>>)
    requires pos <= |s|
    ensures r.Err? ==> r.error.UnexpectedCharacter?
    ensures r.Ok? ==> WellLexed(r.value)
    decreases |s| - pos
  {
    if pos == |s| then Ok([])
    else match FirstMatch(PatternOrder, s, pos)
      case None => Err(UnexpectedCharacter(pos, s[pos]))
      case Some((k, e)) =>
        var rest :- Scan(s, e);
        MatchedTokenOk(k, s, pos);
        Ok([Token(k, s[pos..e])] + rest)
  }

  lemma MatchedTokenOk(k: Kind, s: string, pos: nat)
    requires pos < |s| && MatchKind(k, s, pos).Some?
    ensures TokenOk(Token(k, s[pos..MatchKind(k, s, pos).value]))
  {
    var e := MatchKind(k, s, pos).value;
    match k
    case SimCall => assert s[pos..pos + 5] == "sim('";
    case SentCall => assert s[pos..pos + 6] == "sent('";
    case FactCall => assert s[pos..pos + 6] == "fact('";
    case Comparison =>
      if HasPrefixAt(s, pos, "<=") || HasPrefixAt(s, pos, ">=") || HasPrefixAt(s, pos, "==") {
        assert s[pos..e] == s[pos..pos + 2];
      } else {
        assert s[pos..e] == s[pos..pos + 1];
      }
    case _ =>
  }

  function DropBlanks(ls: seq<Token>): (r: seq<Token>)
    ensures forall t :: t in r ==> t in ls && t.kind != Blank
  {
    if ls == [] then []
    else (if ls[0].kind == Blank then [] else [ls[0]]) + DropBlanks(ls[1..])
  }

  /** `__tokenize__`: the lexemes other than blank runs, in order. */
  function Tokenize(s: string): (r: Result<seq<Token>>)
    ensures r.Ok? <==> Scan(s, 0).Ok?
    ensures r.Ok? ==> r.value == DropBlanks(Scan(s, 0).value)
    ensures r.Err? ==> r.error == Scan(s, 0).error
    ensures r.Ok? ==> WellLexed(r.value) && forall t :: t in r.value ==> t.kind != Blank
  {
    var ls :- Scan(s, 0);
    Ok(DropBlanks(ls))
  }

  function Concat(ls: seq<Token>): string {
    if ls == [] then "" else ls[0].text + Concat(ls[1..])
  }

  predicate AllBlank(t: string) {
    forall k :: 0 <= k < |t| ==> IsBlankChar(t[k])
  }

  /** A successful scan accounts for every character: the lexemes, read in
      order, spell the input exactly, each lexeme is non-empty, and the ones
      dropped by `Tokenize` are runs of spaces and tabs. */
  lemma {:induction false} ScanReassembles(s: string, pos: nat)
    requires pos <= |s|
    requires Scan(s, pos).Ok?
    ensures Concat(Scan(s, pos).value) == s[pos..]
    ensures forall t :: t in Scan(s, pos).value ==> |t.text| > 0
    ensures forall t :: t in Scan(s, pos).value && t.kind == Blank ==> AllBlank(t.text)
    decreases |s| - pos
  {
    if pos < |s| {
      var (k, e) := FirstMatch(PatternOrder, s, pos).value;
      ScanReassembles(s, e);
      var rest := Scan(s, e).value;
      var ls := Scan(s, pos).value;
      assert ls == [Token(k, s[pos..e])] + rest;
      assert ls[1..] == rest;
      assert s[pos..] == s[pos..e] + s[e..];
      if k == Blank {
        assert MatchKind(Blank, s, pos) == Some(BlanksEnd(s, pos));
      }
    }
  }

  /** A failed scan stops at a character where no pattern matches, at or
      after where it started, and reports that character. */
  lemma {:induction false} ScanErrorPosition(s: string, pos: nat)
    requires pos <= |s|
    requires Scan(s, pos).Err?
    ensures var e := Scan(s, pos).error;
      pos <= e.pos < |s| && e.ch == s[e.pos]
      && forall k :: MatchKind(k, s, e.pos).None?
    decreases |s| - pos
  {
    match FirstMatch(PatternOrder, s, pos)
    case None =>
      forall k
        ensures MatchKind(k, s, pos).None?
      {
        assert k in PatternOrder by {
          match k
          case Number => assert PatternOrder[0] == k;
          case SimCall => assert PatternOrder[1] == k;
          case SentCall => assert PatternOrder[2] == k;
          case FactCall => assert PatternOrder[3] == k;
          case AndWord => assert PatternOrder[4] == k;
          case OrWord => assert PatternOrder[5] == k;
          case Comparison => assert PatternOrder[6] == k;
          case LParen => assert PatternOrder[7] == k;
          case RParen => assert PatternOrder[8] == k;
          case Blank => assert PatternOrder[9] == k;
        }
      }
    case Some((k, e)) =>
      ScanErrorPosition(s, e);
  }

  /** No two patterns match at the same position, so the listed order only
      matters inside the comparison pattern, where `<=` is tried before `<`
      and `>=` before `>`. */
  lemma PatternsDisjoint(k1: Kind, k2: Kind, s: string, pos: nat)
    requires pos < |s|
    requires MatchKind(k1, s, pos).Some? && MatchKind(k2, s, pos).Some?
    ensures k1 == k2
  {
    LeadingChar(k1, s, pos);
    LeadingChar(k2, s, pos);
  }

  lemma LeadingChar(k: Kind, s: string, pos: nat)
    requires pos < |s|
    requires MatchKind(k, s, pos).Some?
    ensures k == Number <==> IsDigit(s[pos])
    ensures k == SimCall ==> s[pos] == 's' && pos + 1 < |s| && s[pos + 1] == 'i'
    ensures k == SentCall ==> s[pos] == 's' && pos + 1 < |s| && s[pos + 1] == 'e'
    ensures k == FactCall <==> s[pos] == 'f'
    ensures k == AndWord <==> s[pos] == 'a'
    ensures k == OrWord <==> s[pos] == 'o'
    ensures k == Comparison <==> s[pos] in "<>="
    ensures k == LParen <==> s[pos] == '('
    ensures k == RParen <==> s[pos] == ')'
    ensures k == Blank <==> IsBlankChar(s[pos])
  {
    LeadsWith(k, s, pos);
    assert s[pos] in "<>=" <==> s[pos] == '<' || s[pos] == '>' || s[pos] == '=';
  }

  /** The first character of a match of each pattern. */
  lemma LeadsWith(k: Kind, s: string, pos: nat)
    requires pos < |s|
    requires MatchKind(k, s, pos).Some?
    ensures k == Number ==> IsDigit(s[pos])
    ensures k == SimCall ==> s[pos] == 's' && pos + 1 < |s| && s[pos + 1] == 'i'
    ensures k == SentCall ==> s[pos] == 's' && pos + 1 < |s| && s[pos + 1] == 'e'
    ensures k == FactCall ==> s[pos] == 'f'
    ensures k == AndWord ==> s[pos] == 'a'
    ensures k == OrWord ==> s[pos] == 'o'
    ensures k == Comparison ==> s[pos] == '<' || s[pos] == '>' || s[pos] == '='
    ensures k == LParen ==> s[pos] == '('
    ensures k == RParen ==> s[pos] == ')'
    ensures k == Blank ==> IsBlankChar(s[pos])
  {
    match k
    case SimCall => PrefixLead(s, pos, "sim('");
    case SentCall => PrefixLead(s, pos, "sent('");
    case FactCall => PrefixLead(s, pos, "fact('");
    case AndWord => PrefixLead(s, pos, "and");
    case OrWord => PrefixLead(s, pos, "or");
    case Comparison => ComparisonLead(s, pos);
    case _ =>
  }

  lemma ComparisonLead(s: string, pos: nat)
    requires pos < |s|
    requires MatchComparison(s, pos).Some?
    ensures s[pos] == '<' || s[pos] == '>' || s[pos] == '='
  {
        if HasPrefixAt(s, pos, "<=") { assert s[pos..pos + 2] == "<="; }
        else if HasPrefixAt(s, pos, ">=") { assert s[pos..pos + 2] == ">="; }
        else if HasPrefixAt(s, pos, "==") { assert s[pos..pos + 2] == "=="; }
        else if HasPrefixAt(s, pos, "<") { assert s[pos..pos + 1] == "<"; }
        else { assert s[pos..pos + 1] == ">"; }
  }

  lemma PrefixLead(s: string, pos: nat, p: string)
    requires |p| >= 2 && HasPrefixAt(s, pos, p)
    ensures s[pos] == p[0] && s[pos + 1] == p[1]
  {
    assert s[pos..pos + |p|][0] == s[pos] && s[pos..pos + |p|][1] == s[pos + 1];
  }
}
