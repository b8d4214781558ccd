/** Shared vocabulary: optional values, the exceptions the engine raises, and
    the small string helpers several components need. */
module Basics {

  datatype Option<+T> = None | Some(value: T) {
    function GetOr(default: T): T {
      match this
      case Some(v) => v
      case None => default
    }
  }

  /** The Python exceptions the decision engine raises, by kind. */
  datatype Error =
    | UnexpectedCharacter(pos: nat, ch: char)    // SyntaxError from the tokenizer
    | MissingClosingParenthesis                  // SyntaxError from the parser
    | UnexpectedToken(text: Option<string>)      // SyntaxError from the parser
    | KeyError(key: string)                      // a required configuration key is missing
    | UnknownState(name: Option<string>)         // KeyError on the FSM state table
    | UnknownNodeType(nodeType: string)          // ValueError from the behaviour-tree loader
    | AttributeError(attribute: string)          // attribute read on a value that lacks it
    | NoStates                                   // StopIteration: first key of an empty state table

  /** Either a value or the exception that was raised instead. */
  datatype Result<+T> = Ok(value: T) | Err(error: Error) {
    predicate IsFailure() {
      Err?
    }

    function PropagateFailure<U>(): Result<U>
      requires Err?
    {
      Err(error)
    }

    function Extract(): T
      requires Ok?
    {
      value
    }
  }

  /** A list comprehension whose element expression may raise: every
      element in order, or the exception of the first one that raises. */
  function Collect<T, U>(xs: seq<T>, f: T -> Result<U>): (r: Result<seq<U>>)
    ensures r.Ok? <==> forall i :: 0 <= i < |xs| ==> f(xs[i]).Ok?
    ensures r.Ok? ==> |r.value| == |xs| && forall i :: 0 <= i < |xs| ==> r.value[i] == f(xs[i]).value
    ensures r.Err? ==> exists i :: 0 <= i < |xs| && f(xs[i]).Err? && r.error == f(xs[i]).error
                                   && forall j :: 0 <= j < i ==> f(xs[j]).Ok?
  {
    if xs == [] then Ok([])
    else
      match f(xs[0])
      case Err(e) => Err(e)
      case Ok(y) =>
        var rest := Collect(xs[1..], f);
        assert forall i :: 1 <= i < |xs| ==> xs[1..][i - 1] == xs[i];
        match rest
        case Err(e) =>
          ghost var i :| 0 <= i < |xs[1..]| && f(xs[1..][i]).Err? && e == f(xs[1..][i]).error
                         && forall j :: 0 <= j < i ==> f(xs[1..][j]).Ok?;
          assert f(xs[i + 1]).Err? && forall j :: 0 <= j < i + 1 ==> f(xs[j]).Ok?;
          Err(e)
        case Ok(ys) => Ok([y] + ys)
  }

  /** Python's `sep.join(parts)`. */
  function Join(parts: seq<string>, sep: string): (r: string)
    ensures parts == [] ==> r == ""
    ensures |parts| == 1 ==> r == parts[0]
  {
    if |parts| == 0 then ""
    else if |parts| == 1 then parts[0]
    else parts[0] + sep + Join(parts[1..], sep)
  }

  /** Python's `str.upper()` restricted to ASCII letters. */
  function UpperChar(c: char): char {
    if 'a' <= c <= 'z' then (c as int - 'a' as int + 'A' as int) as char else c
  }

  function Upper(s: string): (r: string)
    ensures |r| == |s|
    ensures forall i :: 0 <= i < |s| ==> r[i] == UpperChar(s[i])
  {
    if s == [] then [] else [UpperChar(s[0])] + Upper(s[1..])
  }

  /** Regular-expression digit (`\d`), ASCII part. */
  predicate IsDigit(c: char) {
    '0' <= c <= '9'
  }

  /** Regular-expression word character (`\w`), ASCII part. */
  predicate IsWordChar(c: char) {
    IsDigit(c) || 'a' <= c <= 'z' || 'A' <= c <= 'Z' || c == '_'
  }

  predicate HasPrefixAt(s: string, pos: nat, p: string) {
    pos + |p| <= |s| && s[pos..pos + |p|] == p
  }
}
