/** The values a fact cell can hold, with Python's equality and truthiness
    on them. JSON numbers are modelled as reals; `bool` is a subclass of
    `int` in Python, so `True == 1` and `False == 0` hold. */
module Values {

  datatype Value = Null | Num(n: real) | Bool(b: bool) | Str(s: string)

  function BoolAsReal(b: bool): real {
    if b then 1.0 else 0.0
  }

  /** Python's `==` between two fact values. */
  predicate PyEq(a: Value, b: Value) {
    match (a, b)
    case (Null, Null) => true
    case (Num(x), Num(y)) => x == y
    case (Bool(x), Bool(y)) => x == y
    case (Num(x), Bool(y)) => x == BoolAsReal(y)
    case (Bool(x), Num(y)) => BoolAsReal(x) == y
    case (Str(x), Str(y)) => x == y
    case _ => false
  }

  /** Python's `bool(value)`. */
  predicate Truthy(v: Value) {
    match v
    case Null => false
    case Num(x) => x != 0.0
    case Bool(x) => x
    case Str(x) => x != ""
  }

  /** Python equality on these values is an equivalence relation that
      identifies exactly the numerically equal numbers and booleans. */
  lemma PyEqIsEquivalence(a: Value, b: Value, c: Value)
    ensures PyEq(a, a)
    ensures PyEq(a, b) <==> PyEq(b, a)
    ensures PyEq(a, b) && PyEq(b, c) ==> PyEq(a, c)
    ensures PyEq(a, b) && !a.Num? && !a.Bool? ==> a == b
  {
  }
}
