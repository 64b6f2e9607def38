/** The dynamically typed values the validators inspect, and the exceptions the
    register raises. Python 2 semantics: `bool` is a subtype of `int`, `long`
    and `int` are one integer type, `str` and `unicode` are both string types,
    and numbers of different types compare by value. Floats are exact reals. */
module PyValues {

  datatype PyValue =
    | PyNone
    | PyBool(b: bool)
    | PyInt(i: int)
    | PyFloat(f: real)
    | PyStr(s: string)
    | PyObject(id: nat)   // any other object, compared by identity

  /** `isinstance(v, six.string_types)` */
  predicate IsString(v: PyValue) {
    v.PyStr?
  }

  /** `isinstance(v, six.integer_types)`; True and False are integers. */
  predicate IsInteger(v: PyValue) {
    v.PyInt? || v.PyBool?
  }

  /** `isinstance(v, (float,) + six.integer_types)` */
  predicate IsNumber(v: PyValue) {
    IsInteger(v) || v.PyFloat?
  }

  function IntValue(v: PyValue): int
    requires IsInteger(v)
  {
    match v
    case PyInt(i) => i
    case PyBool(b) => if b then 1 else 0
  }

  function NumberValue(v: PyValue): real
    requires IsNumber(v)
  {
    if v.PyFloat? then v.f else IntValue(v) as real
  }

  /** Python's `==` on these values. */
  predicate PyEq(a: PyValue, b: PyValue) {
    if IsNumber(a) && IsNumber(b) then NumberValue(a) == NumberValue(b)
    else if IsString(a) && IsString(b) then a.s == b.s
    else if a.PyNone? && b.PyNone? then true
    else if a.PyObject? && b.PyObject? then a.id == b.id
    else false
  }

  /** Python's `==` is an equivalence on these values, and strictly coarser
      than structural equality: `1 == 1.0 == True`. */
  lemma PyEqIsEquivalence(a: PyValue, b: PyValue, c: PyValue)
    ensures PyEq(a, a)
    ensures PyEq(a, b) ==> PyEq(b, a)
    ensures PyEq(a, b) && PyEq(b, c) ==> PyEq(a, c)
  {
  }

  /** The exceptions raised by the modelled code; each carries its message. */
  datatype Exception =
    | ValueError(message: string)
    | CredentialException(message: string)
    | ItemNotFoundException(message: string)
    | AttributeError(message: string)
    | TypeError(message: string)
}
