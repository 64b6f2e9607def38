/** The argument validators of utils.py. Each returns `Pass` or the ValueError
    it would raise; the message starts with the label of what is validated. */
module Utils {
  import opened Wrappers
  import opened PyValues
  import opened Text

  /** `validate_name`: a non-empty string. */
  function ValidateName(name: PyValue, kind: string := "name"): (r: Outcome<Exception>)
    ensures r.Pass? <==> IsString(name) && |name.s| > 0
    ensures r.Fail? ==> r.error.ValueError? && StartsWith(r.error.message, kind)
    ensures !IsString(name) ==> r == Fail(ValueError(kind + " must be a string"))
  {
    if !IsString(name) then Fail(ValueError(kind + " must be a string"))
    else if name.s == "" then Fail(ValueError(kind + " must not be empty"))
    else Pass
  }

  /** `validate_amount`: a number (int, long, bool or float) that is not
      negative; zero is accepted. */
  function ValidateAmount(amount: PyValue, kind: string := "amount"): (r: Outcome<Exception>)
    ensures r.Pass? <==> IsNumber(amount) && NumberValue(amount) >= 0.0
    ensures r.Fail? ==> r.error.ValueError? && StartsWith(r.error.message, kind)
    ensures !IsNumber(amount) ==> r == Fail(ValueError(kind + " must be a number"))
  {
    if !IsNumber(amount) then Fail(ValueError(kind + " must be a number"))
    else if NumberValue(amount) < 0.0 then Fail(ValueError(kind + " must be positive"))
    else Pass
  }

  /** `validate_item_shortcut`: None, or else whatever `validate_name` says. */
  function ValidateItemShortcut(shortcut: PyValue): (r: Outcome<Exception>)
    ensures r.Pass? <==> shortcut.PyNone? || (IsString(shortcut) && |shortcut.s| > 0)
    ensures !shortcut.PyNone? ==> r == ValidateName(shortcut, "item shortcut")
  {
    if shortcut.PyNone? then Pass else ValidateName(shortcut, "item shortcut")
  }

  /** `validate_employee_level`: an integer equal to 0, 1 or 2. The membership
      test `level in (0, 1, 2)` uses Python equality, so True and False pass. */
  function ValidateEmployeeLevel(level: PyValue): (r: Outcome<Exception>)
    ensures r.Pass? <==> IsInteger(level) && 0 <= IntValue(level) <= 2
    ensures r.Fail? ==> r.error.ValueError? && StartsWith(r.error.message, "employee level")
  {
    if !IsInteger(level) then Fail(ValueError("employee level must be an integer"))
    else
      PyEqInteger(level, 0);
      PyEqInteger(level, 1);
      PyEqInteger(level, 2);
      if !(PyEq(level, PyInt(0)) || PyEq(level, PyInt(1)) || PyEq(level, PyInt(2))) then
        Fail(ValueError("employee level must be in {0, 1, 2}"))
      else Pass
  }

  /** An integer value is Python-equal to the int `n` exactly when it denotes
      `n`. */
  lemma PyEqInteger(v: PyValue, n: int)
    requires IsInteger(v)
    ensures PyEq(v, PyInt(n)) <==> IntValue(v) == n
  {
    assert NumberValue(v) == IntValue(v) as real;
    assert NumberValue(PyInt(n)) == n as real;
  }

  /** The exact integers 0, 1 and 2 are the only integer levels accepted;
      strings and floats are rejected whatever their value. */
  lemma EmployeeLevelExamples()
    ensures ValidateEmployeeLevel(PyInt(0)).Pass? && ValidateEmployeeLevel(PyInt(1)).Pass?
    ensures ValidateEmployeeLevel(PyInt(2)).Pass?
    ensures ValidateEmployeeLevel(PyInt(3)).Fail? && ValidateEmployeeLevel(PyInt(-1)).Fail?
    ensures ValidateEmployeeLevel(PyStr("gum")).Fail? && ValidateEmployeeLevel(PyFloat(1.0)).Fail?
    ensures ValidateEmployeeLevel(PyBool(true)).Pass?
  {
  }
}
