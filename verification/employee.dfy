/** employee.py: the employee class. Its constructor checks all four fields;
    equality looks at the barcode only; the text form joins the fields with
    '|', the layout of one line of the employees file. */
module Employees {
  import opened Wrappers
  import opened PyValues
  import opened Text
  import Immutables

  datatype Employee = Employee(name: string, barcode: string, code: string, level: int)

  predicate WellFormed(e: Employee) {
    |e.name| > 0 && |e.barcode| > 0 && |e.code| > 0 && 0 <= e.level <= 2
  }

  /** `Employee(name, barcode, code, level)`: runs the name, barcode, code and
      level checks in that order, then stores the fields unchanged. */
  function NewEmployee(name: PyValue, barcode: PyValue, code: PyValue, level: PyValue)
    : (r: Result<Employee, Exception>)
    ensures r.Failure? <==> Immutables.ValidateEmployee(name, barcode, code, level).Fail?
    ensures r.Failure? ==> r.error == Immutables.ValidateEmployee(name, barcode, code, level).error
    ensures r.Success? ==> WellFormed(r.value)
    ensures r.Success? ==> PyStr(r.value.name) == name && PyStr(r.value.barcode) == barcode
                           && PyStr(r.value.code) == code && r.value.level == IntValue(level)
  {
    var check := Immutables.ValidateEmployee(name, barcode, code, level);
    if check.Fail? then Failure(check.error)
    else Success(Employee(name.s, barcode.s, code.s, IntValue(level)))
  }

  /** The getters return what was stored: rebuilding an employee from its own
      fields gives it back exactly when it is well formed. */
  lemma NewEmployeeRoundTrip(e: Employee)
    ensures (NewEmployee(PyStr(e.name), PyStr(e.barcode), PyStr(e.code), PyInt(e.level))
             == Success(e)) <==> WellFormed(e)
  {
  }

  /** `Employee.__eq__`: same barcode, whatever the other fields. */
  predicate SameEmployee(a: Employee, b: Employee) {
    a.barcode == b.barcode
  }

  /** Barcode equality is an equivalence that ignores name, code and level, so
      it is strictly coarser than the field-by-field equality of the named
      tuple in immutables.py. */
  lemma SameEmployeeIgnoresOtherFields(a: Employee, b: Employee, c: Employee,
                                       name: string, code: string, level: int)
    ensures SameEmployee(a, a)
    ensures SameEmployee(a, b) ==> SameEmployee(b, a)
    ensures SameEmployee(a, b) && SameEmployee(b, c) ==> SameEmployee(a, c)
    ensures SameEmployee(a, b) <==> SameEmployee(a, b.(name := name, code := code, level := level))
  {
  }

  /** `__unicode__`: `name|barcode|code|level`. */
  function ToText(e: Employee): (r: string)
    ensures r == Join([e.name, e.barcode, e.code, IntToString(e.level)], '|')
  {
    var lvl := IntToString(e.level);
    var parts := [e.name, e.barcode, e.code, lvl];
    assert parts[1..] == [e.barcode, e.code, lvl] && parts[1..][1..] == [e.code, lvl];
    assert parts[1..][1..][1..] == [lvl];
    assert Join(parts[1..][1..], '|') == e.code + "|" + lvl;
    assert Join(parts[1..], '|') == e.barcode + "|" + e.code + "|" + lvl;
    e.name + "|" + e.barcode + "|" + e.code + "|" + lvl
  }

  /** The text form splits back on '|' into the four stored fields, provided
      none of them contains a '|'. */
  lemma {:induction false} ToTextSplits(e: Employee)
    requires '|' !in e.name && '|' !in e.barcode && '|' !in e.code
    ensures Split(ToText(e), '|') == [e.name, e.barcode, e.code, IntToString(e.level)]
  {
    var parts := [e.name, e.barcode, e.code, IntToString(e.level)];
    var lvl := IntToString(e.level);
    assert '|' !in lvl by {
      assert forall k :: 0 <= k < |lvl| ==> IsDigit(lvl[k]) || lvl[k] == '-';
    }
    assert Join(parts, '|') == ToText(e) by {
      assert parts[1..] == [e.barcode, e.code, lvl];
      assert parts[1..][1..] == [e.code, lvl];
      assert parts[1..][1..][1..] == [lvl];
      assert Join([e.code, lvl], '|') == e.code + "|" + lvl;
      assert Join([e.barcode, e.code, lvl], '|') == e.barcode + "|" + e.code + "|" + lvl;
    }
    SplitUnique(parts, '|');
  }
}
