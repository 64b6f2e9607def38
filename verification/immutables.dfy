/** immutables.py: `Employee` and `Item` as plain named tuples (fields hold any
    value, nothing is checked on construction), and the two record validators
    that run the field checks of utils.py in field order. */
module Immutables {
  import opened Wrappers
  import opened PyValues
  import opened Utils

  datatype Employee = Employee(name: PyValue, barcode: PyValue, code: PyValue, level: PyValue)

  /** `Item.__new__.__defaults__ = ('General', None)`: the last two fields
      default to the category "General" and no shortcut. */
  datatype Item = Item(name: PyValue, price: PyValue, barcode: PyValue,
                       category: PyValue := PyStr("General"), shortcut: PyValue := PyNone)

  /** Named tuples compare as tuples: Python `==` field by field. */
  predicate SameEmployee(a: Employee, b: Employee) {
    PyEq(a.name, b.name) && PyEq(a.barcode, b.barcode) && PyEq(a.code, b.code)
    && PyEq(a.level, b.level)
  }

  predicate SameItem(a: Item, b: Item) {
    PyEq(a.name, b.name) && PyEq(a.price, b.price) && PyEq(a.barcode, b.barcode)
    && PyEq(a.category, b.category) && PyEq(a.shortcut, b.shortcut)
  }

  /** Tuple equality looks at every field: changing any one field of a record
      to a value Python considers different gives an unequal record. */
  lemma TupleEqualityUsesEveryField(e: Employee, it: Item, v: PyValue)
    ensures !PyEq(e.name, v) ==> !SameEmployee(e, e.(name := v))
    ensures !PyEq(e.barcode, v) ==> !SameEmployee(e, e.(barcode := v))
    ensures !PyEq(e.code, v) ==> !SameEmployee(e, e.(code := v))
    ensures !PyEq(e.level, v) ==> !SameEmployee(e, e.(level := v))
    ensures !PyEq(it.name, v) ==> !SameItem(it, it.(name := v))
    ensures !PyEq(it.price, v) ==> !SameItem(it, it.(price := v))
    ensures !PyEq(it.barcode, v) ==> !SameItem(it, it.(barcode := v))
    ensures !PyEq(it.category, v) ==> !SameItem(it, it.(category := v))
    ensures !PyEq(it.shortcut, v) ==> !SameItem(it, it.(shortcut := v))
    ensures SameEmployee(e, e) && SameItem(it, it)
  {
    PyEqIsEquivalence(e.name, e.name, v);
    PyEqIsEquivalence(e.barcode, e.barcode, v);
    PyEqIsEquivalence(e.code, e.code, v);
    PyEqIsEquivalence(e.level, e.level, v);
    PyEqIsEquivalence(it.name, it.name, v);
    PyEqIsEquivalence(it.price, it.price, v);
    PyEqIsEquivalence(it.barcode, it.barcode, v);
    PyEqIsEquivalence(it.category, it.category, v);
    PyEqIsEquivalence(it.shortcut, it.shortcut, v);
  }

  /** An item built from three values carries the default category and no
      shortcut. */
  lemma ItemDefaults(name: PyValue, price: PyValue, barcode: PyValue)
    ensures Item(name, price, barcode).category == PyStr("General")
    ensures Item(name, price, barcode).shortcut == PyNone
  {
  }

  /** The field checks of `validate_employee`, in the order they run. */
  function EmployeeChecks(name: PyValue, barcode: PyValue, code: PyValue, level: PyValue)
    : seq<Outcome<Exception>>
  {
    [ValidateName(name, "employee name"), ValidateName(barcode, "employee barcode"),
     ValidateName(code, "employee code"), ValidateEmployeeLevel(level)]
  }

  /** The field checks of `validate_item`, in the order they run. */
  function ItemChecks(name: PyValue, price: PyValue, barcode: PyValue, category: PyValue,
                      shortcut: PyValue): seq<Outcome<Exception>>
  {
    [ValidateName(name, "item name"), ValidateAmount(price, "item price"),
     ValidateName(barcode, "item barcode"), ValidateName(category, "item category"),
     ValidateItemShortcut(shortcut)]
  }

  /** `validate_employee`: passes exactly for three non-empty strings and a
      level in {0, 1, 2}; otherwise reports the first field that is wrong. */
  function ValidateEmployee(name: PyValue, barcode: PyValue, code: PyValue, level: PyValue)
    : (r: Outcome<Exception>)
    ensures r.Pass? <==> IsString(name) && |name.s| > 0 && IsString(barcode) && |barcode.s| > 0
                         && IsString(code) && |code.s| > 0
                         && IsInteger(level) && 0 <= IntValue(level) <= 2
  {
    var n := ValidateName(name, "employee name");
    if n.Fail? then n
    else
      var b := ValidateName(barcode, "employee barcode");
      if b.Fail? then b
      else
        var c := ValidateName(code, "employee code");
        if c.Fail? then c
        else ValidateEmployeeLevel(level)
  }

  /** `validate_item`: passes exactly for non-empty name, barcode and category
      strings, a non-negative number as price, and a shortcut that is None or
      a non-empty string; otherwise reports the first field that is wrong. */
  function ValidateItem(name: PyValue, price: PyValue, barcode: PyValue, category: PyValue,
                        shortcut: PyValue): (r: Outcome<Exception>)
    ensures r.Pass? <==> IsString(name) && |name.s| > 0 && IsNumber(price) && NumberValue(price) >= 0.0
                         && IsString(barcode) && |barcode.s| > 0
                         && IsString(category) && |category.s| > 0
                         && (shortcut.PyNone? || (IsString(shortcut) && |shortcut.s| > 0))
  {
    var n := ValidateName(name, "item name");
    if n.Fail? then n
    else
      var p := ValidateAmount(price, "item price");
      if p.Fail? then p
      else
        var b := ValidateName(barcode, "item barcode");
        if b.Fail? then b
        else
          var c := ValidateName(category, "item category");
          if c.Fail? then c
          else ValidateItemShortcut(shortcut)
  }

  /** `validate_employee` runs its four field checks left to right and stops
      at the first that fails. */
  lemma {:induction false} ValidateEmployeeInFieldOrder(name: PyValue, barcode: PyValue,
                                                        code: PyValue, level: PyValue)
    ensures ValidateEmployee(name, barcode, code, level)
            == FirstFailure(EmployeeChecks(name, barcode, code, level))
  {
    var cs := EmployeeChecks(name, barcode, code, level);
    assert cs == [cs[0]] + ([cs[1]] + ([cs[2]] + ([cs[3]] + [])));
    FirstFailureCons(cs[3], []);
    FirstFailureCons(cs[2], [cs[3]] + []);
    FirstFailureCons(cs[1], [cs[2]] + ([cs[3]] + []));
    FirstFailureCons(cs[0], [cs[1]] + ([cs[2]] + ([cs[3]] + [])));
  }

  /** `validate_item` runs its five field checks left to right and stops at
      the first that fails. */
  lemma {:induction false} ValidateItemInFieldOrder(name: PyValue, price: PyValue, barcode: PyValue,
                                                    category: PyValue, shortcut: PyValue)
    ensures ValidateItem(name, price, barcode, category, shortcut)
            == FirstFailure(ItemChecks(name, price, barcode, category, shortcut))
  {
    var cs := ItemChecks(name, price, barcode, category, shortcut);
    assert cs == [cs[0]] + ([cs[1]] + ([cs[2]] + ([cs[3]] + ([cs[4]] + []))));
    FirstFailureCons(cs[4], []);
    FirstFailureCons(cs[3], [cs[4]] + []);
    FirstFailureCons(cs[2], [cs[3]] + ([cs[4]] + []));
    FirstFailureCons(cs[1], [cs[2]] + ([cs[3]] + ([cs[4]] + [])));
    FirstFailureCons(cs[0], [cs[1]] + ([cs[2]] + ([cs[3]] + ([cs[4]] + []))));
  }

  /** A failing record check reports the error of its first failing field, and
      every field before it passed. */
  lemma ValidateItemReportsFirstBadField(name: PyValue, price: PyValue, barcode: PyValue,
                                         category: PyValue, shortcut: PyValue)
    requires ValidateItem(name, price, barcode, category, shortcut).Fail?
    ensures var checks := ItemChecks(name, price, barcode, category, shortcut);
            exists k :: 0 <= k < |checks|
                        && checks[k] == ValidateItem(name, price, barcode, category, shortcut)
                        && forall j :: 0 <= j < k ==> checks[j].Pass?
  {
    ValidateItemInFieldOrder(name, price, barcode, category, shortcut);
  }
}
