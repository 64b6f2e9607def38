/** item.py: the menu item class. Its constructor checks every field before
    storing any, so every item that exists is well formed; equality and the
    hash both cover all five fields. */
module Items {
  import opened Wrappers
  import opened PyValues
  import opened Utils
  import Immutables

  /** An item after construction: the price is a number (held exactly), the
      shortcut is absent or a string. Dafny's `==` on this datatype compares
      all five fields, which is `Item.__eq__` (the type test is implicit). */
  datatype Item = Item(name: string, price: real, barcode: string, category: string,
                       shortcut: Option<string>)

  /** What the constructor's checks guarantee about a stored item. */
  predicate WellFormed(i: Item) {
    |i.name| > 0 && i.price >= 0.0 && |i.barcode| > 0 && |i.category| > 0
    && (i.shortcut.None? || |i.shortcut.value| > 0)
  }

  /** The shortcut as the Python value passed to the constructor. */
  function ShortcutValue(s: Option<string>): PyValue {
    if s.Some? then PyStr(s.value) else PyNone
  }

  /** `Item(name, price, barcode, category="General", shortcut=None)`. The
      checks of item.py run in the order name, price, barcode, category,
      shortcut, which is the order of `validate_item`; the getters read back
      exactly what was passed. */
  function NewItem(name: PyValue, price: PyValue, barcode: PyValue,
                   category: PyValue := PyStr("General"), shortcut: PyValue := PyNone)
    : (r: Result<Item, Exception>)
    ensures r.Failure? <==> Immutables.ValidateItem(name, price, barcode, category, shortcut).Fail?
    ensures r.Failure? ==> r.error == Immutables.ValidateItem(name, price, barcode, category, shortcut).error
    ensures r.Success? ==> WellFormed(r.value)
    ensures r.Success? ==> PyStr(r.value.name) == name && r.value.price == NumberValue(price)
                           && PyStr(r.value.barcode) == barcode && PyStr(r.value.category) == category
                           && ShortcutValue(r.value.shortcut) == shortcut
  {
    var check := Immutables.ValidateItem(name, price, barcode, category, shortcut);
    if check.Fail? then Failure(check.error)
    else
      Success(Item(name.s, NumberValue(price), barcode.s, category.s,
                   if shortcut.PyNone? then None else Some(shortcut.s)))
  }

  /** Rebuilding an item from its own fields gives it back exactly when it is
      well formed; an ill-formed item cannot be built at all. */
  lemma NewItemRoundTrip(i: Item)
    ensures (NewItem(PyStr(i.name), PyFloat(i.price), PyStr(i.barcode), PyStr(i.category),
                     ShortcutValue(i.shortcut)) == Success(i)) <==> WellFormed(i)
  {
  }

  /** The defaults: three arguments give category "General" and no shortcut. */
  lemma NewItemDefaults(name: string, price: real, barcode: string)
    requires |name| > 0 && price >= 0.0 && |barcode| > 0
    ensures NewItem(PyStr(name), PyFloat(price), PyStr(barcode))
            == Success(Item(name, price, barcode, "General", None))
  {
  }

  /** The tuple `__hash__` hashes. */
  function HashKey(i: Item): (string, real, string, Option<string>, string) {
    (i.barcode, i.price, i.category, i.shortcut, i.name)
  }

  /** `__eq__` and `__hash__` agree: two items are equal exactly when they
      agree on barcode, price, category, shortcut and name, which is exactly
      when their hashed tuples are equal. */
  lemma EqualityMatchesHash(a: Item, b: Item)
    ensures a == b <==> (a.barcode == b.barcode && a.price == b.price && a.category == b.category
                         && a.shortcut == b.shortcut && a.name == b.name)
    ensures a == b <==> HashKey(a) == HashKey(b)
  {
  }
}
