/** register.py: the register's state and its operations. Every operation is
    a function from the state before to a `Step`: the state after and what
    the call returns or raises. Writing the menu, employees and count files
    is replaced by fields of the state (`countFile` is the persisted copy of
    the register count); reading them is replaced by arguments. */
module Register {
  import opened Wrappers
  import opened PyValues
  import opened Text
  import opened Items
  import opened Employees
  import Orders
  import Loaders

  datatype State = State(menu: seq<Item>, employees: seq<Employee>, employee: Option<Employee>,
                         order: Orders.Order, count: real, countFile: Option<real>)

  /** The outcome of one call: the state afterwards, and the returned value
      or the raised exception. */
  datatype Step<T> = Step(next: State, ret: Result<T, Exception>)

  /** The persisted copy of the count equals the count in memory. */
  predicate Persisted(s: State) {
    s.countFile == Some(s.count)
  }

  /** What every reachable state satisfies: the order has distinct keys with
      quantities of at least 1 and holds only well-formed items, the menu
      holds only well-formed items, every menu and order item's name is
      stripped (the menu loader strips every token), and the count is
      persisted. */
  predicate Consistent(s: State) {
    Orders.Valid(s.order) && Orders.ItemsWellFormed(s.order) && Orders.NamesTrimmed(s.order)
    && (forall k :: 0 <= k < |s.menu| ==> Items.WellFormed(s.menu[k]) && Trimmed(s.menu[k].name))
    && Persisted(s)
  }

  // --------------------------------------------------------- credentials

  const NoEmployeeMessage := "unauthorized operation while no employee logged in"
  const LowLevelMessage := "insufficient privileges for this operation"

  /** `_verify_credentials(employee, authorized_level)` as written. A level
      of None is `Option.None`. With no employee and no level the first test
      is false and `None.get_level()` raises; with an employee and no level,
      Python 2 orders every int above None, so the call passes. */
  function VerifyCredentialsAsWritten(e: Option<Employee>, required: Option<int>)
    : (r: Outcome<Exception>)
    ensures r.Pass? <==> e.Some? && (required.None? || e.value.level >= required.value)
    ensures e.None? && required.Some? ==> r == Fail(CredentialException(NoEmployeeMessage))
    ensures e.None? && required.None? ==> r.Fail? && r.error.AttributeError?
    ensures e.Some? && r.Fail? ==> r == Fail(CredentialException(LowLevelMessage))
  {
    if e.None? && required.Some? then Fail(CredentialException(NoEmployeeMessage))
    else if e.None? then Fail(AttributeError("'NoneType' object has no attribute 'get_level'"))
    else if required.Some? && e.value.level < required.value then
      Fail(CredentialException(LowLevelMessage))
    else Pass
  }

  /** `_verify_credentials` as intended: no level required lets anyone
      through, a level requires a logged-in employee of at least that level;
      it only ever raises CredentialException. */
  function VerifyCredentials(e: Option<Employee>, required: Option<int>): (r: Outcome<Exception>)
    ensures r.Pass? <==> required.None? || (e.Some? && e.value.level >= required.value)
    ensures r.Fail? ==> r.error.CredentialException?
    ensures r.Fail? && e.None? ==> r.error.message == NoEmployeeMessage
    ensures r.Fail? && e.Some? ==> r.error.message == LowLevelMessage
  {
    if required.None? then Pass
    else if e.None? then Fail(CredentialException(NoEmployeeMessage))
    else if e.value.level < required.value then Fail(CredentialException(LowLevelMessage))
    else Pass
  }

  /** The two differ only when no level is required and nobody is logged
      in: the code as written raises AttributeError where the caller is to
      be let through. Every operation of the register asks for a level, so
      on them the two agree. */
  lemma CredentialsAgreeOnLevels(e: Option<Employee>, required: Option<int>)
    ensures required.Some? || e.Some?
            ==> VerifyCredentialsAsWritten(e, required) == VerifyCredentials(e, required)
    ensures VerifyCredentialsAsWritten(None, None).Fail?
    ensures VerifyCredentialsAsWritten(None, None).error.AttributeError?
    ensures VerifyCredentials(None, None) == Pass
  {
  }

  /** Passing the check at some level passes it at every lower level. */
  lemma CredentialsMonotone(e: Option<Employee>, high: int, low: int)
    requires low <= high && VerifyCredentials(e, Some(high)).Pass?
    ensures VerifyCredentials(e, Some(low)).Pass?
  {
  }

  /** The guard of a public operation: the logged-in employee has at least
      the given level. */
  predicate Authorized(s: State, level: int) {
    VerifyCredentials(s.employee, Some(level)).Pass?
  }

  /** The exception a failed guard raises. */
  function Denied(s: State, level: int): Exception
    requires !Authorized(s, level)
  {
    VerifyCredentials(s.employee, Some(level)).error
  }

  // ------------------------------------------------------ plain accessors

  /** `get_register_count()`: level 2; returns the count and changes nothing. */
  function GetRegisterCount(s: State): (r: Step<real>)
    ensures r.next == s
    ensures r.ret.Success? <==> s.employee.Some? && s.employee.value.level >= 2
    ensures r.ret.Success? ==> r.ret.value == s.count
    ensures r.ret.Failure? ==> r.ret.error.CredentialException?
  {
    if !Authorized(s, 2) then Step(s, Failure(Denied(s, 2))) else Step(s, Success(s.count))
  }

  /** `logout_employee()`: nobody is logged in afterwards; nothing else
      changes. */
  function LogoutEmployee(s: State): (r: State)
    ensures r.employee.None?
    ensures r.(employee := s.employee) == s
    ensures Consistent(s) ==> Consistent(r)
  {
    s.(employee := None)
  }

  /** `get_employee_name()`: the logged-in employee's name, or "None". */
  function GetEmployeeName(s: State): (r: string)
    ensures s.employee.Some? ==> r == s.employee.value.name
    ensures s.employee.None? ==> r == "None"
  {
    if s.employee.None? then "None" else s.employee.value.name
  }

  /** After a logout no operation that needs a level goes through, and the
      employee's name reads "None". */
  lemma LogoutLocksEverything(s: State, level: int, token: string)
    ensures GetEmployeeName(LogoutEmployee(s)) == "None"
    ensures !Authorized(LogoutEmployee(s), level)
    ensures Find(LogoutEmployee(s), token).ret.Failure?
    ensures GetRegisterCount(LogoutEmployee(s)).ret.Failure?
  {
  }

  // ---------------------------------------------------------------- menu

  /** An item answers to a token through its shortcut or its barcode. */
  predicate Matches(i: Item, token: string) {
    i.shortcut == Some(token) || i.barcode == token
  }

  /** The position of the first menu item answering to the token, or the
      length of the menu when none does. */
  function FirstMatch(menu: seq<Item>, token: string): (k: nat)
    ensures k <= |menu|
    ensures k < |menu| ==> Matches(menu[k], token)
    ensures forall j :: 0 <= j < k ==> !Matches(menu[j], token)
  {
    if |menu| == 0 then 0
    else if Matches(menu[0], token) then 0
    else 1 + FirstMatch(menu[1..], token)
  }

  function NotFoundError(token: string): Exception {
    ValueError("item not found with token '" + token + "'")
  }

  /** `find(token)`: level 0; returns a menu item whose shortcut or barcode
      is the token, raises ValueError when there is none, and changes
      nothing. */
  function Find(s: State, token: string): (r: Step<Item>)
    ensures r.next == s
    ensures r.ret.Success? <==> Authorized(s, 0) && exists k :: 0 <= k < |s.menu| && Matches(s.menu[k], token)
    ensures r.ret.Success? ==> r.ret.value in s.menu && Matches(r.ret.value, token)
    ensures r.ret.Failure? && Authorized(s, 0) ==> r.ret.error == NotFoundError(token)
    ensures r.ret.Failure? && !Authorized(s, 0) ==> r.ret.error.CredentialException?
  {
    if !Authorized(s, 0) then Step(s, Failure(Denied(s, 0)))
    else
      var k := FirstMatch(s.menu, token);
      if k < |s.menu| then Step(s, Success(s.menu[k])) else Step(s, Failure(NotFoundError(token)))
  }

  // --------------------------------------------------------------- order

  /** `scan(token)`: level 0; finds the item and adds one of it to the
      order. A failure (no credentials, unknown token) changes nothing. */
  function Scan(s: State, token: string): (r: Step<()>)
    ensures r.ret.Success? <==> Find(s, token).ret.Success?
    ensures r.ret.Failure? ==> r.next == s && r.ret.error == Find(s, token).ret.error
    ensures r.ret.Success? ==> var i := Find(s, token).ret.value;
              && Orders.QuantityOf(r.next.order, i) == Orders.QuantityOf(s.order, i) + 1
              && (forall j :: j != i ==> Orders.QuantityOf(r.next.order, j) == Orders.QuantityOf(s.order, j))
              && r.next.(order := s.order) == s
    ensures Consistent(s) ==> Consistent(r.next)
  {
    var f := Find(s, token);
    if f.ret.Failure? then Step(s, Failure(f.ret.error))
    else
      var i := f.ret.value;
      assert Consistent(s) ==> Items.WellFormed(i) && Trimmed(i.name) by {
        if Consistent(s) {
          var k :| 0 <= k < |s.menu| && s.menu[k] == i;
        }
      }
      Step(s.(order := Orders.AddToOrder(s.order, i)), Success(()))
  }

  /** `remove(token)`: level 0; finds the item and takes one of it out of
      the order, raising ItemNotFoundException when it is not there. A
      failure changes nothing. */
  function Remove(s: State, token: string): (r: Step<()>)
    ensures r.ret.Success? <==> Find(s, token).ret.Success?
                                && Orders.InOrder(s.order, Find(s, token).ret.value)
    ensures r.ret.Failure? ==> r.next == s
    ensures Find(s, token).ret.Failure? ==> r.ret.error == Find(s, token).ret.error
    ensures r.ret.Failure? && Find(s, token).ret.Success? ==> r.ret.error.ItemNotFoundException?
    ensures r.ret.Success? && Orders.Valid(s.order) ==> var i := Find(s, token).ret.value;
              && Orders.QuantityOf(r.next.order, i) == Orders.QuantityOf(s.order, i) - 1
              && (forall j :: j != i ==> Orders.QuantityOf(r.next.order, j) == Orders.QuantityOf(s.order, j))
    ensures r.next.(order := s.order) == s
    ensures Consistent(s) ==> Consistent(r.next)
  {
    var f := Find(s, token);
    if f.ret.Failure? then Step(s, Failure(f.ret.error))
    else
      match Orders.RemoveFromOrder(s.order, f.ret.value)
      case Failure(e) => Step(s, Failure(e))
      case Success(o) => Step(s.(order := o), Success(()))
  }

  /** `remove_from_order(item)`: level 1; the same decrement as
      `_remove_from_order`, but an absent item raises ValueError. */
  function RemoveFromOrder(s: State, i: Item): (r: Step<()>)
    ensures r.ret.Success? <==> Authorized(s, 1) && Orders.InOrder(s.order, i)
    ensures r.ret.Failure? ==> r.next == s
    ensures !Authorized(s, 1) ==> r.ret == Failure(Denied(s, 1))
    ensures r.ret.Failure? && Authorized(s, 1)
            ==> r.ret.error == ValueError("item '" + i.name + "' not in current order")
    ensures r.ret.Success? && Orders.Valid(s.order) ==>
              && Orders.QuantityOf(r.next.order, i) == Orders.QuantityOf(s.order, i) - 1
              && (forall j :: j != i ==> Orders.QuantityOf(r.next.order, j) == Orders.QuantityOf(s.order, j))
    ensures r.next.(order := s.order) == s
    ensures Consistent(s) ==> Consistent(r.next)
  {
    if !Authorized(s, 1) then Step(s, Failure(Denied(s, 1)))
    else if !Orders.InOrder(s.order, i) then
      Step(s, Failure(ValueError("item '" + i.name + "' not in current order")))
    else
      Step(s.(order := Orders.RemoveFromOrder(s.order, i).value), Success(()))
  }

  /** `clear_order()`: level 0; the order becomes empty. */
  function ClearOrder(s: State): (r: Step<()>)
    ensures r.ret.Success? <==> Authorized(s, 0)
    ensures r.ret.Failure? ==> r.next == s
    ensures !Authorized(s, 0) ==> r.ret == Failure(Denied(s, 0))
    ensures r.ret.Success? ==> r.next.order == [] && r.next.(order := s.order) == s
    ensures Consistent(s) ==> Consistent(r.next)
  {
    if !Authorized(s, 0) then Step(s, Failure(Denied(s, 0)))
    else Step(s.(order := []), Success(()))
  }

  /** `order_to_string()`: level 0; the order as text, changing nothing. */
  function OrderToString(s: State): (r: Step<string>)
    ensures r.next == s
    ensures r.ret.Success? <==> Authorized(s, 0)
    ensures !Authorized(s, 0) ==> r.ret == Failure(Denied(s, 0))
    ensures r.ret.Success? ==> r.ret.value == Orders.OrderText(s.order)
  {
    if !Authorized(s, 0) then Step(s, Failure(Denied(s, 0)))
    else Step(s, Success(Orders.OrderText(s.order)))
  }

  /** In a consistent state the text has one `name x quantity` line per
      entry, in the order visited, separated by newlines; an empty order
      gives "". Names being stripped is what keeps `strip()` from eating into
      the first line. */
  lemma OrderToStringShowsLines(s: State)
    requires Consistent(s) && Authorized(s, 0)
    ensures OrderToString(s).ret == Success(Join(Orders.LinesText(s.order), '\n'))
  {
    Orders.OrderTextIsLines(s.order);
  }

  /** Scanning an item and then removing it by the same token gives back
      the order exactly. */
  lemma ScanThenRemove(s: State, token: string)
    requires Consistent(s) && Scan(s, token).ret.Success?
    ensures Remove(Scan(s, token).next, token).ret.Success?
    ensures Remove(Scan(s, token).next, token).next == s
  {
    var i := Find(s, token).ret.value;
    var t := Scan(s, token).next;
    assert Find(t, token).ret == Find(s, token).ret;
    Orders.AddThenRemove(s.order, i);
  }

  /** Scanning raises the order total by the price of the scanned item. */
  lemma ScanRaisesTotal(s: State, token: string)
    requires Scan(s, token).ret.Success?
    ensures Orders.Total(Scan(s, token).next.order)
            == Orders.Total(s.order) + Find(s, token).ret.value.price
  {
    Orders.TotalAfterAdd(s.order, Find(s, token).ret.value);
  }

  // ---------------------------------------------------------------- count

  /** `_load_register_count(path)` with the file as an optional value: the
      stored value when there is one, otherwise 0.0, which is then written;
      either way the file afterwards holds the count. */
  function LoadRegisterCount(file: Option<real>): (r: (real, Option<real>))
    ensures r.1 == Some(r.0)
    ensures file.Some? ==> r.0 == file.value
    ensures file.None? ==> r.0 == 0.0
  {
    match file
    case None => (0.0, Some(0.0))
    case Some(v) => (v, file)
  }

  /** `_update_register_count()`: the persisted copy becomes the count. */
  function UpdateRegisterCount(s: State): (r: State)
    ensures Persisted(r)
    ensures r.(countFile := s.countFile) == s
  {
    s.(countFile := Some(s.count))
  }

  /** `_add_to_register_count(amount)`: the count grows by the amount and is
      written through. */
  function AddToRegisterCount(s: State, amount: real): (r: State)
    ensures r.count == s.count + amount && Persisted(r)
    ensures r.(count := s.count, countFile := s.countFile) == s
  {
    UpdateRegisterCount(s.(count := s.count + amount))
  }

  /** `_substract_from_register_count(amount)`: an amount larger than the
      count raises ValueError and changes nothing, since the count stands
      for money in the drawer; otherwise the count shrinks by the amount and
      is written through, so it is never negative afterwards. */
  function SubstractFromRegisterCount(s: State, amount: real): (r: Step<()>)
    ensures r.ret.Failure? <==> amount > s.count
    ensures r.ret.Failure? ==> r.next == s && r.ret.error.ValueError?
    ensures r.ret.Success? ==> r.next.count == s.count - amount && r.next.count >= 0.0
                               && Persisted(r.next)
    ensures r.next.(count := s.count, countFile := s.countFile) == s
  {
    if amount > s.count then
      Step(s, Failure(ValueError("cannot substract amount greater than register count")))
    else
      Step(UpdateRegisterCount(s.(count := s.count - amount)), Success(()))
  }

  /** Taking out the whole count leaves exactly zero. */
  lemma SubstractEverything(s: State)
    ensures SubstractFromRegisterCount(s, s.count).ret.Success?
    ensures SubstractFromRegisterCount(s, s.count).next.count == 0.0
  {
  }

  /** Taking an amount out and putting it back restores the count and its
      persisted copy. */
  lemma SubstractThenAdd(s: State, amount: real)
    requires Persisted(s) && SubstractFromRegisterCount(s, amount).ret.Success?
    ensures AddToRegisterCount(SubstractFromRegisterCount(s, amount).next, amount) == s
  {
  }

  /** Whatever was written is what the next start-up reads. */
  lemma CountSurvivesRestart(s: State, amount: real)
    ensures LoadRegisterCount(UpdateRegisterCount(s).countFile).0 == s.count
    ensures LoadRegisterCount(AddToRegisterCount(s, amount).countFile).0 == s.count + amount
  {
  }

  // ------------------------------------------------------------- checkout

  /** `checkout_order()` as written: level 1; the total is
      `reduce(lambda x, y: x + y, subtotals)` with no initial value, which
      raises TypeError on an empty order before anything changes. */
  function CheckoutOrderAsWritten(s: State): (r: Step<()>)
    ensures r.ret.Failure? ==> r.next == s
    ensures r.ret.Success? <==> Authorized(s, 1) && s.order != []
    ensures !Authorized(s, 1) ==> r.ret == Failure(Denied(s, 1))
    ensures Authorized(s, 1) && s.order == [] ==> r.ret.error.TypeError?
  {
    if !Authorized(s, 1) then Step(s, Failure(Denied(s, 1)))
    else
      match Orders.ReduceNoSeed(Orders.Subtotals(s.order))
      case Failure(e) => Step(s, Failure(e))
      case Success(total) =>
        CredentialsMonotone(s.employee, 1, 0);
        ClearOrder(AddToRegisterCount(s, total))
  }

  /** `checkout_order()` as intended: level 1; the order's total (0 for an
      empty order) is added to the count and written through, and the order
      is emptied. A failed credential check changes nothing. */
  function CheckoutOrder(s: State): (r: Step<()>)
    ensures r.ret.Success? <==> Authorized(s, 1)
    ensures r.ret.Failure? ==> r.next == s && r.ret.error.CredentialException?
    ensures r.ret.Success? ==> r.next.count == s.count + Orders.Total(s.order)
                               && Persisted(r.next) && r.next.order == []
                               && r.next.(count := s.count, countFile := s.countFile, order := s.order) == s
    ensures Consistent(s) ==> Consistent(r.next)
  {
    if !Authorized(s, 1) then Step(s, Failure(Denied(s, 1)))
    else
      CredentialsMonotone(s.employee, 1, 0);
      ClearOrder(AddToRegisterCount(s, Orders.Total(s.order)))
  }

  /** On a non-empty order the code as written does exactly what is
      intended; on an empty one it raises TypeError where the intended
      checkout is a no-op on the count that still clears the order. */
  lemma CheckoutAgrees(s: State)
    ensures s.order != [] ==> CheckoutOrderAsWritten(s) == CheckoutOrder(s)
    ensures Authorized(s, 1) && s.order == [] ==>
              && CheckoutOrderAsWritten(s) == Step(s, Failure(TypeError("reduce() of empty sequence with no initial value")))
              && CheckoutOrder(s).ret.Success? && CheckoutOrder(s).next.count == s.count
  {
  }

  /** Checking out never makes a non-negative count negative: the total of a
      consistent order is not negative. */
  lemma CheckoutKeepsCountNonNegative(s: State)
    requires Consistent(s) && s.count >= 0.0
    ensures CheckoutOrder(s).next.count >= 0.0
  {
    Orders.TotalNonNegative(s.order);
  }

  /** The register's checkout fixture: an administrator checks out one
      chocolate bar at 1.00 and one gum at 0.75 with 1.5 in the drawer; the
      count becomes 3.25, is written through, and the order is emptied. */
  lemma CheckoutSample(s: State)
    requires s.employee == Some(Employee("Admin", "2222", "admin", 2)) && s.count == 1.5
    requires s.order == [Orders.OrderLine(Item("Chocolate bar", 1.0, "001", "Candy", None), 1),
                         Orders.OrderLine(Item("Gum", 0.75, "002", "Candy", None), 1)]
    ensures CheckoutOrder(s).ret.Success?
    ensures CheckoutOrder(s).next.count == 3.25 && CheckoutOrder(s).next.countFile == Some(3.25)
    ensures CheckoutOrder(s).next.order == []
  {
    var xs := Orders.Subtotals(s.order);
    assert xs == [1.0, 0.75];
    Orders.SumCons(xs);
    assert xs[1..] == [0.75];
    Orders.SumSingle(0.75);
  }

  // ------------------------------------------------------------- start-up

  /** `list(set(items))` for items: each distinct item once. */
  function Dedup(xs: seq<Item>): (r: seq<Item>)
    ensures forall i :: i in r <==> i in xs
    ensures forall a, b :: 0 <= a < b < |r| ==> r[a] != r[b]
    ensures |r| <= |xs|
  {
    if |xs| == 0 then []
    else
      var d := Dedup(xs[..|xs| - 1]);
      var x := xs[|xs| - 1];
      assert forall i :: i in xs <==> i in xs[..|xs| - 1] || i == x by {
        assert xs == xs[..|xs| - 1] + [x];
      }
      if x in d then d else d + [x]
  }

  /** Removing duplicates keeps only items of the list. */
  lemma DedupWellFormed(xs: seq<Item>)
    requires forall k :: 0 <= k < |xs| ==> Items.WellFormed(xs[k]) && Trimmed(xs[k].name)
    ensures forall k :: 0 <= k < |Dedup(xs)| ==> Items.WellFormed(Dedup(xs)[k]) && Trimmed(Dedup(xs)[k].name)
  {
    var d := Dedup(xs);
    forall k | 0 <= k < |d| ensures Items.WellFormed(d[k]) && Trimmed(d[k].name) {
      assert d[k] in xs;
      var j :| 0 <= j < |xs| && xs[j] == d[k];
    }
  }

  /** `Register(menu_file_path, employees_file_path, register_count_file_path)`
      with the three files given by content: the menu and employees loaded
      by the loaders that skip rejected lines, the count loaded (and
      created at 0.0 when missing), nobody logged in, an empty order. Python
      2's `set` keeps employees apart by identity, so no employee is
      merged; the employees are kept in load order, where Python's `set`
      would give them in hash order. */
  function Init(menuLines: seq<string>, employeeLines: seq<string>, countFile: Option<real>,
                parseFloat: string -> Option<real>, parseInt: string -> Option<int>): (r: State)
    ensures Consistent(r)
    ensures r.employee.None? && r.order == []
    ensures forall i :: i in r.menu <==> i in Loaders.LoadMenu(menuLines, parseFloat).0
    ensures r.employees == Loaders.LoadEmployees(employeeLines, parseInt).0
    ensures countFile.Some? ==> r.count == countFile.value
    ensures countFile.None? ==> r.count == 0.0
  {
    var loaded := Loaders.LoadMenu(menuLines, parseFloat).0;
    var menu := Dedup(loaded);
    Loaders.LoadMenuNamesStripped(menuLines, parseFloat);
    DedupWellFormed(loaded);
    var count := LoadRegisterCount(countFile);
    State(menu, Loaders.LoadEmployees(employeeLines, parseInt).0, None, [], count.0, count.1)
  }

  /** The constructor with the loaders as written: it raises whenever one
      of them does, and otherwise builds the same register. */
  function InitAsWritten(menuLines: seq<string>, employeeLines: seq<string>, countFile: Option<real>,
                         parseFloat: string -> Option<real>, parseInt: string -> Option<int>)
    : (r: Result<State, Exception>)
    ensures r.Failure? <==> Loaders.LoadMenuAsWritten(menuLines, parseFloat).Failure?
                            || Loaders.LoadEmployeesAsWritten(employeeLines, parseInt).Failure?
    ensures r.Success? ==> r.value == Init(menuLines, employeeLines, countFile, parseFloat, parseInt)
  {
    match Loaders.LoadMenuAsWritten(menuLines, parseFloat)
    case Failure(e) => Failure(e)
    case Success(m) =>
      match Loaders.LoadEmployeesAsWritten(employeeLines, parseInt)
      case Failure(e) => Failure(e)
      case Success(es) =>
        var count := LoadRegisterCount(countFile);
        Success(State(Dedup(m.0), es.0, None, [], count.0, count.1))
  }
}
