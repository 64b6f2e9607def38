# pyplanck register engine in Dafny

A model of the register engine of pyplanck, a single-till point-of-sale
register written in Python 2. `register.py` holds one `Register` object. The
object keeps the menu, the employee list, the logged-in employee, the current
order (a dictionary from items to quantities) and the register count. The
register count is the money in the drawer, and it is written through to a file
after every change. The model also covers the value types and validators the
register relies on: `Item` (item.py), `Employee` (employee.py), the named-tuple
variants and record validators (immutables.py), and the `validate_*` checks
(utils.py).

Everything is functional. The register state is an immutable `State` record.
Every public operation is a function from the state before to a `Step`: the
state after, plus either the returned value or the raised exception. A failed
call therefore has a checkable "nothing changed" clause: `r.next == s`.

Modules, leaves first:

- `Wrappers` (wrappers.dfy): `Option`, `Result` and `Outcome`, plus
  `FirstFailure`, which runs checks left to right and stops at the first one
  that fails.
- `PyValues` (pyvalues.dfy): the dynamically typed Python values the validators
  inspect, Python 2's `==` on them, and the exceptions the code raises.
- `Text` (text.dfy): `strip`, `split('|')`, `'|'.join`, `startswith` and
  `str(int)`. `Split` is proved to be the inverse of `Join`. Both files are
  opened with a UTF-8 decoder, so their lines are `unicode`. `strip` therefore
  removes Python 2.7's Unicode whitespace, not only ASCII whitespace: the
  no-break space, the ideographic space and the other Unicode 5.2 space
  separators are included.
- `Utils` (utils.dfy): `validate_name`, `validate_amount`,
  `validate_item_shortcut` and `validate_employee_level`.
- `Immutables` (immutables.dfy): the `Employee` and `Item` named tuples (with
  defaults), plus `validate_employee` and `validate_item`.
- `Items` (item.dfy) and `Employees` (employee.dfy): the classes. Their
  constructors validate every field before storing it. Item equality is
  structural. Employee equality is by barcode only.
- `Orders` (order.dfy): the order as a sequence of distinct-item lines.
  `QuantityOf` is its dictionary view. The sequence keeps insertion order,
  which Python's `dict` does not promise (see "Left out"). This module holds
  `_add_to_order`, `_remove_from_order`, the order total, and the
  `order_to_string` text.
- `Loaders` (loaders.dfy): the line-parsing loops of `_load_menu` and
  `_load_employees`, as pure functions from the file's lines to the records
  kept plus the "errors detected" flag.
- `Register` (register.dfy): the state, the credential gate, every public
  operation, the register-count ledger, checkout and start-up.

Conventions of the model:

- Money is an exact `real`.
- The register-count file is an `Option<real>`, where `None` means no file.
- Python's `float(token)` and `int(token)` are function parameters of type
  `string -> Option<…>`. They answer `None` where Python raises ValueError.
- A required level of Python `None` is `Option.None`.
- A consistent state (`Register.Consistent`) is what every operation keeps and start-up
  establishes. Its order has distinct keys, each with a quantity of at least 1. Every
  menu and order item is well formed and has a stripped name. The count is persisted.

Python 2 semantics that matter:

- `bool` is an integer type, so `validate_amount(True)` passes, and so does
  `validate_employee_level(True)`, because `True == 1`.
- Every int compares greater than `None`. So `_verify_credentials(emp, None)`
  passes when an employee is logged in.

In three places the code does not do what its own comments and tests
expect:

- The seedless `reduce` fails on an empty order. tests/test_register.py:156-165
  expects checkout of an empty order to change nothing.
- The loaders abort when a constructor raises. The loop comments at
  register.py:227-229 and register.py:317-319 promise to skip faulty lines.
- `_verify_credentials(None, None)` crashes. tests/test_register.py:237-238
  expects it to pass.

All three are listed under Findings. Each is modelled both as written and as
evidently intended. The rest of the model uses the intended versions.

`item.py` and `employee.py` import `check_is_valid_*` helpers that `utils.py`
does not define. Their field checks are modelled by the `validate_*` rules of
`utils.py`, in the constructors' field order. That order is the same one
`immutables.py` uses.

## Model

| member | source | states |
|---|---|---|
| `Utils.ValidateName` | utils.py:8-27 | passes exactly for a non-empty string; a non-string fails with "… must be a string"; every failure is a ValueError labelled with what is named |
| `Utils.ValidateAmount` | utils.py:30-49 | passes exactly for an int, bool or float whose value is at least 0 (0 and 0.0 pass); a non-number fails with "… must be a number" |
| `Utils.ValidateItemShortcut` | utils.py:52-67 | None passes; any other value gets exactly the verdict of `validate_name` labelled "item shortcut" |
| `Utils.ValidateEmployeeLevel` | utils.py:70-86 | passes exactly for an integer (bools included) equal to 0, 1 or 2; everything else fails with a ValueError |
| `Utils.EmployeeLevelExamples` | utils.py:83-86 | 0, 1, 2 and True pass; 3, -1, a string and the float 1.0 fail |
| `Immutables.TupleEqualityUsesEveryField` | immutables.py:9-13 | named-tuple equality is reflexive and changing any single field to a value Python considers different breaks it |
| `Immutables.ItemDefaults` | immutables.py:12-14 | an `Item` tuple built from three values has category "General" and shortcut None |
| `Immutables.ValidateEmployee` | immutables.py:17-21 | passes iff name, barcode and code are non-empty strings and level is an integer in {0,1,2} |
| `Immutables.ValidateItem` | immutables.py:24-29 | passes iff name, barcode and category are non-empty strings, price is a non-negative number, and shortcut is None or a non-empty string |
| `Immutables.ValidateEmployeeInFieldOrder` | immutables.py:17-21 | `validate_employee` equals running its four field checks in order and reporting the first failure |
| `Immutables.ValidateItemInFieldOrder` | immutables.py:24-29 | `validate_item` equals running its five field checks in order and reporting the first failure |
| `Immutables.ValidateItemReportsFirstBadField` | immutables.py:25-29 | a failing `validate_item` reports the error of some field check that every earlier check passed |
| `Items.NewItem` | item.py:37-50 | the constructor fails iff the field checks fail, with their first error; a built item is well formed and holds the passed fields, with the price as its numeric value |
| `Items.NewItemRoundTrip` | item.py:72-85 | rebuilding an item from what its getters return gives the same item iff it is well formed |
| `Items.NewItemDefaults` | item.py:37-38 | three valid arguments build an item with category "General" and no shortcut |
| `Items.EqualityMatchesHash` | item.py:62-69 | two items are equal iff barcode, price, category, shortcut and name agree, iff their hashed tuples are equal |
| `Employees.NewEmployee` | employee.py:33-43 | the constructor fails iff the four field checks fail, with their first error; a built employee holds the name, barcode and code passed, and the level's integer value |
| `Employees.NewEmployeeRoundTrip` | employee.py:61-71 | rebuilding an employee from what its getters return gives the same employee iff it is well formed |
| `Employees.SameEmployeeIgnoresOtherFields` | employee.py:55-59 | barcode equality is an equivalence, and changing name, code or level never changes the verdict |
| `Employees.ToText` | employee.py:51-53 | `__unicode__`: name, barcode, code and the decimal text of the level, joined by pipes |
| `Employees.ToTextSplits` | employee.py:51-53 | the text form (name, barcode, code and level joined by pipes) splits on the pipe back into the four stored fields when none of them contains a pipe |
| `Orders.AddToOrder` | register.py:168-180 | the item's quantity rises by exactly 1 (a new item is appended with quantity 1), every other quantity is unchanged, and the order stays valid (distinct keys, quantities ≥ 1) |
| `Orders.RemoveFromOrder` | register.py:182-198 | fails with ItemNotFoundException iff the item is not a key; otherwise the quantity drops by 1, a quantity of 1 deletes the entry, other quantities are unchanged, and validity is kept |
| `Orders.AddThenRemove` | register.py:177-198 | adding an item and then removing it restores the original order exactly |
| `Orders.RemoveThenAdd` | register.py:177-198 | removing an item that is present and adding it back restores every quantity |
| `Orders.TotalAfterAdd` | register.py:142-144 | adding an item raises Σ price×quantity by that item's price |
| `Orders.TotalAfterRemove` | register.py:142-144 | a successful removal lowers Σ price×quantity by that item's price |
| `Orders.TotalNonNegative` | register.py:142-144 | the total of a valid order of well-formed items is not negative |
| `Orders.ReduceNoSeed` | register.py:142-144 | the seedless `reduce` fails with TypeError exactly on an empty list, and otherwise its left fold equals the sum |
| `Orders.Total` | register.py:142-144 | 0 for an empty order; otherwise exactly what the seedless `reduce` over the subtotals returns |
| `Orders.OrderText` | register.py:149-157 | "" for an empty order, and the text never starts or ends with whitespace, as `strip()` guarantees |
| `Orders.OrderTextIsLines` | register.py:149-157 | provided the first item's name is non-empty and does not start with whitespace (which `strip()` would otherwise remove), the stripped accumulated text is the `name x quantity` lines joined by newlines, in the order the lines are visited, with no trailing newline; an empty order gives "" |
| `Register.VerifyCredentialsAsWritten` | register.py:159-166 | as written: passes iff an employee is logged in whose level meets the required level (or no level is required); no employee and a level gives CredentialException; no employee and no level gives AttributeError |
| `Register.VerifyCredentials` | register.py:159-166 | as intended: passes iff no level is required or a logged-in employee has at least that level; it only ever raises CredentialException, with the no-employee or insufficient-privilege message |
| `Register.CredentialsAgreeOnLevels` | register.py:159-166 | the two versions agree unless both employee and level are None; there the code as written raises where it should pass |
| `Register.CredentialsMonotone` | register.py:164-166 | passing the check at a level passes it at every lower level |
| `Register.GetRegisterCount` | register.py:50-55 | level 2: returns the count; a failed check raises CredentialException; the state never changes |
| `Register.LogoutEmployee` | register.py:57-61 | afterwards nobody is logged in, nothing else changes, and the state invariant is kept |
| `Register.GetEmployeeName` | register.py:63-67 | the logged-in employee's name, or "None" |
| `Register.LogoutLocksEverything` | register.py:57-67 | after a logout every levelled check fails, `find` and `get_register_count` fail, and the name reads "None" |
| `Register.Find` | register.py:113-128 | level 0: succeeds iff some menu item's shortcut or barcode is the token, returning such an item; otherwise ValueError "item not found…"; the state never changes |
| `Register.Scan` | register.py:69-80 | succeeds iff `find` does; then the found item's quantity rises by 1 and nothing else changes; a failure changes nothing; the invariant is kept |
| `Register.Remove` | register.py:82-93 | succeeds iff `find` does and the item is in the order; then its quantity drops by 1; a failure changes nothing; a failing `find` passes on its own error (ValueError for an unknown token, CredentialException without credentials), and an item not in the order gives ItemNotFoundException |
| `Register.RemoveFromOrder` | register.py:95-111 | level 1: the same decrement, but an absent item raises ValueError; a failed credential check raises its CredentialException; a failure changes nothing |
| `Register.ClearOrder` | register.py:130-135 | level 0: empties the order and nothing else; a failed credential check raises its CredentialException and changes nothing |
| `Register.OrderToString` | register.py:149-157 | level 0: returns the order text and changes nothing; a failed credential check raises its CredentialException |
| `Register.OrderToStringShowsLines` | register.py:154-157 | in every consistent state, where all menu and order item names are stripped as the menu loader leaves them, the text is the `name x quantity` lines joined by newlines; an empty order gives "" |
| `Register.ScanThenRemove` | register.py:69-93 | scanning a token and then removing by the same token gives back the state exactly |
| `Register.ScanRaisesTotal` | register.py:69-80 | a successful scan raises the order total by the found item's price |
| `Register.LoadRegisterCount` | register.py:349-369 | a present file gives its value; a missing one gives 0.0; either way the file afterwards holds the loaded count |
| `Register.UpdateRegisterCount` | register.py:401-407 | afterwards the persisted copy equals the count, and nothing else changes |
| `Register.AddToRegisterCount` | register.py:371-381 | the count grows by the amount, is persisted, and nothing else changes |
| `Register.SubstractFromRegisterCount` | register.py:383-399 | fails with ValueError, changing nothing, iff the amount exceeds the count; otherwise the count becomes count − amount, which is ≥ 0, and is persisted |
| `Register.SubstractEverything` | register.py:392-399 | subtracting exactly the count succeeds and leaves 0 |
| `Register.SubstractThenAdd` | register.py:371-399 | subtracting an amount and adding it back restores the state, including the persisted copy |
| `Register.CountSurvivesRestart` | register.py:358-407 | what is written is what the next load reads |
| `Register.CheckoutOrderAsWritten` | register.py:137-147 | as written: succeeds iff the employee has at least level 1 and the order is non-empty; a failed credential check raises its CredentialException; an empty order raises TypeError; a failure changes nothing |
| `Register.CheckoutOrder` | register.py:137-147 | as intended: level 1; the count grows by Σ price×quantity and is persisted, the order is emptied, and nothing else changes; a failed check changes nothing |
| `Register.CheckoutAgrees` | register.py:141-147 | on a non-empty order the two versions agree; on an empty one the code as written raises TypeError where the intended one leaves the count as it was |
| `Register.CheckoutKeepsCountNonNegative` | register.py:141-147 | checkout from a consistent state with a non-negative count leaves it non-negative |
| `Register.CheckoutSample` | register.py:141-147 | one chocolate bar at 1.00 and one gum at 0.75 checked out onto 1.5 gives a persisted count of 3.25 and an empty order |
| `Register.Dedup` | register.py:291 | `list(set(menu))`: the same members, each once |
| `Register.Init` | register.py:33-48 | the register starts consistent (including stripped item names), with nobody logged in, an empty order, the loaded menu and employees, and the stored count (0.0 when the file is missing) |
| `Register.InitAsWritten` | register.py:33-48 | with the loaders as written, start-up fails iff one of them does; otherwise it builds the same register as `Init` |
| `Loaders.LoadMenu` | register.py:210-291 | menu loading never fails, keeps at most one item per line, and every item kept is well formed |
| `Loaders.MenuLoopRules` | register.py:230-285 | per record: a record with other than 2–4 fields is skipped and flagged; a `#` record sets the category even when its price fails to parse; a 2-field record needs and takes the default price; 3- and 4-field records take their own price, and a 4-field record also its shortcut; an entry the item constructor accepts is appended, and a rejected one leaves the items as they were and raises the flag |
| `Loaders.LoadMenuNamesStripped` | register.py:230-285 | every token is stripped before use, so every item the menu loader keeps has a name that neither starts nor ends with whitespace |
| `Loaders.MenuKeepsAccepted` | register.py:283-285 | every entry the item constructor accepts, judged in the context the records before it set up, is in the loaded menu, right after the items kept before it |
| `Loaders.UnicodeBlankLineSkipped` | register.py:214-217 | a line of only Unicode whitespace (a no-break space and an ideographic space) strips to nothing and is dropped: the menu stays empty and nothing is flagged |
| `Loaders.MenuErrorsIffFlagged` | register.py:221-289 | the errors flag is raised iff some record was flagged, judged in the category context set by the records before it |
| `Loaders.LoadMenuAsWritten` | register.py:210-291 | as written: loading fails iff some entry, in the context of the records before it, is rejected by the item constructor; otherwise it gives exactly what `LoadMenu` gives |
| `Loaders.MenuAsWrittenAgrees` | register.py:282-285 | the loader as written agrees with `LoadMenu` when it gets through, and fails iff some entry is rejected by the item constructor |
| `Loaders.EmptyBarcodeAbortsMenuLoad` | register.py:283-285 | a line with an empty barcode, name Gum and price 0.75 makes the loader as written fail with ValueError, while `LoadMenu` skips it and raises the flag |
| `Loaders.SampleMenu` | register.py:210-291 | the five lines of the tests' menu file (tests/test_register.py:29-30: two category lines, two-, three- and four-field entries) split into their records and load as Chocolate bar (1.0, Candy), Gum (0.75, Candy) and Hot chocolate (0.5, Beverage, shortcut "hc"), with nothing flagged |
| `Loaders.LoadEmployees` | register.py:302-347 | employee loading never fails, and every employee kept is well formed |
| `Loaders.EmployeeLoopKeepsValidRecords` | register.py:320-341 | the flag is raised iff some record is flagged; the employees kept are exactly those of the unflagged records, in file order, as the front-to-back `KeptEmployees` lists them; there are as many as there are unflagged records |
| `Loaders.EmployeesFileRoundTrip` | register.py:320-341 | for well-formed employees whose name, barcode and code hold no pipe character and no leading or trailing whitespace, and whose level `int` reads back from its `str` form, writing each one's pipe-joined text form on its own line and loading gives back the same employees in order, with nothing flagged |
| `Loaders.EmployeesFileLoads` | register.py:302-347 | the same round trip through `_load_employees` itself, under the same conditions on names, barcodes, codes and levels |
| `Loaders.LoadEmployeesAsWritten` | register.py:302-347 | as written: loading fails iff some four-field record with an integer level is rejected by the employee constructor; otherwise it gives exactly what `LoadEmployees` gives |
| `Loaders.EmployeesAsWrittenAgrees` | register.py:339-341 | the employee loader as written agrees with `LoadEmployees` when it gets through, and fails iff some parsed record is rejected by the constructor |
| `Loaders.LevelFiveAbortsEmployeeLoad` | register.py:333-341 | a line for Bob (barcode 3333, code bob) with level 5 makes the loader as written fail with ValueError, while `LoadEmployees` skips it and raises the flag |
| `Loaders.SampleEmployeesLoad` | register.py:302-341 | the three fixture employee lines load back as Admin (2), Employee (1) and Guest (0), with nothing flagged |

## Left out

- File I/O: `io.open`, `os.path.isfile`, `validate_file_path` and the `check_is_valid_*_file_path` calls. File contents are arguments instead. The count file is an `Option<real>`.
- The 8-byte `struct.pack('d')` encoding and its byte order. The persisted count is the real number itself.
- IEEE-754 arithmetic and rounding. Money is an exact `real`.
- `float(...)` and `int(...)` on tokens. They are opaque partial-function parameters.
- `logging.warning`. It is reduced to the returned "errors detected" flag, or left out for the missing count file.
- `_log_order`. It is an empty stub.
- `login_employee`, `add_custom`, `adjust`, `count_register` and the log paths. They are not defined in register.py: they are called from the tests, from cli.py and, for `login_employee`, from register.py's `__main__` block (register.py:419, 422). The logged-in employee is a field of the state, and the `__main__` demo block is not modelled.
- cli.py and gui.py. They are interactive shells that only dispatch to `Register`.
- The output order of `list(set(menu))`. `Dedup` keeps one copy of each item, and the menu is stated by membership only.
- Dictionary iteration order. `self.order` is a plain `dict`, so `order.items()` in `checkout_order` and `order_to_string` (register.py:144, 155) visits the lines in hash order. The model keeps the lines in insertion order. So the line order of `OrderText` and `OrderTextIsLines` is the model's choice. The set of lines and the total do not depend on it.
- The order of the employee list. `list(set(employees_list))` (register.py:347) returns the employees in hash order, while `Init` keeps them in load order. Python 2's `set` on `Employee` is identity-based, because `__eq__` has no `__hash__`. So no employee is merged, and both lists hold the same employees.
- Employees.NewEmployee: a level passed as `True` or `False` is stored as the integer 1 or 0. Python keeps the bool, so `__unicode__` prints "True" where `ToText` prints "1". The loader only builds levels with `int(...)`, so only a direct construction with a bool differs.
- Employees.ToText: prints a level that was passed as a bool as the digit 1 or 0, not "True" or "False", for the reason in the line above.
- The `__str__`, `__unicode__` and `__repr__` text of `Item` (item.py:52-60). Nothing in the register uses it.
- Register.Find: states only that the result is a menu item matching the token, because `list(set(menu))` fixes no order among several matches.
- Register.SubstractFromRegisterCount: the ValueError message leaves out the two amounts, because Python's float formatting is not modelled.
- Concurrency. The register is single-threaded.

## Findings

| source | as written | input that shows it | evidently intended | confidence | as-written member | corrected member |
|---|---|---|---|---|---|---|
| register.py:159-166 | with no employee and no required level, the first test is false and `None.get_level()` raises AttributeError | `_verify_credentials(None, None)` | pass: no level required lets anyone through, which tests/test_register.py:237-238 expects | not executed; high | `Register.VerifyCredentialsAsWritten`, shown by `Register.CredentialsAgreeOnLevels` | `Register.VerifyCredentials` |
| register.py:142-144 | `reduce` without a seed raises TypeError on an empty order, before anything changes | `checkout_order()` by a level-1 employee with an empty order | a total of 0: the count is unchanged and persisted, and the order stays empty, as tests/test_register.py:156-165 expects | not executed; high | `Register.CheckoutOrderAsWritten`, shown by `Register.CheckoutAgrees` | `Register.CheckoutOrder` |
| register.py:283-285 | a line that parses but has a field the `Item` constructor rejects raises ValueError out of the loop, and the whole menu load fails | a menu file whose one line has an empty barcode, name Gum and price 0.75 | skip the line and raise the errors flag, as the loop's own comment says | not executed; medium, since the item checks are imported helpers that utils.py does not define | `Loaders.EmptyBarcodeAbortsMenuLoad` (on `Loaders.LoadMenuAsWritten`) | `Loaders.LoadMenu` |
| register.py:339-341 | a line that parses but has a field the `Employee` constructor rejects raises ValueError, and the whole employee load fails | an employees file whose one line is Bob, barcode 3333, code bob, level 5 | skip the line and raise the errors flag, as the loop's own comment says | not executed; medium, for the same reason | `Loaders.LevelFiveAbortsEmployeeLoad` (on `Loaders.LoadEmployeesAsWritten`) | `Loaders.LoadEmployees` |
