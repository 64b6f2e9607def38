/** The register's current order: the dictionary from items to quantities
    that register.py keeps in `self.order`. It is modelled as a sequence of
    lines with distinct items, in insertion order; `QuantityOf` is the
    dictionary view (0 for an item that is not a key). A Python `dict`
    iterates in hash order instead, so only the dictionary view and the
    totals are the program's own; where the lines are visited in sequence
    order, that order is a choice of the model. */
module Orders {
  import opened Wrappers
  import opened PyValues
  import opened Text
  import opened Items

  datatype OrderLine = OrderLine(item: Item, quantity: int)

  type Order = seq<OrderLine>

  /** No item is a key twice. */
  predicate Distinct(o: Order) {
    forall a, b :: 0 <= a < b < |o| ==> o[a].item != o[b].item
  }

  /** The order invariant: distinct keys, every quantity at least 1. */
  predicate Valid(o: Order) {
    Distinct(o) && forall k :: 0 <= k < |o| ==> o[k].quantity >= 1
  }

  /** Every item in the order passed the item constructor's checks. */
  predicate ItemsWellFormed(o: Order) {
    forall k :: 0 <= k < |o| ==> WellFormed(o[k].item)
  }

  /** Every item's name is stripped: neither starts nor ends with
      whitespace. */
  predicate NamesTrimmed(o: Order) {
    forall k :: 0 <= k < |o| ==> Trimmed(o[k].item.name)
  }

  /** The position of the line holding `i`, or `|o|` when there is none. */
  function IndexOf(o: Order, i: Item): (k: nat)
    ensures k <= |o|
    ensures k < |o| ==> o[k].item == i
    ensures forall j :: 0 <= j < k ==> o[j].item != i
  {
    if |o| == 0 then 0
    else if o[0].item == i then 0
    else 1 + IndexOf(o[1..], i)
  }

  /** The position of an item's line is determined: the first line holding it,
      or `|o|` when none does. */
  lemma {:induction false} IndexOfUnique(o: Order, i: Item, k: nat)
    requires k <= |o| && (k < |o| ==> o[k].item == i)
    requires forall j :: 0 <= j < k ==> o[j].item != i
    ensures IndexOf(o, i) == k
  {
  }

  /** Lines can change quantities without moving any item's position. */
  lemma {:induction false} IndexOfSameItems(o: Order, r: Order)
    requires |r| == |o| && forall k :: 0 <= k < |o| ==> r[k].item == o[k].item
    ensures forall j :: IndexOf(r, j) == IndexOf(o, j)
  {
    forall j ensures IndexOf(r, j) == IndexOf(o, j) {
      IndexOfUnique(r, j, IndexOf(o, j));
    }
  }

  /** `item in self.order` */
  predicate InOrder(o: Order, i: Item) {
    IndexOf(o, i) < |o|
  }

  /** `self.order[item]`, and 0 for an item that is not a key. */
  function QuantityOf(o: Order, i: Item): int {
    var k := IndexOf(o, i);
    if k < |o| then o[k].quantity else 0
  }

  /** With distinct keys, the quantity of an item is the one on its line, and
      an item on no line has quantity 0; in a valid order an item is a key
      exactly when its quantity is positive. */
  lemma {:induction false} QuantityOfLine(o: Order, i: Item)
    requires Distinct(o)
    ensures forall k :: 0 <= k < |o| && o[k].item == i ==> IndexOf(o, i) == k && QuantityOf(o, i) == o[k].quantity
    ensures (forall k :: 0 <= k < |o| ==> o[k].item != i) ==> QuantityOf(o, i) == 0 && !InOrder(o, i)
    ensures Valid(o) ==> (InOrder(o, i) <==> QuantityOf(o, i) >= 1)
  {
  }

  /** `_add_to_order(item)`: the item's quantity goes up by one, a new item
      being inserted at the end with quantity 1; every other key keeps its
      quantity and its place. */
  function AddToOrder(o: Order, i: Item): (r: Order)
    ensures QuantityOf(r, i) == QuantityOf(o, i) + 1
    ensures forall j :: j != i ==> QuantityOf(r, j) == QuantityOf(o, j)
    ensures Valid(o) ==> Valid(r)
    ensures ItemsWellFormed(o) && WellFormed(i) ==> ItemsWellFormed(r)
    ensures NamesTrimmed(o) && Trimmed(i.name) ==> NamesTrimmed(r)
    ensures InOrder(o, i) ==> |r| == |o| && forall k :: 0 <= k < |o| ==> r[k].item == o[k].item
    ensures !InOrder(o, i) ==> |r| == |o| + 1 && r[..|o|] == o && r[|o|] == OrderLine(i, 1)
  {
    var k := IndexOf(o, i);
    if k < |o| then
      var r := o[k := OrderLine(i, o[k].quantity + 1)];
      IndexOfSameItems(o, r);
      r
    else
      var r := o + [OrderLine(i, 1)];
      assert forall j :: QuantityOf(r, j) == if j == i then 1 else QuantityOf(o, j) by {
        forall j ensures QuantityOf(r, j) == if j == i then 1 else QuantityOf(o, j) {
          var m := IndexOf(o, j);
          if j == i {
            IndexOfUnique(r, j, |o|);
          } else if m < |o| {
            IndexOfUnique(r, j, m);
          } else {
            IndexOfUnique(r, j, |r|);
          }
        }
      }
      r
  }

  function NotInOrderError(i: Item): Exception {
    ItemNotFoundException("item '" + i.name + "' not in current order")
  }

  /** The order with the line at `k` deleted: `del self.order[item]`. */
  function DeleteLine(o: Order, k: nat): (r: Order)
    requires k < |o|
    ensures |r| == |o| - 1
    ensures forall m :: 0 <= m < k ==> r[m] == o[m]
    ensures forall m :: k <= m < |r| ==> r[m] == o[m + 1]
  {
    o[..k] + o[k + 1..]
  }

  /** Deleting a line of a valid order keeps it valid and removes exactly
      that line's item. */
  lemma {:induction false} DeleteLineQuantities(o: Order, k: nat)
    requires k < |o|
    ensures Valid(o) ==> Valid(DeleteLine(o, k))
    ensures Valid(o) ==> forall j :: QuantityOf(DeleteLine(o, k), j) == if j == o[k].item then 0 else QuantityOf(o, j)
  {
    var r := DeleteLine(o, k);
    if Valid(o) {
      forall j ensures QuantityOf(r, j) == if j == o[k].item then 0 else QuantityOf(o, j) {
        QuantityOfLine(o, j);
        QuantityOfLine(r, j);
        if m :| 0 <= m < |o| && o[m].item == j {
          if m > k {
            assert r[m - 1] == o[m];
          }
        }
      }
    }
  }

  /** `_remove_from_order(item)`: fails with ItemNotFoundException, changing
      nothing, when the item is not a key; otherwise the quantity goes down
      by one and a line whose quantity was 1 disappears. */
  function RemoveFromOrder(o: Order, i: Item): (r: Result<Order, Exception>)
    ensures r.Failure? <==> !InOrder(o, i)
    ensures r.Failure? ==> r.error.ItemNotFoundException?
    ensures Valid(o) && r.Success? ==> Valid(r.value) && QuantityOf(r.value, i) == QuantityOf(o, i) - 1
    ensures Valid(o) && r.Success? ==> forall j :: j != i ==> QuantityOf(r.value, j) == QuantityOf(o, j)
    ensures Valid(o) && r.Success? && QuantityOf(o, i) == 1 ==> !InOrder(r.value, i)
    ensures ItemsWellFormed(o) && r.Success? ==> ItemsWellFormed(r.value)
    ensures NamesTrimmed(o) && r.Success? ==> NamesTrimmed(r.value)
  {
    var k := IndexOf(o, i);
    if k < |o| then
      if o[k].quantity == 1 then
        var r := DeleteLine(o, k);
        DeleteLineQuantities(o, k);
        Success(r)
      else
        var r := o[k := OrderLine(i, o[k].quantity - 1)];
        IndexOfSameItems(o, r);
        Success(r)
    else
      Failure(NotInOrderError(i))
  }

  /** Adding an item and then removing it gives back the original order,
      line for line. */
  lemma {:induction false} AddThenRemove(o: Order, i: Item)
    requires Valid(o)
    ensures RemoveFromOrder(AddToOrder(o, i), i) == Success(o)
  {
    var a := AddToOrder(o, i);
    var k := IndexOf(o, i);
    QuantityOfLine(o, i);
    if k < |o| {
      assert IndexOf(a, i) == k;
      assert a[k].quantity == o[k].quantity + 1 >= 2;
      assert a[k := OrderLine(i, a[k].quantity - 1)] == o;
    } else {
      QuantityOfLine(a, i);
      assert IndexOf(a, i) == |o|;
      assert DeleteLine(a, |o|) == o;
    }
  }

  /** Removing an item that is in the order and adding it back restores every
      quantity (a line that disappeared comes back at the end). */
  lemma {:induction false} RemoveThenAdd(o: Order, i: Item, j: Item)
    requires Valid(o) && InOrder(o, i)
    ensures RemoveFromOrder(o, i).Success?
    ensures QuantityOf(AddToOrder(RemoveFromOrder(o, i).value, i), j) == QuantityOf(o, j)
  {
  }

  /** One line's contribution, `item.get_price() * quantity`. */
  function Subtotal(l: OrderLine): real {
    l.item.price * l.quantity as real
  }

  /** The list `[item.get_price() * quantity for (item, quantity) in ...]`. */
  function Subtotals(o: Order): (r: seq<real>)
    ensures |r| == |o|
    ensures forall k :: 0 <= k < |o| ==> r[k] == Subtotal(o[k])
  {
    seq(|o|, k requires 0 <= k < |o| => Subtotal(o[k]))
  }

  function Sum(xs: seq<real>): real {
    if |xs| == 0 then 0.0 else Sum(xs[..|xs| - 1]) + xs[|xs| - 1]
  }

  /** Σ price × quantity, with 0 for the empty order: what the seedless
      reduce over the subtotals gives whenever it does not fail. */
  function Total(o: Order): (r: real)
    ensures o == [] ==> r == 0.0
    ensures o != [] ==> ReduceNoSeed(Subtotals(o)) == Success(r)
  {
    Sum(Subtotals(o))
  }

  lemma {:induction false} SumAppend(a: seq<real>, b: seq<real>)
    ensures Sum(a + b) == Sum(a) + Sum(b)
  {
    if |b| > 0 {
      SumAppend(a, b[..|b| - 1]);
      assert (a + b)[..|a + b| - 1] == a + b[..|b| - 1];
    } else {
      assert a + b == a;
    }
  }

  lemma {:induction false} SumSingle(x: real)
    ensures Sum([x]) == x
  {
    assert [x][..0] == [];
  }

  /** Sum over a sequence of non-negative numbers is not negative. */
  lemma {:induction false} SumNonNegative(xs: seq<real>)
    requires forall k :: 0 <= k < |xs| ==> xs[k] >= 0.0
    ensures Sum(xs) >= 0.0
  {
    if |xs| > 0 {
      SumNonNegative(xs[..|xs| - 1]);
    }
  }

  /** The total of a valid order of well-formed items is not negative. */
  lemma {:induction false} TotalNonNegative(o: Order)
    requires Valid(o) && ItemsWellFormed(o)
    ensures Total(o) >= 0.0
  {
    var xs := Subtotals(o);
    forall k | 0 <= k < |xs| ensures xs[k] >= 0.0 {
      assert WellFormed(o[k].item) && o[k].quantity >= 1;
    }
    SumNonNegative(xs);
  }

  /** Replacing one element changes the sum by the difference. */
  lemma {:induction false} SumUpdate(xs: seq<real>, k: nat, v: real)
    requires k < |xs|
    ensures Sum(xs[k := v]) == Sum(xs) - xs[k] + v
  {
    var a, x, b := xs[..k], xs[k], xs[k + 1..];
    assert xs == (a + [x]) + b;
    assert xs[k := v] == (a + [v]) + b;
    SumAppend(a + [x], b);
    SumAppend(a + [v], b);
    SumAppend(a, [x]);
    SumAppend(a, [v]);
    SumSingle(x);
    SumSingle(v);
  }

  /** One more unit on a line adds one price to its contribution. */
  lemma {:induction false} SubtotalStep(i: Item, q: int)
    ensures Subtotal(OrderLine(i, q + 1)) == Subtotal(OrderLine(i, q)) + i.price
  {
    assert (q + 1) as real == q as real + 1.0;
  }

  /** Adding an item raises the total by its price. */
  lemma {:induction false} TotalAfterAdd(o: Order, i: Item)
    ensures Total(AddToOrder(o, i)) == Total(o) + i.price
  {
    var r := AddToOrder(o, i);
    var k := IndexOf(o, i);
    var xs := Subtotals(o);
    if k < |o| {
      var v := Subtotal(r[k]);
      assert Subtotals(r) == xs[k := v];
      SumUpdate(xs, k, v);
      SubtotalStep(i, o[k].quantity);
    } else {
      var v := Subtotal(OrderLine(i, 1));
      assert Subtotals(r) == xs + [v];
      SumAppend(xs, [v]);
      assert [v][..0] == [];
      SubtotalStep(i, 0);
    }
  }

  /** Deleting one element lowers the sum by that element. */
  lemma {:induction false} SumDelete(xs: seq<real>, k: nat)
    requires k < |xs|
    ensures Sum(xs[..k] + xs[k + 1..]) == Sum(xs) - xs[k]
  {
    var a, x, b := xs[..k], xs[k], xs[k + 1..];
    assert xs == (a + [x]) + b;
    SumAppend(a + [x], b);
    SumAppend(a, [x]);
    SumSingle(x);
    SumAppend(a, b);
  }

  lemma {:induction false} TotalAfterDelete(o: Order, k: nat)
    requires k < |o|
    ensures Total(DeleteLine(o, k)) == Total(o) - Subtotal(o[k])
  {
    var xs := Subtotals(o);
    assert Subtotals(DeleteLine(o, k)) == xs[..k] + xs[k + 1..];
    SumDelete(xs, k);
  }

  lemma {:induction false} TotalAfterUpdate(o: Order, k: nat, l: OrderLine)
    requires k < |o|
    ensures Total(o[k := l]) == Total(o) - Subtotal(o[k]) + Subtotal(l)
  {
    var xs := Subtotals(o);
    assert Subtotals(o[k := l]) == xs[k := Subtotal(l)];
    SumUpdate(xs, k, Subtotal(l));
  }

  /** Removing an item lowers the total by its price. */
  lemma {:induction false} TotalAfterRemove(o: Order, i: Item)
    requires RemoveFromOrder(o, i).Success?
    ensures Total(RemoveFromOrder(o, i).value) == Total(o) - i.price
  {
    var k := IndexOf(o, i);
    var q := o[k].quantity;
    SubtotalStep(i, q - 1);
    if q == 1 {
      TotalAfterDelete(o, k);
      SubtotalStep(i, 0);
    } else {
      TotalAfterUpdate(o, k, OrderLine(i, q - 1));
    }
  }

  /** Python's `reduce(lambda x, y: x + y, xs)` with no initial value: a left
      fold seeded with the first element, a TypeError on an empty list. */
  function ReduceNoSeed(xs: seq<real>): (r: Result<real, Exception>)
    ensures r.Failure? <==> |xs| == 0
    ensures |xs| > 0 ==> r == Success(Sum(xs))
  {
    if |xs| == 0 then Failure(TypeError("reduce() of empty sequence with no initial value"))
    else
      FoldLeftIsSum(xs[0], xs[1..]);
      SumCons(xs);
      Success(FoldLeft(xs[0], xs[1..]))
  }

  function FoldLeft(acc: real, xs: seq<real>): real
    decreases xs
  {
    if |xs| == 0 then acc else FoldLeft(acc + xs[0], xs[1..])
  }

  lemma {:induction false} FoldLeftIsSum(acc: real, xs: seq<real>)
    decreases xs
    ensures FoldLeft(acc, xs) == acc + Sum(xs)
  {
    if |xs| > 0 {
      FoldLeftIsSum(acc + xs[0], xs[1..]);
      SumCons(xs);
    }
  }

  lemma {:induction false} SumCons(xs: seq<real>)
    requires |xs| > 0
    ensures Sum(xs) == xs[0] + Sum(xs[1..])
  {
    var x, b := xs[0], xs[1..];
    assert xs == [x] + b;
    SumAppend([x], b);
    SumSingle(x);
  }

  /** `item.name + " x " + str(quantity)` */
  function LineText(l: OrderLine): string {
    l.item.name + " x " + IntToString(l.quantity)
  }

  /** `f` applied to each element of `s`, in order. */
  function MapEach<T>(f: T -> string, s: seq<T>): (r: seq<string>)
    ensures |r| == |s|
  {
    if |s| == 0 then [] else MapEach(f, s[..|s| - 1]) + [f(s[|s| - 1])]
  }

  lemma {:induction false} MapEachAt<T>(f: T -> string, s: seq<T>, k: nat)
    requires k < |s|
    ensures MapEach(f, s)[k] == f(s[k])
  {
    var n := |s| - 1;
    if k < n {
      MapEachAt(f, s[..n], k);
      assert s[..n][k] == s[k];
    }
  }

  /** The text of each line of the order, in sequence order. */
  function LinesText(o: Order): (r: seq<string>)
    ensures |r| == |o|
  {
    MapEach(LineText, o)
  }

  /** The `k`-th text line shows the `k`-th line of the order. */
  lemma LinesTextAt(o: Order, k: nat)
    requires k < |o|
    ensures LinesText(o)[k] == LineText(o[k])
  {
    MapEachAt(LineText, o, k);
  }

  /** The string the loop of `order_to_string` accumulates: each line
      followed by a newline. */
  function Render(o: Order): string {
    if |o| == 0 then "" else Render(o[..|o| - 1]) + LineText(o[|o| - 1]) + "\n"
  }

  /** `order_to_string` without the credential check: the accumulated text,
      stripped. */
  function OrderText(o: Order): (r: string)
    ensures o == [] ==> r == ""
    ensures Trimmed(r)
  {
    StripTrimmed(Render(o));
    Strip(Render(o))
  }

  lemma {:induction false} JoinSnoc(ps: seq<string>, p: string, sep: char)
    requires |ps| >= 1
    ensures Join(ps + [p], sep) == Join(ps, sep) + [sep] + p
  {
    if |ps| == 1 {
      assert (ps + [p])[1..] == [p];
    } else {
      JoinSnoc(ps[1..], p, sep);
      assert (ps + [p])[1..] == ps[1..] + [p];
    }
  }

  lemma {:induction false} JoinFirstChar(ps: seq<string>, sep: char)
    requires |ps| >= 1 && |ps[0]| >= 1
    ensures |Join(ps, sep)| >= 1 && Join(ps, sep)[0] == ps[0][0]
  {
  }

  lemma {:induction false} RenderIsJoinPlusNewline(o: Order)
    requires |o| >= 1
    ensures Render(o) == Join(LinesText(o), '\n') + "\n"
  {
    var init := o[..|o| - 1];
    var last := LineText(o[|o| - 1]);
    assert Render(o) == Render(init) + last + "\n";
    if |o| > 1 {
      RenderIsJoinPlusNewline(init);
      JoinSnoc(LinesText(init), last, '\n');
    } else {
      assert LinesText(o) == [last];
    }
  }

  lemma {:induction false} JoinLastChar(ps: seq<string>, sep: char)
    requires |ps| >= 1 && |ps[|ps| - 1]| >= 1
    ensures |Join(ps, sep)| >= 1
    ensures Join(ps, sep)[|Join(ps, sep)| - 1] == ps[|ps| - 1][|ps[|ps| - 1]| - 1]
  {
    if |ps| > 1 {
      JoinLastChar(ps[1..], sep);
    }
  }

  /** A line of the order text starts with the item's name and ends with the
      last digit of the quantity. */
  lemma {:induction false} LineTextEnds(l: OrderLine)
    ensures |LineText(l)| >= 1 && IsDigit(LineText(l)[|LineText(l)| - 1])
    ensures |l.item.name| > 0 ==> LineText(l)[0] == l.item.name[0]
  {
    var q := IntToString(l.quantity);
    assert LineText(l) == (l.item.name + " x ") + q;
  }

  /** `order_to_string` shows one `name x quantity` line per entry, in the
      order visited, joined by newlines and without a trailing newline,
      provided the first name does not start with whitespace (which `strip`
      would remove); the empty order shows as the empty string. */
  lemma {:induction false} OrderTextIsLines(o: Order)
    requires o != [] ==> |o[0].item.name| > 0 && !IsSpace(o[0].item.name[0])
    ensures OrderText(o) == Join(LinesText(o), '\n')
  {
    if o != [] {
      var text := Join(LinesText(o), '\n');
      RenderIsJoinPlusNewline(o);
      JoinedLinesStart(o);
      JoinedLinesEnd(o);
      DigitNotSpace(text[|text| - 1]);
      StripTrailingNewline(text);
    }
  }

  /** The joined lines of a non-empty order start with the first item's
      name. */
  lemma JoinedLinesStart(o: Order)
    requires o != [] && |o[0].item.name| > 0
    ensures |Join(LinesText(o), '\n')| >= 1
    ensures Join(LinesText(o), '\n')[0] == o[0].item.name[0]
  {
    var lines := LinesText(o);
    LinesTextAt(o, 0);
    LineTextEnds(o[0]);
    JoinFirstChar(lines, '\n');
  }

  /** The joined lines of a non-empty order end with a digit of the last
      quantity. */
  lemma JoinedLinesEnd(o: Order)
    requires o != []
    ensures |Join(LinesText(o), '\n')| >= 1
    ensures IsDigit(Join(LinesText(o), '\n')[|Join(LinesText(o), '\n')| - 1])
  {
    var lines := LinesText(o);
    var last := lines[|lines| - 1];
    LinesTextAt(o, |o| - 1);
    assert |last| >= 1 && IsDigit(last[|last| - 1]) by {
      LineTextEnds(o[|o| - 1]);
    }
    JoinEndsWithDigit(lines, '\n');
  }

  /** Joining pieces whose last one ends in a digit ends in that digit. */
  lemma JoinEndsWithDigit(ps: seq<string>, sep: char)
    requires |ps| >= 1 && |ps[|ps| - 1]| >= 1 && IsDigit(ps[|ps| - 1][|ps[|ps| - 1]| - 1])
    ensures |Join(ps, sep)| >= 1 && IsDigit(Join(ps, sep)[|Join(ps, sep)| - 1])
  {
    JoinLastChar(ps, sep);
  }

  lemma DigitNotSpace(c: char)
    requires IsDigit(c)
    ensures !IsSpace(c)
  {
  }
}
