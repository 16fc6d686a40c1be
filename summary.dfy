/**
 * `GET /cart/summary/<user_id>`: the cart joined with the product records,
 * one priced line per cart entry, and the running total of the subtotals.
 * Prices are exact decimals (`real`), not binary floats.
 */
module Summary {
  import opened Wrappers
  import opened Decimal
  import opened Keys
  import opened RedisStore
  import Cart
  import Catalog

  datatype LineItem = LineItem(sku: string, name: string, quantity: string, price: real, subtotal: real)

  datatype CartReport = CartReport(userId: string, items: seq<LineItem>, total: real)

  /** `float(product_data.get("price", 0))` */
  function PriceOf(product: Hash): (r: Result<real, Failure>)
    ensures "price" !in product ==> r == Success(0.0)
    ensures "price" in product ==> (r.Success? <==> ParseDecimal(product["price"]).Some?)
    ensures "price" in product && r.Success? ==> r.value == ParseDecimal(product["price"]).value
  {
    if "price" in product then
      match ParseDecimal(product["price"])
      case Some(p) => Success(p)
      case None => Failure(NotAFloat(product["price"]))
    else
      Success(0.0)
  }

  /** `product_data.get("name", "")` */
  function NameOf(product: Hash): string {
    if "name" in product then product["name"] else ""
  }

  /** The line for one cart entry, or the conversion that fails on it (price first). */
  function ItemFor(db: Db, sku: string, qty: string): Result<LineItem, Failure> {
    var product := HashAt(db, ProductKey(sku));
    match PriceOf(product)
    case Failure(e) => Failure(e)
    case Success(price) =>
      match ParseInt(qty)
      case None => Failure(NotAnInteger(qty))
      case Some(n) => Success(LineItem(sku, NameOf(product), qty, price, Subtotal(price, n)))
  }

  /** `price * int(qty)` */
  function Subtotal(price: real, n: int): real {
    price * n as real
  }

  /** The line of an entry whose price and quantity both convert. */
  lemma ItemForConverts(db: Db, sku: string, qty: string, price: real, n: int)
    requires PriceOf(HashAt(db, ProductKey(sku))) == Success(price) && ParseInt(qty) == Some(n)
    ensures ItemFor(db, sku, qty) == Success(LineItem(sku, NameOf(HashAt(db, ProductKey(sku))), qty, price, Subtotal(price, n)))
  {
  }

  predicate AllIn(order: seq<string>, cart: Hash) {
    forall i :: 0 <= i < |order| ==> order[i] in cart
  }

  /** The lines for the cart entries in the order visited; the first failure ends it. */
  function Items(db: Db, cart: Hash, order: seq<string>): Result<seq<LineItem>, Failure>
    requires AllIn(order, cart)
  {
    if order == [] then Success([])
    else
      var sku := order[|order| - 1];
      match Items(db, cart, order[..|order| - 1])
      case Failure(e) => Failure(e)
      case Success(items) =>
        match ItemFor(db, sku, cart[sku])
        case Failure(e) => Failure(e)
        case Success(item) => Success(items + [item])
  }

  /** The sum of the subtotals, accumulated front to back. */
  function Total(items: seq<LineItem>): real {
    if items == [] then 0.0 else Total(items[..|items| - 1]) + items[|items| - 1].subtotal
  }

  /** The reply body of the summary for the cart entries visited in `order`. */
  function Summarize(db: Db, userId: string, order: seq<string>): Result<CartReport, Failure>
    requires AllIn(order, HashAt(db, CartKey(userId)))
  {
    match Items(db, HashAt(db, CartKey(userId)), order)
    case Failure(e) => Failure(e)
    case Success(items) => Success(CartReport(userId, items, Total(items)))
  }

  /** `order` visits each element of `keys` exactly once. */
  ghost predicate Enumerates(order: seq<string>, keys: set<string>) {
    && (forall i, j :: 0 <= i < j < |order| ==> order[i] != order[j])
    && (forall k :: k in order <==> k in keys)
  }

  /** Some enumeration of a set. */
  ghost function SeqOf(s: set<string>): (order: seq<string>)
    ensures Enumerates(order, s)
  {
    if s == {} then []
    else
      var x :| x in s;
      var rest := SeqOf(s - {x});
      [x] + rest
  }

  /** Once the lines of a prefix fail, the lines of any longer order fail the same way. */
  lemma {:induction false} ItemsFailurePersists(db: Db, cart: Hash, order: seq<string>, more: seq<string>)
    requires AllIn(order, cart) && AllIn(more, cart) && Items(db, cart, order).Failure?
    ensures AllIn(order + more, cart)
    ensures Items(db, cart, order + more) == Items(db, cart, order)
    decreases |more|
  {
    if more != [] {
      var init := more[..|more| - 1];
      ItemsFailurePersists(db, cart, order, init);
      assert (order + more)[..|order + more| - 1] == order + init;
    } else {
      assert order + more == order;
    }
  }

  /** The lines of an order extended by one entry, unfolded once. */
  lemma ItemsSnoc(db: Db, cart: Hash, order: seq<string>, sku: string)
    requires AllIn(order, cart) && sku in cart
    ensures AllIn(order + [sku], cart)
    ensures Items(db, cart, order + [sku]) ==
      match Items(db, cart, order)
      case Failure(e) => Failure(e)
      case Success(items) =>
        match ItemFor(db, sku, cart[sku])
        case Failure(e) => Failure(e)
        case Success(item) => Success(items + [item])
  {
    assert (order + [sku])[..|order|] == order;
  }

  /**
   * The entries left unvisited when the loop stops early, appended to those
   * visited, make an enumeration of the whole cart with the same failure.
   */
  lemma CompleteOrder(db: Db, cart: Hash, visited: seq<string>, pending: set<string>) returns (full: seq<string>)
    requires AllIn(visited, cart) && Items(db, cart, visited).Failure?
    requires Catalog.Visiting(visited, pending, cart.Keys)
    ensures Enumerates(full, cart.Keys) && AllIn(full, cart)
    ensures Items(db, cart, full) == Items(db, cart, visited)
  {
    var rest := SeqOf(pending);
    full := visited + rest;
    ItemsFailurePersists(db, cart, visited, rest);
    forall i, j | 0 <= i < j < |full| ensures full[i] != full[j] {
      if j >= |visited| && i < |visited| {
        assert full[j] == rest[j - |visited|] && full[j] in pending;
      }
    }
  }

  /** One loop step whose line converts: the lines grow by it and the total by its subtotal. */
  lemma StepConverts(db: Db, cart: Hash, order: seq<string>, lines: seq<LineItem>, sku: string, price: real, n: int)
    requires AllIn(order, cart) && sku in cart && Items(db, cart, order) == Success(lines)
    requires PriceOf(HashAt(db, ProductKey(sku))) == Success(price) && ParseInt(cart[sku]) == Some(n)
    ensures AllIn(order + [sku], cart)
    ensures var line := LineItem(sku, NameOf(HashAt(db, ProductKey(sku))), cart[sku], price, Subtotal(price, n));
      && Items(db, cart, order + [sku]) == Success(lines + [line])
      && Total(lines + [line]) == Total(lines) + line.subtotal
  {
    ItemsSnoc(db, cart, order, sku);
    ItemForConverts(db, sku, cart[sku], price, n);
    var line := LineItem(sku, NameOf(HashAt(db, ProductKey(sku))), cart[sku], price, Subtotal(price, n));
    assert (lines + [line])[..|lines|] == lines;
  }

  /** One loop step whose line does not convert: the lines fail with its failure. */
  lemma StepFails(db: Db, cart: Hash, order: seq<string>, lines: seq<LineItem>, sku: string, e: Failure)
    requires AllIn(order, cart) && sku in cart && Items(db, cart, order) == Success(lines)
    requires ItemFor(db, sku, cart[sku]) == Failure(e)
    ensures AllIn(order + [sku], cart)
    ensures Items(db, cart, order + [sku]) == Failure(e)
  {
    ItemsSnoc(db, cart, order, sku);
  }

  method CartSummary(store: Store, userId: string) returns (r: Result<CartReport, Failure>, ghost order: seq<string>)
    ensures Enumerates(order, HashAt(store.data, CartKey(userId)).Keys)
    ensures AllIn(order, HashAt(store.data, CartKey(userId)))
    ensures r == Summarize(store.data, userId, order)
    ensures var cart := HashAt(store.data, CartKey(userId));
      r.Success? <==> forall sku :: sku in cart ==> ItemFor(store.data, sku, cart[sku]).Success?
    ensures r.Success? ==> r.value.userId == userId && |r.value.items| == |HashAt(store.data, CartKey(userId)).Keys|
    ensures HashAt(store.data, CartKey(userId)) == map[] ==> r == Success(CartReport(userId, [], 0.0))
  {
    var cartKey := CartKey(userId);
    var items := store.HGetAll(cartKey);
    var total := 0.0;
    var summary: seq<LineItem> := [];
    var pending := items.Keys;
    order := [];
    while pending != {}
      invariant Catalog.Visiting(order, pending, items.Keys)
      invariant AllIn(order, items)
      invariant Items(store.data, items, order) == Success(summary)
      invariant total == Total(summary)
      decreases pending
    {
      var sku :| sku in pending;
      var qty := items[sku];
      var productData := store.HGetAll(ProductKey(sku));
      Catalog.VisitNext(order, pending, items.Keys, sku);
      var price := 0.0;
      if "price" in productData {
        var parsed := ParseDecimal(productData["price"]);
        if parsed.None? {
          r := Failure(NotAFloat(productData["price"]));
          StepFails(store.data, items, order, summary, sku, NotAFloat(productData["price"]));
          order := CompleteOrder(store.data, items, order + [sku], pending - {sku});
          SummaryOfEnumeration(store.data, userId, order);
          return;
        }
        price := parsed.value;
      }
      var count := ParseInt(qty);
      if count.None? {
        r := Failure(NotAnInteger(qty));
        StepFails(store.data, items, order, summary, sku, NotAnInteger(qty));
        order := CompleteOrder(store.data, items, order + [sku], pending - {sku});
        SummaryOfEnumeration(store.data, userId, order);
        return;
      }
      var subtotal := Subtotal(price, count.value);
      var name := if "name" in productData then productData["name"] else "";
      StepConverts(store.data, items, order, summary, sku, price, count.value);
      total := total + subtotal;
      summary := summary + [LineItem(sku, name, qty, price, subtotal)];
      order := order + [sku];
      pending := pending - {sku};
    }
    r := Success(CartReport(userId, summary, total));
    SummaryOfEnumeration(store.data, userId, order);
  }

  /**
   * What a summary says whatever the visiting order: it succeeds exactly
   * when every cart entry converts, and then names the user and has one
   * line per entry; an empty cart gives no lines and a total of 0.
   */
  lemma SummaryOfEnumeration(db: Db, userId: string, order: seq<string>)
    requires AllIn(order, HashAt(db, CartKey(userId))) && Enumerates(order, HashAt(db, CartKey(userId)).Keys)
    ensures var cart := HashAt(db, CartKey(userId));
      Summarize(db, userId, order).Success? <==> forall sku :: sku in cart ==> ItemFor(db, sku, cart[sku]).Success?
    ensures Summarize(db, userId, order).Success? ==>
      && Summarize(db, userId, order).value.userId == userId
      && |Summarize(db, userId, order).value.items| == |HashAt(db, CartKey(userId)).Keys|
    ensures HashAt(db, CartKey(userId)) == map[] ==> Summarize(db, userId, order) == Success(CartReport(userId, [], 0.0))
  {
    var cart := HashAt(db, CartKey(userId));
    ItemsSucceed(db, cart, order);
    if Items(db, cart, order).Success? {
      forall sku | sku in cart ensures ItemFor(db, sku, cart[sku]).Success? {
        assert sku in order;
        var i :| 0 <= i < |order| && order[i] == sku;
      }
      ItemsValues(db, cart, order);
      Catalog.DistinctLength(order, cart.Keys);
    } else {
      var i :| 0 <= i < |order| && ItemFor(db, order[i], cart[order[i]]).Failure?;
      assert order[i] in cart;
    }
    if cart == map[] {
      EmptyCartSummary(db, userId, order);
    }
  }

  // ----- properties of the summary -----

  /**
   * A line fails exactly when the product's price or the cart's quantity
   * does not convert; otherwise it carries the SKU, the product's name (""
   * when missing), the quantity text as stored, the price (0 when missing)
   * and price times quantity.
   */
  lemma ItemForFields(db: Db, sku: string, qty: string)
    ensures var product := HashAt(db, ProductKey(sku));
      ItemFor(db, sku, qty).Success? <==> PriceOf(product).Success? && ParseInt(qty).Some?
    ensures var product := HashAt(db, ProductKey(sku));
      ItemFor(db, sku, qty).Success? ==>
        ItemFor(db, sku, qty).value == LineItem(sku, NameOf(product), qty, PriceOf(product).value,
                                                Subtotal(PriceOf(product).value, ParseInt(qty).value))
  {
  }

  /** A cart entry whose product does not exist is listed with name "" and price 0. */
  lemma MissingProductLine(db: Db, sku: string, qty: string)
    requires ProductKey(sku) !in db && ParseInt(qty).Some?
    ensures ItemFor(db, sku, qty) == Success(LineItem(sku, "", qty, 0.0, 0.0))
  {
    assert Subtotal(0.0, ParseInt(qty).value) == 0.0;
  }

  /** All lines succeed exactly when every entry converts. */
  lemma {:induction false} ItemsSucceed(db: Db, cart: Hash, order: seq<string>)
    requires AllIn(order, cart)
    ensures Items(db, cart, order).Success? <==>
      forall i :: 0 <= i < |order| ==> ItemFor(db, order[i], cart[order[i]]).Success?
  {
    if order != [] {
      var init := order[..|order| - 1];
      ItemsSucceed(db, cart, init);
      assert forall i :: 0 <= i < |init| ==> order[i] == init[i];
    }
  }

  /** Successful lines are one per entry, in order. */
  lemma {:induction false} ItemsValues(db: Db, cart: Hash, order: seq<string>)
    requires AllIn(order, cart) && Items(db, cart, order).Success?
    ensures |Items(db, cart, order).value| == |order|
    ensures forall i :: 0 <= i < |order| ==>
      ItemFor(db, order[i], cart[order[i]]).Success? && Items(db, cart, order).value[i] == ItemFor(db, order[i], cart[order[i]]).value
  {
    if order != [] {
      var init := order[..|order| - 1];
      ItemsValues(db, cart, init);
      assert forall i :: 0 <= i < |init| ==> order[i] == init[i];
    }
  }

  /** Failing lines carry the error of the first entry that does not convert. */
  lemma {:induction false} ItemsFirstFailure(db: Db, cart: Hash, order: seq<string>)
    requires AllIn(order, cart) && Items(db, cart, order).Failure?
    ensures exists i ::
      && 0 <= i < |order|
      && ItemFor(db, order[i], cart[order[i]]) == Failure(Items(db, cart, order).error)
      && (forall j :: 0 <= j < i ==> ItemFor(db, order[j], cart[order[j]]).Success?)
  {
    var init := order[..|order| - 1];
    assert forall i :: 0 <= i < |init| ==> order[i] == init[i];
    if Items(db, cart, init).Failure? {
      ItemsFirstFailure(db, cart, init);
    } else {
      ItemsSucceed(db, cart, init);
      assert ItemFor(db, order[|init|], cart[order[|init|]]) == Failure(Items(db, cart, order).error);
    }
  }

  /**
   * The summary has one line per cart entry, in the order visited, each
   * with its SKU and stored quantity, and a total equal to the sum of the
   * subtotals.
   */
  lemma SummaryLines(db: Db, userId: string, order: seq<string>)
    requires AllIn(order, HashAt(db, CartKey(userId)))
    requires Summarize(db, userId, order).Success?
    ensures var cart := HashAt(db, CartKey(userId));
      var report := Summarize(db, userId, order).value;
      && report.userId == userId
      && |report.items| == |order|
      && (forall i :: 0 <= i < |order| ==>
            && report.items[i].sku == order[i]
            && report.items[i].quantity == cart[order[i]]
            && ItemFor(db, order[i], cart[order[i]]).Success?
            && report.items[i] == ItemFor(db, order[i], cart[order[i]]).value)
      && report.total == Total(report.items)
  {
    var cart := HashAt(db, CartKey(userId));
    ItemsValues(db, cart, order);
    forall i | 0 <= i < |order|
      ensures Items(db, cart, order).value[i].sku == order[i]
      ensures Items(db, cart, order).value[i].quantity == cart[order[i]]
    {
      ItemForFields(db, order[i], cart[order[i]]);
    }
  }

  /** An empty or absent cart gives no lines and a total of 0. */
  lemma EmptyCartSummary(db: Db, userId: string, order: seq<string>)
    requires HashAt(db, CartKey(userId)) == map[]
    requires Enumerates(order, HashAt(db, CartKey(userId)).Keys)
    ensures AllIn(order, HashAt(db, CartKey(userId)))
    ensures Summarize(db, userId, order) == Success(CartReport(userId, [], 0.0))
  {
    HeadIsMember(order);
  }

  /**
   * When every cart holds integers (which the cart handlers maintain) and
   * every price on record is a decimal, the summary does not fail.
   */
  lemma SummarySucceeds(db: Db, userId: string, order: seq<string>)
    requires Cart.CartsWellFormed(db)
    requires forall sku :: "price" in HashAt(db, ProductKey(sku)) ==> ParseDecimal(HashAt(db, ProductKey(sku))["price"]).Some?
    requires AllIn(order, HashAt(db, CartKey(userId)))
    ensures Summarize(db, userId, order).Success?
  {
    var cart := HashAt(db, CartKey(userId));
    KeySpacesDisjoint(userId, userId);
    forall i | 0 <= i < |order| ensures ItemFor(db, order[i], cart[order[i]]).Success? {
      assert CartKey(userId) in db && order[i] in db[CartKey(userId)];
      ItemForFields(db, order[i], cart[order[i]]);
    }
    ItemsSucceed(db, cart, order);
  }

  /** Taking one line out of a list takes its subtotal out of the total. */
  lemma {:induction false} TotalRemoveAt(items: seq<LineItem>, i: nat)
    requires i < |items|
    ensures Total(items) == Total(items[..i] + items[i + 1..]) + items[i].subtotal
  {
    var n := |items|;
    if i == n - 1 {
      assert items[..i] + items[i + 1..] == items[..n - 1];
    } else {
      var init := items[..n - 1];
      TotalRemoveAt(init, i);
      var rest := items[..i] + items[i + 1..];
      assert rest[..|rest| - 1] == init[..i] + init[i + 1..];
      assert rest[|rest| - 1] == items[n - 1];
    }
  }

  /** Leaving out one entry of an enumeration enumerates the rest. */
  lemma EnumeratesWithout(order: seq<string>, keys: set<string>, i: nat)
    requires Enumerates(order, keys) && i < |order|
    ensures Enumerates(order[..i] + order[i + 1..], keys - {order[i]})
  {
    var rest := order[..i] + order[i + 1..];
    forall k ensures k in rest <==> k in keys - {order[i]} {
      assert order == order[..i] + [order[i]] + order[i + 1..];
      if k in rest {
        var j :| 0 <= j < |rest| && rest[j] == k;
        if j < i { assert order[j] == k; } else { assert order[j + 1] == k; }
      }
    }
  }

  /** Leaving out one entry of a successful order leaves an order that succeeds. */
  lemma RestSucceeds(db: Db, cart: Hash, order: seq<string>, i: nat)
    requires AllIn(order, cart) && Items(db, cart, order).Success? && i < |order|
    ensures AllIn(order[..i] + order[i + 1..], cart)
    ensures Items(db, cart, order[..i] + order[i + 1..]).Success?
  {
    var rest := order[..i] + order[i + 1..];
    ItemsSucceed(db, cart, order);
    forall j | 0 <= j < |rest|
      ensures rest[j] in cart && ItemFor(db, rest[j], cart[rest[j]]).Success?
    {
      var k := if j < i then j else j + 1;
      assert rest[j] == order[k];
    }
    ItemsSucceed(db, cart, rest);
  }

  lemma LineWithout(db: Db, cart: Hash, order: seq<string>, i: nat, j: nat)
    requires AllIn(order, cart) && Items(db, cart, order).Success? && i < |order|
    requires AllIn(order[..i] + order[i + 1..], cart) && Items(db, cart, order[..i] + order[i + 1..]).Success?
    requires j < |order| - 1
    ensures |Items(db, cart, order).value| == |order|
    ensures |Items(db, cart, order[..i] + order[i + 1..]).value| == |order| - 1
    ensures Items(db, cart, order[..i] + order[i + 1..]).value[j] == Items(db, cart, order).value[if j < i then j else j + 1]
  {
    var rest := order[..i] + order[i + 1..];
    assert rest[j] == order[if j < i then j else j + 1];
    LineAt(db, cart, order, if j < i then j else j + 1);
    LineAt(db, cart, rest, j);
  }

  /** Leaving out one entry of a successful order leaves out its line. */
  lemma LinesWithout(db: Db, cart: Hash, order: seq<string>, i: nat)
    requires AllIn(order, cart) && Items(db, cart, order).Success? && i < |order|
    ensures AllIn(order[..i] + order[i + 1..], cart)
    ensures Items(db, cart, order[..i] + order[i + 1..]).Success?
    ensures |Items(db, cart, order).value| == |order|
    ensures var lines := Items(db, cart, order).value;
      Items(db, cart, order[..i] + order[i + 1..]).value == lines[..i] + lines[i + 1..]
  {
    RestSucceeds(db, cart, order, i);
    var rest := order[..i] + order[i + 1..];
    ItemsValues(db, cart, order);
    ItemsValues(db, cart, rest);
    var lines := Items(db, cart, order).value;
    var restLines := Items(db, cart, rest).value;
    forall j | 0 <= j < |rest| ensures restLines[j] == (lines[..i] + lines[i + 1..])[j] {
      LineWithout(db, cart, order, i, j);
    }
  }

  /** One line of a successful order. */
  lemma LineAt(db: Db, cart: Hash, order: seq<string>, i: nat)
    requires AllIn(order, cart) && Items(db, cart, order).Success? && i < |order|
    ensures |Items(db, cart, order).value| == |order|
    ensures ItemFor(db, order[i], cart[order[i]]).Success?
    ensures Items(db, cart, order).value[i] == ItemFor(db, order[i], cart[order[i]]).value
  {
    ItemsValues(db, cart, order);
  }

  lemma HeadIsMember(order: seq<string>)
    ensures |order| > 0 ==> order[0] in order
  {
  }

  /** Two enumerations of one set are both empty or both not. */
  lemma EnumerationsOfEmpty(o1: seq<string>, o2: seq<string>, keys: set<string>)
    requires Enumerates(o1, keys) && Enumerates(o2, keys) && o1 == []
    ensures o2 == []
  {
    assert keys == {};
    HeadIsMember(o2);
  }

  /**
   * With exact prices the total does not depend on the order in which the
   * cart's entries are visited.
   */
  lemma {:induction false} TotalIndependentOfOrder(db: Db, cart: Hash, o1: seq<string>, o2: seq<string>, keys: set<string>)
    requires Enumerates(o1, keys) && Enumerates(o2, keys) && AllIn(o1, cart) && AllIn(o2, cart)
    requires Items(db, cart, o1).Success? && Items(db, cart, o2).Success?
    ensures Total(Items(db, cart, o1).value) == Total(Items(db, cart, o2).value)
    decreases |o1|
  {
    if o1 == [] {
      EnumerationsOfEmpty(o1, o2, keys);
    } else {
      var n := |o1|;
      var x := o1[n - 1];
      assert x in keys;
      var i :| 0 <= i < |o2| && o2[i] == x;
      var o1' := o1[..n - 1] + o1[n..];
      var o2' := o2[..i] + o2[i + 1..];
      EnumeratesWithout(o1, keys, n - 1);
      EnumeratesWithout(o2, keys, i);
      LinesWithout(db, cart, o1, n - 1);
      LinesWithout(db, cart, o2, i);
      assert Enumerates(o1', keys - {x}) && Enumerates(o2', keys - {x});
      assert AllIn(o1', cart) && AllIn(o2', cart);
      assert Items(db, cart, o1').Success? && Items(db, cart, o2').Success?;
      TotalIndependentOfOrder(db, cart, o1', o2', keys - {x});
      var lines1 := Items(db, cart, o1).value;
      var lines2 := Items(db, cart, o2).value;
      LineAt(db, cart, o1, n - 1);
      LineAt(db, cart, o2, i);
      TotalsAgree(lines1, lines2, n - 1, i, Items(db, cart, o1').value, Items(db, cart, o2').value);
    }
  }

  /** Two line lists whose totals agree once a common line is taken out of each have equal totals. */
  lemma TotalsAgree(lines1: seq<LineItem>, lines2: seq<LineItem>, i1: nat, i2: nat, rest1: seq<LineItem>, rest2: seq<LineItem>)
    requires i1 < |lines1| && i2 < |lines2| && lines1[i1] == lines2[i2]
    requires rest1 == lines1[..i1] + lines1[i1 + 1..] && rest2 == lines2[..i2] + lines2[i2 + 1..]
    requires Total(rest1) == Total(rest2)
    ensures Total(lines1) == Total(lines2)
  {
    TotalRemoveAt(lines1, i1);
    TotalRemoveAt(lines2, i2);
  }

  lemma PriceTwoFifty()
    ensures ParseDecimal("2.50") == Some(2.5)
  {
    assert DotIndex("2.50") == 1 by {
      assert DotIndex("50") == 2 by { assert DotIndex("0") == 1; }
    }
    assert "2.50"[..1] == "2" && "2.50"[2..] == "50";
    assert DigitsValue("2") == 2 && DigitsValue("50") == 50 by {
      assert "50"[..1] == "5";
    }
  }

  /**
   * A product created with price "2.50" and no name, added with quantity
   * 3 to bob's empty cart, gives one line (A1, "", "3", 2.5, 7.5) and a
   * total of 7.5.
   */
  lemma BobBuysThreeA1()
    ensures var catalog := SetFields(map[], ProductKey("A1"), Catalog.ProductFields("A1", None, None, None, None, Some("2.50")));
      var db := Cart.AfterAdd(catalog, "bob", "A1", 3);
      && AllIn(["A1"], HashAt(db, CartKey("bob")))
      && Enumerates(["A1"], HashAt(db, CartKey("bob")).Keys)
      && Summarize(db, "bob", ["A1"]) == Success(CartReport("bob", [LineItem("A1", "", "3", 2.5, 7.5)], 7.5))
  {
    var product := Catalog.ProductFields("A1", None, None, None, None, Some("2.50"));
    var catalog := SetFields(map[], ProductKey("A1"), product);
    var db := Cart.AfterAdd(catalog, "bob", "A1", 3);
    KeySpacesDisjoint("bob", "A1");
    assert IntToString(3) == "3";
    assert HashAt(db, CartKey("bob")) == map["A1" := "3"];
    assert HashAt(db, ProductKey("A1")) == product;
    PriceTwoFifty();
    assert PriceOf(product) == Success(2.5);
    ParseIntToString(3);
    assert Subtotal(2.5, 3) == 7.5;
    ItemForConverts(db, "A1", "3", 2.5, 3);
    assert NameOf(product) == "";
    assert ItemFor(db, "A1", "3") == Success(LineItem("A1", "", "3", 2.5, 7.5));
    assert ["A1"][..0] == [];
  }
}
