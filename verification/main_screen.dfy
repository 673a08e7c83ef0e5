/**
 The "buy" action of the main screen: the cart becomes one order and one
 line per entry, written in a single transaction. The current user, the
 clock readings and the random draw are inputs; the confirmation alert is
 gone.
 */
module MainScreen {
  import opened Domain
  import opened Totals
  import opened OrderStore
  import opened Cart
  import opened OrderCode
  import opened PedidoDao

  /** A nullable product, as the id a line stores. */
  function ProductRef(p: Option<Product>): Option<nat> {
    match p
    case None => None
    case Some(q) => Some(q.id)
  }

  /** The line "buy" persists for one cart entry: it belongs to the new
      order, has the entry's quantity, and refers to whatever the entry's
      findByName call returns, null included. `fault` says that call's own
      session failed. */
  function LineFor(e: CartEntry, code: string, cat: Catalog, fault: bool): Line {
    Line(Some(code), ProductRef(LookupByName(cat, e.name, fault)), e.quantity)
  }

  /** One new line per cart entry, in cart order. `failed` holds the
      positions of the entries whose lookup failed. */
  function CartLines(cart: Cart, code: string, cat: Catalog, failed: set<nat>): (r: seq<Option<Line>>)
    ensures |r| == |cart|
    ensures forall i :: 0 <= i < |r| ==> r[i] == Some(LineFor(cart[i], code, cat, i in failed))
    decreases |cart|
  {
    if |cart| == 0 then []
    else
      var n := |cart| - 1;
      CartLines(cart[..n], code, cat, failed) + [Some(LineFor(cart[n], code, cat, n in failed))]
  }

  /** The cart priced again at current catalog prices: an entry whose lookup
      fails or whose name does not resolve is worth 0, like the line it
      turns into. */
  function RepricedTotal(cart: Cart, cat: Catalog, failed: set<nat>): int
    decreases |cart|
  {
    if |cart| == 0 then 0
    else
      var n := |cart| - 1;
      var e := cart[n];
      RepricedTotal(cart[..n], cat, failed) + (match LookupByName(cat, e.name, n in failed) case None => 0 case Some(p) => e.quantity * p.price)
  }

  /** No entry's lookup fails. */
  predicate NoLookupFails(cart: Cart, failed: set<nat>) {
    forall i :: 0 <= i < |cart| ==> i !in failed
  }

  /** Every entry's name resolves and its subtotal is at the current price. */
  ghost predicate PricedAtCurrentPrices(cart: Cart, cat: Catalog) {
    forall i :: 0 <= i < |cart| ==>
      FindByName(cat, cart[i].name).Some? && cart[i].subtotal == cart[i].quantity * FindByName(cat, cart[i].name).value.price
  }

  /** The new lines add up, for their own order, to the cart at current prices. */
  lemma {:induction false} CartLinesSum(cart: Cart, code: string, cat: Catalog, failed: set<nat>)
    requires DistinctIds(cat)
    ensures OrderSum(CartLines(cart, code, cat, failed), code, cat) == RepricedTotal(cart, cat, failed)
    decreases |cart|
  {
    if |cart| > 0 {
      var n := |cart| - 1;
      var e := cart[n];
      CartLinesSum(cart[..n], code, cat, failed);
      OrderSumAppend(CartLines(cart[..n], code, cat, failed), Some(LineFor(e, code, cat, n in failed)), code, cat);
      var found := LookupByName(cat, e.name, n in failed);
      if found.Some? {
        ProductByIdOfMember(cat, found.value);
      }
    }
  }

  /** The new lines add nothing to any other order. */
  lemma CartLinesOtherOrder(cart: Cart, code: string, other: string, cat: Catalog, failed: set<nat>)
    requires other != code
    ensures OrderSum(CartLines(cart, code, cat, failed), other, cat) == 0
  {
    OrderSumNoLines(CartLines(cart, code, cat, failed), other, cat);
  }

  /** A cart priced at current prices, none of whose lookups fails, totals
      the same when priced again. */
  lemma {:induction false} RepricedWhenPricesHold(cart: Cart, cat: Catalog, failed: set<nat>)
    requires PricedAtCurrentPrices(cart, cat)
    requires NoLookupFails(cart, failed)
    ensures RepricedTotal(cart, cat, failed) == CartTotal(cart)
    decreases |cart|
  {
    if |cart| > 0 {
      var n := |cart| - 1;
      assert PricedAtCurrentPrices(cart[..n], cat) && NoLookupFails(cart[..n], failed) by {
        assert forall i :: 0 <= i < n ==> cart[..n][i] == cart[i];
      }
      RepricedWhenPricesHold(cart[..n], cat, failed);
    }
  }

  /** The store once the purchase commits under `code`: the new order,
      whose total is the cart total, and after the existing rows one line per
      cart entry. */
  function Placed(s: Store, cart: Cart, code: string, date: int, user: nat, failed: set<nat>): Store {
    s.(orders := s.orders[code := Order(s.nextOrderId, code, date, user, CartTotal(cart))],
       lines := s.lines + CartLines(cart, code, s.catalog, failed),
       nextOrderId := s.nextOrderId + 1)
  }

  /** Outcome of "buy" as the user sees it. */
  datatype Purchase = EmptyCart | Purchased | PurchaseFailed

  /** The store and the cart after "buy", and its outcome. */
  datatype BuyResult = BuyResult(store: Store, cart: Cart, outcome: Purchase)

  /** onComprarClick. An empty cart persists nothing. Otherwise one order is
      written, under a freshly generated code, for `user`, dated `date`, with
      the sum of the cart's subtotals as its total, and after it one line per
      cart entry, whose product is what that entry's findByName returned
      (null for the positions in `failed`, whose lookup session failed). The
      cart is emptied only once the transaction commits; a failure, a code
      already stored included, keeps both store and cart. */
  function Buy(s: Store, cart: Cart, millis: int, random: real, date: int, user: nat,
               failed: set<nat>, fault: bool): (r: BuyResult)
    requires 0.0 <= random < 1.0
    ensures r.outcome == EmptyCart <==> |cart| == 0
    ensures r.outcome == PurchaseFailed <==> |cart| > 0 && (fault || GenerateUniqueCode(millis, random) in s.orders)
    ensures r.outcome != Purchased ==> r.store == s && r.cart == cart
    ensures r.outcome == Purchased ==>
              var code := GenerateUniqueCode(millis, random);
              && r.cart == []
              && r.store == Placed(s, cart, code, date, user, failed)
              && r.store.orders == s.orders[code := Order(s.nextOrderId, code, date, user, CartTotal(cart))]
              && r.store.catalog == s.catalog
              && r.store.nextOrderId == s.nextOrderId + 1
              && |r.store.lines| == |s.lines| + |cart|
              && r.store.lines[..|s.lines|] == s.lines
              && (forall i :: 0 <= i < |cart| ==>
                    r.store.lines[|s.lines| + i]
                      == Some(Line(Some(code), ProductRef(LookupByName(s.catalog, cart[i].name, i in failed)), cart[i].quantity)))
  {
    if |cart| == 0 then BuyResult(s, cart, EmptyCart)
    else
      var code := GenerateUniqueCode(millis, random);
      if fault || code in s.orders then BuyResult(s, cart, PurchaseFailed)
      else
        var placed := Placed(s, cart, code, date, user, failed);
        assert placed.lines[..|s.lines|] == s.lines;
        BuyResult(placed, [], Purchased)
  }

  /** Placing an order under a code not yet stored keeps the store well formed. */
  lemma PlacedKeepsWellFormed(s: Store, cart: Cart, code: string, date: int, user: nat, failed: set<nat>)
    requires WellFormed(s)
    requires code !in s.orders
    ensures WellFormed(Placed(s, cart, code, date, user, failed))
  {
    var p := Placed(s, cart, code, date, user, failed);
    assert forall i :: 0 <= i < |s.lines| ==> p.lines[i] == s.lines[i];
    assert forall i :: |s.lines| <= i < |p.lines| ==> p.lines[i].value.order == Some(code);
  }

  /** Placing an order leaves every order already stored consistent with
      its lines: the new lines belong to the new order only. */
  lemma PlacedKeepsOtherTotals(s: Store, cart: Cart, code: string, date: int, user: nat, failed: set<nat>)
    requires Consistent(s)
    requires code !in s.orders
    ensures var p := Placed(s, cart, code, date, user, failed);
            forall c :: c in s.orders ==> p.orders[c].total == OrderSum(p.lines, c, p.catalog)
  {
    var p := Placed(s, cart, code, date, user, failed);
    var added := CartLines(cart, code, s.catalog, failed);
    forall c | c in s.orders
      ensures p.orders[c].total == OrderSum(p.lines, c, p.catalog)
    {
      OrderSumConcat(s.lines, added, c, s.catalog);
      CartLinesOtherOrder(cart, code, c, s.catalog, failed);
    }
  }

  /** The placed order's lines add up to the cart repriced at current prices. */
  lemma PlacedOrderSum(s: Store, cart: Cart, code: string, date: int, user: nat, failed: set<nat>)
    requires WellFormed(s)
    requires code !in s.orders
    ensures OrderSum(Placed(s, cart, code, date, user, failed).lines, code, s.catalog) == RepricedTotal(cart, s.catalog, failed)
  {
    var added := CartLines(cart, code, s.catalog, failed);
    UnknownCodeSumsToZero(s, code);
    CartLinesSum(cart, code, s.catalog, failed);
    OrderSumConcat(s.lines, added, code, s.catalog);
  }

  /** Placing an order on a consistent store gives a consistent store
      exactly when the cart's subtotals add up to what its entries are worth
      at current prices. */
  lemma PlacedInvariantIff(s: Store, cart: Cart, code: string, date: int, user: nat, failed: set<nat>)
    requires WellFormed(s) && Consistent(s)
    requires code !in s.orders
    ensures Consistent(Placed(s, cart, code, date, user, failed)) <==> CartTotal(cart) == RepricedTotal(cart, s.catalog, failed)
  {
    var p := Placed(s, cart, code, date, user, failed);
    PlacedKeepsOtherTotals(s, cart, code, date, user, failed);
    PlacedOrderSum(s, cart, code, date, user, failed);
    assert p.orders[code].total == CartTotal(cart);
    assert p.orders.Keys == s.orders.Keys + {code};
  }

  /** "Buy" keeps the store well formed. */
  lemma BuyKeepsWellFormed(s: Store, cart: Cart, millis: int, random: real, date: int, user: nat,
                           failed: set<nat>, fault: bool)
    requires 0.0 <= random < 1.0
    requires WellFormed(s)
    ensures WellFormed(Buy(s, cart, millis, random, date, user, failed, fault).store)
  {
    if Buy(s, cart, millis, random, date, user, failed, fault).outcome == Purchased {
      PlacedKeepsWellFormed(s, cart, GenerateUniqueCode(millis, random), date, user, failed);
    }
  }

  /** After "buy" on a consistent store, the aggregate invariant holds
      exactly when the cart's subtotals add up to what its entries are worth
      at current prices: the stored total is the cart total, but the lines
      are valued at current prices, and an entry whose name does not resolve
      or whose lookup fails gives a line without product. */
  lemma BuyInvariantIff(s: Store, cart: Cart, millis: int, random: real, date: int, user: nat,
                        failed: set<nat>, fault: bool)
    requires 0.0 <= random < 1.0
    requires WellFormed(s) && Consistent(s)
    requires Buy(s, cart, millis, random, date, user, failed, fault).outcome == Purchased
    ensures (Consistent(Buy(s, cart, millis, random, date, user, failed, fault).store)
             <==> CartTotal(cart) == RepricedTotal(cart, s.catalog, failed))
  {
    PlacedInvariantIff(s, cart, GenerateUniqueCode(millis, random), date, user, failed);
  }

  /** When every entry resolves, no lookup fails, and prices have not
      changed since the entries were added, "buy" re-establishes the
      aggregate invariant. */
  lemma BuyKeepsInvariant(s: Store, cart: Cart, millis: int, random: real, date: int, user: nat,
                          failed: set<nat>, fault: bool)
    requires 0.0 <= random < 1.0
    requires WellFormed(s) && Consistent(s)
    requires PricedAtCurrentPrices(cart, s.catalog)
    requires NoLookupFails(cart, failed)
    ensures Consistent(Buy(s, cart, millis, random, date, user, failed, fault).store)
  {
    if Buy(s, cart, millis, random, date, user, failed, fault).outcome == Purchased {
      RepricedWhenPricesHold(cart, s.catalog, failed);
      BuyInvariantIff(s, cart, millis, random, date, user, failed, fault);
    }
  }

  /** A cart each of whose entries has a failed lookup or a name that does
      not resolve is worth 0 at current prices. */
  lemma {:induction false} RepricedUnresolved(cart: Cart, cat: Catalog, failed: set<nat>)
    requires forall i :: 0 <= i < |cart| ==> i in failed || FindByName(cat, cart[i].name).None?
    ensures RepricedTotal(cart, cat, failed) == 0
    decreases |cart|
  {
    if |cart| > 0 {
      var n := |cart| - 1;
      assert forall i :: 0 <= i < n ==> cart[..n][i] == cart[i];
      RepricedUnresolved(cart[..n], cat, failed);
    }
  }

  /** "Buy" checks neither that names resolve nor that lookups succeed: when
      no entry yields a product and the cart total is non-zero, the new
      order's stored total disagrees with its lines. */
  lemma BuyUnresolvedBreaksInvariant(s: Store, cart: Cart, millis: int, random: real, date: int, user: nat,
                                     failed: set<nat>, fault: bool)
    requires 0.0 <= random < 1.0
    requires WellFormed(s) && Consistent(s)
    requires Buy(s, cart, millis, random, date, user, failed, fault).outcome == Purchased
    requires forall i :: 0 <= i < |cart| ==> i in failed || FindByName(s.catalog, cart[i].name).None?
    requires CartTotal(cart) != 0
    ensures !Consistent(Buy(s, cart, millis, random, date, user, failed, fault).store)
  {
    RepricedUnresolved(cart, s.catalog, failed);
    BuyInvariantIff(s, cart, millis, random, date, user, failed, fault);
  }

  /** After placing an order, it is listed for its user and reads back by
      code with the cart valued at current prices as its total. */
  lemma PlacedThenRead(s: Store, cart: Cart, code: string, date: int, user: nat, failed: set<nat>)
    requires WellFormed(s)
    requires code !in s.orders
    ensures var p := Placed(s, cart, code, date, user, failed);
            && p.orders[code] in FindByUsuarioId(p, user, false)
            && FindByCodigo(p, code, false) == Some(Order(s.nextOrderId, code, date, user, RepricedTotal(cart, s.catalog, failed)))
  {
    var p := Placed(s, cart, code, date, user, failed);
    assert p.orders[code].user == user;
    assert p.orders[code] in FindByUsuarioId(p, user, false);
    PlacedOrderSum(s, cart, code, date, user, failed);
    assert OrderSum(p.lines, code, p.catalog) == RepricedTotal(cart, s.catalog, failed);
  }

  /** After "buy", the new order is listed for its user and reads back by
      code with the cart valued at current prices as its total. */
  lemma BuyThenRead(s: Store, cart: Cart, millis: int, random: real, date: int, user: nat,
                    failed: set<nat>, fault: bool)
    requires 0.0 <= random < 1.0
    requires WellFormed(s)
    requires Buy(s, cart, millis, random, date, user, failed, fault).outcome == Purchased
    ensures var r := Buy(s, cart, millis, random, date, user, failed, fault);
            var code := GenerateUniqueCode(millis, random);
            && r.store.orders[code] in FindByUsuarioId(r.store, user, false)
            && FindByCodigo(r.store, code, false)
                 == Some(Order(s.nextOrderId, code, date, user, RepricedTotal(cart, s.catalog, failed)))
  {
    PlacedThenRead(s, cart, GenerateUniqueCode(millis, random), date, user, failed);
  }
}
