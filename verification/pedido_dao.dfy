/**
 PedidoDAO: listing a user's orders, saving an order, reading an order with
 a recomputed total, and deleting an order together with its lines.
 */
module PedidoDao {
  import opened Domain
  import opened Totals
  import opened OrderStore
  import opened ItemPedidoDao

  /** PedidoDAO.findByUsuarioId: the stored orders of user `uid`, with their
      totals as stored; an empty list when the query fails. */
  function FindByUsuarioId(s: Store, uid: nat, fault: bool): (r: set<Order>)
    ensures fault ==> r == {}
    ensures !fault ==> forall c :: c in s.orders && s.orders[c].user == uid ==> s.orders[c] in r
    ensures forall o :: o in r ==> o in s.orders.Values && o.user == uid
  {
    if fault then {}
    else set c | c in s.orders && s.orders[c].user == uid :: s.orders[c]
  }

  /** PedidoDAO.save: persists the order and returns it; returns null when
      the transaction fails. The id is generated by the store, so persist
      refuses an order whose id is already set (`idSet`, for example one
      returned by an earlier save) as a detached entity; for an order whose
      id is not set, the value of `o.id` stands for that null and is ignored.
      A new order gets the next order id. Orders are keyed by code, so an
      order whose code is already stored is refused. */
  function SaveOrder(s: Store, o: Order, idSet: bool, fault: bool): (r: Tx<Order>)
    ensures r.Commit? <==> !fault && !idSet && o.code !in s.orders
    ensures !fault && idSet ==> r == Rollback(DetachedOrder)
    ensures r.Commit? ==>
              && r.value == o.(id := s.nextOrderId)
              && r.store.orders == s.orders[o.code := r.value]
              && r.store.nextOrderId == s.nextOrderId + 1
              && r.store.lines == s.lines
              && r.store.catalog == s.catalog
  {
    if fault then Rollback(StoreFailure)
    else if idSet then Rollback(DetachedOrder)
    else if o.code in s.orders then Rollback(DuplicateCode)
    else
      var saved := o.(id := s.nextOrderId);
      Commit(s.(orders := s.orders[o.code := saved], nextOrderId := s.nextOrderId + 1), saved)
  }

  /** PedidoDAO.save writes the total it is given without recomputing it, so
      on a consistent store the result is consistent exactly when that total
      is 0: a code not yet stored has no lines. */
  lemma SaveOrderKeepsInvariantIff(s: Store, o: Order, idSet: bool, fault: bool)
    requires WellFormed(s) && Consistent(s)
    requires SaveOrder(s, o, idSet, fault).Commit?
    ensures Consistent(SaveOrder(s, o, idSet, fault).store) <==> o.total == 0
  {
    UnknownCodeSumsToZero(s, o.code);
  }

  /** A saved order stored under its own code keeps the store well formed. */
  lemma SaveOrderKeepsWellFormed(s: Store, o: Order, idSet: bool, fault: bool)
    requires WellFormed(s)
    ensures WellFormed(SaveOrder(s, o, idSet, fault).After(s))
  {
  }

  /** PedidoDAO.findByCodigo: the stored order with `code`, its total
      replaced by the sum of its lines' values; the store is not written.
      Null when no order has the code (the source dereferences null and
      catches the exception) or when the read fails. */
  function FindByCodigo(s: Store, code: string, fault: bool): (r: Option<Order>)
    ensures r.Some? <==> !fault && code in s.orders
    ensures r.Some? ==> r.value == s.orders[code].(total := OrderSum(s.lines, code, s.catalog))
  {
    if fault || code !in s.orders then None
    else Some(s.orders[code].(total := OrderSum(s.lines, code, s.catalog)))
  }

  /** The store is consistent exactly when every order read back by code
      equals the order as stored: the stored total is a cache that the read
      path would otherwise silently correct. */
  lemma ConsistentIffReadsAgree(s: Store)
    ensures Consistent(s) <==> forall c :: c in s.orders ==> FindByCodigo(s, c, false) == Some(s.orders[c])
  {
    if forall c :: c in s.orders ==> FindByCodigo(s, c, false) == Some(s.orders[c]) {
      forall c | c in s.orders
        ensures s.orders[c].total == OrderSum(s.lines, c, s.catalog)
      {
        assert FindByCodigo(s, c, false).value.total == s.orders[c].total;
      }
    }
  }

  /** The total findByCodigo returns is the sum of the line values the item
      screen lists for the same code. */
  lemma FindByCodigoTotalIsListedSum(s: Store, code: string)
    requires code in s.orders
    ensures FindByCodigo(s, code, false).value.total
              == SumValues(FindItemsByPedidoCodigo(s, code, false), s.catalog)
  {
    FindItemsSumIsOrderSum(s, code);
  }

  /** On a consistent store, the orders listed for a user are exactly what
      findByCodigo returns for their codes. */
  lemma ListedOrdersReadBack(s: Store, uid: nat, o: Order)
    requires WellFormed(s) && Consistent(s)
    requires o in FindByUsuarioId(s, uid, false)
    ensures FindByCodigo(s, o.code, false) == Some(o)
  {
    var c :| c in s.orders && s.orders[c] == o;
    assert c == o.code;
  }

  /** The line table with every line of the order `code` deleted. */
  function DropLinesOf(lines: seq<Option<Line>>, code: string): (r: seq<Option<Line>>)
    ensures |r| == |lines|
    ensures forall i :: 0 <= i < |r| ==> r[i] == if BelongsTo(lines[i], code) then None else lines[i]
  {
    seq(|lines|, i requires 0 <= i < |lines| => if BelongsTo(lines[i], code) then None else lines[i])
  }

  /** PedidoDAO.deleteByCodigo: deletes every line of the order with `code`,
      then the order if there is one, in one transaction. A failure is caught
      and the uncommitted transaction leaves the store as it was; no error
      reaches the caller either way. */
  function DeleteByCodigo(s: Store, code: string, fault: bool): (r: Store)
    ensures fault ==> r == s
    ensures !fault ==>
              && r.orders == s.orders - {code}
              && r.lines == DropLinesOf(s.lines, code)
              && r.catalog == s.catalog
              && r.nextOrderId == s.nextOrderId
  {
    if fault then s
    else
      var lines := DropLinesOf(s.lines, code);
      s.(lines := lines, orders := s.orders - {code})
  }

  /** Deletion keeps the store well formed and the aggregate invariant: the
      other orders keep all of their lines. */
  lemma DeleteByCodigoKeepsInvariant(s: Store, code: string, fault: bool)
    requires WellFormed(s) && Consistent(s)
    ensures WellFormed(DeleteByCodigo(s, code, fault))
    ensures Consistent(DeleteByCodigo(s, code, fault))
  {
    var r := DeleteByCodigo(s, code, fault);
    if !fault {
      forall c | c in r.orders
        ensures r.orders[c].total == OrderSum(r.lines, c, r.catalog)
      {
        OrderSumCongruent(s.lines, r.lines, c, s.catalog);
      }
    }
  }

  /** Deleting a code no order has is a no-op. */
  lemma DeleteMissingCodeIsNoop(s: Store, code: string, fault: bool)
    requires WellFormed(s)
    requires code !in s.orders
    ensures DeleteByCodigo(s, code, fault) == s
  {
    if !fault {
      var r := DeleteByCodigo(s, code, fault);
      assert r.lines == s.lines;
      assert r.orders == s.orders;
    }
  }

  /** Deleting again after a committed deletion changes nothing. */
  lemma DeleteByCodigoIdempotent(s: Store, code: string, fault: bool)
    ensures var once := DeleteByCodigo(s, code, false);
            DeleteByCodigo(once, code, fault) == once
  {
    var once := DeleteByCodigo(s, code, false);
    if !fault {
      assert DropLinesOf(once.lines, code) == once.lines;
    }
  }

  /** After a committed deletion the code reads back as null with no lines. */
  lemma DeleteThenFindNothing(s: Store, code: string, fault: bool)
    ensures FindByCodigo(DeleteByCodigo(s, code, false), code, fault) == None
    ensures FindItemsByPedidoCodigo(DeleteByCodigo(s, code, false), code, fault) == []
  {
  }

  /** Rows that agree on everything the query for `code` looks at list the same items. */
  lemma {:induction false} ItemsOfCongruent(a: seq<Option<Line>>, b: seq<Option<Line>>, code: string, cat: Catalog)
    requires |a| == |b|
    requires forall i :: 0 <= i < |a| ==> BelongsTo(a[i], code) == BelongsTo(b[i], code)
    requires forall i :: 0 <= i < |a| && BelongsTo(a[i], code) ==> a[i] == b[i]
    ensures ItemsOf(a, code, cat) == ItemsOf(b, code, cat)
    decreases |a|
  {
    if |a| > 0 {
      var n := |a| - 1;
      assert forall i :: 0 <= i < n ==> a[..n][i] == a[i] && b[..n][i] == b[i];
      ItemsOfCongruent(a[..n], b[..n], code, cat);
    }
  }

  /** Deleting one order leaves every other order, as read back and as
      listed line by line, unchanged. */
  lemma DeleteLeavesOtherOrders(s: Store, code: string, other: string, fault: bool)
    requires other != code
    ensures FindByCodigo(DeleteByCodigo(s, code, fault), other, fault) == FindByCodigo(s, other, fault)
    ensures FindItemsByPedidoCodigo(DeleteByCodigo(s, code, fault), other, fault)
              == FindItemsByPedidoCodigo(s, other, fault)
  {
    var r := DeleteByCodigo(s, code, fault);
    OrderSumCongruent(s.lines, r.lines, other, s.catalog);
    ItemsOfCongruent(s.lines, r.lines, other, s.catalog);
  }
}
