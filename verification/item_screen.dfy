/**
 The order-lines screen: adding a line to the current order, removing the
 selected line, and deleting the whole order. The current order's code, the
 selected product name, quantity and line, and the answer to the
 confirmation dialog are inputs.
 */
module ItemScreen {
  import opened Domain
  import opened Totals
  import opened OrderStore
  import opened ItemPedidoDao
  import opened PedidoDao

  /** How an add-line request ended. */
  datatype Addition =
    | InvalidInput     // no product, no quantity, or a quantity ≤ 0
    | UnknownProduct   // findByName returned null
    | Added(id: nat)   // the new line's id
    | SaveFailed       // ItemPedidoDAO.save threw

  datatype AddResult = AddResult(store: Store, outcome: Addition)

  /** The order a new line is attached to: the one findByCodigo returns for
      the current code, or null when that read returns null. */
  function CurrentOrderRef(s: Store, current: string, readFault: bool): Option<string> {
    match FindByCodigo(s, current, readFault)
    case None => None
    case Some(o) => Some(o.code)
  }

  /** The request names a product and a quantity above 0. */
  predicate ValidRequest(selected: Option<string>, quantity: Option<int>) {
    selected.Some? && quantity.Some? && quantity.value > 0
  }

  /** añadir. The current order is read first. Without a product, without a
      quantity, or with a quantity ≤ 0 nothing is saved; nor when findByName
      returns null, because the name does not resolve or its session failed
      (`lookupFault`). Otherwise one line with the product, the quantity and
      the order just read (null if that read returned null) is saved through
      ItemPedidoDAO.save, which recomputes that order's total. */
  function AddLine(s: Store, current: string, selected: Option<string>, quantity: Option<int>,
                   readFault: bool, lookupFault: bool, saveFault: bool): (r: AddResult)
    ensures r.outcome == InvalidInput <==> !ValidRequest(selected, quantity)
    ensures r.outcome == UnknownProduct <==>
              ValidRequest(selected, quantity) && LookupByName(s.catalog, selected.value, lookupFault).None?
    ensures var order := CurrentOrderRef(s, current, readFault);
            r.outcome.Added? <==>
              && ValidRequest(selected, quantity)
              && LookupByName(s.catalog, selected.value, lookupFault).Some?
              && !saveFault
              && (order.Some? ==> order.value in s.orders)
    ensures WellFormed(s) ==>
              (r.outcome.Added? <==>
                 ValidRequest(selected, quantity) && LookupByName(s.catalog, selected.value, lookupFault).Some? && !saveFault)
    ensures !r.outcome.Added? ==> r.store == s
    ensures r.outcome.Added? ==>
              var order := CurrentOrderRef(s, current, readFault);
              var line := Line(order, Some(LookupByName(s.catalog, selected.value, lookupFault).value.id), quantity.value);
              && r.outcome.id == |s.lines|
              && r.store.lines == s.lines + [Some(line)]
              && r.store.catalog == s.catalog
              && r.store == SaveLine(s, line, saveFault).store
              && (order.None? ==> r.store.orders == s.orders)
              && (order.Some? ==> r.store.orders[order.value].total == OrderSum(r.store.lines, order.value, s.catalog))
    ensures r.outcome.Added? && (readFault || current !in s.orders) ==> r.store.orders == s.orders
  {
    var order := CurrentOrderRef(s, current, readFault);
    if !ValidRequest(selected, quantity) then AddResult(s, InvalidInput)
    else
      match LookupByName(s.catalog, selected.value, lookupFault)
      case None => AddResult(s, UnknownProduct)
      case Some(p) =>
        match SaveLine(s, Line(order, Some(p.id), quantity.value), saveFault)
        case Commit(saved, id) => AddResult(saved, Added(id))
        case Rollback(_) => AddResult(s, SaveFailed)
  }

  /** Adding a line keeps the store well formed and consistent. */
  lemma AddLineKeepsInvariant(s: Store, current: string, selected: Option<string>, quantity: Option<int>,
                              readFault: bool, lookupFault: bool, saveFault: bool)
    requires WellFormed(s) && Consistent(s)
    ensures var r := AddLine(s, current, selected, quantity, readFault, lookupFault, saveFault);
            WellFormed(r.store) && Consistent(r.store)
  {
    if ValidRequest(selected, quantity) && LookupByName(s.catalog, selected.value, lookupFault).Some? {
      var line := Line(CurrentOrderRef(s, current, readFault), Some(LookupByName(s.catalog, selected.value, lookupFault).value.id), quantity.value);
      SaveLineKeepsInvariant(s, line, saveFault);
      SaveLineKeepsWellFormed(s, line, saveFault);
    }
  }

  /** On a consistent store, adding a line to an order that reads back
      raises its stored total by quantity × the product's current price. */
  lemma AddLineRaisesTotal(s: Store, current: string, selected: Option<string>, quantity: Option<int>,
                           readFault: bool, lookupFault: bool, saveFault: bool)
    requires WellFormed(s) && Consistent(s)
    requires !readFault && current in s.orders
    requires AddLine(s, current, selected, quantity, readFault, lookupFault, saveFault).outcome.Added?
    ensures AddLine(s, current, selected, quantity, readFault, lookupFault, saveFault).store.orders[current].total
              == s.orders[current].total + quantity.value * FindByName(s.catalog, selected.value).value.price
  {
    var p := FindByName(s.catalog, selected.value).value;
    var line := Line(Some(current), Some(p.id), quantity.value);
    assert CurrentOrderRef(s, current, readFault) == Some(current);
    OrderSumAppend(s.lines, Some(line), current, s.catalog);
    ProductByIdOfMember(s.catalog, p);
  }

  /** borrar. Nothing happens without a selected line or without
      confirmation; a selected line without a product makes the dialog text
      dereference null before anything is asked. Otherwise the line goes
      through ItemPedidoDAO.remove, whose result is ignored. */
  function RemoveSelected(s: Store, selected: Option<Item>, confirmed: bool, fault: bool, commitFault: bool): (r: Store)
    ensures selected.None? || !confirmed || selected.value.line.product.None? ==> r == s
    ensures selected.Some? && confirmed && selected.value.line.product.Some? ==>
              r == RemoveLine(s, selected.value.id, fault, commitFault).store
  {
    if selected.None? || selected.value.line.product.None? || !confirmed then s
    else RemoveLine(s, selected.value.id, fault, commitFault).store
  }

  /** Removing the selected line keeps the store well formed and consistent,
      and a selected line that is still stored with its order is gone
      afterwards unless the store failed. */
  lemma RemoveSelectedKeepsInvariant(s: Store, selected: Option<Item>, confirmed: bool, fault: bool, commitFault: bool)
    requires WellFormed(s) && Consistent(s)
    ensures WellFormed(RemoveSelected(s, selected, confirmed, fault, commitFault))
    ensures Consistent(RemoveSelected(s, selected, confirmed, fault, commitFault))
    ensures selected.Some? && confirmed && !fault && !commitFault && selected.value.line.product.Some?
            && selected.value.id < |s.lines| && s.lines[selected.value.id] == Some(selected.value.line)
            && selected.value.line.order.Some?
            ==> RemoveSelected(s, selected, confirmed, fault, commitFault).lines[selected.value.id] == None
  {
    if selected.Some? {
      RemoveLineKeepsInvariant(s, selected.value.id, fault, commitFault);
      RemoveLineKeepsWellFormed(s, selected.value.id, fault, commitFault);
    }
  }

  /** onBorrarClick: the current order and its lines are deleted only when
      the dialog is confirmed. */
  function DeleteCurrentOrder(s: Store, current: string, confirmed: bool, fault: bool): (r: Store)
    ensures !confirmed ==> r == s
    ensures confirmed ==> r == DeleteByCodigo(s, current, fault)
  {
    if confirmed then DeleteByCodigo(s, current, fault) else s
  }

  /** Deleting the current order keeps the store well formed and
      consistent, and after a confirmed, committed deletion the order reads
      back as null. */
  lemma DeleteCurrentOrderKeepsInvariant(s: Store, current: string, confirmed: bool, fault: bool)
    requires WellFormed(s) && Consistent(s)
    ensures WellFormed(DeleteCurrentOrder(s, current, confirmed, fault))
    ensures Consistent(DeleteCurrentOrder(s, current, confirmed, fault))
    ensures confirmed && !fault ==> FindByCodigo(DeleteCurrentOrder(s, current, confirmed, fault), current, false) == None
  {
    DeleteByCodigoKeepsInvariant(s, current, fault);
  }

  /** Deleting the current order leaves every other order reading back and
      listing its lines as before. */
  lemma DeleteCurrentOrderLeavesOthers(s: Store, current: string, confirmed: bool, fault: bool, other: string)
    requires other != current
    ensures FindByCodigo(DeleteCurrentOrder(s, current, confirmed, fault), other, false) == FindByCodigo(s, other, false)
    ensures FindItemsByPedidoCodigo(DeleteCurrentOrder(s, current, confirmed, fault), other, false)
              == FindItemsByPedidoCodigo(s, other, false)
  {
    DeleteLeavesOtherOrders(s, current, other, false);
  }
}
