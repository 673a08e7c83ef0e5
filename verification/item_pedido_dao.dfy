/**
 ItemPedidoDAO: saving a line, removing a line, and listing an order's lines.
 Saving and removing both recompute the owning order's total from the lines
 the store then holds, never incrementally.
 */
module ItemPedidoDao {
  import opened Domain
  import opened Totals
  import opened OrderStore

  /** ItemPedidoDAO.save. The line is persisted under the next line id; if
      it names an order, that order's total is set to the aggregate query over
      all of the order's lines, the new one included, with NULL read as 0.
      A line naming an order the store does not hold cannot be flushed, and a
      store failure rolls back; both surface as a rollback. */
  function SaveLine(s: Store, line: Line, fault: bool): (r: Tx<nat>)
    ensures r.Commit? <==> !fault && (line.order.Some? ==> line.order.value in s.orders)
    ensures r.Rollback? ==> r.failure == (if fault then StoreFailure else UnsavedOrder)
    ensures r.Commit? ==>
              && r.value == |s.lines|
              && r.store.lines == s.lines + [Some(line)]
              && r.store.catalog == s.catalog
              && r.store.nextOrderId == s.nextOrderId
              && r.store.orders.Keys == s.orders.Keys
              && (forall c :: c in s.orders && line.order != Some(c) ==> r.store.orders[c] == s.orders[c])
    ensures r.Commit? && line.order.Some? ==>
              var c := line.order.value;
              r.store.orders[c] == s.orders[c].(total := OrderSum(r.store.lines, c, s.catalog))
  {
    if fault then Rollback(StoreFailure)
    else
      var lines := s.lines + [Some(line)];
      match line.order
      case None => Commit(s.(lines := lines), |s.lines|)
      case Some(c) =>
        if c !in s.orders then Rollback(UnsavedOrder)
        else
          AggregateSumAgrees(lines, c, s.catalog);
          var total := AggregateSum(lines, c, s.catalog).GetOr(0);
          Commit(s.(lines := lines, orders := s.orders[c := s.orders[c].(total := total)]), |s.lines|)
  }

  /** A committed save re-establishes the aggregate invariant. */
  lemma SaveLineKeepsInvariant(s: Store, line: Line, fault: bool)
    requires Consistent(s)
    ensures Consistent(SaveLine(s, line, fault).After(s))
  {
    var r := SaveLine(s, line, fault);
    if r.Commit? {
      forall c | c in r.store.orders
        ensures r.store.orders[c].total == OrderSum(r.store.lines, c, r.store.catalog)
      {
        OrderSumAppend(s.lines, Some(line), c, s.catalog);
      }
    }
  }

  /** A save keeps the store well formed. */
  lemma SaveLineKeepsWellFormed(s: Store, line: Line, fault: bool)
    requires WellFormed(s)
    ensures WellFormed(SaveLine(s, line, fault).After(s))
  {
    var r := SaveLine(s, line, fault);
    if r.Commit? {
      assert forall i :: 0 <= i < |s.lines| ==> r.store.lines[i] == s.lines[i];
    }
  }

  /** Outcome of ItemPedidoDAO.remove: the store afterwards and the boolean
      the source returns. */
  datatype Removal = Removal(store: Store, removed: bool)

  /** ItemPedidoDAO.remove. A missing line yields false with nothing
      changed. Otherwise the row is deleted and its order's total is set to
      the sum of line values over the order's other lines. A line without an
      order makes the source dereference null, and an order the store does
      not hold cannot be loaded; like a store failure before the result is
      set (`fault`), both roll back and yield false. The result is set to
      true before the commit and the handler never resets it, so a failing
      commit (`commitFault`) rolls back and still yields true. */
  function RemoveLine(s: Store, id: int, fault: bool, commitFault: bool): (r: Removal)
    ensures r.removed <==>
              && !fault
              && 0 <= id < |s.lines|
              && s.lines[id].Some?
              && s.lines[id].value.order.Some?
              && s.lines[id].value.order.value in s.orders
    ensures !r.removed || commitFault ==> r.store == s
    ensures r.removed && !commitFault ==>
              var c := s.lines[id].value.order.value;
              && r.store.lines == s.lines[id := None]
              && r.store.catalog == s.catalog
              && r.store.nextOrderId == s.nextOrderId
              && r.store.orders.Keys == s.orders.Keys
              && r.store.orders[c] == s.orders[c].(total := OrderSum(r.store.lines, c, s.catalog))
              && (forall c' :: c' in s.orders && c' != c ==> r.store.orders[c'] == s.orders[c'])
  {
    if fault || id < 0 || |s.lines| <= id || s.lines[id].None? then Removal(s, false)
    else
      match s.lines[id].value.order
      case None => Removal(s, false)
      case Some(c) =>
        if c !in s.orders then Removal(s, false)
        else if commitFault then Removal(s, true)
        else
          SumExceptIsDeletion(s.lines, c, id, s.catalog);
          var total := SumExcept(s.lines, c, id, s.catalog);
          Removal(s.(lines := s.lines[id := None], orders := s.orders[c := s.orders[c].(total := total)]), true)
  }

  /** A removal re-establishes the aggregate invariant. */
  lemma RemoveLineKeepsInvariant(s: Store, id: int, fault: bool, commitFault: bool)
    requires Consistent(s)
    ensures Consistent(RemoveLine(s, id, fault, commitFault).store)
  {
    var r := RemoveLine(s, id, fault, commitFault);
    if r.removed && !commitFault {
      var c := s.lines[id].value.order.value;
      forall c' | c' in r.store.orders && c' != c
        ensures r.store.orders[c'].total == OrderSum(r.store.lines, c', r.store.catalog)
      {
        OrderSumDeleteRow(s.lines, id, c', s.catalog);
      }
    }
  }

  /** A removal keeps the store well formed. */
  lemma RemoveLineKeepsWellFormed(s: Store, id: int, fault: bool, commitFault: bool)
    requires WellFormed(s)
    ensures WellFormed(RemoveLine(s, id, fault, commitFault).store)
  {
  }

  /** On a consistent store, recomputing after a committed removal lowers
      the order's total by exactly the removed line's value, as an
      incremental update would. */
  lemma {:induction false} RemoveLineSubtractsValue(s: Store, id: int, fault: bool)
    requires Consistent(s)
    requires RemoveLine(s, id, fault, false).removed
    ensures var c := s.lines[id].value.order.value;
            RemoveLine(s, id, fault, false).store.orders[c].total == s.orders[c].total - LineValue(s.lines[id].value, s.catalog)
  {
    var c := s.lines[id].value.order.value;
    OrderSumDeleteRow(s.lines, id, c, s.catalog);
  }

  /** Removing an order's last line, with a commit that succeeds, sets its total to 0. */
  lemma {:induction false} RemoveLastLineZeroes(s: Store, id: int, fault: bool)
    requires RemoveLine(s, id, fault, false).removed
    requires forall i :: 0 <= i < |s.lines| && i != id ==> !BelongsTo(s.lines[i], s.lines[id].value.order.value)
    ensures RemoveLine(s, id, fault, false).store.orders[s.lines[id].value.order.value].total == 0
  {
    var c := s.lines[id].value.order.value;
    var lines := s.lines[id := None];
    assert forall i :: 0 <= i < |lines| ==> !BelongsTo(lines[i], c);
    OrderSumNoLines(lines, c, s.catalog);
  }

  /** After a committed removal, removing the same id again reports false
      and changes nothing. */
  lemma RemoveLineTwice(s: Store, id: int, fault1: bool, fault2: bool, commitFault2: bool)
    ensures var once := RemoveLine(s, id, fault1, false).store;
            var twice := RemoveLine(once, id, fault2, commitFault2);
            RemoveLine(s, id, fault1, false).removed ==> !twice.removed && twice.store == once
  {
  }

  /** A failing commit reports true although the line is still stored. */
  lemma RemoveLineCommitFailureReportsTrue(s: Store, id: int)
    requires 0 <= id < |s.lines| && s.lines[id].Some?
    requires s.lines[id].value.order.Some? && s.lines[id].value.order.value in s.orders
    ensures RemoveLine(s, id, false, true).removed
    ensures RemoveLine(s, id, false, true).store.lines[id] == s.lines[id]
  {
  }

  /** One entry of the list findItemsByPedidoCodigo returns. */
  datatype Item = Item(id: nat, line: Line)

  /** Some entry of `items` is the line with id `i`. */
  predicate Listed(items: seq<Item>, i: nat) {
    exists k :: 0 <= k < |items| && items[k].id == i
  }

  /** The rows of `lines` the query `ItemPedido JOIN pedido JOIN producto
      WHERE codigo = code` returns, in id order. */
  function ItemsOf(lines: seq<Option<Line>>, code: string, cat: Catalog): (r: seq<Item>)
    ensures forall k :: 0 <= k < |r| ==> r[k].id < |lines| && lines[r[k].id] == Some(r[k].line)
    ensures forall k :: 0 <= k < |r| ==> Joined(lines[r[k].id], code, cat)
    ensures forall k, k' :: 0 <= k < k' < |r| ==> r[k].id < r[k'].id
    ensures forall i :: 0 <= i < |lines| && Joined(lines[i], code, cat) ==> Listed(r, i)
    decreases |lines|
  {
    if |lines| == 0 then []
    else
      var n := |lines| - 1;
      var prev := ItemsOf(lines[..n], code, cat);
      assert forall i :: 0 <= i < n ==> lines[..n][i] == lines[i];
      if Joined(lines[n], code, cat) then
        var r := prev + [Item(n, lines[n].value)];
        assert forall i :: 0 <= i < n && Listed(prev, i) ==> Listed(r, i) by {
          forall i | 0 <= i < n && Listed(prev, i) ensures Listed(r, i) {
            var k :| 0 <= k < |prev| && prev[k].id == i;
            assert r[k].id == i;
          }
        }
        assert r[|prev|].id == n;
        r
      else prev
  }

  /** ItemPedidoDAO.findItemsByPedidoCodigo: the lines of the order with
      `code` that have a product, or an empty list when the query fails. */
  function FindItemsByPedidoCodigo(s: Store, code: string, fault: bool): (r: seq<Item>)
    ensures forall k :: 0 <= k < |r| ==> r[k].id < |s.lines| && s.lines[r[k].id] == Some(r[k].line)
    ensures forall k :: 0 <= k < |r| ==> r[k].line.order == Some(code) && r[k].line.product.Some?
    ensures forall k, k' :: 0 <= k < k' < |r| ==> r[k].id < r[k'].id
    ensures forall i :: 0 <= i < |s.lines| ==>
              (Listed(r, i) <==> !fault && code in s.orders && Joined(s.lines[i], code, s.catalog))
  {
    if fault || code !in s.orders then []
    else ItemsOf(s.lines, code, s.catalog)
  }

  /** Σ line value over a list of lines. */
  function SumValues(items: seq<Item>, cat: Catalog): int
    decreases |items|
  {
    if |items| == 0 then 0
    else SumValues(items[..|items| - 1], cat) + LineValue(items[|items| - 1].line, cat)
  }

  /** The listed lines add up to the order's sum of line values: the lines
      the join leaves out have no product and are worth 0. */
  lemma {:induction false} ItemsOfSum(lines: seq<Option<Line>>, code: string, cat: Catalog)
    ensures SumValues(ItemsOf(lines, code, cat), cat) == OrderSum(lines, code, cat)
    decreases |lines|
  {
    if |lines| > 0 {
      var n := |lines| - 1;
      var prev := ItemsOf(lines[..n], code, cat);
      ItemsOfSum(lines[..n], code, cat);
      assert OrderSum(lines, code, cat) == OrderSum(lines[..n], code, cat) + Contribution(lines[n], code, cat);
      if Joined(lines[n], code, cat) {
        var r := prev + [Item(n, lines[n].value)];
        assert ItemsOf(lines, code, cat) == r;
        assert r[..|prev|] == prev;
        assert SumValues(r, cat) == SumValues(prev, cat) + LineValue(lines[n].value, cat);
      } else {
        assert ItemsOf(lines, code, cat) == prev;
        assert Contribution(lines[n], code, cat) == 0;
      }
    }
  }

  /** What the item screen lists for an order adds up to its recomputed total. */
  lemma FindItemsSumIsOrderSum(s: Store, code: string)
    requires code in s.orders
    ensures SumValues(FindItemsByPedidoCodigo(s, code, false), s.catalog) == OrderSum(s.lines, code, s.catalog)
  {
    ItemsOfSum(s.lines, code, s.catalog);
  }
}
