/**
 The two ways the source adds up an order's lines: the sum of line values
 (getPrecioTotal over the order's lines) and the aggregate query
 `SUM(cantidad * precio)` joined with the product table, which is NULL over
 an empty row set. Both range over a line table whose index is the line id
 and whose deleted rows are None.
 */
module Totals {
  import opened Domain

  /** A row of the line table holds a line of the order with `code`. */
  predicate BelongsTo(slot: Option<Line>, code: string) {
    slot.Some? && slot.value.order == Some(code)
  }

  /** What one row of the line table adds to the order with `code`: a
      deleted row or a line of another order adds nothing. */
  function Contribution(slot: Option<Line>, code: string, cat: Catalog): int {
    if BelongsTo(slot, code) then LineValue(slot.value, cat) else 0
  }

  /** Σ quantity × price over the lines of the order with `code`. */
  function OrderSum(lines: seq<Option<Line>>, code: string, cat: Catalog): int
    decreases |lines|
  {
    if |lines| == 0 then 0
    else OrderSum(lines[..|lines| - 1], code, cat) + Contribution(lines[|lines| - 1], code, cat)
  }

  /** A row of the aggregate query: a line of the order whose product joins. */
  predicate Joined(slot: Option<Line>, code: string, cat: Catalog) {
    && BelongsTo(slot, code)
    && slot.value.product.Some?
    && ProductById(cat, slot.value.product.value).Some?
  }

  /** `SELECT SUM(ip.cantidad * prod.precio) ... JOIN ip.producto prod WHERE
      ip.pedido = order`: None (SQL NULL) when no row joins. */
  function AggregateSum(lines: seq<Option<Line>>, code: string, cat: Catalog): Option<int>
    decreases |lines|
  {
    if |lines| == 0 then None
    else
      var prev := AggregateSum(lines[..|lines| - 1], code, cat);
      var slot := lines[|lines| - 1];
      if Joined(slot, code, cat)
      then Some(prev.GetOr(0) + slot.value.quantity * ProductById(cat, slot.value.product.value).value.price)
      else prev
  }

  /** The aggregate query with NULL read as 0 equals the sum of line values,
      and it is NULL exactly when the order has no line with a product. */
  lemma {:induction false} AggregateSumAgrees(lines: seq<Option<Line>>, code: string, cat: Catalog)
    ensures AggregateSum(lines, code, cat).GetOr(0) == OrderSum(lines, code, cat)
    ensures AggregateSum(lines, code, cat).None? <==>
              forall i :: 0 <= i < |lines| ==> !Joined(lines[i], code, cat)
  {
    if |lines| > 0 {
      var prefix := lines[..|lines| - 1];
      AggregateSumAgrees(prefix, code, cat);
      assert forall i :: 0 <= i < |prefix| ==> prefix[i] == lines[i];
    }
  }

  /** Appending a row adds exactly that row's contribution. */
  lemma OrderSumAppend(lines: seq<Option<Line>>, slot: Option<Line>, code: string, cat: Catalog)
    ensures OrderSum(lines + [slot], code, cat) == OrderSum(lines, code, cat) + Contribution(slot, code, cat)
  {
    assert (lines + [slot])[..|lines|] == lines;
  }

  /** The sum over two tables laid end to end is the sum of the sums. */
  lemma {:induction false} OrderSumConcat(a: seq<Option<Line>>, b: seq<Option<Line>>, code: string, cat: Catalog)
    ensures OrderSum(a + b, code, cat) == OrderSum(a, code, cat) + OrderSum(b, code, cat)
    decreases |b|
  {
    if |b| == 0 {
      assert a + b == a;
    } else {
      var b' := b[..|b| - 1];
      assert a + b == (a + b') + [b[|b| - 1]];
      OrderSumAppend(a + b', b[|b| - 1], code, cat);
      OrderSumConcat(a, b', code, cat);
      OrderSumAppend(b', b[|b| - 1], code, cat);
      assert b' + [b[|b| - 1]] == b;
    }
  }

  /** An order none of whose rows remain sums to 0. */
  lemma {:induction false} OrderSumNoLines(lines: seq<Option<Line>>, code: string, cat: Catalog)
    requires forall i :: 0 <= i < |lines| ==> !BelongsTo(lines[i], code)
    ensures OrderSum(lines, code, cat) == 0
    decreases |lines|
  {
    if |lines| > 0 {
      var prefix := lines[..|lines| - 1];
      assert forall i :: 0 <= i < |prefix| ==> prefix[i] == lines[i];
      OrderSumNoLines(prefix, code, cat);
    }
  }

  /** Two tables whose rows contribute alike to an order give it the same sum. */
  lemma {:induction false} OrderSumCongruent(a: seq<Option<Line>>, b: seq<Option<Line>>, code: string, cat: Catalog)
    requires |a| == |b|
    requires forall i :: 0 <= i < |a| ==> Contribution(a[i], code, cat) == Contribution(b[i], code, cat)
    ensures OrderSum(a, code, cat) == OrderSum(b, code, cat)
    decreases |a|
  {
    if |a| > 0 {
      var a', b' := a[..|a| - 1], b[..|b| - 1];
      assert forall i :: 0 <= i < |a'| ==> a'[i] == a[i] && b'[i] == b[i];
      OrderSumCongruent(a', b', code, cat);
    }
  }

  /** Deleting row `i` takes away exactly that row's contribution. */
  lemma {:induction false} OrderSumDeleteRow(lines: seq<Option<Line>>, i: nat, code: string, cat: Catalog)
    requires i < |lines|
    ensures OrderSum(lines[i := None], code, cat) == OrderSum(lines, code, cat) - Contribution(lines[i], code, cat)
    decreases |lines|
  {
    var n := |lines| - 1;
    var prefix := lines[..n];
    if i == n {
      assert lines[i := None][..n] == prefix;
    } else {
      assert lines[i := None][..n] == prefix[i := None];
      OrderSumDeleteRow(prefix, i, code, cat);
    }
  }

  /** Σ line value over the lines of the order with `code` other than the
      row `skip`: the source's query for the lines that remain after a
      removal (`ip.pedido = order AND ip.id != removed id`). */
  function SumExcept(lines: seq<Option<Line>>, code: string, skip: int, cat: Catalog): int
    decreases |lines|
  {
    if |lines| == 0 then 0
    else
      var n := |lines| - 1;
      SumExcept(lines[..n], code, skip, cat) + (if n == skip then 0 else Contribution(lines[n], code, cat))
  }

  /** Summing all rows but `skip` is summing the table with that row deleted. */
  lemma {:induction false} SumExceptIsDeletion(lines: seq<Option<Line>>, code: string, skip: nat, cat: Catalog)
    requires skip < |lines|
    ensures SumExcept(lines, code, skip, cat) == OrderSum(lines[skip := None], code, cat)
    decreases |lines|
  {
    var n := |lines| - 1;
    if skip == n {
      assert lines[skip := None][..n] == lines[..n];
      SumExceptOutOfRange(lines[..n], code, skip, cat);
    } else {
      assert lines[skip := None][..n] == lines[..n][skip := None];
      SumExceptIsDeletion(lines[..n], code, skip, cat);
    }
  }

  /** Skipping a row the table does not have skips nothing. */
  lemma {:induction false} SumExceptOutOfRange(lines: seq<Option<Line>>, code: string, skip: int, cat: Catalog)
    requires skip < 0 || |lines| <= skip
    ensures SumExcept(lines, code, skip, cat) == OrderSum(lines, code, cat)
    decreases |lines|
  {
    if |lines| > 0 {
      SumExceptOutOfRange(lines[..|lines| - 1], code, skip, cat);
    }
  }
}
