/**
 The persistent store as one immutable value. Every DAO call is one atomic
 transition over it: a committed transaction yields the new store, a rolled
 back one leaves the caller with the store it had.
 */
module OrderStore {
  import opened Domain
  import opened Totals

  /** Orders keyed by code; the line table indexed by line id, where a
      deleted row is None and ids are never reused (IDENTITY columns); the
      read-only catalog; the next order id the database will assign. */
  datatype Store = Store(
    orders: map<string, Order>,
    lines: seq<Option<Line>>,
    catalog: Catalog,
    nextOrderId: nat)

  /** Why a transaction rolled back. */
  datatype Failure =
    | StoreFailure   // the database or the connection failed
    | UnsavedOrder   // a line refers to an order the store does not hold
    | DuplicateCode  // an order with that code is already stored
    | DetachedOrder  // persist was given an order whose id is already set

  /** Outcome of one transaction. */
  datatype Tx<T> = Commit(store: Store, value: T) | Rollback(failure: Failure) {

    /** The store once the transaction is over: the committed one, or the
        one it started from. */
    function After(before: Store): Store {
      if Commit? then store else before
    }
  }

  /** A row is deleted, has no order, or names an order the store holds. */
  predicate OrderStored(s: Store, slot: Option<Line>) {
    slot.Some? && slot.value.order.Some? ==> slot.value.order.value in s.orders
  }

  /** Referential integrity the database maintains: an order is stored under
      its own code, order ids are below the next id, every line's order is
      stored, and product ids are distinct. */
  ghost predicate WellFormed(s: Store) {
    && (forall c :: c in s.orders ==> s.orders[c].code == c && s.orders[c].id < s.nextOrderId)
    && (forall i :: 0 <= i < |s.lines| ==> OrderStored(s, s.lines[i]))
    && DistinctIds(s.catalog)
  }

  /** The aggregate invariant: each stored total is the sum of its order's
      current line values at current prices. */
  ghost predicate Consistent(s: Store) {
    forall c :: c in s.orders ==> s.orders[c].total == OrderSum(s.lines, c, s.catalog)
  }

  /** In a well-formed store a code with no order has no lines, so it sums to 0. */
  lemma UnknownCodeSumsToZero(s: Store, code: string)
    requires WellFormed(s)
    requires code !in s.orders
    ensures OrderSum(s.lines, code, s.catalog) == 0
  {
    OrderSumNoLines(s.lines, code, s.catalog);
  }
}
