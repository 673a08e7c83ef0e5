/**
 The shopping cart of the main screen: a list of Carrito entries built
 before any order exists, plus the quantity choices both screens offer for
 a selected product. Widgets are gone: the selected product name, the
 selected quantity and the displayed unit price are inputs.
 */
module Cart {
  import opened Domain

  /** A cart entry (Carrito): product name, quantity, and the subtotal
      priced when the entry was added. */
  datatype CartEntry = CartEntry(name: string, quantity: int, subtotal: int)

  type Cart = seq<CartEntry>

  /** calcularTotalCompra: Σ subtotal over the cart. */
  function CartTotal(cart: Cart): int
    decreases |cart|
  {
    if |cart| == 0 then 0 else CartTotal(cart[..|cart| - 1]) + cart[|cart| - 1].subtotal
  }

  /** The total of two carts laid end to end is the sum of their totals. */
  lemma {:induction false} CartTotalConcat(a: Cart, b: Cart)
    ensures CartTotal(a + b) == CartTotal(a) + CartTotal(b)
    decreases |b|
  {
    if |b| == 0 {
      assert a + b == a;
    } else {
      var b' := b[..|b| - 1];
      assert (a + b)[..|a + b| - 1] == a + b';
      CartTotalConcat(a, b');
    }
  }

  /** onAñadirClick: without a selected product, without a quantity or with
      a quantity ≤ 0 the cart is left as it is; otherwise one entry is
      appended, priced at quantity × the unit price shown at that moment. */
  function AddToCart(cart: Cart, selected: Option<string>, quantity: Option<int>, unitPrice: int): (r: Cart)
    ensures selected.None? || quantity.None? || quantity.value <= 0 ==> r == cart
    ensures selected.Some? && quantity.Some? && quantity.value > 0 ==>
              && |r| == |cart| + 1
              && r[..|cart|] == cart
              && r[|cart|] == CartEntry(selected.value, quantity.value, quantity.value * unitPrice)
    ensures CartTotal(r) == CartTotal(cart) +
              (if selected.Some? && quantity.Some? && quantity.value > 0 then quantity.value * unitPrice else 0)
  {
    if selected.None? || quantity.None? || quantity.value <= 0 then cart
    else
      var r := cart + [CartEntry(selected.value, quantity.value, quantity.value * unitPrice)];
      assert r[..|cart|] == cart;
      r
  }

  /** onCancelarClick: the cart is emptied, whatever it held. */
  function Cancel(cart: Cart): (r: Cart)
    ensures |r| == 0 && CartTotal(r) == 0
  {
    []
  }

  /** Cancelling twice is cancelling once. */
  lemma CancelIdempotent(cart: Cart)
    ensures Cancel(Cancel(cart)) == Cancel(cart)
  {
  }

  /** updateCantidadComboBox (on both screens): the quantities 1, 2, …,
      available in increasing order; nothing for no product or no stock. */
  method QuantityChoices(product: Option<Product>) returns (choices: seq<int>)
    ensures product.None? || product.value.available <= 0 ==> choices == []
    ensures product.Some? && product.value.available > 0 ==> |choices| == product.value.available
    ensures forall k :: 0 <= k < |choices| ==> choices[k] == k + 1
  {
    choices := [];
    if product.Some? {
      var available := product.value.available;
      var i := 1;
      while i <= available
        invariant 1 <= i
        invariant available >= 0 ==> i <= available + 1
        invariant available < 0 ==> i == 1
        invariant |choices| == i - 1
        invariant forall k :: 0 <= k < |choices| ==> choices[k] == k + 1
        decreases available + 1 - i
      {
        choices := choices + [i];
        i := i + 1;
      }
    }
  }
}
