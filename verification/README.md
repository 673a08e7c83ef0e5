# Order totals of the order-management desktop application

This Dafny project models the part of the order-management application
(JavaFX screens over a Hibernate store) that keeps an order's stored
`total` in step with its lines. It covers:

- the order and line store with its DAO operations: saving a line, removing a
  line, listing an order's lines, reading an order by code, deleting an order
  with its lines, listing a user's orders and saving an order;
- the shopping cart of the main screen and the "buy" action that turns it into
  an order with one line per entry;
- the order-code format;
- the add-line, remove-line and delete-order actions of the order-lines screen,
  and the quantity choices both screens offer.

The whole store is one immutable value, `OrderStore.Store`:

- orders are kept in a map keyed by code;
- the line table is a sequence indexed by line id, where a deleted row is
  `None` and ids are never reused;
- the product catalog is read-only.

Every DAO call is a pure function from a store to a store. A boolean `fault`
input stands for a failing database or connection. A rolled-back transaction
leaves the store exactly as it was. Line removal has a second input for a
commit that fails after its result was already set. Every findByName call
has its own failure input, because the lookup catches its own exception and
returns null.

Money is integer cents. A line's value is quantity × the product's *current*
catalog price, or 0 when it has no product (`Domain.LineValue`). The central
invariant, `OrderStore.Consistent`, says that every stored total equals
`Totals.OrderSum`, the sum of the line values of that order's lines.

What the model proves:

- Saving and removing a line recompute the owner's total from scratch, and
  both re-establish the invariant.
- The SQL aggregate used by line save, which is NULL over an empty row set,
  agrees with the sum of line values (`Totals.AggregateSumAgrees`).
- `findByCodigo` puts the recomputed total only on the value it returns. It
  never writes the store. The store is consistent exactly when every order
  reads back as stored (`PedidoDao.ConsistentIffReadsAgree`).
- "Buy" stores the *cart* total, which was priced when each entry was added.
  Its lines are valued at current prices, and a name that `findByName` does
  not resolve, or whose lookup fails, gives a line without a product. So after "buy" the invariant
  holds exactly when the cart total equals the cart repriced at current prices
  (`MainScreen.BuyInvariantIff`). It holds whenever every name resolves, no
  lookup fails and no price has changed (`MainScreen.BuyKeepsInvariant`). It fails when no name
  resolves and the cart total is non-zero
  (`MainScreen.BuyUnresolvedBreaksInvariant`).
- `PedidoDAO.save` writes the total it is given. It keeps the invariant
  exactly when that total is 0 (`PedidoDao.SaveOrderKeepsInvariantIff`).

Inputs of the model:

- the clock reading, the random draw and the order date;
- the current user and the current order code;
- the selected product name, quantity and line;
- the unit price shown on the screen;
- the answer to each confirmation dialog.

## Model

| member | source | states |
|---|---|---|
| Domain.FindByName | src/main/java/com/example/gestionpedidoscondao/domain/producto/ProductoDAO.java:124-134 | A product is returned exactly when one catalog row carries the name, and it is that row's product. A name carried by no row or by several rows gives null. |
| Domain.LookupByName | src/main/java/com/example/gestionpedidoscondao/domain/producto/ProductoDAO.java:124-134 | A failing lookup session is caught and gives null. Otherwise the result is findByName's: a product exactly when one row carries the name. |
| Domain.ProductByIdOfMember | src/main/java/com/example/gestionpedidoscondao/domain/itemPedido/ItemPedido.java:38-40 | With distinct product ids, a line's product reference resolves to exactly the catalog product with that id. |
| Domain.LineValueOfProduct | src/main/java/com/example/gestionpedidoscondao/domain/itemPedido/ItemPedido.java:42-48 | `Domain.LineValue` (getPrecioTotal): a line referring to a catalog product is worth quantity × that product's current price. A line without a product is worth 0. |
| Totals.AggregateSumAgrees | src/main/java/com/example/gestionpedidoscondao/domain/itemPedido/ItemPedidoDAO.java:91-98 | `Totals.AggregateSum`, the SUM query joined with products, with NULL read as 0, equals the order's sum of line values. It is NULL exactly when no line of the order joins a product. |
| Totals.SumExceptIsDeletion | src/main/java/com/example/gestionpedidoscondao/domain/itemPedido/ItemPedidoDAO.java:155-160 | `Totals.SumExcept`, the sum over the order's lines other than the removed id, equals the sum over the table with that row deleted. |
| ItemPedidoDao.SaveLine | src/main/java/com/example/gestionpedidoscondao/domain/itemPedido/ItemPedidoDAO.java:79-115 | It commits iff there is no failure and the line's order (if any) is stored. On commit the line is appended under the next id, the returned id is that id, and the owner's total becomes the sum over all its lines including the new one. A line without an order changes no total. A failure leaves everything unchanged. |
| ItemPedidoDao.SaveLineKeepsInvariant | src/main/java/com/example/gestionpedidoscondao/domain/itemPedido/ItemPedidoDAO.java:86-102 | Saving a line on a consistent store leaves it consistent, whether it commits or rolls back. |
| ItemPedidoDao.SaveLineKeepsWellFormed | src/main/java/com/example/gestionpedidoscondao/domain/itemPedido/ItemPedidoDAO.java:79-115 | Saving a line keeps every line's order stored and every order under its own code. |
| ItemPedidoDao.RemoveLine | src/main/java/com/example/gestionpedidoscondao/domain/itemPedido/ItemPedidoDAO.java:144-177 | The result is true iff there is no failure before the result is set and the id holds a line whose order is stored. If the commit then succeeds, the row is deleted and only the owner's total changes, to the sum over its remaining lines. If the commit fails, the result is still true and the store is unchanged. When the result is false, the store is unchanged. |
| ItemPedidoDao.RemoveLineKeepsInvariant | src/main/java/com/example/gestionpedidoscondao/domain/itemPedido/ItemPedidoDAO.java:150-167 | Removing a line on a consistent store leaves it consistent. |
| ItemPedidoDao.RemoveLineKeepsWellFormed | src/main/java/com/example/gestionpedidoscondao/domain/itemPedido/ItemPedidoDAO.java:150-167 | Removing a line keeps the store well formed. |
| ItemPedidoDao.RemoveLineSubtractsValue | src/main/java/com/example/gestionpedidoscondao/domain/itemPedido/ItemPedidoDAO.java:155-161 | On a consistent store, after a committed removal the recomputed total equals the old total minus the removed line's value. |
| ItemPedidoDao.RemoveLastLineZeroes | src/main/java/com/example/gestionpedidoscondao/domain/itemPedido/ItemPedidoDAO.java:155-161 | A committed removal of an order's only line sets its total to 0. |
| ItemPedidoDao.RemoveLineTwice | src/main/java/com/example/gestionpedidoscondao/domain/itemPedido/ItemPedidoDAO.java:144-177 | After a committed removal, removing the same id again returns false and changes nothing. |
| ItemPedidoDao.RemoveLineCommitFailureReportsTrue | src/main/java/com/example/gestionpedidoscondao/domain/itemPedido/ItemPedidoDAO.java:165-176 | When the commit fails, remove still returns true, although the line is still stored. |
| ItemPedidoDao.ItemsOf | src/main/java/com/example/gestionpedidoscondao/domain/itemPedido/ItemPedidoDAO.java:39-42 | The rows returned are stored lines of the order that join a product, in increasing id order, and every such row is returned. |
| ItemPedidoDao.FindItemsByPedidoCodigo | src/main/java/com/example/gestionpedidoscondao/domain/itemPedido/ItemPedidoDAO.java:36-47 | Line id i is listed iff the query does not fail, the order is stored, and line i belongs to it and has a catalog product. A failure gives an empty list. |
| ItemPedidoDao.ItemsOfSum | src/main/java/com/example/gestionpedidoscondao/domain/itemPedido/ItemPedidoDAO.java:39-42 | The listed lines add up to the order's full sum of line values, because the lines the join omits are worth 0. |
| ItemPedidoDao.FindItemsSumIsOrderSum | src/main/java/com/example/gestionpedidoscondao/domain/itemPedido/ItemPedidoDAO.java:36-47 | For a stored order, the listed lines add up to the order's sum of line values. |
| PedidoDao.FindByUsuarioId | src/main/java/com/example/gestionpedidoscondao/domain/pedido/PedidoDAO.java:32-43 | Exactly the stored orders of the user are returned, with their stored totals. A failure gives an empty list. |
| PedidoDao.SaveOrder | src/main/java/com/example/gestionpedidoscondao/domain/pedido/PedidoDAO.java:73-84 | It commits iff there is no failure, the order's id is not yet set, and its code is not stored. An order whose id is already set is refused as detached. On success the order is returned with the next order id and is stored under its code, with lines and catalog untouched. On failure the result is null and the store is unchanged. |
| PedidoDao.SaveOrderKeepsInvariantIff | src/main/java/com/example/gestionpedidoscondao/domain/pedido/PedidoDAO.java:73-84 | Saving an order on a consistent store leaves it consistent iff the order's total is 0. |
| PedidoDao.SaveOrderKeepsWellFormed | src/main/java/com/example/gestionpedidoscondao/domain/pedido/PedidoDAO.java:73-84 | Saving an order keeps the store well formed. |
| PedidoDao.FindByCodigo | src/main/java/com/example/gestionpedidoscondao/domain/pedido/PedidoDAO.java:93-112 | An order is returned iff there is no failure and the code is stored. It is the stored order with its total replaced by the sum of its line values. |
| PedidoDao.ConsistentIffReadsAgree | src/main/java/com/example/gestionpedidoscondao/domain/pedido/PedidoDAO.java:100-107 | The store is consistent iff every stored order reads back by code unchanged. |
| PedidoDao.FindByCodigoTotalIsListedSum | src/main/java/com/example/gestionpedidoscondao/domain/pedido/PedidoDAO.java:98-105 | The total read back by code equals the sum of the values of the lines listed for that code. |
| PedidoDao.ListedOrdersReadBack | src/main/java/com/example/gestionpedidoscondao/domain/pedido/PedidoDAO.java:93-112 | On a consistent store, every order listed for a user reads back by its code as the same order. |
| PedidoDao.DropLinesOf | src/main/java/com/example/gestionpedidoscondao/domain/pedido/PedidoDAO.java:154-156 | Exactly the rows of the given order are deleted. Every other row keeps its place and content. |
| PedidoDao.DeleteByCodigo | src/main/java/com/example/gestionpedidoscondao/domain/pedido/PedidoDAO.java:150-169 | Without a failure, the order with the code and all its lines are gone, and everything else is kept. With a failure the store is unchanged and no error surfaces. |
| PedidoDao.DeleteByCodigoKeepsInvariant | src/main/java/com/example/gestionpedidoscondao/domain/pedido/PedidoDAO.java:150-169 | Deleting an order keeps the store well formed and consistent. |
| PedidoDao.DeleteMissingCodeIsNoop | src/main/java/com/example/gestionpedidoscondao/domain/pedido/PedidoDAO.java:158-168 | Deleting a code that no order has leaves the store unchanged. |
| PedidoDao.DeleteByCodigoIdempotent | src/main/java/com/example/gestionpedidoscondao/domain/pedido/PedidoDAO.java:150-169 | Deleting a code again after a committed deletion changes nothing. |
| PedidoDao.DeleteThenFindNothing | src/main/java/com/example/gestionpedidoscondao/domain/pedido/PedidoDAO.java:150-169 | After a committed deletion, the code reads back as null and lists no lines. |
| PedidoDao.DeleteLeavesOtherOrders | src/main/java/com/example/gestionpedidoscondao/domain/pedido/PedidoDAO.java:154-163 | Deleting one code leaves every other code's read-back order and its listed lines unchanged. |
| Cart.CartTotalConcat | src/main/java/com/example/gestionpedidoscondao/controllers/VentanaPrincipal.java:166-172 | `Cart.CartTotal` (calcularTotalCompra, Σ subtotal) is additive over concatenation. |
| Cart.AddToCart | src/main/java/com/example/gestionpedidoscondao/controllers/VentanaPrincipal.java:192-218 | Without a product, without a quantity, or with a quantity ≤ 0, the cart is unchanged. Otherwise exactly one entry (name, quantity, quantity × unit price) is appended, and the total grows by that subtotal. |
| Cart.Cancel | src/main/java/com/example/gestionpedidoscondao/controllers/VentanaPrincipal.java:181-183 | The cart is empty afterwards and its total is 0. |
| Cart.CancelIdempotent | src/main/java/com/example/gestionpedidoscondao/controllers/VentanaPrincipal.java:181-183 | Cancelling twice is the same as cancelling once. |
| Cart.QuantityChoices | src/main/java/com/example/gestionpedidoscondao/controllers/VentanaItemPedido.java:199-206 | The choices offered are exactly 1, 2, …, the available stock, in increasing order. They are empty with no product or no stock. |
| OrderCode.RandomSuffix | src/main/java/com/example/gestionpedidoscondao/controllers/VentanaPrincipal.java:228 | The suffix is the whole part of the draw scaled by 1000: n ≤ random × 1000 < n + 1. It is below 1000. |
| OrderCode.ParseFormat | src/main/java/com/example/gestionpedidoscondao/controllers/VentanaPrincipal.java:229 | Reading back `"PEDIDO_" + millis + "_" + n` yields exactly (millis, n), negative clock readings included. |
| OrderCode.GenerateUniqueCode | src/main/java/com/example/gestionpedidoscondao/controllers/VentanaPrincipal.java:226-231 | The code starts with "PEDIDO_" and reads back as exactly the clock reading and the suffix drawn from `random`. It is the only string that reads back to that pair, so it is `"PEDIDO_" + millis + "_" + n` with both numbers written as Java writes them, without leading zeros. |
| OrderCode.ParseCodeOnlyFormat | src/main/java/com/example/gestionpedidoscondao/controllers/VentanaPrincipal.java:229 | Every string that reads back as a code is the formatted code of what it reads back to. No padded or "-0" spelling is accepted. |
| OrderCode.ParseCodeIff | src/main/java/com/example/gestionpedidoscondao/controllers/VentanaPrincipal.java:229 | A string reads back as (millis, n) iff it is `"PEDIDO_" + millis + "_" + n`: reading and formatting are inverse in both directions. |
| OrderCode.GeneratedCodesCollide | src/main/java/com/example/gestionpedidoscondao/controllers/VentanaPrincipal.java:226-231 | Two generated codes are equal iff they share the clock reading and their draws give the same suffix. |
| OrderCode.FormatInjective | src/main/java/com/example/gestionpedidoscondao/controllers/VentanaPrincipal.java:226-231 | Two codes are equal iff both the clock readings and the suffixes are equal. So codes can collide only within one millisecond. |
| MainScreen.CartLines | src/main/java/com/example/gestionpedidoscondao/controllers/VentanaPrincipal.java:122-130 | There is one line per cart entry, in cart order. Each belongs to the new order, has the entry's quantity, and refers to whatever that entry's findByName call returned, which is null when its lookup session failed. |
| MainScreen.CartLinesSum | src/main/java/com/example/gestionpedidoscondao/controllers/VentanaPrincipal.java:122-130 | The new lines add up, for the new order, to the cart repriced at current prices. |
| MainScreen.RepricedWhenPricesHold | src/main/java/com/example/gestionpedidoscondao/controllers/VentanaPrincipal.java:205-206 | A cart whose names all resolve, none of whose lookups fails, and whose subtotals use current prices reprices to its own total. |
| MainScreen.Buy | src/main/java/com/example/gestionpedidoscondao/controllers/VentanaPrincipal.java:93-148 | An empty cart persists nothing. Otherwise it commits unless there is a failure or the generated code is already taken. A commit stores one order (generated code, user, date, cart total, next id) and one line per entry, after the existing rows, and empties the cart. Each line's product is what that entry's lookup returned, null for a failed lookup. A failure keeps both the store and the cart. |
| MainScreen.PlacedKeepsWellFormed | src/main/java/com/example/gestionpedidoscondao/controllers/VentanaPrincipal.java:110-132 | Placing an order under a fresh code keeps the store well formed. |
| MainScreen.PlacedInvariantIff | src/main/java/com/example/gestionpedidoscondao/controllers/VentanaPrincipal.java:105-130 | Placing an order on a consistent store gives a consistent store iff the cart total equals the cart repriced at current prices. |
| MainScreen.BuyKeepsWellFormed | src/main/java/com/example/gestionpedidoscondao/controllers/VentanaPrincipal.java:93-148 | "Buy" keeps the store well formed. |
| MainScreen.BuyInvariantIff | src/main/java/com/example/gestionpedidoscondao/controllers/VentanaPrincipal.java:105-130 | After a committed "buy" on a consistent store, the invariant holds iff the cart total equals the cart repriced at current prices. |
| MainScreen.BuyKeepsInvariant | src/main/java/com/example/gestionpedidoscondao/controllers/VentanaPrincipal.java:105-130 | If every entry resolves, no lookup fails, and every entry is priced at the current price, "buy" keeps the store consistent. |
| MainScreen.RepricedUnresolved | src/main/java/com/example/gestionpedidoscondao/controllers/VentanaPrincipal.java:123-126 | A cart in which every entry's lookup fails or its name does not resolve is worth 0 at current prices. |
| MainScreen.BuyUnresolvedBreaksInvariant | src/main/java/com/example/gestionpedidoscondao/controllers/VentanaPrincipal.java:123-126 | If no entry yields a product, because lookups fail or names do not resolve, and the cart total is non-zero, a committed "buy" leaves the store inconsistent. |
| MainScreen.PlacedThenRead | src/main/java/com/example/gestionpedidoscondao/controllers/VentanaPrincipal.java:110-137 | The placed order is listed for its user. It reads back by code with the cart repriced at current prices as its total. |
| MainScreen.BuyThenRead | src/main/java/com/example/gestionpedidoscondao/controllers/VentanaPrincipal.java:132-137 | After a committed "buy", the new order is in the refreshed list of the user's orders. It reads back with the repriced total. |
| ItemScreen.AddLine | src/main/java/com/example/gestionpedidoscondao/controllers/VentanaItemPedido.java:298-340 | Invalid input (no product, no quantity, or quantity ≤ 0) saves nothing, and so does a findByName that returns null, whether the name does not resolve or the lookup fails. A valid, resolving request is added iff the save does not fail and the order just read, if any, is stored; on a well-formed store that is iff the save does not fail. An added request appends exactly one line, with the product, the quantity and the order just read (null if that read failed), and sets that order's total to its recomputed sum. Nothing changes unless the line is added. |
| ItemScreen.AddLineKeepsInvariant | src/main/java/com/example/gestionpedidoscondao/controllers/VentanaItemPedido.java:307-337 | Adding a line keeps the store well formed and consistent. |
| ItemScreen.AddLineRaisesTotal | src/main/java/com/example/gestionpedidoscondao/controllers/VentanaItemPedido.java:307-337 | On a consistent store, adding a line to an order that reads back raises its total by quantity × the product's current price. |
| ItemScreen.RemoveSelected | src/main/java/com/example/gestionpedidoscondao/controllers/VentanaItemPedido.java:260-280 | Without a selection, without confirmation, or with a productless selection (the dialog text dereferences null), nothing changes. Otherwise the selected line goes through line removal. |
| ItemScreen.RemoveSelectedKeepsInvariant | src/main/java/com/example/gestionpedidoscondao/controllers/VentanaItemPedido.java:260-280 | Removing the selected line keeps the store well formed and consistent. A confirmed removal of a stored line with an order, whose commit succeeds, deletes that row. |
| ItemScreen.DeleteCurrentOrder | src/main/java/com/example/gestionpedidoscondao/controllers/VentanaItemPedido.java:240-251 | Without confirmation nothing changes. A confirmed deletion is exactly deleteByCodigo, so on success the current order and exactly its lines are gone, and every other order, every other line, the catalog and the next order id are kept. |
| ItemScreen.DeleteCurrentOrderKeepsInvariant | src/main/java/com/example/gestionpedidoscondao/controllers/VentanaItemPedido.java:240-251 | Deleting the current order keeps the store well formed and consistent. After a confirmed, committed deletion the order reads back as null. |
| ItemScreen.DeleteCurrentOrderLeavesOthers | src/main/java/com/example/gestionpedidoscondao/controllers/VentanaItemPedido.java:240-251 | Deleting the current order leaves every other order reading back and listing its lines as before. |

## Left out

- Hibernate sessions, flushing, lazy loading and detached entities (apart from persist refusing an order whose id is already set): each DAO call is one atomic transition over the immutable store, and HibernateUtil.java is not part of this model.
- JavaFX widgets, alerts, listeners, table refreshes and scene changes: the selected name, quantity, line, unit price and dialog answers are inputs.
- Parsing the unit price from the label text on the main screen: the unit price is an input.
- Report generation with JasperReports on the order-lines screen: this is file and PDF output.
- Login (UsuarioDAO) and the global Session holder: the current user and the current order code are parameters.
- ProductoDAO: the catalog is a read-only sequence. findByName is modelled as its unique-result query, and getAll as the sequence itself.
- The DAO interface and its stub methods that return null or false or do nothing: they have no behaviour to model.
- `double` prices and totals: money is integer cents, so IEEE rounding in the sums is not modelled.
- `System.currentTimeMillis`, `Math.random` and `new Date`: they are parameters.
- Concurrent sessions and transaction isolation: the application is modelled as one sequential user.
- PedidoDao.SaveOrder: orders are keyed by code, so saving an order whose code is already stored is refused, whereas the source has no uniqueness check and would store a second order with that code.
- MainScreen.Buy: it is refused when the generated code is already stored, for the same reason. GeneratedCodesCollide shows that this can happen only for two purchases in the same millisecond whose draws give the same suffix.
- Cart.QuantityChoices: integers are unbounded, so the loop overflow when the stock is Integer.MAX_VALUE is not modelled.
- ItemScreen.AddLine: a failing save is reported as SaveFailed with the store unchanged. The rethrown exception that escapes the handler is not modelled.
- ItemScreen.AddLine: save updates the order object that was read back. Its fields equal the stored ones apart from the total, which the save overwrites, so that update is modelled only through the total.
- ItemScreen.DeleteCurrentOrder: returning to the main screen after the deletion is UI only.
- ItemPedidoDao.ItemsOf: the query has no ORDER BY, so the source leaves the order of the listed lines unspecified. The model lists them by increasing line id.
- Null references of a line to its order and to its product are `Option`s. A product reference to an id missing from the catalog counts as no product.
- Several orders sharing a code, which would make `uniqueResult` throw in findByCodigo and deleteByCodigo, cannot arise in a store keyed by code.
