/**
 Entities of the order-management core: catalog products, orders (Pedido)
 and order lines (ItemPedido). Prices and totals are integer cents; the
 source uses `double`, whose rounding is not modelled.
 */
module Domain {

  /** A nullable reference or a nullable SQL value: `None` is null. */
  datatype Option<+T> = None | Some(value: T) {

    /** Reads a nullable value with null replaced by `ifNull`, as the DAOs
        read a NULL aggregate as 0. */
    function GetOr(ifNull: T): T {
      if Some? then value else ifNull
    }
  }

  /** A catalog product (Producto): identity, unique name, unit price, stock. */
  datatype Product = Product(id: nat, name: string, price: int, available: int)

  /** The read-only catalog, as the product table lists it. */
  type Catalog = seq<Product>

  /** An order (Pedido). `user` is the owning user's id. The lines are not a
      field: they are the rows of the line table that name this order's code. */
  datatype Order = Order(id: nat, code: string, date: int, user: nat, total: int)

  /** An order line (ItemPedido): a reference to its order by code, a
      reference to its product by id, and a quantity. Either reference may be
      null in the source. The line's value is derived, never stored. */
  datatype Line = Line(order: Option<string>, product: Option<nat>, quantity: int)

  /** Product ids are the catalog's primary key. */
  ghost predicate DistinctIds(cat: Catalog) {
    forall i, j :: 0 <= i < j < |cat| ==> cat[i].id != cat[j].id
  }

  /** The product a line's product reference points at. */
  function ProductById(cat: Catalog, pid: nat): (r: Option<Product>)
    ensures r.Some? ==> r.value in cat && r.value.id == pid
    ensures r.None? ==> forall p :: p in cat ==> p.id != pid
  {
    if |cat| == 0 then None
    else if cat[0].id == pid then Some(cat[0])
    else ProductById(cat[1..], pid)
  }

  /** With distinct ids, looking up the id of a catalog entry yields that entry. */
  lemma {:induction false} ProductByIdOfMember(cat: Catalog, p: Product)
    requires DistinctIds(cat)
    requires p in cat
    ensures ProductById(cat, p.id) == Some(p)
  {
    if cat[0] != p {
      assert p in cat[1..];
      assert DistinctIds(cat[1..]) by {
        forall i, j | 0 <= i < j < |cat| - 1
          ensures cat[1..][i].id != cat[1..][j].id
        {
          assert cat[1..][i] == cat[i + 1] && cat[1..][j] == cat[j + 1];
        }
      }
      ProductByIdOfMember(cat[1..], p);
      var k :| 0 <= k < |cat| && cat[k] == p;
      assert k != 0;
      assert cat[0].id != p.id;
    }
  }

  /** The catalog entries carrying `name`, in catalog order. */
  function Named(cat: Catalog, name: string): (r: seq<Product>)
    ensures forall p :: p in r <==> p in cat && p.name == name
  {
    if |cat| == 0 then []
    else (if cat[0].name == name then [cat[0]] else []) + Named(cat[1..], name)
  }

  /** Row `i` of the catalog carries `name`. */
  predicate NameAt(cat: Catalog, name: string, i: int) {
    0 <= i < |cat| && cat[i].name == name
  }

  /** Exactly one catalog row carries `name`. */
  ghost predicate UniquelyNamed(cat: Catalog, name: string) {
    exists i :: NameAt(cat, name, i) && forall j :: NameAt(cat, name, j) ==> j == i
  }

  /** The name filter is empty exactly when no row carries the name. */
  lemma NamedEmpty(cat: Catalog, name: string)
    ensures |Named(cat, name)| == 0 <==> forall j :: !NameAt(cat, name, j)
  {
    if |Named(cat, name)| > 0 {
      var p := Named(cat, name)[0];
      var k :| 0 <= k < |cat| && cat[k] == p;
      assert NameAt(cat, name, k);
    }
  }

  /** When the first row carries the name, it is the only one exactly when
      no later row does. */
  lemma UniqueHead(cat: Catalog, name: string)
    requires NameAt(cat, name, 0)
    ensures UniquelyNamed(cat, name) <==> forall j :: !NameAt(cat[1..], name, j)
  {
    if forall j :: !NameAt(cat[1..], name, j) {
      forall j | 0 < j < |cat|
        ensures !NameAt(cat, name, j)
      {
        assert !NameAt(cat[1..], name, j - 1);
        assert cat[1..][j - 1] == cat[j];
      }
    }
    if UniquelyNamed(cat, name) {
      forall j | NameAt(cat[1..], name, j)
        ensures false
      {
        assert NameAt(cat, name, j + 1);
      }
    }
  }

  /** When the first row does not carry the name, uniqueness is decided by the rest. */
  lemma UniqueTail(cat: Catalog, name: string)
    requires |cat| > 0 && !NameAt(cat, name, 0)
    ensures UniquelyNamed(cat, name) <==> UniquelyNamed(cat[1..], name)
  {
    var rest := cat[1..];
    if UniquelyNamed(cat, name) {
      var i :| NameAt(cat, name, i) && forall j :: NameAt(cat, name, j) ==> j == i;
      assert NameAt(rest, name, i - 1);
      forall j | NameAt(rest, name, j)
        ensures j == i - 1
      {
        assert NameAt(cat, name, j + 1);
      }
    }
    if UniquelyNamed(rest, name) {
      var i :| NameAt(rest, name, i) && forall j :: NameAt(rest, name, j) ==> j == i;
      assert NameAt(cat, name, i + 1);
      forall j | NameAt(cat, name, j)
        ensures j == i + 1
      {
        assert NameAt(rest, name, j - 1);
      }
    }
  }

  /** The name filter yields a single entry exactly when one row carries the name. */
  lemma {:induction false} NamedOnce(cat: Catalog, name: string)
    ensures |Named(cat, name)| == 1 <==> UniquelyNamed(cat, name)
    decreases |cat|
  {
    if |cat| > 0 {
      var rest := cat[1..];
      if NameAt(cat, name, 0) {
        assert Named(cat, name) == [cat[0]] + Named(rest, name);
        NamedEmpty(rest, name);
        UniqueHead(cat, name);
      } else {
        assert Named(cat, name) == Named(rest, name);
        NamedOnce(rest, name);
        UniqueTail(cat, name);
      }
    }
  }

  /** ProductoDAO.findByName: a unique-result query. The product is returned
      exactly when one catalog row carries the name; a name matched by no row
      or by several yields null. */
  function FindByName(cat: Catalog, name: string): (r: Option<Product>)
    ensures r.Some? <==> UniquelyNamed(cat, name)
    ensures r.Some? ==> r.value in cat && r.value.name == name
  {
    var m := Named(cat, name);
    NamedOnce(cat, name);
    if |m| == 1 then Some(m[0]) else None
  }

  /** findByName as the screens see it: the lookup runs in a session of its
      own and a failure of that session is caught and yields null. */
  function LookupByName(cat: Catalog, name: string, fault: bool): (r: Option<Product>)
    ensures r.Some? <==> !fault && UniquelyNamed(cat, name)
    ensures r.Some? ==> r.value in cat && r.value.name == name
  {
    if fault then None else FindByName(cat, name)
  }

  /** ItemPedido.getPrecioTotal: quantity times the product's current unit
      price, and 0 for a line without a product. A reference to an id that is
      not in the catalog is treated like a missing product. */
  function LineValue(l: Line, cat: Catalog): int {
    match l.product
    case None => 0
    case Some(pid) =>
      match ProductById(cat, pid)
      case None => 0
      case Some(p) => l.quantity * p.price
  }

  /** A line's value is its quantity times the current price of the catalog
      product it refers to, and 0 when it refers to none. */
  lemma LineValueOfProduct(l: Line, cat: Catalog, p: Product)
    requires DistinctIds(cat)
    requires p in cat
    ensures l.product == Some(p.id) ==> LineValue(l, cat) == l.quantity * p.price
    ensures l.product.None? ==> LineValue(l, cat) == 0
  {
    ProductByIdOfMember(cat, p);
  }
}
