/** The browser's data cache (data.js): the product, brand and order lists
    and the shop logo, read by the pages and updated after each successful
    call to the REST API. */
module ClientCache {
  import opened Basics
  import opened Seqs
  import opened Catalog

  /** The outcome of an awaited API call: the value the server sent back, or
      an exception. */
  datatype Remote<T> = Returned(value: T) | Threw

  /** An order as the cache holds it; only its id is ever inspected. */
  datatype Order = Order(id: nat, orderNumber: string, status: string)

  datatype Cache = Cache(products: seq<Product>, brands: seq<Brand>, orders: seq<Order>, shopLogo: string)

  // ---------------------------------------------------------------------
  // List primitives

  /** `xs.findIndex(p)`, with `None` for -1. */
  function FirstIndex<T>(p: T -> bool, xs: seq<T>): (r: Option<nat>)
    ensures r.None? <==> forall i :: 0 <= i < |xs| ==> !p(xs[i])
    ensures r.Some? ==> r.value < |xs| && p(xs[r.value]) && forall j :: 0 <= j < r.value ==> !p(xs[j])
  {
    if |xs| == 0 then None
    else if p(xs[0]) then Some(0)
    else match FirstIndex(p, xs[1..])
      case None => None
      case Some(i) => Some(i + 1)
  }

  /** `const i = xs.findIndex(p); if (i !== -1) xs[i] = y`. */
  function ReplaceFirst<T>(p: T -> bool, xs: seq<T>, y: T): seq<T>
  {
    match FirstIndex(p, xs)
    case None => xs
    case Some(i) => xs[i := y]
  }

  /** Replacing keeps the length; at most the first match changes, and it
      becomes `y`; with no match nothing changes. */
  lemma ReplaceFirstShape<T>(p: T -> bool, xs: seq<T>, y: T)
    ensures |ReplaceFirst(p, xs, y)| == |xs|
    ensures forall k :: 0 <= k < |xs| && (FirstIndex(p, xs).None? || k != FirstIndex(p, xs).value) ==> ReplaceFirst(p, xs, y)[k] == xs[k]
    ensures FirstIndex(p, xs).None? ==> ReplaceFirst(p, xs, y) == xs
    ensures FirstIndex(p, xs).Some? ==> ReplaceFirst(p, xs, y)[FirstIndex(p, xs).value] == y
  {
  }

  /** After a replacement by a matching value, a lookup finds that value. */
  lemma FindAfterReplace<T>(p: T -> bool, xs: seq<T>, y: T)
    requires p(y) && FirstIndex(p, xs).Some?
    ensures Find(p, ReplaceFirst(p, xs, y)) == Some(y)
  {
    var i := FirstIndex(p, xs).value;
    var r := ReplaceFirst(p, xs, y);
    assert forall j :: 0 <= j < i ==> r[j] == xs[j];
  }

  /** Filtering by a test every element passes changes nothing. */
  lemma {:induction false} FilterKeepsAll<T(!new)>(p: T -> bool, xs: seq<T>)
    requires forall i :: 0 <= i < |xs| ==> p(xs[i])
    ensures Filter(p, xs) == xs
    decreases |xs|
  {
    if |xs| > 0 {
      FilterKeepsAll(p, xs[1..]);
      assert xs == [xs[0]] + xs[1..];
    }
  }

  /** Appending an element the filter drops, then filtering, gives back a
      list the filter keeps whole. */
  lemma FilterDropsAppended<T(!new)>(p: T -> bool, xs: seq<T>, y: T)
    requires forall i :: 0 <= i < |xs| ==> p(xs[i])
    requires !p(y)
    ensures Filter(p, xs + [y]) == xs && Filter(p, [y] + xs) == xs
  {
    FilterAppend(p, xs, [y]);
    FilterAppend(p, [y], xs);
    FilterKeepsAll(p, xs);
    assert Filter(p, [y]) == [];
    assert xs + [] == xs && [] + xs == xs;
  }

  // ---------------------------------------------------------------------
  // Lookups

  predicate ProductHasId(id: nat, p: Product) { p.id == id }
  predicate BrandHasId(id: nat, b: Brand) { b.id == id }
  predicate OrderHasId(id: nat, o: Order) { o.id == id }
  predicate BrandNamed(name: string, b: Brand) { b.name == name }

  /** `getProductById`: the first cached product with that id. The source
      compares with `==`, so a numeric text id finds its product too; ids are
      numbers here. */
  function GetProductById(c: Cache, id: nat): (r: Option<Product>)
    ensures r.None? <==> forall i :: 0 <= i < |c.products| ==> c.products[i].id != id
    ensures r.Some? ==> exists i :: 0 <= i < |c.products| && c.products[i] == r.value && r.value.id == id
                                    && forall j :: 0 <= j < i ==> c.products[j].id != id
  {
    Find(p => ProductHasId(id, p), c.products)
  }

  /** `getBrandByName`: the first brand with exactly that name. */
  function GetBrandByName(c: Cache, name: string): (r: Option<Brand>)
    ensures r.None? <==> forall i :: 0 <= i < |c.brands| ==> c.brands[i].name != name
    ensures r.Some? ==> exists i :: 0 <= i < |c.brands| && c.brands[i] == r.value && r.value.name == name
                                    && forall j :: 0 <= j < i ==> c.brands[j].name != name
  {
    Find(b => BrandNamed(name, b), c.brands)
  }

  /** `getOrderById`: the first order with that id. */
  function GetOrderById(c: Cache, id: nat): (r: Option<Order>)
    ensures r.None? <==> forall i :: 0 <= i < |c.orders| ==> c.orders[i].id != id
    ensures r.Some? ==> exists i :: 0 <= i < |c.orders| && c.orders[i] == r.value && r.value.id == id
                                    && forall j :: 0 <= j < i ==> c.orders[j].id != id
  {
    Find(o => OrderHasId(id, o), c.orders)
  }

  // ---------------------------------------------------------------------
  // Mutations

  /** A cache-changing call with the outcome of its API request; `()` stands
      for a request whose answer the cache ignores. */
  datatype Call =
    | AddProduct(product: Remote<Product>)
    | UpdateProduct(id: nat, product: Remote<Product>)
    | DeleteProduct(id: nat, ack: Remote<()>)
    | AddBrand(brand: Remote<Brand>)
    | UpdateBrand(id: nat, brand: Remote<Brand>)
    | DeleteBrand(id: nat, ack: Remote<()>)
    | AddOrder(order: Remote<Order>)
    | UpdateOrderStatus(id: nat, order: Remote<Order>)
    | DeleteOrder(id: nat, ack: Remote<()>)
    | SetShopLogo(logoUrl: Option<string>, ack: Remote<()>)

  /** The API request of the call threw; the error is rethrown to the page. */
  predicate Failed(call: Call)
  {
    match call
    case AddProduct(r) => r.Threw?
    case UpdateProduct(_, r) => r.Threw?
    case DeleteProduct(_, r) => r.Threw?
    case AddBrand(r) => r.Threw?
    case UpdateBrand(_, r) => r.Threw?
    case DeleteBrand(_, r) => r.Threw?
    case AddOrder(r) => r.Threw?
    case UpdateOrderStatus(_, r) => r.Threw?
    case DeleteOrder(_, r) => r.Threw?
    case SetShopLogo(_, r) => r.Threw?
  }

  /** Which list a call works on. */
  predicate OnProducts(call: Call) { call.AddProduct? || call.UpdateProduct? || call.DeleteProduct? }
  predicate OnBrands(call: Call) { call.AddBrand? || call.UpdateBrand? || call.DeleteBrand? }
  predicate OnOrders(call: Call) { call.AddOrder? || call.UpdateOrderStatus? || call.DeleteOrder? }

  /** The cache after the call. Every mutation follows the awaited request, so
      a request that throws leaves the cache as it was. */
  function Apply(c: Cache, call: Call): (r: Cache)
    ensures Failed(call) ==> r == c
    ensures !OnProducts(call) ==> r.products == c.products
    ensures !OnBrands(call) ==> r.brands == c.brands
    ensures !OnOrders(call) ==> r.orders == c.orders
    ensures !call.SetShopLogo? ==> r.shopLogo == c.shopLogo
  {
    if Failed(call) then c
    else match call
      case AddProduct(res) => c.(products := c.products + [res.value])
      case UpdateProduct(id, res) => c.(products := ReplaceFirst(p => ProductHasId(id, p), c.products, res.value))
      case DeleteProduct(id, _) => c.(products := Filter(p => !ProductHasId(id, p), c.products))
      case AddBrand(res) => c.(brands := c.brands + [res.value])
      case UpdateBrand(id, res) => c.(brands := ReplaceFirst(b => BrandHasId(id, b), c.brands, res.value))
      case DeleteBrand(id, _) => c.(brands := Filter(b => !BrandHasId(id, b), c.brands))
      case AddOrder(res) => c.(orders := [res.value] + c.orders)
      case UpdateOrderStatus(id, res) => c.(orders := ReplaceFirst(o => OrderHasId(id, o), c.orders, res.value))
      case DeleteOrder(id, _) => c.(orders := Filter(o => !OrderHasId(id, o), c.orders))
      case SetShopLogo(url, _) => c.(shopLogo := if url.None? then "" else url.value)
  }

  // ---------------------------------------------------------------------
  // What the mutations achieve

  /** A created product goes to the end of the list, behind the cached ones. */
  lemma AddProductAppends(c: Cache, p: Product)
    ensures var r := Apply(c, AddProduct(Returned(p)));
            |r.products| == |c.products| + 1 && r.products[..|c.products|] == c.products
            && r.products[|c.products|] == p
  {
    var r := Apply(c, AddProduct(Returned(p)));
    assert r.products[..|c.products|] == c.products;
  }

  /** A created order goes to the front of the list. */
  lemma AddOrderPrepends(c: Cache, o: Order)
    ensures var r := Apply(c, AddOrder(Returned(o)));
            |r.orders| == |c.orders| + 1 && r.orders[0] == o && r.orders[1..] == c.orders
  {
    var r := Apply(c, AddOrder(Returned(o)));
    assert r.orders[1..] == c.orders;
  }

  /** A product with a new id is found by its id once added. */
  lemma AddProductFound(c: Cache, p: Product)
    requires GetProductById(c, p.id).None?
    ensures GetProductById(Apply(c, AddProduct(Returned(p))), p.id) == Some(p)
  {
    var r := Apply(c, AddProduct(Returned(p)));
    var k := FirstIndex(q => ProductHasId(p.id, q), r.products);
    assert r.products[|c.products|] == p;
    assert forall i :: 0 <= i < |c.products| ==> r.products[i] == c.products[i];
    assert k == Some(|c.products|);
  }

  /** An update replaces the first product with that id by the server's
      answer, which the lookup then finds, and leaves the rest alone. */
  lemma UpdateProductFound(c: Cache, id: nat, p: Product)
    requires GetProductById(c, id).Some? && p.id == id
    ensures var r := Apply(c, UpdateProduct(id, Returned(p)));
            |r.products| == |c.products| && GetProductById(r, id) == Some(p)
  {
    var r := Apply(c, UpdateProduct(id, Returned(p)));
    UpdateProductStep(c, id, p);
    ReplaceFirstShape(q => ProductHasId(id, q), c.products, p);
    FindAfterReplace(q => ProductHasId(id, q), c.products, p);
    assert GetProductById(r, id) == Find(q => ProductHasId(id, q), r.products);
  }

  /** What a successful product update does to the cache. */
  lemma UpdateProductStep(c: Cache, id: nat, p: Product)
    ensures Apply(c, UpdateProduct(id, Returned(p))) == c.(products := ReplaceFirst(q => ProductHasId(id, q), c.products, p))
  {
  }

  /** An update for an id that is not cached changes nothing. */
  lemma UpdateAbsentUnchanged(c: Cache, id: nat, p: Product, b: Brand, o: Order)
    ensures GetProductById(c, id).None? ==> Apply(c, UpdateProduct(id, Returned(p))) == c
    ensures (forall i :: 0 <= i < |c.brands| ==> c.brands[i].id != id) ==> Apply(c, UpdateBrand(id, Returned(b))) == c
    ensures GetOrderById(c, id).None? ==> Apply(c, UpdateOrderStatus(id, Returned(o))) == c
  {
    assert c.(products := c.products) == c && c.(brands := c.brands) == c && c.(orders := c.orders) == c;
  }

  /** Only the first entry with the id is replaced: a later duplicate is
      kept. */
  lemma UpdateOnlyFirst(c: Cache, id: nat, p: Product, k: nat)
    requires k < |c.products| && c.products[k].id == id
    requires exists j :: 0 <= j < k && c.products[j].id == id
    ensures Apply(c, UpdateProduct(id, Returned(p))).products[k] == c.products[k]
  {
    ReplaceFirstShape(q => ProductHasId(id, q), c.products, p);
  }

  /** A delete removes every product with the id and keeps each other product
      as often as it was there. */
  lemma DeleteProductRemoves(c: Cache, id: nat, q: Product)
    ensures var r := Apply(c, DeleteProduct(id, Returned(())));
            GetProductById(r, id).None?
            && multiset(r.products)[q] == if q.id == id then 0 else multiset(c.products)[q]
  {
    var r := Apply(c, DeleteProduct(id, Returned(())));
    FilterCount(p => !ProductHasId(id, p), c.products, q);
    forall i | 0 <= i < |r.products| ensures r.products[i].id != id {
      assert r.products[i] in r.products;
    }
  }

  /** The kept products stay in their order: deleting from a concatenation
      deletes from each part. */
  lemma DeleteKeepsOrder(c: Cache, d: Cache, id: nat)
    ensures Apply(c.(products := c.products + d.products), DeleteProduct(id, Returned(()))).products
            == Apply(c, DeleteProduct(id, Returned(()))).products + Apply(d, DeleteProduct(id, Returned(()))).products
  {
    FilterAppend(p => !ProductHasId(id, p), c.products, d.products);
  }

  /** The cache after a successful product add and product delete. */
  lemma ProductSteps(c: Cache, p: Product, id: nat)
    ensures Apply(c, AddProduct(Returned(p))) == c.(products := c.products + [p])
    ensures Apply(c, DeleteProduct(id, Returned(()))) == c.(products := Filter(q => !ProductHasId(id, q), c.products))
  {
  }

  /** The cache after a successful brand add and brand delete. */
  lemma BrandSteps(c: Cache, b: Brand, id: nat)
    ensures Apply(c, AddBrand(Returned(b))) == c.(brands := c.brands + [b])
    ensures Apply(c, DeleteBrand(id, Returned(()))) == c.(brands := Filter(q => !BrandHasId(id, q), c.brands))
  {
  }

  /** The cache after a successful order add and order delete. */
  lemma OrderSteps(c: Cache, o: Order, id: nat)
    ensures Apply(c, AddOrder(Returned(o))) == c.(orders := [o] + c.orders)
    ensures Apply(c, DeleteOrder(id, Returned(()))) == c.(orders := Filter(q => !OrderHasId(id, q), c.orders))
  {
  }

  /** Deleting the id of a product just added with a new id restores the
      product list. */
  lemma AddThenDeleteProduct(c: Cache, p: Product)
    requires GetProductById(c, p.id).None?
    ensures Apply(Apply(c, AddProduct(Returned(p))), DeleteProduct(p.id, Returned(()))) == c
  {
    var added := c.(products := c.products + [p]);
    ProductSteps(c, p, p.id);
    ProductSteps(added, p, p.id);
    FilterDropsAppended(q => !ProductHasId(p.id, q), c.products, p);
    assert added.(products := c.products) == c;
  }

  /** Deleting the id of an order just added with a new id restores the
      order list. */
  lemma AddThenDeleteOrder(c: Cache, o: Order)
    requires GetOrderById(c, o.id).None?
    ensures Apply(Apply(c, AddOrder(Returned(o))), DeleteOrder(o.id, Returned(()))) == c
  {
    var added := c.(orders := [o] + c.orders);
    OrderSteps(c, o, o.id);
    OrderSteps(added, o, o.id);
    FilterDropsAppended(q => !OrderHasId(o.id, q), c.orders, o);
    assert added.(orders := c.orders) == c;
  }

  /** Deleting the id of a brand just added with a new id restores the brand
      list. */
  lemma AddThenDeleteBrand(c: Cache, b: Brand)
    requires forall i :: 0 <= i < |c.brands| ==> c.brands[i].id != b.id
    ensures Apply(Apply(c, AddBrand(Returned(b))), DeleteBrand(b.id, Returned(()))) == c
  {
    var added := c.(brands := c.brands + [b]);
    BrandSteps(c, b, b.id);
    BrandSteps(added, b, b.id);
    FilterDropsAppended(q => !BrandHasId(b.id, q), c.brands, b);
    assert added.(brands := c.brands) == c;
  }

  /** `setShopLogo` caches the empty text for a falsy URL and the URL
      otherwise; setting the same logo twice is the same as once. */
  lemma ShopLogoCached(c: Cache, url: Option<string>)
    ensures var r := Apply(c, SetShopLogo(url, Returned(())));
            (r.shopLogo == "" <==> url.None? || url.value == "")
            && (url.Some? ==> r.shopLogo == url.value)
            && Apply(r, SetShopLogo(url, Returned(()))) == r
  {
  }
}
