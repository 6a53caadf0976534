/** `POST /api/admin/migrate-localstorage` (server.js): importing exported
    products, brands, orders and the shop logo, skipping what already exists.
    A `None` field is an absent or `null` value in the exported JSON. */
module Migration {
  import opened Basics
  import Catalog

  datatype ExportedProduct = ExportedProduct(name: Option<string>, category: Option<string>, price: Option<real>, stock: Option<int>)
  datatype ExportedBrand = ExportedBrand(name: Option<string>, logo: Option<string>)

  /** `order.productId` as the import sees it: falsy, or a value whose
      `parseInt` is `parsed` (`None` for `NaN`). */
  datatype RawProductId = NoProductId | ProductIdValue(parsed: Option<int>)

  datatype ExportedOrder = ExportedOrder(orderNumber: Option<string>, productId: RawProductId,
                                         productName: Option<string>, status: Option<string>)

  /** The request body; `None` for an absent array or logo. */
  datatype ExportData = ExportData(products: Option<seq<ExportedProduct>>, brands: Option<seq<ExportedBrand>>,
                                   orders: Option<seq<ExportedOrder>>, logo: Option<string>)

  /** A migrated product row: `display_order` and `specs_columns` take their
      column defaults 0 and 1. */
  datatype StoredProduct = StoredProduct(id: nat, name: string, category: Option<string>, price: real, stock: int,
                                         displayOrder: int, specsColumns: int)
  datatype StoredBrand = StoredBrand(name: string, logo: Option<string>)
  datatype StoredOrder = StoredOrder(orderNumber: string, productId: Option<nat>, productName: string, status: string)

  datatype Db = Db(products: seq<StoredProduct>, brands: seq<StoredBrand>, orders: seq<StoredOrder>,
                   logo: Option<string>, nextProductId: nat)

  /** An item whose insert the database refused; the database's error text is
      not modelled. */
  datatype MigrationError = ProductError(productName: Option<string>) | BrandError(brandName: Option<string>)
                          | OrderError(orderNumber: Option<string>)

  /** The `results` object of the response. */
  datatype Report = Report(products: nat, brands: nat, orders: nat, logo: bool, errors: seq<MigrationError>)

  datatype MigrateOutcome = BadRequest | Migrated(db: Db, report: Report)

  const EmptyReport := Report(0, 0, 0, false, [])

  /** The largest id PostgreSQL's `INTEGER` holds, which the import uses as an
      exclusive upper bound. */
  const MaxInt32: int := 2147483647

  // ---------------------------------------------------------------------
  // Existence checks

  /** `SELECT id FROM products WHERE name = $1 AND category = $2`. In SQL a
      comparison with `NULL` is never true, so as written a product without a
      category never matches. With `asWritten` false the category is compared
      `IS NOT DISTINCT FROM`, so `NULL` matches `NULL`. */
  predicate ProductMatch(row: StoredProduct, p: ExportedProduct, asWritten: bool)
  {
    && p.name.Some? && row.name == p.name.value
    && (if asWritten then p.category.Some? && row.category == p.category else row.category == p.category)
  }

  predicate ProductExists(rows: seq<StoredProduct>, p: ExportedProduct, asWritten: bool)
  {
    exists i :: 0 <= i < |rows| && ProductMatch(rows[i], p, asWritten)
  }

  predicate BrandExists(rows: seq<StoredBrand>, b: ExportedBrand)
  {
    b.name.Some? && exists i :: 0 <= i < |rows| && rows[i].name == b.name.value
  }

  predicate OrderExists(rows: seq<StoredOrder>, o: ExportedOrder)
  {
    o.orderNumber.Some? && exists i :: 0 <= i < |rows| && rows[i].orderNumber == o.orderNumber.value
  }

  /** `NOT NULL` columns: an item missing one of them is refused by the insert. */
  predicate ProductInsertable(p: ExportedProduct) { p.name.Some? && p.price.Some? }
  predicate BrandInsertable(b: ExportedBrand) { b.name.Some? }
  predicate OrderInsertable(o: ExportedOrder) { o.orderNumber.Some? && o.productName.Some? }

  function OrElse(x: Option<int>, fallback: int): int
  {
    if x.Some? && x.value != 0 then x.value else fallback
  }

  // ---------------------------------------------------------------------
  // Products

  function MigrateProduct(db: Db, rep: Report, p: ExportedProduct, asWritten: bool): (r: (Db, Report))
    ensures db.products <= r.0.products && r.0.brands == db.brands && r.0.orders == db.orders && r.0.logo == db.logo
    ensures r.1.brands == rep.brands && r.1.orders == rep.orders && r.1.logo == rep.logo && r.1.products >= rep.products
  {
    if ProductExists(db.products, p, asWritten) then (db, rep)
    else if !ProductInsertable(p) then (db, rep.(errors := rep.errors + [ProductError(p.name)]))
    else
      var row := StoredProduct(db.nextProductId, p.name.value, p.category, p.price.value, OrElse(p.stock, 0), 0, 1);
      (db.(products := db.products + [row], nextProductId := db.nextProductId + 1), rep.(products := rep.products + 1))
  }

  function MigrateProducts(db: Db, rep: Report, ps: seq<ExportedProduct>, asWritten: bool): (r: (Db, Report))
    ensures db.products <= r.0.products && r.0.brands == db.brands && r.0.orders == db.orders && r.0.logo == db.logo
    ensures r.1.brands == rep.brands && r.1.orders == rep.orders && r.1.logo == rep.logo && r.1.products >= rep.products
    decreases |ps|
  {
    if |ps| == 0 then (db, rep)
    else
      var mid := MigrateProduct(db, rep, ps[0], asWritten);
      MigrateProducts(mid.0, mid.1, ps[1..], asWritten)
  }

  /** Rows only ever get appended, so a match once present stays present. */
  lemma ProductExistsGrows(rows: seq<StoredProduct>, more: seq<StoredProduct>, p: ExportedProduct, asWritten: bool)
    requires rows <= more && ProductExists(rows, p, asWritten)
    ensures ProductExists(more, p, asWritten)
  {
    var i :| 0 <= i < |rows| && ProductMatch(rows[i], p, asWritten);
    assert more[i] == rows[i];
  }

  /** After the import every insertable product has a match (with the
      null-safe comparison). */
  lemma {:induction false} ProductsPresentAfter(db: Db, rep: Report, ps: seq<ExportedProduct>)
    ensures forall k :: 0 <= k < |ps| && ProductInsertable(ps[k])
              ==> ProductExists(MigrateProducts(db, rep, ps, false).0.products, ps[k], false)
    decreases |ps|
  {
    if |ps| > 0 {
      var mid := MigrateProduct(db, rep, ps[0], false);
      var fin := MigrateProducts(mid.0, mid.1, ps[1..], false);
      ProductsPresentAfter(mid.0, mid.1, ps[1..]);
      if ProductInsertable(ps[0]) {
        if !ProductExists(db.products, ps[0], false) {
          assert ProductMatch(mid.0.products[|db.products|], ps[0], false);
        }
        ProductExistsGrows(mid.0.products, fin.0.products, ps[0], false);
      }
      forall k | 1 <= k < |ps| && ProductInsertable(ps[k]) ensures ProductExists(fin.0.products, ps[k], false) {
        assert ps[k] == ps[1..][k - 1];
      }
    }
  }

  /** When every insertable product already has a match, the import changes
      nothing and counts nothing. */
  lemma {:induction false} ProductsStable(db: Db, rep: Report, ps: seq<ExportedProduct>)
    requires forall k :: 0 <= k < |ps| && ProductInsertable(ps[k]) ==> ProductExists(db.products, ps[k], false)
    ensures MigrateProducts(db, rep, ps, false).0 == db
    ensures MigrateProducts(db, rep, ps, false).1.products == rep.products
    decreases |ps|
  {
    if |ps| > 0 {
      var mid := MigrateProduct(db, rep, ps[0], false);
      assert mid.0 == db && mid.1.products == rep.products;
      forall k | 0 <= k < |ps[1..]| && ProductInsertable(ps[1..][k]) ensures ProductExists(db.products, ps[1..][k], false) {
        assert ps[1..][k] == ps[k + 1];
      }
      ProductsStable(mid.0, mid.1, ps[1..]);
    }
  }

  // ---------------------------------------------------------------------
  // Brands

  function MigrateBrand(db: Db, rep: Report, b: ExportedBrand): (r: (Db, Report))
    ensures db.brands <= r.0.brands && r.0.products == db.products && r.0.orders == db.orders && r.0.logo == db.logo
            && r.0.nextProductId == db.nextProductId
    ensures r.1.products == rep.products && r.1.orders == rep.orders && r.1.logo == rep.logo && r.1.brands >= rep.brands
  {
    if BrandExists(db.brands, b) then (db, rep)
    else if !BrandInsertable(b) then (db, rep.(errors := rep.errors + [BrandError(b.name)]))
    else (db.(brands := db.brands + [StoredBrand(b.name.value, b.logo)]), rep.(brands := rep.brands + 1))
  }

  function MigrateBrands(db: Db, rep: Report, bs: seq<ExportedBrand>): (r: (Db, Report))
    ensures db.brands <= r.0.brands && r.0.products == db.products && r.0.orders == db.orders && r.0.logo == db.logo
            && r.0.nextProductId == db.nextProductId
    ensures r.1.products == rep.products && r.1.orders == rep.orders && r.1.logo == rep.logo && r.1.brands >= rep.brands
    decreases |bs|
  {
    if |bs| == 0 then (db, rep)
    else
      var mid := MigrateBrand(db, rep, bs[0]);
      MigrateBrands(mid.0, mid.1, bs[1..])
  }

  lemma BrandExistsGrows(rows: seq<StoredBrand>, more: seq<StoredBrand>, b: ExportedBrand)
    requires rows <= more && BrandExists(rows, b)
    ensures BrandExists(more, b)
  {
    var i :| 0 <= i < |rows| && rows[i].name == b.name.value;
    assert more[i] == rows[i];
  }

  lemma {:induction false} BrandsPresentAfter(db: Db, rep: Report, bs: seq<ExportedBrand>)
    ensures forall k :: 0 <= k < |bs| && BrandInsertable(bs[k]) ==> BrandExists(MigrateBrands(db, rep, bs).0.brands, bs[k])
    decreases |bs|
  {
    if |bs| > 0 {
      var mid := MigrateBrand(db, rep, bs[0]);
      var fin := MigrateBrands(mid.0, mid.1, bs[1..]);
      BrandsPresentAfter(mid.0, mid.1, bs[1..]);
      if BrandInsertable(bs[0]) {
        if !BrandExists(db.brands, bs[0]) {
          assert mid.0.brands[|db.brands|].name == bs[0].name.value;
        }
        BrandExistsGrows(mid.0.brands, fin.0.brands, bs[0]);
      }
      forall k | 1 <= k < |bs| && BrandInsertable(bs[k]) ensures BrandExists(fin.0.brands, bs[k]) {
        assert bs[k] == bs[1..][k - 1];
      }
    }
  }

  lemma {:induction false} BrandsStable(db: Db, rep: Report, bs: seq<ExportedBrand>)
    requires forall k :: 0 <= k < |bs| && BrandInsertable(bs[k]) ==> BrandExists(db.brands, bs[k])
    ensures MigrateBrands(db, rep, bs).0 == db
    ensures MigrateBrands(db, rep, bs).1.brands == rep.brands
    decreases |bs|
  {
    if |bs| > 0 {
      var mid := MigrateBrand(db, rep, bs[0]);
      forall k | 0 <= k < |bs[1..]| && BrandInsertable(bs[1..][k]) ensures BrandExists(db.brands, bs[1..][k]) {
        assert bs[1..][k] == bs[k + 1];
      }
      BrandsStable(mid.0, mid.1, bs[1..]);
    }
  }

  // ---------------------------------------------------------------------
  // Orders

  /** `SELECT id FROM products WHERE name = $1 LIMIT 1`. */
  function FindProductByName(rows: seq<StoredProduct>, name: string): (r: Option<StoredProduct>)
    ensures r.None? <==> forall i :: 0 <= i < |rows| ==> rows[i].name != name
    ensures r.Some? ==> exists i :: 0 <= i < |rows| && rows[i] == r.value
                                   && forall j :: 0 <= j < i ==> rows[j].name != name
    ensures r.Some? ==> r.value.name == name
  {
    if |rows| == 0 then None
    else if rows[0].name == name then Some(rows[0])
    else FindProductByName(rows[1..], name)
  }

  /** The parsed id is a number in `(0, 2^31 - 1)` that names a product. */
  predicate IdUsable(rows: seq<StoredProduct>, raw: RawProductId)
  {
    raw.ProductIdValue? && raw.parsed.Some? && 0 < raw.parsed.value < MaxInt32
    && exists i :: 0 <= i < |rows| && rows[i].id == raw.parsed.value
  }

  /** The order's `product_id`: the parsed id when usable; otherwise the first
      product with the order's product name; `null` when neither applies, and
      also when the order carries no product id at all (the name fallback sits
      inside that check). */
  function ResolveProductId(rows: seq<StoredProduct>, raw: RawProductId, productName: Option<string>): (r: Option<nat>)
    ensures r.Some? ==> exists i :: 0 <= i < |rows| && rows[i].id == r.value
    ensures raw.NoProductId? ==> r.None?
    ensures IdUsable(rows, raw) ==> r == Some(raw.parsed.value)
    ensures raw.ProductIdValue? && !IdUsable(rows, raw) ==>
              (r.Some? <==> productName.Some? && productName.value != ""
                            && exists i :: 0 <= i < |rows| && rows[i].name == productName.value)
    ensures raw.ProductIdValue? && !IdUsable(rows, raw) && r.Some? ==>
              exists i :: 0 <= i < |rows| && rows[i].id == r.value && rows[i].name == productName.value
                          && forall j :: 0 <= j < i ==> rows[j].name != productName.value
  {
    match raw
    case NoProductId => None
    case ProductIdValue(parsed) =>
      if parsed.Some? && 0 < parsed.value < MaxInt32 && Catalog.Find((p: StoredProduct) => p.id == parsed.value, rows).Some? then
        Some(parsed.value)
      else if productName.Some? && productName.value != "" && FindProductByName(rows, productName.value).Some? then
        Some(FindProductByName(rows, productName.value).value.id)
      else None
  }

  function MigrateOrder(db: Db, rep: Report, o: ExportedOrder): (r: (Db, Report))
    ensures db.orders <= r.0.orders && r.0.products == db.products && r.0.brands == db.brands && r.0.logo == db.logo
            && r.0.nextProductId == db.nextProductId
    ensures r.1.products == rep.products && r.1.brands == rep.brands && r.1.logo == rep.logo && r.1.orders >= rep.orders
  {
    if OrderExists(db.orders, o) then (db, rep)
    else if !OrderInsertable(o) then (db, rep.(errors := rep.errors + [OrderError(o.orderNumber)]))
    else
      var status := if o.status.Some? && o.status.value != "" then o.status.value else "pending";
      var row := StoredOrder(o.orderNumber.value, ResolveProductId(db.products, o.productId, o.productName),
                             o.productName.value, status);
      (db.(orders := db.orders + [row]), rep.(orders := rep.orders + 1))
  }

  function MigrateOrders(db: Db, rep: Report, os: seq<ExportedOrder>): (r: (Db, Report))
    ensures db.orders <= r.0.orders && r.0.products == db.products && r.0.brands == db.brands && r.0.logo == db.logo
            && r.0.nextProductId == db.nextProductId
    ensures r.1.products == rep.products && r.1.brands == rep.brands && r.1.logo == rep.logo && r.1.orders >= rep.orders
    decreases |os|
  {
    if |os| == 0 then (db, rep)
    else
      var mid := MigrateOrder(db, rep, os[0]);
      MigrateOrders(mid.0, mid.1, os[1..])
  }

  lemma OrderExistsGrows(rows: seq<StoredOrder>, more: seq<StoredOrder>, o: ExportedOrder)
    requires rows <= more && OrderExists(rows, o)
    ensures OrderExists(more, o)
  {
    var i :| 0 <= i < |rows| && rows[i].orderNumber == o.orderNumber.value;
    assert more[i] == rows[i];
  }

  lemma {:induction false} OrdersPresentAfter(db: Db, rep: Report, os: seq<ExportedOrder>)
    ensures forall k :: 0 <= k < |os| && OrderInsertable(os[k]) ==> OrderExists(MigrateOrders(db, rep, os).0.orders, os[k])
    decreases |os|
  {
    if |os| > 0 {
      var mid := MigrateOrder(db, rep, os[0]);
      var fin := MigrateOrders(mid.0, mid.1, os[1..]);
      OrdersPresentAfter(mid.0, mid.1, os[1..]);
      if OrderInsertable(os[0]) {
        if !OrderExists(db.orders, os[0]) {
          assert mid.0.orders[|db.orders|].orderNumber == os[0].orderNumber.value;
        }
        OrderExistsGrows(mid.0.orders, fin.0.orders, os[0]);
      }
      forall k | 1 <= k < |os| && OrderInsertable(os[k]) ensures OrderExists(fin.0.orders, os[k]) {
        assert os[k] == os[1..][k - 1];
      }
    }
  }

  lemma {:induction false} OrdersStable(db: Db, rep: Report, os: seq<ExportedOrder>)
    requires forall k :: 0 <= k < |os| && OrderInsertable(os[k]) ==> OrderExists(db.orders, os[k])
    ensures MigrateOrders(db, rep, os).0 == db
    ensures MigrateOrders(db, rep, os).1.orders == rep.orders
    decreases |os|
  {
    if |os| > 0 {
      var mid := MigrateOrder(db, rep, os[0]);
      forall k | 0 <= k < |os[1..]| && OrderInsertable(os[1..][k]) ensures OrderExists(db.orders, os[1..][k]) {
        assert os[1..][k] == os[k + 1];
      }
      OrdersStable(mid.0, mid.1, os[1..]);
    }
  }

  // ---------------------------------------------------------------------
  // The whole request

  /** `!exportedData || (!products && !brands && !orders)` rejects the body.
      As written, a body carrying only a logo is rejected although the error
      text lists the logo among the accepted parts and the handler imports it;
      the corrected gate also accepts a truthy logo. */
  predicate Accepted(data: Option<ExportData>, asWritten: bool)
  {
    && data.Some?
    && (|| data.value.products.Some? || data.value.brands.Some? || data.value.orders.Some?
        || (!asWritten && data.value.logo.Some? && data.value.logo.value != ""))
  }

  function Items<T>(xs: Option<seq<T>>): seq<T>
  {
    if xs.Some? then xs.value else []
  }

  /** The import in the handler's order: products, brands, orders, then the
      logo upsert. */
  function Run(db: Db, data: ExportData, asWritten: bool): (r: (Db, Report))
  {
    var a := MigrateProducts(db, EmptyReport, Items(data.products), asWritten);
    var b := MigrateBrands(a.0, a.1, Items(data.brands));
    var c := MigrateOrders(b.0, b.1, Items(data.orders));
    if data.logo.Some? && data.logo.value != "" then (c.0.(logo := data.logo), c.1.(logo := true)) else c
  }

  /** The handler as written. */
  function MigrateAsWritten(db: Db, data: Option<ExportData>): (r: MigrateOutcome)
    ensures r.BadRequest? <==> !Accepted(data, true)
  {
    if !Accepted(data, true) then BadRequest else Migrated(Run(db, data.value, true).0, Run(db, data.value, true).1)
  }

  /** The handler with a null-safe product match and a gate that accepts a
      logo-only body. */
  function Migrate(db: Db, data: Option<ExportData>): (r: MigrateOutcome)
    ensures r.BadRequest? <==> !Accepted(data, false)
    ensures r.Migrated? ==> db.products <= r.db.products && db.brands <= r.db.brands && db.orders <= r.db.orders
  {
    if !Accepted(data, false) then BadRequest else Migrated(Run(db, data.value, false).0, Run(db, data.value, false).1)
  }

  /** Running the same import twice: the second run inserts nothing and
      leaves the database as the first run left it. */
  lemma MigrateIdempotent(db: Db, data: Option<ExportData>)
    requires Migrate(db, data).Migrated?
    ensures var once := Migrate(db, data).db;
            var twice := Migrate(once, data);
            twice.Migrated? && twice.db == once
            && twice.report.products == 0 && twice.report.brands == 0 && twice.report.orders == 0
  {
    var d := data.value;
    var ps, bs, os := Items(d.products), Items(d.brands), Items(d.orders);
    var a := MigrateProducts(db, EmptyReport, ps, false);
    var b := MigrateBrands(a.0, a.1, bs);
    var c := MigrateOrders(b.0, b.1, os);
    ProductsPresentAfter(db, EmptyReport, ps);
    BrandsPresentAfter(a.0, a.1, bs);
    OrdersPresentAfter(b.0, b.1, os);
    var once := Run(db, d, false).0;
    assert once.products == a.0.products && once.brands == b.0.brands && once.orders == c.0.orders;
    assert forall k :: 0 <= k < |ps| && ProductInsertable(ps[k]) ==> ProductExists(once.products, ps[k], false);
    var a2 := MigrateProducts(once, EmptyReport, ps, false);
    ProductsStable(once, EmptyReport, ps);
    var b2 := MigrateBrands(a2.0, a2.1, bs);
    BrandsStable(a2.0, a2.1, bs);
    var c2 := MigrateOrders(b2.0, b2.1, os);
    OrdersStable(b2.0, b2.1, os);
  }

  /** A product exported without a category, imported twice as written, is
      stored twice. */
  lemma NullCategoryDuplicated()
    ensures var p := ExportedProduct(Some("Rib 40"), None, Some(1000.0), None);
            var data := Some(ExportData(Some([p]), None, None, None));
            var empty := Db([], [], [], None, 1);
            var once := MigrateAsWritten(empty, data);
            once.Migrated? && |once.db.products| == 1
            && MigrateAsWritten(once.db, data).Migrated? && |MigrateAsWritten(once.db, data).db.products| == 2
  {
    var p := ExportedProduct(Some("Rib 40"), None, Some(1000.0), None);
    assert [p][1..] == [];
  }

  /** A body carrying only the shop logo is rejected as written and imported
      by the corrected gate. */
  lemma LogoOnlyRejected()
    ensures var data := Some(ExportData(None, None, None, Some("https://example.com/logo.png")));
            MigrateAsWritten(Db([], [], [], None, 1), data) == BadRequest
            && Migrate(Db([], [], [], None, 1), data).Migrated?
            && Migrate(Db([], [], [], None, 1), data).db.logo == Some("https://example.com/logo.png")
  {
  }
}
