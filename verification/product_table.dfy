/** The admin product table (`renderProductsTable` in admin.js): the products
    in display order, cut into one section per brand, the sections in name
    order. */
module ProductTable {
  import opened Catalog
  import opened Text
  import opened Seqs
  import opened Sorting
  import ProductStore

  /** The table comparator: display order first, then the numeric id. The
      source's `displayOrder || 0` is the identity here, since a product
      always carries a number. */
  predicate RowLeq(a: Product, b: Product)
  {
    a.displayOrder < b.displayOrder || (a.displayOrder == b.displayOrder && a.id <= b.id)
  }

  lemma RowOrder()
    ensures Total(RowLeq) && Transitive(RowLeq)
  {
  }

  /** The products in table order. */
  function SortRows(products: seq<Product>): (r: seq<Product>)
    ensures multiset(r) == multiset(products)
    ensures SortedPairs(r, RowLeq)
  {
    RowOrder();
    var r := Sort(products, RowLeq);
    SortedAllPairs(r, RowLeq);
    r
  }

  /** With unique ids no two products tie, so the table order is the same
      whatever order the products arrive in. */
  lemma SortRowsCanonical(a: seq<Product>, b: seq<Product>)
    requires ProductStore.UniqueIds(a) && multiset(a) == multiset(b)
    ensures SortRows(a) == SortRows(b)
  {
    var ra, rb := SortRows(a), SortRows(b);
    forall x, y | x in ra && y in ra && RowLeq(x, y) && RowLeq(y, x) ensures x == y {
      assert x in multiset(a) && y in multiset(a);
      var i :| 0 <= i < |a| && a[i] == x;
      var j :| 0 <= j < |a| && a[j] == y;
      assert i == j;
    }
    SortedUnique(ra, rb, RowLeq);
  }

  /** `productsByBrand[brand]`: the rows of one brand in table order. */
  function GroupRows(sorted: seq<Product>, brand: string): seq<Product>
  {
    Filter((p: Product) => BrandKey(p) == brand, sorted)
  }

  /** A brand header and the rows under it. */
  datatype Section = Section(brand: string, rows: seq<Product>)

  /** The sorted brand keys: `Object.keys(productsByBrand)` in name order. */
  function SectionKeys(sorted: seq<Product>): seq<string>
  {
    StrLeqOrder();
    Sort(Distinct(BrandKeys(sorted)), StrLeq)
  }

  /** The rendered table; an empty catalogue renders no sections (the source
      shows a "No products found" row instead). */
  function Table(products: seq<Product>): seq<Section>
  {
    var sorted := SortRows(products);
    Map((k: string) => Section(k, GroupRows(sorted, k)), SectionKeys(sorted))
  }

  /** The product rows of the table, top to bottom. */
  function RowsOf(t: seq<Section>): seq<Product>
  {
    FlatMap((s: Section) => s.rows, t)
  }

  /** The section keys occur once each, in name order, and are exactly the
      brand keys of the products. */
  lemma SectionKeysShape(sorted: seq<Product>)
    ensures var keys := SectionKeys(sorted);
            forall x :: multiset(keys)[x] == if x in BrandKeys(sorted) then 1 else 0
    ensures SortedPairs(SectionKeys(sorted), StrLeq)
  {
    StrLeqOrder();
    SortedAllPairs(SectionKeys(sorted), StrLeq);
  }

  /** The table has one section per section key, in order. */
  lemma TableSections(products: seq<Product>)
    ensures var sorted := SortRows(products);
            var keys := SectionKeys(sorted);
            var t := Table(products);
            |t| == |keys| && forall i :: 0 <= i < |t| ==> t[i] == Section(keys[i], GroupRows(sorted, keys[i]))
  {
  }

  /** Each section key is the brand key of some product. */
  lemma KeysFromProducts(products: seq<Product>, i: nat)
    requires i < |SectionKeys(SortRows(products))|
    ensures exists p :: p in products && BrandKey(p) == SectionKeys(SortRows(products))[i]
  {
    var sorted := SortRows(products);
    var keys := SectionKeys(sorted);
    SectionKeysShape(sorted);
    assert keys[i] in multiset(keys);
    var m :| 0 <= m < |sorted| && BrandKeys(sorted)[m] == keys[i];
    assert sorted[m] in multiset(products);
  }

  /** Each product's brand key is a section key. */
  lemma ProductsHaveKeys(products: seq<Product>, p: Product)
    requires p in products
    ensures BrandKey(p) in SectionKeys(SortRows(products))
  {
    var sorted := SortRows(products);
    var keys := SectionKeys(sorted);
    SectionKeysShape(sorted);
    assert p in multiset(sorted);
    var m :| 0 <= m < |sorted| && sorted[m] == p;
    assert BrandKeys(sorted)[m] == BrandKey(p);
    assert BrandKey(p) in multiset(keys);
  }

  /** Sections are headed by distinct brands, in name order. */
  lemma TableBrandsOrdered(products: seq<Product>)
    ensures var t := Table(products);
            forall i, j :: 0 <= i < j < |t| ==> t[i].brand != t[j].brand && StrLeq(t[i].brand, t[j].brand)
  {
    var sorted := SortRows(products);
    var keys := SectionKeys(sorted);
    TableSections(products);
    SectionKeysShape(sorted);
    CountsNoDuplicates(keys);
  }

  /** Every section is the brand of some product. */
  lemma TableBrandsExist(products: seq<Product>)
    ensures var t := Table(products);
            forall i :: 0 <= i < |t| ==> exists p :: p in products && BrandKey(p) == t[i].brand
  {
    var t := Table(products);
    TableSections(products);
    forall i | 0 <= i < |t| ensures exists p :: p in products && BrandKey(p) == t[i].brand {
      KeysFromProducts(products, i);
    }
  }

  /** Every product's brand has a section. */
  lemma TableCoversBrands(products: seq<Product>)
    ensures var t := Table(products);
            forall p :: p in products ==> exists i :: 0 <= i < |t| && t[i].brand == BrandKey(p)
  {
    var keys := SectionKeys(SortRows(products));
    var t := Table(products);
    TableSections(products);
    forall p | p in products ensures exists i :: 0 <= i < |t| && t[i].brand == BrandKey(p) {
      ProductsHaveKeys(products, p);
      var i :| 0 <= i < |keys| && keys[i] == BrandKey(p);
      assert t[i].brand == BrandKey(p);
    }
  }

  /** A section holds exactly the products of its brand, in table order. */
  lemma TableSection(products: seq<Product>, i: nat)
    requires i < |Table(products)|
    ensures var s := Table(products)[i];
            forall p :: p in s.rows <==> p in products && BrandKey(p) == s.brand
    ensures SortedPairs(Table(products)[i].rows, RowLeq)
  {
    var sorted := SortRows(products);
    var s := Table(products)[i];
    assert s.rows == GroupRows(sorted, s.brand);
    forall p ensures p in sorted <==> p in products {
      assert p in sorted <==> p in multiset(sorted);
    }
    SortedPairsFilter(sorted, RowLeq, (p: Product) => BrandKey(p) == s.brand);
  }

  /** How often `p` occurs in the groups of some distinct keys. */
  lemma {:induction false} GroupsCount(sorted: seq<Product>, keys: seq<string>, p: Product)
    requires forall x :: multiset(keys)[x] <= 1
    ensures multiset(FlatMap((k: string) => GroupRows(sorted, k), keys))[p]
            == if BrandKey(p) in keys then multiset(sorted)[p] else 0
    decreases |keys|
  {
    if |keys| > 0 {
      var f := (k: string) => GroupRows(sorted, k);
      assert keys == [keys[0]] + keys[1..];
      assert multiset(keys[1..]) == multiset(keys) - multiset{keys[0]};
      GroupsCount(sorted, keys[1..], p);
      FilterCount((q: Product) => BrandKey(q) == keys[0], sorted, p);
      assert FlatMap(f, keys) == f(keys[0]) + FlatMap(f, keys[1..]);
    }
  }

  /** The table rows are the groups of the section keys, in key order. */
  lemma TableRows(products: seq<Product>)
    ensures var sorted := SortRows(products);
            RowsOf(Table(products)) == FlatMap((k: string) => GroupRows(sorted, k), SectionKeys(sorted))
  {
    var sorted := SortRows(products);
    FlatMapMap((s: Section) => s.rows, (k: string) => Section(k, GroupRows(sorted, k)),
               (k: string) => GroupRows(sorted, k), SectionKeys(sorted));
  }

  /** Every product appears in the table exactly as often as in the
      catalogue: the table is a rearrangement of the products. */
  lemma TableListsEachProductOnce(products: seq<Product>)
    ensures multiset(RowsOf(Table(products))) == multiset(products)
  {
    var sorted := SortRows(products);
    var keys := SectionKeys(sorted);
    TableRows(products);
    SectionKeysShape(sorted);
    forall p ensures multiset(RowsOf(Table(products)))[p] == multiset(products)[p] {
      GroupsCount(sorted, keys, p);
      if p in products {
        ProductsHaveKeys(products, p);
      } else {
        assert p !in multiset(sorted);
      }
    }
  }
}
