/** The brand cards of the catalogue and landing pages: `getAllBrands`, which
    index.js and landing.js define identically, and the image grid of a
    card. */
module BrandSummary {
  import opened Basics
  import opened Text
  import opened Seqs
  import opened Sorting
  import opened Catalog

  /** An entry of `getAllBrands`: the brand key, its product count, up to four
      product images, and the logo of the managed brand so named (`None` for
      the source's `null`). */
  datatype BrandEntry = BrandEntry(name: string, productCount: nat, images: seq<string>, logo: Option<string>)

  /** `product.images && product.images[0]`: the first image, when it is a
      non-empty text. */
  function FirstImage(p: Product): Option<string>
  {
    if |p.images| > 0 && p.images[0] != "" then Some(p.images[0]) else None
  }

  /** `brandData.find(b => b.name === name)`, then its logo. */
  function LogoFor(brands: seq<Brand>, name: string): (r: Option<string>)
    ensures r.None? <==> forall i :: 0 <= i < |brands| ==> brands[i].name != name
    ensures r.Some? ==> exists i :: 0 <= i < |brands| && brands[i].name == name && brands[i].logo == r.value
                                   && forall j :: 0 <= j < i ==> brands[j].name != name
  {
    if |brands| == 0 then None
    else if brands[0].name == name then Some(brands[0].logo)
    else
      var r := LogoFor(brands[1..], name);
      assert r.Some? ==> exists i :: 1 <= i < |brands| && brands[i].name == name && brands[i].logo == r.value
                                     && forall j :: 0 <= j < i ==> brands[j].name != name
        by {
        if r.Some? {
          var i :| 0 <= i < |brands[1..]| && brands[1..][i].name == name && brands[1..][i].logo == r.value
                   && forall j :: 0 <= j < i ==> brands[1..][j].name != name;
          assert brands[i + 1] == brands[1..][i];
          assert forall j :: 1 <= j < i + 1 ==> brands[j] == brands[1..][j - 1];
        }
      }
      r
  }

  // ---------------------------------------------------------------------
  // The loop as written

  /** The entry created the first time a brand key is met. */
  function NewEntry(brands: seq<Brand>, key: string): BrandEntry
  {
    BrandEntry(key, 0, [], LogoFor(brands, key))
  }

  /** The loop body on the entry of the product's brand: one more product,
      and its first image while fewer than four are held. */
  function Tally(e: BrandEntry, p: Product): BrandEntry
  {
    var img := FirstImage(p);
    e.(productCount := e.productCount + 1,
       images := if img.Some? && |e.images| < 4 then e.images + [img.value] else e.images)
  }

  /** Where the entry for `name` sits among the object's values. */
  function IndexOf(es: seq<BrandEntry>, name: string): (r: Option<nat>)
    ensures r.None? <==> forall i :: 0 <= i < |es| ==> es[i].name != name
    ensures r.Some? ==> r.value < |es| && es[r.value].name == name
  {
    if |es| == 0 then None
    else if es[0].name == name then Some(0)
    else match IndexOf(es[1..], name)
      case None => None
      case Some(i) => Some(i + 1)
  }

  /** One iteration of `allProducts.forEach`; `es` holds `Object.values(brands)`
      in key insertion order. */
  function Visit(es: seq<BrandEntry>, brands: seq<Brand>, p: Product): seq<BrandEntry>
  {
    var key := BrandKey(p);
    match IndexOf(es, key)
    case None => es + [Tally(NewEntry(brands, key), p)]
    case Some(i) => es[i := Tally(es[i], p)]
  }

  /** The object after the loop over the products. */
  function Collect(products: seq<Product>, brands: seq<Brand>): seq<BrandEntry>
  {
    if |products| == 0 then []
    else Visit(Collect(products[..|products| - 1], brands), brands, products[|products| - 1])
  }

  /** The comparator `a.name.localeCompare(b.name)`, as code-point order. */
  predicate NameLeq(a: BrandEntry, b: BrandEntry)
  {
    StrLeq(a.name, b.name)
  }

  lemma NameOrder()
    ensures Total(NameLeq) && Transitive(NameLeq)
  {
    StrLeqOrder();
  }

  /** `getAllBrands`: the entries sorted by name. */
  function AllBrands(products: seq<Product>, brands: seq<Brand>): seq<BrandEntry>
  {
    NameOrder();
    Sort(Collect(products, brands), NameLeq)
  }

  // ---------------------------------------------------------------------
  // What an entry should hold

  /** The number of products listed under `key`. */
  function CountOf(products: seq<Product>, key: string): nat
  {
    if |products| == 0 then 0
    else CountOf(products[..|products| - 1], key) + (if BrandKey(products[|products| - 1]) == key then 1 else 0)
  }

  /** The non-empty first images of the products listed under `key`, in
      catalogue order. */
  function ImagesOf(products: seq<Product>, key: string): seq<string>
  {
    if |products| == 0 then []
    else
      var p := products[|products| - 1];
      ImagesOf(products[..|products| - 1], key) + (if BrandKey(p) == key && FirstImage(p).Some? then [FirstImage(p).value] else [])
  }

  /** At most the first four. */
  function Take4(xs: seq<string>): seq<string>
  {
    if |xs| <= 4 then xs else xs[..4]
  }

  /** The entry `key` should have: all its products counted, the first four of
      their images, and the managed logo. */
  function Expected(products: seq<Product>, brands: seq<Brand>, key: string): BrandEntry
  {
    BrandEntry(key, CountOf(products, key), Take4(ImagesOf(products, key)), LogoFor(brands, key))
  }

  function Names(es: seq<BrandEntry>): seq<string>
  {
    Map((e: BrandEntry) => e.name, es)
  }

  lemma Take4Append(xs: seq<string>, y: string)
    ensures Take4(xs + [y]) == if |xs| < 4 then Take4(xs) + [y] else Take4(xs)
  {
    if |xs| >= 4 {
      assert (xs + [y])[..4] == xs[..4];
    }
  }

  /** Adding a product changes only its own brand's expected entry, by one
      tally. */
  lemma ExpectedStep(init: seq<Product>, brands: seq<Brand>, p: Product, key: string)
    ensures Expected(init + [p], brands, key)
            == if BrandKey(p) == key then Tally(Expected(init, brands, key), p) else Expected(init, brands, key)
  {
    var ps := init + [p];
    assert ps[..|ps| - 1] == init && ps[|ps| - 1] == p;
    if BrandKey(p) == key && FirstImage(p).Some? {
      Take4Append(ImagesOf(init, key), FirstImage(p).value);
    }
  }

  /** A brand no product has yet expects a fresh entry. */
  lemma {:induction false} ExpectedAbsent(init: seq<Product>, brands: seq<Brand>, key: string)
    requires key !in BrandKeys(init)
    ensures Expected(init, brands, key) == NewEntry(brands, key)
    decreases |init|
  {
    if |init| > 0 {
      var front, last := init[..|init| - 1], init[|init| - 1];
      assert init == front + [last];
      MapAppend(BrandKey, front, [last]);
      assert BrandKeys(init) == BrandKeys(front) + [BrandKey(last)];
      ExpectedAbsent(front, brands, key);
      ExpectedStep(front, brands, last, key);
    }
  }

  /** The key sequence of a longer catalogue. */
  lemma KeysStep(init: seq<Product>, p: Product)
    ensures BrandKeys(init + [p]) == BrandKeys(init) + [BrandKey(p)]
    ensures Distinct(BrandKeys(init + [p]))
            == if BrandKey(p) in Distinct(BrandKeys(init)) then Distinct(BrandKeys(init))
               else Distinct(BrandKeys(init)) + [BrandKey(p)]
  {
    MapAppend(BrandKey, init, [p]);
    var ks := BrandKeys(init + [p]);
    assert ks[..|ks| - 1] == BrandKeys(init);
    assert BrandKey(p) in Distinct(BrandKeys(init)) <==> BrandKey(p) in multiset(Distinct(BrandKeys(init)));
  }

  /** The object holds one entry per brand key, in the order the keys are
      first met, and each entry is the expected one. */
  lemma {:induction false} CollectMeaning(products: seq<Product>, brands: seq<Brand>)
    ensures var es := Collect(products, brands);
            Names(es) == Distinct(BrandKeys(products))
            && forall i :: 0 <= i < |es| ==> es[i] == Expected(products, brands, es[i].name)
    decreases |products|
  {
    if |products| > 0 {
      var init := products[..|products| - 1];
      var p := products[|products| - 1];
      assert products == init + [p];
      CollectMeaning(init, brands);
      KeysStep(init, p);
      var es0 := Collect(init, brands);
      var key := BrandKey(p);
      match IndexOf(es0, key)
      case None =>
        VisitNewNames(init, brands, p);
        VisitNew(init, brands, p);
      case Some(i) =>
        VisitOld(init, brands, p, i);
    }
  }

  /** The step for a brand not met before: its key joins the names. */
  lemma VisitNewNames(init: seq<Product>, brands: seq<Brand>, p: Product)
    requires Names(Collect(init, brands)) == Distinct(BrandKeys(init))
    requires IndexOf(Collect(init, brands), BrandKey(p)).None?
    ensures Names(Visit(Collect(init, brands), brands, p)) == Distinct(BrandKeys(init)) + [BrandKey(p)]
  {
    var es0 := Collect(init, brands);
    var key := BrandKey(p);
    assert Visit(es0, brands, p) == es0 + [Tally(NewEntry(brands, key), p)];
    MapAppend((e: BrandEntry) => e.name, es0, [Tally(NewEntry(brands, key), p)]);
  }

  /** A key missing from the entries is missing from the products. */
  lemma AbsentKey(init: seq<Product>, brands: seq<Brand>, key: string)
    requires Names(Collect(init, brands)) == Distinct(BrandKeys(init))
    requires IndexOf(Collect(init, brands), key).None?
    ensures key !in BrandKeys(init)
  {
  }

  /** The step for a brand not met before: every entry is as expected. */
  lemma VisitNew(init: seq<Product>, brands: seq<Brand>, p: Product)
    requires var es := Collect(init, brands);
             Names(es) == Distinct(BrandKeys(init))
             && forall i :: 0 <= i < |es| ==> es[i] == Expected(init, brands, es[i].name)
    requires IndexOf(Collect(init, brands), BrandKey(p)).None?
    ensures var es := Visit(Collect(init, brands), brands, p);
            forall i :: 0 <= i < |es| ==> es[i] == Expected(init + [p], brands, es[i].name)
  {
    var es0 := Collect(init, brands);
    var key := BrandKey(p);
    var es := Visit(es0, brands, p);
    assert es == es0 + [Tally(NewEntry(brands, key), p)];
    AbsentKey(init, brands, key);
    ExpectedAbsent(init, brands, key);
    forall i | 0 <= i < |es| ensures es[i] == Expected(init + [p], brands, es[i].name) {
      ExpectedStep(init, brands, p, es[i].name);
      if i < |es0| {
        assert es[i] == es0[i];
        assert es0[i].name != key;
      }
    }
  }

  /** The step for a brand already met, whose entry sits at `k`. */
  lemma VisitOld(init: seq<Product>, brands: seq<Brand>, p: Product, k: nat)
    requires var es := Collect(init, brands);
             Names(es) == Distinct(BrandKeys(init))
             && forall i :: 0 <= i < |es| ==> es[i] == Expected(init, brands, es[i].name)
    requires IndexOf(Collect(init, brands), BrandKey(p)) == Some(k)
    ensures var es := Visit(Collect(init, brands), brands, p);
            Names(es) == Distinct(BrandKeys(init))
            && forall i :: 0 <= i < |es| ==> es[i] == Expected(init + [p], brands, es[i].name)
  {
    var es0 := Collect(init, brands);
    var key := BrandKey(p);
    var es := Visit(es0, brands, p);
    assert es == es0[k := Tally(es0[k], p)];
    assert Names(es) == Names(es0) by {
      assert forall i :: 0 <= i < |es| ==> es[i].name == es0[i].name;
    }
    DistinctNoDuplicates(BrandKeys(init));
    forall i | 0 <= i < |es| ensures es[i] == Expected(init + [p], brands, es[i].name) {
      ExpectedStep(init, brands, p, es[i].name);
      if i != k {
        assert Names(es0)[i] != Names(es0)[k];
      }
    }
  }

  // ---------------------------------------------------------------------
  // Properties of getAllBrands

  /** Every entry is the expected one for its name, and its name is the brand
      key of some product. */
  lemma AllBrandsEntries(products: seq<Product>, brands: seq<Brand>, i: nat)
    requires i < |AllBrands(products, brands)|
    ensures var e := AllBrands(products, brands)[i];
            e == Expected(products, brands, e.name) && e.name in BrandKeys(products)
  {
    var es := Collect(products, brands);
    var e := AllBrands(products, brands)[i];
    CollectMeaning(products, brands);
    assert e in multiset(es);
    var m :| 0 <= m < |es| && es[m] == e;
    assert Names(es)[m] == e.name;
    assert e.name in multiset(Distinct(BrandKeys(products)));
  }

  /** The names of the sorted entries are the brand keys, once each. */
  lemma AllBrandsNames(products: seq<Product>, brands: seq<Brand>)
    ensures forall x :: multiset(Names(AllBrands(products, brands)))[x] == if x in BrandKeys(products) then 1 else 0
  {
    CollectMeaning(products, brands);
    MapPermutation((e: BrandEntry) => e.name, Collect(products, brands), AllBrands(products, brands));
  }

  /** No two entries share a name, and the entries are in name order. */
  lemma AllBrandsOrdered(products: seq<Product>, brands: seq<Brand>)
    ensures var r := AllBrands(products, brands);
            forall i, j :: 0 <= i < j < |r| ==> r[i].name != r[j].name && StrLeq(r[i].name, r[j].name)
  {
    var r := AllBrands(products, brands);
    NameOrder();
    SortedAllPairs(r, NameLeq);
    AllBrandsNames(products, brands);
    CountsNoDuplicates(Names(r));
    forall i, j | 0 <= i < j < |r| ensures r[i].name != r[j].name {
      assert Names(r)[i] == r[i].name && Names(r)[j] == r[j].name;
    }
  }

  /** Every product's brand key has an entry. */
  lemma AllBrandsCover(products: seq<Product>, brands: seq<Brand>, p: Product)
    requires p in products
    ensures exists i :: 0 <= i < |AllBrands(products, brands)| && AllBrands(products, brands)[i].name == BrandKey(p)
  {
    var r := AllBrands(products, brands);
    AllBrandsNames(products, brands);
    var m :| 0 <= m < |products| && products[m] == p;
    assert BrandKeys(products)[m] == BrandKey(p);
    assert BrandKey(p) in multiset(Names(r));
    var i :| 0 <= i < |r| && Names(r)[i] == BrandKey(p);
  }

  function ProductCount(e: BrandEntry): int
  {
    e.productCount
  }

  /** The product counts add up to the number of products. */
  lemma {:induction false} CollectTotal(products: seq<Product>, brands: seq<Brand>)
    ensures Sum(ProductCount, Collect(products, brands)) == |products|
    decreases |products|
  {
    if |products| > 0 {
      var init := products[..|products| - 1];
      var p := products[|products| - 1];
      var es0 := Collect(init, brands);
      CollectTotal(init, brands);
      match IndexOf(es0, BrandKey(p))
      case None =>
        SumAppend(ProductCount, es0, [Tally(NewEntry(brands, BrandKey(p)), p)]);
      case Some(k) =>
        SumUpdate(ProductCount, es0, k, Tally(es0[k], p));
    }
  }

  /** The entries' product counts add up to the number of products. */
  lemma AllBrandsTotal(products: seq<Product>, brands: seq<Brand>)
    ensures Sum(ProductCount, AllBrands(products, brands)) == |products|
  {
    CollectTotal(products, brands);
    SumPermutation(ProductCount, Collect(products, brands), AllBrands(products, brands));
  }

  // ---------------------------------------------------------------------
  // Card image grid

  /** An image source of a card: a URL or the inline "No Image" placeholder. */
  datatype ImageSrc = Url(url: string) | Placeholder

  /** `renderBrands`: the images of the card, or the placeholder alone when
      there are none; the first `min(n, 4)` are shown, an empty one replaced
      by the first (`images[k] || images[0]`). */
  function GridImages(images: seq<string>): (r: seq<ImageSrc>)
    ensures 1 <= |r| <= 4
    ensures |images| == 0 <==> r == [Placeholder]
  {
    if |images| == 0 then [Placeholder]
    else
      var n := if |images| < 4 then |images| else 4;
      var r := seq(n, k requires 0 <= k < n => if k > 0 && images[k] == "" then Url(images[0]) else Url(images[k]));
      assert r[0] == Url(images[0]);
      r
  }

  /** An entry's card shows its images as they are. */
  lemma GridShowsEntryImages(products: seq<Product>, brands: seq<Brand>, i: nat)
    requires i < |AllBrands(products, brands)|
    ensures var e := AllBrands(products, brands)[i];
            GridImages(e.images) == if |e.images| == 0 then [Placeholder] else Map((u: string) => Url(u), e.images)
  {
    var e := AllBrands(products, brands)[i];
    AllBrandsEntries(products, brands, i);
    ImagesOfNonEmpty(products, e.name);
  }

  /** The collected images are non-empty texts. */
  lemma {:induction false} ImagesOfNonEmpty(products: seq<Product>, key: string)
    ensures forall k :: 0 <= k < |ImagesOf(products, key)| ==> ImagesOf(products, key)[k] != ""
    decreases |products|
  {
    if |products| > 0 {
      ImagesOfNonEmpty(products[..|products| - 1], key);
    }
  }
}
