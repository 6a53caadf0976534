/** The brand page (brand.js): the products of one brand, the brand's logo
    and title, and the luxury-model strip shown for one brand. */
module BrandPage {
  import opened Basics
  import opened Seqs
  import opened Catalog
  import opened ImageProxy
  import ClientCache
  import BrandSummary

  /** The proxy settings the page runs with: its origin, the URL parser and
      the URI-component encoder. */
  datatype ProxyEnv = ProxyEnv(pageOrigin: string, originOf: UrlParser, encode: string -> string)

  function Proxy(env: ProxyEnv, url: string): string
  {
    ProxiedUrl(url, env.pageOrigin, env.originOf, env.encode)
  }

  // ---------------------------------------------------------------------
  // Product cards

  predicate ListedUnder(brandName: string, p: Product)
  {
    BrandKey(p) == brandName
  }

  /** The products shown: those listed under the requested brand, in cache
      order. */
  function BrandProducts(products: seq<Product>, brandName: string): seq<Product>
  {
    Filter(p => ListedUnder(brandName, p), products)
  }

  /** The image of a product card: the first image through the proxy, or the
      placeholder when the product has no (non-empty) first image. */
  function CardImage(env: ProxyEnv, p: Product): (r: BrandSummary.ImageSrc)
    ensures r.Placeholder? <==> BrandSummary.FirstImage(p).None?
    ensures r.Url? ==> r.url == Proxy(env, p.images[0])
  {
    if |p.images| > 0 && p.images[0] != "" then BrandSummary.Url(Proxy(env, p.images[0]))
    else BrandSummary.Placeholder
  }

  /** A product card: the link target, name, image and net price. */
  datatype Card = Card(productId: nat, name: string, image: BrandSummary.ImageSrc, price: real)

  function RenderCard(env: ProxyEnv, p: Product): Card
  {
    Card(p.id, p.name, CardImage(env, p), p.price)
  }

  datatype Grid = EmptyState | Cards(cards: seq<Card>)

  // ---------------------------------------------------------------------
  // Luxury-model strip

  /** The extra class of a strip image, which also fixes its clip-path. */
  datatype Position = First | Middle | Last | Alone

  /** The strip's position classes for `n` images: the first, the last, and
      the middle ones; a single image is both first and last and gets none. */
  function Positions(n: nat): (r: seq<Position>)
    ensures |r| == n
  {
    seq(n, k requires 0 <= k < n =>
      if k != 0 && k != n - 1 then Middle
      else if k != 0 then Last
      else if k != n - 1 then First
      else Alone)
  }

  /** The clip-path polygon of an image, if it has one. */
  function ClipPath(pos: Position): (r: Option<string>)
    ensures r.None? <==> pos == Alone
  {
    match pos
    case Middle => Some("polygon(2% 0%, 100% 0%, 98% 100%, 0% 100%)")
    case Last => Some("polygon(2% 0%, 100% 0%, 100% 100%, 0% 100%)")
    case First => Some("polygon(0% 0%, 98% 0%, 100% 100%, 0% 100%)")
    case Alone => None
  }

  /** A strip of two or more images opens with `First`, closes with `Last`
      and has `Middle` everywhere between; a one-image strip is `Alone`. */
  lemma PositionsShape(n: nat)
    ensures n >= 2 ==> Positions(n)[0] == First && Positions(n)[n - 1] == Last
                       && forall k :: 0 < k < n - 1 ==> Positions(n)[k] == Middle
    ensures n == 1 ==> Positions(n) == [Alone]
  {
  }

  /** The model thumbnails of the strip: image URL and caption. */
  datatype Model = Model(image: string, alt: string)

  const LuxuryModels: seq<Model> := [
    Model("https://cdn.prod.website-files.com/66fea88084a63f96ada4583c/6921b536c89775bca22a0aaf_E1F31112-85FC-49F5-A3F6-E9805C752F00_1_201_a-p-500.jpeg", "40SRC"),
    Model("https://cdn.prod.website-files.com/66fea88084a63f96ada4583c/674eced21ca3b15ecca46c0d_45SRC%20top--p-500.jpg", "45SRC"),
    Model("https://cdn.prod.website-files.com/66fea88084a63f96ada4583c/674ecee680b693672fb5ad91_45SRC%20Stern%20top--p-500.jpg", "45SRC Stern"),
    Model("https://cdn.prod.website-files.com/66fea88084a63f96ada4583c/6921b740386737526df998ac_40SR%20G2%20Thumbnail-p-500.jpeg", "40SR")
  ]

  /** The brand that has a strip. */
  const StripBrand: string := "Olympic Ribs"

  /** A rendered strip image. */
  datatype StripItem = StripItem(src: string, alt: string, position: Position, clipPath: Option<string>)

  /** `renderLuxuryModels`: hidden for every brand but one. */
  function LuxuryStrip(env: ProxyEnv, title: string): (r: Option<seq<StripItem>>)
    ensures r.Some? <==> title == StripBrand
    ensures r.Some? ==> |r.value| == |LuxuryModels|
    ensures r.Some? ==> forall k :: 0 <= k < |r.value| ==>
                          r.value[k].alt == LuxuryModels[k].alt && r.value[k].clipPath == ClipPath(r.value[k].position)
  {
    if title != StripBrand then None
    else
      var pos := Positions(|LuxuryModels|);
      Some(seq(|LuxuryModels|, k requires 0 <= k < |LuxuryModels| =>
        StripItem(Proxy(env, LuxuryModels[k].image), LuxuryModels[k].alt, pos[k], ClipPath(pos[k]))))
  }

  /** The Olympic Ribs strip runs First, Middle, Middle, Last, every image
      clipped. */
  lemma StripLayout(env: ProxyEnv)
    ensures var s := LuxuryStrip(env, StripBrand).value;
            [s[0].position, s[1].position, s[2].position, s[3].position] == [First, Middle, Middle, Last]
            && forall k :: 0 <= k < |s| ==> s[k].clipPath.Some?
  {
    PositionsShape(4);
  }

  // ---------------------------------------------------------------------
  // The page

  /** The rendered page: the title, the proxied brand logo if the brand has a
      non-empty one, the strip, and the product grid. */
  datatype View = View(title: string, logo: Option<string>, strip: Option<seq<StripItem>>, grid: Grid)

  /** Without a `brand` parameter the page sends the visitor to the index.
      When the second decoding of the name throws, `renderProducts` stops
      before it touches the page, which then shows neither cards nor the
      empty state. */
  datatype Page = RedirectToIndex | Aborted | Shown(view: View)

  /** `decodeURIComponent`: the decoded text, or `None` where it throws a
      `URIError`. */
  type UriDecoder = string -> Option<string>

  /** The page for the `brand` query parameter (already URL-decoded by
      `URLSearchParams`); `decode` is the second `decodeURIComponent` applied
      for the title and the logo lookup. */
  function RenderPage(c: ClientCache.Cache, brandParam: Option<string>, decode: UriDecoder, env: ProxyEnv): (r: Page)
    ensures r.RedirectToIndex? <==> brandParam.None? || brandParam.value == ""
    ensures r.Aborted? <==> brandParam.Some? && brandParam.value != "" && decode(brandParam.value).None?
    ensures r.Shown? ==> (r.view.grid.EmptyState? <==> |BrandProducts(c.products, brandParam.value)| == 0)
    ensures r.Shown? && r.view.grid.Cards? ==> r.view.grid.cards == Map(p => RenderCard(env, p), BrandProducts(c.products, brandParam.value))
    ensures r.Shown? ==> r.view.title == decode(brandParam.value).value
    ensures r.Shown? ==> (r.view.strip.Some? <==> r.view.title == StripBrand)
    ensures r.Shown? ==> (r.view.logo.Some? <==> ClientCache.GetBrandByName(c, r.view.title).Some?
                                                 && ClientCache.GetBrandByName(c, r.view.title).value.logo != "")
  {
    if brandParam.None? || brandParam.value == "" then RedirectToIndex
    else
      var brandName := brandParam.value;
      match decode(brandName)
      case None => Aborted
      case Some(title) =>
        var shown := BrandProducts(c.products, brandName);
        var brand := ClientCache.GetBrandByName(c, title);
        var logo := if brand.Some? && brand.value.logo != "" then Some(Proxy(env, brand.value.logo)) else None;
        var grid := if |shown| == 0 then EmptyState else Cards(Map(p => RenderCard(env, p), shown));
        Shown(View(title, logo, LuxuryStrip(env, title), grid))
  }

  predicate IsHexDigit(c: char)
  {
    '0' <= c <= '9' || 'a' <= c <= 'f' || 'A' <= c <= 'F'
  }

  /** A '%' at `i` that is not followed by two hex digits, on which
      `decodeURIComponent` throws a `URIError` under ECMA-262. */
  predicate BadEscapeAt(s: string, i: int)
  {
    0 <= i < |s| && s[i] == '%' && !(i + 2 < |s| && IsHexDigit(s[i + 1]) && IsHexDigit(s[i + 2]))
  }

  /** A decoder that throws wherever ECMA-262 says `decodeURIComponent` does
      on a malformed escape. */
  ghost predicate ThrowsOnBadEscape(decode: UriDecoder)
  {
    forall s: string, i: int :: BadEscapeAt(s, i) ==> decode(s).None?
  }

  /** A brand whose name holds a '%' is linked with it escaped as "%25", so
      `URLSearchParams` hands the page the bare '%'. The second decoding then
      throws, and the page for "50% Off" shows neither cards nor the empty
      state, whatever the cache holds. */
  lemma PercentBrandAborts(c: ClientCache.Cache, decode: UriDecoder, env: ProxyEnv)
    requires ThrowsOnBadEscape(decode)
    ensures RenderPage(c, Some("50% Off"), decode, env).Aborted?
  {
    assert BadEscapeAt("50% Off", 2);
  }

  // ---------------------------------------------------------------------
  // Agreement with the brand cards

  /** A product is shown iff it is in the cache and listed under the brand. */
  lemma ShownIffListed(products: seq<Product>, brandName: string, p: Product)
    ensures p in BrandProducts(products, brandName) <==> p in products && BrandKey(p) == brandName
  {
  }

  /** The number of products shown is the count `getAllBrands` gives the
      brand. */
  lemma {:induction false} ShownCount(products: seq<Product>, key: string)
    ensures |BrandProducts(products, key)| == BrandSummary.CountOf(products, key)
    decreases |products|
  {
    if |products| > 0 {
      var init, last := products[..|products| - 1], products[|products| - 1];
      assert products == init + [last];
      FilterAppend(p => ListedUnder(key, p), init, [last]);
      ShownCount(init, key);
    }
  }

  /** Each brand card on the index and landing pages leads to a page showing
      as many products as the card's count, and only an unused brand name
      leads to the empty state. */
  lemma BrandCardMatchesPage(products: seq<Product>, brands: seq<Brand>, i: nat)
    requires i < |BrandSummary.AllBrands(products, brands)|
    ensures var e := BrandSummary.AllBrands(products, brands)[i];
            |BrandProducts(products, e.name)| == e.productCount && e.productCount > 0
  {
    var e := BrandSummary.AllBrands(products, brands)[i];
    BrandSummary.AllBrandsEntries(products, brands, i);
    ShownCount(products, e.name);
    var m :| 0 <= m < |products| && BrandKeys(products)[m] == e.name;
    assert products[m] in BrandProducts(products, e.name);
  }

  /** Opening a brand card's link: when the second decoding accepts the
      brand name, the page shows one card per product the brand card counts,
      never the empty state; when it throws, the page renders nothing. */
  lemma BrandCardOpensPage(c: ClientCache.Cache, brands: seq<Brand>, i: nat, decode: UriDecoder, env: ProxyEnv)
    requires i < |BrandSummary.AllBrands(c.products, brands)|
    ensures var e := BrandSummary.AllBrands(c.products, brands)[i];
            var r := RenderPage(c, Some(e.name), decode, env);
            (decode(e.name).None? ==> r.Aborted?)
            && (decode(e.name).Some? ==> r.Shown? && r.view.grid.Cards? && |r.view.grid.cards| == e.productCount)
  {
    var e := BrandSummary.AllBrands(c.products, brands)[i];
    BrandCardMatchesPage(c.products, brands, i);
    BrandSummary.AllBrandsEntries(c.products, brands, i);
    var m :| 0 <= m < |c.products| && BrandKeys(c.products)[m] == e.name;
    assert e.name == BrandKey(c.products[m]);
  }

  /** The images of a brand card are the first images of the first four
      products its brand page shows with an image. */
  lemma {:induction false} ShownImages(products: seq<Product>, key: string)
    ensures BrandSummary.ImagesOf(products, key)
            == FlatMap(ImageList, BrandProducts(products, key))
    decreases |products|
  {
    if |products| > 0 {
      var init, last := products[..|products| - 1], products[|products| - 1];
      assert products == init + [last];
      FilterAppend(p => ListedUnder(key, p), init, [last]);
      FlatMapAppend(ImageList, BrandProducts(init, key), BrandProducts([last], key));
      ShownImages(init, key);
      assert FlatMap(ImageList, [last]) == ImageList(last) by {
        assert FlatMap(ImageList, [last][1..]) == [];
      }
    }
  }

  /** The first image of a product as a zero- or one-element list. */
  function ImageList(p: Product): seq<string>
  {
    match BrandSummary.FirstImage(p)
    case None => []
    case Some(u) => [u]
  }

  /** A brand card's images are the first four product images its brand page
      shows, in the same order. */
  lemma BrandCardImages(products: seq<Product>, brands: seq<Brand>, i: nat)
    requires i < |BrandSummary.AllBrands(products, brands)|
    ensures var e := BrandSummary.AllBrands(products, brands)[i];
            e.images == BrandSummary.Take4(FlatMap(ImageList, BrandProducts(products, e.name)))
  {
    var e := BrandSummary.AllBrands(products, brands)[i];
    BrandSummary.AllBrandsEntries(products, brands, i);
    ShownImages(products, e.name);
  }
}
