/** The storefront's entities as the browser and the REST API exchange them:
    products with their options, choices and standard equipment, and the
    managed brands. */
module Catalog {
  import opened Basics
  import opened Seqs

  /** `option.type`: the admin form offers "radio" and "checkbox"; any other
      text is carried along and ignored by the option handlers. */
  datatype OptionKind = Radio | Checkbox | OtherKind(raw: string)

  /** One selectable value of an option with its price delta (excl. VAT). The
      source's `label` is called `caption` here (`label` is a Dafny keyword). */
  datatype Choice = Choice(caption: string, price: real)

  /** A customisation axis of a product. */
  datatype ProductOption = ProductOption(name: string, kind: OptionKind, required: bool, choices: seq<Choice>)

  /** A standard-equipment entry: a legacy plain string, or a headed group of items. */
  datatype Equipment = Plain(text: string) | Group(header: string, items: seq<string>)

  /** A product as served by `GET /api/products`. `category` is the brand name,
      empty when unset; `specs` keeps the stored key order. */
  datatype Product = Product(
    id: nat,
    name: string,
    category: string,
    price: real,
    stock: int,
    description: string,
    standardEquipment: seq<Equipment>,
    specs: seq<(string, string)>,
    images: seq<string>,
    options: seq<ProductOption>,
    displayOrder: int,
    specsColumns: int)

  /** The body of a product create or update request. An absent `displayOrder`
      or `specsColumns` is `None`. */
  datatype ProductInput = ProductInput(
    name: string,
    category: string,
    price: real,
    stock: int,
    description: string,
    standardEquipment: seq<Equipment>,
    specs: seq<(string, string)>,
    images: seq<string>,
    options: seq<ProductOption>,
    displayOrder: Option<int>,
    specsColumns: Option<int>)

  /** A brand from brand management. */
  datatype Brand = Brand(id: nat, name: string, logo: string)

  const NoBrand: string := "No Brand"

  /** The brand a product is listed under: `product.category || 'No Brand'`. */
  function BrandKey(p: Product): (k: string)
    ensures k != ""
    ensures p.category != "" ==> k == p.category
    ensures p.category == "" ==> k == NoBrand
  {
    if p.category == "" then NoBrand else p.category
  }

  /** The brand key of each product, in catalogue order. */
  function BrandKeys(products: seq<Product>): seq<string>
  {
    Map(BrandKey, products)
  }

  /** `xs.find(p)`: the first element that satisfies `p`, if any. */
  function Find<T>(p: T -> bool, xs: seq<T>): (r: Option<T>)
    ensures r.None? <==> forall k :: 0 <= k < |xs| ==> !p(xs[k])
    ensures r.Some? ==> exists k :: 0 <= k < |xs| && xs[k] == r.value
                                   && (forall j :: 0 <= j < k ==> !p(xs[j]))
    ensures r.Some? ==> p(r.value)
  {
    if |xs| == 0 then None
    else if p(xs[0]) then Some(xs[0])
    else Find(p, xs[1..])
  }

  /** `product.options.find(o => o.name === name)`. */
  function FindOption(options: seq<ProductOption>, name: string): Option<ProductOption>
  {
    Find((o: ProductOption) => o.name == name, options)
  }

  /** `option.choices.find(c => c.label === caption)`. */
  function FindChoice(choices: seq<Choice>, caption: string): Option<Choice>
  {
    Find((c: Choice) => c.caption == caption, choices)
  }
}
