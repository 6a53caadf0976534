/** The product form and order list of the admin page (admin.js): the images
    field, the option rows, the order-status prompt, the brand dropdown and
    product duplication. */
module AdminForm {
  import opened Basics
  import opened Text
  import opened Seqs
  import opened Catalog
  import ProductStore

  // ---------------------------------------------------------------------
  // Images field

  /** A usable image URL: non-empty and trimmed. */
  predicate IsImageUrl(u: string)
  {
    u != "" && IsTrimmed(u)
  }

  /** One comma-separated piece of the field: its trimmed text, or nothing
      when that is empty. */
  function ImagePiece(piece: string): (r: seq<string>)
    ensures |r| <= 1 && (|r| == 1 ==> IsImageUrl(r[0]))
  {
    var u := Trim(piece);
    if u == "" then [] else [u]
  }

  /** The submit handler's images: the trimmed field split at each ',', every
      piece trimmed, the empty ones dropped; an empty field gives none. */
  function ParseImages(text: string): seq<string>
  {
    var t := Trim(text);
    if t == "" then [] else FlatMap(ImagePiece, Split(t, ","))
  }

  /** `openModal` fills the field with the images joined by ", ". */
  function ShowImages(images: seq<string>): string
  {
    Join(images, ", ")
  }

  /** Whatever is typed, the parsed images are non-empty and trimmed. */
  lemma ParseImagesClean(text: string)
    ensures forall k :: 0 <= k < |ParseImages(text)| ==> IsImageUrl(ParseImages(text)[k])
  {
    if Trim(text) != "" {
      FlatMapAll(ImagePiece, Split(Trim(text), ","), IsImageUrl);
    }
  }

  /** Each URL but the first with the space that ", " puts in front of it. */
  function Padded(urls: seq<string>): seq<string>
  {
    Map((u: string) => " " + u, urls)
  }

  /** Joining with ", " is joining with "," after padding all but the first. */
  lemma {:induction false} JoinCommaSpace(urls: seq<string>)
    requires |urls| >= 1
    ensures Join(urls, ", ") == Join([urls[0]] + Padded(urls[1..]), ",")
    decreases |urls|
  {
    if |urls| > 1 {
      var rest := urls[1..];
      JoinCommaSpace(rest);
      var parts := [rest[0]] + Padded(rest[1..]);
      assert Padded(rest) == [" " + rest[0]] + Padded(rest[1..]);
      JoinConsChar(' ', parts, ",");
      assert [[' '] + parts[0]] + parts[1..] == Padded(rest);
      JoinCons(urls[0], Padded(rest), ",");
      assert urls[0] + ", " + Join(rest, ", ") == urls[0] + "," + (" " + Join(rest, ", "));
    }
  }

  /** The field shown for a list of usable, comma-free URLs parses back to
      that list. */
  lemma ImagesRoundTrip(urls: seq<string>)
    requires forall k :: 0 <= k < |urls| ==> IsImageUrl(urls[k]) && ',' !in urls[k]
    ensures ParseImages(ShowImages(urls)) == urls
  {
    if |urls| > 0 {
      var shown := ShowImages(urls);
      JoinTrimmed(urls, ", ");
      JoinFirst(urls, ", ");
      assert Trim(shown) == shown && shown != "";
      var pieces := [urls[0]] + Padded(urls[1..]);
      JoinCommaSpace(urls);
      forall k | 0 <= k < |pieces| ensures SepFree(pieces[k], ",") && ImagePiece(pieces[k]) == [urls[k]] {
        if k == 0 {
          CharSepFree(urls[0], ',');
        } else {
          assert pieces[k] == " " + urls[k];
          CharSepFree(pieces[k], ',');
          TrimLeadingSpace(urls[k]);
        }
      }
      SplitJoin(pieces, ",");
      FlatMapSingletons(ImagePiece, pieces, urls);
    }
  }

  // ---------------------------------------------------------------------
  // Option rows

  /** What `JSON.parse` makes of a choices text: a syntax error, a value that
      is not an array, or an array of choices. */
  datatype ParsedChoices = NotJson | NotAnArray | ChoiceArray(choices: seq<Choice>)

  /** One option row of the form as read from its inputs; the choices text is
      the raw textarea content. */
  datatype OptionRow = OptionRow(name: string, kind: OptionKind, required: bool, choicesText: string)

  /** The row survives the submit handler: its trimmed name and trimmed
      choices text are non-empty and the text parses to an array. */
  predicate Kept(row: OptionRow, parse: string -> ParsedChoices)
  {
    Trim(row.name) != "" && Trim(row.choicesText) != "" && parse(Trim(row.choicesText)).ChoiceArray?
  }

  /** The option a kept row becomes: its trimmed name, its type and flag,
      and the parsed choices. */
  function RowToOption(row: OptionRow, parse: string -> ParsedChoices): ProductOption
  {
    var choices := match parse(Trim(row.choicesText)) case ChoiceArray(cs) => cs case _ => [];
    ProductOption(Trim(row.name), row.kind, row.required, choices)
  }

  /** The submit handler's step for one row: the option, or nothing (a parse
      error is logged and the row skipped). */
  function RowOptions(row: OptionRow, parse: string -> ParsedChoices): seq<ProductOption>
  {
    var name := Trim(row.name);
    var text := Trim(row.choicesText);
    if name != "" && text != "" then
      match parse(text)
      case ChoiceArray(choices) => [ProductOption(name, row.kind, row.required, choices)]
      case _ => []
    else []
  }

  /** The options saved with the product. */
  function CollectOptions(rows: seq<OptionRow>, parse: string -> ParsedChoices): seq<ProductOption>
  {
    FlatMap((row: OptionRow) => RowOptions(row, parse), rows)
  }

  /** The saved options are the kept rows, in form order, each carrying its
      trimmed name, type, required flag and parsed choices. */
  lemma {:induction false} CollectOptionsKept(rows: seq<OptionRow>, parse: string -> ParsedChoices)
    ensures CollectOptions(rows, parse)
            == Map((row: OptionRow) => RowToOption(row, parse),
                   Filter((row: OptionRow) => Kept(row, parse), rows))
    decreases |rows|
  {
    if |rows| > 0 {
      var row, rest := rows[0], rows[1..];
      var keep := (row: OptionRow) => Kept(row, parse);
      var toOption := (row: OptionRow) => RowToOption(row, parse);
      var head := if Kept(row, parse) then [row] else [];
      CollectOptionsKept(rest, parse);
      RowOptionsKept(row, parse);
      assert CollectOptions(rows, parse) == RowOptions(row, parse) + CollectOptions(rest, parse);
      assert Filter(keep, rows) == head + Filter(keep, rest);
      MapAppend(toOption, head, Filter(keep, rest));
      assert Map(toOption, head) == RowOptions(row, parse);
    }
  }

  /** A row gives its option when it is kept, and nothing otherwise. */
  lemma RowOptionsKept(row: OptionRow, parse: string -> ParsedChoices)
    ensures RowOptions(row, parse) == if Kept(row, parse) then [RowToOption(row, parse)] else []
  {
  }

  /** Rows added to the form contribute their options after the earlier ones. */
  lemma CollectOptionsAppend(a: seq<OptionRow>, b: seq<OptionRow>, parse: string -> ParsedChoices)
    ensures CollectOptions(a + b, parse) == CollectOptions(a, parse) + CollectOptions(b, parse)
  {
    FlatMapAppend((row: OptionRow) => RowOptions(row, parse), a, b);
  }

  // ---------------------------------------------------------------------
  // Order status prompt

  const OrderStatuses: seq<string> := ["pending", "confirmed", "completed", "cancelled"]

  /** `updateOrderStatusFunc`: the status sent to the server for the prompt's
      answer (`None` when the dialog is dismissed), or `None` when no request
      is made. */
  function StatusToSend(answer: Option<string>): (r: Option<string>)
    ensures r.Some? ==> r.value in OrderStatuses
    ensures r.Some? <==> answer.Some? && AsciiLower(answer.value) in OrderStatuses
    ensures r.Some? ==> r.value == AsciiLower(answer.value)
  {
    if answer.Some? && answer.value != "" && AsciiLower(answer.value) in OrderStatuses
    then Some(AsciiLower(answer.value))
    else None
  }

  /** The answer is read without regard to case. */
  lemma StatusCaseInsensitive(s: string)
    ensures StatusToSend(Some(s)) == StatusToSend(Some(AsciiLower(s)))
  {
    AsciiLowerIdempotent(s);
  }

  /** Each known status typed as listed is sent unchanged. */
  lemma StatusKnown(k: nat)
    requires k < |OrderStatuses|
    ensures StatusToSend(Some(OrderStatuses[k])) == Some(OrderStatuses[k])
  {
    var s := OrderStatuses[k];
    assert AsciiLower(s) == s;
  }

  // ---------------------------------------------------------------------
  // Brand dropdown

  /** The names of the managed brands, in brand-management order. */
  function ManagedNames(brands: seq<Brand>): seq<string>
  {
    Map((b: Brand) => b.name, brands)
  }

  /** `product.category && product.category.trim() !== ''`. */
  predicate HasCategory(p: Product)
  {
    Trim(p.category) != ""
  }

  function CategoryOf(p: Product): string
  {
    p.category
  }

  /** The non-blank categories of the products, in catalogue order. */
  function Categories(products: seq<Product>): seq<string>
  {
    Map(CategoryOf, Filter(HasCategory, products))
  }

  /** `existingBrands`: each non-blank product category once, in the order
      first met. */
  function ExistingBrands(products: seq<Product>): seq<string>
  {
    Distinct(Categories(products))
  }

  /** `populateBrandDropdown`: the values after the "Select a brand..."
      placeholder. */
  function DropdownBrands(brands: seq<Brand>, products: seq<Product>): seq<string>
  {
    var managed := ManagedNames(brands);
    managed + Filter((n: string) => n !in managed, ExistingBrands(products))
  }

  /** The managed brands come first, in their order. */
  lemma DropdownManagedFirst(brands: seq<Brand>, products: seq<Product>)
    ensures |DropdownBrands(brands, products)| >= |brands|
    ensures forall i :: 0 <= i < |brands| ==> DropdownBrands(brands, products)[i] == brands[i].name
  {
  }

  /** Each collected category is the non-blank category of some product. */
  lemma CategoriesFromProducts(products: seq<Product>, n: string)
    requires n in Categories(products)
    ensures exists p :: p in products && p.category == n && Trim(n) != ""
  {
    var kept := Filter(HasCategory, products);
    var i :| 0 <= i < |kept| && Categories(products)[i] == n;
    assert kept[i] in products && HasCategory(kept[i]);
  }

  /** Each product's non-blank category is collected. */
  lemma CategoriesCollected(products: seq<Product>, p: Product)
    requires p in products && Trim(p.category) != ""
    ensures p.category in Categories(products)
  {
    var kept := Filter(HasCategory, products);
    assert p in kept;
    var i :| 0 <= i < |kept| && kept[i] == p;
    assert Categories(products)[i] == p.category;
  }

  /** A text is a collected category iff some product has it as its
      non-blank category. */
  lemma CategoriesMembers(products: seq<Product>, n: string)
    ensures n in Categories(products) <==> exists p :: p in products && p.category == n && Trim(n) != ""
  {
    if n in Categories(products) {
      CategoriesFromProducts(products, n);
    }
    if exists p :: p in products && p.category == n && Trim(n) != "" {
      var p :| p in products && p.category == n && Trim(n) != "";
      CategoriesCollected(products, p);
    }
  }

  /** A name is offered iff it is a managed brand or the non-blank category of
      some product. */
  lemma DropdownMembers(brands: seq<Brand>, products: seq<Product>, n: string)
    ensures n in DropdownBrands(brands, products)
            <==> n in ManagedNames(brands) || exists p :: p in products && p.category == n && Trim(n) != ""
  {
    CategoriesMembers(products, n);
    assert n in ExistingBrands(products) <==> n in multiset(ExistingBrands(products));
  }

  /** With unique managed names, no name is offered twice. */
  lemma DropdownNoDuplicates(brands: seq<Brand>, products: seq<Product>)
    requires NoDuplicates(ManagedNames(brands))
    ensures NoDuplicates(DropdownBrands(brands, products))
  {
    var managed := ManagedNames(brands);
    var existing := ExistingBrands(products);
    var extra := Filter((n: string) => n !in managed, existing);
    DistinctNoDuplicates(Categories(products));
    FilterNoDuplicates((n: string) => n !in managed, existing);
    assert forall k :: 0 <= k < |extra| ==> extra[k] in extra;
    AppendNoDuplicates(managed, extra);
  }

  // ---------------------------------------------------------------------
  // Duplicate product

  /** `duplicateProduct`: the body of the create request for a copy. The
      display order and column count are not sent. */
  function DuplicateProduct(p: Product): ProductInput
  {
    ProductInput(p.name + " (Copy)", p.category, p.price, p.stock, p.description,
                 p.standardEquipment, p.specs, p.images, p.options, None, None)
  }

  /** Once created, the copy keeps the original's brand, price, stock, text,
      equipment, specs, images and options under a new id and a name ending
      in " (Copy)"; it is placed after every existing product, and its column
      count falls back to one. */
  lemma DuplicateCreated(t: ProductStore.Table, p: Product)
    requires ProductStore.Valid(t) && p in t.rows
    ensures var (t', q) := ProductStore.Create(t, DuplicateProduct(p));
            q.id != p.id && q.name == p.name + " (Copy)"
            && q.category == p.category && q.price == p.price && q.stock == p.stock
            && q.description == p.description && q.standardEquipment == p.standardEquipment
            && q.specs == p.specs && q.images == p.images && q.options == p.options
            && q.displayOrder > p.displayOrder && q.specsColumns == 1
            && ProductStore.Valid(t')
  {
  }
}
