# andecoshop storefront core in Dafny

This project models the rules at the heart of the andecoshop boat storefront.
They live in the browser scripts and the Express server, and the model states
them as pure functions over immutable data, with proofs.

The model covers:

- **Product page** (`Pricing`). The option selection is an ordered map from
  option name to caption(s). The model covers how a radio click or a checkbox
  toggle changes it, the pre-selection of required radio options, the price
  calculation (base price plus one breakdown line per matched caption), the
  price block the page shows once it has rendered, the two-column
  specifications split, and the order payload with 19 % VAT.
- **Admin product endpoints** (`ProductStore`). This covers create with
  display-order allocation, update, delete, and the up/down move that trades
  display orders with the nearest neighbour.
- **Contact query endpoint** (`Queries`).
- **Import of exported browser data** (`Migration`). It skips products,
  brands and orders that already exist.
- **Admin page** (`AdminForm`, `EquipmentText`, `ProductTable`). This covers
  the image list and standard-equipment text formats, option-row parsing,
  the order-status whitelist, the brand dropdown, product duplication, and
  the product table: sorted by display order and grouped by brand.
- **Brand summaries** on the index and landing pages (`BrandSummary`). Each
  brand gets a product count, up to four images and its logo, and the
  brands are sorted by name.
- **Landing page** (`Landing`): the hero slider and the contact form.
  Both contact forms (landing and rental) call `createQuery` on the client
  module `public/js/api.js`, which does not export it. The call throws, and
  no submit reaches the server (see "## Findings"). The model keeps the
  exported names as a parameter. With the intended export it proves what
  the server would store.
- **Browser-side data cache** (`ClientCache`): lists updated only after the
  server call succeeds.
- **Image-proxy URL rewriting** (`ImageProxy`).
- **Brand page** (`BrandPage`): product filter, card images and the
  luxury-model strip.
- **Rental-partner inquiry form** (`Rentals`).
- **Boat-model specifications table** (`ModelSpecs`).

Shared pieces:

- `Catalog` holds the entities: product, option, choice, equipment entry and
  brand.
- `Text` models JavaScript's `trim`, `split`, `join` and ASCII lower-casing.
- `Seqs` and `Sorting` hold generic sequence lemmas and an insertion sort
  with its specification.

Modelling conventions:

- Money is `real`. The VAT factor is exactly 119/100.
- Ids are natural numbers.
- Server and DOM effects become values. A request that fails is a
  `Failed` call result. A missing form element is `None`.

## Model

| member | source | states |
|---|---|---|
| Catalog.BrandKey | public/js/index.js:19 | A product is listed under its category, or under "No Brand" when it has none; the key is never empty |
| Catalog.Find | public/js/product.js:63-69 | `Array.prototype.find` as the option and choice lookups use it: the first element that satisfies the test, and nothing exactly when no element does |
| Pricing.Lookup | public/js/product.js:66 | A name has a stored selection exactly when it is one of the selection's keys |
| Pricing.Put | public/js/product.js:119-120 | After storing under a name, that name maps to the new value and every other name keeps its value |
| Pricing.PutKeys | public/js/product.js:119-120 | Storing under an existing name keeps the key order; a new name goes last; keys stay unique |
| Pricing.AddCaption | public/js/product.js:76-80 | One caption step only appends lines, at most one, and keeps the total equal to the sum of the lines |
| Pricing.AddEntries | public/js/product.js:62-81 | The walk over the selection keys only appends lines and keeps the total consistent with them |
| Pricing.CalculatePrice | public/js/product.js:58-85 | The breakdown opens with the "Base Price" line, and the total is the sum of the breakdown |
| Pricing.AddCaptionsMeaning | public/js/product.js:67-74 | A checkbox list contributes one line per caption found among the choices, in list order |
| Pricing.AddEntryMeaning | public/js/product.js:63-81 | One selection key contributes exactly its reference lines, and adds their sum to the total |
| Pricing.AddEntriesMeaning | public/js/product.js:62-82 | All keys together contribute their reference lines in key order, and add their sum to the total |
| Pricing.SelectedLinesAppend | public/js/product.js:62 | The lines of concatenated selections are the lines of the first part, then those of the second |
| Pricing.CalculatePriceMeaning | public/js/product.js:58-85 | The breakdown is the base line followed by every matched caption's line; the total is base plus their sum; the length is one plus the number of matches |
| Pricing.UnknownOptionIgnored | public/js/product.js:63-64 | A key naming no option of the product changes neither total nor breakdown, wherever it stands |
| Pricing.EntryLinesSingle | public/js/product.js:76-80 | A radio caption gives one line "<option>: <caption>" with the choice's price when option and caption are found, and none otherwise |
| Pricing.AppendEntry | public/js/product.js:62-82 | A key added last appends its own lines; earlier lines are untouched |
| Pricing.SelectOneMore | public/js/product.js:76-80 | Selecting a found caption adds exactly one line and its price; an unknown option or caption changes nothing |
| Pricing.RemoveAll | public/js/product.js:128 | Unchecking drops every copy of the caption and keeps every other caption as often as before |
| Pricing.HandleOptionChange | public/js/product.js:115-133 | A radio key becomes exactly the clicked caption; an unknown option leaves the selection alone; other keys never change; keys stay unique |
| Pricing.CheckboxToggle | public/js/product.js:121-130 | Checking appends the caption to the list; unchecking removes all its copies and keeps the other captions |
| Pricing.PreselectOne | public/js/product.js:141-146 | One pre-selection step keeps the keys unique |
| Pricing.Preselect | public/js/product.js:140-148 | The pre-selection loop keeps the keys unique |
| Pricing.PreselectLeavesOthers | public/js/product.js:142-145 | Names of options that are not required radios keep their value |
| Pricing.PreselectRequired | public/js/product.js:142-145 | Every required radio option with choices ends on its first choice |
| Pricing.PreselectKeys | public/js/product.js:140-148 | From a selection naming no option, the required radio names are appended in declaration order |
| Pricing.InitialSelectionShape | public/js/product.js:140-148 | The initial selection holds exactly the required radio options, in declaration order, each on its first choice |
| Pricing.PreselectIdempotent | public/js/product.js:362-371 | Running the pre-selection again after rendering leaves the selection unchanged |
| Pricing.RenderedPriceBlock | public/js/product.js:135-136 | The markup `renderProduct` writes carries the base price alone as its total, and a breakdown element exactly when the product has options |
| Pricing.UpdatePrice | public/js/product.js:87-112 | `updatePrice` writes the base price plus the selected lines' prices, and rewrites the breakdown (base line, then the selected lines) only where the page has one |
| Pricing.UpdatePriceOverwrites | public/js/product.js:87-112 | What `updatePrice` writes does not depend on the totals already on the page |
| Pricing.FirstRenderShown | public/js/product.js:762-763 | After `renderProduct(); updatePrice();` the page shows the base price plus the pre-selected radios, with a breakdown whose sum is that total; the base-only markup total is never shown |
| Pricing.LayoutSpecs | public/js/product.js:151-160 | Two columns exactly when `specsColumns` is 2; the columns split the specs in order, the left one holding the extra entry |
| Pricing.OrderPayload | public/js/product.js:466-487 | The order carries the calculated breakdown and total, 1.19 times the total with VAT, the selection and price as they are, the category as brand or "Unknown" when there is none, and the name, customer, images, description, specs and equipment unchanged |
| Pricing.RadioScenario | public/js/product.js:468-478 | A 1000 product with a 50 radio surcharge orders at 1050, or 1249.50 with VAT, under brand "Unknown" |
| ProductStore.FindById | server.js:796-829 | Finds a row with the id, and nothing exactly when no row has it |
| ProductStore.MaxOrder | server.js:743-744 | The largest display order, 0 for an empty table |
| ProductStore.NewDisplayOrder | server.js:743-744 | A new product's default order is above every existing order, and 1 in an empty table |
| ProductStore.Create | server.js:738-760 | The row is appended with the next id; a missing or zero order becomes one past the largest; a given one is kept; the column count is never 0; ids stay unique |
| ProductStore.Update | server.js:796-830 | 404 exactly when the id is absent; only rows with the id change; an absent order keeps the stored one, a given one is written |
| ProductStore.RemoveById | server.js:856-861 | Exactly the rows with another id remain |
| ProductStore.Delete | server.js:856-861 | 404 exactly when the id is absent; afterwards no row has the id and every other row remains |
| ProductStore.NextBelow | server.js:884-890 | The neighbour above: the largest order strictly below the current one, or none when there is none |
| ProductStore.NextAbove | server.js:901-907 | The neighbour below: the smallest order strictly above the current one, or none when there is none |
| ProductStore.Move | server.js:870-921 | 404 for an unknown id before the direction check; 400 for another direction; "already at top/bottom" exactly when no order is smaller/larger |
| ProductStore.MovedIsSwap | server.js:884-917 | A move that happens trades orders with the nearest neighbour in its direction |
| ProductStore.SwapEffect | server.js:895-900 | Trading two rows' orders changes those two rows only and keeps the multiset of orders |
| ProductStore.MovePreservesOrders | server.js:884-917 | A move changes exactly two rows, swaps their orders, keeps the multiset of orders, and lowers (up) or raises (down) the product's order |
| ProductStore.TiesNeverMove | server.js:884-917 | When all orders are equal, as after an import, no move can happen |
| ProductStore.SwapTwice | server.js:895-900 | Trading the same two orders twice restores the table |
| ProductStore.UpThenDown | server.js:884-917 | With distinct orders, moving down right after moving up restores the table |
| Queries.TrimField | public/js/landing.js:160-163 | A missing field stays missing; a present one is trimmed |
| Queries.SubmitQuery | server.js:535-552 | 400 exactly when name, email or message is missing or empty; stored text is trimmed; the phone is null exactly when absent or empty |
| Queries.StoredAsSent | server.js:539-552 | A body with trimmed name, email and phone is stored as sent, with only the message trimmed |
| Queries.BlankNameStoredEmpty | server.js:537-552 | The presence check runs before trimming, so a whitespace-only name is accepted and stored empty |
| Queries.ResubmitStable | server.js:535-552 | Submitting a stored row again stores the same row, unless a field was trimmed to nothing |
| Queries.CallCreateQuery | public/js/api.js:5-38 | Without a `createQuery` export the call throws and nothing is requested; with it the body is posted, and the call returns a row exactly when the server stores one, which is that row |
| Queries.CreateQueryMissing | public/js/api.js:41-235 | The module exports no `createQuery`; the intended one does |
| Queries.TryCall | public/js/landing.js:176-183 | The request and stored row are the call's; the status is the thanks on success, "Something went wrong" as an error otherwise |
| Migration.MigrateProducts | server.js:1009-1039 | The product import only appends product rows and counts, and touches nothing else |
| Migration.ProductsPresentAfter | server.js:1009-1039 | After the import every insertable product has a match by name and category |
| Migration.ProductsStable | server.js:1013-1017 | When every product already has a match, the import inserts and counts nothing |
| Migration.MigrateBrands | server.js:1042-1054 | The brand import only appends brand rows and counts |
| Migration.BrandsPresentAfter | server.js:1042-1054 | After the import every insertable brand name is present |
| Migration.BrandsStable | server.js:1045-1049 | When every brand name exists, nothing is inserted |
| Migration.FindProductByName | server.js:1075-1080 | The first product with the name, and nothing exactly when none has it |
| Migration.ResolveProductId | server.js:1063-1084 | An id in range that names a row is kept; otherwise the first product with the order's product name; null without a product id |
| Migration.MigrateOrders | server.js:1057-1117 | The order import only appends order rows and counts |
| Migration.OrdersPresentAfter | server.js:1057-1117 | After the import every insertable order number is present |
| Migration.OrdersStable | server.js:1060-1061 | When every order number exists, nothing is inserted |
| Migration.MigrateAsWritten | server.js:1003-1005 | As written, a body without products, brands and orders is rejected even when it carries a logo |
| Migration.Migrate | server.js:998-1131 | The corrected import is rejected only without any of the four parts, and never removes a row |
| Migration.MigrateIdempotent | server.js:1009-1117 | Importing the same data twice: the second run inserts nothing and leaves the database unchanged |
| Migration.NullCategoryDuplicated | server.js:1013-1016 | As written, a product exported without category is stored again on every import |
| Migration.LogoOnlyRejected | server.js:1003-1005 | A logo-only body is rejected as written and imported by the corrected gate |
| AdminForm.ImagePiece | public/js/admin.js:520 | Each comma piece yields at most one image: non-empty and trimmed |
| AdminForm.ParseImagesClean | public/js/admin.js:520 | Whatever is typed, every parsed image is non-empty and trimmed |
| AdminForm.ImagesRoundTrip | public/js/admin.js:407 | The ", "-joined field of trimmed, non-empty, comma-free URLs parses back to the same list |
| AdminForm.CollectOptionsKept | public/js/admin.js:522-540 | The saved options are the kept rows (named, choices parse to a list), in form order, with trimmed name, type, flag and choices |
| AdminForm.CollectOptionsAppend | public/js/admin.js:524 | Rows added later contribute their options after the earlier ones |
| AdminForm.StatusToSend | public/js/admin.js:841-851 | A request is made exactly when the lower-cased answer is one of the four statuses, and it sends that status |
| AdminForm.StatusCaseInsensitive | public/js/admin.js:843 | The answer is read regardless of case |
| AdminForm.StatusKnown | public/js/admin.js:843-845 | A listed status typed as listed is sent unchanged |
| AdminForm.DropdownManagedFirst | public/js/admin.js:320-356 | The managed brands come first, in their order |
| AdminForm.CategoriesMembers | public/js/admin.js:320-356 | A category is collected exactly when some product has it and it is not blank |
| AdminForm.DropdownMembers | public/js/admin.js:320-356 | A name is offered exactly when it is a managed brand or a non-blank product category |
| AdminForm.DropdownNoDuplicates | public/js/admin.js:320-356 | With unique managed names, no name is offered twice |
| AdminForm.DuplicateCreated | public/js/admin.js:437-456 | The copy keeps every field but gets a new id and " (Copy)" suffix, lands after all products, and has one spec column |
| EquipmentText.RemoveFirstColon | public/js/admin.js:497 | Only the first colon is dropped |
| EquipmentText.CleanedLine | public/js/admin.js:498 | A cleaned item line is non-empty and trimmed, or dropped |
| EquipmentText.ParseParagraph | public/js/admin.js:494-503 | A paragraph gives no entry exactly when its first line is blank; otherwise a well-formed group or plain entry |
| EquipmentText.ParseEquipment | public/js/admin.js:489-506 | Blank text gives no entries; every parsed entry is well formed |
| EquipmentText.EntryRoundTrip | public/js/admin.js:382-389 | A representable entry's paragraph is non-empty, trimmed, has no blank line, and parses back to the entry |
| EquipmentText.GroupRoundTrip | public/js/admin.js:384-386 | A group with clean header and items serialises to a paragraph that parses back to the group |
| EquipmentText.ParagraphsRoundTrip | public/js/admin.js:493-505 | The paragraphs of representable entries parse back to the entries, in order |
| EquipmentText.EquipmentRoundTrip | public/js/admin.js:382-389 | Serialising the equipment list and parsing the text back gives the same list |
| EquipmentText.EmptyGroupSwallowsNext | public/js/admin.js:386-502 | An item-less group followed by a plain entry is read back as one plain entry: the group's header with its colon, and the following entry is lost |
| ProductTable.SortRows | public/js/admin.js:178-186 | The table order is a rearrangement of the products, sorted by display order then id |
| ProductTable.SortRowsCanonical | public/js/admin.js:178-186 | With unique ids the table order does not depend on the order the products arrive in |
| ProductTable.SectionKeysShape | public/js/admin.js:196-206 | The section keys are the products' brand keys, once each, in name order |
| ProductTable.TableSections | public/js/admin.js:206-219 | One section per section key, in order, holding that brand's rows |
| ProductTable.TableBrandsOrdered | public/js/admin.js:206 | Sections have distinct brands, in name order |
| ProductTable.TableBrandsExist | public/js/admin.js:196-206 | Every section is the brand of some product |
| ProductTable.TableCoversBrands | public/js/admin.js:196-206 | Every product's brand has a section |
| ProductTable.TableSection | public/js/admin.js:196-219 | A section holds exactly the products of its brand, in table order |
| ProductTable.TableRows | public/js/admin.js:206-219 | The table rows are the brand groups in key order |
| ProductTable.TableListsEachProductOnce | public/js/admin.js:178-219 | Every product appears in the table exactly as often as in the catalogue |
| BrandSummary.LogoFor | public/js/index.js:22-28 | The logo of the first managed brand with the name, and none exactly when no brand has it |
| BrandSummary.CollectMeaning | public/js/index.js:17-35 | One entry per brand key, in first-seen order, each with the expected count, images and logo |
| BrandSummary.AllBrandsEntries | public/js/index.js:13-38 | Every entry has the expected count, images and logo for a brand key some product has |
| BrandSummary.AllBrandsNames | public/js/index.js:13-38 | The entry names are the brand keys, each once |
| BrandSummary.AllBrandsOrdered | public/js/index.js:37 | Entries have distinct names, in name order |
| BrandSummary.AllBrandsCover | public/js/index.js:18-29 | Every product's brand has an entry |
| BrandSummary.CollectTotal | public/js/index.js:30 | The unsorted counts add up to the number of products |
| BrandSummary.AllBrandsTotal | public/js/index.js:30-37 | The product counts add up to the number of products |
| BrandSummary.ImagesOfNonEmpty | public/js/index.js:32-34 | Collected images are non-empty first images |
| BrandSummary.GridImages | public/js/index.js:75-76 | A card shows one to four images, and the placeholder alone exactly when there are none |
| BrandSummary.GridShowsEntryImages | public/js/index.js:75-76 | A card shows its entry's images as they are, or the placeholder when there are none |
| Landing.InitSlider | public/js/landing.js:20-22 | Nothing starts without the slider element or without slides; otherwise the first slide is shown |
| Landing.Active | public/js/landing.js:26-40 | A slide is marked active exactly when the index is below the slide count |
| Landing.Next | public/js/landing.js:42-45 | Next lands on a real slide |
| Landing.Prev | public/js/landing.js:47-50 | Previous lands on a real slide |
| Landing.StepInRange | public/js/landing.js:64-135 | Every event but an indicator click keeps a real active slide; an indicator click selects its index |
| Landing.StepRecovers | public/js/landing.js:42-50 | From an indicator past the last slide, next and previous still land on real slides |
| Landing.NextPrevInverse | public/js/landing.js:42-50 | Previous after next, and next after previous, return to the same slide |
| Landing.AdvanceIndex | public/js/landing.js:42-45 | After k autoplay ticks the slider shows slide (current + k) mod n |
| Landing.AdvanceCycle | public/js/landing.js:42-45 | After n ticks the slider is back where it started |
| Landing.SwipeBack | public/js/landing.js:109-122 | A swipe longer than 50 pixels is undone by the opposite swipe; a shorter one does nothing |
| Landing.SubmitContact | public/js/landing.js:160-178 | Refused exactly when name, email or message is empty after trimming; otherwise the trimmed fields are passed to `createQuery` |
| Landing.ContactRefusedLikeServer | public/js/landing.js:160-169 | The form refuses exactly what the server would answer with 400 |
| Landing.HandleContact | public/js/landing.js:157-190 | A refused form shows the required-fields error and requests nothing; otherwise the outcome is the guarded `createQuery` call with the form's thanks |
| Landing.ContactNeverSent | public/js/landing.js:176-182 | As written, no submit reaches the server or stores anything, and every submit ends on an error status; one that passes the checks shows "Something went wrong" |
| Landing.ContactStoredAsSent | public/js/landing.js:171-178 | With the intended `createQuery`, what the form passes to it is stored unchanged, only an empty phone becoming null, and the form shows its thanks |
| ClientCache.GetProductById | public/js/data.js:62-64 | The first cached product with the id, and none exactly when no product has it |
| ClientCache.GetBrandByName | public/js/data.js:110-112 | The first brand with exactly that name, and none exactly when no brand has it |
| ClientCache.GetOrderById | public/js/data.js:241-243 | The first order with the id, and none exactly when no order has it |
| ClientCache.Apply | public/js/data.js:66-270 | A failed call changes nothing; each call touches only its own list or the logo |
| ClientCache.AddProductAppends | public/js/data.js:66-76 | A created product is appended behind the cached ones |
| ClientCache.AddOrderPrepends | public/js/data.js:229-239 | A created order goes to the front |
| ClientCache.AddProductFound | public/js/data.js:66-76 | A product with a new id is found by its id once added |
| ClientCache.UpdateProductFound | public/js/data.js:78-91 | An update keeps the length, and the lookup then finds the server's product |
| ClientCache.UpdateAbsentUnchanged | public/js/data.js:78-91 | Updating a product, brand or order id that is not cached changes nothing |
| ClientCache.UpdateOnlyFirst | public/js/data.js:82-85 | Only the first entry with the id is replaced |
| ClientCache.DeleteProductRemoves | public/js/data.js:93-103 | A delete removes every product with the id and keeps the others as often as before |
| ClientCache.DeleteKeepsOrder | public/js/data.js:97 | The remaining products stay in order |
| ClientCache.AddThenDeleteProduct | public/js/data.js:66-103 | Deleting a just-added product with a new id restores the cache |
| ClientCache.AddThenDeleteOrder | public/js/data.js:229-270 | Deleting a just-added order with a new id restores the cache |
| ClientCache.AddThenDeleteBrand | public/js/data.js:114-151 | Deleting a just-added brand with a new id restores the cache |
| ClientCache.ShopLogoCached | public/js/data.js:158-168 | A falsy URL is cached as the empty text, any other as given; setting it twice is the same as once |
| ImageProxy.ProxiedUrl | public/js/image-proxy.js:4-28 | The result is the URL itself or the proxy path with the encoded URL |
| ImageProxy.ProxiedIffExternal | public/js/image-proxy.js:4-28 | Exactly the parsable http URLs of another origin are proxied; the rest come back unchanged |
| ImageProxy.ProxiedStartsWithSlash | public/js/image-proxy.js:11-27 | A proxied URL starts with '/' |
| ImageProxy.ProxyIdempotent | public/js/image-proxy.js:11-27 | Proxying twice is proxying once |
| BrandPage.CardImage | public/js/brand.js:42 | The placeholder exactly when the product has no first image, else the proxied first image |
| BrandPage.Positions | public/js/brand.js:83-90 | One position class per image |
| BrandPage.ClipPath | public/js/brand.js:92-101 | Every image but a lone one gets a clip path |
| BrandPage.PositionsShape | public/js/brand.js:83-101 | First, middles, last for two or more images; a lone image gets no class |
| BrandPage.LuxuryStrip | public/js/brand.js:53-118 | The strip exists exactly for "Olympic Ribs", one item per model, in order, each clipped by its position |
| BrandPage.StripLayout | public/js/brand.js:64-101 | The four-model strip runs first, middle, middle, last, all clipped |
| BrandPage.RenderPage | public/js/brand.js:17-158 | Redirect exactly without a brand; nothing rendered exactly when the second decoding of the name throws; otherwise the decoded title, the empty state exactly when no product is listed, else the cards of exactly those products, and strip and logo as the decoded brand demands |
| BrandPage.PercentBrandAborts | public/js/brand.js:126 | A brand named "50% Off" reaches the page with a bare '%', on which the second decoding throws, so the page shows neither cards nor the empty state |
| BrandPage.ShownIffListed | public/js/brand.js:121-124 | A product is shown exactly when it is cached and listed under the brand |
| BrandPage.ShownCount | public/js/brand.js:121-124 | The page shows as many products as the brand summary counts |
| BrandPage.BrandCardMatchesPage | public/js/brand.js:121-124 | For every brand card, the brand page's filter selects as many products as the card counts, and at least one |
| BrandPage.BrandCardOpensPage | public/js/brand.js:121-158 | Opening a brand card's link renders nothing when the second decoding of the name throws. Otherwise the page shows one card per counted product and never the empty state |
| BrandPage.ShownImages | public/js/brand.js:121-124 | The summary's images are the first images of the products the page shows |
| BrandPage.BrandCardImages | public/js/index.js:32-34 | A card's images are the first four images its brand page shows, in order |
| Rentals.SubmitRental | public/js/rentals.js:29-71 | Refused exactly when a required field is empty; consent checked only after; the argument passed to `createQuery` carries the trimmed name, email and phone, and the assembled inquiry text as its message |
| Rentals.InquiryLines | public/js/rentals.js:56-62 | The message reads back line by line: header, blank, the five field lines in order, then the free text under "Message:" exactly when there is some |
| Rentals.WebsiteLine | public/js/rentals.js:58 | The Website line says "Not provided" exactly when no website was given |
| Rentals.HandleRental | public/js/rentals.js:26-84 | The required-fields error, then the consent error, each requesting nothing; otherwise the guarded `createQuery` call with the form's thanks |
| Rentals.RentalNeverSent | public/js/rentals.js:64-77 | As written, no inquiry reaches the server or stores anything, and every submit ends on an error status; one that passes the checks shows "Something went wrong" |
| Rentals.RentalAccepted | public/js/rentals.js:66-71 | With the intended `createQuery`, every inquiry passed to it is accepted by the server and stored as passed, and the form shows its thanks |
| ModelSpecs.RenderSpecs | public/js/model-specs.js:19-52 | Nothing is rendered exactly without specs or container; otherwise the table opens with the "General" header |
| ModelSpecs.HeadersOfTable | public/js/model-specs.js:33-35 | The header rows are the section titles, one each, in order |
| ModelSpecs.SevenHeaders | public/js/model-specs.js:22-35 | The table has exactly seven headers, in declared order |
| ModelSpecs.FieldRowsOrder | public/js/model-specs.js:37-46 | A section's field rows are its fields with a value, in declared order, each carrying its value |
| ModelSpecs.FieldRowIn | public/js/model-specs.js:37-46 | A field row appears in a section exactly when the field is listed there and has a non-empty value |
| ModelSpecs.TableFieldRow | public/js/model-specs.js:22-46 | A field row appears in the table exactly when some section lists the field and it has a value; unlisted keys never appear |

## Left out

- PDF generation for orders (jsPDF, image loading, floating-point layout) is not part of this model.
- DOM rendering, event wiring, modals, timers and the wait-for-data polling are replaced by the values the handlers compute. The slider's autoplay restart is left out, and an autoplay tick is modelled as `Next`.
- Most HTTP and database plumbing is left out: fetch wrappers, token storage, Express routing, the connection pool, schema creation, `init-db.js`, `fix-database-schema.js` and the file-based migration script. Each SQL statement is a function on sequences of rows.
- Authentication, the image-proxy HTTP endpoint and `traffic.js` are left out: they are network I/O, not rules.
- Cache loading (`initializeData`, the `refresh*` functions), `loadModelSpecifications` and the shop-logo display are left out: they only fetch data or touch the DOM.
- Server-side order CRUD is left out, beyond what the client cache does with the server's answers.
- Queries.CallCreateQuery: `api.js` defines no `createQuery`, so the intended call is an assumption: a `POST /api/queries` through `apiCall`, like `createOrder`. A network failure of that request is not modelled; it would end on the same "Something went wrong" status.
- Pricing.OrderPayload: prices are exact reals, so `toFixed(2)` formatting and double rounding are not modelled.
- ProductTable.SectionKeysShape: `localeCompare` is modelled as lexicographic code-point order. The same holds for BrandSummary.AllBrandsOrdered and ProductTable.TableBrandsOrdered.
- AdminForm.StatusToSend: `toLowerCase` is modelled on ASCII letters only. Non-ASCII case mappings are not modelled.
- ClientCache.GetProductById: ids are natural numbers, so the source's loose `==` between a text id and a numeric id is not modelled.
- `JSON.parse` of option choices is a parameter of the option parser. So are `JSON.stringify` of equipment objects, `encodeURIComponent`, the `new URL` origin parser and the second `decodeURIComponent` on the brand page. That decoder may fail. Only BrandPage.PercentBrandAborts assumes anything about it: that it fails on a '%' not followed by two hex digits, as ECMA-262 specifies for `decodeURIComponent`.
- Migration.Migrate: database column length limits and the timestamp-based order numbers are not modelled. Rows failing a NOT NULL column are skipped like the source's caught insert errors.
- Migration.FindProductByName: the query at server.js:1076 has `LIMIT 1` and no `ORDER BY`, so PostgreSQL may return any product with the name. The model returns the first in table order. Migration.ResolveProductId inherits this choice for its by-name fallback. The other clauses hold whichever row is returned: nothing exactly when no product has the name, and a returned row has that name.
- Pricing.PutKeys: the selection lists option names in insertion order, and a new name goes last. JavaScript's `Object.keys` (product.js:62) lists integer-like names such as "2" first, in ascending numeric order, ahead of the other names. The model assumes option names are not integer-like. For such names the breakdown order of Pricing.AddEntriesMeaning and Pricing.CalculatePriceMeaning differs from the browser's; the total does not. The same key order applies to the brand object that index.js:37 walks with `Object.values`, but the sort that follows hides it there.
- BrandPage.BrandCardMatchesPage: speaks of the page's product filter only. A brand card whose name the second decoding rejects, such as "50% Off", opens a page that shows no products at all. BrandPage.BrandCardOpensPage states the page-level outcome.
- BrandSummary.Collect, ProductTable.Table, Pricing.HandleOptionChange: the browser keeps brands, table sections and selections in plain objects, whose lookups also see members inherited from `Object.prototype`. The model treats them as plain maps and assumes no brand or option name equals such a member ("constructor", "toString", "__proto__", ...). For those names the browser diverges from the model:
  - a category "constructor" with a first image makes `getAllBrands` throw (index.js:32, landing.js:233), and without an image the brand gets no entry;
  - the same category makes the admin table throw at admin.js:202;
  - a checkbox option named "toString" throws at product.js:125;
  - a radio option named "__proto__" is never stored, so it is never priced (product.js:119).
- ProductStore.NextBelow: when several rows share the neighbouring display order, the SQL `LIMIT 1` picks an unspecified one. The model picks the first in table order. NextAbove does the same.
- EquipmentText.EquipmentRoundTrip: holds only for entries the format can carry. These are non-empty, trimmed, colon-free and line-free texts, and groups with at least one item. Outside that class entries can be lost, not only changed. An item-less group "H" is written as "H:" plus a line break, which comes back as the plain entry "H:". It also swallows the entry after it: the following paragraph then opens with a line break and is dropped. EquipmentText.EmptyGroupSwallowsNext shows this.

## Findings

| source | as written | input that shows it | evidently intended | confidence | as-written member | corrected member |
|---|---|---|---|---|---|---|
| server.js:1013-1016 | The existence check compares `category = $2`, which never matches a NULL category | A product exported without category, imported twice, is stored twice | Re-running the import inserts nothing (a null-safe comparison) | not executed | Migration.MigrateAsWritten, Migration.NullCategoryDuplicated | Migration.Migrate, Migration.MigrateIdempotent |
| public/js/landing.js:177-178 | `api.createQuery(...)` is called, but `api.js` exports no `createQuery`, so the call throws a TypeError | Any contact form with name, email and message filled in: it shows "Something went wrong. Please try again." and posts nothing | The trimmed fields are posted to `/api/queries` and stored | not executed | Landing.ContactNeverSent | Landing.ContactStoredAsSent |
| public/js/rentals.js:65-71 | The same missing `createQuery` call | Any rental inquiry with the required fields filled in and consent given: it shows "Something went wrong. Please try again." and posts nothing | The inquiry is posted to `/api/queries` and stored | not executed | Rentals.RentalNeverSent | Rentals.RentalAccepted |
| server.js:1003-1005 | The gate requires products, brands or orders, while the error text and the import (lines 1120-1131) also accept a logo | A body carrying only a shop logo is answered 400 | A logo-only body imports the logo | not executed | Migration.MigrateAsWritten, Migration.LogoOnlyRejected | Migration.Migrate |
