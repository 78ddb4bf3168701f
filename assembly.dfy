/**
 * The data-handling part of the `select_products` handler: fetch the catalog,
 * walk it in order, keep one entry per product that has an image (looking up
 * the dominant colour of its first image), and answer the first nine entries.
 */
module Assembly {
  import opened Wrappers
  import opened HexColor
  import opened Catalog
  import opened ColorMemo

  const MaxResults: nat := 9

  datatype Entry = Entry(title: string, category: string, productUrl: string, imageUrl: string, dominantHex: string)

  /** The name of the first category, or `""` when there is none or it has no name. */
  function CategoryOf(p: Product): (name: string)
    ensures p.categories != [] && p.categories[0].name.Some? ==> name == p.categories[0].name.value
    ensures p.categories == [] || p.categories[0].name.None? ==> name == ""
  {
    if p.categories == [] then ""
    else match p.categories[0].name
      case Some(n) => n
      case None => ""
  }

  /** The entry for a product with an image, coloured `hex`. */
  function EntryOf(p: Product, hex: string): Entry
    requires p.images != []
  {
    Entry(p.name, CategoryOf(p), p.permalink, p.images[0].src, hex)
  }

  /** The first-image URLs of the products that have images. */
  function ImageUrls(products: seq<Product>): set<Url> {
    if products == [] then {}
    else
      var last := products[|products| - 1];
      ImageUrls(products[..|products| - 1]) + (if last.images != [] then {last.images[0].src} else {})
  }

  /** What one product contributes to the result list. */
  function EntriesFor(p: Product, colors: map<Url, string>, extract: Url -> Option<Rgb>): seq<Entry> {
    if p.images == [] then [] else [EntryOf(p, HexFor(colors, extract, p.images[0].src))]
  }

  /**
   * The full result list for `products`, read against a colour cache that held
   * `colors` before the walk began.
   */
  function Listing(products: seq<Product>, colors: map<Url, string>, extract: Url -> Option<Rgb>): seq<Entry> {
    if products == [] then []
    else
      Listing(products[..|products| - 1], colors, extract) + EntriesFor(products[|products| - 1], colors, extract)
  }

  /** `results[:9]`. */
  function TopResults(results: seq<Entry>): (top: seq<Entry>)
    ensures |top| == Min(|results|, MaxResults)
    ensures top == results[..|top|]
  {
    if |results| <= MaxResults then results else results[..MaxResults]
  }

  /** The listing of a concatenation is the concatenation of the listings: catalog order is kept. */
  lemma {:induction false} ListingAppend(a: seq<Product>, b: seq<Product>, colors: map<Url, string>, extract: Url -> Option<Rgb>)
    ensures Listing(a + b, colors, extract) == Listing(a, colors, extract) + Listing(b, colors, extract)
    decreases |b|
  {
    if b == [] {
      assert a + b == a;
    } else {
      var b' := b[..|b| - 1];
      assert (a + b)[..|a + b| - 1] == a + b';
      assert (a + b)[|a + b| - 1] == b[|b| - 1];
      ListingAppend(a, b', colors, extract);
    }
  }

  /**
   * One entry per product with an image, none for a product without: the
   * listing of a single product.
   */
  lemma ListingSingle(p: Product, colors: map<Url, string>, extract: Url -> Option<Rgb>)
    ensures p.images == [] ==> Listing([p], colors, extract) == []
    ensures p.images != [] ==>
      Listing([p], colors, extract) ==
        [Entry(p.name, CategoryOf(p), p.permalink, p.images[0].src, HexFor(colors, extract, p.images[0].src))]
  {
    assert [p][..0] == [];
  }

  /** Every entry names a product's first image, with a well-formed colour when the cache held only colours. */
  lemma {:induction false} ListingWellFormed(products: seq<Product>, colors: map<Url, string>, extract: Url -> Option<Rgb>)
    requires forall u :: u in colors ==> IsHexColor(colors[u])
    ensures |Listing(products, colors, extract)| <= |products|
    ensures forall e :: e in Listing(products, colors, extract) ==> e.imageUrl in ImageUrls(products) && IsHexColor(e.dominantHex)
    decreases |products|
  {
    if products != [] {
      ListingWellFormed(products[..|products| - 1], colors, extract);
    }
  }

  /** The first-image URLs of a prefix grow by the next product's. */
  lemma ImageUrlsStep(products: seq<Product>, i: nat)
    requires i < |products|
    ensures ImageUrls(products[..i + 1]) ==
      ImageUrls(products[..i]) + (if products[i].images != [] then {products[i].images[0].src} else {})
  {
    assert products[..i + 1][..i] == products[..i];
  }

  /**
   * The per-product loop of `select_products`: every product with an image is
   * looked up in the colour cache, in catalog order, and gets one entry.
   */
  method AssembleResults(products: seq<Product>, cache: ColorCache, extract: Url -> Option<Rgb>) returns (results: seq<Entry>)
    requires cache.Valid()
    modifies cache
    ensures cache.Valid()
    ensures results == Listing(products, old(cache.colors), extract)
    ensures forall u :: u in cache.colors <==> u in old(cache.colors) || u in ImageUrls(products)
    ensures forall u :: u in cache.colors ==> cache.colors[u] == HexFor(old(cache.colors), extract, u)
    ensures old(cache.Extractions) <= cache.Extractions
  {
    results := [];
    for i := 0 to |products|
      invariant cache.Valid()
      invariant results == Listing(products[..i], old(cache.colors), extract)
      invariant forall u :: u in cache.colors <==> u in old(cache.colors) || u in ImageUrls(products[..i])
      invariant forall u :: u in cache.colors ==> cache.colors[u] == HexFor(old(cache.colors), extract, u)
      invariant old(cache.Extractions) <= cache.Extractions
    {
      var p := products[i];
      ImageUrlsStep(products, i);
      assert products[..i + 1][..i] == products[..i];
      if p.images == [] {
        continue;
      }
      var url := p.images[0].src;
      var hex := cache.GetDominantHex(url, extract);
      results := results + [EntryOf(p, hex)];
    }
    assert products[..|products|] == products;
  }

  /**
   * `select_products` without the signature check and the markup: the catalog
   * comes from the catalog cache (a fetch failure is the handler's failure),
   * and the answer is the first nine entries of the listing.
   */
  method SelectProducts(catalog: CatalogCache, cache: ColorCache, now: int, src: seq<PageResponse>, extract: Url -> Option<Rgb>)
    returns (r: Result<seq<Entry>, FetchError>)
    requires cache.Valid()
    modifies catalog, cache
    ensures cache.Valid()
    // The catalog the handler works on, and the catalog cache afterwards.
    ensures var products := CatalogServed(old(catalog.ts), old(catalog.items), now, src);
      (r.Err? <==> products.Err?) &&
      (r.Err? ==> r.error == products.error) &&
      (r.Ok? ==> r.value == TopResults(Listing(products.value, old(cache.colors), extract)))
    ensures ServesFromCache(old(catalog.ts), old(catalog.items), now) ==>
      catalog.ts == old(catalog.ts) && catalog.items == old(catalog.items) && catalog.Requests == old(catalog.Requests)
    ensures !ServesFromCache(old(catalog.ts), old(catalog.items), now) ==>
      catalog.Requests == old(catalog.Requests) + PagesRequested(src, 1)
    ensures !ServesFromCache(old(catalog.ts), old(catalog.items), now) && r.Ok? ==>
      catalog.ts == now && catalog.items == FetchFrom(src, 1).value
    ensures r.Err? ==> catalog.ts == old(catalog.ts) && catalog.items == old(catalog.items)
    // The colour cache afterwards: untouched on failure, else one entry more per new first-image URL.
    ensures r.Err? ==> cache.colors == old(cache.colors) && cache.Extractions == old(cache.Extractions)
    ensures r.Ok? ==>
      var products := CatalogServed(old(catalog.ts), old(catalog.items), now, src).value;
      (forall u :: u in cache.colors <==> u in old(cache.colors) || u in ImageUrls(products)) &&
      (forall u :: u in cache.colors ==> cache.colors[u] == HexFor(old(cache.colors), extract, u)) &&
      old(cache.Extractions) <= cache.Extractions
  {
    var products := catalog.FetchProducts(now, src);
    if products.Err? {
      return Err(products.error);
    }
    var all := AssembleResults(products.value, cache, extract);
    r := Ok(TopResults(all));
  }
}
