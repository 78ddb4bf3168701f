# Product picker: catalog cache, colour cache and result assembly

A Dafny model of the data-handling core of the product-picker service (`app.py`).
The service answers one request: it picks in-stock catalog items and returns them with the
dominant colour of each item's photo. The model covers four parts:

- **Catalog cache and paginated fetch** (`fetch_products`), in `catalog.dfy`. A class
  `CatalogCache` holds the snapshot `(ts, items)`. Its method `FetchProducts` serves the
  snapshot while it is younger than 600 time units and non-empty. Otherwise it runs the
  pagination loop: page 1, 2, ..., 100 items per page, stopping at the first empty or short
  page. It commits the new snapshot only when every page request succeeded. The upstream is
  a finite sequence of page responses; a page past its end is empty. The loop is proved
  against the recursive definition `FetchFrom`/`PagesRequested`. Lemmas then describe that
  definition without the loop: which pages are requested, and that the result is the
  concatenation of those pages in order.
- **Colour memo cache** (`get_dominant_hex`), in `color_memo.dfy`. A class `ColorCache`
  holds the URL-to-colour map. A hit returns the stored value and runs no extraction. A miss
  runs the extractor once, stores its colour (or the sentinel `#aaaaaa` on failure) under
  the URL and returns it. Entries are never overwritten.
- **Hex formatting** (`rgb_to_hex`), in `hex_color.dfy`. `#` plus two lower-case hex digits
  per channel. A parser `ParseHex` is its partner: the two are inverse bijections between
  in-range triples and `#rrggbb` strings.
- **Result assembly** (the loop in `select_products` and the `[:9]` cut), in
  `assembly.dfy`. Products without images are skipped. The first image's URL is looked up
  in the colour cache, and the category defaults to `""`. Catalog order is kept, and the
  answer is the first nine entries.

Inputs that are I/O in the service are parameters here:
- the clock is a `now: int` argument;
- the upstream catalog is a `seq<PageResponse>` (page `n` is element `n - 1`);
- image download, decoding, resizing and clustering are one extractor function
  `Url -> Option<Rgb>`. `None` stands for any failure on that path.

Ghost logs record the page numbers requested (`CatalogCache.Requests`) and the URLs
extracted (`ColorCache.Extractions`). They make "no request" and "no extraction" statable.

Two details of the code the model keeps:
- The dominant centroid is truncated by `.astype(int)`; it is neither rounded nor clamped.
  The model takes the extractor's triple as given and claims no rounding. Its channels have
  type `0..255` because a truncated mean of 0..255 pixel values stays in that range.
- The loop goes on after any page of 100 or more items, because the code only tests
  `len(batch) < 100`.

## Model

| member | source | states |
|---|---|---|
| HexColor.RgbToHex | app.py:54 | for channels in 0..255, the output is `#` followed by six lower-case hex digits |
| HexColor.Byte2 | app.py:54 | `{:02x}` of a channel is two lower-case hex digits whose value is the channel |
| HexColor.ParseRgbToHex | app.py:54 | parsing the formatted string recovers the triple |
| HexColor.RgbToHexParse | app.py:54 | every `#rrggbb` string is the formatting of the triple it parses to |
| HexColor.RgbToHexInjective | app.py:54 | distinct in-range triples format to distinct strings |
| HexColor.SentinelIsGrey | app.py:71 | the sentinel `#aaaaaa` is a well-formed colour, the formatting of (170, 170, 170) |
| ColorMemo.ExtractHex | app.py:59-71 | the extraction path yields a well-formed colour; it is the extractor's triple on success and the sentinel on any failure |
| ColorMemo.ColorCache.constructor | app.py:16 | the colour cache starts empty with no extraction done |
| ColorMemo.ColorCache.GetDominantHex | app.py:56-73 | a hit returns the stored value and changes nothing; a miss extracts once and adds exactly the entry for the URL, equal to the returned colour; other keys keep their values; all values stay well-formed, and each key was extracted exactly once |
| ColorMemo.RepeatedLookup | app.py:57-58 | two lookups of one URL return the same colour, with at most one extraction; a failed URL gives the sentinel both times |
| Catalog.LastPage | app.py:44-49 | the page where the loop stops fails, is empty or is short, and every earlier page from the start arrived full |
| Catalog.RequestsUpToLastPage | app.py:28-49 | the pages requested are exactly the consecutive numbers from the first page through the stopping page |
| Catalog.FetchIsConcatenation | app.py:42-52 | a refetch fails with the stopping page's error if that request failed; otherwise it returns the requested pages concatenated in request order |
| Catalog.ThreePages | app.py:28-49 | pages of 100, 100 and 37 items take 3 requests and give the 237 items in page order |
| Catalog.EmptyFirstPage | app.py:44-45 | an empty first page takes 1 request and gives an empty catalog |
| Catalog.CatalogCache.constructor | app.py:15 | the catalog cache starts at `ts = 0` with no items, so the first call always fetches |
| Catalog.CatalogCache.FetchProducts | app.py:23-52 | a fresh non-empty snapshot is returned unchanged with no request; otherwise the result is the paginated fetch, the requests are its pages in order, and a success commits `(now, items)` while a failure leaves the snapshot untouched |
| Catalog.CallTwice | app.py:24-26 | a non-empty catalog fetched at `t0` is served at `t1 - t0 < 600` without a request; an empty one or an expired one is refetched |
| Assembly.CategoryOf | app.py:92 | the first category's name, or `""` when the list is empty or that entry has no name |
| Assembly.TopResults | app.py:102 | the answer is the prefix of the results of length `min(9, count)` |
| Assembly.ListingAppend | app.py:85-96 | the result list of a concatenated catalog is the concatenation of the two result lists, so catalog order is kept |
| Assembly.ListingSingle | app.py:86-96 | a product without images contributes nothing; one with images contributes one entry of its name, category, permalink, first image URL and that URL's colour |
| Assembly.ListingWellFormed | app.py:85-96 | there are at most as many entries as products; every entry's image is some product's first image, and its colour is well-formed |
| Assembly.AssembleResults | app.py:84-96 | the loop's results are the listing of the catalog against the colour cache as it was before the loop; afterwards the cache holds exactly its old keys plus the first-image URLs; each value is what a lookup against the old cache gives; earlier extractions stay in the log, so a cached URL is not extracted again |
| Assembly.SelectProducts | app.py:83-102 | a catalog failure is the handler's failure and leaves both caches' contents unchanged; otherwise the answer is the first nine entries of the listing of the served or fetched catalog; the catalog snapshot and its request log change exactly as one catalog fetch changes them, and the colour cache gains exactly the new first-image URLs with their looked-up colours |

## Left out

- HMAC signature verification (`verify_hmac`, the signature header check): cryptographic library calls and request authentication.
- HTTP routing, reading the request body and its `theme_brief` (which the handler reads but never uses), and the `httpx` clients: I/O. Upstream pages and image extraction are inputs.
- Image download, decoding and resizing, and the KMeans clustering with `counts.argmax()` and `.astype(int)`: foreign libraries over floating point. They are the abstract extractor, whose result is an optional in-range triple.
- The HTML tile and section markup and the constant `palette_hex` stub: presentation and a constant.
- Environment configuration (base URL, keys, secret) and the ambient clock: `now` is a parameter, and it is an integer rather than a float.
- Concurrency between interleaved async handlers sharing the two caches: the model is sequential.
- KeyErrors on a product without `name` or `permalink`, or an image without `src`: the model's products always carry them. A missing, `null` or empty image list is the empty sequence, as `or []` makes them alike; a missing, `null` or empty category list is the empty sequence too, as `or [{}]` gives the category `""` for all three.
- A category entry whose `name` is JSON `null`: `.get("name", "")` then gives `None`, not `""`. `Category(name: Option<string>)` cannot represent that case; the model treats a category name as either a string or missing.
- Catalog.CatalogCache.FetchProducts, Catalog.FetchFrom: the upstream is finite and answers an empty page past its end, so the loop always ends. An upstream that answers every page with 100 or more items (one that ignores `page`, say) keeps the code's `while True` requesting forever; the model cannot express that run.
- A malformed page body (`r.json()` failing) is one more `FetchError`. The model does not tell it apart from an HTTP failure.
