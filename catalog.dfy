/**
 * `fetch_products` and the process-wide `_cache_products` snapshot: a catalog
 * read through a 600-unit time-to-live cache, refetched page by page (100 per
 * page, starting at page 1) from the upstream product API.
 */
module Catalog {
  import opened Wrappers

  const PerPage: nat := 100
  const Ttl: int := 600

  datatype Image = Image(src: string)
  /** A category entry; its `name` key may be missing. */
  datatype Category = Category(name: Option<string>)
  /**
   * A product as the upstream API returns it. A missing, null or empty image
   * list is the empty sequence, as `or []` treats all three alike; a missing,
   * null or empty category list is too, as `or [{}]` gives `""` for all three.
   */
  datatype Product = Product(name: string, permalink: string, images: seq<Image>, categories: seq<Category>)

  /** Why a page request failed: a non-2xx status, or a transport or decoding failure. */
  datatype FetchError = HttpStatus(code: int) | TransportError

  type PageResponse = Result<seq<Product>, FetchError>

  /**
   * The upstream answer to the request for page `n` (counting from 1) when the
   * upstream serves `src`; past the last page it answers with an empty page.
   */
  function PageAt(src: seq<PageResponse>, n: nat): PageResponse
    requires n >= 1
  {
    if n <= |src| then src[n - 1] else Ok([])
  }

  /** The loop goes on after page `n`: it arrived and held a full page. */
  predicate Continues(src: seq<PageResponse>, n: nat)
    requires n >= 1
  {
    PageAt(src, n).Ok? && |PageAt(src, n).value| >= PerPage
  }

  /** `items` put in front of a successful result; a failure stays a failure. */
  function Prepend(items: seq<Product>, r: Result<seq<Product>, FetchError>): Result<seq<Product>, FetchError> {
    match r
    case Ok(rest) => Ok(items + rest)
    case Err(e) => Err(e)
  }

  lemma PrependAppend(a: seq<Product>, b: seq<Product>, r: Result<seq<Product>, FetchError>)
    ensures Prepend(a, Prepend(b, r)) == Prepend(a + b, r)
    ensures Prepend([], r) == r
  {
    if r.Ok? {
      assert a + (b + r.value) == (a + b) + r.value;
      assert [] + r.value == r.value;
    }
  }

  /** The pagination loop from page `n` on, as a recursive definition. */
  function FetchFrom(src: seq<PageResponse>, n: nat): Result<seq<Product>, FetchError>
    requires n >= 1
    decreases |src| + 1 - n
  {
    match PageAt(src, n)
    case Err(e) => Err(e)
    case Ok(batch) =>
      if batch == [] || |batch| < PerPage then Ok(batch)
      else Prepend(batch, FetchFrom(src, n + 1))
  }

  /** The page numbers the loop requests from page `n` on, in request order. */
  function PagesRequested(src: seq<PageResponse>, n: nat): seq<nat>
    requires n >= 1
    decreases |src| + 1 - n
  {
    if Continues(src, n) then [n] + PagesRequested(src, n + 1) else [n]
  }

  /** The page the loop stops at when it starts at page `n`. */
  function LastPage(src: seq<PageResponse>, n: nat): (k: nat)
    requires n >= 1
    ensures n <= k && (n <= |src| + 1 ==> k <= |src| + 1)
    ensures !Continues(src, k)
    ensures forall j :: n <= j < k ==> Continues(src, j)
    decreases |src| + 1 - n
  {
    if Continues(src, n) then LastPage(src, n + 1) else n
  }

  /** `[lo, lo + 1, ..., hi - 1]`. */
  function Range(lo: nat, hi: nat): (r: seq<nat>)
    requires lo <= hi
    ensures |r| == hi - lo && forall i :: 0 <= i < |r| ==> r[i] == lo + i
    decreases hi - lo
  {
    if lo == hi then [] else [lo] + Range(lo + 1, hi)
  }

  /** The items of the successful responses, concatenated in order. */
  function Concat(pages: seq<PageResponse>): seq<Product> {
    if pages == [] then [] else
      (if pages[0].Ok? then pages[0].value else []) + Concat(pages[1..])
  }

  function Min(a: int, b: int): int {
    if a <= b then a else b
  }

  /**
   * The loop requests pages `n`, `n + 1`, ... up to and including `k`, the
   * first page that failed, was empty or was short, each exactly once, in order.
   */
  lemma {:induction false} RequestsUpToLastPage(src: seq<PageResponse>, n: nat)
    requires n >= 1
    ensures PagesRequested(src, n) == Range(n, LastPage(src, n) + 1)
    decreases |src| + 1 - n
  {
    if Continues(src, n) {
      RequestsUpToLastPage(src, n + 1);
      assert Range(n, LastPage(src, n) + 1) == [n] + Range(n + 1, LastPage(src, n) + 1);
    } else {
      assert Range(n, n + 1) == [n];
    }
  }

  /**
   * What a refetch returns, described without the loop: the failure of the last
   * page requested, or else the pages from `n` to that page concatenated in
   * request order, nothing dropped or reordered.
   */
  lemma {:induction false} FetchIsConcatenation(src: seq<PageResponse>, n: nat)
    requires 1 <= n <= |src| + 1
    ensures var k := LastPage(src, n);
      (PageAt(src, k).Err? ==> FetchFrom(src, n) == Err(PageAt(src, k).error)) &&
      (PageAt(src, k).Ok? ==> FetchFrom(src, n) == Ok(Concat(src[n - 1..Min(k, |src|)])))
    decreases |src| + 1 - n
  {
    var k := LastPage(src, n);
    if Continues(src, n) {
      FetchIsConcatenation(src, n + 1);
      assert k == LastPage(src, n + 1);
      if PageAt(src, k).Ok? {
        var tail := src[n..Min(k, |src|)];
        assert src[n - 1..Min(k, |src|)] == [src[n - 1]] + tail;
        assert ([src[n - 1]] + tail)[1..] == tail;
      }
    } else if n <= |src| && PageAt(src, n).Ok? {
      assert src[n - 1..Min(k, |src|)] == [src[n - 1]];
      assert [src[n - 1]][1..] == [];
      assert src[n - 1].value + [] == src[n - 1].value;
    } else if PageAt(src, n).Ok? {
      assert src[n - 1..Min(k, |src|)] == [];
    }
  }

  /** Pages of 100, 100 and 37 items: three requests, 237 items in page order. */
  lemma ThreePages(a: seq<Product>, b: seq<Product>, c: seq<Product>)
    requires |a| == 100 && |b| == 100 && |c| == 37
    ensures PagesRequested([Ok(a), Ok(b), Ok(c)], 1) == [1, 2, 3]
    ensures FetchFrom([Ok(a), Ok(b), Ok(c)], 1) == Ok(a + b + c)
    ensures |a + b + c| == 237
  {
    var src: seq<PageResponse> := [Ok(a), Ok(b), Ok(c)];
    assert PagesRequested(src, 3) == [3];
    assert PagesRequested(src, 2) == [2, 3];
    assert FetchFrom(src, 3) == Ok(c);
    assert FetchFrom(src, 2) == Ok(b + c);
    assert a + (b + c) == a + b + c;
  }

  /** An empty first page: one request and an empty catalog, whatever follows it. */
  lemma EmptyFirstPage(src: seq<PageResponse>)
    requires PageAt(src, 1) == Ok([])
    ensures PagesRequested(src, 1) == [1]
    ensures FetchFrom(src, 1) == Ok([])
  {
  }

  /** A catalog served while it is younger than the time-to-live and non-empty. */
  predicate ServesFromCache(ts: int, items: seq<Product>, now: int) {
    now - ts < Ttl && items != []
  }

  /** The catalog a call at `now` answers with: the snapshot while it serves, else a refetch. */
  function CatalogServed(ts: int, items: seq<Product>, now: int, src: seq<PageResponse>): Result<seq<Product>, FetchError> {
    if ServesFromCache(ts, items, now) then Ok(items) else FetchFrom(src, 1)
  }

  class CatalogCache {
    /** `_cache_products["ts"]`: when the snapshot was taken. */
    var ts: int
    /** `_cache_products["items"]`: the snapshot. */
    var items: seq<Product>
    /** The page numbers requested from the upstream, in order. */
    ghost var Requests: seq<nat>

    /** The initial `{"ts": 0, "items": []}`. */
    constructor ()
      ensures ts == 0 && items == [] && Requests == []
      ensures forall now :: !ServesFromCache(ts, items, now)
    {
      ts := 0;
      items := [];
      Requests := [];
    }

    /**
     * `fetch_products()` at time `now` against an upstream serving `src`. A
     * failed page request propagates and leaves the snapshot as it was.
     */
    method FetchProducts(now: int, src: seq<PageResponse>) returns (r: Result<seq<Product>, FetchError>)
      modifies this
      ensures ServesFromCache(old(ts), old(items), now) ==>
        r == Ok(old(items)) && ts == old(ts) && items == old(items) && Requests == old(Requests)
      ensures !ServesFromCache(old(ts), old(items), now) ==>
        r == FetchFrom(src, 1) && Requests == old(Requests) + PagesRequested(src, 1)
      ensures !ServesFromCache(old(ts), old(items), now) && r.Ok? ==> ts == now && items == r.value
      ensures r.Err? ==> ts == old(ts) && items == old(items)
    {
      if now - ts < Ttl && items != [] {
        return Ok(items);
      }
      var fetched: seq<Product> := [];
      var page: nat := 1;
      PrependAppend([], [], FetchFrom(src, 1));
      while true
        invariant 1 <= page <= |src| + 1
        invariant FetchFrom(src, 1) == Prepend(fetched, FetchFrom(src, page))
        invariant Requests + PagesRequested(src, page) == old(Requests) + PagesRequested(src, 1)
        invariant ts == old(ts) && items == old(items)
        decreases |src| + 1 - page
      {
        var response := PageAt(src, page);
        Requests := Requests + [page];
        if response.Err? {
          return Err(response.error);
        }
        var batch := response.value;
        if batch == [] {
          assert fetched + batch == fetched;
          break;
        }
        PrependAppend(fetched, batch, FetchFrom(src, page + 1));
        fetched := fetched + batch;
        if |batch| < PerPage {
          break;
        }
        page := page + 1;
      }
      ts := now;
      items := fetched;
      r := Ok(fetched);
    }
  }

  /**
   * Two calls in a row: a non-empty catalog fetched at `t0` is served again at
   * `t1` without a page request while `t1 - t0 < 600`; at 600 or later, or when
   * the fetched catalog was empty, the second call refetches.
   */
  method CallTwice(cache: CatalogCache, t0: int, t1: int, src: seq<PageResponse>)
    returns (first: Result<seq<Product>, FetchError>, second: Result<seq<Product>, FetchError>)
    requires !ServesFromCache(cache.ts, cache.items, t0)
    modifies cache
    ensures first == FetchFrom(src, 1)
    ensures first.Ok? && first.value != [] && t1 - t0 < Ttl ==>
      second == first && cache.Requests == old(cache.Requests) + PagesRequested(src, 1)
    ensures first.Ok? && (first.value == [] || t1 - t0 >= Ttl) ==>
      cache.Requests == old(cache.Requests) + PagesRequested(src, 1) + PagesRequested(src, 1)
  {
    first := cache.FetchProducts(t0, src);
    second := cache.FetchProducts(t1, src);
  }
}
