/**
 * `get_dominant_hex` and the process-wide `_cache_colors` map it reads and writes.
 * Downloading, decoding, resizing and clustering an image are one abstract
 * extractor: a function from an image URL to the cluster centre that
 * `cluster_centers_[counts.argmax()]` selects, truncated by `.astype(int)`, or
 * `None` when any of those steps fails.
 */
module ColorMemo {
  import opened Wrappers
  import opened HexColor

  type Url = string

  /** What the extraction path yields for a URL, sentinel included. */
  function ExtractHex(extracted: Option<Rgb>): (hex: string)
    ensures IsHexColor(hex)
    ensures extracted.Some? ==> ParseHex(hex) == extracted
    ensures extracted.None? ==> hex == Sentinel
  {
    match extracted
    case Some(c) =>
      ParseRgbToHex(c.r, c.g, c.b);
      RgbToHex(c.r, c.g, c.b)
    case None => Sentinel
  }

  /**
   * The colour a cache holding `colors` answers for `url`: the stored value on a
   * hit, the extracted (or sentinel) colour on a miss.
   */
  function HexFor(colors: map<Url, string>, extract: Url -> Option<Rgb>, url: Url): string {
    if url in colors then colors[url] else ExtractHex(extract(url))
  }

  /** No element occurs twice. */
  ghost predicate Distinct<T>(s: seq<T>) {
    forall i, j :: 0 <= i < j < |s| ==> s[i] != s[j]
  }

  class ColorCache {
    /** `_cache_colors`: image URL to `#rrggbb`. */
    var colors: map<Url, string>
    /** The URLs the extractor has been run on, in order. */
    ghost var Extractions: seq<Url>

    /** Every stored value is a colour, and every key was extracted exactly once. */
    ghost predicate Valid()
      reads this
    {
      (forall u :: u in colors ==> IsHexColor(colors[u])) &&
      Distinct(Extractions) &&
      (forall u :: u in colors <==> u in Extractions)
    }

    constructor ()
      ensures Valid()
      ensures colors == map[] && Extractions == []
    {
      colors := map[];
      Extractions := [];
    }

    method GetDominantHex(url: Url, extract: Url -> Option<Rgb>) returns (hex: string)
      requires Valid()
      modifies this
      ensures Valid()
      ensures hex == HexFor(old(colors), extract, url)
      ensures colors == old(colors)[url := hex]
      ensures url in old(colors) ==> colors == old(colors) && Extractions == old(Extractions)
      ensures url !in old(colors) ==> Extractions == old(Extractions) + [url]
    {
      if url in colors {
        return colors[url];
      }
      hex := ExtractHex(extract(url));
      Extractions := Extractions + [url];
      colors := colors[url := hex];
    }
  }

  /** A second request for the same URL returns the same colour and runs no further extraction. */
  method RepeatedLookup(cache: ColorCache, url: Url, extract: Url -> Option<Rgb>) returns (first: string, second: string)
    requires cache.Valid()
    modifies cache
    ensures cache.Valid()
    ensures first == second == HexFor(old(cache.colors), extract, url)
    ensures |cache.Extractions| <= |old(cache.Extractions)| + 1
    ensures extract(url).None? && url !in old(cache.colors) ==> second == Sentinel
  {
    first := cache.GetDominantHex(url, extract);
    second := cache.GetDominantHex(url, extract);
  }
}
