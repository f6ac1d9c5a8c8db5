/**
 * The product-link card shown under a post: the module-level product memo,
 * the mount-time fetch that fills it, the domain shown on plain cards and
 * the choice between the rich product card and the plain link card.
 */
module LinkCard {
  import opened Common
  import opened JsText

  /** `AmazonProduct`: what `/api/amazon-product` answers with. */
  datatype Product = Product(title: string, image: string, price: string)

  /** The module-level `productCache`, shared by every card on the page. */
  class ProductCache {
    var entries: map<string, Product>

    constructor()
      ensures entries == map[]
    {
      entries := map[];
    }
  }

  /** What one run of `fetchProductInfo` leaves behind, on values. */
  datatype FetchResult = FetchResult(requested: bool, productInfo: Option<Product>, cache: map<string, Product>)

  /** Only links whose text contains `amzn` are looked up at all. */
  predicate IsShortAmazonLink(url: string)
  {
    Includes(url, "amzn")
  }

  /** One run of `fetchProductInfo` for `url`, starting from the card's
      `productInfo` and the shared cache. `response` is what the request to
      the local API would give: `None` when it throws. */
  function Fetch(url: string, info: Option<Product>, cache: map<string, Product>, response: Option<Product>): (r: FetchResult)
    ensures r.requested <==> IsShortAmazonLink(url) && url !in cache
    ensures cache.Keys <= r.cache.Keys <= cache.Keys + {url}
    ensures forall u :: u in cache ==> r.cache[u] == cache[u]
    ensures IsShortAmazonLink(url) && url in r.cache ==> r.productInfo == Some(r.cache[url])
    ensures r.productInfo != info ==> IsShortAmazonLink(url) && url in r.cache
  {
    if !IsShortAmazonLink(url) then FetchResult(false, info, cache)
    else if url in cache then FetchResult(false, Some(cache[url]), cache)
    else match response
      case Some(data) => FetchResult(true, Some(data), cache[url := data])
      case None => FetchResult(true, info, cache)
  }

  /** A link without `amzn` is never looked up or fetched, and nothing changes. */
  lemma NonAmazonUntouched(url: string, info: Option<Product>, cache: map<string, Product>, response: Option<Product>)
    requires !IsShortAmazonLink(url)
    ensures var r := Fetch(url, info, cache, response);
            !r.requested && r.productInfo == info && r.cache == cache
  {
  }

  /** A cached product is used as is, without a request. */
  lemma CacheHit(url: string, info: Option<Product>, cache: map<string, Product>, response: Option<Product>)
    requires IsShortAmazonLink(url) && url in cache
    ensures var r := Fetch(url, info, cache, response);
            !r.requested && r.productInfo == Some(cache[url]) && r.cache == cache
  {
  }

  /** The cache is written only on success, and only under `url`. */
  lemma CacheWrittenOnSuccess(url: string, info: Option<Product>, cache: map<string, Product>, response: Option<Product>)
    ensures var r := Fetch(url, info, cache, response);
            r.cache != cache <==> r.requested && response.Some?
    ensures var r := Fetch(url, info, cache, response);
            r.cache != cache ==> r.cache == cache[url := response.value]
  {
    var r := Fetch(url, info, cache, response);
    if r.requested && response.Some? {
      assert url in r.cache && url !in cache;
    }
  }

  /** A failed request leaves the cache as it was, so the next card mounted
      for the same link asks again. */
  lemma FailureIsRetried(url: string, info: Option<Product>, cache: map<string, Product>, info2: Option<Product>, response2: Option<Product>)
    requires IsShortAmazonLink(url) && url !in cache
    ensures var r := Fetch(url, info, cache, None);
            r.requested && Fetch(url, info2, r.cache, response2).requested
  {
  }

  /** After a successful request, a later card for the same link is served
      from the cache with the same product, whatever the network would say. */
  lemma SuccessIsRemembered(url: string, info: Option<Product>, cache: map<string, Product>, p: Product, info2: Option<Product>, response2: Option<Product>)
    requires IsShortAmazonLink(url) && url !in cache
    ensures var r := Fetch(url, info, cache, Some(p));
            var r2 := Fetch(url, info2, r.cache, response2);
            r.productInfo == Some(p) && !r2.requested && r2.productInfo == Some(p) && r2.cache == r.cache
  {
  }

  /** One mounted `LinkCard`: its `url` prop and its two pieces of state. */
  class Card {
    const url: string
    var productInfo: Option<Product>
    var loading: bool

    /** `useState(null)` and `useState(true)`. */
    constructor(url: string)
      ensures this.url == url && productInfo == None && loading
    {
      this.url := url;
      productInfo := None;
      loading := true;
    }

    /** `fetchProductInfo`, run by the mount effect. `fetch` stands for the
        request to the local API: `None` when it throws. */
    method FetchProductInfo(cache: ProductCache, fetch: string -> Option<Product>) returns (requested: bool)
      modifies this, cache
      ensures !loading
      ensures var r := Fetch(url, old(productInfo), old(cache.entries), fetch(url));
              requested == r.requested && productInfo == r.productInfo && cache.entries == r.cache
    {
      if !IsShortAmazonLink(url) {
        loading := false;
        return false;
      }
      if url in cache.entries {
        productInfo := Some(cache.entries[url]);
        loading := false;
        return false;
      }
      requested := true;
      var response := fetch(url);
      match response {
        case Some(data) =>
          cache.entries := cache.entries[url := data];
          productInfo := Some(data);
        case None =>
      }
      loading := false;
    }
  }

  // -----------------------------------------------------------------------
  // rendering

  /** The domain shown on the card: the parsed host with its first `www.`
      removed, or the raw link when `new URL(url)` throws (`host == None`). */
  function Domain(url: string, host: Option<string>): (d: string)
    ensures host.None? ==> d == url
    ensures host.Some? && !Includes(host.value, "www.") ==> d == host.value
    ensures host.Some? && Includes(host.value, "www.") ==> |d| == |host.value| - 4
  {
    match host
    case None => url
    case Some(h) => ReplaceFirst(h, "www.", "")
  }

  /** A host that starts with `www.` is shown without it. */
  lemma DomainDropsLeadingWww(url: string, rest: string)
    ensures Domain(url, Some("www." + rest)) == rest
  {
    var h := "www." + rest;
    assert h[0..4] == "www.";
    assert IndexOf(h, "www.") == Some(0);
    assert h[4..] == rest;
  }

  /** Only the first `www.` goes: putting it back where it was gives the
      host again, and the domain before that point never contained one. */
  lemma DomainOnlyFirstWww(url: string, h: string)
    requires Includes(h, "www.")
    ensures var i := IndexOf(h, "www.").value;
            var d := Domain(url, Some(h));
            i <= |d| && d[..i] + "www." + d[i..] == h && !Includes(d[..i], "www.")
  {
    ReplaceFirstUndo(h, "www.");
  }

  /** `isAmazon`. */
  predicate IsAmazon(domain: string)
  {
    Includes(domain, "amazon") || Includes(domain, "amzn")
  }

  /** What the card renders: the pulsing skeleton while loading, the product
      card, or the plain link card with the domain and its initial. */
  datatype CardView =
    | Skeleton
    | Rich(href: string, image: string, title: string)
    | Plain(href: string, initial: string, domain: string)

  /** `charAt(0).toUpperCase()`: empty for an empty domain. */
  function Initial(domain: string): (s: string)
    ensures |s| <= 1 && (|s| == 1 <==> domain != [])
    ensures domain != [] ==> s[0] == UpperChar(domain[0])
  {
    if domain == [] then "" else [UpperChar(domain[0])]
  }

  function View(url: string, host: Option<string>, loading: bool, productInfo: Option<Product>): CardView
  {
    var domain := Domain(url, host);
    if loading then Skeleton
    else if IsAmazon(domain) && productInfo.Some? then
      Rich(url, productInfo.value.image, productInfo.value.title)
    else Plain(url, Initial(domain), domain)
  }

  /** The rich card is shown exactly when loading is over, the domain looks
      like Amazon and product information is present; otherwise, once loaded,
      the plain card shows the domain and its capitalised initial. */
  lemma ViewChoice(url: string, host: Option<string>, loading: bool, productInfo: Option<Product>)
    ensures View(url, host, loading, productInfo).Skeleton? <==> loading
    ensures View(url, host, loading, productInfo).Rich?
            <==> !loading && IsAmazon(Domain(url, host)) && productInfo.Some?
    ensures View(url, host, loading, productInfo).Rich? ==>
            View(url, host, loading, productInfo) == Rich(url, productInfo.value.image, productInfo.value.title)
    ensures View(url, host, loading, productInfo).Plain? ==>
            View(url, host, loading, productInfo) == Plain(url, Initial(Domain(url, host)), Domain(url, host))
  {
  }

  /** A freshly mounted card for a link without `amzn` ends up plain, even
      when its domain is an Amazon one: such links are never fetched. */
  lemma {:induction false} NonShortLinkRendersPlain(url: string, host: Option<string>, cache: map<string, Product>, response: Option<Product>)
    requires !IsShortAmazonLink(url)
    ensures View(url, host, false, Fetch(url, None, cache, response).productInfo).Plain?
  {
    NonAmazonUntouched(url, None, cache, response);
  }
}
