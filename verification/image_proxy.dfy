/** `getProxiedImageUrl` (image-proxy.js): external image URLs are routed
    through the server's image proxy; everything else is used as is. The
    page's origin, the URL parser and `encodeURIComponent` are parameters. */
module ImageProxy {
  import opened Basics
  import opened Text

  /** What `new URL(text)` yields: its origin, or `None` when it throws. */
  type UrlParser = string -> Option<string>

  /** The path of the server's proxy endpoint with its query key. */
  const ProxyPrefix: string := "/api/image-proxy?url="

  /** The proxied URL of an image, given the page origin, the URL parser and
      the URI-component encoder. */
  function ProxiedUrl(url: string, pageOrigin: string, originOf: UrlParser, encode: string -> string): (r: string)
    ensures r == url || r == ProxyPrefix + encode(url)
  {
    if url == "" then url
    else if StartsWith(url, "data:") || StartsWith(url, "/") || !StartsWith(url, "http") then url
    else match originOf(url)
      case None => url
      case Some(origin) => if origin == pageOrigin then url else ProxyPrefix + encode(url)
  }

  /** An image is proxied exactly when it is an absolute `http` URL that parses
      and names another origin. */
  predicate External(url: string, pageOrigin: string, originOf: UrlParser)
  {
    StartsWith(url, "http") && originOf(url).Some? && originOf(url).value != pageOrigin
  }

  /** The proxy rewrites exactly the external URLs; every other input, the
      empty text included, comes back unchanged. */
  lemma ProxiedIffExternal(url: string, pageOrigin: string, originOf: UrlParser, encode: string -> string)
    ensures External(url, pageOrigin, originOf) ==> ProxiedUrl(url, pageOrigin, originOf, encode) == ProxyPrefix + encode(url)
    ensures !External(url, pageOrigin, originOf) ==> ProxiedUrl(url, pageOrigin, originOf, encode) == url
  {
    if StartsWith(url, "http") {
      assert url[0] == 'h';
      assert !StartsWith(url, "/") by { assert url[..1] != "/"; }
      assert !StartsWith(url, "data:") by { if |url| >= 5 { assert url[..5][0] == 'h'; } }
    }
  }

  /** A proxied URL starts with '/'. */
  lemma ProxiedStartsWithSlash(url: string, pageOrigin: string, originOf: UrlParser, encode: string -> string)
    requires ProxiedUrl(url, pageOrigin, originOf, encode) != url
    ensures StartsWith(ProxiedUrl(url, pageOrigin, originOf, encode), "/")
  {
    var r := ProxiedUrl(url, pageOrigin, originOf, encode);
    assert r[..1] == ProxyPrefix[..1];
  }

  /** Proxying twice is proxying once: a proxied URL is a path and is left
      alone. */
  lemma ProxyIdempotent(url: string, pageOrigin: string, originOf: UrlParser, encode: string -> string)
    ensures var once := ProxiedUrl(url, pageOrigin, originOf, encode);
            ProxiedUrl(once, pageOrigin, originOf, encode) == once
  {
    var once := ProxiedUrl(url, pageOrigin, originOf, encode);
    if once != url {
      ProxiedStartsWithSlash(url, pageOrigin, originOf, encode);
    }
  }
}
