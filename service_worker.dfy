/**
 * web/service-worker.js: the browser-side worker. It sends media requests
 * (playlists and segments) through `handleCorsRequest`, which adds CORS
 * headers to the answer or falls back to a 503, passes every other request
 * on untouched, and deletes stale caches when it activates.
 */
module ServiceWorker {
  import opened Wrappers
  import opened Strings
  import opened FetchApi

  const CacheName := "iptv-player-v1"
  const CorsProxyEnabled := true

  /** The parts of `new URL(event.request.url)` the worker reads: the path and the decoded query pairs. */
  datatype RequestUrl = RequestUrl(pathname: string, query: seq<Param>)

  /** `isMediaRequest`. */
  predicate IsMediaRequest(url: RequestUrl) {
    EndsWith(url.pathname, ".m3u8") || EndsWith(url.pathname, ".ts") || EndsWith(url.pathname, ".m3u")
    || HasParam(url.query, "stream")
  }

  const MediaExtensions := {"m3u8", "ts", "m3u"}

  /** The text after the last dot of a path, when the path has a dot. */
  function Extension(pathname: string): Option<string> {
    var pieces := Split(pathname, '.');
    if |pieces| > 1 then Some(pieces[|pieces| - 1]) else None
  }

  /** A request is a media request exactly when its path has a playlist or segment extension, or its query a `stream` key. */
  lemma MediaRequestByExtension(url: RequestUrl)
    ensures IsMediaRequest(url) <==>
            (Extension(url.pathname).Some? && Extension(url.pathname).value in MediaExtensions) || HasParam(url.query, "stream")
  {
    assert ".m3u8" == ['.'] + "m3u8" && ".ts" == ['.'] + "ts" && ".m3u" == ['.'] + "m3u";
    LastPiece(url.pathname, "m3u8", '.');
    LastPiece(url.pathname, "ts", '.');
    LastPiece(url.pathname, "m3u", '.');
  }

  /** Where the fetch listener sends a request. */
  datatype Route = CorsRequest | PlainFetch

  function RouteOf(url: RequestUrl): (r: Route)
    ensures r == CorsRequest <==> IsMediaRequest(url)
  {
    if CorsProxyEnabled && IsMediaRequest(url) then CorsRequest else PlainFetch
  }

  /** The three headers `handleCorsRequest` sets on the answer. */
  const CorsOverrides: HeaderMap := map[
    "access-control-allow-origin" := "*",
    "access-control-allow-methods" := "GET, POST, OPTIONS",
    "access-control-allow-headers" := "Content-Type"
  ]

  /** The upstream headers with the three CORS values in force and every other header as it was. */
  function Overridden(upstream: HeaderMap): HeaderMap {
    map k | k in upstream.Keys + CorsOverrides.Keys :: if k in CorsOverrides then CorsOverrides[k] else upstream[k]
  }

  const FallbackText := "Service Worker: Failed to fetch resource"

  /** The answer when anything in `handleCorsRequest` throws. */
  function Fallback(): (r: Response)
    ensures r == Response(503, "Service Unavailable", map["content-type" := "text/plain"], Some(FallbackText))
  {
    var made := NewResponse(Text(FallbackText), 503, "Service Unavailable", map["content-type" := "text/plain"]);
    assert made.Success?;
    made.value
  }

  /** The upstream answer can be handed to `new Response` again: a status in 200..599, and no body at a null-body status. */
  predicate Rebuildable(upstream: Response) {
    200 <= upstream.status <= 599 && (upstream.body.None? || !NullBodyStatus(upstream.status))
  }

  /**
   * `handleCorsRequest`, given what the network does with the request: the
   * upstream answer with status, status text and body kept and the three
   * CORS headers set, or the 503 fallback when the fetch (or the rebuilt
   * response) throws.
   */
  method HandleCorsRequest(network: Result<Response>) returns (response: Response)
    ensures network.Failure? ==> response == Fallback()
    ensures network.Success? && Rebuildable(network.value) ==>
      response == Response(network.value.status, network.value.statusText, Overridden(network.value.headers), network.value.body)
    ensures network.Success? && !Rebuildable(network.value) ==> response == Fallback()
  {
    if network.Failure? {
      return Fallback();
    }
    var upstream := network.value;
    var modifiedHeaders := upstream.headers;
    modifiedHeaders := modifiedHeaders["access-control-allow-origin" := "*"];
    modifiedHeaders := modifiedHeaders["access-control-allow-methods" := "GET, POST, OPTIONS"];
    modifiedHeaders := modifiedHeaders["access-control-allow-headers" := "Content-Type"];
    SetsGiveOverridden(upstream.headers);
    var body := if upstream.body.Some? then Content(upstream.body.value) else NoBody;
    var made := NewResponse(body, upstream.status, upstream.statusText, modifiedHeaders);
    if made.Failure? {
      return Fallback();
    }
    response := made.value;
  }

  lemma SetsGiveOverridden(upstream: HeaderMap)
    ensures upstream["access-control-allow-origin" := "*"]["access-control-allow-methods" := "GET, POST, OPTIONS"]
                    ["access-control-allow-headers" := "Content-Type"]
            == Overridden(upstream)
  {
  }

  /** Every header other than the three CORS ones comes through with its upstream value. */
  lemma OtherHeadersKept(upstream: HeaderMap)
    ensures forall k :: k in CorsOverrides ==> k in Overridden(upstream) && Overridden(upstream)[k] == CorsOverrides[k]
    ensures forall k :: k !in CorsOverrides ==> (k in Overridden(upstream) <==> k in upstream)
    ensures forall k :: k !in CorsOverrides && k in upstream ==> Overridden(upstream)[k] == upstream[k]
  {
  }

  /**
   * The fetch listener, given what the network does with the request: a
   * media request gets `handleCorsRequest`'s answer, which is always a
   * response; any other request gets the network's own outcome, a failure
   * included.
   */
  method OnFetch(url: RequestUrl, network: Result<Response>) returns (outcome: Result<Response>)
    ensures !IsMediaRequest(url) ==> outcome == network
    ensures IsMediaRequest(url) ==> outcome.Success?
    ensures IsMediaRequest(url) && network.Failure? ==> outcome == Success(Fallback())
    ensures IsMediaRequest(url) && network.Success? && Rebuildable(network.value) ==>
      outcome == Success(Response(network.value.status, network.value.statusText,
                                  Overridden(network.value.headers), network.value.body))
    ensures IsMediaRequest(url) && network.Success? && !Rebuildable(network.value) ==>
      outcome == Success(Fallback())
  {
    if RouteOf(url) == CorsRequest {
      var response := HandleCorsRequest(network);
      outcome := Success(response);
    } else {
      outcome := network;
    }
  }

  /** The activate step: the caches to delete are the listed names other than the current one, in order. */
  function CachesToDelete(names: seq<string>): (r: seq<string>)
    ensures forall n :: n in r <==> n in names && n != CacheName
    ensures multiset(r) == multiset(names)[CacheName := 0]
    decreases |names|
  {
    if names == [] then []
    else
      assert names == [names[0]] + names[1..];
      (if names[0] != CacheName then [names[0]] else []) + CachesToDelete(names[1..])
  }
}
