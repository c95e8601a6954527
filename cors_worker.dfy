/**
 * cloudflare-worker/cors-proxy.js: the edge relay. It answers preflights,
 * fetches the `url` parameter, rewrites HLS playlists so that every
 * segment goes through the worker again, and adds CORS headers.
 *
 * The platform's URL parser and the network are parameters: `parse` is
 * `new URL(s)`, `resolve(ref, base)` is `new URL(ref, base).href` and
 * `fetch` is the upstream call, each with a message when it throws.
 */
module CorsWorker {
  import opened Wrappers
  import opened Strings
  import opened FetchApi
  import PercentEncoding
  import PhpProxy

  /** The incoming request: method, URL, the URL's decoded query pairs and the `User-Agent` header. */
  datatype WorkerRequest = WorkerRequest(verb: string, url: string, query: seq<Param>, userAgent: Option<string>)

  /** The parts of a parsed `URL` the worker reads. */
  datatype ParsedUrl = ParsedUrl(href: string, origin: string)

  /** The request handed to `fetch`. */
  datatype FetchRequest = FetchRequest(url: string, verb: string, headers: HeaderMap)

  /** `handleOptions`: the headers of a preflight answer. */
  const PreflightHeaders: HeaderMap := map[
    "access-control-allow-origin" := "*",
    "access-control-allow-methods" := "GET, OPTIONS",
    "access-control-allow-headers" := "Content-Type, Range",
    "access-control-max-age" := "86400"
  ]

  /** The four headers set on every relayed response. */
  const CorsValues: HeaderMap := map[
    "access-control-allow-origin" := "*",
    "access-control-allow-methods" := "GET, OPTIONS",
    "access-control-allow-headers" := "Content-Type, Range",
    "access-control-expose-headers" := "Content-Length, Content-Range, Accept-Ranges"
  ]

  /** The upstream headers with the CORS values in force: every upstream header survives unless it is one of them. */
  function Decorated(upstream: HeaderMap): HeaderMap {
    map k | k in upstream.Keys + CorsValues.Keys :: if k in CorsValues then CorsValues[k] else upstream[k]
  }

  /** `handleOptions`: 204, a null body and exactly the four preflight headers. */
  function HandleOptions(): (r: Response)
    ensures r.status == 204 && r.statusText == "" && r.body.None?
    ensures r.headers == PreflightHeaders
  {
    var made := NewResponse(NoBody, 204, "", PreflightHeaders);
    assert made.Success?;
    made.value
  }

  /** The answer to any thrown error: 500, plain text `Proxy error: <message>`, open to every origin. */
  function ProxyError(message: string): (r: Response)
    ensures r.status == 500 && r.body == Some("Proxy error: " + message)
    ensures r.headers == map["content-type" := "text/plain", "access-control-allow-origin" := "*"]
  {
    var made := NewResponse(Text("Proxy error: " + message), 500, "",
                            map["content-type" := "text/plain", "access-control-allow-origin" := "*"]);
    assert made.Success?;
    made.value
  }

  /** The playlist test: an upstream content type mentioning `mpegurl` or `m3u8`, or a target URL ending in `.m3u8`. */
  predicate IsM3u8(contentType: string, targetUrl: string) {
    Contains(contentType, "mpegurl") || Contains(contentType, "m3u8") || EndsWith(targetUrl, ".m3u8")
  }

  /** A target URL that passes the worker's URL test also passes the one in the PHP relay, whatever the body. */
  lemma UrlTestImpliesPhpTest(targetUrl: string, body: string)
    requires EndsWith(targetUrl, ".m3u8")
    ensures PhpProxy.IsM3u8(targetUrl, body)
  {
    EndsWithImpliesContains(targetUrl, ".m3u8");
  }

  /** `request.url.split('?')[0]`: the worker's own URL without its query. */
  function ProxyBase(request: WorkerRequest): string {
    Split(request.url, '?')[0]
  }

  /** The upstream request: the target with the caller's `User-Agent` (or `Mozilla/5.0`) and the target's origin as `Referer`. */
  function Outgoing(targetUrl: string, userAgent: Option<string>, target: ParsedUrl): FetchRequest {
    var agent := if userAgent.Some? && userAgent.value != "" then userAgent.value else "Mozilla/5.0";
    FetchRequest(targetUrl, "GET", map["user-agent" := agent, "referer" := target.origin])
  }

  // ---------------------------------------------------------------------
  // rewriteM3u8

  /** A line is copied as it is when it trims to nothing or to a `#` comment or tag. */
  predicate KeptVerbatim(line: string) {
    var t := JsTrim(line);
    StartsWith(t, "#") || t == ""
  }

  /** The URL a segment line stands for: itself when absolute http(s), else resolved against the playlist. */
  function SegmentUrl(trimmed: string, baseHref: string, resolve: (string, string) -> Result<string>): Result<string> {
    if IsAbsoluteHttp(trimmed) then Success(trimmed) else resolve(trimmed, baseHref)
  }

  function RewriteLine(line: string, baseHref: string, proxyBase: string, resolve: (string, string) -> Result<string>): Result<string> {
    if KeptVerbatim(line) then Success(line)
    else
      match SegmentUrl(JsTrim(line), baseHref, resolve)
      case Failure(e) => Failure(e)
      case Success(u) => Success(proxyBase + "?url=" + PercentEncoding.EncodeUriComponent(u))
  }

  /** `RewriteLine` with the playlist's base and the proxy base fixed. */
  function LineRewriter(baseHref: string, proxyBase: string, resolve: (string, string) -> Result<string>): string -> Result<string> {
    line => RewriteLine(line, baseHref, proxyBase, resolve)
  }

  /** Each line through `f` in order; the first line that throws ends the walk with its error. */
  function MapLines(lines: seq<string>, f: string -> Result<string>): (r: Result<seq<string>>)
    ensures r.Success? ==> |r.value| == |lines|
    ensures r.Success? ==> forall k :: 0 <= k < |lines| ==> f(lines[k]) == Success(r.value[k])
    ensures (forall k :: 0 <= k < |lines| ==> f(lines[k]).Success?) ==> r.Success?
    ensures r.Failure? ==>
      exists k :: 0 <= k < |lines| && f(lines[k]) == Failure(r.error) && forall j :: 0 <= j < k ==> f(lines[j]).Success?
    decreases |lines|
  {
    if lines == [] then Success([])
    else
      match f(lines[0])
      case Failure(e) => Failure(e)
      case Success(first) =>
        match MapLines(lines[1..], f)
        case Failure(e) => Failure(e)
        case Success(rest) =>
          assert forall k :: 1 <= k < |lines| ==> lines[k] == lines[1..][k - 1];
          Success([first] + rest)
  }

  /** What `rewriteM3u8(content, originalUrl, proxyBase)` resolves or rejects with. */
  function Rewrite(content: string, originalUrl: string, proxyBase: string,
                   parse: string -> Result<ParsedUrl>, resolve: (string, string) -> Result<string>): Result<string> {
    match parse(originalUrl)
    case Failure(e) => Failure(e)
    case Success(base) =>
      match MapLines(Split(content, '\n'), LineRewriter(base.href, proxyBase, resolve))
      case Failure(e) => Failure(e)
      case Success(out) => Success(Join(out, '\n'))
  }

  /** One more line that `f` maps to `l`, after lines that map to `out`. */
  lemma {:induction false} MapLinesSnoc(lines: seq<string>, out: seq<string>, line: string, l: string, f: string -> Result<string>)
    requires MapLines(lines, f) == Success(out)
    requires f(line) == Success(l)
    ensures MapLines(lines + [line], f) == Success(out + [l])
    decreases |lines|
  {
    if lines != [] {
      assert (lines + [line])[1..] == lines[1..] + [line];
      MapLinesSnoc(lines[1..], out[1..], line, l, f);
      assert (lines + [line])[0] == lines[0];
      assert [out[0]] + (out[1..] + [l]) == out + [l];
    } else {
      assert [line][1..] == [];
      assert [] + [line] == [line];
      assert [l] + [] == [] + [l];
    }
  }

  /** One more line that `f` throws on, after lines that all go through. */
  lemma {:induction false} MapLinesSnocFailure(lines: seq<string>, line: string, f: string -> Result<string>)
    requires MapLines(lines, f).Success?
    requires f(line).Failure?
    ensures MapLines(lines + [line], f) == Failure(f(line).error)
    decreases |lines|
  {
    if lines != [] {
      assert (lines + [line])[1..] == lines[1..] + [line];
      assert (lines + [line])[0] == lines[0];
      MapLinesSnocFailure(lines[1..], line, f);
    } else {
      assert [] + [line] == [line];
    }
  }

  /** Once a prefix of the playlist throws, the rest of it is never looked at. */
  lemma {:induction false} MapLinesStops(lines: seq<string>, more: seq<string>, f: string -> Result<string>)
    requires MapLines(lines, f).Failure?
    ensures MapLines(lines + more, f) == MapLines(lines, f)
    decreases |lines|
  {
    assert (lines + more)[0] == lines[0];
    assert (lines + more)[1..] == lines[1..] + more;
    if f(lines[0]).Success? {
      MapLinesStops(lines[1..], more, f);
    }
  }

  /** Lines that `f` leaves as they are come back as they are. */
  lemma {:induction false} MapLinesIdentity(lines: seq<string>, f: string -> Result<string>)
    requires forall k :: 0 <= k < |lines| ==> f(lines[k]) == Success(lines[k])
    ensures MapLines(lines, f) == Success(lines)
    decreases |lines|
  {
    if lines != [] {
      assert forall k :: 0 <= k < |lines[1..]| ==> lines[1..][k] == lines[k + 1];
      MapLinesIdentity(lines[1..], f);
      assert [lines[0]] + lines[1..] == lines;
    }
  }

  /** The `for…of` loop of `rewriteM3u8`; a line that cannot be resolved makes the call reject. */
  method RewriteM3u8(content: string, originalUrl: string, proxyBase: string,
                     parse: string -> Result<ParsedUrl>, resolve: (string, string) -> Result<string>)
    returns (r: Result<string>)
    ensures r == Rewrite(content, originalUrl, proxyBase, parse, resolve)
  {
    var lines := Split(content, '\n');
    var baseUrl := parse(originalUrl);
    if baseUrl.Failure? {
      return Failure(baseUrl.error);
    }
    ghost var f := LineRewriter(baseUrl.value.href, proxyBase, resolve);
    var rewritten: seq<string> := [];
    for i := 0 to |lines|
      invariant MapLines(lines[..i], f) == Success(rewritten)
    {
      var line := lines[i];
      PrefixStep(lines, i);
      var trimmed := JsTrim(line);
      if StartsWith(trimmed, "#") || trimmed == "" {
        MapLinesSnoc(lines[..i], rewritten, line, line, f);
        rewritten := rewritten + [line];
        continue;
      }
      var segmentUrl := trimmed;
      if !StartsWith(segmentUrl, "http://") && !StartsWith(segmentUrl, "https://") {
        var resolved := resolve(segmentUrl, baseUrl.value.href);
        if resolved.Failure? {
          MapLinesSnocFailure(lines[..i], line, f);
          MapLinesStops(lines[..i + 1], lines[i + 1..], f);
          return Failure(resolved.error);
        }
        segmentUrl := resolved.value;
      }
      var proxiedUrl := proxyBase + "?url=" + PercentEncoding.EncodeUriComponent(segmentUrl);
      MapLinesSnoc(lines[..i], rewritten, line, proxiedUrl, f);
      rewritten := rewritten + [proxiedUrl];
    }
    assert lines[..|lines|] == lines;
    r := Success(Join(rewritten, '\n'));
  }

  // ---------------------------------------------------------------------
  // Properties of the rewrite

  lemma RewrittenLineHasNoNewline(line: string, baseHref: string, proxyBase: string, resolve: (string, string) -> Result<string>)
    requires '\n' !in line && '\n' !in proxyBase
    requires RewriteLine(line, baseHref, proxyBase, resolve).Success?
    ensures '\n' !in RewriteLine(line, baseHref, proxyBase, resolve).value
  {
    if !KeptVerbatim(line) {
      var u := SegmentUrl(JsTrim(line), baseHref, resolve).value;
      var enc := PercentEncoding.EncodeUriComponent(u);
      PercentEncoding.EncodeUriComponentHasNoNewline(u);
      assert '\n' !in "?url=";
      assert RewriteLine(line, baseHref, proxyBase, resolve).value == proxyBase + "?url=" + enc;
    }
  }

  /**
   * A playlist that rewrites has as many lines as the input, line `k` being
   * the rewrite of input line `k` (as long as the worker's own URL holds no
   * line break).
   */
  lemma OutputLines(content: string, originalUrl: string, proxyBase: string,
                    parse: string -> Result<ParsedUrl>, resolve: (string, string) -> Result<string>)
    requires '\n' !in proxyBase
    requires Rewrite(content, originalUrl, proxyBase, parse, resolve).Success?
    ensures var lines := Split(content, '\n');
            var out := Split(Rewrite(content, originalUrl, proxyBase, parse, resolve).value, '\n');
            |out| == |lines| && Success(out) == MapLines(lines, LineRewriter(parse(originalUrl).value.href, proxyBase, resolve))
  {
    var lines := Split(content, '\n');
    var baseHref := parse(originalUrl).value.href;
    var out := MapLines(lines, LineRewriter(baseHref, proxyBase, resolve)).value;
    SplitPieces(content, '\n');
    forall k | 0 <= k < |out| ensures '\n' !in out[k] {
      RewrittenLineHasNoNewline(lines[k], baseHref, proxyBase, resolve);
    }
    assert Rewrite(content, originalUrl, proxyBase, parse, resolve) == Success(Join(out, '\n'));
    SplitJoin(out, '\n');
  }

  /** A playlist made only of comment, tag and blank lines comes back unchanged once its URL parses. */
  lemma VerbatimPlaylistUnchanged(content: string, originalUrl: string, proxyBase: string,
                                  parse: string -> Result<ParsedUrl>, resolve: (string, string) -> Result<string>)
    requires parse(originalUrl).Success?
    requires forall k :: 0 <= k < |Split(content, '\n')| ==> KeptVerbatim(Split(content, '\n')[k])
    ensures Rewrite(content, originalUrl, proxyBase, parse, resolve) == Success(content)
  {
    var lines := Split(content, '\n');
    MapLinesIdentity(lines, LineRewriter(parse(originalUrl).value.href, proxyBase, resolve));
    JoinSplit(content, '\n');
  }

  /**
   * A segment line becomes `<proxyBase>?url=<encoded>`, and
   * `decodeURIComponent` of the parameter gives back exactly the URL the
   * line stands for.
   */
  lemma RewrittenLineDecodes(line: string, baseHref: string, proxyBase: string, resolve: (string, string) -> Result<string>)
    requires !KeptVerbatim(line)
    requires SegmentUrl(JsTrim(line), baseHref, resolve).Success?
    ensures var out := RewriteLine(line, baseHref, proxyBase, resolve);
            out.Success? && StartsWith(out.value, proxyBase + "?url=")
            && PercentEncoding.DecodeUriComponent(out.value[|proxyBase + "?url="|..])
               == Some(SegmentUrl(JsTrim(line), baseHref, resolve).value)
  {
    var prefix := proxyBase + "?url=";
    var u := SegmentUrl(JsTrim(line), baseHref, resolve).value;
    var enc := PercentEncoding.EncodeUriComponent(u);
    assert (prefix + enc)[|prefix|..] == enc;
    PercentEncoding.DecodeUriComponentEncode(u);
  }

  /** Unlike the PHP relay, which keeps a line holding just `0`, the worker treats it as a segment. */
  lemma ZeroLineRewritten(baseHref: string, proxyBase: string, resolve: (string, string) -> Result<string>)
    ensures RewriteLine("0", baseHref, proxyBase, resolve) != Success("0")
    ensures RewriteLine("0", baseHref, proxyBase, resolve).Success? ==> StartsWith(RewriteLine("0", baseHref, proxyBase, resolve).value, proxyBase + "?url=")
  {
    assert JsTrim("0") == "0";
    assert !KeptVerbatim("0");
  }

  // ---------------------------------------------------------------------
  // handleRequest

  /**
   * `handleRequest`. The checks run in order: OPTIONS, other non-GET
   * methods, a missing or empty `url`; then, inside the `try`, the target
   * must parse, the fetch must succeed, the playlist (whatever the upstream
   * status) must rewrite, and the response must be constructible, any
   * failure giving `ProxyError`.
   */
  method HandleRequest(request: WorkerRequest, parse: string -> Result<ParsedUrl>,
                       resolve: (string, string) -> Result<string>, fetch: FetchRequest -> Result<Response>)
    returns (response: Response)
    ensures request.verb == "OPTIONS" ==> response == HandleOptions()
    ensures request.verb != "OPTIONS" && request.verb != "GET" ==>
      response == Response(405, "", map["content-type" := TextPlainUtf8], Some("Method not allowed"))
    ensures request.verb == "GET" && GetParam(request.query, "url").GetOr("") == "" ==>
      response == Response(400, "", map["content-type" := "text/plain"], Some("Missing url parameter"))
    ensures request.verb == "GET" && GetParam(request.query, "url").GetOr("") != "" ==>
      var targetUrl := GetParam(request.query, "url").value;
      var target := parse(targetUrl);
      (target.Failure? ==> response == ProxyError(target.error))
      && (target.Success? ==>
        var fetched := fetch(Outgoing(targetUrl, request.userAgent, target.value));
        (fetched.Failure? ==> response == ProxyError(fetched.error))
        && (fetched.Success? ==>
          var upstream := fetched.value;
          var body := if IsM3u8(GetOrEmpty(upstream.headers, "content-type"), targetUrl)
                      then Rewrite(upstream.body.GetOr(""), targetUrl, ProxyBase(request), parse, resolve)
                      else Success(upstream.body.GetOr(""));
          (body.Failure? ==> response == ProxyError(body.error))
          && (body.Success? && 200 <= upstream.status <= 599 && !NullBodyStatus(upstream.status) ==>
                response == Response(upstream.status, upstream.statusText, Decorated(upstream.headers), Some(body.value)))
          && (body.Success? && !(200 <= upstream.status <= 599 && !NullBodyStatus(upstream.status)) ==>
                response == ProxyError(if 200 <= upstream.status <= 599 then NullBodyMessage else StatusRangeMessage))))
  {
    if request.verb == "OPTIONS" {
      return HandleOptions();
    } else if request.verb != "GET" {
      var made := NewResponse(Text("Method not allowed"), 405, "", map[]);
      return made.value;
    }

    var targetUrl := GetParam(request.query, "url");
    if targetUrl.None? || targetUrl.value == "" {
      var made := NewResponse(Text("Missing url parameter"), 400, "", map["content-type" := "text/plain"]);
      return made.value;
    }

    var target := parse(targetUrl.value);
    if target.Failure? {
      return ProxyError(target.error);
    }
    var fetched := fetch(Outgoing(targetUrl.value, request.userAgent, target.value));
    if fetched.Failure? {
      return ProxyError(fetched.error);
    }
    var upstream := fetched.value;

    var contentType := GetOrEmpty(upstream.headers, "content-type");
    var isM3u8 := Contains(contentType, "mpegurl") || Contains(contentType, "m3u8") || EndsWith(targetUrl.value, ".m3u8");
    var body := upstream.body.GetOr("");
    if isM3u8 {
      var rewritten := RewriteM3u8(body, targetUrl.value, Split(request.url, '?')[0], parse, resolve);
      if rewritten.Failure? {
        return ProxyError(rewritten.error);
      }
      body := rewritten.value;
    }

    var headers := upstream.headers;
    headers := headers["access-control-allow-origin" := "*"];
    headers := headers["access-control-allow-methods" := "GET, OPTIONS"];
    headers := headers["access-control-allow-headers" := "Content-Type, Range"];
    headers := headers["access-control-expose-headers" := "Content-Length, Content-Range, Accept-Ranges"];
    SetsGiveDecorated(upstream.headers);

    var made := NewResponse(Content(body), upstream.status, upstream.statusText, headers);
    if made.Failure? {
      return ProxyError(made.error);
    }
    response := made.value;
  }

  /** The four `headers.set` calls leave exactly the decorated headers. */
  lemma SetsGiveDecorated(upstream: HeaderMap)
    ensures upstream["access-control-allow-origin" := "*"]["access-control-allow-methods" := "GET, OPTIONS"]
                    ["access-control-allow-headers" := "Content-Type, Range"]
                    ["access-control-expose-headers" := "Content-Length, Content-Range, Accept-Ranges"]
            == Decorated(upstream)
  {
  }

  /** A relayed response keeps every upstream header except the four CORS ones, which take the worker's values. */
  lemma DecoratedHeaders(upstream: HeaderMap)
    ensures forall k :: k in CorsValues ==> k in Decorated(upstream) && Decorated(upstream)[k] == CorsValues[k]
    ensures forall k :: k !in CorsValues ==> (k in Decorated(upstream) <==> k in upstream)
    ensures forall k :: k !in CorsValues && k in upstream ==> Decorated(upstream)[k] == upstream[k]
  {
  }
}
