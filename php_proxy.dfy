/**
 * backend/api/proxy.php: the PHP relay. It validates the `url` parameter,
 * fetches the target, forwards a few upstream headers, and rewrites HLS
 * playlists so that every segment line points back at this same script.
 */
module PhpProxy {
  import opened Wrappers
  import opened Strings
  import opened PhpRuntime
  import PercentEncoding
  import Utf8

  /** What `parse_url` returns for the playlist URL; every component may be absent. */
  datatype UrlParts = UrlParts(scheme: Option<string>, host: Option<string>, port: Option<nat>, path: Option<string>)

  /** The `$_SERVER` entries the script reads to name itself. */
  datatype ServerVars = ServerVars(requestScheme: string, httpHost: string, scriptName: string)

  datatype ProxyRequest = ProxyRequest(verb: string, url: Option<string>, server: ServerVars)

  /**
   * One cURL transfer as the script observes it: the raw header lines handed
   * to the header callback, the returned body, the last HTTP status, and
   * `curl_error`, which is "" when the transfer succeeded.
   */
  datatype CurlTransfer = CurlTransfer(headerLines: seq<string>, body: string, httpCode: int, error: string)

  const PlaylistType := "application/vnd.apple.mpegurl"

  /** The four headers every response starts with. */
  const CorsHeaders := [
    Header("Access-Control-Allow-Origin", "*"),
    Header("Access-Control-Allow-Methods", "GET, POST, OPTIONS"),
    Header("Access-Control-Allow-Headers", "Content-Type, Range"),
    Header("Access-Control-Expose-Headers", "Content-Length, Content-Range, Accept-Ranges")
  ]

  /** Upstream headers the header callback passes on, by lower-case name. */
  const ForwardHeaders := ["content-type", "content-length", "content-range", "accept-ranges"]

  /** The part of a raw header line before its first colon, trimmed and lower-cased. */
  function HeaderName(header: string): string {
    AsciiLower(PhpTrim(header[..IndexOf(header, ':')]))
  }

  /** The part of a raw header line after its first colon, trimmed. */
  function HeaderText(header: string): string
    requires ':' in header
  {
    PhpTrim(header[IndexOf(header, ':') + 1..])
  }

  /** `explode(':', $header, 2)` splits at the first colon only: any later colon stays in the value. */
  lemma HeaderSplitAtFirstColon(a: string, b: string)
    requires ':' !in a
    ensures HeaderName(a + ":" + b) == AsciiLower(PhpTrim(a))
    ensures HeaderText(a + ":" + b) == PhpTrim(b)
  {
    var s := a + ":" + b;
    var i := IndexOf(s, ':');
    assert s[|a|] == ':';
    assert i == |a|;
    assert s[..i] == a;
    assert s[i + 1..] == b;
  }

  // ---------------------------------------------------------------------
  // The header callback (CURLOPT_HEADERFUNCTION)

  /** What one call of the header callback does: the byte count it returns to cURL and the header it emits. */
  datatype CallbackResult = CallbackResult(consumed: nat, emitted: Option<Header>)

  /**
   * One call of the header callback. `explode(':', $header, 2)` splits at
   * the first colon; a line without one emits nothing. The callback always
   * reports the whole line as consumed.
   */
  function HeaderCallback(header: string): (r: CallbackResult)
    ensures r.consumed == |Utf8.Encode(header)|
    ensures r.emitted.Some? <==> ':' in header && HeaderName(header) in ForwardHeaders
    ensures r.emitted.Some? ==> r.emitted.value == Header(HeaderName(header), HeaderText(header))
  {
    var len := |Utf8.Encode(header)|;
    if ':' in header then
      var name := HeaderName(header);
      var value := HeaderText(header);
      if name in ForwardHeaders then CallbackResult(len, Some(Header(name, value))) else CallbackResult(len, None)
    else CallbackResult(len, None)
  }

  /** The header list after cURL has handed every header line, in order, to the callback. */
  function ForwardAll(hs: seq<Header>, lines: seq<string>): seq<Header>
    decreases |lines|
  {
    if lines == [] then hs
    else
      var emitted := HeaderCallback(lines[0]).emitted;
      ForwardAll(if emitted.Some? then SetHeader(hs, emitted.value) else hs, lines[1..])
  }

  /** The transfer of a single header line. */
  lemma ForwardOne(hs: seq<Header>, line: string)
    ensures ForwardAll(hs, [line]) ==
      if HeaderCallback(line).emitted.Some? then SetHeader(hs, HeaderCallback(line).emitted.value) else hs
  {
    assert [line][1..] == [];
  }

  /**
   * The callback can only add or change allow-listed headers: any other
   * header keeps the value it had before the transfer, and names stay distinct.
   */
  lemma {:induction false} ForwardOnlyAllowListed(hs: seq<Header>, lines: seq<string>)
    requires DistinctNames(hs)
    ensures DistinctNames(ForwardAll(hs, lines))
    ensures forall n :: AsciiLower(n) !in ForwardHeaders ==> HeaderValue(ForwardAll(hs, lines), n) == HeaderValue(hs, n)
    decreases |lines|
  {
    if lines != [] {
      var emitted := HeaderCallback(lines[0]).emitted;
      if emitted.Some? {
        var h := emitted.value;
        SetHeaderEffect(hs, h);
        forall n | AsciiLower(n) !in ForwardHeaders ensures !SameName(n, h.name) {
          AsciiLowerIdempotent(PhpTrim(lines[0][..IndexOf(lines[0], ':')]));
          SameNameIsLowerEquality(n, h.name);
        }
        ForwardOnlyAllowListed(SetHeader(hs, h), lines[1..]);
      } else {
        ForwardOnlyAllowListed(hs, lines[1..]);
      }
    }
  }

  // ---------------------------------------------------------------------
  // Playlist rewriting

  /** `REQUEST_SCHEME://HTTP_HOST SCRIPT_NAME`: the URL of this script. */
  function ProxyBase(server: ServerVars): string {
    server.requestScheme + "://" + server.httpHost + server.scriptName
  }

  /** `"$scheme://$host$port"` for the playlist URL. */
  function Origin(base: UrlParts): string {
    Interpolate(base.scheme) + "://" + Interpolate(base.host)
    + (if base.port.Some? then ":" + DecimalString(base.port.value) else "")
  }

  /** `dirname($baseUrlParsed['path'])`; a missing path is null, which `dirname` sees as "". */
  function BaseDir(base: UrlParts): string {
    Dirname(Interpolate(base.path))
  }

  /** A line whose trimmed form is PHP-empty or starts with `#` is copied untouched. */
  predicate KeptVerbatim(line: string) {
    var t := PhpTrim(line);
    PhpEmpty(t) || t[0] == '#'
  }

  /** The absolute URL a segment line stands for. */
  function ResolveSegment(segment: string, base: UrlParts): string
    requires segment != ""
  {
    if IsAbsoluteHttp(segment) then segment
    else if segment[0] == '/' then Origin(base) + segment
    else Origin(base) + BaseDir(base) + "/" + segment
  }

  function RewriteLine(line: string, base: UrlParts, server: ServerVars): string {
    if KeptVerbatim(line) then line
    else ProxyBase(server) + "?url=" + PercentEncoding.UrlEncode(ResolveSegment(PhpTrim(line), base))
  }

  function RewriteLines(lines: seq<string>, base: UrlParts, server: ServerVars): (r: seq<string>)
    ensures |r| == |lines|
    ensures forall k :: 0 <= k < |lines| ==> r[k] == RewriteLine(lines[k], base, server)
  {
    if lines == [] then [] else [RewriteLine(lines[0], base, server)] + RewriteLines(lines[1..], base, server)
  }

  /** The playlist `rewriteM3u8` returns. */
  function Rewrite(content: string, base: UrlParts, server: ServerVars): string {
    Join(RewriteLines(Split(content, '\n'), base, server), '\n')
  }

  /** Rewriting one more line appends that line's rewrite. */
  lemma RewriteLinesSnoc(lines: seq<string>, line: string, l: string, base: UrlParts, server: ServerVars)
    requires l == RewriteLine(line, base, server)
    ensures RewriteLines(lines + [line], base, server) == RewriteLines(lines, base, server) + [l]
  {
    var a, b := RewriteLines(lines + [line], base, server), RewriteLines(lines, base, server) + [l];
    forall k | 0 <= k < |a| ensures a[k] == b[k] {
      assert (lines + [line])[k] == if k < |lines| then lines[k] else line;
    }
  }

  /** `rewriteM3u8($content, $baseUrl)`, with `parse_url($baseUrl)` given as `base`. */
  method RewriteM3u8(content: string, base: UrlParts, server: ServerVars) returns (r: string)
    ensures r == Rewrite(content, base, server)
  {
    var lines := Split(content, '\n');
    var rewritten: seq<string> := [];
    var baseUrlDir := Dirname(Interpolate(base.path));
    for i := 0 to |lines|
      invariant rewritten == RewriteLines(lines[..i], base, server)
    {
      var line := lines[i];
      PrefixStep(lines, i);
      var trimmed := PhpTrim(line);
      if PhpEmpty(trimmed) || trimmed[0] == '#' {
        RewriteLinesSnoc(lines[..i], line, line, base, server);
        rewritten := rewritten + [line];
        continue;
      }
      var segmentUrl := trimmed;
      if !StartsWith(segmentUrl, "http://") && !StartsWith(segmentUrl, "https://") {
        var scheme := Interpolate(base.scheme);
        var host := Interpolate(base.host);
        var port := if base.port.Some? then ":" + DecimalString(base.port.value) else "";
        if segmentUrl[0] == '/' {
          segmentUrl := scheme + "://" + host + port + segmentUrl;
        } else {
          segmentUrl := scheme + "://" + host + port + baseUrlDir + "/" + segmentUrl;
        }
      }
      assert segmentUrl == ResolveSegment(trimmed, base);
      var proxyUrl := server.requestScheme + "://" + server.httpHost + server.scriptName
                      + "?url=" + PercentEncoding.UrlEncode(segmentUrl);
      RewriteLinesSnoc(lines[..i], line, proxyUrl, base, server);
      rewritten := rewritten + [proxyUrl];
    }
    assert lines[..|lines|] == lines;
    r := Join(rewritten, '\n');
  }

  /** A rewritten line holds no line break, since `urlencode` never produces one. */
  lemma RewrittenLineHasNoNewline(line: string, base: UrlParts, server: ServerVars)
    requires '\n' !in line && '\n' !in ProxyBase(server)
    ensures '\n' !in RewriteLine(line, base, server)
  {
    if !KeptVerbatim(line) {
      var enc := PercentEncoding.UrlEncode(ResolveSegment(PhpTrim(line), base));
      PercentEncoding.UrlEncodeHasNoNewline(ResolveSegment(PhpTrim(line), base));
      assert '\n' !in "?url=";
      assert RewriteLine(line, base, server) == ProxyBase(server) + "?url=" + enc;
    }
  }

  /**
   * Line `k` of the rewritten playlist is the rewrite of line `k` of the
   * input, so the number of lines is preserved (as long as the script's
   * own URL holds no line break).
   */
  lemma OutputLines(content: string, base: UrlParts, server: ServerVars)
    requires '\n' !in ProxyBase(server)
    ensures Split(Rewrite(content, base, server), '\n') == RewriteLines(Split(content, '\n'), base, server)
    ensures |Split(Rewrite(content, base, server), '\n')| == |Split(content, '\n')|
  {
    var lines := Split(content, '\n');
    var out := RewriteLines(lines, base, server);
    SplitPieces(content, '\n');
    forall k | 0 <= k < |out| ensures '\n' !in out[k] {
      RewrittenLineHasNoNewline(lines[k], base, server);
    }
    SplitJoin(out, '\n');
  }

  /** A playlist made only of tags, comments and blank lines comes back exactly as it was. */
  lemma VerbatimPlaylistUnchanged(content: string, base: UrlParts, server: ServerVars)
    requires forall k :: 0 <= k < |Split(content, '\n')| ==> KeptVerbatim(Split(content, '\n')[k])
    ensures Rewrite(content, base, server) == content
  {
    var lines := Split(content, '\n');
    assert RewriteLines(lines, base, server) == lines;
    JoinSplit(content, '\n');
  }

  /**
   * Any other line becomes a link back to this script whose `url` value,
   * once `urldecode`d, is the UTF-8 text of the resolved segment URL.
   */
  lemma RewrittenLineDecodes(line: string, base: UrlParts, server: ServerVars)
    requires !KeptVerbatim(line)
    ensures var out := RewriteLine(line, base, server);
            var prefix := ProxyBase(server) + "?url=";
            StartsWith(out, prefix)
            && PercentEncoding.UrlDecode(out[|prefix|..]) == Utf8.Encode(ResolveSegment(PhpTrim(line), base))
            && Utf8.Decode(PercentEncoding.UrlDecode(out[|prefix|..])) == Some(ResolveSegment(PhpTrim(line), base))
  {
    var prefix := ProxyBase(server) + "?url=";
    var enc := PercentEncoding.UrlEncode(ResolveSegment(PhpTrim(line), base));
    assert (prefix + enc)[|prefix|..] == enc;
    PercentEncoding.UrlDecodeEncode(ResolveSegment(PhpTrim(line), base));
  }

  /** `"0"` is PHP-empty, so a line holding just `0` is not treated as a segment. */
  lemma ZeroLineKept(base: UrlParts, server: ServerVars)
    ensures RewriteLine("0", base, server) == "0"
  {
    TrimUntouched("0", IsPhpWhitespace);
    assert KeptVerbatim("0");
  }

  /**
   * A relative segment resolves next to the playlist: with a playlist path
   * `dir/file`, segment `seg` becomes `<origin>dir/seg`. At the root
   * (`dir` empty) `dirname` gives "/" and the result is `<origin>//seg`.
   */
  lemma RelativeSegmentSibling(segment: string, base: UrlParts, dir: string, file: string)
    requires segment != "" && segment[0] != '/' && !IsAbsoluteHttp(segment)
    requires base.path == Some(dir + "/" + file)
    requires file != [] && '/' !in file
    requires dir == [] || dir[|dir| - 1] != '/'
    ensures ResolveSegment(segment, base) == Origin(base) + (if dir == [] then "//" else dir + "/") + segment
  {
    DirnameOfFile(dir, file);
  }

  // ---------------------------------------------------------------------
  // The script

  /** The playlist test: `.m3u8` anywhere in the target URL, or a body starting with `#EXTM3U`. */
  predicate IsM3u8(targetUrl: string, body: string) {
    Contains(targetUrl, ".m3u8") || StartsWith(body, "#EXTM3U")
  }

  /** `$_GET['url'] ?? ''`. */
  function TargetUrl(req: ProxyRequest): string {
    req.url.GetOr("")
  }

  /** The request gets as far as the cURL transfer. */
  predicate Transfers(req: ProxyRequest, validUrl: string -> bool) {
    req.verb != "OPTIONS" && !PhpEmpty(TargetUrl(req)) && validUrl(TargetUrl(req))
  }

  /** The rewrite condition: a playlist fetched with status exactly 200. */
  predicate Rewrites(req: ProxyRequest, curl: CurlTransfer) {
    IsM3u8(TargetUrl(req), curl.body) && curl.httpCode == 200
  }

  lemma CorsNamesDiffer()
    ensures !SameName(CorsHeaders[0].name, CorsHeaders[1].name)
    ensures !SameName(CorsHeaders[0].name, CorsHeaders[2].name)
    ensures !SameName(CorsHeaders[0].name, CorsHeaders[3].name)
    ensures !SameName(CorsHeaders[1].name, CorsHeaders[2].name)
    ensures !SameName(CorsHeaders[1].name, CorsHeaders[3].name)
    ensures !SameName(CorsHeaders[2].name, CorsHeaders[3].name)
  {
    var a, b, c, d := CorsHeaders[0].name, CorsHeaders[1].name, CorsHeaders[2].name, CorsHeaders[3].name;
    NamesDiffer(a, b, 0);
    NamesDiffer(a, c, 0);
    NamesDiffer(a, d, 0);
    // Access-Control-Allow-Methods and -Headers first differ at index 21 (M vs H)
    NamesDiffer(b, c, 21);
    NamesDiffer(b, d, 0);
    NamesDiffer(c, d, 0);
  }

  lemma CorsHeadersDistinct()
    ensures DistinctNames(CorsHeaders)
  {
    CorsNamesDiffer();
  }

  lemma CorsNamesNotContentType()
    ensures NoneNamed(CorsHeaders, "Content-Type")
  {
    var a, b, c, d := CorsHeaders[0].name, CorsHeaders[1].name, CorsHeaders[2].name, CorsHeaders[3].name;
    NamesDiffer(a, "Content-Type", 0);
    NamesDiffer(b, "Content-Type", 0);
    NamesDiffer(c, "Content-Type", 0);
    NamesDiffer(d, "Content-Type", 0);
  }

  /** The four `header()` calls at the top of the script produce exactly the four CORS headers. */
  lemma CorsHeadersAreSet()
    ensures SetHeader(SetHeader(SetHeader(SetHeader([], CorsHeaders[0]), CorsHeaders[1]), CorsHeaders[2]), CorsHeaders[3]) == CorsHeaders
    ensures DistinctNames(CorsHeaders)
    ensures NoneNamed(CorsHeaders, "Content-Type")
  {
    CorsNamesDiffer();
    CorsNamesNotContentType();
    FourFreshHeaders(CorsHeaders[0], CorsHeaders[1], CorsHeaders[2], CorsHeaders[3]);
  }

  /**
   * The whole script for one request. The filter_var verdict and parse_url
   * are parameters; the transfer is only looked at once the URL passed
   * both checks.
   */
  method HandleRequest(req: ProxyRequest, validUrl: string -> bool, parseUrl: string -> UrlParts, curl: CurlTransfer)
    returns (reply: Reply)
    ensures req.verb == "OPTIONS" ==> reply == Reply(200, CorsHeaders, Raw(""))
    ensures req.verb != "OPTIONS" && PhpEmpty(TargetUrl(req)) ==>
      reply == Reply(400, CorsHeaders + [Header("Content-Type", JsonType)], ErrorBody("Missing url parameter"))
    ensures req.verb != "OPTIONS" && !PhpEmpty(TargetUrl(req)) && !validUrl(TargetUrl(req)) ==>
      reply == Reply(400, CorsHeaders + [Header("Content-Type", JsonType)], ErrorBody("Invalid URL"))
    ensures Transfers(req, validUrl) && !PhpEmpty(curl.error) ==>
      reply == Reply(500, SetHeader(ForwardAll(CorsHeaders, curl.headerLines), Header("Content-Type", JsonType)),
                     ErrorBody("Proxy error: " + curl.error))
      && HeaderValue(reply.headers, "Content-Type") == Some(JsonType)
    ensures Transfers(req, validUrl) && PhpEmpty(curl.error) ==>
      reply.status == (if curl.httpCode == 0 then 200 else curl.httpCode)
      && reply.body == Raw(if Rewrites(req, curl) then Rewrite(curl.body, parseUrl(TargetUrl(req)), req.server) else curl.body)
    ensures Transfers(req, validUrl) && PhpEmpty(curl.error) && Rewrites(req, curl) ==>
      reply.headers == SetHeader(ForwardAll(CorsHeaders, curl.headerLines), Header("Content-Type", PlaylistType))
      && HeaderValue(reply.headers, "Content-Type") == Some(PlaylistType)
    ensures Transfers(req, validUrl) && PhpEmpty(curl.error) && !Rewrites(req, curl) ==>
      reply.headers == ForwardAll(CorsHeaders, curl.headerLines)
    ensures Transfers(req, validUrl) ==>
      forall n :: AsciiLower(n) !in ForwardHeaders && !SameName(n, "Content-Type") ==>
        HeaderValue(reply.headers, n) == HeaderValue(CorsHeaders, n)
  {
    CorsHeadersAreSet();
    var headers: seq<Header> := [];
    headers := SetHeader(headers, Header("Access-Control-Allow-Origin", "*"));
    headers := SetHeader(headers, Header("Access-Control-Allow-Methods", "GET, POST, OPTIONS"));
    headers := SetHeader(headers, Header("Access-Control-Allow-Headers", "Content-Type, Range"));
    headers := SetHeader(headers, Header("Access-Control-Expose-Headers", "Content-Length, Content-Range, Accept-Ranges"));

    if req.verb == "OPTIONS" {
      return Reply(200, headers, Raw(""));
    }

    var targetUrl := req.url.GetOr("");
    if PhpEmpty(targetUrl) {
      SetHeaderFresh(headers, Header("Content-Type", JsonType));
      headers := SetHeader(headers, Header("Content-Type", JsonType));
      return Reply(400, headers, ErrorBody("Missing url parameter"));
    }
    if !validUrl(targetUrl) {
      SetHeaderFresh(headers, Header("Content-Type", JsonType));
      headers := SetHeader(headers, Header("Content-Type", JsonType));
      return Reply(400, headers, ErrorBody("Invalid URL"));
    }

    // cURL runs the header callback on every header line it receives.
    ForwardOnlyAllowListed(headers, curl.headerLines);
    headers := ForwardAll(headers, curl.headerLines);
    var response := curl.body;
    var httpCode := curl.httpCode;

    if !PhpEmpty(curl.error) {
      SetHeaderEffect(headers, Header("Content-Type", JsonType));
      headers := SetHeader(headers, Header("Content-Type", JsonType));
      return Reply(500, headers, ErrorBody("Proxy error: " + curl.error));
    }

    var isM3u8 := Contains(targetUrl, ".m3u8") || StartsWith(response, "#EXTM3U");
    if isM3u8 && httpCode == 200 {
      response := RewriteM3u8(response, parseUrl(targetUrl), req.server);
      SetHeaderEffect(headers, Header("Content-Type", PlaylistType));
      headers := SetHeader(headers, Header("Content-Type", PlaylistType));
    }
    reply := Reply(ResponseCode(DefaultStatus, httpCode), headers, Raw(response));
  }

  // ---------------------------------------------------------------------
  // The Content-Length a rewritten playlist keeps

  /** A playlist of one line is rewritten as that line. */
  lemma SingleLineRewrite(line: string, base: UrlParts, server: ServerVars)
    requires '\n' !in line
    ensures Rewrite(line, base, server) == RewriteLine(line, base, server)
  {
    SplitWithoutSep(line, '\n');
    assert RewriteLines([line], base, server) == [RewriteLine(line, base, server)];
  }

  /** A segment line without surrounding blanks comes out longer, in bytes, than it went in. */
  lemma RewrittenSegmentGrows(line: string, base: UrlParts, server: ServerVars)
    requires !KeptVerbatim(line) && PhpTrim(line) == line
    ensures |Utf8.Encode(RewriteLine(line, base, server))| > |Utf8.Encode(line)|
  {
    var target := ResolveSegment(line, base);
    assert |Utf8.Encode(target)| >= |Utf8.Encode(line)| by {
      if !IsAbsoluteHttp(line) {
        var origin := if line[0] == '/' then Origin(base) else Origin(base) + BaseDir(base) + "/";
        assert target == origin + line;
        Utf8.EncodeAppend(origin, line);
      }
    }
    PercentEncoding.UrlEncodeLength(target);
  }

  /** The callback reads an upstream `Content-Length` line, spelt in any case, as `content-length` with the trimmed value. */
  lemma LengthLineEmits(name: string, text: string)
    requires ':' !in name && AsciiLower(PhpTrim(name)) == ForwardHeaders[1]
    ensures HeaderCallback(name + ":" + text).emitted == Some(Header(ForwardHeaders[1], PhpTrim(text)))
  {
    var line := name + ":" + text;
    HeaderSplitAtFirstColon(name, text);
    assert line[|name|] == ':';
    assert HeaderName(line) in ForwardHeaders;
  }

  /** Such a line, as the only upstream header line, forwards its trimmed value. */
  lemma LengthLineForwarded(name: string, text: string)
    requires ':' !in name && AsciiLower(PhpTrim(name)) == ForwardHeaders[1]
    ensures HeaderValue(ForwardAll(CorsHeaders, [name + ":" + text]), ForwardHeaders[1]) == Some(PhpTrim(text))
  {
    var line := name + ":" + text;
    var length := Header(ForwardHeaders[1], PhpTrim(text));
    var after := SetHeader(CorsHeaders, length);
    assert ForwardAll(CorsHeaders, [line]) == after by {
      LengthLineEmits(name, text);
      ForwardOne(CorsHeaders, line);
    }
    assert HeaderValue(after, length.name) == Some(length.value) by {
      CorsHeadersDistinct();
      SetHeaderEffect(CorsHeaders, length);
    }
  }

  /**
   * On the rewrite path the only header call is the Content-Type one, so the
   * Content-Length the callback forwarded goes out unchanged. When upstream
   * announced the playlist's true length, the reply announces that length
   * for a body that is now longer: `Content-Length: 4` with the playlist `a.ts`.
   */
  lemma StaleContentLength(name: string, text: string, segment: string, base: UrlParts, server: ServerVars)
    requires ':' !in name && AsciiLower(PhpTrim(name)) == ForwardHeaders[1]
    requires PhpTrim(text) == DecimalString(|Utf8.Encode(segment)|)
    requires '\n' !in segment && !KeptVerbatim(segment) && PhpTrim(segment) == segment
    ensures HeaderValue(SetHeader(ForwardAll(CorsHeaders, [name + ":" + text]), Header("Content-Type", PlaylistType)), ForwardHeaders[1])
            == Some(DecimalString(|Utf8.Encode(segment)|))
    ensures |Utf8.Encode(Rewrite(segment, base, server))| > |Utf8.Encode(segment)|
  {
    var forwarded := ForwardAll(CorsHeaders, [name + ":" + text]);
    LengthLineForwarded(name, text);
    CorsHeadersDistinct();
    ForwardOnlyAllowListed(CorsHeaders, [name + ":" + text]);
    SetHeaderEffect(forwarded, Header("Content-Type", PlaylistType));
    SingleLineRewrite(segment, base, server);
    RewrittenSegmentGrows(segment, base, server);
  }

  /**
   * The header step a rewritten playlist needs: the upstream Content-Length
   * is removed (`header_remove`) before the playlist type is set, so the
   * server measures the new body itself.
   */
  function PlaylistHeaders(hs: seq<Header>): seq<Header> {
    SetHeader(RemoveFirstNamed(hs, "Content-Length"), Header("Content-Type", PlaylistType))
  }

  /** With that step no length survives, the type is the playlist type, and every other header is untouched. */
  lemma PlaylistHeadersDropLength(hs: seq<Header>)
    requires DistinctNames(hs)
    ensures DistinctNames(PlaylistHeaders(hs))
    ensures HeaderValue(PlaylistHeaders(hs), "Content-Length") == None
    ensures HeaderValue(PlaylistHeaders(hs), "Content-Type") == Some(PlaylistType)
    ensures forall n :: !SameName(n, "Content-Length") && !SameName(n, "Content-Type") ==>
      HeaderValue(PlaylistHeaders(hs), n) == HeaderValue(hs, n)
  {
    var ct := Header("Content-Type", PlaylistType);
    NamesDiffer("Content-Length", ct.name, 0);
    RemoveThenSet(hs, "Content-Length", ct);
  }
}
