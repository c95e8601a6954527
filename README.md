# IPTV web player: the CORS relays, modelled in Dafny

The IPTV web player plays HLS streams in the browser. Playlists and segments
usually live on servers that do not send CORS headers, so the repository has
three relays that fetch them on the player's behalf and add those headers:

- `backend/api/proxy.php`, a PHP relay;
- `cloudflare-worker/cors-proxy.js`, the same relay as a Cloudflare Worker;
- `web/service-worker.js`, a service worker that decorates media responses
  in the browser itself.

Both full relays rewrite HLS playlists (RFC 8216, section 4.1). Every URI
line is resolved against the playlist's own URL, percent-encoded, and
wrapped as `<relay URL>?url=<encoded>`, so that segment requests come back
through the relay. Comment, tag and blank lines pass through untouched.
The PHP copy resolves by hand with `dirname` and encodes with `urlencode`
(form encoding). The worker copy resolves with the platform `URL`
constructor and encodes with `encodeURIComponent`.

Two more PHP endpoints, `backend/api/config.php` and
`backend/api/services.php`, publish UI settings and the service list from a
settings file, with a default for every absent key.

## Layout

| file | module | what it holds |
|---|---|---|
| `wrappers.dfy` | `Wrappers` | `Option` and `Result` |
| `strings.dfy` | `Strings` | prefix/suffix/substring tests, split and join on one character, ASCII lower-casing, trimming by a white-space predicate, decimal digits |
| `utf8.dfy` | `Utf8` | UTF-8 encoding and strict decoding of code points |
| `percent_encoding.dfy` | `PercentEncoding` | PHP `urlencode`/`urldecode` and JavaScript `encodeURIComponent`/`decodeURIComponent` |
| `php_runtime.dfy` | `PhpRuntime` | the response state built by `header()`, `json_decode` values, `empty`, `trim`, `dirname`, `??` |
| `php_proxy.dfy` | `PhpProxy` | `backend/api/proxy.php` |
| `settings.dfy` | `Settings` | the prologue `config.php` and `services.php` share |
| `config_api.dfy` | `ConfigApi` | `backend/api/config.php` |
| `services_api.dfy` | `ServicesApi` | `backend/api/services.php` |
| `fetch_api.dfy` | `FetchApi` | `Headers`, the `Response` constructor, `URLSearchParams`, `String.prototype.trim` |
| `cors_worker.dfy` | `CorsWorker` | `cloudflare-worker/cors-proxy.js` |
| `service_worker.dfy` | `ServiceWorker` | `web/service-worker.js` |

## How the environment enters the model

- **PHP scripts.** They become functions or methods from their inputs to a
  `Reply`, which holds the status, the header list and the body.
  - A `header()` call is `SetHeader`. PHP removes every header of the same
    name, compared without regard to ASCII case, and appends the new one;
    `SetHeader` removes only the first. The two agree on a list whose names
    are distinct (`DistinctNames`), and every list the scripts build is one
    (`SetHeaderEffect`, `ForwardOnlyAllowListed`).
  - The `$_SERVER` and `$_GET` entries are fields of `ProxyRequest`.
  - The verdict of `filter_var(..., FILTER_VALIDATE_URL)` is the parameter
    `validUrl`, and `parse_url` is the parameter `parseUrl`.
  - The cURL transfer is the value `CurlTransfer`. It holds the header lines
    cURL hands to the callback, the body, the status and `curl_error`.
  - The settings file is `Missing` or `Present(decoded)`. `json_decode`
    gives null for both malformed text and a literal `null`, so both are
    `Present(JNull)`.
- **JavaScript workers.** They are methods from the request and the
  platform's behaviour to a `Response`.
  - `new URL(s)` is the parameter `parse`, and `new URL(ref, base).href` is
    `resolve`. Each returns a `Result` whose failure carries the thrown
    message.
  - `fetch` is the parameter `fetch` in the Cloudflare worker. In the
    service worker, the network's outcome is a `Result<Response>` value.
  - A `Headers` object is a map from lower-case names: `Headers` lower-cases
    names itself, so the model writes them in lower case.
- **Text.** Strings are sequences of Unicode scalar values. `urlencode`,
  `encodeURIComponent` and `strlen` work on their UTF-8 bytes. PHP strings
  that are not valid UTF-8 cannot be written down (see "Left out").

Two behaviours of the source are kept as written:

- A relative segment under a playlist at the root of its host resolves to
  `<origin>//segment`, because `dirname("/list.m3u8")` is `/`
  (`PhpProxy.RelativeSegmentSibling`).
- A line holding just `0` is kept by the PHP relay, because `empty("0")`
  is true (`PhpProxy.ZeroLineKept`). The worker rewrites that line
  (`CorsWorker.ZeroLineRewritten`).

## Model

| member | source | states |
|---|---|---|
| PhpProxy.HeaderCallback | backend/api/proxy.php:49-71 | the callback always reports the line's full byte length; it emits a header exactly when the line has a colon and the trimmed, lower-cased name before it is one of content-type, content-length, content-range, accept-ranges; the emitted header is that name with the trimmed text after the first colon |
| PhpProxy.HeaderSplitAtFirstColon | backend/api/proxy.php:51-55 | for a name part without a colon, the header name of `name:value` is the trimmed, lower-cased name part and its text is the whole trimmed value part, later colons included |
| PhpProxy.ForwardOnlyAllowListed | backend/api/proxy.php:49-71 | running the callback over any sequence of header lines keeps the names distinct and leaves the value of every header whose name is not allow-listed as it was |
| PhpProxy.CorsHeadersAreSet | backend/api/proxy.php:9-12 | the four opening `header()` calls produce exactly the four CORS headers, with distinct names and no Content-Type |
| PhpProxy.RewriteLines | backend/api/proxy.php:119-149 | one output line per input line, line k being the rewrite of line k |
| PhpProxy.RewriteM3u8 | backend/api/proxy.php:113-152 | the `foreach` loop returns the newline-join of the per-line rewrites of the exploded playlist, in order (`OutputLines` then gives the line-for-line correspondence) |
| PhpProxy.RewrittenLineHasNoNewline | backend/api/proxy.php:144-148 | a rewritten line holds no line break when the input line and the script URL hold none, since `urlencode` output never contains one |
| PhpProxy.OutputLines | backend/api/proxy.php:114-151 | the rewritten playlist has exactly as many newline-separated lines as the input, and line k is the rewrite of input line k |
| PhpProxy.VerbatimPlaylistUnchanged | backend/api/proxy.php:120-126 | a playlist whose every line trims to a PHP-empty string or starts with `#` comes back byte for byte, untrimmed |
| PhpProxy.RewrittenLineDecodes | backend/api/proxy.php:129-148 | every other line becomes `REQUEST_SCHEME://HTTP_HOST SCRIPT_NAME?url=` plus an encoding whose `urldecode` gives back the UTF-8 bytes of the resolved URL, and those bytes decode to that URL |
| PhpProxy.ZeroLineKept | backend/api/proxy.php:120-126 | a line holding just `0` is copied unchanged, because `empty("0")` is true |
| PhpProxy.RelativeSegmentSibling | backend/api/proxy.php:117-141 | a relative segment under a playlist path `dir/file` resolves to origin + `dir/` + segment; with `dir` empty it resolves to origin + `//` + segment |
| PhpProxy.HandleRequest | backend/api/proxy.php:9-108 | the checks in order: OPTIONS gives 200 with the CORS headers and an empty body; an empty or missing `url` gives 400 `Missing url parameter`; a URL failing validation gives 400 `Invalid URL`; a cURL error gives 500 `Proxy error: <msg>` as JSON, with the headers the callback left and Content-Type `application/json`; otherwise the upstream status, or 200 when cURL reports response code 0 (`http_response_code(0)` leaves PHP's default), with the body rewritten exactly when the status is 200 and the URL contains `.m3u8` or the body starts with `#EXTM3U` — then the headers are those the callback left with Content-Type `application/vnd.apple.mpegurl` — and else the body echoed with the headers the callback left; headers outside the allow-list and Content-Type keep their CORS values |
| PhpProxy.StaleContentLength | backend/api/proxy.php:49-104 | as written: an upstream `Content-Length` line announcing a one-segment playlist's true byte length goes out unchanged with the rewritten playlist, which is longer |
| PhpProxy.PlaylistHeadersDropLength | backend/api/proxy.php:101-104 | corrected header step for a rewritten playlist: no Content-Length remains, Content-Type is the playlist type, every other header keeps its value and names stay distinct |
| PhpRuntime.SetHeaderEffect | backend/api/proxy.php:66 | after `header()` the named header has exactly the new value, every other header keeps its value, and names stay distinct |
| PhpRuntime.SetHeaderFresh | backend/api/proxy.php:25 | `header()` with a name not yet present appends it |
| PhpRuntime.DirnameOfFile | backend/api/proxy.php:117 | `dirname(dir/file)` is `dir`, and `dirname(/file)` is `/` |
| PhpRuntime.DirnameOfBareName | backend/api/proxy.php:117 | `dirname` of a path without a slash is `.` |
| PhpRuntime.Coalesce | backend/api/config.php:40-45 | `$doc[$key] ?? $default` is the default when the key is absent or null, and the stored value otherwise |
| PercentEncoding.UrlEncode | backend/api/proxy.php:146 | `urlencode` output consists only of letters, digits, `-_.`, `+` and `%` |
| PercentEncoding.UrlDecodeEncode | backend/api/proxy.php:146 | `urldecode(urlencode(s))` is the UTF-8 encoding of `s`, which decodes back to `s` |
| PercentEncoding.EncodeUriComponent | cloudflare-worker/cors-proxy.js:129 | `encodeURIComponent` output consists only of letters, digits, `-_.!~*'()` and `%` |
| PercentEncoding.DecodeUriComponentEncode | cloudflare-worker/cors-proxy.js:129 | `decodeURIComponent(encodeURIComponent(s))` is `s` |
| Utf8.DecodeEncode | backend/api/proxy.php:146 | decoding the UTF-8 bytes of a string gives the string back |
| Settings.ApiHeadersAreSet | backend/api/config.php:7-10 | the four opening `header()` calls produce exactly the JSON and CORS headers, with distinct names |
| Settings.EarlyExit | backend/api/config.php:13-33 | the script goes on to build its payload exactly when the method is not OPTIONS and the file exists and does not decode to null; an early exit carries the shared headers and has status 200 exactly for OPTIONS |
| ConfigApi.ConfigData | backend/api/config.php:37-46 | `data` has exactly the six keys app_name, logo_url, primary_color, accent_color, features and version, each read with `??` and the key's default `IPTV Player`, empty, `#1a73e8`, `#00bcd4`, `[]`, `1.0.0` |
| ConfigApi.FieldCopiedOrDefaulted | backend/api/config.php:40-45 | a field present and non-null in the settings is copied unchanged; an absent or null one takes its default |
| ConfigApi.Handle | backend/api/config.php:7-47 | OPTIONS gives 200 with no body; a missing file gives 500 `Configuration file not found`; a null decode gives 500 `Invalid configuration file`; otherwise 200 with `{success: true, data}`; every reply carries the four headers |
| ConfigApi.OtherKeysHidden | backend/api/config.php:37-47 | a settings key outside the six published ones never affects the response |
| ConfigApi.NonObjectGivesDefaults | backend/api/config.php:27-45 | settings that decode to a list, string, number or boolean give all six defaults |
| ServicesApi.ServicesData | backend/api/services.php:36-45 | `data` has exactly `services` and `allow_custom`; `services` is the settings' value or `[]`, `allow_custom` is `allow_custom_service` or `true`, each default applying when the key is absent or null |
| ServicesApi.ExplicitFalseKept | backend/api/services.php:43 | an explicit `allow_custom_service: false` is published as `false` |
| ServicesApi.Handle | backend/api/services.php:7-45 | OPTIONS gives 200 with no body; a missing file gives 500 `Configuration file not found`; a null decode gives 500 `Invalid configuration file`, checked in that order; otherwise 200 with `{success: true, data}` |
| ServicesApi.SameFailures | backend/api/services.php:13-33 | on a preflight or a bad settings file both endpoints give the same reply |
| FetchApi.NewResponse | cloudflare-worker/cors-proxy.js:73-77 | `new Response` succeeds exactly for a status in 200..599 that is not a null-body status when a body is given; it keeps status, status text and body, and labels a string body `text/plain;charset=UTF-8` only when no content type is given |
| FetchApi.GetParam | cloudflare-worker/cors-proxy.js:27 | `searchParams.get` finds a value exactly when the name is present, and the value is that of the first pair with that name |
| CorsWorker.HandleOptions | cloudflare-worker/cors-proxy.js:91-102 | the preflight answer is 204 with a null body and exactly Allow-Origin `*`, Allow-Methods `GET, OPTIONS`, Allow-Headers `Content-Type, Range` and Max-Age `86400` |
| CorsWorker.ProxyError | cloudflare-worker/cors-proxy.js:79-87 | a thrown error gives 500, body `Proxy error: <message>`, exactly the headers Content-Type `text/plain` and Allow-Origin `*` |
| CorsWorker.UrlTestImpliesPhpTest | cloudflare-worker/cors-proxy.js:53-55 | a target URL ending in `.m3u8` also passes the PHP relay's playlist test, which looks for `.m3u8` anywhere |
| CorsWorker.MapLines | cloudflare-worker/cors-proxy.js:111-131 | the map succeeds exactly when no line throws, with one output line per input line, line k being that line's rewrite; otherwise it fails with the error of the first line that throws |
| CorsWorker.RewriteM3u8 | cloudflare-worker/cors-proxy.js:106-134 | the loop returns the newline-join of the per-line rewrites, or rejects with the error of the first line whose URL cannot be resolved, or of an unparsable playlist URL |
| CorsWorker.RewrittenLineHasNoNewline | cloudflare-worker/cors-proxy.js:128-130 | a rewritten line holds no line break when the input line and the proxy base hold none |
| CorsWorker.OutputLines | cloudflare-worker/cors-proxy.js:107-133 | a playlist that rewrites has exactly as many lines as the input, line k being the rewrite of input line k |
| CorsWorker.VerbatimPlaylistUnchanged | cloudflare-worker/cors-proxy.js:112-118 | a playlist whose every line trims to empty or starts with `#` comes back unchanged |
| CorsWorker.RewrittenLineDecodes | cloudflare-worker/cors-proxy.js:121-130 | every other line becomes `proxyBase?url=` plus an encoding whose `decodeURIComponent` is the trimmed line when it starts with `http://` or `https://`, and its resolution against the playlist URL otherwise |
| CorsWorker.ZeroLineRewritten | cloudflare-worker/cors-proxy.js:112-118 | a line holding just `0` is not kept: it is rewritten into a `proxyBase?url=` line or makes the rewrite throw |
| CorsWorker.HandleRequest | cloudflare-worker/cors-proxy.js:17-88 | OPTIONS gives the preflight answer; any other non-GET method gives 405 `Method not allowed`; a missing or empty `url` gives 400 text/plain `Missing url parameter` before anything is fetched; an unparsable target, a failed fetch, a failed rewrite or an unconstructible response gives `ProxyError` with its message; otherwise the upstream status and status text with the decorated upstream headers, and the body rewritten exactly when the content type mentions `mpegurl` or `m3u8` or the URL ends in `.m3u8`, whatever the status |
| CorsWorker.SetsGiveDecorated | cloudflare-worker/cors-proxy.js:67-71 | the four `headers.set` calls give the upstream headers with the four CORS values in force |
| CorsWorker.DecoratedHeaders | cloudflare-worker/cors-proxy.js:67-71 | the four CORS headers take the worker's values whatever upstream sent; every other upstream header is kept with its value and none is added |
| ServiceWorker.MediaRequestByExtension | web/service-worker.js:33-37 | a request is a media request exactly when the text after the last dot of its path is `m3u8`, `ts` or `m3u`, or its query has a `stream` key |
| ServiceWorker.RouteOf | web/service-worker.js:39-44 | with the proxy switch on, a request goes to `handleCorsRequest` exactly when it is a media request |
| ServiceWorker.Fallback | web/service-worker.js:77-83 | the fallback is 503 `Service Unavailable`, text/plain, body `Service Worker: Failed to fetch resource` |
| ServiceWorker.HandleCorsRequest | web/service-worker.js:48-85 | a fetch failure gives the fallback; an upstream response gives upstream status, status text and body with the three CORS headers set over the upstream ones; an upstream response the constructor rejects also gives the fallback |
| ServiceWorker.SetsGiveOverridden | web/service-worker.js:60-63 | the three `set` calls give the upstream headers with the three CORS values in force |
| ServiceWorker.OtherHeadersKept | web/service-worker.js:60-63 | the three CORS headers take the worker's values; every other upstream header is kept with its value and none is added |
| ServiceWorker.OnFetch | web/service-worker.js:29-45 | a non-media request gets the network's outcome unchanged, a failure included; a media request always gets a response: the fallback when the network fails or its response cannot be rebuilt, otherwise the upstream status, status text and body with the CORS headers overridden |
| ServiceWorker.CachesToDelete | web/service-worker.js:17-22 | the caches deleted are exactly the listed names other than `iptv-player-v1`, each occurrence once, and that name itself never |

## Left out

- The cURL transfer itself is an input value: redirects (`CURLOPT_MAXREDIRS`), the timeout, the disabled TLS verification, the `User-Agent` option and the forwarding of `HTTP_RANGE`.
- `filter_var(..., FILTER_VALIDATE_URL)` and `parse_url` are inputs (`validUrl`, `parseUrl`), not implementations.
- The URL standard is not modelled: `new URL` parsing and relative resolution in the worker are the parameters `parse` and `resolve`.
- `fetch` is a parameter. The service worker's request options (`mode`, `credentials`, the `Origin` header) are not modelled.
- `TextDecoder` and `TextEncoder` are not modelled: the worker's body is text throughout.
- JSON bodies are values: `json_encode` formatting, key order and its failure on invalid UTF-8 are not modelled.
- `file_exists`, `file_get_contents` and `json_decode` are summarised by the settings-file state; read errors and the nesting-depth limit are not modelled.
- PHP's default `Content-Type: text/html` for replies that set none, and the output buffering of `echo`, are not modelled.
- A `Headers` object holds one value per name: repeated upstream headers, which `get` would join with `, `, are not modelled.
- FetchApi.NewResponse: does not check the status text against the reason-phrase grammar. The wording of its two error messages is the model's own; the platform's wording is not specified.
- Strings cannot hold lone surrogates, so the `URIError` that `encodeURIComponent` throws on them is not modelled.
- The service worker's `install` and `message` listeners, `skipWaiting`, `clients.claim`, `console` logging and the `caches` promises are not modelled; the activate step is modelled only as the list of names it deletes.
- The `addEventListener`/`respondWith` wiring is not modelled beyond the routing decision of `OnFetch`.
- PhpProxy.OutputLines and CorsWorker.OutputLines: the script or worker URL must hold no line break; with one, the line count of the output could differ.
- PhpProxy.HandleRequest: the HTTP method is compared as given; the server's normalisation of it is not modelled.
- PhpRuntime.SetHeaderEffect: PHP's `header()` appends `;charset=UTF-8` (the `default_charset` setting) to a `text/*` Content-Type that names no charset, so a forwarded `Content-Type: text/plain` goes out as `text/plain;charset=UTF-8`; the model keeps every header value as given.
- PHP byte strings that are not valid UTF-8 cannot be expressed, since strings are sequences of Unicode scalar values: binary `.ts` segment bodies echoed by `backend/api/proxy.php`, playlists in Latin-1 (where `urlencode` turns byte 0xE9 into `%E9`, not `%C3%A9`), and `strlen` of header lines that are not UTF-8.

## Findings

| source | as written | input that shows it | evidently intended | confidence | as-written member | corrected member |
|---|---|---|---|---|---|---|
| backend/api/proxy.php:66, 101-104 | the header callback forwards the upstream `Content-Length`; after a playlist is rewritten only Content-Type is set again, so the reply announces the length of the original playlist | upstream headers `Content-Length: 4` and playlist `a.ts`: the reply still says 4 while its body is the longer `…?url=…` line | remove the forwarded Content-Length (`header_remove`) before setting the playlist type, so the server measures the new body | medium, not executed | PhpProxy.StaleContentLength | PhpProxy.PlaylistHeadersDropLength |

`PhpProxy.StaleContentLength` is stated for every upstream line naming
`Content-Length` in any case and every one-segment playlist whose one
line is a segment URI with no surrounding whitespace, when the upstream
line announces that playlist's true length; the table's input is one
instance. `PhpProxy.HandleRequest`
keeps the header step as written, so that its contract describes the script;
`PhpProxy.PlaylistHeaders` is the corrected step.
