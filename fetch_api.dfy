/**
 * The parts of the Fetch and URL platform APIs the two JavaScript workers
 * use: `Headers` objects, the `Response` constructor and its checks,
 * `URLSearchParams.get`/`has`, and `String.prototype.trim`.
 */
module FetchApi {
  import opened Wrappers
  import opened Strings

  /**
   * A `Headers` object. `Headers` lower-cases names on the way in, so every
   * key is a lower-case name and `set` on a name overwrites its value.
   */
  type HeaderMap = map<string, string>

  /** `headers.get(name) || ''` for a lower-case `name`. */
  function GetOrEmpty(headers: HeaderMap, name: string): string {
    if name in headers then headers[name] else ""
  }

  /** The body passed to `new Response`: `null`, a string, or raw content (an `ArrayBuffer` or a stream). */
  datatype BodyInit = NoBody | Text(text: string) | Content(data: string)

  /** A response: status, status text, headers and body (`None` is a null body). */
  datatype Response = Response(status: int, statusText: string, headers: HeaderMap, body: Option<string>)

  /** The content type a string body gets when the headers name none. */
  const TextPlainUtf8 := "text/plain;charset=UTF-8"

  /** The messages of the two errors the constructor raises (the wording is the model's own). */
  const StatusRangeMessage := "Response status must be in the range 200 to 599"
  const NullBodyMessage := "Response with null body status cannot have body"

  /** Statuses whose responses never have a body. */
  predicate NullBodyStatus(status: int) {
    status == 101 || status == 103 || status == 204 || status == 205 || status == 304
  }

  function BodyOf(body: BodyInit): Option<string> {
    match body
    case NoBody => None
    case Text(t) => Some(t)
    case Content(d) => Some(d)
  }

  /**
   * `new Response(body, {status, statusText, headers})`: a RangeError for a
   * status outside 200..599, a TypeError for a body with a null-body
   * status, and otherwise the response, with a string body labelled
   * `text/plain;charset=UTF-8` unless the headers carry a content type.
   */
  function NewResponse(body: BodyInit, status: int, statusText: string, headers: HeaderMap): (r: Result<Response>)
    ensures r.Success? <==> 200 <= status <= 599 && (body.NoBody? || !NullBodyStatus(status))
    ensures r.Failure? ==> r.error == if 200 <= status <= 599 then NullBodyMessage else StatusRangeMessage
    ensures r.Success? ==> r.value.status == status && r.value.statusText == statusText && r.value.body == BodyOf(body)
    ensures r.Success? && (!body.Text? || "content-type" in headers) ==> r.value.headers == headers
    ensures r.Success? && body.Text? && "content-type" !in headers ==> r.value.headers == headers["content-type" := TextPlainUtf8]
  {
    if !(200 <= status <= 599) then Failure(StatusRangeMessage)
    else if !body.NoBody? && NullBodyStatus(status) then Failure(NullBodyMessage)
    else
      var hs := if body.Text? && "content-type" !in headers then headers["content-type" := TextPlainUtf8] else headers;
      Success(Response(status, statusText, hs, BodyOf(body)))
  }

  // ---------------------------------------------------------------------
  // URLSearchParams

  /** One decoded `name=value` pair of a query string. */
  datatype Param = Param(name: string, value: string)

  /** `searchParams.has(name)`. */
  predicate HasParam(params: seq<Param>, name: string) {
    exists k :: 0 <= k < |params| && params[k].name == name
  }

  /** `searchParams.get(name)`: the value of the first pair with that name, `null` when there is none. */
  function GetParam(params: seq<Param>, name: string): (r: Option<string>)
    ensures r.Some? <==> HasParam(params, name)
    ensures r.Some? ==>
      exists k :: 0 <= k < |params| && params[k] == Param(name, r.value) && forall j :: 0 <= j < k ==> params[j].name != name
    decreases |params|
  {
    if params == [] then None
    else if params[0].name == name then Some(params[0].value)
    else
      var r := GetParam(params[1..], name);
      assert forall k :: 0 <= k < |params[1..]| ==> params[1..][k] == params[k + 1];
      assert params[0].name != name ==> (HasParam(params, name) <==> HasParam(params[1..], name)) by {
        if HasParam(params, name) && params[0].name != name {
          var k :| 0 <= k < |params| && params[k].name == name;
          assert params[1..][k - 1].name == name;
        }
      }
      r
  }

  // ---------------------------------------------------------------------
  // String.prototype.trim

  /** The white space and line terminators of ECMAScript, which `trim` strips from both ends. */
  predicate IsJsWhitespace(c: char) {
    c == '\t' || c == '\U{000B}' || c == '\U{000C}' || c == ' ' || c == '\U{00A0}' || c == '\U{FEFF}'
    || c == '\U{1680}' || ('\U{2000}' <= c <= '\U{200A}') || c == '\U{202F}' || c == '\U{205F}' || c == '\U{3000}'
    || c == '\n' || c == '\r' || c == '\U{2028}' || c == '\U{2029}'
  }

  function JsTrim(s: string): string {
    Trim(s, IsJsWhitespace)
  }
}
