/**
 * The part backend/api/config.php and backend/api/services.php share: the
 * four JSON/CORS headers, the preflight answer, and the two checks on the
 * settings file (it must exist, and it must not decode to null).
 */
module Settings {
  import opened Wrappers
  import opened PhpRuntime

  /**
   * The settings file as the scripts see it. `json_decode` returns null both
   * for malformed text and for the literal `null`, so both are
   * `Present(JNull)`.
   */
  datatype ConfigFile = Missing | Present(decoded: JsonValue)

  /** The headers both scripts send before anything else. */
  const ApiHeaders := [
    Header("Content-Type", JsonType),
    Header("Access-Control-Allow-Origin", "*"),
    Header("Access-Control-Allow-Methods", "GET, POST, OPTIONS"),
    Header("Access-Control-Allow-Headers", "Content-Type")
  ]

  const NotFoundMessage := "Configuration file not found"
  const InvalidMessage := "Invalid configuration file"

  /** The four `header()` calls at the top of either script leave exactly `ApiHeaders`. */
  lemma ApiHeadersAreSet()
    ensures SetHeader(SetHeader(SetHeader(SetHeader([], ApiHeaders[0]), ApiHeaders[1]), ApiHeaders[2]), ApiHeaders[3]) == ApiHeaders
    ensures DistinctNames(ApiHeaders)
  {
    var a, b, c, d := ApiHeaders[0].name, ApiHeaders[1].name, ApiHeaders[2].name, ApiHeaders[3].name;
    NamesDiffer(a, b, 0);
    NamesDiffer(a, c, 0);
    NamesDiffer(a, d, 0);
    // the three Access-Control-Allow-* names share their first 21 characters and differ at index 21 (O, M, H)
    NamesDiffer(b, c, 21);
    NamesDiffer(b, d, 21);
    NamesDiffer(c, d, 21);
    FourFreshHeaders(ApiHeaders[0], ApiHeaders[1], ApiHeaders[2], ApiHeaders[3]);
  }

  /** `['success' => true, 'data' => $data]` with status 200. */
  function SuccessReply(data: map<string, JsonValue>): Reply {
    Reply(200, ApiHeaders, Json(JObject(map["success" := JBool(true), "data" := JObject(data)])))
  }

  /**
   * The early exits, in the order the scripts test them; `None` when the
   * script goes on to build its payload from the decoded settings.
   */
  function EarlyExit(verb: string, file: ConfigFile): (r: Option<Reply>)
    ensures r.None? <==> verb != "OPTIONS" && file.Present? && file.decoded != JNull
    ensures r.Some? ==> r.value.headers == ApiHeaders
    ensures r.Some? ==> (r.value.status == 200 <==> verb == "OPTIONS")
  {
    if verb == "OPTIONS" then Some(Reply(200, ApiHeaders, Raw("")))
    else if file.Missing? then Some(Reply(500, ApiHeaders, ErrorBody(NotFoundMessage)))
    else if file.decoded == JNull then Some(Reply(500, ApiHeaders, ErrorBody(InvalidMessage)))
    else None
  }
}
