/**
 * backend/api/services.php: the list of services offered in the player's
 * service picker, and whether a custom service may be entered.
 */
module ServicesApi {
  import opened Wrappers
  import opened PhpRuntime
  import opened Settings
  import ConfigApi

  /**
   * The `data` record: exactly `services` and `allow_custom`. `services` is
   * the settings' list or `[]`; `allow_custom` is `allow_custom_service` or
   * `true`, each default applying when the key is absent or null.
   */
  function ServicesData(config: JsonValue): (r: map<string, JsonValue>)
    ensures r.Keys == {"services", "allow_custom"}
    ensures r["services"] == if ConfigApi.Provided(config, "services") then Lookup(config, "services").value else JArray([])
    ensures r["allow_custom"] == if ConfigApi.Provided(config, "allow_custom_service")
                                 then Lookup(config, "allow_custom_service").value else JBool(true)
  {
    var services := Coalesce(config, "services", JArray([]));
    map["services" := services, "allow_custom" := Coalesce(config, "allow_custom_service", JBool(true))]
  }

  /** The whole script for one request and one state of the settings file. */
  function Handle(verb: string, file: ConfigFile): (r: Reply)
    ensures r.headers == ApiHeaders
    ensures verb == "OPTIONS" ==> r == Reply(200, ApiHeaders, Raw(""))
    ensures verb != "OPTIONS" && file.Missing? ==> r == Reply(500, ApiHeaders, ErrorBody(NotFoundMessage))
    ensures verb != "OPTIONS" && file == Present(JNull) ==> r == Reply(500, ApiHeaders, ErrorBody(InvalidMessage))
    ensures verb != "OPTIONS" && file.Present? && file.decoded != JNull ==> r == SuccessReply(ServicesData(file.decoded))
  {
    match EarlyExit(verb, file)
    case Some(reply) => reply
    case None => SuccessReply(ServicesData(file.decoded))
  }

  /** `allow_custom` is only true by default: an explicit `false` in the settings is kept. */
  lemma ExplicitFalseKept(fields: map<string, JsonValue>)
    requires "allow_custom_service" in fields && fields["allow_custom_service"] == JBool(false)
    ensures ServicesData(JObject(fields))["allow_custom"] == JBool(false)
  {
  }

  /** Both endpoints read the same file and fail on it in the same way. */
  lemma SameFailures(verb: string, file: ConfigFile)
    requires verb == "OPTIONS" || file.Missing? || file == Present(JNull)
    ensures Handle(verb, file) == ConfigApi.Handle(verb, file)
  {
  }
}
