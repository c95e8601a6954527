/**
 * backend/api/config.php: the UI settings the player reads at start-up.
 * Six fields are published, each taken from the settings file or, when
 * absent or null there, from a fixed default.
 */
module ConfigApi {
  import opened Wrappers
  import opened PhpRuntime
  import opened Settings

  /** The published fields and the default each one falls back to. */
  const ConfigDefaults: map<string, JsonValue> := map[
    "app_name" := JString("IPTV Player"),
    "logo_url" := JString(""),
    "primary_color" := JString("#1a73e8"),
    "accent_color" := JString("#00bcd4"),
    "features" := JArray([]),
    "version" := JString("1.0.0")
  ]

  /** What the settings hold for `key`, if it is present and not null. */
  predicate Provided(config: JsonValue, key: string) {
    Lookup(config, key).Some? && Lookup(config, key).value != JNull
  }

  /**
   * The `data` record: exactly the six published keys, each read from the
   * settings with `??` and the key's default.
   */
  function ConfigData(config: JsonValue): (r: map<string, JsonValue>)
    ensures r.Keys == ConfigDefaults.Keys
    ensures forall key :: key in ConfigDefaults ==> r[key] == Coalesce(config, key, ConfigDefaults[key])
  {
    map[
      "app_name" := Coalesce(config, "app_name", JString("IPTV Player")),
      "logo_url" := Coalesce(config, "logo_url", JString("")),
      "primary_color" := Coalesce(config, "primary_color", JString("#1a73e8")),
      "accent_color" := Coalesce(config, "accent_color", JString("#00bcd4")),
      "features" := Coalesce(config, "features", JArray([])),
      "version" := Coalesce(config, "version", JString("1.0.0"))
    ]
  }

  /** Each published field is copied from the settings when provided there, and defaulted otherwise. */
  lemma FieldCopiedOrDefaulted(config: JsonValue, key: string)
    requires key in ConfigDefaults
    ensures Provided(config, key) ==> ConfigData(config)[key] == Lookup(config, key).value
    ensures !Provided(config, key) ==> ConfigData(config)[key] == ConfigDefaults[key]
  {
  }

  /** The whole script for one request and one state of the settings file. */
  function Handle(verb: string, file: ConfigFile): (r: Reply)
    ensures r.headers == ApiHeaders
    ensures verb == "OPTIONS" ==> r == Reply(200, ApiHeaders, Raw(""))
    ensures verb != "OPTIONS" && file.Missing? ==> r == Reply(500, ApiHeaders, ErrorBody(NotFoundMessage))
    ensures verb != "OPTIONS" && file == Present(JNull) ==> r == Reply(500, ApiHeaders, ErrorBody(InvalidMessage))
    ensures verb != "OPTIONS" && file.Present? && file.decoded != JNull ==> r == SuccessReply(ConfigData(file.decoded))
  {
    match EarlyExit(verb, file)
    case Some(reply) => reply
    case None => SuccessReply(ConfigData(file.decoded))
  }

  /** Keys of the settings file outside the six published ones never reach the response. */
  lemma OtherKeysHidden(fields: map<string, JsonValue>, key: string, v: JsonValue)
    requires key !in ConfigDefaults
    ensures ConfigData(JObject(fields[key := v])) == ConfigData(JObject(fields))
  {
    var a, b := ConfigData(JObject(fields[key := v])), ConfigData(JObject(fields));
    forall k | k in ConfigDefaults ensures a[k] == b[k] {
      assert Lookup(JObject(fields[key := v]), k) == Lookup(JObject(fields), k);
    }
  }

  /** Settings that decode to something other than an object (a list, a string, a number) give all defaults. */
  lemma NonObjectGivesDefaults(config: JsonValue)
    requires !config.JObject?
    ensures ConfigData(config) == ConfigDefaults
  {
    forall k | k in ConfigDefaults ensures !Provided(config, k) { }
  }
}
