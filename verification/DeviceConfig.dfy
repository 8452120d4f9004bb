/**
 * The device's stored configuration (src/Config.cpp, src/Config.h): eight
 * fields, two constructors, and the two methods that copy the fields into
 * and out of an ArduinoJson object.
 *
 * A `const char*` field is an `Option<string>`: `None` is the null pointer
 * ArduinoJson hands back for a missing or non-string value.  A JSON object is
 * a class holding a map from key to value; assigning to a key replaces its
 * value or adds it.
 */
module DeviceConfig {
  import opened Wrappers

  /** The kinds of value a JsonVariant holds here. */
  datatype JsonVariant = Null | Bool(b: bool) | Integer(n: int) | Str(s: string)

  /** An ArduinoJson object the caller owns; its methods change it in place. */
  class JsonObject {
    var entries: map<string, JsonVariant>

    constructor (entries: map<string, JsonVariant>)
      ensures this.entries == entries
    {
      this.entries := entries;
    }
  }

  /** `json[key]`: a missing key reads as a null variant. */
  function Get(m: map<string, JsonVariant>, key: string): JsonVariant
  {
    if key in m then m[key] else Null
  }

  /** `(const char*) v`: the string, or null for anything else. */
  function AsString(v: JsonVariant): Option<string>
  {
    if v.Str? then Some(v.s) else None
  }

  /** `(int) v`. */
  function AsInt(v: JsonVariant): int
  {
    if v.Integer? then v.n else 0
  }

  /** `(bool) v`. */
  function AsBool(v: JsonVariant): bool
  {
    if v.Bool? then v.b else false
  }

  /** `v | d` on a string: `v` when it holds a string, `d` otherwise. */
  function StringOr(v: JsonVariant, d: string): string
  {
    if v.Str? then v.s else d
  }

  function IntOr(v: JsonVariant, d: int): int
  {
    if v.Integer? then v.n else d
  }

  function BoolOr(v: JsonVariant, d: bool): bool
  {
    if v.Bool? then v.b else d
  }

  /** `json[key] = p` for a `const char*` p. */
  function FromString(p: Option<string>): JsonVariant
  {
    if p.Some? then Str(p.value) else Null
  }

  const DEFAULT_MQTT_PORT: int := 8883
  const DEFAULT_MQTT_TOPIC: string := "esp-ac"

  /** The eight fields of a Config. */
  datatype ConfigFields = ConfigFields(
    ssid: Option<string>,
    psk: Option<string>,
    mqttHost: Option<string>,
    mqttPort: int,
    mqttUsername: Option<string>,
    mqttPassword: Option<string>,
    mqttUseSSL: bool,
    mqttTopic: Option<string>)

  /** The fields `Config()` sets. */
  function DefaultFields(): ConfigFields
  {
    ConfigFields(Some(""), Some(""), Some(""), DEFAULT_MQTT_PORT, Some(""), Some(""), true, Some(DEFAULT_MQTT_TOPIC))
  }

  /** The fields `Config(json)` reads: Wi-Fi under "ssid"/"psk", fallbacks for port, SSL and topic. */
  function FromJsonFields(m: map<string, JsonVariant>): ConfigFields
  {
    ConfigFields(
      AsString(Get(m, "ssid")),
      AsString(Get(m, "psk")),
      AsString(Get(m, "mqttHost")),
      IntOr(Get(m, "mqttPort"), DEFAULT_MQTT_PORT),
      AsString(Get(m, "mqttUsername")),
      AsString(Get(m, "mqttPassword")),
      BoolOr(Get(m, "mqttUseSSL"), true),
      Some(StringOr(Get(m, "mqttTopic"), DEFAULT_MQTT_TOPIC)))
  }

  const POPULATED_KEYS: set<string> :=
    {"wifiSSID", "wifiPSK", "mqttHost", "mqttPort", "mqttUsername", "mqttPassword", "mqttUseSSL", "mqttTopic"}

  /** The entries `populateJson` writes. */
  function Populated(f: ConfigFields): (m: map<string, JsonVariant>)
    ensures m.Keys == POPULATED_KEYS
  {
    map[
      "wifiSSID" := FromString(f.ssid),
      "wifiPSK" := FromString(f.psk),
      "mqttHost" := FromString(f.mqttHost),
      "mqttPort" := Integer(f.mqttPort),
      "mqttUsername" := FromString(f.mqttUsername),
      "mqttPassword" := FromString(f.mqttPassword),
      "mqttUseSSL" := Bool(f.mqttUseSSL),
      "mqttTopic" := FromString(f.mqttTopic)]
  }

  /** The fields `updateFromJson` reads: the keys `populateJson` writes, with no fallbacks. */
  function UpdatedFields(m: map<string, JsonVariant>): ConfigFields
  {
    ConfigFields(
      AsString(Get(m, "wifiSSID")),
      AsString(Get(m, "wifiPSK")),
      AsString(Get(m, "mqttHost")),
      AsInt(Get(m, "mqttPort")),
      AsString(Get(m, "mqttUsername")),
      AsString(Get(m, "mqttPassword")),
      AsBool(Get(m, "mqttUseSSL")),
      AsString(Get(m, "mqttTopic")))
  }

  class Config {
    var ssid: Option<string>
    var psk: Option<string>
    var mqttHost: Option<string>
    var mqttPort: int
    var mqttUsername: Option<string>
    var mqttPassword: Option<string>
    var mqttUseSSL: bool
    var mqttTopic: Option<string>

    function Fields(): ConfigFields
      reads this
    {
      ConfigFields(ssid, psk, mqttHost, mqttPort, mqttUsername, mqttPassword, mqttUseSSL, mqttTopic)
    }

    /** `Config()`. */
    constructor ()
      ensures Fields() == DefaultFields()
    {
      ssid := Some("");
      psk := Some("");
      mqttHost := Some("");
      mqttPort := DEFAULT_MQTT_PORT;
      mqttUsername := Some("");
      mqttPassword := Some("");
      mqttUseSSL := true;
      mqttTopic := Some(DEFAULT_MQTT_TOPIC);
    }

    /** `Config(json)`. */
    constructor FromJson(json: JsonObject)
      ensures Fields() == FromJsonFields(json.entries)
    {
      var m := json.entries;
      ssid := AsString(Get(m, "ssid"));
      psk := AsString(Get(m, "psk"));
      mqttHost := AsString(Get(m, "mqttHost"));
      mqttPort := IntOr(Get(m, "mqttPort"), DEFAULT_MQTT_PORT);
      mqttUsername := AsString(Get(m, "mqttUsername"));
      mqttPassword := AsString(Get(m, "mqttPassword"));
      mqttUseSSL := BoolOr(Get(m, "mqttUseSSL"), true);
      mqttTopic := Some(StringOr(Get(m, "mqttTopic"), DEFAULT_MQTT_TOPIC));
    }

    /** `populateJson(json)`: writes the eight keys into the caller's object, keeping its other keys. */
    method PopulateJson(json: JsonObject)
      modifies json
      ensures json.entries == old(json.entries) + Populated(Fields())
    {
      ghost var m := json.entries;
      ghost var written: map<string, JsonVariant> := map[];
      assert m == m + written;
      json.entries := json.entries["wifiSSID" := FromString(ssid)];
      MergeUpdate(m, written, "wifiSSID", FromString(ssid));
      written := written["wifiSSID" := FromString(ssid)];
      json.entries := json.entries["wifiPSK" := FromString(psk)];
      MergeUpdate(m, written, "wifiPSK", FromString(psk));
      written := written["wifiPSK" := FromString(psk)];
      json.entries := json.entries["mqttHost" := FromString(mqttHost)];
      MergeUpdate(m, written, "mqttHost", FromString(mqttHost));
      written := written["mqttHost" := FromString(mqttHost)];
      json.entries := json.entries["mqttPort" := Integer(mqttPort)];
      MergeUpdate(m, written, "mqttPort", Integer(mqttPort));
      written := written["mqttPort" := Integer(mqttPort)];
      json.entries := json.entries["mqttUsername" := FromString(mqttUsername)];
      MergeUpdate(m, written, "mqttUsername", FromString(mqttUsername));
      written := written["mqttUsername" := FromString(mqttUsername)];
      json.entries := json.entries["mqttPassword" := FromString(mqttPassword)];
      MergeUpdate(m, written, "mqttPassword", FromString(mqttPassword));
      written := written["mqttPassword" := FromString(mqttPassword)];
      json.entries := json.entries["mqttUseSSL" := Bool(mqttUseSSL)];
      MergeUpdate(m, written, "mqttUseSSL", Bool(mqttUseSSL));
      written := written["mqttUseSSL" := Bool(mqttUseSSL)];
      json.entries := json.entries["mqttTopic" := FromString(mqttTopic)];
      MergeUpdate(m, written, "mqttTopic", FromString(mqttTopic));
      written := written["mqttTopic" := FromString(mqttTopic)];
      assert written == Populated(Fields());
    }

    /** `updateFromJson(json)`: overwrites every field from its key, present or not. */
    method UpdateFromJson(json: JsonObject)
      modifies this
      ensures Fields() == UpdatedFields(json.entries)
    {
      var m := json.entries;
      ssid := AsString(Get(m, "wifiSSID"));
      psk := AsString(Get(m, "wifiPSK"));
      mqttHost := AsString(Get(m, "mqttHost"));
      mqttPort := AsInt(Get(m, "mqttPort"));
      mqttUsername := AsString(Get(m, "mqttUsername"));
      mqttPassword := AsString(Get(m, "mqttPassword"));
      mqttUseSSL := AsBool(Get(m, "mqttUseSSL"));
      mqttTopic := AsString(Get(m, "mqttTopic"));
    }
  }

  /** Assigning to a key of a merged map is assigning it in the map merged last. */
  lemma MergeUpdate<K, V>(m: map<K, V>, written: map<K, V>, key: K, value: V)
    ensures (m + written)[key := value] == m + written[key := value]
  {
  }

  /**
   * `updateFromJson` after `populateJson` gives back every field, whatever
   * else the object held: both use the same eight keys.
   */
  lemma PopulateThenUpdate(f: ConfigFields, m: map<string, JsonVariant>)
    ensures UpdatedFields(m + Populated(f)) == f
  {
    var p := m + Populated(f);
    assert p["wifiSSID"] == FromString(f.ssid) && p["wifiPSK"] == FromString(f.psk);
    assert p["mqttHost"] == FromString(f.mqttHost) && p["mqttPort"] == Integer(f.mqttPort);
    assert p["mqttUsername"] == FromString(f.mqttUsername) && p["mqttPassword"] == FromString(f.mqttPassword);
    assert p["mqttUseSSL"] == Bool(f.mqttUseSSL) && p["mqttTopic"] == FromString(f.mqttTopic);
  }

  /**
   * `Config(json)` falls back to port 8883, SSL on and topic "esp-ac" when a
   * key is missing or holds another type, and never leaves the topic null.
   */
  lemma ConstructorFallbacks(m: map<string, JsonVariant>)
    ensures !Get(m, "mqttPort").Integer? ==> FromJsonFields(m).mqttPort == 8883
    ensures Get(m, "mqttPort").Integer? ==> FromJsonFields(m).mqttPort == m["mqttPort"].n
    ensures !Get(m, "mqttUseSSL").Bool? ==> FromJsonFields(m).mqttUseSSL
    ensures Get(m, "mqttUseSSL").Bool? ==> FromJsonFields(m).mqttUseSSL == m["mqttUseSSL"].b
    ensures "mqttTopic" !in m ==> FromJsonFields(m).mqttTopic == Some("esp-ac")
    ensures !Get(m, "mqttTopic").Str? ==> FromJsonFields(m).mqttTopic == Some("esp-ac")
    ensures Get(m, "mqttTopic").Str? ==> FromJsonFields(m).mqttTopic == Some(m["mqttTopic"].s)
    ensures FromJsonFields(m).mqttTopic.Some?
    ensures "ssid" !in m ==> FromJsonFields(m).ssid == None
  {
  }

  /**
   * `Config(json)` reads Wi-Fi credentials under "ssid"/"psk" while
   * `populateJson` writes them under "wifiSSID"/"wifiPSK": constructing from
   * a populated object loses them.  It keeps every other field, except that
   * a null topic (which `updateFromJson` leaves when the key is missing)
   * comes back as "esp-ac".
   */
  lemma ConstructorMissesWifiKeys(f: ConfigFields)
    ensures FromJsonFields(Populated(f)).ssid == None
    ensures FromJsonFields(Populated(f)).psk == None
    ensures f.mqttTopic.Some? ==> FromJsonFields(Populated(f)) == f.(ssid := None, psk := None)
    ensures f.mqttTopic.None? ==> FromJsonFields(Populated(f)) == f.(ssid := None, psk := None, mqttTopic := Some("esp-ac"))
  {
    var p := Populated(f);
    assert "ssid" !in p && "psk" !in p;
    assert p["mqttHost"] == FromString(f.mqttHost) && p["mqttPort"] == Integer(f.mqttPort);
    assert p["mqttUsername"] == FromString(f.mqttUsername) && p["mqttPassword"] == FromString(f.mqttPassword);
    assert p["mqttUseSSL"] == Bool(f.mqttUseSSL) && p["mqttTopic"] == FromString(f.mqttTopic);
  }

  /**
   * `updateFromJson` applies no fallbacks: a missing key clears its field
   * (null string, port 0, SSL off), where `Config(json)` would keep 8883,
   * true and "esp-ac".
   */
  lemma UpdateAppliesNoDefaults(m: map<string, JsonVariant>)
    ensures "mqttPort" !in m ==> UpdatedFields(m).mqttPort == 0 && FromJsonFields(m).mqttPort == 8883
    ensures "mqttUseSSL" !in m ==> !UpdatedFields(m).mqttUseSSL && FromJsonFields(m).mqttUseSSL
    ensures "mqttTopic" !in m ==> UpdatedFields(m).mqttTopic == None && FromJsonFields(m).mqttTopic == Some("esp-ac")
    ensures UpdatedFields(map[]) == ConfigFields(None, None, None, 0, None, None, false, None)
  {
  }

  /**
   * `Config()` and `Config(json)` on an empty object agree on port, SSL and
   * topic, but the default constructor's strings are empty where the JSON
   * constructor's are null.
   */
  lemma DefaultsAgainstEmptyJson()
    ensures FromJsonFields(map[]).mqttPort == DefaultFields().mqttPort
    ensures FromJsonFields(map[]).mqttUseSSL == DefaultFields().mqttUseSSL
    ensures FromJsonFields(map[]).mqttTopic == DefaultFields().mqttTopic
    ensures FromJsonFields(map[]).ssid == None && DefaultFields().ssid == Some("")
  {
  }
}
