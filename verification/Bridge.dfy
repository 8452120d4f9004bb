/**
 * The MQTT command bridge of src/main.cpp: the topic set derived from the
 * configured prefix, the dispatch of an inbound command onto the heat pump's
 * staged settings (`mqttMessage`), and the publish/subscribe sequences of
 * `heatpumpSettingsChanged`, `heatpumpStatusChanged` and `mqttConnect`.
 *
 * The HeatPump driver and the MQTT client are external; each is a class
 * whose state is the part the bridge touches: the driver's staged and
 * reported settings plus a count of `update()` calls, and the client's log
 * of subscribe/publish actions in the order they were issued.
 */
module Bridge {
  import opened Commands

  // ---------------------------------------------------------------------
  // Topic derivation (src/main.cpp:351-363)
  // ---------------------------------------------------------------------

  /** Each topic is formatted into a `char[128]`. */
  const TOPIC_BUFFER_SIZE: nat := 128
  /** The prefix lives in a `char[32]` (include/main.hpp:17). */
  const MAX_LENGTH_MQTT_TOPIC_PREFIX: nat := 32

  const AVAILABILITY_SUFFIX := "/availability"
  const POWER_STATE_SUFFIX := "/power/state"
  const MODE_STATE_SUFFIX := "/mode/state"
  const TEMPERATURE_STATE_SUFFIX := "/temperature/state"
  const FAN_STATE_SUFFIX := "/fan/state"
  const VANE_STATE_SUFFIX := "/vane/state"
  const CURRENT_TEMPERATURE_STATE_SUFFIX := "/current_temperature/state"
  const POWER_COMMAND_SUFFIX := "/power/set"
  const MODE_COMMAND_SUFFIX := "/mode/set"
  const TEMPERATURE_COMMAND_SUFFIX := "/temperature/set"
  const FAN_COMMAND_SUFFIX := "/fan/set"
  const VANE_COMMAND_SUFFIX := "/vane/set"

  datatype Topics = Topics(
    availability: string,
    powerState: string, modeState: string, temperatureState: string,
    fanState: string, vaneState: string, currentTemperatureState: string,
    powerCommand: string, modeCommand: string, temperatureCommand: string,
    fanCommand: string, vaneCommand: string)

  /** `snprintf(buf, size, "%s...", ...)`: the formatted text cut to `size - 1` characters. */
  function Snprintf(text: string, size: nat): (r: string)
    requires size > 0
    ensures r <= text
    ensures |r| == Min(|text|, size - 1)
  {
    if |text| <= size - 1 then text else text[..size - 1]
  }

  function FormatTopic(prefix: string, suffix: string): string
  {
    Snprintf(prefix + suffix, TOPIC_BUFFER_SIZE)
  }

  /**
   * The topic set `setup` writes once, after the settings are final: each
   * topic is the start of prefix + suffix that fits a `char[128]`.
   */
  function DeriveTopics(prefix: string): Topics
  {
    Topics(
      FormatTopic(prefix, AVAILABILITY_SUFFIX),
      FormatTopic(prefix, POWER_STATE_SUFFIX),
      FormatTopic(prefix, MODE_STATE_SUFFIX),
      FormatTopic(prefix, TEMPERATURE_STATE_SUFFIX),
      FormatTopic(prefix, FAN_STATE_SUFFIX),
      FormatTopic(prefix, VANE_STATE_SUFFIX),
      FormatTopic(prefix, CURRENT_TEMPERATURE_STATE_SUFFIX),
      FormatTopic(prefix, POWER_COMMAND_SUFFIX),
      FormatTopic(prefix, MODE_COMMAND_SUFFIX),
      FormatTopic(prefix, TEMPERATURE_COMMAND_SUFFIX),
      FormatTopic(prefix, FAN_COMMAND_SUFFIX),
      FormatTopic(prefix, VANE_COMMAND_SUFFIX))
  }

  /** A prefix that fits its `char[32]` is never cut by the 128-byte topic buffers. */
  predicate PrefixFits(prefix: string)
  {
    |prefix| < MAX_LENGTH_MQTT_TOPIC_PREFIX
  }

  function CommandTopics(t: Topics): seq<string>
  {
    [t.powerCommand, t.modeCommand, t.temperatureCommand, t.fanCommand, t.vaneCommand]
  }

  function StateTopics(t: Topics): seq<string>
  {
    [t.powerState, t.modeState, t.temperatureState, t.fanState, t.vaneState, t.currentTemperatureState]
  }

  predicate Distinct(s: seq<string>)
  {
    forall i, j :: 0 <= i < j < |s| ==> s[i] != s[j]
  }

  /** Every derived topic is the prefix followed by its fixed suffix. */
  lemma DerivedTopicsArePrefixed(prefix: string)
    requires PrefixFits(prefix)
    ensures var t := DeriveTopics(prefix);
      && t.availability == prefix + AVAILABILITY_SUFFIX
      && t.powerState == prefix + POWER_STATE_SUFFIX
      && t.modeState == prefix + MODE_STATE_SUFFIX
      && t.temperatureState == prefix + TEMPERATURE_STATE_SUFFIX
      && t.fanState == prefix + FAN_STATE_SUFFIX
      && t.vaneState == prefix + VANE_STATE_SUFFIX
      && t.currentTemperatureState == prefix + CURRENT_TEMPERATURE_STATE_SUFFIX
      && t.powerCommand == prefix + POWER_COMMAND_SUFFIX
      && t.modeCommand == prefix + MODE_COMMAND_SUFFIX
      && t.temperatureCommand == prefix + TEMPERATURE_COMMAND_SUFFIX
      && t.fanCommand == prefix + FAN_COMMAND_SUFFIX
      && t.vaneCommand == prefix + VANE_COMMAND_SUFFIX
  {
  }

  /**
   * Whatever the prefix, each derived topic is the start of prefix + suffix,
   * as much of it as fits the 127 characters before the buffer's terminator.
   */
  lemma DerivedTopicsFit(prefix: string)
    ensures forall i :: 0 <= i < |SUFFIXES| ==>
      && AllTopics(DeriveTopics(prefix))[i] <= prefix + SUFFIXES[i]
      && |AllTopics(DeriveTopics(prefix))[i]| == Min(|prefix + SUFFIXES[i]|, TOPIC_BUFFER_SIZE - 1)
  {
    assert AllTopics(DeriveTopics(prefix)) == seq(|SUFFIXES|, i requires 0 <= i < |SUFFIXES| => FormatTopic(prefix, SUFFIXES[i]));
  }

  /** Two topics with the same prefix and different suffixes differ. */
  lemma SuffixesSeparate(prefix: string, a: string, b: string)
    requires a != b
    ensures prefix + a != prefix + b
  {
    assert (prefix + a)[|prefix|..] == a;
    assert (prefix + b)[|prefix|..] == b;
  }

  /** Two topics with different prefixes and the same suffix differ. */
  lemma PrefixesSeparate(p: string, q: string, suffix: string)
    requires p != q
    ensures p + suffix != q + suffix
  {
    if |p| == |q| {
      assert (p + suffix)[..|p|] == p;
      assert (q + suffix)[..|q|] == q;
    } else {
      assert |p + suffix| != |q + suffix|;
    }
  }

  /** The twelve suffixes, availability first, then the commands, then the states. */
  const SUFFIXES: seq<string> := [AVAILABILITY_SUFFIX,
    POWER_COMMAND_SUFFIX, MODE_COMMAND_SUFFIX, TEMPERATURE_COMMAND_SUFFIX, FAN_COMMAND_SUFFIX, VANE_COMMAND_SUFFIX,
    POWER_STATE_SUFFIX, MODE_STATE_SUFFIX, TEMPERATURE_STATE_SUFFIX, FAN_STATE_SUFFIX, VANE_STATE_SUFFIX,
    CURRENT_TEMPERATURE_STATE_SUFFIX]

  /** Every topic of a set, in the order of SUFFIXES. */
  function AllTopics(t: Topics): (r: seq<string>)
    ensures |r| == |SUFFIXES|
    ensures r[1..6] == CommandTopics(t) && r[6..] == StateTopics(t)
  {
    [t.availability] + CommandTopics(t) + StateTopics(t)
  }

  lemma SuffixesDistinct()
    ensures Distinct(SUFFIXES)
  {
    // Suffixes of equal length differ in their second character.
    assert MODE_COMMAND_SUFFIX[1] != VANE_COMMAND_SUFFIX[1];
    assert POWER_COMMAND_SUFFIX[1] != FAN_STATE_SUFFIX[1];
    assert MODE_STATE_SUFFIX[1] != VANE_STATE_SUFFIX[1];
  }

  /**
   * For any prefix that fits its buffer, the twelve derived topics are
   * pairwise distinct: dispatch over the five command topics is unambiguous,
   * and no state or availability topic is a command topic, so publishing
   * state never feeds back into a command.
   */
  lemma TopicsDistinct(prefix: string)
    requires PrefixFits(prefix)
    ensures Distinct(AllTopics(DeriveTopics(prefix)))
    ensures Distinct(CommandTopics(DeriveTopics(prefix)))
    ensures Distinct(StateTopics(DeriveTopics(prefix)))
  {
    var t := DeriveTopics(prefix);
    DerivedTopicsArePrefixed(prefix);
    assert AllTopics(t) == seq(|SUFFIXES|, i requires 0 <= i < |SUFFIXES| => prefix + SUFFIXES[i]);
    SuffixesDistinct();
    forall i, j | 0 <= i < j < |SUFFIXES|
      ensures AllTopics(t)[i] != AllTopics(t)[j]
    {
      SuffixesSeparate(prefix, SUFFIXES[i], SUFFIXES[j]);
    }
    DistinctSlice(AllTopics(t), 1, 6);
    DistinctSlice(AllTopics(t), 6, |SUFFIXES|);
  }

  lemma DistinctSlice(s: seq<string>, lo: nat, hi: nat)
    requires lo <= hi <= |s| && Distinct(s)
    ensures Distinct(s[lo..hi])
  {
    forall i, j | 0 <= i < j < hi - lo ensures s[lo..hi][i] != s[lo..hi][j] {
      assert s[lo..hi][i] == s[lo + i] && s[lo..hi][j] == s[lo + j];
    }
  }

  /** Changing the prefix changes every derived topic. */
  lemma DifferentPrefixesDifferentTopics(p: string, q: string)
    requires PrefixFits(p) && PrefixFits(q) && p != q
    ensures forall i :: 0 <= i < |SUFFIXES| ==> AllTopics(DeriveTopics(p))[i] != AllTopics(DeriveTopics(q))[i]
  {
    DerivedTopicsArePrefixed(p);
    DerivedTopicsArePrefixed(q);
    assert AllTopics(DeriveTopics(p)) == seq(|SUFFIXES|, i requires 0 <= i < |SUFFIXES| => p + SUFFIXES[i]);
    assert AllTopics(DeriveTopics(q)) == seq(|SUFFIXES|, i requires 0 <= i < |SUFFIXES| => q + SUFFIXES[i]);
    forall i | 0 <= i < |SUFFIXES| ensures p + SUFFIXES[i] != q + SUFFIXES[i] {
      PrefixesSeparate(p, q, SUFFIXES[i]);
    }
  }

  /**
   * Without the prefix bound the 128-byte buffers would cut every topic to
   * the same 127 characters: the bound is what keeps dispatch unambiguous.
   */
  lemma OverlongPrefixCollapsesTopics(prefix: string)
    requires |prefix| >= TOPIC_BUFFER_SIZE - 1
    ensures DeriveTopics(prefix).powerCommand == DeriveTopics(prefix).modeCommand
  {
    assert (prefix + POWER_COMMAND_SUFFIX)[..127] == prefix[..127];
    assert (prefix + MODE_COMMAND_SUFFIX)[..127] == prefix[..127];
  }

  // ---------------------------------------------------------------------
  // The heat pump driver, as far as the bridge sees it
  // ---------------------------------------------------------------------

  /** Setting values as the driver stores them. */
  datatype HeatpumpSettings = HeatpumpSettings(
    power: string, mode: string, temperature: real, fan: string, vane: string)

  class HeatPump {
    /** Settings staged by the setters, written to the unit by `update()`. */
    var wanted: HeatpumpSettings
    /** Settings the unit last reported (`getSettings()`). */
    var current: HeatpumpSettings
    /** How many times `update()` has been called. */
    var updateCount: nat

    constructor (initial: HeatpumpSettings)
      ensures wanted == initial && current == initial && updateCount == 0
    {
      wanted, current, updateCount := initial, initial, 0;
    }

    method SetPowerSetting(value: string)
      modifies this
      ensures wanted == old(wanted).(power := value)
      ensures current == old(current) && updateCount == old(updateCount)
    {
      wanted := wanted.(power := value);
    }

    method SetModeSetting(value: string)
      modifies this
      ensures wanted == old(wanted).(mode := value)
      ensures current == old(current) && updateCount == old(updateCount)
    {
      wanted := wanted.(mode := value);
    }

    method SetTemperature(value: real)
      modifies this
      ensures wanted == old(wanted).(temperature := value)
      ensures current == old(current) && updateCount == old(updateCount)
    {
      wanted := wanted.(temperature := value);
    }

    method SetFanSpeed(value: string)
      modifies this
      ensures wanted == old(wanted).(fan := value)
      ensures current == old(current) && updateCount == old(updateCount)
    {
      wanted := wanted.(fan := value);
    }

    method SetVaneSetting(value: string)
      modifies this
      ensures wanted == old(wanted).(vane := value)
      ensures current == old(current) && updateCount == old(updateCount)
    {
      wanted := wanted.(vane := value);
    }

    /** Only the call itself is modelled; the serial exchange it starts is not. */
    method Update()
      modifies this
      ensures wanted == old(wanted) && current == old(current)
      ensures updateCount == old(updateCount) + 1
    {
      updateCount := updateCount + 1;
    }
  }

  // ---------------------------------------------------------------------
  // mqttMessage (src/main.cpp:148-184)
  // ---------------------------------------------------------------------

  /** The normalised payload the validators see: upper-cased, cut to five characters. */
  function Normalised(payload: seq<char>): (v: string)
    ensures |v| <= COMMAND_BUFFER_SIZE - 1
  {
    Upcased(payload, COMMAND_BUFFER_SIZE)
  }

  /**
   * The staged settings after one message: the first command topic that
   * equals `topic` selects a dimension, and the normalised payload replaces
   * that dimension only if its validator accepts it.
   */
  function Staged(t: Topics, s: HeatpumpSettings, topic: string, payload: seq<char>, atof: string -> real): HeatpumpSettings
  {
    var v := Normalised(payload);
    if topic == t.powerCommand then
      (if ValidatePowerValue(v) then s.(power := v) else s)
    else if topic == t.modeCommand then
      (if ValidateModeValue(v) then s.(mode := v) else s)
    else if topic == t.temperatureCommand then
      (if ValidateTemperatureValue(v, atof) then s.(temperature := atof(v)) else s)
    else if topic == t.fanCommand then
      (if ValidateFanValue(v) then s.(fan := v) else s)
    else if topic == t.vaneCommand then
      (if ValidateVaneValue(v) then s.(vane := v) else s)
    else s
  }

  /**
   * The message handler: for the matching command topic, upcase the payload
   * into a 6-byte buffer, validate the C string it holds and stage it; in
   * every case call `update()` once at the end.
   */
  method MqttMessage(t: Topics, heatpump: HeatPump, topic: string, payload: seq<char>, len: nat, atof: string -> real)
    requires len <= |payload|
    modifies heatpump
    ensures heatpump.wanted == Staged(t, old(heatpump.wanted), topic, payload[..len], atof)
    ensures heatpump.current == old(heatpump.current)
    ensures heatpump.updateCount == old(heatpump.updateCount) + 1
  {
    var buffer := new char[COMMAND_BUFFER_SIZE];
    if topic == t.powerCommand {
      var value := UpcaseInto(payload, len, buffer);
      if ValidatePowerValue(value) {
        heatpump.SetPowerSetting(value);
      }
    } else if topic == t.modeCommand {
      var value := UpcaseInto(payload, len, buffer);
      if ValidateModeValue(value) {
        heatpump.SetModeSetting(value);
      }
    } else if topic == t.temperatureCommand {
      var value := UpcaseInto(payload, len, buffer);
      if ValidateTemperatureValue(value, atof) {
        heatpump.SetTemperature(atof(value));
      }
    } else if topic == t.fanCommand {
      var value := UpcaseInto(payload, len, buffer);
      if ValidateFanValue(value) {
        heatpump.SetFanSpeed(value);
      }
    } else if topic == t.vaneCommand {
      var value := UpcaseInto(payload, len, buffer);
      if ValidateVaneValue(value) {
        heatpump.SetVaneSetting(value);
      }
    }
    heatpump.Update();
  }

  /** `upcase(payload, len, buffer, 6)` followed by reading the buffer as a C string. */
  method UpcaseInto(payload: seq<char>, len: nat, buffer: array<char>) returns (value: string)
    requires len <= |payload| && buffer.Length == COMMAND_BUFFER_SIZE
    modifies buffer
    ensures value == Normalised(payload[..len])
  {
    Upcase(payload, len, buffer);
    value := CString(buffer[..]);
    BufferHoldsUpcased(buffer[..], Upcased(payload[..len], buffer.Length));
  }

  /**
   * A message changes at most the dimension its topic selects, and only with
   * a value that dimension's validator accepts; a rejected payload or an
   * unmatched topic leaves every staged setting as it was.
   */
  lemma {:induction false} StagedChangesOnlyItsDimension(t: Topics, s: HeatpumpSettings, topic: string, payload: seq<char>, atof: string -> real)
    requires Distinct(CommandTopics(t))
    ensures var r := Staged(t, s, topic, payload, atof);
      var v := Normalised(payload);
      && (topic !in CommandTopics(t) ==> r == s)
      && (topic == t.powerCommand ==> r == (if v in POWER_VALUES then s.(power := v) else s))
      && (topic == t.modeCommand ==> r == (if v in MODE_VALUES then s.(mode := v) else s))
      && (topic == t.temperatureCommand ==>
            r == (if 15.0 < atof(v) < 31.0 then s.(temperature := atof(v)) else s))
      && (topic == t.fanCommand ==> r == (if v in FAN_VALUES then s.(fan := v) else s))
      && (topic == t.vaneCommand ==> r == (if v in VANE_VALUES then s.(vane := v) else s))
  {
    var c := CommandTopics(t);
    assert c[0] != c[1] && c[0] != c[2] && c[0] != c[3] && c[0] != c[4];
    assert c[1] != c[2] && c[1] != c[3] && c[1] != c[4];
    assert c[2] != c[3] && c[2] != c[4] && c[3] != c[4];
  }

  /**
   * Nothing outside the enumerations reaches the driver: any staged value that
   * changed is one its validator accepts.
   */
  lemma StagedValuesAreValid(t: Topics, s: HeatpumpSettings, topic: string, payload: seq<char>, atof: string -> real)
    ensures var r := Staged(t, s, topic, payload, atof);
      && (r.power != s.power ==> r.power in POWER_VALUES)
      && (r.mode != s.mode ==> r.mode in MODE_VALUES)
      && (r.temperature != s.temperature ==> 15.0 < r.temperature < 31.0)
      && (r.fan != s.fan ==> r.fan in FAN_VALUES)
      && (r.vane != s.vane ==> r.vane in VANE_VALUES)
  {
  }

  /**
   * Case and length normalisation: "on" switches the power on, and any payload
   * whose first five characters upper-case to QUIET or SWING is accepted as that.
   */
  lemma NormalisationExamples(t: Topics, s: HeatpumpSettings, atof: string -> real)
    requires Distinct(CommandTopics(t))
    ensures Staged(t, s, t.powerCommand, "on", atof) == s.(power := "ON")
    ensures Staged(t, s, t.modeCommand, "Cool", atof) == s.(mode := "COOL")
    ensures Staged(t, s, t.fanCommand, "quietly", atof) == s.(fan := "QUIET")
    ensures Staged(t, s, t.vaneCommand, "swinging", atof) == s.(vane := "SWING")
    ensures Staged(t, s, t.powerCommand, "onwards", atof) == s
  {
    StagedChangesOnlyItsDimension(t, s, t.powerCommand, "on", atof);
    assert Normalised("on") == "ON";
    StagedChangesOnlyItsDimension(t, s, t.modeCommand, "Cool", atof);
    assert Normalised("Cool") == "COOL";
    StagedChangesOnlyItsDimension(t, s, t.fanCommand, "quietly", atof);
    assert Normalised("quietly") == "QUIET";
    StagedChangesOnlyItsDimension(t, s, t.vaneCommand, "swinging", atof);
    assert Normalised("swinging") == "SWING";
    StagedChangesOnlyItsDimension(t, s, t.powerCommand, "onwards", atof);
    assert Normalised("onwards") == "ONWAR";
  }

  // ---------------------------------------------------------------------
  // The MQTT client, as a log of the requests the bridge makes
  // ---------------------------------------------------------------------

  datatype Action =
    | Subscribe(topic: string, qos: nat)
    | Publish(topic: string, qos: nat, retain: bool, payload: string)

  class MqttClient {
    var log: seq<Action>

    constructor ()
      ensures log == []
    {
      log := [];
    }

    method Subscribe(topic: string, qos: nat)
      modifies this
      ensures log == old(log) + [Action.Subscribe(topic, qos)]
    {
      log := log + [Action.Subscribe(topic, qos)];
    }

    method Publish(topic: string, qos: nat, retain: bool, payload: string)
      modifies this
      ensures log == old(log) + [Action.Publish(topic, qos, retain, payload)]
    {
      log := log + [Action.Publish(topic, qos, retain, payload)];
    }
  }

  /**
   * What a broker holds after a log: for each topic, the payload of the last
   * retained publish to it.  A retained publish with an empty payload removes
   * the retained message instead (section 3.3.1.3 of MQTT 3.1.1).  An
   * independent reading of a log, used to state what the publish sequences
   * leave behind.
   */
  function Retained(log: seq<Action>): map<string, string>
  {
    if log == [] then map[]
    else
      var a := log[|log| - 1];
      var before := Retained(log[..|log| - 1]);
      if a.Publish? && a.retain then
        if a.payload == [] then before - {a.topic} else before[a.topic := a.payload]
      else before
  }

  /** The broker holds `payload` for `topic`, or nothing when the payload is empty. */
  predicate Holds(m: map<string, string>, topic: string, payload: string)
  {
    if payload == [] then topic !in m else topic in m && m[topic] == payload
  }

  lemma {:induction false} RetainedAppend(a: seq<Action>, b: seq<Action>, topic: string)
    requires forall i :: 0 <= i < |b| ==> b[i].topic != topic
    ensures topic in Retained(a + b) <==> topic in Retained(a)
    ensures topic in Retained(a) ==> Retained(a + b)[topic] == Retained(a)[topic]
  {
    if b != [] {
      assert (a + b)[..|a + b| - 1] == a + b[..|b| - 1];
      assert (a + b)[|a + b| - 1] == b[|b| - 1];
      RetainedAppend(a, b[..|b| - 1], topic);
    } else {
      assert a + b == a;
    }
  }

  /**
   * The last retained publish to a topic decides what the broker holds for
   * it: that payload, or nothing when it is empty.
   */
  lemma {:induction false} RetainedLast(a: seq<Action>, topic: string, qos: nat, payload: string, b: seq<Action>)
    requires forall i :: 0 <= i < |b| ==> b[i].topic != topic
    ensures Holds(Retained(a + [Action.Publish(topic, qos, true, payload)] + b), topic, payload)
  {
    var a' := a + [Action.Publish(topic, qos, true, payload)];
    assert a'[..|a'| - 1] == a;
    RetainedAppend(a', b, topic);
  }

  // ---------------------------------------------------------------------
  // heatpumpSettingsChanged / heatpumpStatusChanged (src/main.cpp:61-87)
  // ---------------------------------------------------------------------

  /** The driver reports power as the string "ON" or "OFF". */
  predicate PowerOn(s: HeatpumpSettings)
  {
    s.power == "ON"
  }

  /** The mode state published: the literal OFF while the power is off. */
  function ModeState(s: HeatpumpSettings): string
  {
    if PowerOn(s) then s.mode else "OFF"
  }

  /**
   * The five publishes of `heatpumpSettingsChanged`, each QoS 0 and retained.
   * `format` is `snprintf(buf, 4, "%3.0f", t)`, left abstract.
   */
  function SettingsPublications(t: Topics, s: HeatpumpSettings, format: real -> string): seq<Action>
  {
    [ Action.Publish(t.powerState, 0, true, s.power),
      Action.Publish(t.modeState, 0, true, ModeState(s)),
      Action.Publish(t.temperatureState, 0, true, format(s.temperature)),
      Action.Publish(t.fanState, 0, true, s.fan),
      Action.Publish(t.vaneState, 0, true, s.vane) ]
  }

  method HeatpumpSettingsChanged(t: Topics, heatpump: HeatPump, client: MqttClient, format: real -> string)
    modifies client
    ensures client.log == old(client.log) + SettingsPublications(t, heatpump.current, format)
  {
    var settings := heatpump.current;
    var temperature := format(settings.temperature);
    client.Publish(t.powerState, 0, true, settings.power);
    if PowerOn(settings) {
      client.Publish(t.modeState, 0, true, settings.mode);
    } else {
      client.Publish(t.modeState, 0, true, "OFF");
    }
    client.Publish(t.temperatureState, 0, true, temperature);
    client.Publish(t.fanState, 0, true, settings.fan);
    client.Publish(t.vaneState, 0, true, settings.vane);
  }

  /**
   * After the settings publishes, the broker holds the reported power,
   * temperature, fan and vane on their state topics, and on the mode state
   * topic the literal OFF whenever the power is off, whatever the stored mode.
   * A setting reported as the empty string clears its topic instead.
   */
  lemma {:induction false} SettingsChangedRetainsState(t: Topics, s: HeatpumpSettings, format: real -> string, before: seq<Action>)
    requires Distinct(StateTopics(t))
    ensures var m := Retained(before + SettingsPublications(t, s, format));
      && Holds(m, t.powerState, s.power)
      && Holds(m, t.modeState, if s.power == "ON" then s.mode else "OFF")
      && Holds(m, t.temperatureState, format(s.temperature))
      && Holds(m, t.fanState, s.fan)
      && Holds(m, t.vaneState, s.vane)
  {
    var p := SettingsPublications(t, s, format);
    var all := before + p;
    var st := StateTopics(t);
    assert st[0] != st[1] && st[0] != st[2] && st[0] != st[3] && st[0] != st[4];
    assert st[1] != st[2] && st[1] != st[3] && st[1] != st[4];
    assert st[2] != st[3] && st[2] != st[4] && st[3] != st[4];
    assert all == (before + p[..0]) + [p[0]] + p[1..];
    RetainedLast(before + p[..0], t.powerState, 0, s.power, p[1..]);
    assert all == (before + p[..1]) + [p[1]] + p[2..];
    RetainedLast(before + p[..1], t.modeState, 0, ModeState(s), p[2..]);
    assert all == (before + p[..2]) + [p[2]] + p[3..];
    RetainedLast(before + p[..2], t.temperatureState, 0, format(s.temperature), p[3..]);
    assert all == (before + p[..3]) + [p[3]] + p[4..];
    RetainedLast(before + p[..3], t.fanState, 0, s.fan, p[4..]);
    assert all == (before + p[..4]) + [p[4]] + p[5..];
    RetainedLast(before + p[..4], t.vaneState, 0, s.vane, p[5..]);
  }

  /** The mode state ignores the stored mode while the power is off. */
  lemma ModeStateOverride(t: Topics, s: HeatpumpSettings, format: real -> string, otherMode: string)
    requires !PowerOn(s)
    ensures SettingsPublications(t, s, format) == SettingsPublications(t, s.(mode := otherMode), format)
    ensures SettingsPublications(t, s, format)[1] == Action.Publish(t.modeState, 0, true, "OFF")
  {
  }

  function StatusPublications(t: Topics, roomTemperature: real, format: real -> string): seq<Action>
  {
    [Action.Publish(t.currentTemperatureState, 0, true, format(roomTemperature))]
  }

  method HeatpumpStatusChanged(t: Topics, roomTemperature: real, client: MqttClient, format: real -> string)
    modifies client
    ensures client.log == old(client.log) + StatusPublications(t, roomTemperature, format)
  {
    var temperature := format(roomTemperature);
    client.Publish(t.currentTemperatureState, 0, true, temperature);
  }

  // ---------------------------------------------------------------------
  // mqttConnect (src/main.cpp:89-96)
  // ---------------------------------------------------------------------

  function ConnectActions(t: Topics): seq<Action>
  {
    [ Action.Subscribe(t.powerCommand, 0),
      Action.Subscribe(t.modeCommand, 0),
      Action.Subscribe(t.temperatureCommand, 0),
      Action.Subscribe(t.fanCommand, 0),
      Action.Subscribe(t.vaneCommand, 0),
      Action.Publish(t.availability, 2, true, "online") ]
  }

  method MqttConnect(t: Topics, client: MqttClient, sessionPresent: bool)
    modifies client
    ensures client.log == old(client.log) + ConnectActions(t)
  {
    client.Subscribe(t.powerCommand, 0);
    client.Subscribe(t.modeCommand, 0);
    client.Subscribe(t.temperatureCommand, 0);
    client.Subscribe(t.fanCommand, 0);
    client.Subscribe(t.vaneCommand, 0);
    client.Publish(t.availability, 2, true, "online");
  }

  /**
   * On connect the bridge subscribes, at QoS 0, to exactly the five command
   * topics before anything else, then leaves "online" retained on the
   * availability topic.
   */
  lemma {:induction false} ConnectSubscribesThenAnnounces(t: Topics, before: seq<Action>)
    ensures var c := ConnectActions(t);
      && |c| == 6
      && (forall i :: 0 <= i < 5 ==> c[i] == Action.Subscribe(CommandTopics(t)[i], 0))
      && (set i | 0 <= i < |c| && c[i].Subscribe? :: c[i].topic) == (set i | 0 <= i < 5 :: CommandTopics(t)[i])
      && c[5] == Action.Publish(t.availability, 2, true, "online")
    ensures var m := Retained(before + ConnectActions(t));
      t.availability in m && m[t.availability] == "online"
  {
    var c := ConnectActions(t);
    assert before + c == (before + c[..5]) + [c[5]] + [];
    RetainedLast(before + c[..5], t.availability, 2, "online", []);
  }
}
