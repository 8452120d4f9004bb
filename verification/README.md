# ESP8266 heat-pump bridge: a Dafny model of its core

The firmware turns a Mitsubishi heat pump into an MQTT device. When it has no network
configuration, it opens an access point with a captive portal and serves a small
configuration app. This project models the parts of that system that are logic rather
than plumbing, and proves what they promise:

- **Captive-portal DNS responder** (`CaptivePortal.dfy`). The UDP packet handler answers
  every plain single-question query with a forged A record that points at the portal's
  own address. The model has the 12-byte header of section 4.1.1 of RFC 1035, and the
  answer record of section 4.1.3 with the name pointer of section 4.1.4. The handler is
  a method over a byte array and a fixed-capacity outgoing message, proved equal to a
  reply function whose bytes are then stated one by one.
- **MQTT payload handling** (`Commands.dfy`). This covers the bounded `upcase` into the
  6-byte command buffer, proved against a function on C strings, and the five payload
  validators.
- **MQTT bridge** (`Bridge.dfy`):
  - the twelve topics derived from the configured prefix;
  - `mqttMessage`, which dispatches a command onto the heat pump's staged settings and
    then calls `update()`;
  - the publish and subscribe sequences of `heatpumpSettingsChanged`,
    `heatpumpStatusChanged` and `mqttConnect`.

  The heat-pump driver and the MQTT client are classes that hold the state the bridge
  touches: the driver's staged and reported settings, and the client's ordered log of
  actions.
- **Configuration hex codec** of the web app (`ConfigCodec.dfy`). `encode` writes a flags
  byte, then eight length-prefixed strings, then renders every byte as two hex digits.
  `decode` reverses this. Both are methods with loops. The model proves them against
  specification functions and proves the round trip.
- **`cleanProps`** of the web app (`Utilities.dfy`). It keeps only the keys the
  configuration knows, in input order.
- **Device `Config`** (`DeviceConfig.dfy`). This covers the two constructors,
  `populateJson` and `updateFromJson`, over a JSON object that the methods change in
  place.

`Wrappers.dfy` holds the `Option` type shared by the modules.

External inputs are parameters:
- the local IP address of the DNS handler;
- `atof` (`string -> real`);
- the `"%3.0f"` temperature formatting (`real -> string`);
- the contents of the JSON objects.

## Model

| member | source | states |
|---|---|---|
| CaptivePortal.OnPacket | lib/CaptivePortal/CaptivePortal.cpp:33-81 | the handler copies the datagram, checks the header and rewrites it, then writes the message; what it sends is exactly `Reply(packet, localIP)`, and nothing when that is None |
| CaptivePortal.UdpMessage.Write | lib/CaptivePortal/CaptivePortal.cpp:46-51 | appends as much of the data as fits in the message's capacity and reports the count |
| CaptivePortal.UdpMessage.WriteByte | lib/CaptivePortal/CaptivePortal.cpp:52-73 | a single-byte write appends the byte exactly when there is room |
| CaptivePortal.WriteAnswer | lib/CaptivePortal/CaptivePortal.cpp:52-73 | the sixteen single-byte writes append pointer C0 0C, TYPE 1, CLASS 1, TTL 1, RDLENGTH 4 and the four address octets |
| CaptivePortal.ReplyIffPlainQuery | lib/CaptivePortal/CaptivePortal.cpp:34-43 | a reply is sent if and only if QR = query, OPCODE = 0, QDCOUNT = 1 and ANCOUNT = NSCOUNT = ARCOUNT = 0; the empty datagram gets none |
| CaptivePortal.ReplyLength | lib/CaptivePortal/CaptivePortal.cpp:44-51 | the reply is 16 bytes longer than the request |
| CaptivePortal.ReplyHeader | lib/CaptivePortal/CaptivePortal.cpp:47-49 | the reply header is the request header with QR = response and ANCOUNT = QDCOUNT = 1; ID, other flags and other counts unchanged |
| CaptivePortal.ResponseFlagByte | lib/CaptivePortal/CaptivePortal.cpp:47 | setting QR in a query's flag byte keeps OPCODE, AA, TC and RD |
| CaptivePortal.ReplyKeepsQuestion | lib/CaptivePortal/CaptivePortal.cpp:51 | the ID and every byte after the header (the question) are copied unchanged |
| CaptivePortal.ReplyAnswer | lib/CaptivePortal/CaptivePortal.cpp:52-73 | the last 16 bytes are C0 0C 00 01 00 01 00 00 00 01 00 04 followed by the local address octets in order, and parse as that A record |
| CaptivePortal.ReplyNeedsWholeHeader | lib/CaptivePortal/CaptivePortal.cpp:34-41 | every datagram of 1 to 11 bytes passes the source's guard, and the model sends no reply to it |
| Commands.Upcased | src/main.cpp:139-146 | the upper-cased copy has at most min(len, buf_len - 1) characters, each `toupper` of the input, and stops only at that bound or at a NUL |
| Commands.Upcase | src/main.cpp:139-146 | the loop leaves `Upcased(s[..len])` at the front of the buffer, a NUL right after it and the rest of the buffer untouched |
| Commands.BufferHoldsUpcased | src/main.cpp:145-155 | the C string a validator reads from the buffer is exactly the upper-cased payload |
| Commands.UpcasedKeepsFive | src/main.cpp:149-153 | with the 6-byte buffer only the first five payload characters matter |
| Commands.ValidatePowerValue | src/main.cpp:98-102 | accepts exactly "ON" and "OFF" |
| Commands.ValidateModeValue | src/main.cpp:104-111 | accepts exactly HEAT, DRY, COOL, FAN and AUTO |
| Commands.ValidateTemperatureValue | src/main.cpp:113-116 | accepts exactly when 15 < atof(value) < 31 |
| Commands.ValidateFanValue | src/main.cpp:118-126 | accepts exactly AUTO, QUIET and 1 to 4 |
| Commands.ValidateVaneValue | src/main.cpp:128-137 | accepts exactly AUTO, 1 to 5 and SWING |
| Commands.ValidatorsAreCaseSensitive | src/main.cpp:98-137 | lower-case and empty spellings are refused |
| Commands.AcceptedValuesFitBuffer | src/main.cpp:98-150 | every accepted value is non-empty, NUL-free upper case of at most five characters, and `upcase` into the 6-byte buffer gives it back unchanged |
| Commands.UpcasedOfUpperCase | src/main.cpp:139-146 | a NUL-free upper-case string shorter than the buffer comes out of `upcase` unchanged |
| Bridge.Snprintf | src/main.cpp:351-363 | `snprintf` into a buffer keeps a prefix of the text of length min(len, size - 1) |
| Bridge.DerivedTopicsFit | src/main.cpp:351-363 | for any prefix, each of the twelve `snprintf` calls leaves the start of prefix + suffix in its topic, min(length, 127) characters of it |
| Bridge.DerivedTopicsArePrefixed | src/main.cpp:351-363 | with a prefix that fits its buffer, every topic is the prefix followed by its fixed suffix |
| Bridge.TopicsDistinct | src/main.cpp:351-363 | the twelve topics are pairwise distinct for any fitting prefix, so the five command topics can be told apart |
| Bridge.DifferentPrefixesDifferentTopics | src/main.cpp:351-363 | two different fitting prefixes give different topics in every position |
| Bridge.OverlongPrefixCollapsesTopics | src/main.cpp:359-360 | a prefix of 127 or more characters would cut the power and mode command topics to the same string |
| Bridge.HeatPump.SetPowerSetting | src/main.cpp:156 | stages the power value and changes nothing else |
| Bridge.HeatPump.SetModeSetting | src/main.cpp:162 | stages the mode value and changes nothing else |
| Bridge.HeatPump.SetTemperature | src/main.cpp:168 | stages the temperature and changes nothing else |
| Bridge.HeatPump.SetFanSpeed | src/main.cpp:174 | stages the fan value and changes nothing else |
| Bridge.HeatPump.SetVaneSetting | src/main.cpp:180 | stages the vane value and changes nothing else |
| Bridge.HeatPump.Update | src/main.cpp:183 | counts one `update()` call and leaves the settings alone |
| Bridge.Normalised | src/main.cpp:149-153 | the value the validators see has at most five characters |
| Bridge.UpcaseInto | src/main.cpp:153 | `upcase` into the 6-byte buffer followed by a C-string read yields `Normalised(payload[..len])` |
| Bridge.MqttMessage | src/main.cpp:148-184 | the staged settings become `Staged(...)` of the old ones, the reported settings are unchanged and `update()` is called exactly once, on every message |
| Bridge.StagedChangesOnlyItsDimension | src/main.cpp:152-182 | a message on a command topic changes only that topic's setting, and only when the validator accepts; any other topic or a rejected payload changes nothing |
| Bridge.StagedValuesAreValid | src/main.cpp:155-181 | any staged value that changed is one its validator accepts |
| Bridge.NormalisationExamples | src/main.cpp:149-181 | "on" sets power ON, "Cool" sets COOL, "quietly" sets QUIET, "swinging" sets SWING, and "onwards" is rejected |
| Bridge.MqttClient.Subscribe | src/main.cpp:90-94 | appends one subscribe action to the client's log |
| Bridge.MqttClient.Publish | src/main.cpp:66-79 | appends one publish action to the client's log |
| Bridge.RetainedAppend | src/main.cpp:66-79 | actions on other topics do not change whether the broker retains a message for a topic, nor which |
| Bridge.RetainedLast | src/main.cpp:66-79 | the last retained publish to a topic decides what the broker holds for it: that payload, or no retained message when the payload is empty (section 3.3.1.3 of MQTT 3.1.1) |
| Bridge.HeatpumpSettingsChanged | src/main.cpp:61-80 | appends the five retained QoS-0 publishes of the reported settings: power, mode, temperature, fan, vane |
| Bridge.SettingsChangedRetainsState | src/main.cpp:61-80 | afterwards the broker holds power, temperature, fan and vane on their state topics, and the mode when power is ON, else the literal OFF; a setting reported as "" leaves no retained message on its topic |
| Bridge.ModeStateOverride | src/main.cpp:67-73 | while power is off the publishes do not depend on the stored mode, and the mode state is OFF |
| Bridge.HeatpumpStatusChanged | src/main.cpp:82-87 | appends one retained QoS-0 publish of the formatted room temperature |
| Bridge.MqttConnect | src/main.cpp:89-96 | appends the connect sequence to the client's log |
| Bridge.ConnectSubscribesThenAnnounces | src/main.cpp:89-96 | the sequence first subscribes, at QoS 0, to exactly the five command topics, then publishes "online" retained at QoS 2, which the broker then holds |
| ConfigCodec.KeysOfDefaults | config_app/src/lib/config/index.js:2-15 | the keys of DEFAULTS are encryption, dhcp and then STRINGS, whose defaults are all "" |
| ConfigCodec.StringChunk | config_app/src/lib/config/index.js:27-33 | a field becomes its length byte followed by its character codes; a non-string becomes the single byte 0 |
| ConfigCodec.ToHexString | config_app/src/lib/config/index.js:48 | `toString(16)` gives lower-case hex digits: one for values below 16, two below 256 |
| ConfigCodec.ByteHexParses | config_app/src/lib/config/index.js:47-61 | a padded byte is two lower-case hex digits that `parseInt(_, 16)` reads back as the byte |
| ConfigCodec.Encode | config_app/src/lib/config/index.js:35-56 | the method's loops produce `Hex([0, flags] + Serialized(obj, STRINGS))` |
| ConfigCodec.SerializeFields | config_app/src/lib/config/index.js:41-44 | the forEach appends every field's chunk in key order |
| ConfigCodec.RenderHex | config_app/src/lib/config/index.js:46-53 | the hex loop renders each byte as its padded hex digits, in order |
| ConfigCodec.ParseBytes | config_app/src/lib/config/index.js:59-62 | a hex string of 2n digits gives n bytes, each below 256 |
| ConfigCodec.Decode | config_app/src/lib/config/index.js:58-77 | the method's loops produce `DecodeBytes(ParseBytes(str))` |
| ConfigCodec.DeserializeFields | config_app/src/lib/config/index.js:69-74 | threading the offset through the fields gives `DecodeStrings` |
| ConfigCodec.HexLength | config_app/src/lib/config/index.js:46-53 | the hex string is exactly twice as long as the byte list |
| ConfigCodec.HexIsHexString | config_app/src/lib/config/index.js:46-53 | the output consists of hex digits only and has even length |
| ConfigCodec.HexRoundTrip | config_app/src/lib/config/index.js:46-62 | parsing the rendered hex gives back the bytes |
| ConfigCodec.EncodedHexAt | config_app/src/lib/config/index.js:46-53 | digits 2i and 2i+1 of the output parse to byte i |
| ConfigCodec.DeserializeStringReads | config_app/src/lib/config/index.js:17-25 | `deserializeString` at an offset inside the buffer returns offset + 1 + the length byte and the characters of the bytes that follow, cut at the end of the buffer; at a NaN offset, or at or past the end, it returns NaN and "" |
| ConfigCodec.SerializeThenDeserialize | config_app/src/lib/config/index.js:17-33 | `serializeString` appends 1 + length bytes after the buffer, and `deserializeString` at the old end reads the string back and returns the new end |
| ConfigCodec.DeserializeChunk | config_app/src/lib/config/index.js:17-25 | reading at a length byte gives the offset advanced by 1 + length, and exactly the next `length` characters |
| ConfigCodec.DecodeStringsOfSerialized | config_app/src/lib/config/index.js:69-74 | decoding a serialized field list reads every field back and ends just past the last one |
| ConfigCodec.FlagsRoundTrip | config_app/src/lib/config/index.js:38-66 | the flags byte is below 16; its low three bits give encryption & 7 and bit 3 gives dhcp |
| ConfigCodec.DecodeEncodedBytes | config_app/src/lib/config/index.js:35-77 | decoding the encoded bytes gives the normalised object |
| ConfigCodec.RoundTrip | config_app/src/lib/config/index.js:35-77 | for strings of byte characters and at most 255 characters, `decode(encode(o))` keeps encryption & 7, dhcp and every string field (non-strings become "") |
| ConfigCodec.RoundTripSettings | config_app/src/lib/config/index.js:35-77 | for encryption in 0..7 and the eight string fields, `decode(encode(o)) == o` |
| ConfigCodec.SerializedChunks | config_app/src/lib/config/index.js:27-44 | fields holding the strings `values` serialise to their length-prefixed chunks, in key order |
| ConfigCodec.SerializedLength | config_app/src/lib/config/index.js:27-44 | the fields take one length byte each plus their characters |
| ConfigCodec.EncodedLength | config_app/src/lib/config/index.js:35-56 | the output has 2 × (2 + Σ(1 + len_i)) hex digits |
| ConfigCodec.DecodeThenEncodeFlags | config_app/src/lib/config/index.js:36-67 | `encode(decode(s))` rewrites byte 0 as 0 and keeps only the low four bits of byte 1 |
| ConfigCodec.DecodeThenEncodeCanonical | config_app/src/lib/config/index.js:35-77 | on bytes: a layout that is already canonical (byte 0 is 0, byte 1 is below 16, eight well-formed fields) is reproduced exactly by decoding then encoding |
| ConfigCodec.DecodeThenEncodeCanonicalHex | config_app/src/lib/config/index.js:35-77 | on strings: the lower-case hex of such a layout is a valid `decode` input and `encode(decode(s)) == s` |
| ConfigCodec.EncodeFirstField | config_app/src/lib/config/index.spec.js:52-66 | byte 2 is the length of deviceName and its character codes follow |
| ConfigCodec.DecodeFlagsExample | config_app/src/lib/config/index.spec.js:223-237 | flags byte 0xdc decodes to encryption 4 and dhcp on |
| ConfigCodec.DecodeFirstField | config_app/src/lib/config/index.js:17-25 | deviceName decodes to the characters counted by byte 2, cut at the end of the buffer |
| ConfigCodec.DecodeDeviceNameExample | config_app/src/lib/config/index.spec.js:239-243 | bytes 05 46 65 6c 75 78 at offset 2 decode to deviceName "Felux" |
| ConfigCodec.TestVectorLayout | config_app/src/lib/config/index.spec.js:223 | the 82 bytes of the decoding test vector are flags byte 0xdc followed by the serialised expected fields |
| ConfigCodec.DecodeTestVector | config_app/src/lib/config/index.spec.js:222-285 | the decoding test vector decodes to encryption 4, DHCP on and exactly the eight expected strings ("Felux", "YourWIFI", "YourPasskey", "felux", "192.168.0.10", "8.8.8.4", "192.168.0.1", "255.255.255.0") |
| ConfigCodec.DecodePastEnd | config_app/src/lib/config/index.js:17-25 | once the offset after some field is NaN or past the end of the buffer, the final offset is NaN and that field and every later one decode to "", on top of what the earlier fields read |
| ConfigCodec.DecodeShortBuffer | config_app/src/lib/config/index.js:17-25 | a buffer of at most the two header bytes decodes every field to "" |
| Utilities.CleanProps | config_app/src/lib/utilities/index.js:4-12 | the forEach loop builds exactly `Cleaned(props)` |
| Utilities.CleanedKeysFrom | config_app/src/lib/utilities/index.js:6-9 | every key of the result is a key of the input |
| Utilities.KnownKeysMembership | config_app/src/lib/utilities/index.js:7-8 | a key is kept if and only if the input has it and DEFAULTS knows it |
| Utilities.CleanedKeyOrder | config_app/src/lib/utilities/index.js:6-9 | the result's keys are the input's known keys, in input order |
| Utilities.CleanedEntriesFrom | config_app/src/lib/utilities/index.js:8 | every kept entry is an entry of the input with the same value, under a known key |
| Utilities.CleanedAllKnown | config_app/src/lib/utilities/index.js:4-12 | an object whose keys are all known comes back unchanged |
| Utilities.CleanedIdempotent | config_app/src/lib/utilities/index.js:4-12 | `cleanProps(cleanProps(p)) == cleanProps(p)` |
| Utilities.UnknownKeyRemoved | config_app/src/lib/utilities/index.spec.js:7-12 | DEFAULTS plus `unknownkey` cleans to exactly the keys of DEFAULTS, in order |
| DeviceConfig.Config.constructor | src/Config.cpp:4-14 | the default constructor gives empty strings, port 8883, SSL on and topic "esp-ac" |
| DeviceConfig.Config.FromJson | src/Config.cpp:16-26 | the JSON constructor sets the fields to `FromJsonFields` of the object |
| DeviceConfig.Config.PopulateJson | src/Config.cpp:38-47 | writes the eight keys into the caller's object and keeps its other keys |
| DeviceConfig.Config.UpdateFromJson | src/Config.cpp:49-58 | every field is overwritten from its key |
| DeviceConfig.Populated | src/Config.cpp:38-47 | the keys written are exactly wifiSSID, wifiPSK, mqttHost, mqttPort, mqttUsername, mqttPassword, mqttUseSSL and mqttTopic |
| DeviceConfig.PopulateThenUpdate | src/Config.cpp:38-58 | `updateFromJson` after `populateJson` restores every field, whatever else the object held |
| DeviceConfig.ConstructorFallbacks | src/Config.cpp:16-26 | port 8883, SSL on and topic "esp-ac" when the key is missing or of another type, the stored value otherwise; the topic is never null; a missing ssid is null |
| DeviceConfig.ConstructorMissesWifiKeys | src/Config.cpp:16-47 | constructing from `populateJson` output loses ssid and psk (read under other keys) and keeps every MQTT field, except that a null topic comes back as "esp-ac" |
| DeviceConfig.UpdateAppliesNoDefaults | src/Config.cpp:49-58 | a missing key clears its field (null, 0, false) where the JSON constructor would use 8883, true and "esp-ac" |
| DeviceConfig.DefaultsAgainstEmptyJson | src/Config.cpp:4-26 | both constructors agree on port, SSL and topic for an empty object; their strings differ ("" against null) |

## Left out

- DNS: the AsyncUDP socket, `CaptivePortal::start` and `stop` (Wi-Fi and network set-up), and the heap allocation and release of the buffer and the message.
- OnPacket: it drops datagrams of 1 to 11 bytes, where the source reads past their end (see Findings).
- Bridge.PowerOn: `heatpump.getPowerSettingBool()` (src/main.cpp:67) is a call into the HeatPump library; it is modelled as the reported power setting being "ON".
- The HeatPump library is external. Its serial protocol, `sync`, and the callbacks that report changes are not modelled. The driver is only staged and reported settings plus a count of `update()` calls.
- Floating point: `atof` and the `"%3.0f"` formatting into a 4-byte buffer are function parameters, not modelled.
- `mqttMessage` sees the whole payload in one call; fragmented deliveries (`index`/`total`) are not modelled.
- Debug printing and device bring-up are not modelled:
  - `detectHeatpump`, OTA, WiFiManager, `loop` and `setup` sequencing;
  - SPIFFS `loadConfig`/`saveConfig`, the reset button.

  The topic derivation is modelled on its own, with the prefix as a parameter.
- Commands.Upcase: the source tests `*s` before the remaining count, so it reads one byte past the last one it copies. The model tests the count first; the outcome is the same.
- Config codec, input assumptions:
  - `decode` is modelled on even-length strings of hex digits; `parseInt` of non-hex text (NaN) and odd lengths are not modelled.
  - `encryption` is a number in the model; JavaScript's coercion of the default `'7'` by `& 0x07` is not modelled.
  - Characters are UTF-16 code units as Dafny `char`s; characters outside the Basic Multilingual Plane are not modelled.
- Config codec, defaults: `decode` starts from a copy of DEFAULTS, but overwrites every one of its keys, so the model starts from no fields.
- ConfigCodec.DecodeTestVector: the test vector is stated as its 82 bytes, grouped by field, not as the 164-digit hex string. Parsing that literal would unroll ParseBytes 82 times, which costs the solver more than this model allows. HexRoundTrip covers hex parsing for all byte lists.
- ConfigCodec.RoundTrip: stated for strings of at most 255 characters with codes below 256. Longer strings do not fit a length byte, and neither direction of that case is modelled.
- cleanProps: inputs are objects with distinct string keys. JavaScript's ordering of integer-like keys ahead of other keys is not modelled.
- Config, ArduinoJson:
  - ArduinoJson's conversions between value types are not modelled. A value of another type reads as null, 0 or false.
  - The JSON buffer's capacity is not modelled.
  - JSON numbers are unbounded integers; narrowing to a 32-bit `int` is not modelled.
- `Config::asJson` is not modelled: it returns an object that lives in a buffer local to the function.
- src/ConfigServer.cpp, the Preact UI and the build files are not part of this model.

## Findings

| source | as written | input that shows it | evidently intended | confidence | as-written member | corrected member |
|---|---|---|---|---|---|---|
| lib/CaptivePortal/CaptivePortal.cpp:34-41 | the handler checks only `length() > 0` and then reads the 12-byte DNS header from a buffer of `length()` bytes | a 1-byte datagram `[0]` passes the guard, and the header read goes 11 bytes past the buffer | datagrams shorter than a DNS header are dropped | not executed | CaptivePortal.ShortDatagramPassesSourceGuard | CaptivePortal.ReplyNeedsWholeHeader |
