/**
 * The configuration codec of config_app/src/lib/config/index.js.  `encode`
 * packs a settings object into bytes (a zero byte, a flags byte holding the
 * 3-bit encryption type and the DHCP bit, then eight length-prefixed strings
 * in a fixed order) and renders every byte with `toString(16)`, padded to two
 * digits.  `decode` parses the hex back two digits at a time and walks the
 * strings with a running offset.
 *
 * JavaScript strings are `seq<char>` and `charCodeAt` is the character's
 * code; a JavaScript `NaN` offset is `None`.
 */
module ConfigCodec {
  import opened Wrappers

  /** The JavaScript values the settings object can hold. */
  datatype JsValue = JsString(s: string) | JsNumber(n: int) | JsBool(b: bool) | JsNull | JsUndefined

  /** `DEFAULTS`, in declaration order: the order the byte layout depends on. */
  const DEFAULTS: seq<(string, JsValue)> := [
    ("encryption", JsString("7")),
    ("dhcp", JsBool(true)),
    ("deviceName", JsString("")),
    ("ssid", JsString("")),
    ("passkey", JsString("")),
    ("hostname", JsString("")),
    ("staticIP", JsString("")),
    ("staticDNS", JsString("")),
    ("staticGateway", JsString("")),
    ("staticSubnet", JsString(""))]

  /** `Object.keys` of an object given as its entries in key order. */
  function KeysOf<V>(entries: seq<(string, V)>): (keys: seq<string>)
    ensures |keys| == |entries|
    ensures forall i :: 0 <= i < |entries| ==> keys[i] == entries[i].0
  {
    seq(|entries|, i requires 0 <= i < |entries| => entries[i].0)
  }

  /** `Object.keys(DEFAULTS).slice(2)`: the string fields, in wire order. */
  const STRINGS: seq<string> := ["deviceName", "ssid", "passkey", "hostname",
                                 "staticIP", "staticDNS", "staticGateway", "staticSubnet"]

  /** `Object.keys(DEFAULTS)`. */
  const KEYS: seq<string> := ["encryption", "dhcp"] + STRINGS

  /** KEYS lists the keys of DEFAULTS in order, and STRINGS is KEYS without its first two. */
  lemma KeysOfDefaults()
    ensures KeysOf(DEFAULTS) == KEYS
    ensures KEYS[2..] == STRINGS
    ensures forall i :: 2 <= i < |DEFAULTS| ==> DEFAULTS[i].1 == JsString("")
  {
  }

  /**
   * The object handed to `encode` and returned by `decode`: the numeric
   * encryption type, the DHCP flag, and the string fields by key (a key that
   * is not present reads as `undefined`).
   */
  datatype ConfigObject = ConfigObject(encryption: int, dhcp: bool, strings: map<string, JsValue>)

  function Field(obj: ConfigObject, key: string): JsValue
  {
    if key in obj.strings then obj.strings[key] else JsUndefined
  }

  // ---------------------------------------------------------------------
  // The byte layout (index.js:15-44)
  // ---------------------------------------------------------------------

  /** `serializeString`: anything but a string is written as the empty string. */
  function AsString(v: JsValue): string
  {
    if v.JsString? then v.s else ""
  }

  function CharCodes(s: string): (codes: seq<nat>)
    ensures |codes| == |s|
    ensures forall i :: 0 <= i < |s| ==> codes[i] == s[i] as nat
  {
    seq(|s|, i requires 0 <= i < |s| => s[i] as nat)
  }

  /** The bytes one string field adds: its length, then its character codes. */
  function StringChunk(v: JsValue): (chunk: seq<nat>)
    ensures |chunk| == 1 + |AsString(v)|
    ensures chunk[0] == |AsString(v)| && chunk[1..] == CharCodes(AsString(v))
    ensures !v.JsString? ==> chunk == [0]
  {
    [|AsString(v)|] + CharCodes(AsString(v))
  }

  /**
   * `serializeString(buffer, str)`: the buffer, then the length byte, then
   * the character codes; a value that is not a string adds a single 0.
   */
  function SerializeString(buffer: seq<nat>, v: JsValue): seq<nat>
  {
    buffer + StringChunk(v)
  }

  /** The chunks of the fields `keys`, in order. */
  function Serialized(obj: ConfigObject, keys: seq<string>): seq<nat>
  {
    if keys == [] then []
    else SerializeString(Serialized(obj, keys[..|keys| - 1]), Field(obj, keys[|keys| - 1]))
  }

  /** `bytes[1] = obj.encryption & 0x07; bytes[1] += obj.dhcp ? 8 : 0`. */
  function FlagsByte(obj: ConfigObject): nat
  {
    obj.encryption % 8 + (if obj.dhcp then 8 else 0)
  }

  /** The bytes `encode` renders. */
  function EncodedBytes(obj: ConfigObject): seq<nat>
  {
    [0, FlagsByte(obj)] + Serialized(obj, STRINGS)
  }

  // ---------------------------------------------------------------------
  // Hex rendering (index.js:46-53)
  // ---------------------------------------------------------------------

  /** A digit `toString(16)` writes: lower case. */
  predicate IsLowerHexDigit(c: char)
  {
    '0' <= c <= '9' || 'a' <= c <= 'f'
  }

  function HexDigit(d: nat): (c: char)
    requires d < 16
    ensures IsLowerHexDigit(c)
  {
    if d < 10 then ('0' as int + d) as char else ('a' as int + d - 10) as char
  }

  function ToHexString(n: nat): (h: string)
    ensures 1 <= |h|
    ensures n < 16 ==> |h| == 1
    ensures 16 <= n < 256 ==> |h| == 2
    ensures forall i :: 0 <= i < |h| ==> IsLowerHexDigit(h[i])
  {
    if n < 16 then [HexDigit(n)] else ToHexString(n / 16) + [HexDigit(n % 16)]
  }

  /** One byte as `encode` writes it: `toString(16)`, with a "0" in front of a single digit. */
  function ByteHex(n: nat): (h: string)
    ensures n < 256 ==> |h| == 2
  {
    var h := ToHexString(n);
    if |h| == 1 then "0" + h else h
  }

  function Hex(bytes: seq<nat>): string
  {
    if bytes == [] then "" else Hex(bytes[..|bytes| - 1]) + ByteHex(bytes[|bytes| - 1])
  }

  lemma HexSnoc(bytes: seq<nat>)
    requires bytes != []
    ensures Hex(bytes) == Hex(bytes[..|bytes| - 1]) + ByteHex(bytes[|bytes| - 1])
  {
  }

  /** The string `encode` returns. */
  function EncodeSpec(obj: ConfigObject): string
  {
    Hex(EncodedBytes(obj))
  }

  /**
   * `encode`: fills the flags byte, appends each string field's chunk in
   * STRINGS order, then renders the bytes as hex.
   */
  method Encode(obj: ConfigObject) returns (hex: string)
    ensures hex == EncodeSpec(obj)
  {
    var bytes: seq<nat> := [0, 0];
    bytes := bytes[1 := obj.encryption % 8];
    bytes := bytes[1 := bytes[1] + if obj.dhcp then 8 else 0];

    assert bytes == [0, FlagsByte(obj)];
    bytes := SerializeFields(bytes, obj, STRINGS);
    hex := RenderHex(bytes);
  }

  /** `keys.forEach((key) => { bytes = serializeString(bytes, obj[key]) })`. */
  method SerializeFields(bytes: seq<nat>, obj: ConfigObject, keys: seq<string>) returns (out: seq<nat>)
    ensures out == bytes + Serialized(obj, keys)
  {
    out := bytes;
    var k := 0;
    while k < |keys|
      invariant 0 <= k <= |keys|
      invariant out == bytes + Serialized(obj, keys[..k])
    {
      assert keys[..k + 1][..k] == keys[..k] && keys[..k + 1][k] == keys[k];
      SerializedSnoc(obj, keys[..k + 1]);
      Associative(bytes, Serialized(obj, keys[..k]), StringChunk(Field(obj, keys[k])));
      out := SerializeString(out, Field(obj, keys[k]));
      k := k + 1;
    }
    assert keys[..k] == keys;
  }

  /** The `bytes.forEach` at the end of `encode`: each byte as `toString(16)`, padded to two digits. */
  method RenderHex(bytes: seq<nat>) returns (hex: string)
    ensures hex == Hex(bytes)
  {
    hex := "";
    var i := 0;
    while i < |bytes|
      invariant 0 <= i <= |bytes|
      invariant hex == Hex(bytes[..i])
    {
      var h := ToHexString(bytes[i]);
      if |h| == 1 {
        h := "0" + h;
      }
      assert bytes[..i + 1][..i] == bytes[..i];
      HexSnoc(bytes[..i + 1]);
      hex := hex + h;
      i := i + 1;
    }
    assert bytes[..i] == bytes;
  }

  // ---------------------------------------------------------------------
  // Hex parsing and decoding (index.js:17-25, 58-77)
  // ---------------------------------------------------------------------

  predicate IsHexDigit(c: char)
  {
    '0' <= c <= '9' || 'a' <= c <= 'f' || 'A' <= c <= 'F'
  }

  function HexValue(c: char): (v: nat)
    requires IsHexDigit(c)
    ensures v < 16
  {
    if '0' <= c <= '9' then c as nat - '0' as nat
    else if 'a' <= c <= 'f' then c as nat - 'a' as nat + 10
    else c as nat - 'A' as nat + 10
  }

  /** What `decode` is given: an even number of hex digits. */
  predicate IsHexString(s: string)
  {
    |s| % 2 == 0 && forall i :: 0 <= i < |s| ==> IsHexDigit(s[i])
  }

  /** Every value is a byte. */
  predicate Bytes(b: seq<nat>)
  {
    forall i :: 0 <= i < |b| ==> b[i] < 256
  }

  /** `parseInt(s.substring(2 * i, 2 * i + 2), 16)` for two hex digits. */
  function PairValue(hi: char, lo: char): (v: nat)
    requires IsHexDigit(hi) && IsHexDigit(lo)
    ensures v < 256
  {
    HexValue(hi) * 16 + HexValue(lo)
  }

  function ParseBytes(s: string): (bytes: seq<nat>)
    requires IsHexString(s)
    ensures |bytes| == |s| / 2
    ensures Bytes(bytes)
  {
    if s == [] then []
    else ParseBytes(s[..|s| - 2]) + [PairValue(s[|s| - 2], s[|s| - 1])]
  }

  /** `String.fromCharCode` over a run of bytes. */
  function Chars(codes: seq<nat>): (s: string)
    requires Bytes(codes)
    ensures |s| == |codes| && forall i :: 0 <= i < |codes| ==> s[i] as nat == codes[i]
  {
    seq(|codes|, i requires 0 <= i < |codes| => codes[i] as char)
  }

  /**
   * `deserializeString(buffer, offset)`: the length byte at `offset`, then
   * that many bytes as characters (fewer when the buffer ends first), and the
   * offset just past them.  Reading the length past the end yields
   * `undefined`, so the offset becomes NaN and every later string is empty.
   */
  function DeserializeString(buffer: seq<nat>, offset: Option<nat>): (Option<nat>, string)
    requires Bytes(buffer)
  {
    if offset.None? || offset.value >= |buffer| then (None, "")
    else
      var start := offset.value + 1;
      var end := start + buffer[offset.value];
      (Some(end), Chars(buffer[start..if end <= |buffer| then end else |buffer|]))
  }

  /** The offset and the strings after the fields `keys` have been read, starting at offset 2. */
  function DecodeStrings(buffer: seq<nat>, keys: seq<string>): (Option<nat>, map<string, JsValue>)
    requires Bytes(buffer)
  {
    if keys == [] then (Some(2), map[])
    else
      var previous := DecodeStrings(buffer, keys[..|keys| - 1]);
      var field := DeserializeString(buffer, previous.0);
      (field.0, previous.1[keys[|keys| - 1] := JsString(field.1)])
  }

  /**
   * The object `decode` builds from the bytes: encryption is `bytes[1] & 7`,
   * DHCP is bit 3 of `bytes[1]` (a missing byte reads as 0), and the
   * string fields are read in order.  `decode` starts from a copy of
   * DEFAULTS, but overwrites every one of its keys, so none of the defaults
   * survives and the model starts from no fields.
   */
  function DecodeBytes(bytes: seq<nat>): ConfigObject
    requires Bytes(bytes)
  {
    var flags := if |bytes| > 1 then bytes[1] else 0;
    ConfigObject(flags % 8, (flags / 8) % 2 == 1, DecodeStrings(bytes, STRINGS).1)
  }

  function DecodeSpec(s: string): ConfigObject
    requires IsHexString(s)
  {
    DecodeBytes(ParseBytes(s))
  }

  /**
   * `decode`: parses the hex two digits at a time, then threads the offset
   * through the string fields in STRINGS order.
   */
  method Decode(str: string) returns (obj: ConfigObject)
    requires IsHexString(str)
    ensures obj == DecodeSpec(str)
  {
    var bytes: seq<nat> := [];
    var i := 0;
    while i < |str| / 2
      invariant 0 <= i <= |str| / 2
      invariant bytes == ParseBytes(str[..2 * i])
    {
      assert str[..2 * i + 2][..2 * i] == str[..2 * i];
      bytes := bytes + [PairValue(str[2 * i], str[2 * i + 1])];
      i := i + 1;
    }
    assert str[..2 * i] == str;

    var flags := if |bytes| > 1 then bytes[1] else 0;
    obj := ConfigObject(flags % 8, (flags / 8) % 2 == 1, map[]);

    var offset, strings := DeserializeFields(bytes, STRINGS);
    obj := obj.(strings := strings);
  }

  /**
   * `keys.forEach((key) => { [offset, obj[key]] = deserializeString(bytes, offset) })`,
   * starting at offset 2: the final offset and the fields read.
   */
  method DeserializeFields(bytes: seq<nat>, keys: seq<string>) returns (offset: Option<nat>, strings: map<string, JsValue>)
    requires Bytes(bytes)
    ensures (offset, strings) == DecodeStrings(bytes, keys)
  {
    offset, strings := Some(2), map[];
    var k := 0;
    while k < |keys|
      invariant 0 <= k <= |keys|
      invariant (offset, strings) == DecodeStrings(bytes, keys[..k])
    {
      assert keys[..k + 1][..k] == keys[..k] && keys[..k + 1][k] == keys[k];
      var field := DeserializeString(bytes, offset);
      offset := field.0;
      strings := strings[keys[k] := JsString(field.1)];
      k := k + 1;
    }
    assert keys[..k] == keys;
  }

  // ---------------------------------------------------------------------
  // Properties
  // ---------------------------------------------------------------------

  /** A string `encode` can carry: its length and every character code fit a byte. */
  predicate ByteString(s: string)
  {
    |s| < 256 && forall i :: 0 <= i < |s| ==> s[i] as int < 256
  }

  /** The fields `keys` of `obj` are ByteStrings. */
  predicate ByteStrings(obj: ConfigObject, keys: seq<string>)
  {
    forall i :: 0 <= i < |keys| ==> ByteString(AsString(Field(obj, keys[i])))
  }

  /** An object whose every string field is a ByteString. */
  predicate Encodable(obj: ConfigObject)
  {
    ByteStrings(obj, STRINGS)
  }

  /** The string fields `keys` of an object, as a round trip returns them. */
  function FieldStrings(obj: ConfigObject, keys: seq<string>): map<string, JsValue>
  {
    if keys == [] then map[]
    else FieldStrings(obj, keys[..|keys| - 1])[keys[|keys| - 1] := JsString(AsString(Field(obj, keys[|keys| - 1])))]
  }

  /** What a round trip keeps: encryption cut to 3 bits, DHCP, and each string field (non-strings become ""). */
  function Normalized(obj: ConfigObject): ConfigObject
  {
    ConfigObject(obj.encryption % 8, obj.dhcp, FieldStrings(obj, STRINGS))
  }

  lemma HexDigitValue(d: nat)
    requires d < 16
    ensures IsHexDigit(HexDigit(d)) && HexValue(HexDigit(d)) == d
  {
  }

  /** Each byte is written as two digits that parse back to it. */
  lemma ByteHexParses(n: nat)
    requires n < 256
    ensures |ByteHex(n)| == 2
    ensures IsLowerHexDigit(ByteHex(n)[0]) && IsLowerHexDigit(ByteHex(n)[1])
    ensures PairValue(ByteHex(n)[0], ByteHex(n)[1]) == n
  {
    if n < 16 {
      HexDigitValue(n);
    } else {
      var q, r := n / 16, n % 16;
      assert q < 16 && n == q * 16 + r;
      HexDigitValue(q);
      HexDigitValue(r);
      assert ByteHex(n) == ToHexString(n) == [HexDigit(q), HexDigit(r)];
    }
  }

  /** The hex of a byte sequence has two digits per byte. */
  lemma {:induction false} HexLength(bytes: seq<nat>)
    requires Bytes(bytes)
    ensures |Hex(bytes)| == 2 * |bytes|
  {
    if bytes != [] {
      HexLength(bytes[..|bytes| - 1]);
      ByteHexParses(bytes[|bytes| - 1]);
    }
  }

  /** Every digit of the hex is lower case. */
  lemma {:induction false} HexDigits(bytes: seq<nat>)
    requires Bytes(bytes)
    ensures forall i :: 0 <= i < |Hex(bytes)| ==> IsLowerHexDigit(Hex(bytes)[i])
  {
    if bytes != [] {
      var h := Hex(bytes[..|bytes| - 1]);
      var bh := ByteHex(bytes[|bytes| - 1]);
      HexDigits(bytes[..|bytes| - 1]);
      ByteHexParses(bytes[|bytes| - 1]);
      assert Hex(bytes) == h + bh;
      forall i | 0 <= i < |h + bh| ensures IsLowerHexDigit((h + bh)[i]) {
        if i < |h| {
          assert (h + bh)[i] == h[i];
        } else {
          assert (h + bh)[i] == bh[i - |h|];
        }
      }
    }
  }

  /** Digits 2i and 2i+1 of the hex are byte i. */
  lemma {:induction false} HexAt(bytes: seq<nat>, i: nat)
    requires Bytes(bytes) && i < |bytes|
    ensures |Hex(bytes)| == 2 * |bytes|
    ensures Hex(bytes)[2 * i..2 * i + 2] == ByteHex(bytes[i])
  {
    HexLength(bytes);
    var init := bytes[..|bytes| - 1];
    var h := Hex(init);
    var bh := ByteHex(bytes[|bytes| - 1]);
    HexLength(init);
    assert Hex(bytes) == h + bh;
    if i < |init| {
      HexAt(init, i);
      assert init[i] == bytes[i];
      assert (h + bh)[2 * i..2 * i + 2] == h[2 * i..2 * i + 2];
    } else {
      assert 2 * i == |h|;
      assert (h + bh)[|h|..|h| + 2] == bh;
    }
  }

  /** The hex `encode` writes is what `decode` expects. */
  lemma HexIsHexString(bytes: seq<nat>)
    requires Bytes(bytes)
    ensures IsHexString(Hex(bytes))
  {
    HexLength(bytes);
    HexDigits(bytes);
  }

  /** Two more digits parse as one more byte. */
  lemma ParseBytesSnoc(h: string, hi: char, lo: char)
    requires IsHexString(h) && IsHexDigit(hi) && IsHexDigit(lo)
    ensures IsHexString(h + [hi, lo])
    ensures ParseBytes(h + [hi, lo]) == ParseBytes(h) + [PairValue(hi, lo)]
  {
    var s := h + [hi, lo];
    assert s[..|s| - 2] == h;
  }

  /** Parsing the hex `encode` writes gives back the bytes. */
  lemma {:induction false} HexRoundTrip(bytes: seq<nat>)
    requires Bytes(bytes)
    ensures IsHexString(Hex(bytes))
    ensures ParseBytes(Hex(bytes)) == bytes
  {
    if bytes != [] {
      var init := bytes[..|bytes| - 1];
      var last := bytes[|bytes| - 1];
      var h, bh := Hex(init), ByteHex(last);
      HexRoundTrip(init);
      ByteHexParses(last);
      assert Hex(bytes) == h + bh;
      assert bh == [bh[0], bh[1]];
      ParseBytesSnoc(h, bh[0], bh[1]);
      LastSplit(bytes);
    }
  }

  lemma LastSplit<T>(s: seq<T>)
    requires s != []
    ensures s == s[..|s| - 1] + [s[|s| - 1]]
  {
  }

  lemma BytesConcat(a: seq<nat>, b: seq<nat>)
    requires Bytes(a) && Bytes(b)
    ensures Bytes(a + b)
  {
  }

  /** The chunks of ByteStrings are bytes. */
  lemma {:induction false} SerializedBytes(obj: ConfigObject, keys: seq<string>)
    requires ByteStrings(obj, keys)
    ensures Bytes(Serialized(obj, keys))
  {
    if keys != [] {
      var init := keys[..|keys| - 1];
      SerializedBytes(obj, init);
      var v := Field(obj, keys[|keys| - 1]);
      assert ByteString(AsString(v));
      CharsOfCharCodes(AsString(v));
      BytesConcat([|AsString(v)|], CharCodes(AsString(v)));
      BytesConcat(Serialized(obj, init), StringChunk(v));
    }
  }

  /** The keys of FieldStrings are exactly `keys`, each holding its field as a string. */
  lemma {:induction false} FieldStringsAt(obj: ConfigObject, keys: seq<string>, k: string)
    ensures k in FieldStrings(obj, keys) <==> k in keys
    ensures k in keys ==> FieldStrings(obj, keys)[k] == JsString(AsString(Field(obj, k)))
  {
    if keys != [] {
      FieldStringsAt(obj, keys[..|keys| - 1], k);
      LastSplit(keys);
    }
  }

  lemma SerializedSnoc(obj: ConfigObject, keys: seq<string>)
    requires keys != []
    ensures Serialized(obj, keys) == Serialized(obj, keys[..|keys| - 1]) + StringChunk(Field(obj, keys[|keys| - 1]))
  {
  }

  lemma Associative<T>(p: seq<T>, q: seq<T>, r: seq<T>)
    ensures p + q + r == p + (q + r)
  {
  }

  lemma Regroup<T>(p: seq<T>, q: seq<T>, r: seq<T>, t: seq<T>)
    ensures p + (q + r) + t == p + q + (r + t)
  {
  }

  /** `String.fromCharCode` undoes `charCodeAt` on a ByteString. */
  lemma CharsOfCharCodes(s: string)
    requires ByteString(s)
    ensures Bytes(CharCodes(s)) && Chars(CharCodes(s)) == s
  {
  }

  /** `deserializeString` reads back one chunk written by `serializeString`. */
  lemma DeserializeChunk(buffer: seq<nat>, before: seq<nat>, s: string, after: seq<nat>, o: nat)
    requires ByteString(s)
    requires buffer == before + (([|s|] + CharCodes(s)) + after) && o == |before|
    requires Bytes(buffer)
    ensures DeserializeString(buffer, Some(o)) == (Some(o + 1 + |s|), s)
  {
    assert buffer[o] == |s|;
    assert buffer[o + 1..o + 1 + |s|] == CharCodes(s);
    CharsOfCharCodes(s);
  }

  /**
   * What one `deserializeString` reads: with the offset inside the buffer,
   * the offset just past the counted characters and the characters that are
   * there (all of them, or those up to the end of the buffer); with a NaN
   * offset or one past the end, a NaN offset and the empty string.
   */
  lemma DeserializeStringReads(buffer: seq<nat>, offset: Option<nat>)
    requires Bytes(buffer)
    ensures var r := DeserializeString(buffer, offset);
      && (r.0.Some? <==> offset.Some? && offset.value < |buffer|)
      && (r.0.None? ==> r.1 == "")
      && (r.0.Some? ==>
        var o := offset.value;
        && r.0.value == o + 1 + buffer[o]
        && |r.1| == (if o + 1 + buffer[o] <= |buffer| then buffer[o] else |buffer| - (o + 1))
        && forall i :: 0 <= i < |r.1| ==> r.1[i] as nat == buffer[o + 1 + i])
  {
  }

  /**
   * `serializeString` appends one chunk after the buffer, and
   * `deserializeString` at the old end of the buffer reads the string back
   * and returns the new end.
   */
  lemma SerializeThenDeserialize(buffer: seq<nat>, v: JsValue)
    requires Bytes(buffer) && ByteString(AsString(v))
    ensures var r := SerializeString(buffer, v);
      && buffer <= r && |r| == |buffer| + 1 + |AsString(v)|
      && Bytes(r)
      && DeserializeString(r, Some(|buffer|)) == (Some(|r|), AsString(v))
  {
    var s := AsString(v);
    var r := SerializeString(buffer, v);
    assert r == buffer + (([|s|] + CharCodes(s)) + []);
    CharsOfCharCodes(s);
    BytesConcat(buffer, [|s|] + CharCodes(s));
    DeserializeChunk(r, buffer, s, [], |buffer|);
  }

  lemma DecodeStringsStep(buffer: seq<nat>, keys: seq<string>, o: nat, m: map<string, JsValue>, next: nat, s: string)
    requires Bytes(buffer) && keys != []
    requires DecodeStrings(buffer, keys[..|keys| - 1]) == (Some(o), m)
    requires DeserializeString(buffer, Some(o)) == (Some(next), s)
    ensures DecodeStrings(buffer, keys) == (Some(next), m[keys[|keys| - 1] := JsString(s)])
  {
  }

  /**
   * Reading a layout of chunks back field by field: the offset lands just
   * past the last chunk, and each field reads back as the string written.
   */
  lemma {:induction false} DecodeStringsOfSerialized(obj: ConfigObject, keys: seq<string>, buffer: seq<nat>, flags: nat, rest: seq<nat>)
    requires ByteStrings(obj, keys)
    requires buffer == [0, flags] + Serialized(obj, keys) + rest
    requires Bytes(buffer)
    ensures DecodeStrings(buffer, keys) == (Some(2 + |Serialized(obj, keys)|), FieldStrings(obj, keys))
  {
    if keys != [] {
      var init := keys[..|keys| - 1];
      var v := Field(obj, keys[|keys| - 1]);
      var prefix := Serialized(obj, init);
      assert ByteStrings(obj, init) by {
        forall i | 0 <= i < |init| ensures init[i] == keys[i] {}
      }
      SerializedSnoc(obj, keys);
      Regroup([0, flags], prefix, StringChunk(v), rest);
      DecodeStringsOfSerialized(obj, init, buffer, flags, StringChunk(v) + rest);
      assert ByteString(AsString(v));
      assert StringChunk(v) == [|AsString(v)|] + CharCodes(AsString(v));
      var before := [0, flags] + prefix;
      assert buffer == before + (StringChunk(v) + rest);
      DeserializeChunk(buffer, before, AsString(v), rest, 2 + |prefix|);
      DecodeStringsStep(buffer, keys, 2 + |prefix|, FieldStrings(obj, init), 2 + |prefix| + 1 + |AsString(v)|, AsString(v));
    }
  }

  /** The flags byte carries the encryption type's low 3 bits and the DHCP bit. */
  lemma FlagsRoundTrip(obj: ConfigObject)
    ensures FlagsByte(obj) < 16
    ensures FlagsByte(obj) % 8 == obj.encryption % 8
    ensures (FlagsByte(obj) / 8) % 2 == 1 <==> obj.dhcp
  {
  }

  /** A header followed by the chunks of `keys` reads back as those fields. */
  lemma DecodeLayout(obj: ConfigObject, keys: seq<string>, flags: nat)
    requires ByteStrings(obj, keys) && flags < 256
    ensures Bytes([0, flags] + Serialized(obj, keys))
    ensures DecodeStrings([0, flags] + Serialized(obj, keys), keys).1 == FieldStrings(obj, keys)
  {
    var bytes := [0, flags] + Serialized(obj, keys);
    SerializedBytes(obj, keys);
    BytesConcat([0, flags], Serialized(obj, keys));
    assert bytes == [0, flags] + Serialized(obj, keys) + [];
    DecodeStringsOfSerialized(obj, keys, bytes, flags, []);
  }

  /** On bytes: decoding what `encode` lays out gives back every field it can carry. */
  lemma DecodeEncodedBytes(obj: ConfigObject)
    requires Encodable(obj)
    ensures Bytes(EncodedBytes(obj))
    ensures DecodeBytes(EncodedBytes(obj)) == Normalized(obj)
  {
    FlagsRoundTrip(obj);
    DecodeLayout(obj, STRINGS, FlagsByte(obj));
  }

  /** Every field `encode` can carry survives `decode(encode(obj))`. */
  lemma RoundTrip(obj: ConfigObject)
    requires Encodable(obj)
    ensures IsHexString(EncodeSpec(obj))
    ensures DecodeSpec(EncodeSpec(obj)) == Normalized(obj)
  {
    DecodeEncodedBytes(obj);
    HexRoundTrip(EncodedBytes(obj));
  }

  /** A settings object as the UI holds it: a 3-bit encryption type and exactly the string fields, all strings. */
  predicate IsSettings(obj: ConfigObject)
  {
    && 0 <= obj.encryption < 8
    && (forall k :: k in STRINGS ==> k in obj.strings)
    && (forall k :: k in obj.strings ==> k in STRINGS && obj.strings[k].JsString?)
    && Encodable(obj)
  }

  /** A settings object comes back unchanged. */
  lemma RoundTripSettings(obj: ConfigObject)
    requires IsSettings(obj)
    ensures IsHexString(EncodeSpec(obj)) && DecodeSpec(EncodeSpec(obj)) == obj
  {
    RoundTrip(obj);
    SettingsAreNormalized(obj);
  }

  /** Normalising a settings object changes nothing. */
  lemma SettingsAreNormalized(obj: ConfigObject)
    requires IsSettings(obj)
    ensures Normalized(obj) == obj
  {
    FieldStringsOfStringFields(obj, STRINGS);
  }

  /** An object holding exactly the fields `keys`, all strings, is its own FieldStrings. */
  lemma FieldStringsOfStringFields(obj: ConfigObject, keys: seq<string>)
    requires forall k :: k in keys ==> k in obj.strings
    requires forall k :: k in obj.strings ==> k in keys && obj.strings[k].JsString?
    ensures FieldStrings(obj, keys) == obj.strings
  {
    forall k ensures k in FieldStrings(obj, keys) <==> k in obj.strings {
      FieldStringsAt(obj, keys, k);
    }
    forall k | k in obj.strings ensures FieldStrings(obj, keys)[k] == obj.strings[k] {
      FieldStringsAt(obj, keys, k);
    }
  }

  function TotalLength(obj: ConfigObject, keys: seq<string>): nat
  {
    if keys == [] then 0 else TotalLength(obj, keys[..|keys| - 1]) + |AsString(Field(obj, keys[|keys| - 1]))|
  }

  /** The byte count: two header bytes, then one length byte plus the characters per field. */
  lemma {:induction false} SerializedLength(obj: ConfigObject, keys: seq<string>)
    ensures |Serialized(obj, keys)| == |keys| + TotalLength(obj, keys)
  {
    if keys != [] {
      SerializedLength(obj, keys[..|keys| - 1]);
    }
  }

  /** The hex length: two digits for each of the two header bytes and of each field's length byte and characters. */
  lemma EncodedLength(obj: ConfigObject)
    requires Encodable(obj)
    ensures |EncodeSpec(obj)| == 2 * (2 + |STRINGS| + TotalLength(obj, STRINGS))
  {
    DecodeEncodedBytes(obj);
    HexLength(EncodedBytes(obj));
    SerializedLength(obj, STRINGS);
  }

  /** `decode` followed by `encode` rewrites byte 0 as 0 and keeps only the low nibble of byte 1. */
  lemma DecodeThenEncodeFlags(bytes: seq<nat>)
    requires Bytes(bytes) && |bytes| > 1
    ensures EncodedBytes(DecodeBytes(bytes))[..2] == [0, bytes[1] % 16]
  {
    FlagsOfDecodedFlags(bytes[1], DecodeBytes(bytes).strings);
  }

  /** Encoding the flags `decode` reads from byte `b` gives the low nibble of `b`. */
  lemma FlagsOfDecodedFlags(b: nat, strings: map<string, JsValue>)
    ensures FlagsByte(ConfigObject(b % 8, (b / 8) % 2 == 1, strings)) == b % 16
    ensures b < 16 ==> b % 16 == b
  {
    LowNibble(b);
    var e := b % 8;
    assert e % 8 == e;
  }

  /** Bits 0..2 and bit 3 of a number make up its low nibble. */
  lemma LowNibble(b: nat)
    ensures b % 16 == b % 8 + 8 * ((b / 8) % 2)
  {
    var q, r := b / 16, b % 16;
    assert b == 16 * q + r;
    assert b % 8 == r % 8 && b / 8 == 2 * q + r / 8;
  }

  /** Two objects with the same string fields have the same chunks. */
  lemma {:induction false} SerializedOfSameStrings(a: ConfigObject, b: ConfigObject, keys: seq<string>)
    requires forall i :: 0 <= i < |keys| ==> AsString(Field(a, keys[i])) == AsString(Field(b, keys[i]))
    ensures Serialized(a, keys) == Serialized(b, keys)
  {
    if keys != [] {
      SerializedOfSameStrings(a, b, keys[..|keys| - 1]);
    }
  }

  /** An object whose fields are FieldStrings of another serialises like it. */
  lemma SerializedOfFieldStrings(obj: ConfigObject, other: ConfigObject, keys: seq<string>)
    requires other.strings == FieldStrings(obj, keys)
    ensures Serialized(other, keys) == Serialized(obj, keys)
  {
    forall i | 0 <= i < |keys| ensures AsString(Field(other, keys[i])) == AsString(Field(obj, keys[i])) {
      FieldStringsAt(obj, keys, keys[i]);
    }
    SerializedOfSameStrings(other, obj, keys);
  }

  /** On a well-formed layout with a zero first byte and a flags byte below 16, `decode` then `encode` is the identity. */
  lemma DecodeThenEncodeCanonical(obj: ConfigObject, flags: nat)
    requires Encodable(obj) && flags < 16
    ensures Bytes([0, flags] + Serialized(obj, STRINGS))
    ensures EncodedBytes(DecodeBytes([0, flags] + Serialized(obj, STRINGS))) == [0, flags] + Serialized(obj, STRINGS)
  {
    var bytes := [0, flags] + Serialized(obj, STRINGS);
    DecodeLayout(obj, STRINGS, flags);
    var decoded := DecodeBytes(bytes);
    assert decoded.strings == FieldStrings(obj, STRINGS);
    SerializedOfFieldStrings(obj, decoded, STRINGS);
    assert bytes[1] == flags;
    assert decoded == ConfigObject(flags % 8, (flags / 8) % 2 == 1, decoded.strings);
    FlagsOfDecodedFlags(flags, decoded.strings);
    assert EncodedBytes(decoded) == [0, flags] + Serialized(decoded, STRINGS);
  }

  /**
   * The same on the hex strings `decode` takes and `encode` returns: the
   * lower-case rendering of a canonical layout comes back unchanged.
   */
  lemma DecodeThenEncodeCanonicalHex(obj: ConfigObject, flags: nat)
    requires Encodable(obj) && flags < 16
    ensures var s := Hex([0, flags] + Serialized(obj, STRINGS));
      IsHexString(s) && EncodeSpec(DecodeSpec(s)) == s
  {
    var bytes := [0, flags] + Serialized(obj, STRINGS);
    DecodeThenEncodeCanonical(obj, flags);
    HexRoundTrip(bytes);
  }

  /** Digits 2i and 2i+1 of the string `encode` returns parse back as byte i. */
  lemma EncodedHexAt(obj: ConfigObject, i: nat)
    requires Encodable(obj) && i < |EncodedBytes(obj)|
    ensures |EncodeSpec(obj)| == 2 * |EncodedBytes(obj)|
    ensures IsHexDigit(EncodeSpec(obj)[2 * i]) && IsHexDigit(EncodeSpec(obj)[2 * i + 1])
    ensures PairValue(EncodeSpec(obj)[2 * i], EncodeSpec(obj)[2 * i + 1]) == EncodedBytes(obj)[i]
  {
    DecodeEncodedBytes(obj);
    var bytes := EncodedBytes(obj);
    HexAt(bytes, i);
    ByteHexParses(bytes[i]);
    var h := Hex(bytes);
    assert h[2 * i] == h[2 * i..2 * i + 2][0] && h[2 * i + 1] == h[2 * i..2 * i + 2][1];
  }

  /** The chunk of the first field opens the layout. */
  lemma {:induction false} SerializedHead(obj: ConfigObject, keys: seq<string>)
    requires keys != []
    ensures StringChunk(Field(obj, keys[0])) <= Serialized(obj, keys)
  {
    var init := keys[..|keys| - 1];
    if init != [] {
      SerializedHead(obj, init);
      assert init[0] == keys[0];
    }
  }

  /**
   * The deviceName field comes first: byte 2 is its length and the codes
   * of its characters follow.
   */
  lemma EncodeFirstField(obj: ConfigObject)
    ensures var s := AsString(Field(obj, "deviceName"));
      && |EncodedBytes(obj)| >= 3 + |s|
      && EncodedBytes(obj)[2] == |s|
      && EncodedBytes(obj)[3..3 + |s|] == CharCodes(s)
  {
    assert STRINGS[0] == "deviceName";
    SerializedHead(obj, STRINGS);
    var chunk := StringChunk(Field(obj, "deviceName"));
    assert EncodedBytes(obj)[2..2 + |chunk|] == chunk;
  }

  /** The flags byte of the decoding example, 0xdc: encryption 4, DHCP on, the high bits ignored. */
  lemma DecodeFlagsExample()
    ensures DecodeBytes([0, 0xdc]).encryption == 4 && DecodeBytes([0, 0xdc]).dhcp
  {
  }

  /** Every key of `keys` mapped to the empty string. */
  function EmptyFields(keys: seq<string>): (m: map<string, JsValue>)
    ensures forall k :: k in m <==> k in keys
  {
    map k | k in keys :: JsString("")
  }

  /**
   * Once the offset after field j is NaN or past the end of the buffer, the
   * offset stays NaN and field j and every later field read as the empty
   * string, on top of what the fields before j read.
   */
  lemma {:induction false} DecodePastEnd(buffer: seq<nat>, keys: seq<string>, j: nat)
    requires Bytes(buffer) && j < |keys|
    requires var o := DecodeStrings(buffer, keys[..j]).0; o.None? || o.value >= |buffer|
    ensures DecodeStrings(buffer, keys).0.None?
    ensures DecodeStrings(buffer, keys).1 == DecodeStrings(buffer, keys[..j]).1 + EmptyFields(keys[j..])
  {
    var init, last := keys[..|keys| - 1], keys[|keys| - 1];
    var before := DecodeStrings(buffer, keys[..j]).1;
    var tail := init[j..];
    if j == |init| {
      assert keys[..j] == init;
      assert tail == [];
    } else {
      assert init[..j] == keys[..j];
      DecodePastEnd(buffer, init, j);
    }
    assert DecodeStrings(buffer, init).0.None? || DecodeStrings(buffer, init).0.value >= |buffer|;
    assert DecodeStrings(buffer, init).1 == before + EmptyFields(tail);
    assert keys[j..] == tail + [last];
    AddEmptyField(before, tail, last);
  }

  lemma AddEmptyField(m: map<string, JsValue>, keys: seq<string>, last: string)
    ensures (m + EmptyFields(keys))[last := JsString("")] == m + EmptyFields(keys + [last])
  {
    var left, right := (m + EmptyFields(keys))[last := JsString("")], m + EmptyFields(keys + [last]);
    forall k ensures k in left <==> k in right {
      assert k in keys + [last] <==> k in keys || k == last;
    }
  }

  /** A buffer of at most the two header bytes decodes every field as the empty string. */
  lemma DecodeShortBuffer(buffer: seq<nat>, keys: seq<string>)
    requires Bytes(buffer) && |buffer| <= 2
    ensures keys != [] ==> DecodeStrings(buffer, keys).0.None?
    ensures DecodeStrings(buffer, keys).1 == EmptyFields(keys)
  {
    if keys != [] {
      assert keys[..0] == [] && keys[0..] == keys;
      DecodePastEnd(buffer, keys, 0);
    }
  }

  /** The first field read is the one whose chunk starts at offset 2, whatever the later fields hold. */
  lemma {:induction false} DecodeStringsFirst(buffer: seq<nat>, keys: seq<string>)
    requires Bytes(buffer) && keys != []
    requires forall i :: 0 < i < |keys| ==> keys[i] != keys[0]
    ensures keys[0] in DecodeStrings(buffer, keys).1
    ensures DecodeStrings(buffer, keys).1[keys[0]] == JsString(DeserializeString(buffer, Some(2)).1)
  {
    if |keys| > 1 {
      DecodeStringsFirst(buffer, keys[..|keys| - 1]);
    }
  }

  /** deviceName decodes to the characters counted by byte 2, cut short if the buffer ends first. */
  lemma DecodeFirstField(bytes: seq<nat>)
    requires Bytes(bytes) && |bytes| > 2
    ensures "deviceName" in DecodeBytes(bytes).strings
    ensures var end := if 3 + bytes[2] <= |bytes| then 3 + bytes[2] else |bytes|;
      DecodeBytes(bytes).strings["deviceName"] == JsString(Chars(bytes[3..end]))
  {
    assert STRINGS[0] == "deviceName";
    assert forall i :: 0 < i < |STRINGS| ==> STRINGS[i] != STRINGS[0];
    DecodeStringsFirst(bytes, STRINGS);
  }

  /** The decoding example's deviceName: length 5 at byte 2, then the codes of "Felux". */
  lemma DecodeDeviceNameExample(bytes: seq<nat>)
    requires Bytes(bytes) && |bytes| >= 8
    requires bytes[2..8] == [0x05, 0x46, 0x65, 0x6c, 0x75, 0x78]
    ensures "deviceName" in DecodeBytes(bytes).strings
    ensures DecodeBytes(bytes).strings["deviceName"] == JsString("Felux")
  {
    DecodeFirstField(bytes);
    assert bytes[3..8] == [0x46, 0x65, 0x6c, 0x75, 0x78];
  }

  /** The chunks of a list of strings, in order. */
  function Chunks(values: seq<string>): seq<nat>
  {
    if values == [] then []
    else Chunks(values[..|values| - 1]) + [|values[|values| - 1]|] + CharCodes(values[|values| - 1])
  }

  /** Fields holding the strings `values` serialise to their chunks. */
  lemma {:induction false} SerializedChunks(obj: ConfigObject, keys: seq<string>, values: seq<string>)
    requires |keys| == |values|
    requires forall i :: 0 <= i < |keys| ==> Field(obj, keys[i]) == JsString(values[i])
    ensures Serialized(obj, keys) == Chunks(values)
  {
    if keys != [] {
      var n := |keys| - 1;
      SerializedChunks(obj, keys[..n], values[..n]);
      assert Field(obj, keys[n]) == JsString(values[n]);
    }
  }

  /** The decoding test vector after its two header bytes, two hex digits per byte, one run per field. */
  const TEST_VECTOR_CHUNKS: seq<seq<nat>> := [
    [0x05, 0x46, 0x65, 0x6c, 0x75, 0x78],
    [0x08, 0x59, 0x6f, 0x75, 0x72, 0x57, 0x49, 0x46, 0x49],
    [0x0b, 0x59, 0x6f, 0x75, 0x72, 0x50, 0x61, 0x73, 0x73, 0x6b, 0x65, 0x79],
    [0x05, 0x66, 0x65, 0x6c, 0x75, 0x78],
    [0x0c, 0x31, 0x39, 0x32, 0x2e, 0x31, 0x36, 0x38, 0x2e, 0x30, 0x2e, 0x31, 0x30],
    [0x07, 0x38, 0x2e, 0x38, 0x2e, 0x38, 0x2e, 0x34],
    [0x0b, 0x31, 0x39, 0x32, 0x2e, 0x31, 0x36, 0x38, 0x2e, 0x30, 0x2e, 0x31],
    [0x0d, 0x32, 0x35, 0x35, 0x2e, 0x32, 0x35, 0x35, 0x2e, 0x32, 0x35, 0x35, 0x2e, 0x30]]

  /** The runs of a list, one after another. */
  function Concat(runs: seq<seq<nat>>): seq<nat>
  {
    if runs == [] then [] else Concat(runs[..|runs| - 1]) + runs[|runs| - 1]
  }

  /** The whole decoding test vector: flags byte 0xdc, then the field runs. */
  const TEST_VECTOR: seq<nat> := [0x00, 0xdc] + Concat(TEST_VECTOR_CHUNKS)

  /** The strings the test expects, in STRINGS order. */
  const TEST_VECTOR_VALUES: seq<string> :=
    ["Felux", "YourWIFI", "YourPasskey", "felux", "192.168.0.10", "8.8.8.4", "192.168.0.1", "255.255.255.0"]

  /** Runs that are each the chunk of the matching string concatenate to the chunks of the strings. */
  lemma {:induction false} ConcatChunks(runs: seq<seq<nat>>, values: seq<string>)
    requires |runs| == |values|
    requires forall k :: 0 <= k < |runs| ==> runs[k] == [|values[k]|] + CharCodes(values[k])
    ensures Concat(runs) == Chunks(values)
  {
    if runs != [] {
      var n := |runs| - 1;
      ConcatChunks(runs[..n], values[..n]);
      Associative(Chunks(values[..n]), [|values[n]|], CharCodes(values[n]));
    }
  }

  /** Run k of the test vector is the chunk of the k-th expected string. */
  lemma TestVectorChunk(k: nat)
    requires k < |TEST_VECTOR_CHUNKS|
    ensures |TEST_VECTOR_VALUES| == |TEST_VECTOR_CHUNKS|
    ensures TEST_VECTOR_CHUNKS[k] == [|TEST_VECTOR_VALUES[k]|] + CharCodes(TEST_VECTOR_VALUES[k])
  {
  }

  lemma TestVectorChunks()
    ensures TEST_VECTOR == [0x00, 0xdc] + Chunks(TEST_VECTOR_VALUES)
  {
    forall k | 0 <= k < |TEST_VECTOR_CHUNKS|
      ensures TEST_VECTOR_CHUNKS[k] == [|TEST_VECTOR_VALUES[k]|] + CharCodes(TEST_VECTOR_VALUES[k])
    {
      TestVectorChunk(k);
    }
    TestVectorChunk(0);
    ConcatChunks(TEST_VECTOR_CHUNKS, TEST_VECTOR_VALUES);
  }

  /** The fields the test expects, under their keys. */
  const TEST_VECTOR_STRINGS: map<string, JsValue> := map[
    "deviceName" := JsString("Felux"), "ssid" := JsString("YourWIFI"),
    "passkey" := JsString("YourPasskey"), "hostname" := JsString("felux"),
    "staticIP" := JsString("192.168.0.10"), "staticDNS" := JsString("8.8.8.4"),
    "staticGateway" := JsString("192.168.0.1"), "staticSubnet" := JsString("255.255.255.0")]

  /** Every expected string fits a length byte and has byte-sized codes. */
  lemma TestVectorByteStrings(k: nat)
    requires k < |TEST_VECTOR_VALUES|
    ensures ByteString(TEST_VECTOR_VALUES[k])
  {
  }

  /** The expected map holds field i of STRINGS as expected string i, and nothing else. */
  lemma TestVectorFields(obj: ConfigObject)
    requires obj.strings == TEST_VECTOR_STRINGS
    ensures |STRINGS| == |TEST_VECTOR_VALUES|
    ensures forall i :: 0 <= i < |STRINGS| ==> Field(obj, STRINGS[i]) == JsString(TEST_VECTOR_VALUES[i])
    ensures forall k :: k in obj.strings <==> k in STRINGS
  {
  }

  /** The test vector is the encoding layout of the expected fields behind flags byte 0xdc. */
  lemma TestVectorLayout(obj: ConfigObject)
    requires obj.strings == TEST_VECTOR_STRINGS
    ensures ByteStrings(obj, STRINGS)
    ensures TEST_VECTOR == [0x00, 0xdc] + Serialized(obj, STRINGS)
  {
    TestVectorFields(obj);
    forall i | 0 <= i < |STRINGS| ensures ByteString(AsString(Field(obj, STRINGS[i]))) {
      TestVectorByteStrings(i);
    }
    SerializedChunks(obj, STRINGS, TEST_VECTOR_VALUES);
    TestVectorChunks();
  }

  /**
   * The decoding test vector decodes to encryption 4, DHCP on and the eight
   * strings the test expects, each under its own key.
   */
  lemma DecodeTestVector()
    ensures Bytes(TEST_VECTOR)
    ensures DecodeBytes(TEST_VECTOR) == ConfigObject(4, true, TEST_VECTOR_STRINGS)
  {
    var obj := ConfigObject(4, true, TEST_VECTOR_STRINGS);
    TestVectorLayout(obj);
    DecodeLayout(obj, STRINGS, 0xdc);
    TestVectorFields(obj);
    assert forall k :: k in obj.strings ==> obj.strings[k].JsString?;
    FieldStringsOfStringFields(obj, STRINGS);
    assert TEST_VECTOR[1] == 0xdc;
    DecodeFlagsExample();
  }
}
