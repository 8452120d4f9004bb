/**
 * The payload side of the MQTT command bridge in src/main.cpp: the bounded
 * upper-casing of a payload into a small C buffer (`upcase`) and the five
 * validators that decide whether a normalised payload may reach the heat
 * pump.  C strings are `seq<char>` read up to the first NUL.
 */
module Commands {

  const NUL: char := '\0'

  /** Size of the stack buffer a payload is normalised into. */
  const COMMAND_BUFFER_SIZE: nat := 6

  // ---------------------------------------------------------------------
  // C strings
  // ---------------------------------------------------------------------

  /** The C string held in `s`: its characters before the first NUL (all of `s` when it has none). */
  function CString(s: seq<char>): (r: seq<char>)
    ensures r <= s
    ensures NUL !in r
    ensures |r| < |s| ==> s[|r|] == NUL
  {
    if s == [] || s[0] == NUL then [] else [s[0]] + CString(s[1..])
  }

  /** A NUL-free run followed by a NUL or by the end is exactly the C string. */
  lemma {:induction false} CStringOfPrefix(s: seq<char>, k: nat)
    requires k <= |s|
    requires forall j :: 0 <= j < k ==> s[j] != NUL
    requires k == |s| || s[k] == NUL
    ensures CString(s) == s[..k]
  {
    if k == 0 {
    } else {
      CStringOfPrefix(s[1..], k - 1);
      assert s[..k] == [s[0]] + s[1..][..k - 1];
    }
  }

  // ---------------------------------------------------------------------
  // upcase (src/main.cpp:139-146)
  // ---------------------------------------------------------------------

  /** `toupper` in the "C" locale: only 'a'..'z' change. */
  function ToUpper(c: char): char
  {
    if 'a' <= c <= 'z' then (c as int - 32) as char else c
  }

  function Min(a: nat, b: nat): nat
  {
    if a <= b then a else b
  }

  /**
   * The characters `upcase` leaves in a buffer of `bufLen` bytes when given
   * the `|s|` payload bytes `s` (the terminating NUL excluded).
   */
  function Upcased(s: seq<char>, bufLen: nat): (r: seq<char>)
    requires bufLen > 0
    ensures |r| <= |s| && |r| <= bufLen - 1
    ensures forall k :: 0 <= k < |r| ==> r[k] == ToUpper(s[k]) && s[k] != NUL
    ensures |r| < Min(|s|, bufLen - 1) ==> s[|r|] == NUL
    ensures NUL !in r
  {
    var t := CString(s[..Min(|s|, bufLen - 1)]);
    seq(|t|, k requires 0 <= k < |t| => ToUpper(t[k]))
  }

  /**
   * `upcase(s, sLen, buf, buf.Length)`: copies at most min(sLen, buf.Length - 1)
   * characters of `s`, upper-cased, stopping early at a NUL, then writes the
   * terminating NUL.  The rest of `buf` is untouched.
   *
   * The source tests `*s` before the remaining count, so once the count is
   * spent it still reads the byte after the last one it copies; that read
   * cannot change the outcome, and the model tests the count first.
   */
  method Upcase(s: seq<char>, sLen: nat, buf: array<char>)
    requires sLen <= |s|
    requires buf.Length > 0
    modifies buf
    ensures var r := Upcased(s[..sLen], buf.Length);
      && buf[..|r|] == r
      && buf[|r|] == NUL
      && buf[|r| + 1..] == old(buf[|r| + 1..])
  {
    var i := sLen;
    if buf.Length - 1 < i {
      i := buf.Length - 1;
    }
    ghost var n := i;
    var k := 0;
    while i > 0 && s[k] != NUL
      invariant 0 <= k <= n && i == n - k
      invariant n == Min(sLen, buf.Length - 1)
      invariant forall j :: 0 <= j < k ==> buf[j] == ToUpper(s[j]) && s[j] != NUL
      invariant forall j :: k <= j < buf.Length ==> buf[j] == old(buf[j])
    {
      buf[k] := ToUpper(s[k]);
      k := k + 1;
      i := i - 1;
    }
    buf[k] := NUL;

    ghost var t := s[..sLen][..n];
    CStringOfPrefix(t, k);
    ghost var r := Upcased(s[..sLen], buf.Length);
    assert |r| == k;
    assert buf[..k] == r;
  }

  /**
   * The C string left in a buffer after Upcase is the upper-cased payload:
   * what the validators see.
   */
  lemma {:induction false} BufferHoldsUpcased(buf: seq<char>, r: seq<char>)
    requires |r| < |buf| && buf[..|r|] == r && buf[|r|] == NUL && NUL !in r
    ensures CString(buf) == r
  {
    forall j | 0 <= j < |r| ensures buf[j] != NUL {
      assert buf[j] == r[j];
    }
    CStringOfPrefix(buf, |r|);
  }

  /**
   * With the 6-byte command buffer only the first five payload characters
   * matter: a payload is cut to five characters before validation.
   */
  lemma UpcasedKeepsFive(s: seq<char>)
    requires |s| >= COMMAND_BUFFER_SIZE - 1
    ensures Upcased(s, COMMAND_BUFFER_SIZE) == Upcased(s[..COMMAND_BUFFER_SIZE - 1], COMMAND_BUFFER_SIZE)
  {
    assert s[..Min(|s|, 5)] == s[..5][..Min(5, 5)];
  }

  // ---------------------------------------------------------------------
  // Validators (src/main.cpp:98-137)
  // ---------------------------------------------------------------------

  const POWER_VALUES: set<string> := {"ON", "OFF"}
  const MODE_VALUES: set<string> := {"HEAT", "DRY", "COOL", "FAN", "AUTO"}
  const FAN_VALUES: set<string> := {"AUTO", "QUIET", "1", "2", "3", "4"}
  const VANE_VALUES: set<string> := {"AUTO", "1", "2", "3", "4", "5", "SWING"}

  /** Exact, case-sensitive match against "ON" and "OFF". */
  function ValidatePowerValue(value: string): (ok: bool)
    ensures ok <==> value in POWER_VALUES
  {
    value == "ON" || value == "OFF"
  }

  function ValidateModeValue(value: string): (ok: bool)
    ensures ok <==> value in MODE_VALUES
  {
    value == "HEAT" || value == "DRY" || value == "COOL" || value == "FAN" || value == "AUTO"
  }

  /**
   * Accepts when the parsed value lies strictly between 15 and 31.  `atof`
   * is the C library's parse, left abstract (floating point is not modelled).
   */
  function ValidateTemperatureValue(value: string, atof: string -> real): (ok: bool)
    ensures ok <==> 15.0 < atof(value) < 31.0
  {
    var f := atof(value);
    f > 15.0 && f < 31.0
  }

  function ValidateFanValue(value: string): (ok: bool)
    ensures ok <==> value in FAN_VALUES
  {
    value == "AUTO" || value == "QUIET" || value == "1" || value == "2" || value == "3" || value == "4"
  }

  function ValidateVaneValue(value: string): (ok: bool)
    ensures ok <==> value in VANE_VALUES
  {
    value == "AUTO" || value == "1" || value == "2" || value == "3" || value == "4" || value == "5" || value == "SWING"
  }

  /** The validators compare exactly: lower-case spellings are refused until upcase has run. */
  lemma ValidatorsAreCaseSensitive()
    ensures !ValidatePowerValue("on") && !ValidatePowerValue("Off")
    ensures !ValidateModeValue("heat") && !ValidateFanValue("quiet") && !ValidateVaneValue("swing")
    ensures !ValidatePowerValue("") && !ValidateModeValue("") && !ValidateFanValue("") && !ValidateVaneValue("")
  {
  }

  /** Every value a validator accepts is upper case and fits the 6-byte buffer. */
  lemma AcceptedValuesFitBuffer(value: string)
    requires ValidatePowerValue(value) || ValidateModeValue(value) || ValidateFanValue(value) || ValidateVaneValue(value)
    ensures 0 < |value| <= COMMAND_BUFFER_SIZE - 1
    ensures forall k :: 0 <= k < |value| ==> ToUpper(value[k]) == value[k]
    ensures NUL !in value
    ensures Upcased(value, COMMAND_BUFFER_SIZE) == value
  {
    UpcasedOfUpperCase(value, COMMAND_BUFFER_SIZE);
  }

  /** A NUL-free upper-case string that fits the buffer goes through `upcase` unchanged. */
  lemma UpcasedOfUpperCase(value: string, bufLen: nat)
    requires 0 < |value| < bufLen && NUL !in value
    requires forall k :: 0 <= k < |value| ==> ToUpper(value[k]) == value[k]
    ensures Upcased(value, bufLen) == value
  {
    assert value[..Min(|value|, bufLen - 1)] == value;
    CStringOfPrefix(value, |value|);
  }
}
