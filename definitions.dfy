/**
 * The value codecs of the Aquarea definitions module: the operating-mode flag
 * combinations and their text and integer tables, reverse dictionary lookup,
 * the zone, powerful-mode, quiet-mode and solar-mode codecs, the bit and
 * valve decoders, and the range guess that re-clamps a number entity.
 *
 * A Python dict is modelled as its items in insertion order.
 */
module Definitions {
  import opened Wrappers
  import opened PyText

  /** A Python dict seen as its `items()` in insertion order. */
  type Dict<K, V> = seq<(K, V)>

  /** `d.get(k)`: the value of the first item with key `k`. */
  function Get<K(==), V>(d: Dict<K, V>, k: K): (r: Option<V>)
    ensures r.None? <==> forall i :: 0 <= i < |d| ==> d[i].0 != k
    ensures r.Some? ==> exists i :: 0 <= i < |d| && d[i] == (k, r.value)
  {
    if |d| == 0 then None
    else if d[0].0 == k then Some(d[0].1)
    else Get(d[1..], k)
  }

  /** `d.get(k, default)`. */
  function GetOr<K(==), V>(d: Dict<K, V>, k: K, default: V): V {
    Get(d, k).GetOr(default)
  }

  /** `[key for (key, v) in d.items() if v == value]`. */
  function KeysWithValue<K, V(==)>(d: Dict<K, V>, value: V): seq<K> {
    if |d| == 0 then []
    else if d[0].1 == value then [d[0].0] + KeysWithValue(d[1..], value)
    else KeysWithValue(d[1..], value)
  }

  /** The filtered keys are empty exactly when no item has the value; otherwise the first is the first match's key. */
  lemma {:induction false} KeysWithValueFirst<K, V>(d: Dict<K, V>, value: V)
    ensures var keys := KeysWithValue(d, value);
      && (|keys| == 0 <==> forall i :: 0 <= i < |d| ==> d[i].1 != value)
      && (|keys| > 0 ==>
            exists i :: 0 <= i < |d| && d[i] == (keys[0], value) && forall j :: 0 <= j < i ==> d[j].1 != value)
  {
    if |d| > 0 {
      var rest := KeysWithValue(d[1..], value);
      KeysWithValueFirst(d[1..], value);
      if d[0].1 == value {
        assert d[0] == (d[0].0, value);
      } else {
        forall i | 0 < i < |d| ensures d[i] == d[1..][i - 1] {}
        if |rest| > 0 {
          var i :| 0 <= i < |d[1..]| && d[1..][i] == (rest[0], value)
                   && forall j :: 0 <= j < i ==> d[1..][j].1 != value;
          assert d[i + 1] == (rest[0], value);
          assert forall j :: 0 <= j < i + 1 ==> d[j].1 != value by {
            forall j | 0 <= j < i + 1 ensures d[j].1 != value {
              if j > 0 { assert d[j] == d[1..][j - 1]; }
            }
          }
        }
      }
    }
  }

  /**
   * `lookup_by_value(d, value)`: the first key, in insertion order, whose
   * value equals `value`, or `None` when there is none.
   */
  function LookupByValue<K, V(==)>(d: Dict<K, V>, value: V): (r: Option<K>)
    ensures r.None? <==> forall i :: 0 <= i < |d| ==> d[i].1 != value
    ensures r.Some? ==>
      exists i :: 0 <= i < |d| && d[i] == (r.value, value) && forall j :: 0 <= j < i ==> d[j].1 != value
  {
    KeysWithValueFirst(d, value);
    var options := KeysWithValue(d, value);
    if |options| == 0 then None else Some(options[0])
  }

  /** With distinct values, the reverse lookup of the value at `i` is the key at `i`. */
  lemma LookupByValueDistinct<K, V>(d: Dict<K, V>, i: nat)
    requires i < |d|
    requires forall a, b :: 0 <= a < b < |d| ==> d[a].1 != d[b].1
    ensures LookupByValue(d, d[i].1) == Some(d[i].0)
  {
    var r := LookupByValue(d, d[i].1);
    var k :| 0 <= k < |d| && d[k] == (r.value, d[i].1) && forall j :: 0 <= j < k ==> d[j].1 != d[i].1;
    assert k == i;
  }

  // ---------------------------------------------------------------------------
  // Operating mode
  // ---------------------------------------------------------------------------

  /** A combination of the four `OperatingMode` flags. */
  datatype OperatingMode = OperatingMode(heat: bool, cool: bool, dhw: bool, auto: bool) {
    /** The same combination with the DHW flag set or cleared. */
    function WithDhw(on: bool): OperatingMode {
      OperatingMode(heat, cool, on, auto)
    }
  }

  const HEAT := OperatingMode(true, false, false, false)
  const COOL := OperatingMode(false, true, false, false)
  const DHW := OperatingMode(false, false, true, false)
  const HEAT_AUTO := OperatingMode(true, false, false, true)
  const HEAT_DHW := OperatingMode(true, false, true, false)
  const COOL_DHW := OperatingMode(false, true, true, false)
  const HEAT_AUTO_DHW := OperatingMode(true, false, true, true)
  const COOL_AUTO := OperatingMode(false, true, false, true)
  const COOL_AUTO_DHW := OperatingMode(false, true, true, true)

  /** `OperatingMode.modes_to_str()`. */
  const MODES_TO_STR: Dict<OperatingMode, string> := [
    (HEAT, "Heat only"),
    (COOL, "Cool only"),
    (HEAT_AUTO, "Auto(Heat)"),
    (DHW, "DHW only"),
    (HEAT_DHW, "Heat+DWH"),
    (COOL_DHW, "Cool+DHW"),
    (HEAT_AUTO_DHW, "Auto(Heat)+DHW"),
    (COOL_AUTO, "Auto(Cool)"),
    (COOL_AUTO_DHW, "Auto(Cool)+DHW")
  ]

  /** `OperatingMode.modes_to_int()`. */
  const MODES_TO_INT: Dict<OperatingMode, int> := [
    (HEAT, 0),
    (COOL, 1),
    (HEAT_AUTO, 2),
    (DHW, 3),
    (HEAT_DHW, 4),
    (COOL_DHW, 5),
    (HEAT_AUTO_DHW, 6),
    (COOL_AUTO, 7),
    (COOL_AUTO_DHW, 8)
  ]

  /** The select options of the operating-mode entity: the text table's values. */
  const OPERATING_MODE_OPTIONS: seq<string> := seq(|MODES_TO_STR|, i requires 0 <= i < |MODES_TO_STR| => MODES_TO_STR[i].1)

  /** The nine combinations both tables know. */
  predicate Tabulated(m: OperatingMode) {
    (m.heat && !m.cool) || (m.cool && !m.heat) || (m == DHW)
  }

  lemma TablesAgree()
    ensures |MODES_TO_STR| == |MODES_TO_INT| == 9
    ensures forall i :: 0 <= i < 9 ==> MODES_TO_STR[i].0 == MODES_TO_INT[i].0 && MODES_TO_INT[i].1 == i
    ensures forall i :: 0 <= i < 9 ==> Tabulated(MODES_TO_STR[i].0)
    ensures forall a, b :: 0 <= a < b < 9 ==> MODES_TO_STR[a].0 != MODES_TO_STR[b].0
    ensures forall a, b :: 0 <= a < b < 9 ==> MODES_TO_STR[a].1 != MODES_TO_STR[b].1
  {
  }

  /** Every tabulated combination is a key of the integer table. */
  lemma TabulatedIsKey(m: OperatingMode)
    requires Tabulated(m)
    ensures exists i :: 0 <= i < 9 && MODES_TO_INT[i].0 == m
  {
    if m == HEAT { assert MODES_TO_INT[0].0 == m; }
    else if m == COOL { assert MODES_TO_INT[1].0 == m; }
    else if m == HEAT_AUTO { assert MODES_TO_INT[2].0 == m; }
    else if m == DHW { assert MODES_TO_INT[3].0 == m; }
    else if m == HEAT_DHW { assert MODES_TO_INT[4].0 == m; }
    else if m == COOL_DHW { assert MODES_TO_INT[5].0 == m; }
    else if m == HEAT_AUTO_DHW { assert MODES_TO_INT[6].0 == m; }
    else if m == COOL_AUTO { assert MODES_TO_INT[7].0 == m; }
    else { assert MODES_TO_INT[8].0 == m; }
  }

  lemma TabulatedLookup(m: OperatingMode)
    ensures Get(MODES_TO_INT, m).Some? <==> Tabulated(m)
  {
    TablesAgree();
    if Tabulated(m) { TabulatedIsKey(m); }
  }

  /** `str(mode)`. */
  function ModeToString(m: OperatingMode): string {
    GetOr(MODES_TO_STR, m, "Unknown mode")
  }

  /** `int(mode)`: a `KeyError` for a combination outside the table. */
  function ModeToInt(m: OperatingMode): (r: Result<int, Exception>)
    ensures r.Success? <==> Tabulated(m)
    ensures r.Success? ==> 0 <= r.value <= 8 && MODES_TO_INT[r.value] == (m, r.value)
  {
    TablesAgree();
    TabulatedLookup(m);
    match Get(MODES_TO_INT, m)
    case Some(n) => Success(n)
    case None => Failure(KeyError)
  }

  /** `OperatingMode.from_str(s)`. */
  function FromStr(s: string): Result<OperatingMode, Exception> {
    match LookupByValue(MODES_TO_STR, s)
    case Some(m) => Success(m)
    case None => Failure(RaisedError)
  }

  /** `OperatingMode.from_mqtt(value)`: `int(value)`, then the integer table. */
  function FromMqtt(value: string): Result<OperatingMode, Exception> {
    match ParseInt(value)
    case None => Failure(ValueError)
    case Some(n) =>
      match LookupByValue(MODES_TO_INT, n)
      case Some(m) => Success(m)
      case None => Failure(RaisedError)
  }

  lemma CodeLookup(n: int)
    ensures 0 <= n <= 8 ==> LookupByValue(MODES_TO_INT, n) == Some(MODES_TO_INT[n].0)
    ensures !(0 <= n <= 8) ==> LookupByValue(MODES_TO_INT, n).None?
  {
    TablesAgree();
    if 0 <= n <= 8 { LookupByValueDistinct(MODES_TO_INT, n); }
  }

  /** The combination with integer code `n`, if any. */
  function FromInt(n: int): (r: Result<OperatingMode, Exception>)
    ensures r.Success? <==> 0 <= n <= 8
    ensures r.Success? ==> MODES_TO_INT[n] == (r.value, n)
  {
    CodeLookup(n);
    match LookupByValue(MODES_TO_INT, n)
    case Some(m) => Success(m)
    case None => Failure(RaisedError)
  }

  /** `mode.to_mqtt()`: `str(int(mode))`. */
  function ToMqtt(m: OperatingMode): Result<string, Exception> {
    var n :- ModeToInt(m);
    Success(IntToString(n))
  }

  /** `operating_mode_to_state(s)`: select option to MQTT payload. */
  function OperatingModeToState(s: string): Result<string, Exception> {
    var m :- FromStr(s);
    ToMqtt(m)
  }

  /** `read_operating_mode_state(value)`: MQTT payload to select option. */
  function ReadOperatingModeState(value: string): Result<string, Exception> {
    var m :- FromMqtt(value);
    Success(ModeToString(m))
  }

  /** `from_mqtt(m.to_mqtt()) == m` for every tabulated combination; `to_mqtt` fails on the rest. */
  lemma MqttRoundTrip(m: OperatingMode)
    ensures Tabulated(m) ==> ToMqtt(m).Success? && FromMqtt(ToMqtt(m).value) == Success(m)
    ensures !Tabulated(m) ==> ToMqtt(m).Failure?
  {
    if Tabulated(m) {
      var n := ModeToInt(m).value;
      ParseIntToString(n);
      TablesAgree();
      LookupByValueDistinct(MODES_TO_INT, n);
    }
  }

  /** The integer codes are exactly 0..8: any other integer makes `from_mqtt` raise. */
  lemma FromMqttCodes(n: int)
    ensures FromMqtt(IntToString(n)).Success? <==> 0 <= n <= 8
    ensures 0 <= n <= 8 ==> FromMqtt(IntToString(n)) == FromInt(n)
  {
    ParseIntToString(n);
    if 0 <= n <= 8 {
      TablesAgree();
      LookupByValueDistinct(MODES_TO_INT, n);
    }
  }

  /** `from_str(str(m)) == m` for every tabulated combination. */
  lemma StrRoundTrip(m: OperatingMode)
    requires Tabulated(m)
    ensures FromStr(ModeToString(m)) == Success(m)
  {
    TablesAgree();
    var n := ModeToInt(m).value;
    assert MODES_TO_STR[n].0 == m;
    assert ModeToString(m) == MODES_TO_STR[n].1;
    LookupByValueDistinct(MODES_TO_STR, n);
  }

  /** `from_str` accepts exactly the nine select options. */
  lemma FromStrAcceptsOptions(s: string)
    ensures FromStr(s).Success? <==> s in OPERATING_MODE_OPTIONS
  {
    if s in OPERATING_MODE_OPTIONS {
      var i :| 0 <= i < |OPERATING_MODE_OPTIONS| && OPERATING_MODE_OPTIONS[i] == s;
      assert MODES_TO_STR[i].1 == s;
    } else {
      forall i | 0 <= i < |MODES_TO_STR| ensures MODES_TO_STR[i].1 != s {
        assert OPERATING_MODE_OPTIONS[i] == MODES_TO_STR[i].1;
      }
    }
  }

  /**
   * The operating-mode select round-trips: an option is turned into a payload
   * and read back as the same option, and a code 0..8 is read as an option
   * that is turned back into the same code.
   */
  lemma SelectRoundTrip(option: string, n: int)
    ensures option in OPERATING_MODE_OPTIONS ==>
      OperatingModeToState(option).Success? &&
      ReadOperatingModeState(OperatingModeToState(option).value) == Success(option)
    ensures 0 <= n <= 8 ==>
      ReadOperatingModeState(IntToString(n)).Success? &&
      OperatingModeToState(ReadOperatingModeState(IntToString(n)).value) == Success(IntToString(n))
  {
    TablesAgree();
    if option in OPERATING_MODE_OPTIONS {
      var i :| 0 <= i < |OPERATING_MODE_OPTIONS| && OPERATING_MODE_OPTIONS[i] == option;
      LookupByValueDistinct(MODES_TO_STR, i);
      var m := MODES_TO_STR[i].0;
      assert FromStr(option) == Success(m);
      MqttRoundTrip(m);
      assert GetOr(MODES_TO_STR, m, "Unknown mode") == option;
    }
    if 0 <= n <= 8 {
      FromMqttCodes(n);
      var m := FromInt(n).value;
      StrRoundTrip(m);
      assert ModeToInt(m) == Success(n);
    }
  }

  // ---------------------------------------------------------------------------
  // Zones and powerful mode
  // ---------------------------------------------------------------------------

  const ZONE_STATES_STRING: Dict<string, string> := [("0", "Zone 1"), ("1", "Zone 2"), ("2", "Zones 1 + 2")]

  /** `read_zones_state(value)`. */
  function ReadZonesState(value: string): string {
    GetOr(ZONE_STATES_STRING, value, "Unknown zone state value: " + value)
  }

  /** `zone_state_to_mqtt(value)`. */
  function ZoneStateToMqtt(value: string): Option<string> {
    LookupByValue(ZONE_STATES_STRING, value)
  }

  /**
   * The zone codec round-trips on the three known codes; any other code reads
   * as an "Unknown zone state value" text that has no code.
   */
  lemma ZoneRoundTrip(k: string)
    ensures k in ["0", "1", "2"] ==> ZoneStateToMqtt(ReadZonesState(k)) == Some(k)
    ensures k !in ["0", "1", "2"] ==>
      ReadZonesState(k) == "Unknown zone state value: " + k && ZoneStateToMqtt(ReadZonesState(k)).None?
  {
    var d := ZONE_STATES_STRING;
    if k == "0" { LookupByValueDistinct(d, 0); }
    else if k == "1" { LookupByValueDistinct(d, 1); }
    else if k == "2" { LookupByValueDistinct(d, 2); }
    else {
      var u := "Unknown zone state value: " + k;
      assert u[0] == 'U';
      assert d[0].1[0] != 'U' && d[1].1[0] != 'U' && d[2].1[0] != 'U';
    }
  }

  const POWERFUL_MODE_TIMES: Dict<string, string> := [("0", "Off"), ("1", "30 min"), ("2", "60 min"), ("3", "90 min")]

  /** `read_power_mode_time(value)`. */
  function ReadPowerModeTime(value: string): string {
    GetOr(POWERFUL_MODE_TIMES, value, "Unknown powerful mode: " + value)
  }

  /** `set_power_mode_time(value)`. */
  function SetPowerModeTime(value: string): Option<string> {
    LookupByValue(POWERFUL_MODE_TIMES, value)
  }

  /**
   * The powerful-mode codec round-trips on "0".."3"; other codes read as an
   * "Unknown powerful mode" text that has no code.
   */
  lemma PowerModeRoundTrip(k: string)
    ensures k in ["0", "1", "2", "3"] ==> SetPowerModeTime(ReadPowerModeTime(k)) == Some(k)
    ensures k !in ["0", "1", "2", "3"] ==>
      ReadPowerModeTime(k) == "Unknown powerful mode: " + k && SetPowerModeTime(ReadPowerModeTime(k)).None?
  {
    var d := POWERFUL_MODE_TIMES;
    if k == "0" { LookupByValueDistinct(d, 0); }
    else if k == "1" { LookupByValueDistinct(d, 1); }
    else if k == "2" { LookupByValueDistinct(d, 2); }
    else if k == "3" { LookupByValueDistinct(d, 3); }
    else {
      var u := "Unknown powerful mode: " + k;
      assert u[0] == 'U';
      assert d[0].1[0] != 'U' && d[1].1[0] != 'U' && d[2].1[0] != 'U' && d[3].1[0] != 'U';
    }
  }

  // ---------------------------------------------------------------------------
  // Small decoders
  // ---------------------------------------------------------------------------

  /** `bit_to_bool(value)`. */
  function BitToBool(value: string): (r: Option<bool>)
    ensures r == Some(true) <==> value == "1"
    ensures r == Some(false) <==> value == "0"
    ensures r.None? <==> value != "1" && value != "0"
  {
    if value == "1" then Some(true)
    else if value == "0" then Some(false)
    else None
  }

  /** `read_threeway_valve(value)`. */
  function ReadThreewayValve(value: string): (r: Option<string>)
    ensures r == Some("Room") <==> value == "0"
    ensures r == Some("Tank") <==> value == "1"
    ensures r.None? <==> value !in ["0", "1"]
  {
    if value == "0" then Some("Room")
    else if value == "1" then Some("Tank")
    else None
  }

  /** `read_heating_mode(value)`. */
  function ReadHeatingMode(value: string): (r: Option<string>)
    ensures r == Some("compensation curve") <==> value == "0"
    ensures r == Some("direct") <==> value == "1"
    ensures r.None? <==> value !in ["0", "1"]
  {
    if value == "0" then Some("compensation curve")
    else if value == "1" then Some("direct")
    else None
  }

  const SOLAR_MODES: Dict<string, string> := [("0", "Disabled"), ("1", "Buffer"), ("2", "DHW")]

  /** `read_solar_mode(value)`. */
  function ReadSolarMode(value: string): (r: string)
    ensures value !in ["0", "1", "2"] ==> r == "Unknown solar mode: " + value
    ensures value in ["0", "1", "2"] ==> r in ["Disabled", "Buffer", "DHW"]
    ensures value == "0" ==> r == "Disabled"
    ensures value == "1" ==> r == "Buffer"
    ensures value == "2" ==> r == "DHW"
  {
    GetOr(SOLAR_MODES, value, "Unknown solar mode: " + value)
  }

  /** `read_quiet_mode(value)`. */
  function ReadQuietMode(value: string): string {
    if value == "4" then "Scheduled"
    else if value == "0" then "Off"
    else value
  }

  /** `write_quiet_mode(selected_value)`: `int(...)` for anything but the two names. */
  function WriteQuietMode(selected: string): Result<int, Exception> {
    if selected == "Off" then Success(0)
    else if selected == "Scheduled" then Success(4)
    else
      match ParseInt(selected)
      case Some(n) => Success(n)
      case None => Failure(ValueError)
  }

  const QUIET_MODE_OPTIONS: seq<string> := ["Off", "1", "2", "3", "Scheduled"]

  /**
   * Reading a level and writing it back gives `int(value)` for every payload
   * other than the two option names ("Off" is 0 and "Scheduled" is 4); every
   * select option is written as a payload that reads back as that option.
   */
  lemma QuietModeRoundTrip(value: string, option: string)
    ensures value != "Off" && value != "Scheduled" ==>
      WriteQuietMode(ReadQuietMode(value)) == (match ParseInt(value) case Some(n) => Success(n) case None => Failure(ValueError))
    ensures option in QUIET_MODE_OPTIONS ==>
      WriteQuietMode(option).Success? && ReadQuietMode(IntToString(WriteQuietMode(option).value)) == option
  {
    assert ParseInt("4") == Some(4) && ParseInt("0") == Some(0);
  }

  // ---------------------------------------------------------------------------
  // Range guess for the shift-or-direct number entities
  // ---------------------------------------------------------------------------

  /** Python `range(start, stop)` with step 1. */
  datatype IntRange = IntRange(start: int, stop: int) {
    predicate Contains(x: int) {
      start <= x < stop
    }
  }

  /** The part of a number entity description the range guess rewrites. */
  class NumberDescription {
    var nativeMinValue: int
    var nativeMaxValue: int

    constructor (min: int, max: int)
      ensures nativeMinValue == min && nativeMaxValue == max
    {
      nativeMinValue, nativeMaxValue := min, max;
    }
  }

  /**
   * `guess_shift_or_direct_and_clamp_min_max_values`: the bounds become those
   * of the first range holding the value (range1 wins), or stay as they are.
   */
  method GuessShiftOrDirectAndClampMinMaxValues(range1: IntRange, range2: IntRange, description: NumberDescription, nativeValue: int)
    modifies description
    ensures range1.Contains(nativeValue) ==>
      description.nativeMinValue == range1.start && description.nativeMaxValue == range1.stop - 1
    ensures !range1.Contains(nativeValue) && range2.Contains(nativeValue) ==>
      description.nativeMinValue == range2.start && description.nativeMaxValue == range2.stop - 1
    ensures !range1.Contains(nativeValue) && !range2.Contains(nativeValue) ==>
      description.nativeMinValue == old(description.nativeMinValue) && description.nativeMaxValue == old(description.nativeMaxValue)
    ensures description.nativeMinValue <= nativeValue <= description.nativeMaxValue || !(range1.Contains(nativeValue) || range2.Contains(nativeValue))
  {
    if range1.Contains(nativeValue) {
      description.nativeMinValue := range1.start;
      description.nativeMaxValue := range1.stop - 1;
    } else if range2.Contains(nativeValue) {
      description.nativeMinValue := range2.start;
      description.nativeMaxValue := range2.stop - 1;
    }
  }
}
