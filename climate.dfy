/**
 * The domestic-hot-water climate entity (`HeishaMonDHWClimate`): it shows
 * HEAT while the heat pump's operating mode includes DHW and OFF otherwise,
 * switches DHW on or off by sending the operating-mode code that adds or
 * removes DHW from the current one, and maps the target temperatures 52 and
 * 60 to the eco and comfort presets.
 *
 * Operating-mode codes are the integers of `Definitions.MODES_TO_INT`. The
 * tables are keyed by `str(code)`, as in the source.
 */
module Climate {
  import opened Wrappers
  import opened PyText
  import opened Definitions

  /** The Home Assistant HVAC modes a caller may request. */
  datatype HvacMode = Off | Heat | Cool | HeatCool | Auto | Dry | FanOnly

  const PRESET_ECO := "eco"
  const PRESET_COMFORT := "comfort"
  const PRESET_NONE := "none"

  /** `preset_mode_temps`. */
  const PRESET_MODE_TEMPS: Dict<string, string> := [("52", PRESET_ECO), ("60", PRESET_COMFORT)]

  /** The code to send for HEAT: the current mode with DHW added. */
  const HEAT_TABLE: Dict<string, string> := [
    ("0", "4"), ("1", "5"), ("2", "6"), ("3", "3"), ("4", "4"),
    ("5", "5"), ("6", "6"), ("7", "8"), ("8", "8")]

  /** The code to send for OFF, as the source writes it. */
  const OFF_TABLE_AS_WRITTEN: Dict<string, string> := [
    ("0", "0"), ("1", "1"), ("2", "2"), ("3", "3"), ("4", "1"),
    ("5", "2"), ("6", "2"), ("7", "7"), ("8", "7")]

  /**
   * The code to send for OFF: the current mode with DHW removed; DHW alone
   * (code 3) cannot be switched off and is sent unchanged.
   */
  const OFF_TABLE: Dict<string, string> := [
    ("0", "0"), ("1", "1"), ("2", "2"), ("3", "3"), ("4", "0"),
    ("5", "1"), ("6", "2"), ("7", "7"), ("8", "7")]

  /** The operating-state codes shown as HEAT. */
  const HEAT_STATES: seq<int> := [3, 4, 5, 6, 8]

  /** A table keyed by `str(0)` .. `str(8)`, in that order. */
  ghost predicate KeyedByCode(table: Dict<string, string>) {
    |table| == 9 && forall i :: 0 <= i < 9 ==> table[i].0 == IntToString(i)
  }

  lemma IntToStringInjective(a: int, b: int)
    requires IntToString(a) == IntToString(b)
    ensures a == b
  {
    ParseIntToString(a);
    ParseIntToString(b);
  }

  /** Looking a stored mode up in a table keyed by code: found exactly for 0..8. */
  lemma CodeKeyLookup(table: Dict<string, string>, n: int)
    requires KeyedByCode(table)
    ensures Get(table, IntToString(n)).Some? <==> 0 <= n <= 8
    ensures 0 <= n <= 8 ==> Get(table, IntToString(n)) == Some(table[n].1)
  {
    var r := Get(table, IntToString(n));
    if r.Some? {
      var j :| 0 <= j < |table| && table[j] == (IntToString(n), r.value);
      IntToStringInjective(j, n);
    }
  }

  /** One table entry whose value is the text of code `k`, and what that text decodes to. */
  lemma Entry(table: Dict<string, string>, n: int, k: int)
    requires KeyedByCode(table) && 0 <= n <= 8 && 0 <= k <= 8 && table[n].1 == IntToString(k)
    ensures TableCode(table, n) == Success(IntToString(k))
    ensures ParseInt(IntToString(k)) == Some(k)
    ensures FromMqtt(IntToString(k)) == Success(MODES_TO_INT[k].0)
  {
    CodeKeyLookup(table, n);
    ParseIntToString(k);
    FromMqttCodes(k);
  }

  /** The decimal text of the codes 0..8. */
  lemma CodeTexts()
    ensures IntToString(0) == "0" && IntToString(1) == "1" && IntToString(2) == "2"
    ensures IntToString(3) == "3" && IntToString(4) == "4" && IntToString(5) == "5"
    ensures IntToString(6) == "6" && IntToString(7) == "7" && IntToString(8) == "8"
  {
  }

  /** `table[str(self._operating_mode)]`: a `KeyError` for a mode outside 0..8. */
  function TableCode(table: Dict<string, string>, operatingMode: int): Result<string, Exception> {
    match Get(table, IntToString(operatingMode))
    case Some(v) => Success(v)
    case None => Failure(KeyError)
  }

  lemma TablesKeyedByCode()
    ensures KeyedByCode(HEAT_TABLE) && KeyedByCode(OFF_TABLE) && KeyedByCode(OFF_TABLE_AS_WRITTEN)
  {
  }

  /** All three tables fail exactly on modes outside 0..8, such as the initial -1. */
  lemma TableCodeDefinedOnCodes(n: int)
    ensures TableCode(HEAT_TABLE, n).Success? <==> 0 <= n <= 8
    ensures TableCode(OFF_TABLE, n).Success? <==> 0 <= n <= 8
    ensures TableCode(OFF_TABLE_AS_WRITTEN, n).Success? <==> 0 <= n <= 8
    ensures TableCode(HEAT_TABLE, n).Failure? ==> TableCode(HEAT_TABLE, n).error == KeyError
  {
    TablesKeyedByCode();
    CodeKeyLookup(HEAT_TABLE, n);
    CodeKeyLookup(OFF_TABLE, n);
    CodeKeyLookup(OFF_TABLE_AS_WRITTEN, n);
  }

  /** The HEAT states are exactly the codes whose mode includes DHW. */
  lemma HeatStatesAreDhwModes(n: int)
    requires 0 <= n <= 8
    ensures n in HEAT_STATES <==> FromInt(n).value.dhw
  {
    assert MODES_TO_INT[n] == (FromInt(n).value, n);
  }

  /**
   * The HEAT table sends the current mode with DHW added, for every code; so
   * its result is always a HEAT state and it leaves HEAT states unchanged.
   */
  lemma {:induction false} HeatTableAddsDhw(n: int)
    requires 0 <= n <= 8
    ensures TableCode(HEAT_TABLE, n).Success?
    ensures FromMqtt(TableCode(HEAT_TABLE, n).value) == Success(FromInt(n).value.WithDhw(true))
    ensures ParseInt(TableCode(HEAT_TABLE, n).value).Some?
    ensures var k := ParseInt(TableCode(HEAT_TABLE, n).value).value;
      k in HEAT_STATES && (n in HEAT_STATES ==> k == n)
  {
    TablesKeyedByCode();
    CodeTexts();
    assert MODES_TO_INT[n] == (FromInt(n).value, n);
    if n == 0 { Entry(HEAT_TABLE, 0, 4); }
    else if n == 1 { Entry(HEAT_TABLE, 1, 5); }
    else if n == 2 { Entry(HEAT_TABLE, 2, 6); }
    else if n == 3 { Entry(HEAT_TABLE, 3, 3); }
    else if n == 4 { Entry(HEAT_TABLE, 4, 4); }
    else if n == 5 { Entry(HEAT_TABLE, 5, 5); }
    else if n == 6 { Entry(HEAT_TABLE, 6, 6); }
    else if n == 7 { Entry(HEAT_TABLE, 7, 8); }
    else { Entry(HEAT_TABLE, 8, 8); }
  }

  /**
   * The corrected OFF table sends the current mode with DHW removed, except
   * for DHW alone, which is sent unchanged; so it is the identity on the
   * non-HEAT states and leaves the HEAT states only from code 3.
   */
  lemma {:induction false} OffTableRemovesDhw(n: int)
    requires 0 <= n <= 8
    ensures TableCode(OFF_TABLE, n).Success?
    ensures n != 3 ==> FromMqtt(TableCode(OFF_TABLE, n).value) == Success(FromInt(n).value.WithDhw(false))
    ensures n == 3 ==> TableCode(OFF_TABLE, n).value == "3"
    ensures ParseInt(TableCode(OFF_TABLE, n).value).Some?
    ensures var k := ParseInt(TableCode(OFF_TABLE, n).value).value;
      (k in HEAT_STATES <==> n == 3) && (n !in HEAT_STATES ==> k == n)
  {
    TablesKeyedByCode();
    CodeTexts();
    assert MODES_TO_INT[n] == (FromInt(n).value, n);
    if n == 0 { Entry(OFF_TABLE, 0, 0); }
    else if n == 1 { Entry(OFF_TABLE, 1, 1); }
    else if n == 2 { Entry(OFF_TABLE, 2, 2); }
    else if n == 3 { Entry(OFF_TABLE, 3, 3); }
    else if n == 4 { Entry(OFF_TABLE, 4, 0); }
    else if n == 5 { Entry(OFF_TABLE, 5, 1); }
    else if n == 6 { Entry(OFF_TABLE, 6, 2); }
    else if n == 7 { Entry(OFF_TABLE, 7, 7); }
    else { Entry(OFF_TABLE, 8, 7); }
  }

  /** Switching DHW on and then off from a mode without DHW gets back to that mode. */
  lemma OffUndoesHeat(n: int)
    requires 0 <= n <= 8 && n !in HEAT_STATES
    ensures ParseInt(TableCode(HEAT_TABLE, n).value).Some?
    ensures TableCode(OFF_TABLE, ParseInt(TableCode(HEAT_TABLE, n).value).value) == Success(IntToString(n))
  {
    TablesKeyedByCode();
    CodeTexts();
    if n == 0 { Entry(HEAT_TABLE, 0, 4); Entry(OFF_TABLE, 4, 0); }
    else if n == 1 { Entry(HEAT_TABLE, 1, 5); Entry(OFF_TABLE, 5, 1); }
    else if n == 2 { Entry(HEAT_TABLE, 2, 6); Entry(OFF_TABLE, 6, 2); }
    else { assert n == 7; Entry(HEAT_TABLE, 7, 8); Entry(OFF_TABLE, 8, 7); }
  }

  /**
   * The OFF table as written sends Heat+DHW (4) to Cool only (1) and
   * Cool+DHW (5) to Auto(Heat) (2), where removing DHW gives Heat only (0)
   * and Cool only (1).
   */
  lemma OffTableAsWrittenMisroutes()
    ensures TableCode(OFF_TABLE_AS_WRITTEN, 4) == Success("1") && FromMqtt("1") == Success(COOL)
    ensures FromInt(4).value.WithDhw(false) == HEAT
    ensures TableCode(OFF_TABLE_AS_WRITTEN, 5) == Success("2") && FromMqtt("2") == Success(HEAT_AUTO)
    ensures FromInt(5).value.WithDhw(false) == COOL
    ensures TableCode(OFF_TABLE_AS_WRITTEN, 4) != TableCode(OFF_TABLE, 4)
  {
    TablesKeyedByCode();
    CodeTexts();
    Entry(OFF_TABLE_AS_WRITTEN, 4, 1);
    Entry(OFF_TABLE_AS_WRITTEN, 5, 2);
    Entry(OFF_TABLE, 4, 0);
    assert MODES_TO_INT[4] == (FromInt(4).value, 4);
    assert MODES_TO_INT[5] == (FromInt(5).value, 5);
  }

  /** The two preset temperatures and their decimal text. */
  lemma PresetKeys()
    ensures IntToString(52) == "52" && IntToString(60) == "60"
    ensures ParseInt("52") == Some(52) && ParseInt("60") == Some(60)
    ensures LookupByValue(PRESET_MODE_TEMPS, PRESET_ECO) == Some("52")
    ensures LookupByValue(PRESET_MODE_TEMPS, PRESET_COMFORT) == Some("60")
  {
    ParseIntToString(52);
    ParseIntToString(60);
    LookupByValueDistinct(PRESET_MODE_TEMPS, 0);
    LookupByValueDistinct(PRESET_MODE_TEMPS, 1);
  }

  /** The preset a target temperature selects: `preset_mode_temps.get(str(int(t)), PRESET_NONE)`. */
  function PresetFor(target: real): (preset: string)
    ensures preset == PRESET_ECO <==> Trunc(target) == 52
    ensures preset == PRESET_COMFORT <==> Trunc(target) == 60
    ensures preset == PRESET_NONE <==> Trunc(target) != 52 && Trunc(target) != 60
  {
    var key := IntToString(Trunc(target));
    ParseIntToString(Trunc(target));
    PresetKeys();
    GetOr(PRESET_MODE_TEMPS, key, PRESET_NONE)
  }

  /** What the entity publishes. */
  datatype Command =
    /** `commands/SetDHWTemp` with `str(temperature)`. */
    | SetDhwTemp(temperature: Option<real>)
    /** `commands/SetOperationMode` with the code. */
    | SetOperationMode(code: string)

  /** `async_set_preset_mode`: the temperature to send for a preset, if any. */
  function PresetCommand(preset: string): (cmd: Option<Command>)
    ensures preset == PRESET_ECO ==> cmd == Some(SetDhwTemp(Some(52.0)))
    ensures preset == PRESET_COMFORT ==> cmd == Some(SetDhwTemp(Some(60.0)))
    ensures preset != PRESET_ECO && preset != PRESET_COMFORT ==> cmd.None?
  {
    PresetKeys();
    match LookupByValue(PRESET_MODE_TEMPS, preset)
    case None => None
    case Some(temp) =>
      match ParseInt(temp)
      case Some(t) => Some(SetDhwTemp(Some(t as real)))
      case None => None
  }

  /** `HeishaMonDHWClimate`. */
  class DhwClimate {
    var operatingMode: int
    var hvacMode: HvacMode
    var presetMode: string
    var targetTemperature: Option<real>
    var currentTemperature: Option<real>

    constructor ()
      ensures operatingMode == -1 && hvacMode == Off && presetMode == PRESET_ECO
      ensures targetTemperature.None? && currentTemperature.None?
    {
      operatingMode := -1;
      hvacMode := Off;
      presetMode := PRESET_ECO;
      targetTemperature := None;
      currentTemperature := None;
    }

    /** `current_temperature_message_received`; `None` is a payload `float()` rejects. */
    method CurrentTemperatureMessage(payload: Option<real>) returns (r: Result<(), Exception>)
      modifies this
      ensures payload.None? ==> r == Failure(ValueError) && currentTemperature == old(currentTemperature)
      ensures payload.Some? ==> r == Success(()) && currentTemperature == payload
      ensures operatingMode == old(operatingMode) && hvacMode == old(hvacMode) && presetMode == old(presetMode)
      ensures targetTemperature == old(targetTemperature)
    {
      if payload.None? {
        return Failure(ValueError);
      }
      currentTemperature := payload;
      return Success(());
    }

    /** `target_temperature_message_received`: the target and the preset it selects. */
    method TargetTemperatureMessage(payload: Option<real>) returns (r: Result<(), Exception>)
      modifies this
      ensures payload.None? ==> r == Failure(ValueError) && targetTemperature == old(targetTemperature) && presetMode == old(presetMode)
      ensures payload.Some? ==> r == Success(()) && targetTemperature == payload && presetMode == PresetFor(payload.value)
      ensures operatingMode == old(operatingMode) && hvacMode == old(hvacMode) && currentTemperature == old(currentTemperature)
    {
      if payload.None? {
        return Failure(ValueError);
      }
      targetTemperature := payload;
      presetMode := PresetFor(payload.value);
      return Success(());
    }

    /** `operating_state_message_received`: record the code, show HEAT exactly for the DHW codes. */
    method OperatingStateMessage(payload: string) returns (r: Result<(), Exception>)
      modifies this
      ensures ParseInt(payload).None? ==> r == Failure(ValueError) && operatingMode == old(operatingMode) && hvacMode == old(hvacMode)
      ensures ParseInt(payload).Some? ==>
        && r == Success(())
        && operatingMode == ParseInt(payload).value
        && (hvacMode == Heat <==> operatingMode in HEAT_STATES)
        && (hvacMode == Off <==> operatingMode !in HEAT_STATES)
      ensures presetMode == old(presetMode) && targetTemperature == old(targetTemperature) && currentTemperature == old(currentTemperature)
    {
      var value := ParseInt(payload);
      if value.None? {
        return Failure(ValueError);
      }
      operatingMode := value.value;
      if operatingMode in HEAT_STATES {
        hvacMode := Heat;
      } else {
        hvacMode := Off;
      }
      return Success(());
    }

    /**
     * `async_set_hvac_mode`: HEAT and OFF look the stored mode up in their
     * tables as written, so OFF misroutes modes 4 and 5 (see
     * `OffTableAsWrittenMisroutes`); a mode outside 0..8 is a `KeyError`; any
     * other hvac mode raises —
     * calling `NotImplemented` is itself a `TypeError`. On success the code is
     * sent and the requested mode shown at once.
     */
    method SetHvacMode(mode: HvacMode) returns (r: Result<Command, Exception>)
      modifies this
      ensures mode != Heat && mode != Off ==> r == Failure(TypeError)
      ensures mode == Heat ==> r == (var c := TableCode(HEAT_TABLE, old(operatingMode)); if c.Success? then Success(SetOperationMode(c.value)) else Failure(c.error))
      ensures mode == Off ==> r == (var c := TableCode(OFF_TABLE_AS_WRITTEN, old(operatingMode)); if c.Success? then Success(SetOperationMode(c.value)) else Failure(c.error))
      ensures r.Success? ==> hvacMode == mode
      ensures r.Failure? ==> hvacMode == old(hvacMode)
      ensures operatingMode == old(operatingMode) && presetMode == old(presetMode)
      ensures targetTemperature == old(targetTemperature) && currentTemperature == old(currentTemperature)
    {
      var code: Result<string, Exception>;
      if mode == Heat {
        code := TableCode(HEAT_TABLE, operatingMode);
      } else if mode == Off {
        code := TableCode(OFF_TABLE_AS_WRITTEN, operatingMode);
      } else {
        return Failure(TypeError);
      }
      if code.Failure? {
        return Failure(code.error);
      }
      hvacMode := mode;
      return Success(SetOperationMode(code.value));
    }

    /** `async_set_temperature`: sends the temperature and changes nothing. */
    method SetTemperature(temperature: Option<real>) returns (cmd: Command)
      ensures cmd == SetDhwTemp(temperature)
    {
      cmd := SetDhwTemp(temperature);
    }

    /** `async_set_preset_mode`: eco sends 52.0, comfort 60.0, anything else nothing. */
    method SetPresetMode(preset: string) returns (cmd: Option<Command>)
      ensures preset == PRESET_ECO ==> cmd == Some(SetDhwTemp(Some(52.0)))
      ensures preset == PRESET_COMFORT ==> cmd == Some(SetDhwTemp(Some(60.0)))
      ensures preset != PRESET_ECO && preset != PRESET_COMFORT ==> cmd.None?
    {
      cmd := PresetCommand(preset);
    }
  }
}
