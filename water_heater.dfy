/**
 * The domestic-hot-water heater entity (`HeishaMonDHW`): the target comes
 * from the heat pump, the lower bound of the target range sits the heat
 * delta away from it, and the operation shown is eco at 52 and high demand
 * at 60.
 *
 * The target starts unset (`None`, the Home Assistant default), so
 * recomputing the bounds before the first target message raises `TypeError`
 * on `heat_delta + None`.
 */
module WaterHeater {
  import opened Wrappers
  import opened PyText
  import opened Definitions
  import Climate

  const STATE_ECO := "eco"
  const STATE_HIGH_DEMAND := "high_demand"
  const PRESET_NONE := "none"

  /** `operation_modes_temps`. */
  const OPERATION_MODES_TEMPS: Dict<string, string> := [("52", STATE_ECO), ("60", STATE_HIGH_DEMAND)]

  /** The bounds `update_temperature_bounds` derives from a target and a heat delta. */
  datatype Bounds = Bounds(high: real, low: real)

  function BoundsFor(target: real, heatDelta: int): (b: Bounds)
    ensures b.high == target && b.low == target + heatDelta as real
  {
    Bounds(target, heatDelta as real + target)
  }

  /** The range is well ordered exactly when the heat delta is not positive. */
  lemma BoundsOrdered(target: real, heatDelta: int)
    ensures BoundsFor(target, heatDelta).low <= BoundsFor(target, heatDelta).high <==> heatDelta <= 0
  {
  }

  lemma OperationKeys()
    ensures LookupByValue(OPERATION_MODES_TEMPS, STATE_ECO) == Some("52")
    ensures LookupByValue(OPERATION_MODES_TEMPS, STATE_HIGH_DEMAND) == Some("60")
    ensures Get(OPERATION_MODES_TEMPS, "52") == Some(STATE_ECO)
    ensures Get(OPERATION_MODES_TEMPS, "60") == Some(STATE_HIGH_DEMAND)
  {
    LookupByValueDistinct(OPERATION_MODES_TEMPS, 0);
    LookupByValueDistinct(OPERATION_MODES_TEMPS, 1);
  }

  /** `operation_modes_temps.get(str(int(target)), PRESET_NONE)`. */
  function OperationFor(target: real): (operation: string)
    ensures operation == STATE_ECO <==> Trunc(target) == 52
    ensures operation == STATE_HIGH_DEMAND <==> Trunc(target) == 60
    ensures operation == PRESET_NONE <==> Trunc(target) != 52 && Trunc(target) != 60
  {
    ParseIntToString(Trunc(target));
    Climate.PresetKeys();
    OperationKeys();
    GetOr(OPERATION_MODES_TEMPS, IntToString(Trunc(target)), PRESET_NONE)
  }

  /** The temperature `async_set_operation_mode` sends for a mode, if any. */
  function OperationTemperature(mode: string): (t: Option<real>)
    ensures mode == STATE_ECO ==> t == Some(52.0)
    ensures mode == STATE_HIGH_DEMAND ==> t == Some(60.0)
    ensures mode != STATE_ECO && mode != STATE_HIGH_DEMAND ==> t.None?
  {
    OperationKeys();
    Climate.PresetKeys();
    match LookupByValue(OPERATION_MODES_TEMPS, mode)
    case None => None
    case Some(temp) =>
      match ParseInt(temp)
      case Some(n) => Some(n as real)
      case None => None
  }

  /** A `SetDHWTemp` command: the topic under the discovery prefix and `str(temperature)`. */
  datatype Publish = Publish(topic: string, temperature: Option<real>)

  /** `HeishaMonDHW`. */
  class DhwWaterHeater {
    const discoveryPrefix: string
    var targetTemperature: Option<real>
    var targetTemperatureHigh: Option<real>
    var targetTemperatureLow: Option<real>
    var heatDelta: int
    var currentOperation: string
    var currentTemperature: Option<real>

    constructor (discoveryPrefix: string)
      ensures this.discoveryPrefix == discoveryPrefix
      ensures targetTemperature.None? && targetTemperatureHigh.None? && targetTemperatureLow.None?
      ensures heatDelta == 0 && currentOperation == STATE_ECO && currentTemperature.None?
    {
      this.discoveryPrefix := discoveryPrefix;
      targetTemperature := None;
      targetTemperatureHigh := None;
      targetTemperatureLow := None;
      heatDelta := 0;
      currentOperation := STATE_ECO;
      currentTemperature := None;
    }

    /**
     * `update_temperature_bounds()`: high takes the target (also when it is
     * unset); low is the target shifted by the heat delta, which raises
     * `TypeError` while the target is unset.
     */
    method UpdateTemperatureBounds() returns (r: Result<(), Exception>)
      modifies this
      ensures targetTemperatureHigh == targetTemperature
      ensures targetTemperature.None? ==> r == Failure(TypeError) && targetTemperatureLow == old(targetTemperatureLow)
      ensures targetTemperature.Some? ==>
        r == Success(()) && targetTemperatureLow == Some(BoundsFor(targetTemperature.value, heatDelta).low)
      ensures targetTemperature == old(targetTemperature) && heatDelta == old(heatDelta)
      ensures currentOperation == old(currentOperation) && currentTemperature == old(currentTemperature)
    {
      targetTemperatureHigh := targetTemperature;
      if targetTemperature.None? {
        return Failure(TypeError);
      }
      targetTemperatureLow := Some(heatDelta as real + targetTemperature.value);
      return Success(());
    }

    /** `current_temperature_message_received`; `None` is a payload `float()` rejects. */
    method CurrentTemperatureMessage(payload: Option<real>) returns (r: Result<(), Exception>)
      modifies this
      ensures payload.None? ==> r == Failure(ValueError) && currentTemperature == old(currentTemperature)
      ensures payload.Some? ==> r == Success(()) && currentTemperature == payload
      ensures targetTemperature == old(targetTemperature) && heatDelta == old(heatDelta)
      ensures targetTemperatureHigh == old(targetTemperatureHigh) && targetTemperatureLow == old(targetTemperatureLow)
      ensures currentOperation == old(currentOperation)
    {
      if payload.None? {
        return Failure(ValueError);
      }
      currentTemperature := payload;
      return Success(());
    }

    /**
     * `target_temperature_message_received`: store the target, recompute both
     * bounds from it and show the operation it selects.
     */
    method TargetTemperatureMessage(payload: Option<real>) returns (r: Result<(), Exception>)
      modifies this
      ensures payload.None? ==>
        && r == Failure(ValueError)
        && targetTemperature == old(targetTemperature) && currentOperation == old(currentOperation)
        && targetTemperatureHigh == old(targetTemperatureHigh) && targetTemperatureLow == old(targetTemperatureLow)
      ensures payload.Some? ==>
        && r == Success(())
        && targetTemperature == payload
        && targetTemperatureHigh == Some(BoundsFor(payload.value, heatDelta).high)
        && targetTemperatureLow == Some(BoundsFor(payload.value, heatDelta).low)
        && currentOperation == OperationFor(payload.value)
        && (targetTemperatureLow.value <= targetTemperatureHigh.value <==> heatDelta <= 0)
      ensures heatDelta == old(heatDelta) && currentTemperature == old(currentTemperature)
    {
      if payload.None? {
        return Failure(ValueError);
      }
      targetTemperature := payload;
      var _ := UpdateTemperatureBounds();
      currentOperation := OperationFor(payload.value);
      BoundsOrdered(payload.value, heatDelta);
      return Success(());
    }

    /**
     * `heat_delta_received`: `int(payload)` is stored and both bounds
     * recomputed; before any target the recomputation raises after high is
     * set.
     */
    method HeatDeltaMessage(payload: string) returns (r: Result<(), Exception>)
      modifies this
      ensures ParseInt(payload).None? ==>
        && r == Failure(ValueError) && heatDelta == old(heatDelta)
        && targetTemperatureHigh == old(targetTemperatureHigh) && targetTemperatureLow == old(targetTemperatureLow)
      ensures ParseInt(payload).Some? ==>
        && heatDelta == ParseInt(payload).value
        && targetTemperatureHigh == targetTemperature
        && (targetTemperature.None? ==> r == Failure(TypeError) && targetTemperatureLow == old(targetTemperatureLow))
        && (targetTemperature.Some? ==>
              r == Success(()) && targetTemperatureLow == Some(BoundsFor(targetTemperature.value, heatDelta).low))
      ensures targetTemperature == old(targetTemperature) && currentOperation == old(currentOperation)
      ensures currentTemperature == old(currentTemperature)
    {
      var value := ParseInt(payload);
      if value.None? {
        return Failure(ValueError);
      }
      heatDelta := value.value;
      r := UpdateTemperatureBounds();
    }

    /**
     * `async_set_temperature`: the stored target is not changed; the bounds
     * are recomputed from the previous target (raising, and then sending
     * nothing, while it is unset) and the requested temperature is sent.
     */
    method SetTemperature(temperature: Option<real>) returns (r: Result<Publish, Exception>)
      modifies this
      ensures targetTemperature == old(targetTemperature) && targetTemperatureHigh == targetTemperature
      ensures old(targetTemperature).None? ==> r == Failure(TypeError) && targetTemperatureLow == old(targetTemperatureLow)
      ensures old(targetTemperature).Some? ==>
        && r == Success(Publish(discoveryPrefix + "commands/SetDHWTemp", temperature))
        && targetTemperatureLow == Some(BoundsFor(old(targetTemperature).value, heatDelta).low)
      ensures heatDelta == old(heatDelta) && currentOperation == old(currentOperation)
      ensures currentTemperature == old(currentTemperature)
    {
      var bounds := UpdateTemperatureBounds();
      if bounds.Failure? {
        return Failure(bounds.error);
      }
      return Success(Publish(discoveryPrefix + "commands/SetDHWTemp", temperature));
    }

    /** `async_set_operation_mode`: eco sends 52.0, high demand 60.0, anything else nothing. */
    method SetOperationMode(mode: string) returns (r: Result<Option<Publish>, Exception>)
      modifies this
      ensures OperationTemperature(mode).None? ==>
        && r == Success(None)
        && targetTemperatureHigh == old(targetTemperatureHigh) && targetTemperatureLow == old(targetTemperatureLow)
      ensures OperationTemperature(mode).Some? ==>
        && targetTemperatureHigh == targetTemperature
        && (old(targetTemperature).None? ==> r == Failure(TypeError))
        && (old(targetTemperature).Some? ==>
              r == Success(Some(Publish(discoveryPrefix + "commands/SetDHWTemp", OperationTemperature(mode)))))
      ensures targetTemperature == old(targetTemperature) && heatDelta == old(heatDelta)
      ensures currentOperation == old(currentOperation) && currentTemperature == old(currentTemperature)
    {
      var temp := OperationTemperature(mode);
      if temp.None? {
        return Success(None);
      }
      var sent := SetTemperature(temp);
      if sent.Failure? {
        return Failure(sent.error);
      }
      return Success(Some(sent.value));
    }
  }
}
