# HeishaMon / Aquarea integration core in Dafny

This project models the sequential logic inside the Home Assistant integration for Panasonic Aquarea heat pumps. The heat pumps are read and driven through a HeishaMon MQTT bridge. It covers these parts:

- **Command retry** (`CommandRetryMixin`). An entity keeps at most one command waiting for confirmation. A newer command replaces it. A state update with a matching value confirms it, and numbers may match within a tolerance. Each time the retry timer expires, the command is either re-sent (at most three times) or counted as failed. Diagnostic counters and attributes sit beside this.
- **Multi-topic sensors** (`MultiMQTTSensorEntity`). There is one slot per MQTT topic. Each message overwrites its topic's slot, and the derived value is then recomputed from all slots. Two combiners exist:
  - `extract_sum`: the sum of the first group of three slots that has any value.
  - `compute_cop`: a coefficient of performance with a defrost guard, a zero-consumption guard and a clamp at 15.
- **Discovery listeners.** The s0 and 1-wire listeners keep the device ids seen so far in a sorted list without duplicates. A new id asks for new sensor entities. The listeners are modelled once, for both integrations.
- **Value codecs.** These cover:
  - the operating-mode flag combinations and their text and integer tables;
  - reverse dictionary lookup;
  - the zone, powerful-mode, quiet-mode and solar-mode codecs;
  - the bit, valve and heating-mode decoders;
  - the shift-or-direct range guess for number entities.
- **The DHW climate entity.** HEAT or OFF is derived from the operating mode. HEAT sends the mode with DHW added; OFF follows its table as written, which sends the wrong code for modes 4 and 5 (see Findings). Presets follow the target temperature.
- **The DHW water heater.** Target bounds come from the heat delta. Eco or high-demand operation follows the target.
- **The firmware update entity.** It detects the installed version from the topics the device publishes, strips the release tag, and builds the release notes.
- **The configuration flow.** It derives the topic prefix from an MQTT discovery message and applies the unique-id and abort rules.

Python semantics are written out where they matter:

- A dict is its items in insertion order (`Definitions.Dict`).
- Module `PyText` defines `str.split`, `str.join`, `str.replace` and `str.endswith`, string comparison by code point, `int()` on decimal text, `str()` of an int, and `int()` of a float, which truncates toward zero.
- Exceptions are `Failure` values of `Wrappers.Result`.
- Entities whose fields the source assigns step by step are classes. Their methods state the new values of those fields.
- The retry tracker and the firmware entity also expose a `State()` value. Their methods are tied to pure transition functions, and lemmas over event sequences prove what the source promises across many calls.

Things outside the program become parameters:

- The asyncio timer is an explicit expiry event, and the random jitter is a parameter in [-1, 1].
- Clocks, the outcome of a retry callback, and the set of already configured entry ids are parameters.
- A payload that `float()` rejects is `None`.
- The defrost test in `compute_cop` is an abstract predicate on slot 0.

## Model

| member | source | states |
|---|---|---|
| PyText.Split | custom_components/heishamon/sensor.py:331 | `str.split(sep)` yields at least one part and no part contains the separator. |
| PyText.JoinSplit | custom_components/heishamon/sensor.py:379 | Joining the parts of a split with the same separator gives back the original text. |
| PyText.SplitJoin | custom_components/aquarea/sensor.py:225-253 | Splitting a join of parts that are free of the separator gives back exactly those parts. |
| PyText.LastPartIsSuffix | custom_components/aquarea/sensor.py:308 | `split("/")[-1]` is a suffix of the topic that contains no "/", and it is preceded by a "/" or is the whole topic. |
| PyText.RemoveAllOfSuffix | custom_components/heishamon/config_flow.py:42 | Removing every occurrence of a pattern that occurs only as the final suffix leaves exactly the prefix. |
| PyText.BelowTotal | custom_components/heishamon/sensor.py:378 | Python string order is total: two distinct strings compare one way or the other. |
| PyText.ParseIntToString | custom_components/aquarea/climate.py:129 | `int(str(n)) == n` for every integer. |
| PyText.Trunc | custom_components/aquarea/climate.py:116 | `int(x)` of a float truncates toward zero. |
| Definitions.Get | custom_components/aquarea/definitions.py:61-62 | `dict.get` yields None exactly when no item has the key, and otherwise the value of an item with that key. |
| Definitions.LookupByValue | custom_components/aquarea/definitions.py:142-146 | The result is None exactly when no item has the value; otherwise it is the key of the first such item in insertion order. |
| Definitions.LookupByValueDistinct | custom_components/aquarea/definitions.py:142-146 | When the values are distinct, the reverse lookup of an item's value is that item's key. |
| Definitions.TablesAgree | custom_components/aquarea/definitions.py:43-78 | Both tables list the same nine combinations in the same order, with codes 0..8 and distinct keys and texts. |
| Definitions.ModeToInt | custom_components/aquarea/definitions.py:78-79 | `int(mode)` succeeds exactly on the nine tabulated combinations, with the code the table gives; otherwise it is a KeyError. |
| Definitions.FromInt | custom_components/aquarea/definitions.py:91-97 | A code is accepted exactly when it is in 0..8, and then yields the combination the table pairs with it. |
| Definitions.MqttRoundTrip | custom_components/aquarea/definitions.py:64-100 | `from_mqtt(m.to_mqtt()) == m` for every tabulated combination; `to_mqtt` fails on the others. |
| Definitions.FromMqttCodes | custom_components/aquarea/definitions.py:91-97 | `from_mqtt(str(n))` succeeds exactly for n in 0..8, with the table's combination; any other integer raises. |
| Definitions.StrRoundTrip | custom_components/aquarea/definitions.py:43-88 | `from_str(str(m)) == m` for every tabulated combination. |
| Definitions.FromStrAcceptsOptions | custom_components/aquarea/definitions.py:81-88 | `from_str` accepts exactly the nine select options and raises on any other text. |
| Definitions.SelectRoundTrip | custom_components/aquarea/definitions.py:103-109 | Option → payload → option and code → option → code both round-trip through `operating_mode_to_state` and `read_operating_mode_state`. |
| Definitions.ZoneRoundTrip | custom_components/aquarea/definitions.py:112-127 | `zone_state_to_mqtt(read_zones_state(k)) == k` for "0", "1", "2"; any other code reads as "Unknown zone state value: k", which has no code. |
| Definitions.PowerModeRoundTrip | custom_components/aquarea/definitions.py:128-135 | `set_power_mode_time(read_power_mode_time(k)) == k` for "0".."3"; other codes read as "Unknown powerful mode: k", which has no code. |
| Definitions.BitToBool | custom_components/aquarea/definitions.py:233-239 | The result is True exactly for "1", False exactly for "0", and None for anything else. |
| Definitions.ReadThreewayValve | custom_components/aquarea/definitions.py:149-156 | "0" decodes as Room and "1" as Tank, each exactly; other codes give None. |
| Definitions.ReadHeatingMode | custom_components/aquarea/definitions.py:593-598 | "0" decodes as compensation curve and "1" as direct, each exactly; other codes give None. |
| Definitions.ReadSolarMode | custom_components/aquarea/definitions.py:255-258 | Code "0" gives "Disabled", "1" gives "Buffer" and "2" gives "DHW"; any other code gives "Unknown solar mode: v". |
| Definitions.QuietModeRoundTrip | custom_components/aquarea/definitions.py:242-267 | `write_quiet_mode(read_quiet_mode(v)) == int(v)` (raising where `int` raises) for any payload that is not one of the two names; each of the five options is written as a code that reads back as that option. |
| Definitions.GuessShiftOrDirectAndClampMinMaxValues | custom_components/aquarea/definitions.py:284-293 | The bounds become min/max of range1 when it holds the value, else of range2 when that holds it, else they are unchanged; a clamped value lies inside its new bounds. |
| Retry.ValuesMatchPolicy | custom_components/aquarea/retry_mixin.py:109-122 | The tolerance applies only when one is given and both values are numeric: the match is then `\|a−b\| ≤ tol`; otherwise it is plain equality. Equal values always match, and the test is symmetric. |
| Retry.CalculateRetryDelay | custom_components/aquarea/retry_mixin.py:132-140 | The delay lies in [RETRY_TIMEOUT − RETRY_JITTER/2, RETRY_TIMEOUT + RETRY_JITTER/2] = [9, 11]. |
| Retry.InitialInvariant | custom_components/aquarea/retry_mixin.py:41-48 | The freshly initialised tracker satisfies the tracker invariant. |
| Retry.CancelPending | custom_components/aquarea/retry_mixin.py:189-195 | Cancelling clears the command and its timer, leaves the counters alone, and is harmless when nothing is pending. |
| Retry.Register | custom_components/aquarea/retry_mixin.py:50-85 | Registering keeps the tracker invariant. |
| Retry.Verify | custom_components/aquarea/retry_mixin.py:87-107 | Confirmation keeps the tracker invariant. |
| Retry.Expire | custom_components/aquarea/retry_mixin.py:142-187 | A timer expiry keeps the tracker invariant: the retry count stays ≤ 3, a timer is armed only for a pending command, and a last retry time is recorded exactly once some retry happened. |
| Retry.Step | custom_components/aquarea/retry_mixin.py:50-200 | Every event, removal included, keeps the tracker invariant. |
| Retry.RunKeepsInvariantAndCounters | custom_components/aquarea/retry_mixin.py:142-187 | Along any events the invariant holds and the failed count never decreases. The retry total grows by exactly the number of callback invocations. |
| Retry.RetryCap | custom_components/aquarea/retry_mixin.py:151-178 | While callbacks succeed and nothing confirms, expiries re-send until three retries are done. The next expiry counts the command as failed once and clears it. Later expiries do nothing. |
| Retry.QuietExpiriesIdle | custom_components/aquarea/retry_mixin.py:142-150 | With no retry task waiting, expiries change nothing and re-send nothing. |
| Retry.NeverConfirmed | custom_components/aquarea/retry_mixin.py:50-187 | A command that is never confirmed is re-sent exactly 3 times and counted as failed exactly once. |
| Retry.RegisterSupersedes | custom_components/aquarea/retry_mixin.py:63-85 | After registering, exactly the new command is pending, with retry count 0 and a fresh timer; the counters are unchanged; the new value confirms it and an unmatched old value does not. |
| Retry.ConfirmationClears | custom_components/aquarea/retry_mixin.py:93-107 | With nothing pending an update is a no-op; a matching value clears the command and its timer; any other value changes nothing. |
| Retry.ExpiryCases | custom_components/aquarea/retry_mixin.py:148-187 | One expiry: nothing is pending, or a command that has had 3 retries is failed and cleared, or the count and total both grow by one and the retry time is recorded. In the last case a new timer is armed exactly when the callback did not raise. |
| Retry.ExtraStateAttributes | custom_components/aquarea/retry_mixin.py:203-225 | Total, failed and pending-flag are always present. Pending value and attempts are present exactly when a command is pending, and the last retry time exactly after a first retry. Parent attributes are kept unless a retry key overrides them. |
| Retry.CommandRetryTracker.constructor | custom_components/aquarea/retry_mixin.py:41-48 | Nothing is pending, no timer is armed, and the counters are zero. |
| Retry.CommandRetryTracker.CancelPendingCommand | custom_components/aquarea/retry_mixin.py:189-195 | The new state is `CancelPending` of the old one. |
| Retry.CommandRetryTracker.ScheduleRetry | custom_components/aquarea/retry_mixin.py:124-130 | Any armed timer is replaced by one with a fresh delay; nothing else changes. |
| Retry.CommandRetryTracker.RegisterCommand | custom_components/aquarea/retry_mixin.py:50-85 | The new state is `Register` of the old one, and the invariant is kept. |
| Retry.CommandRetryTracker.VerifyCommandConfirmation | custom_components/aquarea/retry_mixin.py:87-107 | The new state is `Verify` of the old one, and the invariant is kept. |
| Retry.CommandRetryTracker.ExecuteRetry | custom_components/aquarea/retry_mixin.py:142-187 | The new state is `Expire` of the old one. The callback is invoked exactly when a command with fewer than 3 retries is pending. |
| Retry.CommandRetryTracker.WillRemoveFromHass | custom_components/aquarea/retry_mixin.py:197-200 | Removal always cancels: afterwards nothing is pending and no timer is armed. |
| Aggregation.ExtractSumFirstGroup | custom_components/heishamon/sensor.py:225-232 | When group k is the first group of three with a present value, the result is the sum of that group's present values. |
| Aggregation.ExtractSumAllMissing | custom_components/heishamon/sensor.py:233-234 | When every slot is missing the result is 0. |
| Aggregation.ExtractSumPrefix | custom_components/heishamon/sensor.py:225-232 | Groups after the first group with a value are ignored: appending slots does not change the sum. |
| Aggregation.Round2 | custom_components/heishamon/sensor.py:222 | Rounding to two decimals moves a value by at most half a hundredth and never lifts a value ≤ 15 above 15. |
| Aggregation.CopOf | custom_components/heishamon/sensor.py:215-222 | Zero consumption gives 0, and a ratio above 15 gives 0. Otherwise the result is the ratio rounded to two decimals, so it is never above 15. |
| Aggregation.ComputeCop | custom_components/heishamon/sensor.py:204-214 | No slots is an IndexError. A true defrost slot gives −1 whatever the other slots hold. Otherwise anything but 24 further slots fails the assertion. A success is never above 15. |
| Aggregation.CopSlicesFollowTotals | custom_components/heishamon/sensor.py:209-214 | The COP topic list has 25 topics with defrost first. The production and consumption slices pick the Extra, extra, main and legacy totals in that priority order. |
| Aggregation.CopAgreesWithTotals | custom_components/heishamon/sensor.py:204-222 | Outside defrost, the COP over the COP topics equals `CopOf` of the production and consumption sums computed over their own topic lists. |
| Aggregation.IndexOf | custom_components/heishamon/sensor.py:290 | `list.index` returns the first position holding the topic. |
| Aggregation.MultiMqttSensor.Init | custom_components/heishamon/sensor.py:267-274 | One slot per topic, all missing, and no value yet. |
| Aggregation.MultiMqttSensor.Create | custom_components/heishamon/sensor.py:267-274 | A missing or empty topic list is exactly the ValueError case; otherwise a sensor with one empty slot per topic. |
| Aggregation.MultiMqttSensor.MessageReceived | custom_components/heishamon/sensor.py:281-291 | Only the slot of the topic's index changes, and the value is recomputed from the whole vector. An unknown topic or an unparsable payload raises and changes nothing. |
| Listing.Insert | custom_components/heishamon/sensor.py:377-378 | Inserting adds exactly the new id to the multiset of ids. |
| Listing.InsertSorted | custom_components/heishamon/sensor.py:377-378 | Inserting a new id into a sorted list keeps it sorted. |
| Listing.SortedIsUnique | custom_components/heishamon/sensor.py:378 | Two sorted lists holding the same ids are equal, so `sort()` has one possible outcome. |
| Listing.AppendThenSort | custom_components/heishamon/sensor.py:377-378 | Any sorted arrangement of `known + [id]` is `Insert(known, id)`. |
| Listing.KnownAfterIsSortedSetOfIds | custom_components/heishamon/sensor.py:330-380 | In any arrival order, with any repeats, the known list is sorted and duplicate-free and holds exactly the ids seen. |
| Listing.S0Sensors | custom_components/aquarea/sensor.py:227-253 | A new s0 input yields three sensors, with topic ids "s0-id-watthour", "s0-id-totalwatthour" and "s0-id-watt" in that order; their keys are stated by Listing.S0KeysSplitBack. |
| Listing.S0KeysSplitBack | custom_components/aquarea/sensor.py:225-253 | The keys are base/s0/Watthour/id, base/s0/WatthourTotal/id and base/s0/Watt/id, each splitting back into those four parts. |
| Listing.S0KeySplitsBack | custom_components/aquarea/sensor.py:228-253 | For base, s0 and id segments without "/", sensor n's key splits into base, s0, its kind (Watthour, WatthourTotal or Watt) and id. |
| Listing.S0Detector.constructor | custom_components/aquarea/sensor.py:217 | The known list starts empty. |
| Listing.S0Detector.MessageReceived | custom_components/aquarea/sensor.py:224-270 | A topic without exactly four parts is a ValueError. A known id changes nothing. A new id yields its three sensors and is inserted. The list stays sorted, and the value shown is the list joined by ", ". |
| Listing.DallasListSensor.constructor | custom_components/aquarea/sensor.py:300 | The known list starts empty. |
| Listing.DallasListSensor.MessageReceived | custom_components/aquarea/sensor.py:307-329 | The id is the text after the last "/". A known id changes nothing. For a new id, a payload `float()` rejects raises first. Otherwise the sensor is created with the reading, the id is inserted, the list stays sorted, and it is shown joined by ", ". |
| Climate.CodeKeyLookup | custom_components/aquarea/climate.py:156-168 | A table keyed by `str(0)`..`str(8)` has an entry for a stored mode exactly when it is in 0..8. |
| Climate.TableCodeDefinedOnCodes | custom_components/aquarea/climate.py:145-168 | Every table lookup fails with KeyError exactly for modes outside 0..8, such as the initial −1. |
| Climate.HeatStatesAreDhwModes | custom_components/aquarea/climate.py:128-135 | The codes shown as HEAT, 3, 4, 5, 6 and 8, are exactly the modes that include DHW. |
| Climate.HeatTableAddsDhw | custom_components/aquarea/climate.py:145-156 | For each code 0..8, HEAT sends the same mode with DHW added. The result is in {3,4,5,6,8}, and codes already in that set map to themselves. |
| Climate.OffTableRemovesDhw | custom_components/aquarea/climate.py:157-168 | With the corrected table, OFF sends the mode with DHW removed for every code but 3, is the identity on {0,1,2,7}, and yields a code outside the HEAT set except for 3. |
| Climate.OffUndoesHeat | custom_components/aquarea/climate.py:145-168 | OFF after HEAT gives back the original code for every mode without DHW. |
| Climate.OffTableAsWrittenMisroutes | custom_components/aquarea/climate.py:163-164 | The table as written turns Heat+DHW (4) into Cool only (1) and Cool+DHW (5) into Auto(Heat) (2). |
| Climate.PresetFor | custom_components/aquarea/climate.py:113-118 | The preset is eco exactly at truncated 52, comfort exactly at 60, and none otherwise. |
| Climate.PresetCommand | custom_components/aquarea/climate.py:88-95 | Eco sends 52.0, comfort sends 60.0, and any other preset sends nothing. |
| Climate.DhwClimate.constructor | custom_components/aquarea/climate.py:67-73 | The operating mode starts at −1, hvac mode OFF and preset eco. |
| Climate.DhwClimate.CurrentTemperatureMessage | custom_components/aquarea/climate.py:101-103 | The current temperature is stored; an unparsable payload raises and changes nothing. |
| Climate.DhwClimate.TargetTemperatureMessage | custom_components/aquarea/climate.py:113-118 | The target is stored and the preset set from it. |
| Climate.DhwClimate.OperatingStateMessage | custom_components/aquarea/climate.py:128-135 | The integer is recorded, and the hvac mode is HEAT exactly when it is in {3,4,5,6,8}, OFF otherwise. A non-integer payload raises. |
| Climate.DhwClimate.SetHvacMode | custom_components/aquarea/climate.py:144-186 | HEAT sends the HEAT table's code for the stored mode and OFF the OFF table's code as written (4 gives 1 and 5 gives 2), or fail with KeyError outside 0..8. Other modes raise TypeError. After a success the hvac mode shown is the requested one. |
| Climate.DhwClimate.SetTemperature | custom_components/aquarea/climate.py:75-86 | The requested temperature is sent as the DHW target. |
| Climate.DhwClimate.SetPresetMode | custom_components/aquarea/climate.py:88-95 | Eco sends 52.0, comfort sends 60.0, and unknown presets are ignored. |
| WaterHeater.BoundsFor | custom_components/aquarea/water_heater.py:111-115 | High equals the target and low equals target + heat delta. |
| WaterHeater.BoundsOrdered | custom_components/aquarea/water_heater.py:111-115 | Low ≤ high exactly when the heat delta is ≤ 0. |
| WaterHeater.OperationFor | custom_components/aquarea/water_heater.py:133-139 | The operation is eco exactly at truncated 52, high_demand exactly at 60, and "none" otherwise. |
| WaterHeater.OperationTemperature | custom_components/aquarea/water_heater.py:102-109 | Eco gives 52.0, high_demand gives 60.0, and any other mode gives nothing. |
| WaterHeater.DhwWaterHeater.constructor | custom_components/aquarea/water_heater.py:52-55 | The target and both bounds start unset, the heat delta at 0, and the operation at eco. |
| WaterHeater.DhwWaterHeater.UpdateTemperatureBounds | custom_components/aquarea/water_heater.py:111-115 | High is set to the target. Low becomes target + delta, or TypeError while the target is unset. |
| WaterHeater.DhwWaterHeater.CurrentTemperatureMessage | custom_components/aquarea/water_heater.py:121-123 | The current temperature is stored; an unparsable payload raises. |
| WaterHeater.DhwWaterHeater.TargetTemperatureMessage | custom_components/aquarea/water_heater.py:133-139 | The target is stored, both bounds are recomputed from it, and the operation is set. The bounds are ordered exactly when the delta is ≤ 0. |
| WaterHeater.DhwWaterHeater.HeatDeltaMessage | custom_components/aquarea/water_heater.py:149-152 | The integer delta is stored and both bounds are recomputed. A non-integer payload raises. |
| WaterHeater.DhwWaterHeater.SetTemperature | custom_components/aquarea/water_heater.py:88-100 | The stored target is unchanged, the bounds are recomputed from the previous target, and the requested value is sent. |
| WaterHeater.DhwWaterHeater.SetOperationMode | custom_components/aquarea/water_heater.py:102-109 | Eco sends 52.0, high_demand sends 60.0, and any other mode is ignored. |
| FirmwareUpdate.TopicsDistinct | custom_components/aquarea/update.py:84-87 | The 3.2 marker, the legacy marker and the stats topic differ for every prefix. |
| FirmwareUpdate.ReceiveCases | custom_components/aquarea/update.py:98-111 | The 3.2 marker sets "3.2" and the legacy marker sets "<= 3.1". A stats version sets itself and the flag True; without one, the flag becomes False and the version stays. Other topics change nothing. |
| FirmwareUpdate.FlagOnceSetStaysSet | custom_components/aquarea/update.py:106-116 | The flag never returns to None. From None it is set exactly when some stats message decoded, so nothing is written before that. |
| FirmwareUpdate.StripTag | custom_components/aquarea/update.py:152 | Exactly one leading "v" is removed, and a tag without one is kept. |
| FirmwareUpdate.StripTagOnce | custom_components/aquarea/update.py:152 | At most one "v" goes: "vv1" becomes "v1". |
| FirmwareUpdate.FirmwareUpdateEntity.constructor | custom_components/aquarea/update.py:84-92 | No version and no flag yet, the release page of the firmware repository, and no notes. |
| FirmwareUpdate.FirmwareUpdateEntity.MessageReceived | custom_components/aquarea/update.py:98-116 | The new state is `Receive` of the old one. A stats payload that does not decode raises. Otherwise the state is written exactly when the flag is set. |
| FirmwareUpdate.FirmwareUpdateEntity.UpdateLatestRelease | custom_components/aquarea/update.py:146-155 | An empty release list raises on `releases[0]`. Otherwise the latest version is the first tag without its "v", with that release's page and notes. |
| FirmwareUpdate.FirmwareUpdateEntity.ReleaseNotes | custom_components/aquarea/update.py:157-160 | The notes are always the fixed warning header followed by the stored notes, or by "None". |
| ConfigFlow.UniqueIdOf | custom_components/heishamon/config_flow.py:45 | The unique id is "aquarea-" followed by the prefix. |
| ConfigFlow.PrefixOfDiscoveryTopic | custom_components/heishamon/config_flow.py:39-42 | A topic made of a prefix and the marker, with no other marker, ends with the marker and yields exactly that prefix. |
| ConfigFlow.PrefixWithoutCapitalH | custom_components/heishamon/config_flow.py:39-42 | Any prefix without a capital H is recovered exactly from prefix + "main/Heatpump_State". |
| ConfigFlow.PrefixRemovesEveryMarker | custom_components/heishamon/config_flow.py:42 | Removal is global: a leading marker is removed as well as the suffix. |
| ConfigFlow.LegacyBlocksDefaultPrefix | custom_components/heishamon/config_flow.py:46-54 | When a legacy "aquarea" entry exists, the default topic counts as already configured. |
| ConfigFlow.BareMarkerHasEmptyPrefix | custom_components/heishamon/config_flow.py:39-65 | The bare marker topic passes the suffix test and yields the empty prefix. |
| ConfigFlow.FlowHandler.constructor | custom_components/heishamon/config_flow.py:31 | The prefix starts unset. |
| ConfigFlow.FlowHandler.StepMqtt | custom_components/heishamon/config_flow.py:34-57 | A topic without the suffix aborts with invalid_discovery_info. Otherwise the prefix is stored. A taken id, including the legacy rule, aborts with instance_already_configured. A new id is set, then confirmation runs without input. |
| ConfigFlow.FlowHandler.StepConfirm | custom_components/heishamon/config_flow.py:59-79 | An unset or empty prefix aborts with unsupported_manual_setup. Without input the form is shown. With input the entry is created, with data exactly {discovery_prefix: prefix}. |

## Left out

- MQTT subscription and publishing, `async_write_ha_state`, entity and platform lifecycle, device registry and logging: external platform calls. Messages are method calls here, and a publish is a returned command value.
- The asyncio tasks of the retry mechanism: the timer is an expiry event and the jitter a parameter. Concurrency between the task and other handlers is not modelled. A `CancelledError` inside a retry is the cancellation the model already performs.
- Retry.CommandRetryTracker.ExecuteRetry: the retry callback is not executed; only whether it was invoked and whether it raised is modelled.
- Floating point: `float(payload)` parsing is abstracted as an optional real, and the COP division is exact on reals.
- Aggregation.Round2: Python's `round(x, 2)` on binary floats resolves ties differently from the half-up rounding modelled; only the ±0.005 bound and the clamp at 15 are stated.
- Aggregation.ComputeCop: the defrost test is a parameter. The slots hold floats, while `bit_to_bool` compares strings, so whether the guard ever fires is not decided here.
- ConfigFlow.FlowHandler.StepMqtt: setting the unique id also aborts with "already_in_progress" when another flow with the same id is running; flows other than this one are outside the model.
- PyText.ParseInt: Python's `int()` also accepts surrounding whitespace, a leading "+" and digit separators "_" and non-ASCII Unicode decimal digits (such as "٣"); the model accepts only an optional "-" followed by decimal digits.
- JSON decoding of the stats payload is given already decoded (`FirmwareUpdate.StatsPayload`). A payload that decodes to a non-object raises in `.get`, and it is grouped with undecodable payloads.
- The HTTP request for the release list in `update.py` (status and body are parameters; the aiohttp session is not modelled).
- Climate: the warning `climate.py:169` intends for code 3 never fires, because it compares a str with the int 3. Logging is not modelled, so only this note records it.
- The climate entity subscribes to fixed `panasonic_heat_pump/...` topics rather than to its discovery prefix. Topics are not part of that entity's model.
- `str(float)` formatting of a sent temperature: the value is kept as a real.
- The Jinja template sensors and `IntegrationSensor` energy totals, whose meaning lives in Home Assistant.
- The glue entity files (numbers, switches, selects, binary sensors, buttons, the reboot request) and the declarative description tables: they only transform and publish payloads.
- `heishamon/definitions.py`, which is stale and unused by the modelled code.

## Findings

| source | as written | input that shows it | evidently intended | confidence | as-written member | corrected member |
|---|---|---|---|---|---|---|
| custom_components/aquarea/climate.py:163-164 | The OFF table maps "4" to "1" and "5" to "2". | Operating mode 4 (Heat+DHW) switched OFF sends 1 (Cool only); mode 5 (Cool+DHW) sends 2 (Auto(Heat)). | OFF removes DHW from the current mode and undoes HEAT: 4 → 0 (Heat only), 5 → 1 (Cool only). | not executed | Climate.OffTableAsWrittenMisroutes | Climate.OffTableRemovesDhw |
