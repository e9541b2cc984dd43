# TerraPi control core in Dafny

TerraPi runs a terrarium from a Raspberry Pi. Sensors are read once a
second. A *mode* assigns each control (a relay: light, heater, fan) either a
fixed ON/OFF state or a thermostat. The mode is chosen by hand over MQTT or
by a daily *planning* of periods. The configuration can be validated,
persisted and hot-reloaded over MQTT.

This project models the deterministic core of both generations of the
controller: the `backend/terrapi` package and the older top-level `terrapi`
package. The clock, the sensor readings and the outcome of each file write
are parameters. The models are:

- `PyValues`, `PyText`: the Python values the core handles (None, bools,
  numbers, strings, lists, insertion-ordered dicts), truthiness, `in`,
  subscripting, `dict.get`/assignment, `str.split`/`strip`, `int()` and
  `float()` on strings.
- `ConfigLoader` (`backend/terrapi/config_loader.py`):
  - the `Config` wrapper and its lookup rules;
  - `${VAR}` substitution, with the environment as a map;
  - `process_config`;
  - registry-based instantiation of sensors and controls.
- `ConfigManager` (`backend/terrapi/config_manager.py`):
  - validation of the modes and planning sections, including `H:M` time
    parsing;
  - validate-then-persist updates;
  - the dispatch of `apply_config_update` and its in-memory hot reload.
- `Thermostat` (`backend/terrapi/thermostat.py`): the symmetric hysteresis
  thermostat as a class with its relay bit, plus dead-band and no-chatter
  lemmas.
- `LegacyThermostat` (`terrapi/thermostat.py`): the asymmetric, strict,
  initially undecided thermostat, plus its agreement with the newer one.
- `TerraHandler` (`backend/terrapi/terra_handler.py`):
  - message handling;
  - `get_mode` over minutes of the day (half-open periods that wrap past
    midnight; first match wins);
  - the control part of one tick, with the per-(control, mode) thermostat
    table, as a `Handler` class whose methods are proved against
    specification functions.
- `LegacyTerraHandler` (`terrapi/terra_handler.py`):
  - message handling;
  - a closed-interval, no-wrap schedule over timestamps;
  - the target states applied by a tick.

## Model

| member | source | states |
|---|---|---|
| PyValues.Lookup | backend/terrapi/config_loader.py:26 | `dict.get` finds nothing exactly when the key is absent; a result is a value stored under that key |
| PyValues.LookupAt | backend/terrapi/config_loader.py:26 | in a dict without repeated keys, the entry at position i is what looking up its key finds |
| PyValues.Put | backend/terrapi/config_manager.py:205-206 | dict assignment overwrites an existing key in place (same length, same key order, other entries untouched) and appends a new key at the end |
| PyValues.Contains | backend/terrapi/config_manager.py:115-123 | `in` is key membership on a dict, substring on a string, element on a list, and a TypeError on anything else |
| PyValues.Index | backend/terrapi/config_manager.py:122 | subscripting succeeds exactly on a dict holding the key, giving its value; a dict without it raises KeyError, a non-dict TypeError |
| PyText.BlankIffAllSpace | backend/terrapi/config_manager.py:95 | `not name.strip()` holds exactly when every character is whitespace |
| PyText.LStripRemovesLeading | backend/terrapi/config_manager.py:95 | `lstrip` removes a prefix made only of whitespace and leaves a result that does not start with whitespace |
| PyText.RStripRemovesTrailing | backend/terrapi/config_manager.py:95 | `rstrip` removes a suffix made only of whitespace and leaves a result that does not end with whitespace |
| PyText.Split | backend/terrapi/config_manager.py:130 | `split(':')` always yields at least one part |
| PyText.SplitJoin | backend/terrapi/config_manager.py:130 | joining the parts with the separator gives the string back |
| PyText.SplitNoSep | backend/terrapi/config_manager.py:130 | a string without the separator splits into itself alone |
| PyText.SplitAtFirst | backend/terrapi/terra_handler.py:222-223 | splitting `a + sep + b`, where `a` has no separator, gives `a` followed by the parts of `b` |
| PyText.TwoDigits | backend/terrapi/config_manager.py:133 | a zero-padded two-digit rendering consists of two digits and no colon |
| PyText.ParseTwoDigits | backend/terrapi/config_manager.py:133 | `int()` of a two-digit rendering gives the number back |
| ConfigLoader.Config.GetAttr | backend/terrapi/config_loader.py:22-32 | `__getattr__`: a private name, a missing key or a None value raises AttributeError, and a dict comes back wrapped; GetAttrRaises and AccessorsAgree state it |
| ConfigLoader.Config.GetItem | backend/terrapi/config_loader.py:34-38 | `__getitem__`: a missing key raises KeyError, and None comes back as None; AccessorsAgree and NestedRoundTrip state it |
| ConfigLoader.Config.HasAttr | backend/terrapi/terra_handler.py:272 | `hasattr(config, name)` holds exactly when attribute access does not raise; GetAttrRaises states when that is |
| ConfigLoader.Config.KeyList | backend/terrapi/config_loader.py:46-47 | `keys()`: the keys in insertion order; ReadPeriods reads one period per key in this order |
| ConfigLoader.Config.ToDict | backend/terrapi/config_loader.py:56-58 | `to_dict()` gives the wrapped dict back; Wrap and NestedRoundTrip state that a wrapped value round-trips |
| ConfigLoader.Config.Get | backend/terrapi/config_loader.py:40-44 | `get`: the stored value or the default, wrapped when it is a dict; AccessorsAgree states it |
| ConfigLoader.Wrap | backend/terrapi/config_loader.py:30-32 | a dict value comes back wrapped, and `to_dict` on the wrapper gives the dict back; any other value comes back as it is |
| ConfigLoader.GetAttrRaises | backend/terrapi/config_loader.py:22-28 | attribute access raises AttributeError exactly for a private name, a missing key, or a key holding None |
| ConfigLoader.AccessorsAgree | backend/terrapi/config_loader.py:22-44 | attribute access, indexing and `get` agree on a key holding a non-None value; on a None value only attribute access raises; on a missing key indexing raises KeyError and `get` gives the (wrapped) default |
| ConfigLoader.NestedRoundTrip | backend/terrapi/config_loader.py:34-58 | a nested dict read by indexing is wrapped, and `to_dict` on it is the stored dict |
| ConfigLoader.CloseBrace | backend/terrapi/config_loader.py:66 | the position found is the first `}` of the string; none is found exactly when there is no `}` |
| ConfigLoader.Substitute | backend/terrapi/config_loader.py:66-75 | `re.sub` of `${NAME}` placeholders, left to right; SubstitutePlainPrefix, SubstitutePlaceholder and SubstituteRenders state what it does |
| ConfigLoader.SubstituteEnvVars | backend/terrapi/config_loader.py:61-64 | a value that is not a string is returned unchanged; a string stays a string |
| ConfigLoader.SubstitutePlainPrefix | backend/terrapi/config_loader.py:66-75 | text without `$` passes through the substitution unchanged |
| ConfigLoader.SubstituteCopiesPlainChar | backend/terrapi/config_loader.py:66-75 | a character other than `$` at the front is copied to the output unchanged |
| ConfigLoader.CloseBraceAfter | backend/terrapi/config_loader.py:66 | the placeholder name ends at the first `}` after `${` |
| ConfigLoader.SubstitutePlaceholder | backend/terrapi/config_loader.py:66-75 | `${NAME}` (NAME non-empty, without `}`) is replaced by the variable's value, or by `''` when it is unset |
| ConfigLoader.SubstituteRenders | backend/terrapi/config_loader.py:61-75 | a string made of text pieces and placeholders is rendered piece by piece: text kept, each placeholder replaced by its value |
| ConfigLoader.ProcessConfig | backend/terrapi/config_loader.py:78-86 | the recursion over dicts and lists that substitutes every string leaf; ProcessConfigShape and ProcessConfigIdentity state it |
| ConfigLoader.ProcessConfigShape | backend/terrapi/config_loader.py:78-86 | `process_config` keeps the shape: same dict keys in the same order, same list lengths, non-string leaves unchanged, strings stay strings |
| ConfigLoader.ProcessConfigIdentity | backend/terrapi/config_loader.py:78-86 | a configuration without `$` is returned unchanged |
| ConfigLoader.WithoutKey | backend/terrapi/config_loader.py:109 | the keyword arguments are exactly the fields other than `type` |
| ConfigLoader.InstanceOf | backend/terrapi/config_loader.py:99-110 | one entry: AttributeError, ValueError, TypeError and ValueError in the order of the source's checks; InstanceOfOk states when it succeeds |
| ConfigLoader.InstanceOfOk | backend/terrapi/config_loader.py:99-110 | an entry is built exactly when it is a dict whose `type` is a non-empty registered class name; the class gets every field except `type` |
| ConfigLoader.InstantiateEntries | backend/terrapi/config_loader.py:98-138 | instantiation succeeds exactly when every entry can be built; it then gives one instance per name, in order |
| ConfigLoader.InstantiateFirstError | backend/terrapi/config_loader.py:99-132 | a failure is the exception of the first entry that cannot be built, all entries before it being buildable |
| ConfigLoader.Instantiate | backend/terrapi/config_loader.py:99-125 | a sensors or controls section that is not a dict raises AttributeError |
| ConfigManager.CheckControls | backend/terrapi/config_manager.py:99-101 | a mode's controls are accepted exactly when every state is a bool; a rejection names a control of that mode |
| ConfigManager.CheckMode | backend/terrapi/config_manager.py:95-101 | a mode is accepted exactly when its name is not blank, its value is a dict, and every state in it is a bool |
| ConfigManager.CheckModes | backend/terrapi/config_manager.py:94-103 | the modes are accepted exactly when every mode is |
| ConfigManager.ValidateModes | backend/terrapi/config_manager.py:81-103 | an empty or falsy payload is rejected with "At least one mode is required"; a truthy non-dict raises; acceptance is exactly a non-empty dict of valid modes |
| ConfigManager.ThermostatAssignmentRejected | backend/terrapi/config_manager.py:99-101 | a mode that assigns a dict (a thermostat) to a control is not accepted |
| ConfigManager.ParseClock | backend/terrapi/config_manager.py:130-133 | a time parses only when it splits on `:` into exactly two parts, both accepted by `int()` |
| ConfigManager.ClockTextRoundTrip | backend/terrapi/config_manager.py:127-135 | every zero-padded `HH:MM` time of day parses back to its hour and minute and passes the check |
| ConfigManager.CheckPeriod | backend/terrapi/config_manager.py:123-137 | a period is accepted exactly when it is a dict with start, end and mode and both times are in range; it raises only when it is not a dict |
| ConfigManager.CheckPeriods | backend/terrapi/config_manager.py:122-137 | the periods are accepted exactly when every period is; an exception comes from a period that is not a dict |
| ConfigManager.ValidatePlanning | backend/terrapi/config_manager.py:105-139 | a missing `active` or `default_mode` rejects with its message; `periods` is optional; acceptance is exactly both keys present and every period valid; `in` on a non-container raises TypeError |
| ConfigManager.PlanningWithoutPeriods | backend/terrapi/config_manager.py:115-121 | a planning with both required keys and no periods is accepted, whatever the values (mode names are not checked) |
| ConfigManager.UpdateModes | backend/terrapi/config_manager.py:141-160 | a rejection is returned without writing; an accepted payload is written, and a failed write gives a failure message |
| ConfigManager.UpdatePlanning | backend/terrapi/config_manager.py:162-181 | the same for the planning file |
| ConfigManager.ApplyModes | backend/terrapi/config_manager.py:201-207 | a modes file is written exactly when the payload is accepted and the disk write succeeds; only then is the payload merged into memory |
| ConfigManager.ApplyPlanning | backend/terrapi/config_manager.py:209-217 | a planning file is written exactly when the payload is accepted and stored; only then are the handler's `active` and `default_mode` reloaded; a string or list payload that passes validation raises after the write |
| ConfigManager.ApplyConfigUpdate | backend/terrapi/config_manager.py:183-220 | a missing or falsy section or a None data fails without effect; modes and planning are dispatched; any other section fails as unknown |
| ConfigManager.PersistBeforeReload | backend/terrapi/config_manager.py:195-220 | nothing changes in memory unless the section was written and the update succeeded; a modes update never touches the handler and a planning update never touches the loaded configuration |
| ConfigManager.PutAll | backend/terrapi/config_manager.py:205-206 | assigning every payload mode keeps every mode already loaded |
| ConfigManager.LookupPut | backend/terrapi/config_manager.py:206 | after assigning a key, it looks up to the new value and every other key as before |
| ConfigManager.LookupAppend | backend/terrapi/config_manager.py:206 | a lookup in a concatenation finds the first part's entry when it has one |
| ConfigManager.LookupPutAll | backend/terrapi/config_manager.py:205-206 | after the assignment loop, modes absent from the payload are untouched and each payload mode has the payload's value |
| ConfigManager.InitKeys | backend/terrapi/config_manager.py:205-206 | a payload minus its last entry keeps the other keys, and with distinct keys the last key appears nowhere earlier |
| ConfigManager.MergeModesInto | backend/terrapi/config_manager.py:205-206 | the corrected hot reload: the payload modes assigned into the loaded modes; MergeModesSemantics and MergeModesIdempotent state it |
| ConfigManager.MergeModesSemantics | backend/terrapi/config_manager.py:201-206 | the hot reload is a merge, not a replace: payload modes take their new value, other modes and other sections stay |
| ConfigManager.MergeModesIdempotent | backend/terrapi/config_manager.py:205-206 | applying the same modes payload twice equals applying it once |
| ConfigManager.HotReloadModesAsWritten | backend/terrapi/config_manager.py:206 | the assignment as written always raises: AttributeError without a modes section, TypeError with one |
| ConfigManager.ApplyConfigUpdateAsWritten | backend/terrapi/config_manager.py:183-220 | `apply_config_update` as written, where the modes hot reload raises; ModesUpdateRaisesAfterWrite states the consequence |
| ConfigManager.ModesUpdateRaisesAfterWrite | backend/terrapi/config_manager.py:201-207 | as written, an accepted modes update is written to disk and then raises, with nothing changed in memory |
| Thermostat.NextRelayState | backend/terrapi/thermostat.py:50-68 | the relay state after one reading; CoolingIff, HeatingIff, DeadBandHolds and NoChatter state it |
| Thermostat.Thermostat.constructor | backend/terrapi/thermostat.py:20-33 | a new thermostat holds its settings and starts OFF |
| Thermostat.Thermostat.ComputeState | backend/terrapi/thermostat.py:35-68 | the relay bit becomes the next state for the reading and is returned; the settings are not changed |
| Thermostat.Thermostat.SetState | backend/terrapi/thermostat.py:70-79 | only the relay bit changes, to the given state |
| Thermostat.DeadBandHolds | backend/terrapi/thermostat.py:50-66 | strictly inside the band the relay keeps its state, whatever the action |
| Thermostat.CoolingIff | backend/terrapi/thermostat.py:50-56 | cooling is ON exactly when the reading reaches target+hysteresis, or it was ON and the reading stays above target−hysteresis |
| Thermostat.HeatingIff | backend/terrapi/thermostat.py:59-65 | heating is ON exactly when the reading reaches target−hysteresis, or it was ON and the reading stays below target+hysteresis |
| Thermostat.OnBranchWins | backend/terrapi/thermostat.py:53-65 | when both thresholds hold (hysteresis ≤ 0), the ON branch wins for either action |
| Thermostat.UnrecognisedHolds | backend/terrapi/thermostat.py:50-68 | an action other than "cooling" or "heating" never changes the relay |
| Thermostat.RepeatedReadingStable | backend/terrapi/thermostat.py:50-68 | repeating a reading changes nothing more |
| Thermostat.Trace | backend/terrapi/thermostat.py:35-68 | a series of readings gives one relay state per reading |
| Thermostat.TraceStep | backend/terrapi/thermostat.py:35-68 | each step of a series is one `compute_state` call on the state left by the previous step |
| Thermostat.NoChatter | backend/terrapi/thermostat.py:50-66 | with a positive hysteresis, two successive switches in opposite directions are separated by a swing of at least twice the hysteresis |
| LegacyThermostat.ParseMode | terrapi/thermostat.py:23-40 | the mode is HEAT exactly for "heat" and COOL exactly for "cool"; anything else raises ValueError |
| LegacyThermostat.Controller.constructor | terrapi/thermostat.py:7-14 | the controller keeps its sensor names |
| LegacyThermostat.Controller.ShouldSwitch | terrapi/thermostat.py:16-20 | the base class always raises NotImplementedError |
| LegacyThermostat.Thermostat.constructor | terrapi/thermostat.py:29-42 | a new thermostat holds its settings and has no decision yet |
| LegacyThermostat.Thermostat.ShouldSwitch | terrapi/thermostat.py:45-70 | only the first value's temperature is read: no values raise IndexError, a None value (a sensor that failed) TypeError, a value without a temperature KeyError, and a None temperature TypeError at the first comparison, each leaving the stored answer; a decisive answer is stored and returned; an undecided one returns the stored answer |
| LegacyThermostat.NewThermostat | terrapi/thermostat.py:29-42 | construction succeeds exactly for mode "heat" or "cool", else ValueError; the new thermostat is undecided |
| LegacyThermostat.Decide | terrapi/thermostat.py:53-70 | the answer of `should_switch` for one reading; HeatIff, CoolIff and ThresholdsHold state it |
| LegacyThermostat.ThresholdsHold | terrapi/thermostat.py:54-66 | all comparisons are strict: a reading exactly at a threshold keeps the last answer |
| LegacyThermostat.UndecidedAtStart | terrapi/thermostat.py:41-70 | before any decision, a reading inside the band answers None |
| LegacyThermostat.HeatIff | terrapi/thermostat.py:53-61 | heating answers ON exactly below thresh−delta, or when it was ON and the reading is at most thresh; OFF symmetrically |
| LegacyThermostat.CoolIff | terrapi/thermostat.py:62-70 | cooling answers ON exactly above thresh+delta, or when it was ON and the reading is at least thresh; OFF symmetrically |
| LegacyThermostat.AgreesWithBackend | terrapi/thermostat.py:53-70 | away from the thresholds, the legacy thermostat answers as the newer one with target thresh∓delta/2 and hysteresis delta/2 |
| TerraHandler.Attr | backend/terrapi/terra_handler.py:218-231 | attribute access on a plain value raises AttributeError; on a `Config` it follows `Config.__getattr__` |
| TerraHandler.ClockMinutes | backend/terrapi/terra_handler.py:222-228 | a time reads as `hour*60+minute` only when it is a string whose first two `:`-parts are integers |
| TerraHandler.MinutesOfParts | backend/terrapi/terra_handler.py:224-228 | a time's parts read as minutes exactly when there are two parts and both parse as integers; otherwise IndexError when only the hour parses and there is no second part, ValueError when a part does not parse |
| TerraHandler.ValidTimeMinutes | backend/terrapi/terra_handler.py:222-228 | a time that passes validation reads as its hour and minute, a minute of the day in 0..1439 |
| TerraHandler.ClockMinutesOfParts | backend/terrapi/terra_handler.py:222-228 | a time whose first two `:`-parts parse as integers `h` and `m` reads as `h*60+m` |
| TerraHandler.ExtraPartsIgnored | backend/terrapi/terra_handler.py:222-225 | anything after a second colon is ignored when reading a time |
| TerraHandler.InPeriod | backend/terrapi/terra_handler.py:236-246 | the half-open period test, wrapping past midnight when the start is after the end; InPeriodModular, EmptyPeriod and ReversePartitionsDay state it |
| TerraHandler.InPeriodModular | backend/terrapi/terra_handler.py:236-246 | a period covers exactly the minutes that are less than its length past its start, modulo a day |
| TerraHandler.EmptyPeriod | backend/terrapi/terra_handler.py:236-240 | a period that starts where it ends never matches |
| TerraHandler.ReversePartitionsDay | backend/terrapi/terra_handler.py:236-246 | a period and its reverse split the day: every minute lies in exactly one of them |
| TerraHandler.ReadPeriod | backend/terrapi/terra_handler.py:220-231 | a period is read only when it is a `Config` whose start and end read as times, and its mode is read as it is |
| TerraHandler.ReadPeriods | backend/terrapi/terra_handler.py:218-220 | the periods are read in key order, one per key |
| TerraHandler.Scan | backend/terrapi/terra_handler.py:219-246 | the loop over the periods, stopping at the first exception or match; ScanFirstMatch states it |
| TerraHandler.ScanFirstMatch | backend/terrapi/terra_handler.py:219-246 | no match exactly when every period is read and misses; the first matching period's mode wins; an exception comes from a period before any match |
| TerraHandler.GetMode | backend/terrapi/terra_handler.py:253-256 | with planning off the current mode is returned unchanged |
| TerraHandler.GetModeFirstMatch | backend/terrapi/terra_handler.py:210-251 | with planning on, the first matching period's mode is returned; a period whose mode is None raises AttributeError, since `Config.__getattr__` raises on None; with no match, `planning.default_mode` |
| TerraHandler.ValidatedPlanningResolves | backend/terrapi/terra_handler.py:210-251 | a planning that passes validation, has periods, and names non-None modes is resolved without raising |
| TerraHandler.WellFormedPlanningResolves | backend/terrapi/terra_handler.py:210-251 | the same, stated on the shape of the planning |
| TerraHandler.ScanReadable | backend/terrapi/terra_handler.py:219-246 | well-formed periods naming modes are scanned without raising |
| TerraHandler.PeriodReadable | backend/terrapi/terra_handler.py:220-231 | a period that passes validation and names a mode is read without raising |
| TerraHandler.TimeFieldReadable | backend/terrapi/terra_handler.py:222-228 | a validated start or end is read through the wrapper as the stored time, and as a minute of the day |
| TerraHandler.GetVal | backend/terrapi/terra_handler.py:271-276 | `get_val`: a key holding a value other than None reads as that value, wrapped when it is a dict; a missing key or a None value gives the default |
| TerraHandler.ToFloat | backend/terrapi/terra_handler.py:283-284 | `float()` of a `Config` raises TypeError; of a string, it succeeds exactly when the string is a decimal number |
| TerraHandler.ActionOf | backend/terrapi/thermostat.py:50-59 | the action cools exactly for "cooling" and heats exactly for "heating" |
| TerraHandler.SensorTemperature | backend/terrapi/terra_handler.py:289-290 | a sensor named by a string gives its temperature, or none when it has no reading |
| TerraHandler.ReadSettings | backend/terrapi/terra_handler.py:283-286 | reading the settings raises exactly when the target or the hysteresis is not a number; both default when absent |
| TerraHandler.ThermostatKey | backend/terrapi/terra_handler.py:301 | the (control, mode) key of the thermostat table, `control_mode`; ReadingUpdatesOneEntry and TableOnlyGrows state that only these keys change |
| TerraHandler.ThermostatStep | backend/terrapi/terra_handler.py:292-317 | `_apply_thermostat` after the settings are read: without a temperature, the bare-name state and no change; with one, the (control, mode) entry is created or updated and stepped; MissingTemperatureKeepsBareState, ReadingUpdatesOneEntry and BandReadingHolds state it |
| TerraHandler.ThermostatDecision | backend/terrapi/terra_handler.py:258-322 | one thermostat control's state and the table afterwards; DisabledIsOff, MissingTemperatureKeepsBareState, ReadingUpdatesOneEntry and BandReadingHolds state it |
| TerraHandler.DisabledIsOff | backend/terrapi/terra_handler.py:278-281 | a disabled thermostat, or one without `enabled`, is OFF and changes nothing |
| TerraHandler.MissingTemperatureKeepsBareState | backend/terrapi/terra_handler.py:292-297 | without a temperature the table is unchanged, and the state is that of a thermostat stored under the bare control name, else OFF |
| TerraHandler.ReadingUpdatesOneEntry | backend/terrapi/terra_handler.py:301-317 | with a temperature the (control, mode) entry takes the new settings; a new one starts OFF, an existing one keeps its relay state before the reading; no other entry changes |
| TerraHandler.BandReadingHolds | backend/terrapi/terra_handler.py:301-317 | a reading strictly inside the band leaves a stored thermostat as it was |
| TerraHandler.Assignment | backend/terrapi/terra_handler.py:179 | `mode_params.get(control_name)`: a control the mode holds reads as its assignment, wrapped when it is a dict; a missing or None assignment, or assignments that are not a `Config`, read as None |
| TerraHandler.IsThermostat | backend/terrapi/terra_handler.py:181-187 | an assignment is a thermostat exactly when it is a `Config` whose `type` reads "thermostat"; ControlDecision and PlainControlsFollowAssignment use it |
| TerraHandler.ControlDecision | backend/terrapi/terra_handler.py:178-197 | one control's state: its thermostat's decision, or the truth of its assignment; DecisionTouchesOneKey states what it may change |
| TerraHandler.DecisionTouchesOneKey | backend/terrapi/terra_handler.py:301-316 | a control's decision only adds or overwrites the (control, mode) entry and never removes one |
| TerraHandler.TickPlan | backend/terrapi/terra_handler.py:160-173 | a None or "None" mode switches all OFF; a mode that is applied is a string found in the modes table with a non-None assignment; an unreadable modes section raises |
| TerraHandler.ApplyControlsStep | backend/terrapi/terra_handler.py:178-197 | a control whose decision succeeds is switched, and the loop goes on with the next control and the new table |
| TerraHandler.ApplyControlsStop | backend/terrapi/terra_handler.py:178-197 | a control whose decision raises ends the loop with that exception, nothing else switched |
| TerraHandler.AllOffSpec | backend/terrapi/terra_handler.py:160-164 | the relays after switching the listed controls OFF in order; AllOffSwitchesEveryControl states it |
| TerraHandler.AllOffSwitchesEveryControl | backend/terrapi/terra_handler.py:160-164 | every control ends OFF and no other relay changes |
| TerraHandler.ApplyControls | backend/terrapi/terra_handler.py:178-197 | the loop over the controls, in order, ending at the first exception; PlainControlsFollowAssignment and TableOnlyGrows state it |
| TerraHandler.PlainControlsFollowAssignment | backend/terrapi/terra_handler.py:178-197 | after a completed loop every control has a state; one that is not a thermostat is switched to the truth of its assignment, OFF when absent |
| TerraHandler.TableOnlyGrows | backend/terrapi/terra_handler.py:301-316 | thermostat entries are never removed, and only (control, mode) keys of the tick's controls are added or changed |
| TerraHandler.TickSpec | backend/terrapi/terra_handler.py:141-197 | one corrected tick: resolve the mode, then switch the controls; NoneModeAllOff, UnknownModeSkipsTick and TickAsWrittenRaises state it |
| TerraHandler.PublishStates | backend/terrapi/terra_handler.py:201-204 | as written, the publish loop raises AttributeError exactly when there is a control, since `get_state` is not defined |
| TerraHandler.TickAsWrittenRaises | backend/terrapi/terra_handler.py:141-204 | as written, with at least one control, a tick completes exactly when it skips an unknown mode; every other tick switches the controls as the corrected tick does and then raises AttributeError |
| TerraHandler.OutcomeAsWrittenRaises | backend/terrapi/terra_handler.py:159-204 | the same statement for any outcome of resolving the mode |
| TerraHandler.NoneModeTickRaises | backend/terrapi/terra_handler.py:160-204 | as written, planning off, mode "None" and one control: the control is switched OFF and the tick then raises AttributeError |
| TerraHandler.NoneModeAllOff | backend/terrapi/terra_handler.py:160-164 | a None or "None" mode switches every control OFF and leaves the thermostats alone |
| TerraHandler.UnknownModeSkipsTick | backend/terrapi/terra_handler.py:168-173 | a mode that the modes table does not hold switches nothing that tick |
| TerraHandler.StatusOf | backend/terrapi/terra_handler.py:74-88 | the status reports the update's success and echoes its section; an exception gives a failed "Error" status without a section |
| TerraHandler.InitialFollowPlanning | backend/terrapi/terra_handler.py:24-29 | construction reads `conf.planning.active`, which becomes the planning flag, and then needs `conf.log_interval` |
| TerraHandler.Handler.constructor | backend/terrapi/terra_handler.py:15-33 | a new handler has no current mode and no thermostats |
| TerraHandler.Handler.HandleMessage | backend/terrapi/terra_handler.py:39-92 | planning/active sets the flag exactly when the payload is "1"; mode/set sets the mode only when the planning is not followed, unchecked; config/update publishes the status and applies the update's in-memory effect; other topics change nothing |
| TerraHandler.Handler.ApplyThermostat | backend/terrapi/terra_handler.py:258-322 | the returned state and the thermostat objects afterwards are those of the decision on the table before |
| TerraHandler.Handler.StoreReading | backend/terrapi/terra_handler.py:301-317 | creating or updating the (control, mode) thermostat and applying the reading changes the table as the decision says |
| TerraHandler.Handler.ApplyControl | backend/terrapi/terra_handler.py:178-197 | one control is switched by its thermostat's decision or by the truth of its assignment |
| TerraHandler.Handler.Tick | backend/terrapi/terra_handler.py:141-197 | the corrected tick: the mode is resolved and stored (kept when resolving raises), then the controls are switched as the tick specification says; the publish loop is left out |
| TerraHandler.Handler.TickAsWritten | backend/terrapi/terra_handler.py:141-204 | the pass of the main loop as written: the tick, then the publish loop that raises, as TickAsWrittenRaises states |
| TerraHandler.Handler.RunPlan | backend/terrapi/terra_handler.py:159-197 | the controls are switched all OFF, not at all, or by their assignments, as planned |
| TerraHandler.Handler.SwitchAllOff | backend/terrapi/terra_handler.py:160-164 | the relays become those with every control OFF |
| TerraHandler.Handler.RunControls | backend/terrapi/terra_handler.py:178-197 | the controls are switched in order until one raises, as the fold over the controls says |
| TerraHandler.Handler.SwitchControl | backend/terrapi/terra_handler.py:178-197 | the i-th control is switched as its assignment says, or the failure stops the loop; this is one step of the fold over the remaining controls |
| TerraHandler.NewHandler | backend/terrapi/terra_handler.py:15-33 | construction fails exactly when the planning flag or the log interval cannot be read |
| LegacyTerraHandler.GetMode | terrapi/terra_handler.py:94-96 | with planning off the current mode is returned unchanged |
| LegacyTerraHandler.FirstMatch | terrapi/terra_handler.py:86-92 | the first period with start ≤ now ≤ end, else the default mode; FirstMatchWins and ClosedNoWrap state it |
| LegacyTerraHandler.FirstMatchWins | terrapi/terra_handler.py:86-92 | the first period with start ≤ now ≤ end gives the mode; with no match, the default mode captured at construction |
| LegacyTerraHandler.ClosedNoWrap | terrapi/terra_handler.py:89 | both ends of a period are inside it, and a period that ends before it starts never matches (no wrap) |
| LegacyTerraHandler.SubscriptBy | terrapi/terra_handler.py:73 | `conf.modes[mode]` succeeds exactly for a string naming a mode, giving its assignments |
| LegacyTerraHandler.ValuesOf | terrapi/terra_handler.py:74 | the values of a dict, in order |
| LegacyTerraHandler.TargetsAsWritten | terrapi/terra_handler.py:74 | the comprehension as written, walking the given values as control names; TargetsAsWrittenNeedNames states when it succeeds |
| LegacyTerraHandler.TargetStatesAsWritten | terrapi/terra_handler.py:74 | the comprehension as written, over the mode's values; TargetsAsWrittenNeedNames and AsWrittenRaises state it |
| LegacyTerraHandler.TargetsAsWrittenNeedNames | terrapi/terra_handler.py:74 | as written, the comprehension succeeds only when every assignment value is itself the name of a control of the mode |
| LegacyTerraHandler.AsWrittenRaises | terrapi/terra_handler.py:74 | as written, a mode whose assignments are ON/OFF flags raises KeyError |
| LegacyTerraHandler.TargetsFromLookup | terrapi/terra_handler.py:74 | the comprehension over the mode's names looks each name up to its assignment |
| LegacyTerraHandler.TargetsFrom | terrapi/terra_handler.py:74 | the comprehension over the given control names, on top of the entries so far; TargetsFromLookup states that each name looks up to its assignment |
| LegacyTerraHandler.TargetStates | terrapi/terra_handler.py:74 | the corrected comprehension, over the mode's names; TargetStatesAreAssignments states it |
| LegacyTerraHandler.TargetStatesAreAssignments | terrapi/terra_handler.py:74 | the corrected target states are exactly the mode's assignments |
| LegacyTerraHandler.TargetState | terrapi/terra_handler.py:76-78 | a control absent from the target states is switched OFF; a present one to the truth of its target |
| LegacyTerraHandler.Handler.constructor | terrapi/terra_handler.py:11-19 | the planning flag, default mode and periods are captured once; there is no current mode |
| LegacyTerraHandler.Handler.HandleMessage | terrapi/terra_handler.py:28-44 | planning/active sets the flag exactly when the payload is "1"; mode/set sets the mode only when the planning is not followed; other topics change nothing |
| LegacyTerraHandler.PublishReadings | terrapi/terra_handler.py:64-68 | when the log interval has passed, the publish step raises AttributeError exactly when some sensor's reading is not a dict (a sensor that returned None); otherwise it raises nothing |
| LegacyTerraHandler.Handler.RunPass | terrapi/terra_handler.py:58-78 | one pass of the loop: a failing publish step ends it with AttributeError before the mode is read, with the mode and relays unchanged; otherwise the pass is the tick, with the same outcome |
| LegacyTerraHandler.Handler.Tick | terrapi/terra_handler.py:71-78 | the part of a pass after the readings are published: the mode is resolved and stored; an unknown mode or a non-dict assignment raises; otherwise every control is switched to its target and no other relay changes |
| LegacyTerraHandler.TickTargets | terrapi/terra_handler.py:73-78 | a completed tick switches a control OFF exactly when the mode does not assign it or assigns it a falsy value |

## Left out

- MQTT transport, subscriptions and publishing are left out. This covers the sensor values, the current mode and the control states published each tick, `config/get` with its `_publish_full_config`/`get_full_config`, and the full-config publish after a successful update. Where a publish loop raises, the exception is modelled: `TerraHandler.PublishStates` for the backend's control states, `LegacyTerraHandler.PublishReadings` for the legacy sensor readings. Inbound messages are sequential method calls between ticks, not a background thread.
- TerraHandler.Handler.Tick: models the tick without the publish loop of backend/terrapi/terra_handler.py:201-204. That loop calls `control.get_state()`, which neither `Control` nor `Relay` defines. As written, with at least one control, every tick that does not skip an unknown mode raises AttributeError after the switches, and `run()` ends (see Findings, `Handler.TickAsWritten`). The restart loop of `run.py` is not part of this model; it builds a fresh handler, so the current mode, the planning flag and the thermostat table do not survive the tick. The properties that span ticks (ReadingUpdatesOneEntry on an existing entry, Thermostat.NoChatter across ticks, the manual mode of `mode/set`) hold for the corrected tick only.
- Sensor drivers and GPIO relays (both `sensor.py`, `control.py`), `Terrarium` and the bootstrap scripts (`run.py`, `read.py`) are left out. A backend tick takes the sensor data as a map from sensor name to temperature, and the relays as a map from control name to state. A legacy pass takes each sensor's `get_data()` result as a value, None when the sensor failed.
- The clock is a parameter: minute of the day in the backend, a timestamp in the legacy handler. The log-interval cadence and `time.sleep` are not modelled; whether the legacy log interval has passed is the parameter `logDue` of `RunPass`, and `_last_log` is not kept.
- File and YAML I/O (`load_config`, `save_config`, the dumps in `update_*`) is replaced by a `Disk` outcome. The YAML content is the `Value` tree.
- `xpipe.config` is not part of this model. The legacy handler takes the planning values it calls (`active()`, `default_mode()`, `start()`, `end()`, `mode()`) as already read, and treats `conf.modes` and its assignments as dicts.
- Exception and status message texts are left out; exceptions are their class only. `print` logging is left out.
- `Config.keys`/`items` are represented by `KeyList` and the assoc-list entries, `__repr__` is not modelled, and YAML keys are always strings.
- `int()` and `float()` on strings (ParseInt, ParseFloat) accept an optional sign, ASCII decimal digits and surrounding whitespace. Underscores, non-ASCII digits, exponents, `inf` and `nan` are not modelled.
- `str(period[...])` in `validate_planning` is modelled on strings and on values whose rendering cannot contain a valid time. A time written as a YAML integer is rejected, as the source does.
- Attribute lookups that would find a built-in method of a plain value are not modelled. Examples: `getattr("abc", "upper", None)` when a mode or control is named after a `str` method, and `hasattr` on a raw value. The same holds for the names that `Config` itself defines (`get`, `keys`, `items`, `to_dict`, `_data`): `getattr(config, name)` finds the bound method or the dict there without reaching `__getattr__`, while `Config.GetAttr` looks every non-private name up in the data. The core reads only other literal names.
- ConfigManager.ApplyModes, ConfigManager.ApplyConfigUpdate, TerraHandler.Handler.HandleMessage: use the corrected modes hot reload of backend/terrapi/config_manager.py:206, a merge into the loaded modes. As written, every accepted modes update raises TypeError after the file is written. `_handle_message` then publishes a failed "Error" status and keeps the old modes. `ConfigManager.ApplyConfigUpdateAsWritten` models the code as written (see Findings).
- Thermostat.NextRelayState, Thermostat.NoChatter, TerraHandler.ToFloat, LegacyThermostat.Decide, LegacyThermostat.Thermostat.ShouldSwitch, LegacyTerraHandler.FirstMatch: temperatures, targets and hysteresis are exact reals, not IEEE doubles. `target + hysteresis` does not round, a reading equal to a decimal threshold is compared exactly, `float()` of a decimal string gives the exact decimal, and NaN and infinite readings do not occur. The legacy `thresh_temp ∓ release_delta` comparisons and the `time.time()` timestamps compared with the period bounds are exact reals too. The 2×hysteresis bound of NoChatter holds on reals; on doubles it holds only up to rounding.
- ConfigLoader.InstanceOf, ConfigLoader.InstanceOfOk, ConfigLoader.InstantiateEntries, ConfigLoader.InstantiateFirstError: the class call `sensor_class(**kwargs)` / `control_class(**kwargs)` (backend/terrapi/config_loader.py:110, 136) is assumed not to raise. In the source it raises TypeError for a `Relay` entry without `pin` or with any other field, and for a name such as `GPIO` that finds a module attribute that is not a class. "Built exactly when" and "the first entry that cannot be built" are therefore stated for the checks before the call.
- TerraHandler.Handler.HandleMessage: a planning update sets `_default_mode`, which nothing reads (get_mode reads `conf.planning.default_mode`). The model records it in `defaultMode` and leaves the schedule unchanged, as the source does.
- TerraHandler.ValidatedPlanningResolves: a validated planning without `periods`, or with a period or default mode holding None, makes `get_mode` raise. The lemma therefore requires both to be present and not None.
- LegacyTerraHandler.Handler.Tick: the loop uses the corrected comprehension of line 74. The code as written is modelled by `TargetStatesAsWritten` (see Findings).

## Findings

| source | as written | input that shows it | evidently intended | confidence | as-written member | corrected member |
|---|---|---|---|---|---|---|
| backend/terrapi/config_manager.py:206 | `conf.modes[mode_name] = type('Mode', (), controls)()`, assigning into the `Config` wrapper returned by `conf.modes` | any accepted modes update: `Config` has no `__setitem__`, so this raises TypeError after the file was written | merge each payload mode into the loaded modes | not executed | ConfigManager.ModesUpdateRaisesAfterWrite | ConfigManager.MergeModesSemantics |
| terrapi/terra_handler.py:74 | the comprehension iterates `mode_params.values()` and uses each value as a control name | a mode `{light: true, heater: false}`: `mode_params[True]` raises KeyError | iterate the mode's control names | not executed | LegacyTerraHandler.AsWrittenRaises | LegacyTerraHandler.TargetStatesAreAssignments |
| backend/terrapi/terra_handler.py:202 | the publish loop calls `control.get_state()`, which neither `Control` nor `Relay` defines | planning off, mode "None", one control `heater`: it is switched OFF and the tick then raises AttributeError, so `run()` ends | publish each relay's state (its `_state`) and carry on with the next tick | not executed | TerraHandler.NoneModeTickRaises | TerraHandler.Handler.Tick |
