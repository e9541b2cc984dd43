// backend/terrapi/config_manager.py: validation of the `modes` and
// `planning` sections a frontend sends, validate-then-persist, and the
// dispatch of a configuration update by section. Writing a YAML file is an
// outcome given as a parameter; the in-memory part of an update is returned
// as an `Effect` that the handler owning the state carries out.

module ConfigManager {
  import opened PyValues
  import opened PyText
  import opened ConfigLoader

  /** The status messages; the text is fixed by the constructor and its arguments. */
  datatype Message =
    | NoError                                      // ""
    | NoModes                                      // "At least one mode is required"
    | InvalidModeName(name: string)
    | ModeWithoutControls(mode: string)
    | ControlNotBool(control: string, mode: string)
    | MissingActive
    | MissingDefaultMode
    | PeriodIncomplete(period: string)
    | InvalidTimeFormat(period: string, time: Value)
    | ModesUpdated
    | PlanningUpdated
    | ModesWriteFailed(reason: string)
    | PlanningWriteFailed(reason: string)
    | MissingSectionOrData
    | UnknownSection(section: Value)

  /** What a validator concludes when it does not raise: `(True, "")` or `(False, message)`. */
  datatype Verdict = Accept | Reject(why: Message)

  // ---------------------------------------------------------------------
  // validate_modes

  /** A mode a valid `modes` section may hold: a non-blank name and a dict of boolean control states. */
  predicate ModeOk(e: (string, Value))
  {
    !Blank(e.0) && e.1.Dict? && forall j :: 0 <= j < |e.1.entries| ==> e.1.entries[j].1.Bool?
  }

  /** The inner loop: the first control whose state is not a bool is reported. */
  function CheckControls(mode: string, controls: Entries): (v: Verdict)
    ensures v == Accept <==> forall i :: 0 <= i < |controls| ==> controls[i].1.Bool?
    ensures v.Reject? ==> v.why.ControlNotBool? && v.why.mode == mode && v.why.control in Keys(controls)
  {
    if controls == [] then Accept
    else if !controls[0].1.Bool? then Reject(ControlNotBool(controls[0].0, mode))
    else
      var v := CheckControls(mode, controls[1..]);
      assert v == Accept ==> forall i :: 0 <= i < |controls| ==> controls[i].1.Bool? by {
        if v == Accept {
          forall i | 0 <= i < |controls| ensures controls[i].1.Bool? {
            if i > 0 { assert controls[i] == controls[1..][i - 1]; }
          }
        }
      }
      assert v.Reject? ==> v.why.control in Keys(controls) by {
        if v.Reject? {
          var k :| 0 <= k < |controls[1..]| && Keys(controls[1..])[k] == v.why.control;
          assert Keys(controls)[k + 1] == v.why.control;
        }
      }
      v
  }

  /** One mode: its name, then its controls. */
  function CheckMode(name: string, controls: Value): (v: Verdict)
    ensures v == Accept <==> ModeOk((name, controls))
  {
    if Blank(name) then Reject(InvalidModeName(name))
    else if !controls.Dict? then Reject(ModeWithoutControls(name))
    else CheckControls(name, controls.entries)
  }

  /** The outer loop over the modes, in their order. */
  function CheckModes(modes: Entries): (v: Verdict)
    ensures v == Accept <==> forall i :: 0 <= i < |modes| ==> ModeOk(modes[i])
  {
    if modes == [] then Accept
    else
      var first := CheckMode(modes[0].0, modes[0].1);
      if first.Reject? then first
      else
        var v := CheckModes(modes[1..]);
        assert v == Accept ==> forall i :: 0 <= i < |modes| ==> ModeOk(modes[i]) by {
          if v == Accept {
            forall i | 0 <= i < |modes| ensures ModeOk(modes[i]) {
              if i > 0 { assert modes[i] == modes[1..][i - 1]; }
            }
          }
        }
        v
  }

  /**
   * `validate_modes`: an empty (falsy) payload is rejected; a truthy payload
   * that is not a dict raises AttributeError at `.items()`; otherwise every
   * mode must be a non-blank name holding a dict of bools.
   */
  function ValidateModes(modes: Value): (r: Result<Verdict>)
    ensures !Truthy(modes) ==> r == Ok(Reject(NoModes))
    ensures r.Err? <==> Truthy(modes) && !modes.Dict?
    ensures r.Err? ==> r.exc == AttributeError
    ensures r == Ok(Accept) <==>
      modes.Dict? && |modes.entries| > 0 && forall i :: 0 <= i < |modes.entries| ==> ModeOk(modes.entries[i])
  {
    if !Truthy(modes) then Ok(Reject(NoModes))
    else if !modes.Dict? then Err(AttributeError)
    else Ok(CheckModes(modes.entries))
  }

  /** A mode that assigns a thermostat (a dict) to a control does not pass validation. */
  lemma ThermostatAssignmentRejected(modes: Value, i: nat, j: nat)
    requires modes.Dict? && i < |modes.entries|
    requires modes.entries[i].1.Dict? && j < |modes.entries[i].1.entries|
    requires modes.entries[i].1.entries[j].1.Dict?
    ensures ValidateModes(modes) != Ok(Accept)
  {
  }

  // ---------------------------------------------------------------------
  // validate_planning

  /** `time_val.split(":")` into exactly two parts, both accepted by `int()`. */
  function ParseClock(s: string): (r: Option<(int, int)>)
    ensures r.Some? ==> |Split(s, ':')| == 2
    ensures r.Some? ==> ParseInt(Split(s, ':')[0]) == Some(r.value.0) && ParseInt(Split(s, ':')[1]) == Some(r.value.1)
  {
    var parts := Split(s, ':');
    if |parts| != 2 then None
    else match (ParseInt(parts[0]), ParseInt(parts[1]))
      case (Some(h), Some(m)) => Some((h, m))
      case _ => None
  }

  /**
   * A period time that passes the check: a string "H:M" with an hour in
   * 0..23 and a minute in 0..59. The `str()` of any other value never passes:
   * numbers, booleans and None render without a colon, and lists and dicts
   * render starting with a bracket, which `int()` refuses.
   */
  predicate ValidTime(v: Value)
  {
    v.Str? && ParseClock(v.s).Some? &&
    0 <= ParseClock(v.s).value.0 <= 23 && 0 <= ParseClock(v.s).value.1 <= 59
  }

  /** A zero-padded "HH:MM" rendering of a time of day. */
  function ClockText(h: nat, m: nat): string
    requires h < 24 && m < 60
  {
    TwoDigits(h) + ":" + TwoDigits(m)
  }

  /** Every "HH:MM" rendering parses back to its hour and minute, so it passes the check. */
  lemma {:induction false} ClockTextRoundTrip(h: nat, m: nat)
    requires h < 24 && m < 60
    ensures ParseClock(ClockText(h, m)) == Some((h as int, m as int))
    ensures ValidTime(Str(ClockText(h, m)))
  {
    SplitAtFirst(TwoDigits(h), TwoDigits(m), ':');
    SplitNoSep(TwoDigits(m), ':');
    ParseTwoDigits(h);
    ParseTwoDigits(m);
  }

  /** A period a valid planning may hold: a dict with start, end and mode, and well-formed times. */
  predicate PeriodOk(p: Value)
  {
    p.Dict? && "start" in Keys(p.entries) && "end" in Keys(p.entries) && "mode" in Keys(p.entries) &&
    ValidTime(Lookup(p.entries, "start").value) && ValidTime(Lookup(p.entries, "end").value)
  }

  /**
   * One period: the three `in` tests (short-circuiting, raising TypeError on
   * a non-container), then `period["start"]` and `period["end"]`, which
   * raise on anything but a dict.
   */
  function CheckPeriod(name: string, period: Value): (r: Result<Verdict>)
    ensures r == Ok(Accept) <==> PeriodOk(period)
    ensures r.Err? ==> !period.Dict?
  {
    match Contains(period, "start")
    case Err(e) => Err(e)
    case Ok(hasStart) =>
      if !hasStart || !Contains(period, "end").value || !Contains(period, "mode").value then
        Ok(Reject(PeriodIncomplete(name)))
      else
        match Index(period, "start")
        case Err(e) => Err(e)
        case Ok(start) =>
          if !ValidTime(start) then Ok(Reject(InvalidTimeFormat(name, start)))
          else
            var end := Index(period, "end").value;
            if !ValidTime(end) then Ok(Reject(InvalidTimeFormat(name, end)))
            else Ok(Accept)
  }

  /** The loop over the periods, in their order; the first rejection or exception ends it. */
  function CheckPeriods(periods: Entries): (r: Result<Verdict>)
    ensures r == Ok(Accept) <==> forall i :: 0 <= i < |periods| ==> PeriodOk(periods[i].1)
    ensures r.Err? ==> exists i :: 0 <= i < |periods| && !periods[i].1.Dict?
  {
    if periods == [] then Ok(Accept)
    else
      var first :- CheckPeriod(periods[0].0, periods[0].1);
      if first.Reject? then Ok(first)
      else
        var r := CheckPeriods(periods[1..]);
        assert r == Ok(Accept) ==> forall i :: 0 <= i < |periods| ==> PeriodOk(periods[i].1) by {
          if r == Ok(Accept) {
            forall i | 0 <= i < |periods| ensures PeriodOk(periods[i].1) {
              if i > 0 { assert periods[i] == periods[1..][i - 1]; }
            }
          }
        }
        assert r.Err? ==> exists i :: 0 <= i < |periods| && !periods[i].1.Dict? by {
          if r.Err? {
            var k :| 0 <= k < |periods[1..]| && !periods[1..][k].1.Dict?;
            assert periods[k + 1] == periods[1..][k];
          }
        }
        r
  }

  /**
   * `validate_planning`: `active` and `default_mode` must be present and
   * `periods` is optional (all three tested with Python's `in`, which also
   * accepts a string or a list); present periods must be a dict of valid
   * periods. Mode names are not checked against the known modes.
   */
  function ValidatePlanning(planning: Value): (r: Result<Verdict>)
    ensures !(planning.Dict? || planning.Str? || planning.List?) ==> r == Err(TypeError)
    ensures Contains(planning, "active") == Ok(false) ==> r == Ok(Reject(MissingActive))
    ensures Contains(planning, "active") == Ok(true) && Contains(planning, "default_mode") == Ok(false) ==>
      r == Ok(Reject(MissingDefaultMode))
    ensures r == Ok(Accept) <==>
      Contains(planning, "active") == Ok(true) && Contains(planning, "default_mode") == Ok(true) &&
      (Contains(planning, "periods") == Ok(false) ||
       (planning.Dict? && Lookup(planning.entries, "periods").Some? &&
        var periods := Lookup(planning.entries, "periods").value;
        periods.Dict? && forall i :: 0 <= i < |periods.entries| ==> PeriodOk(periods.entries[i].1)))
  {
    match Contains(planning, "active")
    case Err(e) => Err(e)
    case Ok(hasActive) =>
      if !hasActive then Ok(Reject(MissingActive))
      else if !Contains(planning, "default_mode").value then Ok(Reject(MissingDefaultMode))
      else if !Contains(planning, "periods").value then Ok(Accept)
      else
        match Index(planning, "periods")
        case Err(e) => Err(e)
        case Ok(periods) =>
          if !periods.Dict? then Err(AttributeError)
          else CheckPeriods(periods.entries)
  }

  /** A dict planning with both required keys and no periods is accepted, whatever the values. */
  lemma PlanningWithoutPeriods(active: Value, defaultMode: Value)
    ensures ValidatePlanning(Dict([("active", active), ("default_mode", defaultMode)])) == Ok(Accept)
  {
    var es := [("active", active), ("default_mode", defaultMode)];
    assert Keys(es) == ["active", "default_mode"];
  }

  // ---------------------------------------------------------------------
  // update_modes, update_planning

  /** The outcome of opening the YAML file and dumping the new section into it. */
  datatype Disk = Stored | WriteFailed(reason: string)

  /** `update_modes`: validate, then write; a rejection is returned without writing. */
  function UpdateModes(modes: Value, disk: Disk): (r: Result<(bool, Message)>)
    ensures r.Err? <==> ValidateModes(modes).Err?
    ensures r == Ok((true, ModesUpdated)) <==> ValidateModes(modes) == Ok(Accept) && disk == Stored
    ensures ValidateModes(modes) == Ok(Accept) && disk.WriteFailed? ==> r == Ok((false, ModesWriteFailed(disk.reason)))
    ensures ValidateModes(modes).Ok? && ValidateModes(modes).value.Reject? ==>
      r == Ok((false, ValidateModes(modes).value.why))
  {
    var verdict :- ValidateModes(modes);
    match verdict
    case Reject(why) => Ok((false, why))
    case Accept =>
      match disk
      case Stored => Ok((true, ModesUpdated))
      case WriteFailed(reason) => Ok((false, ModesWriteFailed(reason)))
  }

  /** `update_planning`: validate, then write; a rejection is returned without writing. */
  function UpdatePlanning(planning: Value, disk: Disk): (r: Result<(bool, Message)>)
    ensures r.Err? <==> ValidatePlanning(planning).Err?
    ensures r == Ok((true, PlanningUpdated)) <==> ValidatePlanning(planning) == Ok(Accept) && disk == Stored
    ensures ValidatePlanning(planning) == Ok(Accept) && disk.WriteFailed? ==>
      r == Ok((false, PlanningWriteFailed(disk.reason)))
    ensures ValidatePlanning(planning).Ok? && ValidatePlanning(planning).value.Reject? ==>
      r == Ok((false, ValidatePlanning(planning).value.why))
  {
    var verdict :- ValidatePlanning(planning);
    match verdict
    case Reject(why) => Ok((false, why))
    case Accept =>
      match disk
      case Stored => Ok((true, PlanningUpdated))
      case WriteFailed(reason) => Ok((false, PlanningWriteFailed(reason)))
  }

  // ---------------------------------------------------------------------
  // apply_config_update

  /** Which YAML file an update wrote. */
  datatype Section = ModesFile | PlanningFile

  /** The in-memory change an accepted update makes. */
  datatype Effect =
    | NoEffect
      /** Assign every mode of the payload into the loaded `modes`. */
    | MergeModes(payload: Entries)
      /** Set the handler's `_follow_planning` and `_default_mode`. */
    | ReloadPlanning(active: Value, defaultMode: Value)

  /** The result of an update (or the exception it raised), the file it wrote, and the in-memory change. */
  datatype Applied = Applied(result: Result<(bool, Message)>, wrote: Option<(Section, Value)>, effect: Effect)

  /** `update.get(key)`. */
  function GetOrNone(es: Entries, key: string): Value
  {
    match Lookup(es, key)
    case Some(v) => v
    case None => Null
  }

  /** The "modes" branch: update, and on success merge the payload into memory. */
  function ApplyModes(data: Value, disk: Disk): (a: Applied)
    ensures a.wrote.Some? <==> ValidateModes(data) == Ok(Accept) && disk == Stored
    ensures a.wrote.Some? ==> a == Applied(Ok((true, ModesUpdated)), Some((ModesFile, data)), MergeModes(data.entries))
    ensures a.wrote.None? ==> a.effect == NoEffect && a.result == UpdateModes(data, disk)
  {
    match UpdateModes(data, disk)
    case Err(e) => Applied(Err(e), None, NoEffect)
    case Ok((success, message)) =>
      if success then Applied(Ok((true, message)), Some((ModesFile, data)), MergeModes(data.entries))
      else Applied(Ok((false, message)), None, NoEffect)
  }

  /**
   * The "planning" branch: update, and on success copy `active` and
   * `default_mode` into the handler. A planning that passed validation as a
   * string or a list raises at `data["active"]`, after the file was written.
   */
  function ApplyPlanning(data: Value, disk: Disk): (a: Applied)
    ensures a.wrote.Some? <==> ValidatePlanning(data) == Ok(Accept) && disk == Stored
    ensures a.wrote.Some? && data.Dict? ==>
      "active" in Keys(data.entries) && "default_mode" in Keys(data.entries) &&
      a == Applied(Ok((true, PlanningUpdated)), Some((PlanningFile, data)),
                   ReloadPlanning(Lookup(data.entries, "active").value, Lookup(data.entries, "default_mode").value))
    ensures a.wrote.Some? && !data.Dict? ==> a == Applied(Err(TypeError), Some((PlanningFile, data)), NoEffect)
    ensures a.wrote.None? ==> a.effect == NoEffect && a.result == UpdatePlanning(data, disk)
  {
    match UpdatePlanning(data, disk)
    case Err(e) => Applied(Err(e), None, NoEffect)
    case Ok((success, message)) =>
      if !success then Applied(Ok((false, message)), None, NoEffect)
      else if data.Dict? then
        Applied(Ok((true, message)), Some((PlanningFile, data)),
                ReloadPlanning(Lookup(data.entries, "active").value, Lookup(data.entries, "default_mode").value))
      else Applied(Err(TypeError), Some((PlanningFile, data)), NoEffect)
  }

  /**
   * `apply_config_update`, with the hot reload of a modes update as the
   * evident intent (a merge into the loaded modes). A payload that is not a
   * dict raises at `update.get`; a missing or empty section, missing data and
   * an unknown section fail without writing or changing anything.
   */
  function ApplyConfigUpdate(update: Value, disk: Disk): (a: Applied)
    ensures !update.Dict? ==> a == Applied(Err(AttributeError), None, NoEffect)
    ensures update.Dict? && (!Truthy(GetOrNone(update.entries, "section")) || GetOrNone(update.entries, "data") == Null) ==>
      a == Applied(Ok((false, MissingSectionOrData)), None, NoEffect)
    ensures update.Dict? && Truthy(GetOrNone(update.entries, "section")) && GetOrNone(update.entries, "data") != Null ==>
      var section := GetOrNone(update.entries, "section");
      var data := GetOrNone(update.entries, "data");
      a == (if section == Str("modes") then ApplyModes(data, disk)
            else if section == Str("planning") then ApplyPlanning(data, disk)
            else Applied(Ok((false, UnknownSection(section))), None, NoEffect))
  {
    if !update.Dict? then Applied(Err(AttributeError), None, NoEffect)
    else
      var section := GetOrNone(update.entries, "section");
      var data := GetOrNone(update.entries, "data");
      if !Truthy(section) || data == Null then Applied(Ok((false, MissingSectionOrData)), None, NoEffect)
      else if section == Str("modes") then ApplyModes(data, disk)
      else if section == Str("planning") then ApplyPlanning(data, disk)
      else Applied(Ok((false, UnknownSection(section))), None, NoEffect)
  }

  /**
   * Validate, then persist, then reload: a file is written only for a
   * payload its validator accepts and a write that succeeds, and memory
   * changes only after such a write, with a success reported.
   */
  lemma PersistBeforeReload(update: Value, disk: Disk)
    ensures var a := ApplyConfigUpdate(update, disk);
      a.wrote.Some? ==> disk == Stored && update.Dict? && a.wrote.value.1 == GetOrNone(update.entries, "data")
    ensures var a := ApplyConfigUpdate(update, disk);
      a.wrote.Some? && a.wrote.value.0 == ModesFile ==> ValidateModes(a.wrote.value.1) == Ok(Accept)
    ensures var a := ApplyConfigUpdate(update, disk);
      a.wrote.Some? && a.wrote.value.0 == PlanningFile ==> ValidatePlanning(a.wrote.value.1) == Ok(Accept)
    ensures var a := ApplyConfigUpdate(update, disk);
      a.effect != NoEffect ==> a.wrote.Some? && a.result.Ok? && a.result.value.0
    ensures var a := ApplyConfigUpdate(update, disk);
      a.result.Ok? && !a.result.value.0 ==> a.wrote.None? && a.effect == NoEffect
  {
  }

  // ---------------------------------------------------------------------
  // The hot reload of modes

  /** The loaded `modes` section as entries; a missing or non-dict section counts as empty. */
  function LoadedModes(conf: Config): Entries
  {
    match Lookup(conf.data, "modes")
    case Some(Dict(es)) => es
    case _ => []
  }

  /** `for mode_name, controls in data.items(): modes[mode_name] = controls`, in payload order. */
  function PutAll(es: Entries, payload: Entries): (r: Entries)
    ensures forall k :: k in Keys(es) ==> k in Keys(r)
  {
    if payload == [] then es
    else
      var n := |payload| - 1;
      var before := PutAll(es, payload[..n]);
      assert forall k :: k in Keys(before) ==> k in Keys(Put(before, payload[n].0, payload[n].1)) by {
        forall k | k in Keys(before) ensures k in Keys(Put(before, payload[n].0, payload[n].1)) {
          var i :| 0 <= i < |before| && Keys(before)[i] == k;
          assert Keys(Put(before, payload[n].0, payload[n].1))[i] == k;
        }
      }
      Put(before, payload[n].0, payload[n].1)
  }

  /** The loaded configuration after the hot reload of a modes payload (the intended effect of the assignment loop). */
  function MergeModesInto(conf: Config, payload: Entries): Config
  {
    Config(Put(conf.data, "modes", Dict(PutAll(LoadedModes(conf), payload))))
  }

  /** Looking up the key just assigned finds the new value; other keys are untouched. */
  lemma {:induction false} LookupPut(es: Entries, k: string, v: Value, q: string)
    ensures Lookup(Put(es, k, v), q) == if q == k then Some(v) else Lookup(es, q)
  {
    if es != [] && es[0].0 != k {
      LookupPut(es[1..], k, v, q);
      assert Put(es, k, v)[1..] == Put(es[1..], k, v);
    } else if es != [] {
      assert Put(es, k, v)[1..] == es[1..];
    }
  }

  /** A lookup in a concatenation finds the first part's entry, if it has one. */
  lemma {:induction false} LookupAppend(s: Entries, t: Entries, q: string)
    ensures Lookup(s + t, q) == if q in Keys(s) then Lookup(s, q) else Lookup(t, q)
  {
    if s == [] {
      assert s + t == t;
    } else if s[0].0 == q {
      assert (s + t)[0] == s[0];
      assert Lookup(s + t, q) == Some(s[0].1);
      assert Keys(s)[0] == q;
    } else {
      var u := s + t;
      assert u[0] == s[0] && u[1..] == s[1..] + t;
      assert Lookup(u, q) == Lookup(s[1..] + t, q);
      LookupAppend(s[1..], t, q);
      assert Keys(s) == [s[0].0] + Keys(s[1..]);
      assert (q in Keys(s)) == (q in Keys(s[1..]));
    }
  }

  /**
   * The merge, key by key: a mode of the payload holds its payload value,
   * and every other mode keeps what it held.
   */
  lemma {:induction false} LookupPutAll(es: Entries, payload: Entries, q: string)
    ensures q !in Keys(payload) ==> Lookup(PutAll(es, payload), q) == Lookup(es, q)
    ensures q in Keys(payload) ==> Lookup(PutAll(es, payload), q).Some?
    ensures DistinctKeys(payload) && q in Keys(payload) ==> Lookup(PutAll(es, payload), q) == Lookup(payload, q)
  {
    if payload != [] {
      var n := |payload| - 1;
      var init, last := payload[..n], payload[n];
      assert PutAll(es, payload) == Put(PutAll(es, init), last.0, last.1);
      LookupPutAll(es, init, q);
      LookupPut(PutAll(es, init), last.0, last.1, q);
      InitKeys(payload, q);
    }
  }

  /** Dropping the last payload entry: the keys are the rest's keys and the last key; distinct keys stay distinct, and the last key occurs nowhere earlier. */
  lemma InitKeys(payload: Entries, q: string)
    requires payload != []
    ensures var n := |payload| - 1;
      q in Keys(payload) <==> q in Keys(payload[..n]) || q == payload[n].0
    ensures var n := |payload| - 1;
      DistinctKeys(payload) ==> DistinctKeys(payload[..n]) && payload[n].0 !in Keys(payload[..n])
    ensures var n := |payload| - 1;
      DistinctKeys(payload) && q in Keys(payload) ==>
        Lookup(payload, q) == if q == payload[n].0 then Some(payload[n].1) else Lookup(payload[..n], q)
  {
    var n := |payload| - 1;
    var init, last := payload[..n], payload[n];
    assert payload == init + [last];
    assert Keys(payload) == Keys(init) + [last.0];
    LookupAppend(init, [last], q);
    if DistinctKeys(payload) {
      assert DistinctKeys(init) by {
        forall i, j | 0 <= i < j < |init| ensures init[i].0 != init[j].0 {
          assert init[i] == payload[i] && init[j] == payload[j];
        }
      }
      assert last.0 !in Keys(init) by {
        forall i | 0 <= i < |init| ensures Keys(init)[i] != last.0 {
          assert init[i] == payload[i];
        }
      }
    }
  }

  /**
   * The hot reload is a merge, not a replace: afterwards each payload mode
   * is read back as its payload value, every mode absent from the payload
   * is read back as before, and nothing else in the configuration changes.
   */
  lemma MergeModesSemantics(conf: Config, payload: Entries, q: string, key: string)
    requires DistinctKeys(payload)
    ensures LoadedModes(MergeModesInto(conf, payload)) == PutAll(LoadedModes(conf), payload)
    ensures q in Keys(payload) ==> Lookup(LoadedModes(MergeModesInto(conf, payload)), q) == Lookup(payload, q)
    ensures q !in Keys(payload) ==> Lookup(LoadedModes(MergeModesInto(conf, payload)), q) == Lookup(LoadedModes(conf), q)
    ensures key != "modes" ==> Lookup(MergeModesInto(conf, payload).data, key) == Lookup(conf.data, key)
  {
    LookupPut(conf.data, "modes", Dict(PutAll(LoadedModes(conf), payload)), "modes");
    LookupPut(conf.data, "modes", Dict(PutAll(LoadedModes(conf), payload)), key);
    LookupPutAll(LoadedModes(conf), payload, q);
  }

  /** Applying the same modes payload twice is the same as applying it once. */
  lemma MergeModesIdempotent(conf: Config, payload: Entries, q: string)
    requires DistinctKeys(payload)
    ensures Lookup(LoadedModes(MergeModesInto(MergeModesInto(conf, payload), payload)), q) ==
      Lookup(LoadedModes(MergeModesInto(conf, payload)), q)
  {
    MergeModesSemantics(conf, payload, q, "modes");
    MergeModesSemantics(MergeModesInto(conf, payload), payload, q, "modes");
  }

  /**
   * `conf.modes[mode_name] = ...` as the code stands: `conf.modes` raises
   * AttributeError when the section is missing or null, and otherwise the
   * item assignment raises TypeError, since neither `Config` nor a plain
   * value read from it supports it.
   */
  function HotReloadModesAsWritten(conf: Config): (r: Result<Config>)
    ensures r.Err?
  {
    match conf.GetAttr("modes")
    case Err(e) => Err(e)
    case Ok(_) => Err(TypeError)
  }

  /** `apply_config_update` as written: identical except that a modes hot reload raises. */
  function ApplyConfigUpdateAsWritten(update: Value, conf: Config, disk: Disk): (a: Applied)
  {
    var intended := ApplyConfigUpdate(update, disk);
    if intended.effect.MergeModes? then
      match HotReloadModesAsWritten(conf)
      case Err(e) => Applied(Err(e), intended.wrote, NoEffect)
      case Ok(_) => intended
    else intended
  }

  /**
   * The discrepancy: for every valid, stored modes update the file is
   * written, yet the update raises, so the sender is told it failed and
   * the running controller keeps the old modes.
   */
  lemma ModesUpdateRaisesAfterWrite(update: Value, conf: Config)
    requires update.Dict? && GetOrNone(update.entries, "section") == Str("modes")
    requires ValidateModes(GetOrNone(update.entries, "data")) == Ok(Accept)
    ensures var a := ApplyConfigUpdateAsWritten(update, conf, Stored);
      a.result.Err? && a.wrote == Some((ModesFile, GetOrNone(update.entries, "data"))) && a.effect == NoEffect
  {
  }
}
