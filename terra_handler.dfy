// backend/terrapi/terra_handler.py: the controller. Inbound messages update
// following-planning and the manual mode; each tick resolves the effective
// mode from the planning and the minute of the day, then switches every
// control from its assignment in that mode, thermostat assignments through
// hysteresis objects kept per (control, mode).

module TerraHandler {
  import opened PyValues
  import opened PyText
  import opened ConfigLoader
  import opened ConfigManager
  import Thermo = Thermostat

  // ---------------------------------------------------------------------
  // get_mode

  /**
   * Attribute access on what a `Config` accessor returned: a nested `Config`
   * looks the name up, and a plain value (string, number, list) has none of
   * the attribute names the controller reads.
   */
  function Attr(o: Obj, name: string): (r: Result<Obj>)
    ensures o.Raw? ==> r == Err(AttributeError)
    ensures o.Wrapped? ==> r == o.c.GetAttr(name)
  {
    match o
    case Wrapped(c) => c.GetAttr(name)
    case Raw(_) => Err(AttributeError)
  }

  /**
   * `int(parts[0]) * 60 + int(parts[1])` with `parts = str(x).split(":")`:
   * no range check, and parts after the second are ignored. The `str()` of
   * an integer has no colon, so `parts[1]` raises IndexError; that of any
   * other value that is not a string starts with something `int()` refuses.
   */
  function ClockMinutes(o: Obj): (r: Result<int>)
    ensures r.Ok? ==> o.Raw? && o.v.Str? && |Split(o.v.s, ':')| >= 2
    ensures r.Ok? ==> ParseInt(Split(o.v.s, ':')[0]).Some? && ParseInt(Split(o.v.s, ':')[1]).Some?
    ensures r.Ok? ==> r.value == ParseInt(Split(o.v.s, ':')[0]).value * 60 + ParseInt(Split(o.v.s, ':')[1]).value
  {
    match o
    case Raw(Str(s)) => MinutesOfParts(Split(s, ':'))
    case Raw(Int(_)) => Err(IndexError)
    case _ => Err(ValueError)
  }

  /** `int(parts[0]) * 60 + int(parts[1])`, in that order of evaluation. */
  function MinutesOfParts(parts: seq<string>): (r: Result<int>)
    requires |parts| >= 1
    ensures r.Ok? <==> |parts| >= 2 && ParseInt(parts[0]).Some? && ParseInt(parts[1]).Some?
    ensures r.Err? ==> r.exc == (if ParseInt(parts[0]).Some? && |parts| < 2 then IndexError else ValueError)
  {
    match ParseInt(parts[0])
    case None => Err(ValueError)
    case Some(h) =>
      if |parts| < 2 then Err(IndexError)
      else match ParseInt(parts[1])
        case None => Err(ValueError)
        case Some(m) => Ok(h * 60 + m)
  }

  /** A time that passes `validate_planning` is read as a minute of the day. */
  lemma ValidTimeMinutes(v: Value)
    requires ValidTime(v)
    ensures ClockMinutes(Raw(v)) == Ok(ParseClock(v.s).value.0 * 60 + ParseClock(v.s).value.1)
    ensures 0 <= ClockMinutes(Raw(v)).value < 1440
  {
    var p := ParseClock(v.s).value;
    ClockMinutesOfParts(v.s, p.0, p.1);
  }

  /** A string whose first two `:`-parts are integers reads as `hour*60+minute`. */
  lemma ClockMinutesOfParts(s: string, h: int, m: int)
    requires |Split(s, ':')| >= 2 && ParseInt(Split(s, ':')[0]) == Some(h) && ParseInt(Split(s, ':')[1]) == Some(m)
    ensures ClockMinutes(Raw(Str(s))) == Ok(h * 60 + m)
  {
    var parts := Split(s, ':');
    assert MinutesOfParts(parts) == Ok(h * 60 + m);
  }

  /** The reading of a time is lenient: anything after a second colon is ignored. */
  lemma {:induction false} ExtraPartsIgnored(h: nat, m: nat, tail: string)
    requires h < 24 && m < 60
    ensures ClockMinutes(Raw(Str(ClockText(h, m) + ":" + tail))) == Ok(h * 60 + m)
  {
    var a, b := TwoDigits(h), TwoDigits(m);
    var s := ClockText(h, m) + ":" + tail;
    assert s == a + [':'] + (b + [':'] + tail);
    SplitAtFirst(a, b + [':'] + tail, ':');
    SplitAtFirst(b, tail, ':');
    var parts := Split(s, ':');
    assert parts == [a] + ([b] + Split(tail, ':'));
    assert parts[0] == a && parts[1] == b && |parts| >= 2;
    ParseTwoDigits(h);
    ParseTwoDigits(m);
    assert ClockMinutes(Raw(Str(s))) == Ok(h * 60 + m);
  }

  /** The match test: a same-day period is half-open, an overnight one wraps past midnight. */
  predicate InPeriod(start: int, end: int, t: int)
  {
    if start <= end then start <= t < end else t >= start || t < end
  }

  /** Over minutes of the day, a period covers exactly the minutes less than its length past its start, modulo a day. */
  lemma InPeriodModular(start: int, end: int, t: int)
    requires 0 <= start < 1440 && 0 <= end < 1440 && 0 <= t < 1440
    ensures InPeriod(start, end, t) <==> (t - start) % 1440 < (end - start) % 1440
  {
    if t >= start {
      assert (t - start) % 1440 == t - start;
    } else {
      assert (t - start) % 1440 == t - start + 1440;
    }
    if end >= start {
      assert (end - start) % 1440 == end - start;
    } else {
      assert (end - start) % 1440 == end - start + 1440;
    }
  }

  /** A period that starts where it ends never matches. */
  lemma EmptyPeriod(start: int, t: int)
    ensures !InPeriod(start, start, t)
  {
  }

  /** A period and its reverse split the day: every minute lies in exactly one of them. */
  lemma ReversePartitionsDay(start: int, end: int, t: int)
    requires start != end
    ensures InPeriod(start, end, t) != InPeriod(end, start, t)
  {
  }

  /** One period as `get_mode` reads it. */
  datatype Period = Period(start: int, end: int, mode: Obj)

  /** `period.start`, `period.end`, both times, then `period.mode`, in that order. */
  function ReadPeriod(period: Obj): (r: Result<Period>)
    ensures r.Ok? ==> period.Wrapped? && Attr(period, "mode") == Ok(r.value.mode)
    ensures r.Ok? ==> Attr(period, "start").Ok? && ClockMinutes(Attr(period, "start").value) == Ok(r.value.start)
    ensures r.Ok? ==> Attr(period, "end").Ok? && ClockMinutes(Attr(period, "end").value) == Ok(r.value.end)
  {
    var startText :- Attr(period, "start");
    var endText :- Attr(period, "end");
    var start :- ClockMinutes(startText);
    var end :- ClockMinutes(endText);
    var mode :- Attr(period, "mode");
    Ok(Period(start, end, mode))
  }

  /** The period stored under a key of the periods section. */
  function PeriodAt(periods: Config, key: string): Result<Period>
  {
    match periods.GetItem(key)
    case Err(e) => Err(e)
    case Ok(p) => ReadPeriod(p)
  }

  /** The periods in key order, each as `get_mode` would read it. */
  function ReadPeriods(periods: Config): (ps: seq<Result<Period>>)
    ensures |ps| == |periods.KeyList()|
    ensures forall i :: 0 <= i < |ps| ==> ps[i] == PeriodAt(periods, periods.KeyList()[i])
  {
    var keys := periods.KeyList();
    seq(|keys|, i requires 0 <= i < |keys| => PeriodAt(periods, keys[i]))
  }

  /** A period that is read without raising and does not cover minute `t`. */
  predicate Misses(p: Result<Period>, t: int)
  {
    p.Ok? && !InPeriod(p.value.start, p.value.end, t)
  }

  /** The `i`-th period is the first to cover minute `t`, every earlier one having been read. */
  predicate FirstHit(ps: seq<Result<Period>>, t: int, i: int)
  {
    0 <= i < |ps| && ps[i].Ok? && InPeriod(ps[i].value.start, ps[i].value.end, t) &&
    forall j :: 0 <= j < i ==> Misses(ps[j], t)
  }

  /**
   * The loop over the periods: the mode of the first one covering `t`, None
   * if none does. Reading a period has no side effect, so reading them all
   * first and stopping at the first exception or match is the same loop.
   */
  function Scan(ps: seq<Result<Period>>, t: int): Result<Option<Obj>>
  {
    if ps == [] then Ok(None)
    else
      var p :- ps[0];
      if InPeriod(p.start, p.end, t) then Ok(Some(p.mode)) else Scan(ps[1..], t)
  }

  /**
   * The first match wins: the scan finds nothing exactly when every period
   * is read and misses; it returns the mode of the first covering period;
   * and it raises only on a period that no earlier period shadowed.
   */
  lemma {:induction false} ScanFirstMatch(ps: seq<Result<Period>>, t: int)
    ensures Scan(ps, t) == Ok(None) <==> forall i :: 0 <= i < |ps| ==> Misses(ps[i], t)
    ensures forall i :: FirstHit(ps, t, i) ==> Scan(ps, t) == Ok(Some(ps[i].value.mode))
    ensures Scan(ps, t).Ok? && Scan(ps, t).value.Some? ==> exists i :: FirstHit(ps, t, i)
    ensures Scan(ps, t).Err? ==>
      exists i :: (0 <= i < |ps| && ps[i].Err? && forall j :: 0 <= j < i ==> Misses(ps[j], t))
  {
    if ps != [] {
      var rest := ps[1..];
      ScanFirstMatch(rest, t);
      if ps[0].Ok? && InPeriod(ps[0].value.start, ps[0].value.end, t) {
        assert FirstHit(ps, t, 0);
        assert forall i :: FirstHit(ps, t, i) ==> i == 0 by {
          assert !Misses(ps[0], t);
        }
      } else if ps[0].Ok? {
        assert Misses(ps[0], t);
        forall i | FirstHit(ps, t, i) ensures FirstHit(rest, t, i - 1) {
          assert i != 0;
          forall j | 0 <= j < i - 1 ensures Misses(rest[j], t) {
            assert rest[j] == ps[j + 1];
          }
        }
        if Scan(rest, t).Ok? && Scan(rest, t).value.Some? {
          var k :| FirstHit(rest, t, k);
          assert FirstHit(ps, t, k + 1) by {
            forall j | 0 <= j < k + 1 ensures Misses(ps[j], t) {
              if j > 0 { assert ps[j] == rest[j - 1]; }
            }
          }
        }
        if Scan(rest, t).Err? {
          var k :| 0 <= k < |rest| && rest[k].Err? && forall j :: 0 <= j < k ==> Misses(rest[j], t);
          assert ps[k + 1].Err?;
          forall j | 0 <= j < k + 1 ensures Misses(ps[j], t) {
            if j > 0 { assert ps[j] == rest[j - 1]; }
          }
        }
        if forall i :: 0 <= i < |rest| ==> Misses(rest[i], t) {
          forall i | 0 <= i < |ps| ensures Misses(ps[i], t) {
            if i > 0 { assert ps[i] == rest[i - 1]; }
          }
        }
      } else {
        assert !Misses(ps[0], t);
      }
    }
  }

  /**
   * `get_mode` for the minute of the day `t`: with planning off, the current
   * mode unchanged; otherwise the mode of the first period (in the order of
   * the periods section) that covers `t`, else `planning.default_mode`. Each
   * attribute read raises as `Config` does, so a missing or null period mode
   * or default mode raises AttributeError.
   */
  function GetMode(followPlanning: Obj, currentMode: Obj, conf: Config, t: int): (r: Result<Obj>)
    ensures !ObjTruthy(followPlanning) ==> r == Ok(currentMode)
  {
    if !ObjTruthy(followPlanning) then Ok(currentMode)
    else
      var planning :- conf.GetAttr("planning");
      var periods :- Attr(planning, "periods");
      if periods.Raw? then Err(AttributeError)
      else
        var found :- Scan(ReadPeriods(periods.c), t);
        match found
        case Some(mode) => Ok(mode)
        case None => Attr(planning, "default_mode")
  }

  /** The periods section `get_mode` scans, when both attribute reads succeed and it is a dict. */
  function PeriodsOf(conf: Config): Option<Config>
  {
    match conf.GetAttr("planning")
    case Ok(Wrapped(planning)) =>
      (match planning.GetAttr("periods")
       case Ok(Wrapped(periods)) => Some(periods)
       case _ => None)
    case _ => None
  }

  /**
   * With planning on, `get_mode` is the first match over the periods in
   * their order, falling back to `planning.default_mode` when none matches.
   */
  lemma GetModeFirstMatch(followPlanning: Obj, currentMode: Obj, conf: Config, t: int)
    requires ObjTruthy(followPlanning) && PeriodsOf(conf).Some?
    ensures var ps := ReadPeriods(PeriodsOf(conf).value);
      forall i :: FirstHit(ps, t, i) ==> GetMode(followPlanning, currentMode, conf, t) == Ok(ps[i].value.mode)
    ensures var ps := ReadPeriods(PeriodsOf(conf).value);
      (forall i :: 0 <= i < |ps| ==> Misses(ps[i], t)) ==>
        GetMode(followPlanning, currentMode, conf, t) == conf.GetAttr("planning").value.c.GetAttr("default_mode")
  {
    ScanFirstMatch(ReadPeriods(PeriodsOf(conf).value), t);
  }

  /**
   * A planning that `validate_planning` accepts, with a periods section and
   * non-null period modes and default mode, never makes `get_mode` raise.
   */
  lemma ValidatedPlanningResolves(followPlanning: Obj, currentMode: Obj, conf: Config, t: int)
    requires ObjTruthy(followPlanning)
    requires Lookup(conf.data, "planning").Some? && Lookup(conf.data, "planning").value.Dict?
    requires var planning := Lookup(conf.data, "planning").value;
      ValidatePlanning(planning) == Ok(Accept) && Lookup(planning.entries, "default_mode").Some? &&
      Lookup(planning.entries, "default_mode").value != Null &&
      Lookup(planning.entries, "periods").Some? && Lookup(planning.entries, "periods").value.Dict?
    requires var periods := Lookup(Lookup(conf.data, "planning").value.entries, "periods").value;
      forall i :: 0 <= i < |periods.entries| ==> Lookup(periods.entries[i].1.entries, "mode") != Some(Null)
    ensures GetMode(followPlanning, currentMode, conf, t).Ok?
  {
    var planning := Lookup(conf.data, "planning").value;
    assert Contains(planning, "periods") == Ok(true);
    WellFormedPlanningResolves(followPlanning, currentMode, conf, t);
  }

  /** The same, stated on the shape of the planning rather than on its validation. */
  lemma WellFormedPlanningResolves(followPlanning: Obj, currentMode: Obj, conf: Config, t: int)
    requires ObjTruthy(followPlanning)
    requires Lookup(conf.data, "planning").Some? && Lookup(conf.data, "planning").value.Dict?
    requires var planning := Lookup(conf.data, "planning").value;
      Lookup(planning.entries, "default_mode").Some? && Lookup(planning.entries, "default_mode").value != Null &&
      Lookup(planning.entries, "periods").Some? && Lookup(planning.entries, "periods").value.Dict?
    requires var periods := Lookup(Lookup(conf.data, "planning").value.entries, "periods").value;
      forall i :: 0 <= i < |periods.entries| ==>
        PeriodOk(periods.entries[i].1) && Lookup(periods.entries[i].1.entries, "mode") != Some(Null)
    ensures GetMode(followPlanning, currentMode, conf, t).Ok?
  {
    var planning := Config(Lookup(conf.data, "planning").value.entries);
    var periods := Config(Lookup(planning.data, "periods").value.entries);
    assert conf.GetAttr("planning") == Ok(Wrapped(planning));
    assert planning.GetAttr("periods") == Ok(Wrapped(periods));
    assert planning.GetAttr("default_mode").Ok?;
    ScanReadable(periods, t);
  }

  /** A periods section whose every period is well formed and names a mode is scanned without raising. */
  lemma ScanReadable(periods: Config, t: int)
    requires forall i :: 0 <= i < |periods.data| ==>
      PeriodOk(periods.data[i].1) && Lookup(periods.data[i].1.entries, "mode") != Some(Null)
    ensures Scan(ReadPeriods(periods), t).Ok?
  {
    var ps := ReadPeriods(periods);
    ScanFirstMatch(ps, t);
    forall i | 0 <= i < |ps| ensures ps[i].Ok? {
      var key := periods.KeyList()[i];
      var v := Lookup(periods.data, key).value;
      var j :| 0 <= j < |periods.data| && periods.data[j] == (key, v);
      PeriodReadable(v);
    }
  }

  /** A period that passes `validate_planning` and names a mode is read without raising. */
  lemma PeriodReadable(v: Value)
    requires PeriodOk(v) && Lookup(v.entries, "mode") != Some(Null)
    ensures ReadPeriod(Wrap(v)).Ok?
  {
    TimeFieldReadable(v, "start");
    TimeFieldReadable(v, "end");
    assert Attr(Wrap(v), "mode").Ok?;
  }

  /** A well-formed time field of a period dict is read as a minute of the day. */
  lemma TimeFieldReadable(v: Value, field: string)
    requires field == "start" || field == "end"
    requires v.Dict? && field in Keys(v.entries) && ValidTime(Lookup(v.entries, field).value)
    ensures Attr(Wrap(v), field) == Ok(Raw(Lookup(v.entries, field).value))
    ensures ClockMinutes(Raw(Lookup(v.entries, field).value)).Ok?
  {
    ValidTimeMinutes(Lookup(v.entries, field).value);
  }

  // ---------------------------------------------------------------------
  // _apply_thermostat and the control part of run

  /** What a thermostat object holds. */
  datatype ThermoState = ThermoState(target: real, hysteresis: real, action: Thermo.Action, relay: bool)

  /** The `_thermostats` dict by value: thermostat key to the state of its object. */
  type Table = map<string, ThermoState>

  /**
   * The sensor data of one tick, as the temperature each sensor reported; a
   * sensor that gave no data, an empty reading or no temperature is absent.
   */
  type Readings = map<string, real>

  /**
   * `get_val(key, default)` on a `Config`: the attribute when reading it does
   * not raise, else the default (a `Config` is never a dict, so the
   * `isinstance` branch is not taken).
   */
  function GetVal(c: Config, key: string, default: Value): (r: Obj)
    ensures (|key| == 0 || key[0] != '_') && Lookup(c.data, key).Some? && Lookup(c.data, key).value != Null ==>
      r == Wrap(Lookup(c.data, key).value)
    ensures Lookup(c.data, key) == None || Lookup(c.data, key) == Some(Null) ==> r == Raw(default)
  {
    match c.GetAttr(key)
    case Ok(v) => v
    case Err(_) => Raw(default)
  }

  /** `float(x)` for what a setting can hold. */
  function ToFloat(o: Obj): (r: Result<real>)
    ensures o.Wrapped? ==> r == Err(TypeError)
    ensures o.Raw? && o.v.Str? ==> (r.Ok? <==> ParseFloat(o.v.s).Some?)
  {
    match o
    case Raw(Int(i)) => Ok(i as real)
    case Raw(Float(f)) => Ok(f)
    case Raw(Bool(b)) => Ok(if b then 1.0 else 0.0)
    case Raw(Str(s)) =>
      (match ParseFloat(s)
       case Some(f) => Ok(f)
       case None => Err(ValueError))
    case _ => Err(TypeError)
  }

  /** The `action` setting as `compute_state` compares it. */
  function ActionOf(o: Obj): (a: Thermo.Action)
    ensures a == Thermo.Cooling <==> o == Raw(Str("cooling"))
    ensures a == Thermo.Heating <==> o == Raw(Str("heating"))
  {
    if o == Raw(Str("cooling")) then Thermo.Cooling
    else if o == Raw(Str("heating")) then Thermo.Heating
    else Thermo.Unrecognised
  }

  /**
   * `sensor_data.get(sensor_name, {})` and then its temperature: a name
   * that is a string is looked up; a list cannot be hashed and raises
   * TypeError; any other value is no key of the sensor data.
   */
  function SensorTemperature(data: Readings, sensor: Obj): (r: Result<Option<real>>)
    ensures sensor.Raw? && sensor.v.Str? ==> r == Ok(if sensor.v.s in data then Some(data[sensor.v.s]) else None)
  {
    match sensor
    case Raw(Str(s)) => Ok(if s in data then Some(data[s]) else None)
    case Raw(List(_)) => Err(TypeError)
    case Raw(Dict(_)) => Err(TypeError)
    case _ => Ok(None)
  }

  /** `f"{control_name}_{self._current_mode}"`. */
  function ThermostatKey(control: string, mode: string): string
  {
    control + "_" + mode
  }

  /** The settings a thermostat assignment holds, read in the order `_apply_thermostat` reads them. */
  datatype Settings = Settings(target: real, hysteresis: real, sensor: Obj, action: Thermo.Action)

  /** Reading the settings raises only when a temperature setting is not a number. */
  function ReadSettings(c: Config): (r: Result<Settings>)
    ensures r.Ok? ==> ToFloat(GetVal(c, "target_temperature", Float(25.0))) == Ok(r.value.target)
    ensures r.Ok? ==> ToFloat(GetVal(c, "hysteresis", Float(1.0))) == Ok(r.value.hysteresis)
    ensures r.Err? <==> (ToFloat(GetVal(c, "target_temperature", Float(25.0))).Err? ||
      ToFloat(GetVal(c, "hysteresis", Float(1.0))).Err?)
  {
    var target :- ToFloat(GetVal(c, "target_temperature", Float(25.0)));
    var hysteresis :- ToFloat(GetVal(c, "hysteresis", Float(1.0)));
    Ok(Settings(target, hysteresis, GetVal(c, "sensor", Str("dht22")), ActionOf(GetVal(c, "action", Str("cooling")))))
  }

  /**
   * `_apply_thermostat`: the relay state for `control` and the thermostat
   * table afterwards. Disabled: OFF. No temperature: the state of a
   * thermostat stored under the bare control name, else OFF. Otherwise the
   * thermostat under (control, mode) is created OFF or has its settings
   * overwritten, then takes the reading.
   */
  function ThermostatDecision(control: string, mode: string, c: Config, data: Readings, table: Table): Result<(bool, Table)>
  {
    if !ObjTruthy(GetVal(c, "enabled", Bool(false))) then Ok((false, table))
    else
      var st :- ReadSettings(c);
      var temp :- SensorTemperature(data, st.sensor);
      Ok(ThermostatStep(control, mode, st, temp, table))
  }

  /** `_apply_thermostat` once the settings and the temperature have been read. */
  function ThermostatStep(control: string, mode: string, st: Settings, temp: Option<real>, table: Table): (bool, Table)
  {
    match temp
    case None => (control in table && table[control].relay, table)
    case Some(x) =>
      var key := ThermostatKey(control, mode);
      var on := Thermo.NextRelayState(st.action, st.target, st.hysteresis, x, key in table && table[key].relay);
      (on, table[key := ThermoState(st.target, st.hysteresis, st.action, on)])
  }

  /** A disabled thermostat, or one without an `enabled` setting, is OFF and changes nothing. */
  lemma DisabledIsOff(control: string, mode: string, c: Config, data: Readings, table: Table)
    requires !c.HasAttr("enabled") || !ObjTruthy(c.GetAttr("enabled").value)
    ensures ThermostatDecision(control, mode, c, data, table) == Ok((false, table))
  {
  }

  /**
   * Without a temperature the table is left alone and the answer is the
   * state stored under the bare control name, which is not the key
   * thermostats are stored under.
   */
  lemma MissingTemperatureKeepsBareState(control: string, mode: string, c: Config, data: Readings, table: Table)
    requires ObjTruthy(GetVal(c, "enabled", Bool(false))) && ReadSettings(c).Ok?
    requires SensorTemperature(data, ReadSettings(c).value.sensor) == Ok(None)
    ensures ThermostatDecision(control, mode, c, data, table) ==
      Ok((control in table && table[control].relay, table))
  {
  }

  /**
   * With a temperature, the thermostat under (control, mode) takes the new
   * settings: a new one starts OFF, an existing one keeps its relay state
   * as the state the reading is applied to; no other entry changes.
   */
  lemma ReadingUpdatesOneEntry(control: string, mode: string, c: Config, data: Readings, table: Table, x: real)
    requires ObjTruthy(GetVal(c, "enabled", Bool(false))) && ReadSettings(c).Ok?
    requires SensorTemperature(data, ReadSettings(c).value.sensor) == Ok(Some(x))
    ensures var st, key := ReadSettings(c).value, ThermostatKey(control, mode);
      var previous := if key in table then table[key].relay else false;
      var d := ThermostatDecision(control, mode, c, data, table);
      d.Ok? && d.value.1.Keys == table.Keys + {key} &&
      d.value.1[key] == ThermoState(st.target, st.hysteresis, st.action, d.value.0) &&
      d.value.0 == Thermo.NextRelayState(st.action, st.target, st.hysteresis, x, previous) &&
      forall k :: k in table && k != key ==> d.value.1[k] == table[k]
  {
  }

  /** A reading strictly inside the band leaves a stored thermostat as it was switched. */
  lemma BandReadingHolds(control: string, mode: string, c: Config, data: Readings, table: Table, x: real)
    requires ObjTruthy(GetVal(c, "enabled", Bool(false))) && ReadSettings(c).Ok?
    requires SensorTemperature(data, ReadSettings(c).value.sensor) == Ok(Some(x))
    requires ThermostatKey(control, mode) in table
    requires var st := ReadSettings(c).value; st.target - st.hysteresis < x < st.target + st.hysteresis
    ensures ThermostatDecision(control, mode, c, data, table).Ok?
    ensures ThermostatDecision(control, mode, c, data, table).value.0 == table[ThermostatKey(control, mode)].relay
  {
    var st := ReadSettings(c).value;
    Thermo.DeadBandHolds(st.action, st.target, st.hysteresis, x, table[ThermostatKey(control, mode)].relay);
  }

  /** `mode_params.get(control_name)`: a `Config` looks the control up; a plain value has no such attribute. */
  function Assignment(params: Obj, control: string): (r: Obj)
    ensures params.Raw? ==> r == Raw(Null)
    ensures params.Wrapped? && Lookup(params.c.data, control).Some? ==> r == Wrap(Lookup(params.c.data, control).value)
    ensures params.Wrapped? ==> (r == Raw(Null) <==> Lookup(params.c.data, control) == None || Lookup(params.c.data, control) == Some(Null))
  {
    match params
    case Wrapped(c) => c.Get(control, Null)
    case Raw(_) => Raw(Null)
  }

  /** An assignment is a thermostat when it is a `Config` whose `type` reads "thermostat". */
  predicate IsThermostat(a: Obj)
  {
    a.Wrapped? && a.c.GetAttr("type") == Ok(Raw(Str("thermostat")))
  }

  /** The state one control is switched to: a thermostat's decision, or the truth of its assignment (OFF when absent). */
  function ControlDecision(control: string, mode: string, params: Obj, data: Readings, table: Table): Result<(bool, Table)>
  {
    var a := Assignment(params, control);
    if IsThermostat(a) then ThermostatDecision(control, mode, a.c, data, table) else Ok((ObjTruthy(a), table))
  }

  /** A thermostat decision only ever adds or overwrites the entry under (control, mode). */
  lemma DecisionTouchesOneKey(control: string, mode: string, params: Obj, data: Readings, table: Table)
    requires ControlDecision(control, mode, params, data, table).Ok?
    ensures var t := ControlDecision(control, mode, params, data, table).value.1;
      t.Keys <= table.Keys + {ThermostatKey(control, mode)} && table.Keys <= t.Keys &&
      forall k :: k in table && k != ThermostatKey(control, mode) ==> t[k] == table[k]
  {
    var a := Assignment(params, control);
    if IsThermostat(a) && ObjTruthy(GetVal(a.c, "enabled", Bool(false))) {
      var st := ReadSettings(a.c).value;
      var temp := SensorTemperature(data, st.sensor).value;
      assert ControlDecision(control, mode, params, data, table).value == ThermostatStep(control, mode, st, temp, table);
    }
  }

  /** What the tick does with the controls. */
  datatype Plan =
    | AllOff                                  // mode None or "None"
    | Skip                                    // the mode is not in the modes table
    | Apply(mode: string, params: Obj)        // the mode's assignments

  /**
   * Lines 160-173: None or "None" switches everything off; otherwise the
   * mode is looked up in `conf.modes` (which raises when missing), and a
   * mode it does not hold skips the tick. A mode that is not a string is
   * never found in the modes dict, and cannot be hashed when it is a list;
   * on a modes section that is not a dict, `getattr` needs a string name.
   */
  function TickPlan(mode: Obj, conf: Config): (r: Result<Plan>)
    ensures mode == Raw(Null) || mode == Raw(Str("None")) ==> r == Ok(AllOff)
    ensures r.Ok? && r.value.Apply? ==> mode == Raw(Str(r.value.mode)) && r.value.params != Raw(Null)
    ensures r.Ok? && r.value.Apply? ==>
      conf.GetAttr("modes").Ok? && conf.GetAttr("modes").value.Wrapped? &&
      conf.GetAttr("modes").value.c.Get(r.value.mode, Null) == r.value.params
    ensures conf.GetAttr("modes").Err? && mode != Raw(Null) && mode != Raw(Str("None")) ==> r.Err?
  {
    if mode == Raw(Null) || mode == Raw(Str("None")) then Ok(AllOff)
    else
      var modes :- conf.GetAttr("modes");
      match modes
      case Wrapped(c) =>
        (match mode
         case Raw(Str(s)) =>
           var params := c.Get(s, Null);
           if params == Raw(Null) then Ok(Skip) else Ok(Apply(s, params))
         case Raw(List(_)) => Err(TypeError)
         case Raw(Dict(_)) => Err(TypeError)
         case _ => Ok(Skip))
      case Raw(_) => if mode.Raw? && mode.v.Str? then Ok(Skip) else Err(TypeError)
  }

  /** The relays after switching every listed control off. */
  function AllOffSpec(controls: seq<string>, relays: map<string, bool>): map<string, bool>
  {
    if controls == [] then relays else AllOffSpec(controls[1..], relays[controls[0] := false])
  }

  /** Every listed control ends OFF; no other relay changes. */
  lemma {:induction false} AllOffSwitchesEveryControl(controls: seq<string>, relays: map<string, bool>)
    ensures AllOffSpec(controls, relays).Keys == relays.Keys + set c | c in controls
    ensures forall c :: c in controls ==> AllOffSpec(controls, relays)[c] == false
    ensures forall c :: c in relays && c !in controls ==> AllOffSpec(controls, relays)[c] == relays[c]
  {
    if controls != [] {
      AllOffSwitchesEveryControl(controls[1..], relays[controls[0] := false]);
      assert forall c :: c in controls <==> c == controls[0] || c in controls[1..];
    }
  }

  /** The outcome of the control part of a tick: relay states, thermostat table, and the exception that ended the loop, if any. */
  datatype Snapshot = Snapshot(relays: map<string, bool>, table: Table, failure: Option<Exc>)

  /** The loop over the controls, in their order; an exception ends it with the controls before it already switched. */
  function ApplyControls(controls: seq<string>, mode: string, params: Obj, data: Readings,
                         relays: map<string, bool>, table: Table): Snapshot
  {
    if controls == [] then Snapshot(relays, table, None)
    else
      match ControlDecision(controls[0], mode, params, data, table)
      case Err(e) => Snapshot(relays, table, Some(e))
      case Ok((on, t)) => ApplyControls(controls[1..], mode, params, data, relays[controls[0] := on], t)
  }

  /**
   * When the loop completes, every control that is not a thermostat is
   * switched to the truth of its assignment (OFF when it has none), every
   * control has a relay state, and no other relay changes.
   */
  lemma {:induction false} PlainControlsFollowAssignment(controls: seq<string>, mode: string, params: Obj, data: Readings,
                                                          relays: map<string, bool>, table: Table)
    requires forall i, j :: 0 <= i < j < |controls| ==> controls[i] != controls[j]
    requires ApplyControls(controls, mode, params, data, relays, table).failure.None?
    ensures var out := ApplyControls(controls, mode, params, data, relays, table).relays;
      out.Keys == relays.Keys + (set c | c in controls) &&
      (forall c :: c in relays && c !in controls ==> out[c] == relays[c]) &&
      forall i :: 0 <= i < |controls| && !IsThermostat(Assignment(params, controls[i])) ==>
        out[controls[i]] == ObjTruthy(Assignment(params, controls[i]))
  {
    if controls != [] {
      var c := controls[0];
      var d := ControlDecision(c, mode, params, data, table).value;
      PlainControlsFollowAssignment(controls[1..], mode, params, data, relays[c := d.0], d.1);
      assert forall x :: x in controls <==> x == c || x in controls[1..];
      forall i | 1 <= i < |controls| ensures controls[i] != c && controls[i] == controls[1..][i - 1] {
      }
    }
  }

  /**
   * Thermostat entries are never removed, and the only entries a tick adds
   * or changes are under (control, mode) keys for the controls of the tick.
   */
  lemma {:induction false} TableOnlyGrows(controls: seq<string>, mode: string, params: Obj, data: Readings,
                                          relays: map<string, bool>, table: Table)
    ensures var t := ApplyControls(controls, mode, params, data, relays, table).table;
      table.Keys <= t.Keys &&
      forall k :: k in t && (k !in table || t[k] != table[k]) ==>
        exists i :: 0 <= i < |controls| && k == ThermostatKey(controls[i], mode)
  {
    if controls != [] {
      var c := controls[0];
      var d := ControlDecision(c, mode, params, data, table);
      if d.Ok? {
        DecisionTouchesOneKey(c, mode, params, data, table);
        var rest := controls[1..];
        TableOnlyGrows(rest, mode, params, data, relays[c := d.value.0], d.value.1);
        var t := ApplyControls(controls, mode, params, data, relays, table).table;
        forall k | k in t && (k !in table || t[k] != table[k])
          ensures exists i :: 0 <= i < |controls| && k == ThermostatKey(controls[i], mode)
        {
          if k in d.value.1 && t[k] == d.value.1[k] {
            assert k == ThermostatKey(controls[0], mode);
          } else {
            var i :| 0 <= i < |rest| && k == ThermostatKey(rest[i], mode);
            assert rest[i] == controls[i + 1];
          }
        }
      }
    }
  }

  /** One step of the loop over the controls. */
  lemma ApplyControlsStep(controls: seq<string>, mode: string, params: Obj, data: Readings,
                          relays: map<string, bool>, table: Table)
    requires controls != [] && ControlDecision(controls[0], mode, params, data, table).Ok?
    ensures var d := ControlDecision(controls[0], mode, params, data, table).value;
      ApplyControls(controls, mode, params, data, relays, table) ==
      ApplyControls(controls[1..], mode, params, data, relays[controls[0] := d.0], d.1)
  {
  }

  /** The loop over the controls stops at a control whose decision raises. */
  lemma ApplyControlsStop(controls: seq<string>, mode: string, params: Obj, data: Readings,
                          relays: map<string, bool>, table: Table)
    requires controls != [] && ControlDecision(controls[0], mode, params, data, table).Err?
    ensures ApplyControls(controls, mode, params, data, relays, table) ==
      Snapshot(relays, table, Some(ControlDecision(controls[0], mode, params, data, table).exc))
  {
  }

  /** The control part of a tick for a resolved mode. */
  function Control(plan: Result<Plan>, controls: seq<string>, data: Readings, relays: map<string, bool>, table: Table): Snapshot
  {
    match plan
    case Err(e) => Snapshot(relays, table, Some(e))
    case Ok(AllOff) => Snapshot(AllOffSpec(controls, relays), table, None)
    case Ok(Skip) => Snapshot(relays, table, None)
    case Ok(Apply(mode, params)) => ApplyControls(controls, mode, params, data, relays, table)
  }

  /** One tick: resolve the mode (stored as the current mode unless resolving raised), then switch the controls. */
  function TickSpec(followPlanning: Obj, currentMode: Obj, conf: Config, minute: int, controls: seq<string>,
                    data: Readings, relays: map<string, bool>, table: Table): (Obj, Snapshot)
  {
    TickOutcome(GetMode(followPlanning, currentMode, conf, minute), currentMode, conf, controls, data, relays, table)
  }

  /** A tick once the mode has been resolved, or resolving it raised. */
  function TickOutcome(resolved: Result<Obj>, currentMode: Obj, conf: Config, controls: seq<string>,
                       data: Readings, relays: map<string, bool>, table: Table): (Obj, Snapshot)
  {
    match resolved
    case Err(e) => (currentMode, Snapshot(relays, table, Some(e)))
    case Ok(mode) => (mode, Control(TickPlan(mode, conf), controls, data, relays, table))
  }

  /**
   * Lines 201-204 as written: the publish loop calls `control.get_state()`,
   * which neither `Control` nor `Relay` defines, so the first control
   * raises AttributeError; without controls the loop does nothing.
   */
  function PublishStates(controls: seq<string>): (r: Option<Exc>)
    ensures r.None? <==> controls == []
    ensures r.Some? ==> r.value == AttributeError
  {
    if controls == [] then None else Some(AttributeError)
  }

  /**
   * One tick as written: the tick of TickSpec, then the publish loop, which
   * is reached unless the tick already raised or skipped an unknown mode
   * (the `continue` of line 173).
   */
  function TickAsWrittenSpec(followPlanning: Obj, currentMode: Obj, conf: Config, minute: int, controls: seq<string>,
                             data: Readings, relays: map<string, bool>, table: Table): (Obj, Snapshot)
  {
    PublishAfter(TickSpec(followPlanning, currentMode, conf, minute, controls, data, relays, table), conf, controls)
  }

  /** The publish loop after a tick's outcome: reached unless the tick raised or skipped. */
  function PublishAfter(outcome: (Obj, Snapshot), conf: Config, controls: seq<string>): (Obj, Snapshot)
  {
    var (mode, s) := outcome;
    if s.failure.Some? || TickPlan(mode, conf) == Ok(Skip) then outcome
    else (mode, s.(failure := PublishStates(controls)))
  }

  /**
   * As written, with at least one control, a tick completes only when it
   * skips an unknown mode: every other tick switches the controls as the
   * corrected tick does and then raises AttributeError, which ends `run()`.
   */
  lemma TickAsWrittenRaises(followPlanning: Obj, currentMode: Obj, conf: Config, minute: int, controls: seq<string>,
                            data: Readings, relays: map<string, bool>, table: Table)
    requires controls != []
    ensures var w := TickAsWrittenSpec(followPlanning, currentMode, conf, minute, controls, data, relays, table);
      var m := GetMode(followPlanning, currentMode, conf, minute);
      w.1.failure.None? <==> m.Ok? && TickPlan(m.value, conf) == Ok(Skip)
    ensures var w := TickAsWrittenSpec(followPlanning, currentMode, conf, minute, controls, data, relays, table);
      var c := TickSpec(followPlanning, currentMode, conf, minute, controls, data, relays, table);
      w.0 == c.0 && w.1.relays == c.1.relays && w.1.table == c.1.table &&
      (c.1.failure.None? && w.1.failure.Some? ==> w.1.failure == Some(AttributeError))
  {
    OutcomeAsWrittenRaises(GetMode(followPlanning, currentMode, conf, minute), currentMode, conf, controls, data, relays, table);
  }

  /** TickAsWrittenRaises for any outcome of resolving the mode. */
  lemma OutcomeAsWrittenRaises(resolved: Result<Obj>, currentMode: Obj, conf: Config, controls: seq<string>,
                               data: Readings, relays: map<string, bool>, table: Table)
    requires controls != []
    ensures var c := TickOutcome(resolved, currentMode, conf, controls, data, relays, table);
      var w := PublishAfter(c, conf, controls);
      (w.1.failure.None? <==> resolved.Ok? && TickPlan(resolved.value, conf) == Ok(Skip)) &&
      w.0 == c.0 && w.1.relays == c.1.relays && w.1.table == c.1.table &&
      (c.1.failure.None? && w.1.failure.Some? ==> w.1.failure == Some(AttributeError))
  {
    if resolved.Ok? && TickPlan(resolved.value, conf) == Ok(Skip) {
      assert Control(Ok(Skip), controls, data, relays, table).failure.None?;
    }
  }

  /**
   * A concrete tick that shows it: planning off, mode "None", one control.
   * The control is switched OFF, and then the tick raises AttributeError.
   */
  lemma NoneModeTickRaises(conf: Config, minute: int, data: Readings, relays: map<string, bool>, table: Table)
    ensures var w := TickAsWrittenSpec(Raw(Bool(false)), Raw(Str("None")), conf, minute, ["heater"], data, relays, table);
      w.1.failure == Some(AttributeError) && "heater" in w.1.relays && !w.1.relays["heater"] && w.1.table == table
  {
    assert GetMode(Raw(Bool(false)), Raw(Str("None")), conf, minute) == Ok(Raw(Str("None")));
    assert TickPlan(Raw(Str("None")), conf) == Ok(AllOff);
    AllOffSwitchesEveryControl(["heater"], relays);
    assert "heater" in ["heater"];
  }

  /** A None or "None" mode switches every control off and leaves the thermostats alone. */
  lemma NoneModeAllOff(mode: Obj, conf: Config, controls: seq<string>, data: Readings, relays: map<string, bool>, table: Table)
    requires mode == Raw(Null) || mode == Raw(Str("None"))
    ensures var s := Control(TickPlan(mode, conf), controls, data, relays, table);
      s.failure.None? && s.table == table && forall c :: c in controls ==> c in s.relays && !s.relays[c]
  {
    AllOffSwitchesEveryControl(controls, relays);
  }

  /** A string mode the modes table does not hold switches nothing and leaves the thermostats alone. */
  lemma UnknownModeSkipsTick(mode: string, conf: Config, controls: seq<string>, data: Readings, relays: map<string, bool>, table: Table)
    requires mode != "None"
    requires conf.GetAttr("modes").Ok? && conf.GetAttr("modes").value.Wrapped?
    requires mode !in conf.GetAttr("modes").value.c.KeyList()
    ensures Control(TickPlan(Raw(Str(mode)), conf), controls, data, relays, table) == Snapshot(relays, table, None)
  {
  }

  /** What a thermostat object holds, read off the object. */
  function StateOf(t: Thermo.Thermostat): ThermoState
    reads t
  {
    ThermoState(t.targetTemp, t.hysteresis, t.action, t.relayState)
  }

  /** The status published on config/status. */
  datatype StatusMessage = Report(m: Message) | InvalidJson | Error(exc: Exc)
  datatype Status = Status(success: bool, message: StatusMessage, section: Option<Value>)

  /** The status published for a decoded update, given what applying it did; the section is echoed back. */
  function StatusOf(update: Entries, a: Applied): (s: Status)
    ensures a.result.Err? ==> s == Status(false, Error(a.result.exc), None)
    ensures a.result.Ok? ==> s.success == a.result.value.0 && s.section == Some(GetOrNone(update, "section"))
  {
    match a.result
    case Err(e) => Status(false, Error(e), None)
    case Ok((success, message)) => Status(success, Report(message), Some(GetOrNone(update, "section")))
  }

  /** `self._follow_planning = conf.planning.active`, after which `conf.log_interval` must be readable too. */
  function InitialFollowPlanning(conf: Config): (r: Result<Obj>)
    ensures r.Ok? ==> conf.GetAttr("planning").Ok? && Attr(conf.GetAttr("planning").value, "active") == r
    ensures r.Ok? ==> conf.GetAttr("log_interval").Ok?
  {
    var planning :- conf.GetAttr("planning");
    var active :- Attr(planning, "active");
    var _ :- conf.GetAttr("log_interval");
    Ok(active)
  }

  class Handler {
    /** The loaded configuration. */
    var conf: Config
    /** `_follow_planning`: any value; its truth decides whether the planning is followed. */
    var followPlanning: Obj
    /** `_current_mode`; `Raw(Null)` is None. */
    var currentMode: Obj
    /** `_default_mode`, set by a planning update and read nowhere. */
    var defaultMode: Option<Value>
    /** The controls of the terrarium, in their order. */
    const controlNames: seq<string>
    /** The state each control was last switched to. */
    var relays: map<string, bool>
    /** `_thermostats`: one object per (control, mode) key. */
    var thermostats: map<string, Thermo.Thermostat>

    /** Distinct keys hold distinct objects, so updating one entry leaves the others alone. */
    ghost predicate Valid()
      reads this`thermostats
    {
      forall k1, k2 :: k1 in thermostats && k2 in thermostats && k1 != k2 ==> thermostats[k1] != thermostats[k2]
    }

    /** The thermostat table by value. */
    ghost function CurrentTable(): Table
      reads this`thermostats, thermostats.Values
    {
      map k | k in thermostats :: StateOf(thermostats[k])
    }

    /** `__init__` once `conf.planning.active` has been read: no mode yet, no thermostats. */
    constructor (conf: Config, followPlanning: Obj, controlNames: seq<string>, relays: map<string, bool>)
      ensures this.conf == conf && this.followPlanning == followPlanning
      ensures this.controlNames == controlNames && this.relays == relays
      ensures currentMode == Raw(Null) && defaultMode == None && thermostats == map[]
      ensures Valid()
    {
      this.conf := conf;
      this.followPlanning := followPlanning;
      currentMode := Raw(Null);
      defaultMode := None;
      this.controlNames := controlNames;
      this.relays := relays;
      thermostats := map[];
    }

    /**
     * `_handle_message` for one message, its payload already decoded from
     * UTF-8; `decoded` is what `json.loads` makes of it (None when it
     * raises) and `disk` the outcome of any file write. Returns the status
     * published on config/status and the file written, if any.
     */
    method HandleMessage(topic: string, payload: string, decoded: Option<Value>, disk: Disk)
      returns (status: Option<Status>, wrote: Option<(Section, Value)>)
      modifies this`followPlanning, this`currentMode, this`conf, this`defaultMode
      ensures topic == "planning/active" ==>
        followPlanning == Raw(Bool(payload == "1")) && currentMode == old(currentMode)
      ensures topic == "mode/set" ==>
        followPlanning == old(followPlanning) &&
        currentMode == (if ObjTruthy(old(followPlanning)) then old(currentMode) else Raw(Str(payload)))
      ensures topic != "config/update" ==>
        status.None? && wrote.None? && conf == old(conf) && defaultMode == old(defaultMode)
      ensures topic != "planning/active" && topic != "mode/set" && topic != "config/update" ==>
        followPlanning == old(followPlanning) && currentMode == old(currentMode)
      ensures topic == "config/update" && (decoded.None? || !decoded.value.Dict?) ==>
        status == Some(Status(false, if decoded.None? then InvalidJson else Error(AttributeError), None)) &&
        wrote.None? && conf == old(conf) && followPlanning == old(followPlanning) && defaultMode == old(defaultMode)
      ensures topic == "config/update" && decoded.Some? && decoded.value.Dict? ==>
        var a := ApplyConfigUpdate(decoded.value, disk);
        status == Some(StatusOf(decoded.value.entries, a)) && wrote == a.wrote && currentMode == old(currentMode) &&
        conf == (if a.effect.MergeModes? then MergeModesInto(old(conf), a.effect.payload) else old(conf)) &&
        followPlanning == (if a.effect.ReloadPlanning? then Raw(a.effect.active) else old(followPlanning)) &&
        defaultMode == (if a.effect.ReloadPlanning? then Some(a.effect.defaultMode) else old(defaultMode))
    {
      status, wrote := None, None;
      if topic == "planning/active" {
        followPlanning := Raw(Bool(payload == "1"));
      } else if topic == "mode/set" {
        if !ObjTruthy(followPlanning) {
          currentMode := Raw(Str(payload));
        }
      } else if topic == "config/update" {
        if decoded.None? {
          status := Some(Status(false, InvalidJson, None));
        } else if !decoded.value.Dict? {
          status := Some(Status(false, Error(AttributeError), None));
        } else {
          var a := ApplyConfigUpdate(decoded.value, disk);
          match a.effect {
            case NoEffect =>
            case MergeModes(p) =>
              conf := MergeModesInto(conf, p);
            case ReloadPlanning(active, defaultValue) =>
              followPlanning := Raw(active);
              defaultMode := Some(defaultValue);
          }
          status := Some(StatusOf(decoded.value.entries, a));
          wrote := a.wrote;
        }
      }
    }

    /** `_apply_thermostat`, on the objects: the relay state, with the table updated as `ThermostatDecision` says. */
    method ApplyThermostat(control: string, mode: string, c: Config, data: Readings) returns (r: Result<bool>)
      requires Valid()
      modifies this`thermostats, thermostats.Values
      ensures Valid()
      ensures forall t :: t in thermostats.Values ==> t in old(thermostats.Values) || fresh(t)
      ensures var d := ThermostatDecision(control, mode, c, data, old(CurrentTable()));
        (r.Ok? <==> d.Ok?) && (r.Ok? ==> r.value == d.value.0 && CurrentTable() == d.value.1) &&
        (r.Err? ==> r.exc == d.exc && CurrentTable() == old(CurrentTable()))
    {
      if !ObjTruthy(GetVal(c, "enabled", Bool(false))) {
        return Ok(false);
      }
      var settings := ReadSettings(c);
      if settings.Err? {
        return Err(settings.exc);
      }
      var st := settings.value;
      var temp := SensorTemperature(data, st.sensor);
      if temp.Err? {
        return Err(temp.exc);
      }
      if temp.value.None? {
        if control in thermostats {
          return Ok(thermostats[control].relayState);
        }
        return Ok(false);
      }
      var on := StoreReading(control, mode, st, temp.value.value);
      r := Ok(on);
    }

    /** Lines 301-317: create or update the thermostat under (control, mode), then apply the reading to it. */
    method StoreReading(control: string, mode: string, st: Settings, x: real) returns (on: bool)
      requires Valid()
      modifies this`thermostats, thermostats.Values
      ensures Valid()
      ensures forall t :: t in thermostats.Values ==> t in old(thermostats.Values) || fresh(t)
      ensures (on, CurrentTable()) == ThermostatStep(control, mode, st, Some(x), old(CurrentTable()))
    {
      var key := ThermostatKey(control, mode);
      ghost var before := CurrentTable();
      var t: Thermo.Thermostat;
      if key !in thermostats {
        t := new Thermo.Thermostat(st.target, st.hysteresis, st.action);
        thermostats := thermostats[key := t];
      } else {
        t := thermostats[key];
        t.targetTemp := st.target;
        t.hysteresis := st.hysteresis;
        t.action := st.action;
      }
      assert forall k :: k in thermostats && k != key ==> thermostats[k] != t;
      on := t.ComputeState(x);
      assert CurrentTable() == before[key := ThermoState(st.target, st.hysteresis, st.action, on)];
    }

    /** One control of the loop: its thermostat's decision, or the truth of its assignment. */
    method ApplyControl(control: string, mode: string, params: Obj, data: Readings) returns (r: Result<bool>)
      requires Valid()
      modifies this`thermostats, thermostats.Values
      ensures Valid()
      ensures forall t :: t in thermostats.Values ==> t in old(thermostats.Values) || fresh(t)
      ensures var d := ControlDecision(control, mode, params, data, old(CurrentTable()));
        (r.Ok? <==> d.Ok?) && (r.Ok? ==> r.value == d.value.0 && CurrentTable() == d.value.1) &&
        (r.Err? ==> r.exc == d.exc && CurrentTable() == old(CurrentTable()))
    {
      var a := Assignment(params, control);
      if IsThermostat(a) {
        r := ApplyThermostat(control, mode, a.c, data);
      } else {
        r := Ok(ObjTruthy(a));
      }
    }

    /**
     * One pass of the main loop after the sensors were read (lines 141 and
     * 159-197): resolve and store the mode, then switch the controls. An
     * exception ends the loop, and with it the controller; it is returned.
     */
    method Tick(minute: int, data: Readings) returns (failure: Option<Exc>)
      requires Valid()
      modifies this, thermostats.Values
      ensures Valid()
      ensures conf == old(conf) && followPlanning == old(followPlanning) && defaultMode == old(defaultMode)
      ensures (currentMode, Snapshot(relays, CurrentTable(), failure)) ==
        TickSpec(old(followPlanning), old(currentMode), conf, minute, controlNames, data, old(relays), old(CurrentTable()))
    {
      ghost var spec := TickSpec(followPlanning, currentMode, conf, minute, controlNames, data, relays, CurrentTable());
      var resolved := GetMode(followPlanning, currentMode, conf, minute);
      if resolved.Err? {
        assert spec.1.failure == Some(resolved.exc);
        return Some(resolved.exc);
      }
      assert spec == (resolved.value, Control(TickPlan(resolved.value, conf), controlNames, data, relays, CurrentTable()));
      currentMode := resolved.value;
      failure := RunPlan(TickPlan(currentMode, conf), data);
    }

    /**
     * The pass of the main loop as written (lines 141-204): the tick, then
     * the publish loop, whose `get_state()` call raises AttributeError.
     */
    method TickAsWritten(minute: int, data: Readings) returns (failure: Option<Exc>)
      requires Valid()
      modifies this, thermostats.Values
      ensures Valid()
      ensures conf == old(conf) && followPlanning == old(followPlanning) && defaultMode == old(defaultMode)
      ensures (currentMode, Snapshot(relays, CurrentTable(), failure)) ==
        TickAsWrittenSpec(old(followPlanning), old(currentMode), conf, minute, controlNames, data, old(relays), old(CurrentTable()))
    {
      failure := Tick(minute, data);
      if failure.None? && TickPlan(currentMode, conf) != Ok(Skip) {
        failure := PublishStates(controlNames);
      }
    }

    /** The control part of a tick, once the mode is resolved. */
    method RunPlan(plan: Result<Plan>, data: Readings) returns (failure: Option<Exc>)
      requires Valid()
      modifies this`relays, this`thermostats, thermostats.Values
      ensures Valid()
      ensures Snapshot(relays, CurrentTable(), failure) == Control(plan, controlNames, data, old(relays), old(CurrentTable()))
    {
      match plan {
        case Err(e) =>
          failure := Some(e);
        case Ok(Skip) =>
          failure := None;
        case Ok(AllOff) =>
          SwitchAllOff();
          failure := None;
        case Ok(Apply(mode, params)) =>
          failure := RunControls(mode, params, data);
      }
    }

    /** Lines 160-164: every control switched OFF. */
    method SwitchAllOff()
      modifies this`relays
      ensures relays == AllOffSpec(controlNames, old(relays))
    {
      var rs := relays;
      var i := 0;
      while i < |controlNames|
        invariant 0 <= i <= |controlNames|
        invariant AllOffSpec(controlNames[i..], rs) == AllOffSpec(controlNames, relays)
      {
        rs := rs[controlNames[i] := false];
        assert controlNames[i..][1..] == controlNames[i + 1..];
        i := i + 1;
      }
      relays := rs;
    }

    /** The `i`-th control, switched unless deciding its state raises: one step of the fold over the controls. */
    method SwitchControl(i: nat, mode: string, params: Obj, data: Readings) returns (r: Result<bool>)
      requires Valid() && i < |controlNames|
      modifies this`relays, this`thermostats, thermostats.Values
      ensures Valid()
      ensures forall t :: t in thermostats.Values ==> t in old(thermostats.Values) || fresh(t)
      ensures r.Err? ==> (ApplyControls(controlNames[i..], mode, params, data, old(relays), old(CurrentTable())) ==
        Snapshot(relays, CurrentTable(), Some(r.exc)))
      ensures r.Ok? ==> (ApplyControls(controlNames[i..], mode, params, data, old(relays), old(CurrentTable())) ==
        ApplyControls(controlNames[i + 1..], mode, params, data, relays, CurrentTable()))
    {
      ghost var before := CurrentTable();
      ghost var controls := controlNames[i..];
      assert controls[0] == controlNames[i] && controls[1..] == controlNames[i + 1..];
      r := ApplyControl(controlNames[i], mode, params, data);
      if r.Ok? {
        assert ControlDecision(controls[0], mode, params, data, before) == Ok((r.value, CurrentTable()));
        ApplyControlsStep(controls, mode, params, data, relays, before);
        relays := relays[controlNames[i] := r.value];
      } else {
        assert ControlDecision(controls[0], mode, params, data, before) == Err(r.exc);
        ApplyControlsStop(controls, mode, params, data, relays, before);
      }
    }

    /** Lines 175-197: each control in turn switched as its assignment says, until one raises. */
    method RunControls(mode: string, params: Obj, data: Readings) returns (failure: Option<Exc>)
      requires Valid()
      modifies this`relays, this`thermostats, thermostats.Values
      ensures Valid()
      ensures Snapshot(relays, CurrentTable(), failure) ==
        ApplyControls(controlNames, mode, params, data, old(relays), old(CurrentTable()))
    {
      assert controlNames[0..] == controlNames;
      var i := 0;
      while i < |controlNames|
        invariant 0 <= i <= |controlNames|
        invariant Valid()
        invariant forall t :: t in thermostats.Values ==> t in old(thermostats.Values) || fresh(t)
        invariant ApplyControls(controlNames[i..], mode, params, data, relays, CurrentTable()) ==
          ApplyControls(controlNames, mode, params, data, old(relays), old(CurrentTable()))
      {
        var r := SwitchControl(i, mode, params, data);
        if r.Err? {
          return Some(r.exc);
        }
        i := i + 1;
      }
      assert controlNames[i..] == [];
      failure := None;
    }
  }

  /**
   * `TerraHandler(terra, mqtt_client, conf)`: reading `conf.planning.active`
   * or `conf.log_interval` may raise; otherwise a handler with no mode and
   * no thermostats.
   */
  method NewHandler(conf: Config, controlNames: seq<string>, relays: map<string, bool>) returns (r: Result<Handler>)
    ensures r.Ok? <==> InitialFollowPlanning(conf).Ok?
    ensures r.Err? ==> r.exc == InitialFollowPlanning(conf).exc
    ensures r.Ok? ==>
      fresh(r.value) && r.value.Valid() && r.value.conf == conf &&
      r.value.followPlanning == InitialFollowPlanning(conf).value && r.value.currentMode == Raw(Null) &&
      r.value.thermostats == map[] && r.value.relays == relays && r.value.controlNames == controlNames
  {
    match InitialFollowPlanning(conf)
    case Err(e) =>
      r := Err(e);
    case Ok(followPlanning) =>
      var h := new Handler(conf, followPlanning, controlNames, relays);
      r := Ok(h);
  }
}
