// terrapi/terra_handler.py: the older handler. The planning (its active flag,
// default mode and periods) is read once at construction; periods match on
// timestamps over a closed interval that does not wrap; the target states
// of a tick come from the mode's assignments and an absent control is OFF.

module LegacyTerraHandler {
  import opened PyValues
  import ConfigManager

  /** A planning period: start and end timestamps, and the mode it selects. */
  datatype Period = Period(start: real, end: real, mode: Value)

  /** `period.start() <= current_time <= period.end()`. */
  predicate Matches(p: Period, now: real)
  {
    p.start <= now <= p.end
  }

  /** The first period matching `now`, in order, or the default mode. */
  function FirstMatch(periods: seq<Period>, defaultMode: Value, now: real): Value
  {
    if periods == [] then defaultMode
    else if Matches(periods[0], now) then periods[0].mode
    else FirstMatch(periods[1..], defaultMode, now)
  }

  /** `get_mode`: with planning on, the first matching period's mode or the default; otherwise the current mode. */
  function GetMode(followPlanning: Value, currentMode: Value, periods: seq<Period>, defaultMode: Value, now: real): (r: Value)
    ensures !Truthy(followPlanning) ==> r == currentMode
  {
    if Truthy(followPlanning) then FirstMatch(periods, defaultMode, now) else currentMode
  }

  /** The first match wins; with no match the default mode is the answer. */
  lemma {:induction false} FirstMatchWins(periods: seq<Period>, defaultMode: Value, now: real)
    ensures (forall i :: 0 <= i < |periods| ==> !Matches(periods[i], now)) ==>
      FirstMatch(periods, defaultMode, now) == defaultMode
    ensures forall i :: (0 <= i < |periods| && Matches(periods[i], now) &&
      (forall j :: 0 <= j < i ==> !Matches(periods[j], now))) ==>
      FirstMatch(periods, defaultMode, now) == periods[i].mode
  {
    if periods != [] {
      FirstMatchWins(periods[1..], defaultMode, now);
      assert forall i :: 1 <= i < |periods| ==> periods[1..][i - 1] == periods[i];
      if !Matches(periods[0], now) {
        forall i | 1 <= i < |periods| && Matches(periods[i], now) &&
          (forall j :: 0 <= j < i ==> !Matches(periods[j], now))
          ensures FirstMatch(periods, defaultMode, now) == periods[i].mode
        {
          assert forall j :: 0 <= j < i - 1 ==> periods[1..][j] == periods[j + 1];
        }
      }
    }
  }

  /** Both ends of a period are inside it, and a period that ends before it starts never matches. */
  lemma ClosedNoWrap(p: Period, now: real)
    ensures p.start <= p.end ==> Matches(p, p.start) && Matches(p, p.end)
    ensures p.start > p.end ==> !Matches(p, now)
  {
  }

  /** `mapping[key]` on a dict with string keys: a string looks up, an unhashable key raises TypeError, any other key is missing. */
  function SubscriptBy(es: Entries, key: Value): (r: Result<Value>)
    ensures r.Ok? <==> key.Str? && key.s in Keys(es)
    ensures r.Ok? ==> Lookup(es, key.s) == Some(r.value)
  {
    match key
    case Str(s) =>
      (match Lookup(es, s)
       case Some(v) => Ok(v)
       case None => Err(KeyError))
    case List(_) => Err(TypeError)
    case Dict(_) => Err(TypeError)
    case _ => Err(KeyError)
  }

  /**
   * Line 74 as written: the comprehension walks the assignment's VALUES and
   * uses each as a control name.
   */
  function TargetsAsWritten(params: Entries, names: seq<Value>, acc: Entries): Result<Entries>
  {
    if names == [] then Ok(acc)
    else
      var state :- SubscriptBy(params, names[0]);
      TargetsAsWritten(params, names[1..], Put(acc, names[0].s, state))
  }

  /** The values of a dict, in order. */
  function ValuesOf(es: Entries): (vs: seq<Value>)
    ensures |vs| == |es| && forall i :: 0 <= i < |es| ==> vs[i] == es[i].1
  {
    seq(|es|, i requires 0 <= i < |es| => es[i].1)
  }

  /** `{control_name: mode_params[control_name] for control_name in mode_params.values()}`. */
  function TargetStatesAsWritten(params: Entries): Result<Entries>
  {
    TargetsAsWritten(params, ValuesOf(params), [])
  }

  /** The walk succeeds only when every value it walks is the name of a control of the mode. */
  lemma {:induction false} TargetsAsWrittenNeedNames(params: Entries, names: seq<Value>, acc: Entries)
    requires TargetsAsWritten(params, names, acc).Ok?
    ensures forall v :: v in names ==> v.Str? && v.s in Keys(params)
  {
    if names != [] {
      var state := SubscriptBy(params, names[0]).value;
      TargetsAsWrittenNeedNames(params, names[1..], Put(acc, names[0].s, state));
      assert forall v :: v in names ==> v == names[0] || v in names[1..];
    }
  }

  /**
   * A mode whose assignments are ON/OFF flags, as modes are written, makes
   * the tick raise; so does every mode with an assignment that is not the
   * name of one of its controls.
   */
  lemma AsWrittenRaises(params: Entries)
    ensures (exists i :: 0 <= i < |params| && !(params[i].1.Str? && params[i].1.s in Keys(params))) ==>
      TargetStatesAsWritten(params).Err?
    ensures TargetStatesAsWritten([("light", Bool(true)), ("heater", Bool(false))]) == Err(KeyError)
  {
    if TargetStatesAsWritten(params).Ok? {
      TargetsAsWrittenNeedNames(params, ValuesOf(params), []);
      forall i | 0 <= i < |params| ensures params[i].1.Str? && params[i].1.s in Keys(params) {
        assert ValuesOf(params)[i] == params[i].1;
      }
    }
    var flags := [("light", Bool(true)), ("heater", Bool(false))];
    assert ValuesOf(flags)[0] == Bool(true);
  }

  /** The comprehension over the names `ks`, on top of `acc`. */
  function TargetsFrom(params: Entries, ks: seq<string>, acc: Entries): Entries
  {
    if ks == [] then acc
    else
      var state := match Lookup(params, ks[0]) case Some(v) => v case None => Null;
      TargetsFrom(params, ks[1..], Put(acc, ks[0], state))
  }

  /** The evidently intended line 74: `{control_name: mode_params[control_name] for control_name in mode_params.keys()}`. */
  function TargetStates(params: Entries): Entries
  {
    TargetsFrom(params, Keys(params), [])
  }

  lemma {:induction false} TargetsFromLookup(params: Entries, ks: seq<string>, acc: Entries, q: string)
    requires forall k :: k in ks ==> k in Keys(params)
    ensures Lookup(TargetsFrom(params, ks, acc), q) == if q in ks then Lookup(params, q) else Lookup(acc, q)
  {
    if ks != [] {
      var state := match Lookup(params, ks[0]) case Some(v) => v case None => Null;
      TargetsFromLookup(params, ks[1..], Put(acc, ks[0], state), q);
      ConfigManager.LookupPut(acc, ks[0], state, q);
      assert forall k :: k in ks <==> k == ks[0] || k in ks[1..];
    }
  }

  /** The intended target states are the mode's assignments: every control looks up to what the mode assigns it. */
  lemma TargetStatesAreAssignments(params: Entries, q: string)
    ensures Lookup(TargetStates(params), q) == Lookup(params, q)
  {
    TargetsFromLookup(params, Keys(params), [], q);
  }

  /** `target_controls_states.get(control_name, False)`, switched as its truth value. */
  function TargetState(targets: Entries, control: string): (on: bool)
    ensures control !in Keys(targets) ==> !on
    ensures control in Keys(targets) ==> (on <==> Truthy(Lookup(targets, control).value))
  {
    match Lookup(targets, control)
    case Some(v) => Truthy(v)
    case None => false
  }

  /**
   * The logging step of `run`: once the log interval has passed, every
   * sensor's reading is walked with `.items()`, so a sensor whose `get_data`
   * returned None (or anything but a dict) raises AttributeError there.
   */
  function PublishReadings(readings: seq<Value>, logDue: bool): (r: Option<Exc>)
    ensures r.None? <==> !logDue || forall i :: 0 <= i < |readings| ==> readings[i].Dict?
    ensures r.Some? ==> r.value == AttributeError
  {
    if !logDue || readings == [] then None
    else if !readings[0].Dict? then Some(AttributeError)
    else PublishReadings(readings[1..], logDue)
  }

  class Handler {
    /** `_follow_planning`: `conf.planning.active()` at first, then a bool. */
    var followPlanning: Value
    /** `_current_mode`; `Null` is None. */
    var currentMode: Value
    /** `_default_mode`, read once. */
    const defaultMode: Value
    /** `_planning_periods`, read once. */
    const periods: seq<Period>
    /** `conf.modes`: each mode's assignments. */
    const modes: Entries
    /** The controls of the terrarium, in their order. */
    const controlNames: seq<string>
    /** The state each control was last switched to. */
    var relays: map<string, bool>

    /** `__init__` once the planning has been read: no mode yet. */
    constructor (followPlanning: Value, defaultMode: Value, periods: seq<Period>, modes: Entries,
                 controlNames: seq<string>, relays: map<string, bool>)
      ensures this.followPlanning == followPlanning && currentMode == Null
      ensures this.defaultMode == defaultMode && this.periods == periods && this.modes == modes
      ensures this.controlNames == controlNames && this.relays == relays
    {
      this.followPlanning := followPlanning;
      currentMode := Null;
      this.defaultMode := defaultMode;
      this.periods := periods;
      this.modes := modes;
      this.controlNames := controlNames;
      this.relays := relays;
    }

    /** `_handle_message`: planning/active and mode/set; any other topic changes nothing. */
    method HandleMessage(topic: string, payload: string)
      modifies this`followPlanning, this`currentMode
      ensures topic == "planning/active" ==> followPlanning == Bool(payload == "1") && currentMode == old(currentMode)
      ensures topic == "mode/set" ==>
        followPlanning == old(followPlanning) && currentMode == (if Truthy(old(followPlanning)) then old(currentMode) else Str(payload))
      ensures topic != "planning/active" && topic != "mode/set" ==>
        followPlanning == old(followPlanning) && currentMode == old(currentMode)
    {
      if topic == "planning/active" {
        followPlanning := Bool(payload == "1");
      } else if topic == "mode/set" {
        if !Truthy(followPlanning) {
          currentMode := Str(payload);
        }
      }
    }

    /**
     * One pass of `run` after the sensors were read, with the comprehension
     * of line 74 as intended: store the mode, look its assignments up
     * (raising when the mode is not in the modes table or they are not a
     * dict), and switch every control to its target, OFF when absent.
     */
    method Tick(now: real) returns (failure: Option<Exc>)
      modifies this`currentMode, this`relays
      ensures currentMode == GetMode(old(followPlanning), old(currentMode), periods, defaultMode, now)
      ensures var params := SubscriptBy(modes, currentMode);
        (failure.None? <==> params.Ok? && params.value.Dict?) &&
        (params.Err? ==> failure == Some(params.exc)) &&
        (params.Ok? && !params.value.Dict? ==> failure == Some(AttributeError))
      ensures failure.Some? ==> relays == old(relays)
      ensures failure.None? ==>
        var targets := TargetStates(SubscriptBy(modes, currentMode).value.entries);
        relays.Keys == old(relays).Keys + (set c | c in controlNames) &&
        (forall c :: c in controlNames ==> relays[c] == TargetState(targets, c)) &&
        forall c :: c in old(relays) && c !in controlNames ==> relays[c] == old(relays)[c]
    {
      var mode := GetMode(followPlanning, currentMode, periods, defaultMode, now);
      currentMode := mode;
      var params := SubscriptBy(modes, mode);
      if params.Err? {
        return Some(params.exc);
      }
      if !params.value.Dict? {
        return Some(AttributeError);
      }
      var targets := TargetStates(params.value.entries);
      var i := 0;
      while i < |controlNames|
        invariant 0 <= i <= |controlNames|
        invariant currentMode == mode
        invariant relays.Keys == old(relays).Keys + (set c | c in controlNames[..i])
        invariant forall c :: c in controlNames[..i] ==> relays[c] == TargetState(targets, c)
        invariant forall c :: c in old(relays) && c !in controlNames[..i] ==> relays[c] == old(relays)[c]
      {
        assert controlNames[..i + 1] == controlNames[..i] + [controlNames[i]];
        relays := relays[controlNames[i] := TargetState(targets, controlNames[i])];
        i := i + 1;
      }
      assert controlNames[..i] == controlNames;
      failure := None;
    }
    /**
     * One pass of `run`'s loop once the sensors were read: the readings are
     * published when the log interval has passed (`logDue`), and then the
     * tick runs. A reading that is not a dict ends the pass, and `run`, with
     * AttributeError before the mode is read.
     */
    method RunPass(now: real, readings: seq<Value>, logDue: bool) returns (failure: Option<Exc>)
      modifies this`currentMode, this`relays
      ensures PublishReadings(readings, logDue).Some? ==>
        failure == Some(AttributeError) && currentMode == old(currentMode) && relays == old(relays)
      ensures PublishReadings(readings, logDue).None? ==>
        currentMode == GetMode(old(followPlanning), old(currentMode), periods, defaultMode, now)
      ensures PublishReadings(readings, logDue).None? ==>
        var params := SubscriptBy(modes, currentMode);
        (failure.None? <==> params.Ok? && params.value.Dict?) &&
        (params.Err? ==> failure == Some(params.exc)) &&
        (params.Ok? && !params.value.Dict? ==> failure == Some(AttributeError))
      ensures failure.Some? ==> relays == old(relays)
      ensures failure.None? ==>
        var targets := TargetStates(SubscriptBy(modes, currentMode).value.entries);
        relays.Keys == old(relays).Keys + (set c | c in controlNames) &&
        (forall c :: c in controlNames ==> relays[c] == TargetState(targets, c)) &&
        forall c :: c in old(relays) && c !in controlNames ==> relays[c] == old(relays)[c]
    {
      failure := PublishReadings(readings, logDue);
      if failure.Some? {
        return;
      }
      failure := Tick(now);
    }
  }

  /** A tick that completes switches every control the mode does not mention OFF, and the others to their assignment. */
  lemma TickTargets(params: Entries, control: string)
    ensures !TargetState(TargetStates(params), control) <==>
      control !in Keys(params) || !Truthy(Lookup(params, control).value)
  {
    TargetStatesAreAssignments(params, control);
  }
}
