// terrapi/thermostat.py: the older controller. A `Controller` base whose
// `should_switch` is abstract, and a `Thermostat` with asymmetric
// thresholds, strict comparisons and an undecided (None) starting state.

module LegacyThermostat {
  import opened PyValues
  import Backend = Thermostat

  /** `ThermostatMode`, an enum whose values are "heat" and "cool". */
  datatype ThermostatMode = Heat | Cool

  /** `ThermostatMode(mode)`: lookup by value, ValueError for anything else. */
  function ParseMode(mode: string): (r: Result<ThermostatMode>)
    ensures r == Ok(Heat) <==> mode == "heat"
    ensures r == Ok(Cool) <==> mode == "cool"
    ensures r.Err? <==> mode != "heat" && mode != "cool"
    ensures r.Err? ==> r.exc == ValueError
  {
    if mode == "heat" then Ok(Heat)
    else if mode == "cool" then Ok(Cool)
    else Err(ValueError)
  }

  /**
   * One positional argument of `should_switch`: a sensor's `get_data()`,
   * which is None when the sensor raised, else a dict whose temperature may
   * itself be None.
   */
  type SensorValue = Option<map<string, Option<real>>>

  /** The answer of `should_switch` for one temperature, given the last decision. */
  function Decide(mode: ThermostatMode, thresh: real, delta: real, temp: real, last: Option<bool>): Option<bool>
  {
    match mode
    case Heat =>
      if temp < thresh - delta then Some(true)
      else if temp > thresh then Some(false)
      else last
    case Cool =>
      if temp > thresh + delta then Some(true)
      else if temp < thresh then Some(false)
      else last
  }

  /** The base class: `should_switch` is left to subclasses. */
  class Controller {
    var sensorsNames: seq<string>

    constructor (sensorsNames: seq<string>)
      ensures this.sensorsNames == sensorsNames
    {
      this.sensorsNames := sensorsNames;
    }

    /** `Controller.should_switch` always raises NotImplementedError. */
    method ShouldSwitch(sensorValues: seq<SensorValue>) returns (r: Result<Option<bool>>)
      ensures r == Err(NotImplementedError)
    {
      r := Err(NotImplementedError);
    }
  }

  class Thermostat {
    var sensorsNames: seq<string>
    var threshTemp: real
    var releaseDelta: real
    var mode: ThermostatMode
    var lastState: Option<bool>

    /** The constructor once `ThermostatMode(mode)` has succeeded: no decision yet. */
    constructor (sensorsNames: seq<string>, threshTemp: real, releaseDelta: real, mode: ThermostatMode)
      ensures this.sensorsNames == sensorsNames && this.threshTemp == threshTemp
      ensures this.releaseDelta == releaseDelta && this.mode == mode
      ensures lastState == None
    {
      this.threshTemp := threshTemp;
      this.releaseDelta := releaseDelta;
      this.mode := mode;
      lastState := None;
      this.sensorsNames := sensorsNames;
    }

    /**
     * `should_switch(*sensor_values)`: only the `temperature` of the first
     * value is read (IndexError without values, TypeError when that value is
     * None, KeyError without a temperature, TypeError when the temperature is
     * None and is compared); a decisive answer is stored before it is
     * returned, and an undecided one returns the stored answer.
     */
    method ShouldSwitch(sensorValues: seq<SensorValue>) returns (r: Result<Option<bool>>)
      modifies this`lastState
      ensures |sensorValues| == 0 ==> r == Err(IndexError) && lastState == old(lastState)
      ensures |sensorValues| > 0 && sensorValues[0].None? ==> r == Err(TypeError) && lastState == old(lastState)
      ensures |sensorValues| > 0 && sensorValues[0].Some? && "temperature" !in sensorValues[0].value ==>
        r == Err(KeyError) && lastState == old(lastState)
      ensures (|sensorValues| > 0 && sensorValues[0].Some? && "temperature" in sensorValues[0].value &&
        sensorValues[0].value["temperature"].None?) ==> r == Err(TypeError) && lastState == old(lastState)
      ensures (|sensorValues| > 0 && sensorValues[0].Some? && "temperature" in sensorValues[0].value &&
        sensorValues[0].value["temperature"].Some?) ==>
        r == Ok(Decide(mode, threshTemp, releaseDelta, sensorValues[0].value["temperature"].value, old(lastState)))
      ensures r.Ok? ==> lastState == r.value
    {
      if |sensorValues| == 0 {
        return Err(IndexError);
      }
      if sensorValues[0].None? {
        return Err(TypeError);
      }
      if "temperature" !in sensorValues[0].value {
        return Err(KeyError);
      }
      if sensorValues[0].value["temperature"].None? {
        return Err(TypeError);
      }
      var temp := sensorValues[0].value["temperature"].value;
      if mode == Heat {
        if temp < threshTemp - releaseDelta {
          lastState := Some(true);
          return Ok(Some(true));
        } else if temp > threshTemp {
          lastState := Some(false);
          return Ok(Some(false));
        } else {
          return Ok(lastState);
        }
      } else {
        if temp > threshTemp + releaseDelta {
          lastState := Some(true);
          return Ok(Some(true));
        } else if temp < threshTemp {
          lastState := Some(false);
          return Ok(Some(false));
        } else {
          return Ok(lastState);
        }
      }
    }
  }

  /** `Thermostat(sensors_names, thresh_temp, release_delta, mode)`: construction fails unless the mode is "heat" or "cool". */
  method NewThermostat(sensorsNames: seq<string>, threshTemp: real, releaseDelta: real, mode: string)
    returns (r: Result<Thermostat>)
    ensures r.Ok? <==> mode == "heat" || mode == "cool"
    ensures r.Err? ==> r.exc == ValueError
    ensures r.Ok? ==> fresh(r.value) && r.value.lastState == None && r.value.mode == ParseMode(mode).value
    ensures r.Ok? ==> r.value.threshTemp == threshTemp && r.value.releaseDelta == releaseDelta
  {
    match ParseMode(mode)
    case Err(e) =>
      r := Err(e);
    case Ok(m) =>
      var t := new Thermostat(sensorsNames, threshTemp, releaseDelta, m);
      r := Ok(t);
  }

  /** A reading exactly at a threshold is not decisive: the last answer stands. */
  lemma ThresholdsHold(mode: ThermostatMode, thresh: real, delta: real, last: Option<bool>)
    requires delta >= 0.0
    ensures mode == Heat ==> Decide(mode, thresh, delta, thresh - delta, last) == last && Decide(mode, thresh, delta, thresh, last) == last
    ensures mode == Cool ==> Decide(mode, thresh, delta, thresh + delta, last) == last && Decide(mode, thresh, delta, thresh, last) == last
  {
  }

  /** Before any decision, a reading inside the band answers None. */
  lemma UndecidedAtStart(mode: ThermostatMode, thresh: real, delta: real, temp: real)
    requires mode == Heat ==> thresh - delta <= temp <= thresh
    requires mode == Cool ==> thresh <= temp <= thresh + delta
    ensures Decide(mode, thresh, delta, temp, None) == None
  {
  }

  /** Heating: ON below `thresh - delta`, OFF above `thresh`, the last answer in between. */
  lemma HeatIff(thresh: real, delta: real, temp: real, last: Option<bool>)
    ensures Decide(Heat, thresh, delta, temp, last) == Some(true) <==>
      temp < thresh - delta || (temp <= thresh && last == Some(true))
    ensures Decide(Heat, thresh, delta, temp, last) == Some(false) <==>
      (temp >= thresh - delta && temp > thresh) || (thresh - delta <= temp <= thresh && last == Some(false))
  {
  }

  /** Cooling: ON above `thresh + delta`, OFF below `thresh`, the last answer in between. */
  lemma CoolIff(thresh: real, delta: real, temp: real, last: Option<bool>)
    ensures Decide(Cool, thresh, delta, temp, last) == Some(true) <==>
      temp > thresh + delta || (temp >= thresh && last == Some(true))
    ensures Decide(Cool, thresh, delta, temp, last) == Some(false) <==>
      (temp <= thresh + delta && temp < thresh) || (thresh <= temp <= thresh + delta && last == Some(false))
  {
  }

  /**
   * The two generations agree away from the thresholds: once a decision
   * exists, the legacy heat (cool) thermostat with threshold `thresh` and
   * delta `delta` answers as the newer heating (cooling) thermostat with
   * target `thresh - delta/2` (`thresh + delta/2`) and hysteresis `delta/2`;
   * they differ only on a reading exactly at a threshold, where the legacy
   * comparisons are strict.
   */
  lemma AgreesWithBackend(mode: ThermostatMode, thresh: real, delta: real, temp: real, last: bool)
    requires temp != thresh
    requires mode == Heat ==> temp != thresh - delta
    requires mode == Cool ==> temp != thresh + delta
    ensures var action := if mode == Heat then Backend.Heating else Backend.Cooling;
      var target := if mode == Heat then thresh - delta / 2.0 else thresh + delta / 2.0;
      Decide(mode, thresh, delta, temp, Some(last)) == Some(Backend.NextRelayState(action, target, delta / 2.0, temp, last))
  {
  }
}
