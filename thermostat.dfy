// backend/terrapi/thermostat.py: a hysteresis thermostat with one bit of
// memory, the relay state, which readings inside the dead band leave alone.

module Thermostat {

  /** The `action` setting as `compute_state` compares it: "cooling", "heating", or any other value. */
  datatype Action = Cooling | Heating | Unrecognised

  /** The relay state after one reading, given the state before it. */
  function NextRelayState(action: Action, target: real, hysteresis: real, temp: real, current: bool): bool
  {
    match action
    case Cooling =>
      if temp >= target + hysteresis then true
      else if temp <= target - hysteresis then false
      else current
    case Heating =>
      if temp <= target - hysteresis then true
      else if temp >= target + hysteresis then false
      else current
    case Unrecognised => current
  }

  class Thermostat {
    var targetTemp: real
    var hysteresis: real
    var action: Action
    var relayState: bool

    /** A new thermostat starts with its relay OFF. */
    constructor (targetTemp: real, hysteresis: real, action: Action)
      ensures this.targetTemp == targetTemp && this.hysteresis == hysteresis && this.action == action
      ensures !relayState
    {
      this.targetTemp := targetTemp;
      this.hysteresis := hysteresis;
      this.action := action;
      relayState := false;
    }

    /** `compute_state`: update the relay state from a reading and return it; the settings stay as they are. */
    method ComputeState(currentTemp: real) returns (on: bool)
      modifies this`relayState
      ensures relayState == NextRelayState(action, targetTemp, hysteresis, currentTemp, old(relayState))
      ensures on == relayState
    {
      if action == Cooling {
        if currentTemp >= targetTemp + hysteresis {
          relayState := true;
        } else if currentTemp <= targetTemp - hysteresis {
          relayState := false;
        }
      } else if action == Heating {
        if currentTemp <= targetTemp - hysteresis {
          relayState := true;
        } else if currentTemp >= targetTemp + hysteresis {
          relayState := false;
        }
      }
      on := relayState;
    }

    /** `set_state`: force the relay state; nothing else changes. */
    method SetState(state: bool)
      modifies this`relayState
      ensures relayState == state
    {
      relayState := state;
    }
  }

  /** Inside the dead band the relay keeps its state, whatever the action. */
  lemma DeadBandHolds(action: Action, target: real, hysteresis: real, temp: real, current: bool)
    requires target - hysteresis < temp < target + hysteresis
    ensures NextRelayState(action, target, hysteresis, temp, current) == current
  {
  }

  /** Cooling runs exactly when the reading reaches the upper threshold, or it already ran and the reading stays above the lower one. */
  lemma CoolingIff(target: real, hysteresis: real, temp: real, current: bool)
    ensures NextRelayState(Cooling, target, hysteresis, temp, current) <==>
      temp >= target + hysteresis || (current && temp > target - hysteresis)
  {
  }

  /** Heating runs exactly when the reading reaches the lower threshold, or it already ran and the reading stays below the upper one. */
  lemma HeatingIff(target: real, hysteresis: real, temp: real, current: bool)
    ensures NextRelayState(Heating, target, hysteresis, temp, current) <==>
      temp <= target - hysteresis || (current && temp < target + hysteresis)
  {
  }

  /** With a hysteresis of zero or less, a reading that meets both thresholds switches ON, for either action. */
  lemma OnBranchWins(action: Action, target: real, hysteresis: real, temp: real, current: bool)
    requires action != Unrecognised
    requires target + hysteresis <= temp <= target - hysteresis
    ensures NextRelayState(action, target, hysteresis, temp, current)
  {
  }

  /** An action other than cooling or heating never changes the relay. */
  lemma UnrecognisedHolds(target: real, hysteresis: real, temp: real, current: bool)
    ensures NextRelayState(Unrecognised, target, hysteresis, temp, current) == current
  {
  }

  /** Repeating a reading changes nothing more: the decision is stable. */
  lemma RepeatedReadingStable(action: Action, target: real, hysteresis: real, temp: real, current: bool)
    ensures var s := NextRelayState(action, target, hysteresis, temp, current);
      NextRelayState(action, target, hysteresis, temp, s) == s
  {
  }

  /** The relay states after each of a series of readings, starting from `initial`. */
  function Trace(action: Action, target: real, hysteresis: real, temps: seq<real>, initial: bool): (out: seq<bool>)
    ensures |out| == |temps|
  {
    if temps == [] then []
    else
      var before := Trace(action, target, hysteresis, temps[..|temps| - 1], initial);
      var last := if before == [] then initial else before[|before| - 1];
      before + [NextRelayState(action, target, hysteresis, temps[|temps| - 1], last)]
  }

  /** The state before step `k` of a trace. */
  function Before(out: seq<bool>, initial: bool, k: nat): bool
    requires k <= |out|
  {
    if k == 0 then initial else out[k - 1]
  }

  /** Each step of a trace is one `compute_state` call on the state the previous step left. */
  lemma {:induction false} TraceStep(action: Action, target: real, hysteresis: real, temps: seq<real>, initial: bool, k: nat)
    requires k < |temps|
    ensures var out := Trace(action, target, hysteresis, temps, initial);
      out[k] == NextRelayState(action, target, hysteresis, temps[k], Before(out, initial, k))
  {
    var n := |temps|;
    if k < n - 1 {
      TraceStep(action, target, hysteresis, temps[..n - 1], initial, k);
      assert temps[..n - 1][k] == temps[k];
      if k > 0 {
        assert Trace(action, target, hysteresis, temps, initial)[k - 1]
          == Trace(action, target, hysteresis, temps[..n - 1], initial)[k - 1];
      }
    }
  }

  /**
   * No chatter: with a positive hysteresis, a switch ON and a later switch
   * OFF (or the reverse) are separated by a temperature swing of at least
   * twice the hysteresis.
   */
  lemma NoChatter(action: Action, target: real, hysteresis: real, temps: seq<real>, initial: bool, i: nat, j: nat)
    requires hysteresis > 0.0
    requires i < j < |temps|
    requires var out := Trace(action, target, hysteresis, temps, initial);
      out[i] != Before(out, initial, i) && out[j] != Before(out, initial, j) && out[i] != out[j]
    ensures temps[i] - temps[j] >= 2.0 * hysteresis || temps[j] - temps[i] >= 2.0 * hysteresis
  {
    TraceStep(action, target, hysteresis, temps, initial, i);
    TraceStep(action, target, hysteresis, temps, initial, j);
  }
}
