/**
 * The ESP32 firmware's heater controller (TemperatureController.cpp): the fields the PID
 * library reads and writes, the reading guard, the heater rule with its overshoot
 * cut-off, and the field updates. A `double` is a `real`, with NaN as `None`; the PID
 * library's own computation is a parameter.
 */
module TemperatureControl {
  import opened Wrappers

  /** A C `double` that is either a number or NaN. */
  type Double = Option<real>

  /** Output above this percentage turns the heater on. */
  const HeatingThreshold: real := 10.0
  /** How far above the setpoint the heater is still allowed to run. */
  const OvershootMargin: real := 2.0
  const MinValidReading: real := -50.0
  const MaxValidReading: real := 150.0

  /** `isnan(t) || t < -50 || t > 150`: the reading is unusable. */
  predicate InvalidReading(t: Double) {
    t.None? || t.value < MinValidReading || t.value > MaxValidReading
  }

  /** The heater rule on given values: enough output, and no overshoot (a NaN never compares greater). */
  predicate HeatOn(output: real, current: Double, setpoint: real) {
    output > HeatingThreshold && !(current.Some? && current.value > setpoint + OvershootMargin)
  }

  /** Overshoot protection: above setpoint plus two degrees the heater is off whatever the output. */
  lemma OvershootForcesOff(output: real, current: real, setpoint: real)
    requires current > setpoint + OvershootMargin
    ensures !HeatOn(output, Some(current), setpoint)
  {
  }

  /** Below the cut-off the heater follows the output alone. */
  lemma BelowCutoffFollowsOutput(output: real, current: real, setpoint: real)
    requires current <= setpoint + OvershootMargin
    ensures HeatOn(output, Some(current), setpoint) <==> output > HeatingThreshold
  {
  }

  class TemperatureController {
    var currentTemperature: Double
    var temperatureSetpoint: real
    var pidOutput: real
    var kp: real
    var ki: real
    var kd: real

    constructor()
      ensures currentTemperature == Some(0.0) && temperatureSetpoint == 40.0 && pidOutput == 0.0
      ensures kp == 2.0 && ki == 0.1 && kd == 0.5
      ensures !ShouldHeatOn()
    {
      currentTemperature := Some(0.0);
      temperatureSetpoint := 40.0;
      pidOutput := 0.0;
      kp := 2.0;
      ki := 0.1;
      kd := 0.5;
    }

    /** `setPIDParameters`: the three gains and nothing else. */
    method SetPidParameters(newKp: real, newKi: real, newKd: real)
      modifies this
      ensures kp == newKp && ki == newKi && kd == newKd
      ensures currentTemperature == old(currentTemperature) && temperatureSetpoint == old(temperatureSetpoint)
      ensures pidOutput == old(pidOutput)
    {
      kp, ki, kd := newKp, newKi, newKd;
    }

    /** `setSetpoint`: the setpoint and nothing else. */
    method SetSetpoint(setpoint: real)
      modifies this
      ensures temperatureSetpoint == setpoint
      ensures currentTemperature == old(currentTemperature) && pidOutput == old(pidOutput)
      ensures kp == old(kp) && ki == old(ki) && kd == old(kd)
    {
      temperatureSetpoint := setpoint;
    }

    /**
     * `compute`: the reading is stored first, even an invalid one; an invalid reading
     * returns false without running the PID step. `pidStep` is what the library's
     * `Compute` does: None when it declines to compute, or the new output.
     */
    method Compute(currentTemp: Double, pidStep: Option<real>) returns (computed: bool)
      modifies this
      ensures currentTemperature == currentTemp
      ensures computed <==> !InvalidReading(currentTemp) && pidStep.Some?
      ensures pidOutput == if computed then pidStep.value else old(pidOutput)
      ensures temperatureSetpoint == old(temperatureSetpoint)
      ensures kp == old(kp) && ki == old(ki) && kd == old(kd)
    {
      currentTemperature := currentTemp;
      if InvalidReading(currentTemp) {
        return false;
      }
      if pidStep.Some? {
        pidOutput := pidStep.value;
        return true;
      }
      return false;
    }

    function GetOutput(): (r: real)
      reads this
      ensures ShouldHeatOn() ==> r > HeatingThreshold
    {
      pidOutput
    }

    function GetSetpoint(): (r: real)
      reads this
      ensures ShouldHeatOn() && currentTemperature.Some? ==> currentTemperature.value <= r + OvershootMargin
    {
      temperatureSetpoint
    }

    /** `shouldHeatOn`. */
    predicate ShouldHeatOn()
      reads this
    {
      HeatOn(pidOutput, currentTemperature, temperatureSetpoint)
    }

    /** `reset`: the output returns to 0, so the heater is off until the next computation. */
    method Reset()
      modifies this
      ensures pidOutput == 0.0 && !ShouldHeatOn()
      ensures currentTemperature == old(currentTemperature) && temperatureSetpoint == old(temperatureSetpoint)
      ensures kp == old(kp) && ki == old(ki) && kd == old(kd)
    {
      pidOutput := 0.0;
    }
  }

  /**
   * An invalid reading is still stored, so a NaN reading disables the overshoot cut-off:
   * the heater then follows the last output alone.
   */
  lemma NaNReadingBypassesCutoff(output: real, setpoint: real)
    requires output > HeatingThreshold
    ensures HeatOn(output, None, setpoint)
  {
  }
}
