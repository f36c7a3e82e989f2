/** The discrete PID controller of the node (class `pidControl`). */
module Pid {

  /** The fixed time step the controller assumes between two calls, in seconds. */
  const ControlTime: real := 0.02

  /** A PID controller: gains fixed at construction, a running integral term and
      the error of the previous call. The integral is never clamped or reset. */
  class PidControl {
    const pGain: real
    const iGain: real
    const dGain: real
    const controlTime: real := ControlTime
    var prevError: real
    var iControl: real

    /** A fresh controller has no history, whatever its gains. */
    constructor (pGain: real, iGain: real, dGain: real)
      ensures this.pGain == pGain && this.iGain == iGain && this.dGain == dGain
      ensures prevError == 0.0 && iControl == 0.0 && controlTime == 0.02
    {
      this.pGain := pGain;
      this.iGain := iGain;
      this.dGain := dGain;
      prevError := 0.0;
      iControl := 0.0;
    }

    /** One control step: the error is target - current; the integral grows by
        iGain * error * controlTime; the derivative term uses the change of error
        since the previous call over controlTime; the error is remembered. */
    method Output(target: real, current: real) returns (output: real)
      modifies this
      ensures prevError == target - current
      ensures iControl == old(iControl) + iGain * (target - current) * controlTime
      ensures output == pGain * (target - current) + iControl
                        + dGain * ((target - current) - old(prevError)) / controlTime
      // with no integral and no derivative gain the controller is purely proportional
      ensures iGain == 0.0 && dGain == 0.0 ==>
                iControl == old(iControl) && output == pGain * (target - current) + old(iControl)
    {
      var error := target - current;
      var pControl := pGain * error;
      iControl := iControl + iGain * error * controlTime;
      var dControl := dGain * (error - prevError) / controlTime;
      output := pControl + iControl + dControl;
      prevError := error;
    }
  }

  /** The worked example of a proportional controller: gains (1, 0, 0), target 5,
      measurement 2 gives 3 on the first call and again on the second, and the
      remembered error is 3. */
  method ProportionalExample() returns (first: real, second: real, remembered: real)
    ensures first == 3.0 && second == 3.0 && remembered == 3.0
  {
    var pid := new PidControl(1.0, 0.0, 0.0);
    first := pid.Output(5.0, 2.0);
    second := pid.Output(5.0, 2.0);
    remembered := pid.prevError;
  }
}
