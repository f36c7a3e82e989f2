/** The control node (class `ctrl_cmd_pub`): latched inputs written by the
    subscriber callbacks, the per-tick command computation of the 30 Hz loop,
    and the loop itself driven by a schedule of deliveries and ticks. */
module Control {
  import opened Geometry
  import opened Lookahead
  import opened Pid

  /** The speed every velocity limit holds until a message overrides it: 100 km/h in m/s. */
  const InitialLimit: real := 100.0 / 3.6
  /** Lookahead distance before the first tick. */
  const InitialLad: real := 15.0
  /** Gains of the speed controller and of the steering controller. */
  const VelocityGains: (real, real, real) := (0.30, 0.0, 0.03)
  const SteeringGains: (real, real, real) := (1.30, 0.0, 0.0)
  /** Longitudinal command type of every command: acceleration/brake pedal mode. */
  const LonglCmdType: int := 1

  function Min(a: real, b: real): real {
    if a <= b then a else b
  }

  /** The target speed: the smallest of the three velocity limits. */
  function Min3(v1: real, v2: real, v3: real): (m: real)
    ensures m <= v1 && m <= v2 && m <= v3
    ensures m == v1 || m == v2 || m == v3
  {
    Min(v1, Min(v2, v3))
  }

  /** The command message the node publishes. */
  datatype Command = Command(longlCmdType: int, accel: real, brake: real, steering: real)

  /** The published command for a speed-controller output and a steering-controller
      output: a positive speed output is acceleration, anything else is braking. */
  function MakeCommand(velocityOutput: real, steeringOutput: real): (cmd: Command)
    ensures cmd.longlCmdType == LonglCmdType && cmd.steering == steeringOutput
    ensures cmd.accel >= 0.0 && cmd.brake >= 0.0
    ensures cmd.accel == 0.0 || cmd.brake == 0.0
    ensures cmd.accel - cmd.brake == velocityOutput
    ensures velocityOutput > 0.0 ==> cmd.brake == 0.0
    ensures velocityOutput <= 0.0 ==> cmd.accel == 0.0
  {
    if velocityOutput > 0.0 then Command(LonglCmdType, velocityOutput, 0.0, steeringOutput)
    else Command(LonglCmdType, 0.0, -velocityOutput, steeringOutput)
  }

  /** The latched inputs: the last value of each subscription and its readiness flag.
      The pose keeps the cosine and sine of the yaw angle; the status keeps the
      measured longitudinal speed. */
  datatype Inputs = Inputs(
    path: seq<Point>,
    velocity1: real, velocity2: real, velocity3: real,
    pose: Pose,
    speed: real,
    isPath: bool, isVelocity: bool, isOdom: bool, isStatus: bool)

  /** All four input categories have been received: the loop may compute a command. */
  predicate Ready(inp: Inputs) {
    inp.isPath && inp.isOdom && inp.isStatus && inp.isVelocity
  }

  /** No readiness flag that was set in a is cleared in b. */
  predicate FlagsKept(a: Inputs, b: Inputs) {
    (a.isPath ==> b.isPath) && (a.isVelocity ==> b.isVelocity) &&
    (a.isOdom ==> b.isOdom) && (a.isStatus ==> b.isStatus)
  }

  /** The readiness flags of a and b are the same. */
  predicate SameFlags(a: Inputs, b: Inputs) {
    a.isPath == b.isPath && a.isVelocity == b.isVelocity &&
    a.isOdom == b.isOdom && a.isStatus == b.isStatus
  }

  /** What one tick of the loop did. NoPathPoint is the tick on which the node,
      ready but holding an empty path, has no lookahead point and raises. */
  datatype TickOutcome = Waiting | Published(cmd: Command) | NoPathPoint

  /** One input delivery or one tick of the loop, as the node can see them:
      there is no subscription that delivers the third velocity limit. */
  datatype Event =
    | PathMsg(points: seq<Point>)
    | Velocity1Msg(v1: real)
    | Velocity2Msg(v2: real)
    | OdomMsg(x: real, y: real, c: real, s: real)
    | StatusMsg(speed: real)
    | TickEvent

  /** An odometry delivery carries a heading on the unit circle. */
  predicate WellFormed(e: Event) {
    e.OdomMsg? ==> e.c * e.c + e.s * e.s == 1.0
  }

  class Controller {
    var inputs: Inputs
    var lad: real
    var targetVelocity: real
    var targetSteering: real
    var cmd: Command
    const velocityPid: PidControl
    const steeringPid: PidControl

    /** The node's configuration and what it keeps true: two distinct controllers
        with the node's gains, a unit heading, and integral terms that stay 0
        because both integral gains are 0. */
    ghost predicate Valid()
      reads this, velocityPid, steeringPid
    {
      velocityPid != steeringPid &&
      (velocityPid.pGain, velocityPid.iGain, velocityPid.dGain) == VelocityGains &&
      (steeringPid.pGain, steeringPid.iGain, steeringPid.dGain) == SteeringGains &&
      velocityPid.iControl == 0.0 && steeringPid.iControl == 0.0 &&
      Unit(inputs.pose) &&
      cmd.longlCmdType == LonglCmdType
    }

    /** The node at start-up: nothing received, all limits at 100 km/h, fresh controllers. */
    constructor ()
      ensures Valid() && fresh(velocityPid) && fresh(steeringPid)
      ensures !inputs.isPath && !inputs.isVelocity && !inputs.isOdom && !inputs.isStatus
      ensures inputs.velocity1 == InitialLimit && inputs.velocity2 == InitialLimit
      ensures inputs.velocity3 == InitialLimit
      ensures lad == InitialLad && targetVelocity == InitialLimit && targetSteering == 0.0
      ensures velocityPid.prevError == 0.0 && steeringPid.prevError == 0.0
    {
      velocityPid := new PidControl(0.30, 0.0, 0.03);
      steeringPid := new PidControl(1.30, 0.0, 0.0);
      inputs := Inputs([], InitialLimit, InitialLimit, InitialLimit, Pose(0.0, 0.0, 1.0, 0.0), 0.0,
                       false, false, false, false);
      lad := InitialLad;
      targetVelocity := InitialLimit;
      targetSteering := 0.0;
      cmd := Command(LonglCmdType, 0.0, 0.0, 0.0);
    }

    /** A path delivery replaces the path and marks it received. */
    method PathCallback(points: seq<Point>)
      requires Valid()
      modifies this`inputs
      ensures Valid() && FlagsKept(old(inputs), inputs) && inputs.isPath
      ensures inputs == old(inputs).(path := points, isPath := true)
    {
      inputs := inputs.(path := points, isPath := true);
    }

    /** The first velocity limit is the one whose delivery counts for readiness. */
    method Velocity1Callback(v: real)
      requires Valid()
      modifies this`inputs
      ensures Valid() && FlagsKept(old(inputs), inputs) && inputs.isVelocity
      ensures inputs == old(inputs).(velocity1 := v, isVelocity := true)
    {
      inputs := inputs.(velocity1 := v, isVelocity := true);
    }

    /** The second velocity limit is overwritten without touching any flag. */
    method Velocity2Callback(v: real)
      requires Valid()
      modifies this`inputs
      ensures Valid() && SameFlags(old(inputs), inputs)
      ensures inputs == old(inputs).(velocity2 := v)
    {
      inputs := inputs.(velocity2 := v);
    }

    /** The third velocity limit is overwritten without touching any flag. */
    method Velocity3Callback(v: real)
      requires Valid()
      modifies this`inputs
      ensures Valid() && SameFlags(old(inputs), inputs)
      ensures inputs == old(inputs).(velocity3 := v)
    {
      inputs := inputs.(velocity3 := v);
    }

    /** An odometry delivery replaces the position and heading and marks the pose received. */
    method OdomCallback(x: real, y: real, c: real, s: real)
      requires Valid()
      requires c * c + s * s == 1.0
      modifies this`inputs
      ensures Valid() && FlagsKept(old(inputs), inputs) && inputs.isOdom
      ensures inputs == old(inputs).(pose := Pose(x, y, c, s), isOdom := true)
    {
      inputs := inputs.(pose := Pose(x, y, c, s), isOdom := true);
    }

    /** A status delivery replaces the measured speed and marks the status received. */
    method StatusCallback(speed: real)
      requires Valid()
      modifies this`inputs
      ensures Valid() && FlagsKept(old(inputs), inputs) && inputs.isStatus
      ensures inputs == old(inputs).(speed := speed, isStatus := true)
    {
      inputs := inputs.(speed := speed, isStatus := true);
    }

    /** Sets the lookahead distance from the measured speed and scans the path for the
        pursuit target; the steering law turns the chosen vehicle-frame point and the
        square of its distance into the target steering angle. None when the path is
        empty, where the node has no point to steer towards. */
    method FindTargetSteering(law: (Point, real) -> real) returns (steering: Option<real>)
      requires Valid()
      modifies this`lad
      ensures Valid()
      ensures lad == LookaheadDistance(inputs.speed) && LadMin <= lad <= LadMax
      ensures steering.None? <==> inputs.path == []
      ensures steering.Some? ==>
                var sel := Select(Localize(inputs.pose, inputs.path), lad).value;
                steering.value == law(sel.point, sel.disSq)
    {
      lad := LookaheadDistance(inputs.speed);
      var sel := ScanPath(inputs.pose, inputs.path, lad);
      if sel.None? {
        return None;
      }
      steering := Some(law(sel.value.point, sel.value.disSq));
    }

    /** One pass of the control loop. Until every input category has been received
        nothing happens. Then the target speed is the smallest limit, the target
        steering comes from the lookahead scan, the speed controller compares the
        target speed with the measured one, the steering controller is fed the
        target steering against a measured steering of 0, and the command is
        published. */
    method Tick(law: (Point, real) -> real) returns (outcome: TickOutcome)
      requires Valid()
      modifies this`lad, this`targetVelocity, this`targetSteering, this`cmd
      modifies velocityPid, steeringPid
      ensures Valid()
      ensures inputs == old(inputs)
      // waiting: no command and no state change
      ensures !Ready(inputs) ==>
                outcome == Waiting && lad == old(lad) && targetVelocity == old(targetVelocity) &&
                targetSteering == old(targetSteering) && cmd == old(cmd) &&
                unchanged(velocityPid, steeringPid)
      // ready on an empty path: targets computed, no controller runs, nothing published
      ensures Ready(inputs) && inputs.path == [] ==>
                outcome == NoPathPoint &&
                targetVelocity == Min3(inputs.velocity1, inputs.velocity2, inputs.velocity3) &&
                lad == LookaheadDistance(inputs.speed) &&
                targetSteering == old(targetSteering) && cmd == old(cmd) &&
                unchanged(velocityPid, steeringPid)
      // ready: the command
      ensures Ready(inputs) && inputs.path != [] ==>
                var error := targetVelocity - inputs.speed;
                var sel := Select(Localize(inputs.pose, inputs.path), lad).value;
                targetVelocity == Min3(inputs.velocity1, inputs.velocity2, inputs.velocity3) &&
                lad == LookaheadDistance(inputs.speed) &&
                targetSteering == law(sel.point, sel.disSq) &&
                velocityPid.prevError == error && steeringPid.prevError == targetSteering &&
                cmd == MakeCommand(0.30 * error + 0.03 * (error - old(velocityPid.prevError)) / 0.02,
                                   1.30 * targetSteering) &&
                outcome == Published(cmd)
    {
      if !(inputs.isPath && inputs.isOdom && inputs.isStatus && inputs.isVelocity) {
        return Waiting;
      }
      targetVelocity := Min3(inputs.velocity1, inputs.velocity2, inputs.velocity3);
      var steering := FindTargetSteering(law);
      if steering.None? {
        return NoPathPoint;
      }
      targetSteering := steering.value;

      var velocityOutput := velocityPid.Output(targetVelocity, inputs.speed);
      var steeringOutput := steeringPid.Output(targetSteering, 0.0);

      if velocityOutput > 0.0 {
        cmd := cmd.(accel := velocityOutput, brake := 0.0);
      } else {
        cmd := cmd.(accel := 0.0, brake := -velocityOutput);
      }
      cmd := cmd.(steering := steeringOutput);
      outcome := Published(cmd);
    }

    /** The node's main loop under one interleaving of deliveries and ticks: each
        delivery runs its callback, each tick runs Tick, and the commands published are
        collected in order. A tick with an empty path ends the node (crashed). */
    method Run(events: seq<Event>, law: (Point, real) -> real)
      returns (published: seq<Command>, crashed: bool)
      requires Valid()
      requires forall k :: 0 <= k < |events| ==> WellFormed(events[k])
      modifies this, velocityPid, steeringPid
      ensures Valid()
      ensures FlagsKept(old(inputs), inputs)
      ensures published != [] ==> Ready(inputs)
      ensures inputs.velocity3 == old(inputs.velocity3)
      ensures forall k :: 0 <= k < |published| ==>
                published[k].accel >= 0.0 && published[k].brake >= 0.0 &&
                (published[k].accel == 0.0 || published[k].brake == 0.0)
    {
      published, crashed := [], false;
      var i := 0;
      while i < |events| && !crashed
        invariant 0 <= i <= |events|
        invariant Valid()
        invariant FlagsKept(old(inputs), inputs)
        invariant published != [] ==> Ready(inputs)
        invariant inputs.velocity3 == old(inputs.velocity3)
        invariant forall k :: 0 <= k < |published| ==>
                    published[k].accel >= 0.0 && published[k].brake >= 0.0 &&
                    (published[k].accel == 0.0 || published[k].brake == 0.0)
      {
        match events[i] {
          case PathMsg(points) => PathCallback(points);
          case Velocity1Msg(v) => Velocity1Callback(v);
          case Velocity2Msg(v) => Velocity2Callback(v);
          case OdomMsg(x, y, c, s) => OdomCallback(x, y, c, s);
          case StatusMsg(speed) => StatusCallback(speed);
          case TickEvent =>
            var outcome := Tick(law);
            match outcome {
              case Waiting =>
              case Published(c) => published := published + [c];
              case NoPathPoint => crashed := true;
            }
        }
        i := i + 1;
      }
    }
  }

  /** At steady state the speed command is neutral: all limits 10 m/s, measured speed
      10 m/s, a straight path ahead, and no error on the previous tick give neither
      acceleration nor brake, and a steering of 1.3 times the target steering. */
  method SteadyStateExample() returns (outcome: TickOutcome)
    ensures outcome.Published? && outcome.cmd.accel == 0.0 && outcome.cmd.brake == 0.0
    ensures outcome.cmd.steering == 1.30 * 0.5
  {
    var node := new Controller();
    node.PathCallback([Point(5.0, 0.0), Point(10.0, 0.0)]);
    node.Velocity1Callback(10.0);
    node.Velocity2Callback(10.0);
    node.Velocity3Callback(10.0);
    node.OdomCallback(0.0, 0.0, 1.0, 0.0);
    node.StatusCallback(10.0);
    outcome := node.Tick((p: Point, d: real) => 0.5);
  }
}
