# Pursuit path-tracking controller — a Dafny model

This project models the control core of the `ctrl_cmd` node of a self-driving
vehicle: a ROS node that latches the latest path, odometry, vehicle status and
velocity limits, and at a fixed rate computes a steering command by a
lookahead ("pursuit") law and an accelerator/brake command by a speed PID.

The model is written over Dafny `real`, so every arithmetic statement is exact.

- `geometry.dfy` (module `Geometry`) covers the world-to-vehicle frame transform. The pose carries the
  cosine and sine of the yaw angle, constrained to the unit circle. The
  inverse of the homogeneous pose matrix is written in closed form. It is
  proved to be the two-sided inverse, so both round trips hold.
- `lookahead.dfy` (module `Lookahead`) covers the lookahead distance and the
  path scan of `find_target_steering`. `Select` is a reference definition of
  which point the scan ends on and what `dis` then holds, built from
  `FirstTarget` and `LastForward`. `ScanPath` is the scan loop itself, with its
  early exit. It is proved equal to `Select`. Distances are compared as
  squares, which is sound because the lookahead distance is at least 3
  (`SquaredComparison`).
- `pid.dfy` (module `Pid`) covers the class `pidControl` as `PidControl`, with
  fields updated in place.
- `control.dfy` (module `Control`) covers the node class `ctrl_cmd_pub` as
  `Controller`:
  - the latched inputs, a record with its four readiness flags;
  - one method per subscriber callback;
  - `FindTargetSteering`;
  - `Tick`, one pass of the 30 Hz loop;
  - `Run`, the loop driven by an interleaving of deliveries and ticks.

  `Controller.Valid()` records the node's configuration. It also records a
  consequence of that configuration: both PID integral gains are 0, so both
  integral terms stay 0 for ever.

The steering law itself (`atan2`, `sin`, and the 2.984 m wheelbase) is a
parameter of `FindTargetSteering`, `Tick` and `Run`. It is a function from the
chosen vehicle-frame point and the square of `dis` to an angle.

When the node is ready but holds an empty path, the source has no point to
steer towards. Its local variable `local_path_point` is unbound, and the
resulting exception ends the node. The model makes this explicit:
- `Select` and `ScanPath` return `None`;
- `Tick` returns `NoPathPoint` after writing the target speed and the lookahead
  distance, as the source does before it raises;
- `Run` stops and reports `crashed`.

When no point qualifies, the scan falls through to the last path point. That
point may lie behind the vehicle. `dis` then belongs to the last point ahead of
the vehicle, or is 0. The model keeps this behaviour exactly.

## Model

| member | source | states |
|---|---|---|
| `Geometry.InverseMatrixIsInverse` | catkin_ws/src/step_2/scripts/ctrl_cmd_pub_ver2.py:112-117 | for a unit heading, the closed-form inverse multiplied with the pose matrix gives the identity, in both orders; so it is the matrix `np.linalg.inv` returns |
| `Geometry.LocalThenWorld` | catkin_ws/src/step_2/scripts/ctrl_cmd_pub_ver2.py:112-123 | a world point taken into the vehicle frame and back is unchanged |
| `Geometry.WorldThenLocal` | catkin_ws/src/step_2/scripts/ctrl_cmd_pub_ver2.py:112-123 | a vehicle-frame point taken into the world and back is unchanged |
| `Geometry.ToLocalKeepsDistance` | catkin_ws/src/step_2/scripts/ctrl_cmd_pub_ver2.py:123-126 | the transform is rigid: the distance used for `dis` equals the world distance between the point and the vehicle position |
| `Lookahead.LookaheadDistance` | catkin_ws/src/step_2/scripts/ctrl_cmd_pub_ver2.py:109-111 | for every speed, the lookahead distance lies in [3, 20]; it is 0.6 × speed inside that range, 3 below it, and 20 above it |
| `Lookahead.SquaredComparison` | catkin_ws/src/step_2/scripts/ctrl_cmd_pub_ver2.py:126-127 | for a non-negative distance and a positive lookahead, `dis >= lad` holds exactly when `dis² >= lad²` |
| `Lookahead.FirstTarget` | catkin_ws/src/step_2/scripts/ctrl_cmd_pub_ver2.py:120-128 | the index found is ahead of the vehicle and at least lad away, and no earlier point is; no index is found exactly when no point among the first n qualifies |
| `Lookahead.LastForward` | catkin_ws/src/step_2/scripts/ctrl_cmd_pub_ver2.py:125-126 | the index found is ahead of the vehicle, and no later point below n is; no index is found exactly when no point among the first n is ahead |
| `Lookahead.Select` | catkin_ws/src/step_2/scripts/ctrl_cmd_pub_ver2.py:118-128 | the result is empty exactly on an empty path; the scan stops at the first point ahead and at least lad away, and every earlier point ahead is closer; if no point qualifies, it ends on the last path point; `dis` is that of the last point ahead of the vehicle up to the stop, or 0 |
| `Lookahead.FirstTargetStable` | catkin_ws/src/step_2/scripts/ctrl_cmd_pub_ver2.py:127-128 | once a qualifying point is found, scanning further points does not change the choice; this is why the early exit is sound |
| `Lookahead.ScanPath` | catkin_ws/src/step_2/scripts/ctrl_cmd_pub_ver2.py:118-128 | the loop transforms each point, updates `dis` for points ahead, exits at the first qualifying point, and returns exactly `Select` of the vehicle-frame path |
| `Lookahead.StraightPathAtRest` | catkin_ws/src/step_2/scripts/ctrl_cmd_pub_ver2.py:109-128 | with the vehicle at rest at the origin and points 1 m apart straight ahead, the lookahead is 3 and the point 3 m ahead is chosen, with `dis` = 3 |
| `Pid.PidControl.constructor` | catkin_ws/src/step_2/scripts/ctrl_cmd_pub_ver2.py:138-144 | a new controller keeps the given gains and starts with previous error 0, integral 0 and time step 0.02, whatever the gains |
| `Pid.PidControl.Output` | catkin_ws/src/step_2/scripts/ctrl_cmd_pub_ver2.py:147-157 | error = target − current; the integral grows by exactly iGain·error·0.02; the result is pGain·error + new integral + dGain·(error − old previous error)/0.02; previous error becomes error; nothing else changes; with iGain = dGain = 0 the result is pGain·error plus the unchanged integral |
| `Pid.ProportionalExample` | catkin_ws/src/step_2/scripts/ctrl_cmd_pub_ver2.py:147-157 | gains (1, 0, 0), target 5 and measurement 2 give 3 on two calls in a row, and leave previous error 3 |
| `Control.Min3` | catkin_ws/src/step_2/scripts/ctrl_cmd_pub_ver2.py:60 | the target speed is at most each of the three limits and equals one of them |
| `Control.MakeCommand` | catkin_ws/src/step_2/scripts/ctrl_cmd_pub_ver2.py:66-73 | accel ≥ 0 and brake ≥ 0, at most one is nonzero, and accel − brake is the speed output; a positive output gives no brake and any other output gives no accel; steering is the steering output |
| `Control.Controller.constructor` | catkin_ws/src/step_2/scripts/ctrl_cmd_pub_ver2.py:31-54 | at start-up no flag is set, all three limits and the target speed are 100/3.6, the lookahead distance is 15, the target steering is 0, and two fresh controllers have the node's gains and no history |
| `Control.Controller.PathCallback` | catkin_ws/src/step_2/scripts/ctrl_cmd_pub_ver2.py:80-82 | replaces the path and sets its flag; no other input and no flag is cleared |
| `Control.Controller.Velocity1Callback` | catkin_ws/src/step_2/scripts/ctrl_cmd_pub_ver2.py:85-87 | replaces the first limit and sets the velocity flag; nothing else changes |
| `Control.Controller.Velocity2Callback` | catkin_ws/src/step_2/scripts/ctrl_cmd_pub_ver2.py:89-90 | replaces the second limit; every flag keeps its value |
| `Control.Controller.Velocity3Callback` | catkin_ws/src/step_2/scripts/ctrl_cmd_pub_ver2.py:92-93 | replaces the third limit; every flag keeps its value |
| `Control.Controller.OdomCallback` | catkin_ws/src/step_2/scripts/ctrl_cmd_pub_ver2.py:96-100 | replaces position and heading and sets the odometry flag; nothing else changes |
| `Control.Controller.StatusCallback` | catkin_ws/src/step_2/scripts/ctrl_cmd_pub_ver2.py:103-105 | replaces the measured speed and sets the status flag; nothing else changes |
| `Control.Controller.FindTargetSteering` | catkin_ws/src/step_2/scripts/ctrl_cmd_pub_ver2.py:108-133 | sets the lookahead distance from the measured speed, within [3, 20]; gives no steering exactly on an empty path; otherwise gives the steering law applied to the point `Select` chooses and its `dis` |
| `Control.Controller.Tick` | catkin_ws/src/step_2/scripts/ctrl_cmd_pub_ver2.py:59-75 | until path, odometry, status and the first limit have all arrived, nothing changes and nothing is published. When ready: the target speed is the minimum of the limits; the speed controller sees that target against the measured speed; the steering controller sees the target steering against 0. The published command is the accel/brake split of 0.30·e + 0.03·(e − previous e)/0.02, with steering exactly 1.3 × the target steering. On an empty path no controller runs |
| `Control.Controller.Run` | catkin_ws/src/step_2/scripts/ctrl_cmd_pub_ver2.py:57-77 | over any interleaving of deliveries and ticks, no flag is ever cleared; nothing is published unless all four categories have arrived, however many ticks pass; the third limit never changes because nothing delivers it; every published command has accel, brake ≥ 0 with at most one nonzero |
| `Control.SteadyStateExample` | catkin_ws/src/step_2/scripts/ctrl_cmd_pub_ver2.py:59-73 | with all limits at 10 m/s, a measured speed of 10 m/s and no previous error, the published command has neither accel nor brake, and steering 1.3 × the target steering |

## Left out

- ROS plumbing is not modelled: node start-up, subscribers, the publisher, `rospy.Rate(30)`, `sleep` and `is_shutdown`. The publication is the `Published` outcome of `Tick` and the list returned by `Run`.
- Message types are reduced to the fields the node reads. The status message becomes its longitudinal speed. The odometry message becomes its position and the cosine and sine of its yaw.
- `euler_from_quaternion`, `cos` and `sin` are left out as foreign calls. `OdomCallback` receives the cosine and sine of the yaw directly. Its requirement that they lie on the unit circle is what those calls guarantee.
- `np.linalg.inv` is replaced by its closed form. `Geometry.InverseMatrixIsInverse` proves that the closed form is the inverse.
- The steering law at lines 130-131 (`atan2`, `sin`, wheelbase 2.984, lateral bias 0.024) is left out as floating-point trigonometry. It is the `law` parameter. The law receives `dis` squared, because `sqrt` is also left out.
- Lookahead.ScanPath: carries `dis` as its square. Distances are compared as squares; `Lookahead.SquaredComparison` shows the two tests agree.
- IEEE floating-point rounding is not modelled. All arithmetic is exact over `real`.
- Concurrency between the callbacks and the loop is not modelled. `Run` takes one interleaving of whole deliveries and ticks.
- The timing mismatch is not modelled: the PID time step is 0.02 s, while the loop period is 1/30 s. The model uses the 0.02 s constant, as the source does.
- `is_target_point` (line 36) is set once and never read. It is not modelled.
- Nothing subscribes to the third velocity limit. `Velocity3Callback` is modelled, but `Run` has no event for it, so `velocity3` keeps 100/3.6.
- After the exception on an empty path the node process ends. `Run` stops there. Nothing after that point is modelled.
