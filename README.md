# ds4_joy: the teleoperation safety state machine, in Dafny

This project models the core of `ds4_control`, a ROS node that drives one
or two mobile robots ("Kursant 1" and "Kursant 3") from a DualShock 4
gamepad, and proves properties of that model.

Each joystick snapshot runs `joyCallback`. It first selects the addressed
robot with the arrow axis (only when more than one robot is configured).
It then takes at most one branch of a chain:

- triangle alone latches a hard stop and calls the robot's `hard_stop` service;
- triangle with L1 and R1 clears the hard stop and calls `disable_hard_stop`;
- otherwise, R2 pressed below -0.8 arms the safety trigger and marks a
  fresh command as pending.

After the chain, a separate check handles the falling edge of the safety
trigger. It sends one zero-velocity command between two 150 ms settle
delays. The main loop runs at 10 Hz. On each pass it calls `move`, unless
the addressed robot is hard-stopped. `move` publishes the quantized stick
velocities once per pending snapshot, while the trigger is held.

Layout:

- `quantizer.dfy`, module `Quantizer`: `speedStepControl`. It rounds a
  velocity toward zero to 0.01 through a 16-bit integer. The module proves
  exact bounds, uniqueness, idempotence and the int16 range.
- `state_machine.dfy`, module `StateMachine`: the node's static state as
  a datatype. `Callback`, `Move` and `Tick` are one run of the callback,
  one run of `move` and one pass of the main loop. `Run` is any
  interleaving of callbacks and loop passes.
- `controller.dfy`, module `Node`: class `Ds4Controller`. It holds the
  three per-robot flag arrays, `robot_number` and the last snapshot,
  updated in place as in the source. Each handler (`JoyCallback` and its
  two steps, `Move`, `Tick`) is proved to produce exactly the state and
  events of the matching `StateMachine` function.
- `properties.dfy`, module `Properties`: the lemmas about one snapshot,
  one tick and whole runs.

The outside world is modelled as a list of `Event`s in order:
`CallHardStop(r)`, `CallDisable(r)`, `Delay(150)`, `Publish(r, linear,
angular)` and `Log(notice, r)`. A `Log` event carries the tag of a log
line, not its text. The results of the two service calls are inputs of
the callback.

Three behaviours of the code are worth noting:

- A failed hard-stop call still latches the flag. Line 112 of
  `src/ds4_control.cpp` sets `is_emergency_stop` to true after the call,
  whatever the call returned. `HardStopEngage` proves this.
  `OutcomeOnlyLogged` proves that the state afterwards and the calls and
  commands sent do not depend on either call's outcome: only the log
  line does.
- The release edge of the safety trigger sends its zero command even to
  an e-stopped robot, because the check at line 136 does not test
  `is_emergency_stop`. `StopIsLatched` therefore rules out only commands
  that would make an e-stopped robot move.
- The safety-release check is a separate `if` (line 136), so it can fire
  in the same callback as a hard-stop engage or release
  (`CallbackEffects`).

The code also lets a robot stay armed when the operator switches robots
while holding R2. The previously addressed robot keeps its safety trigger
and receives no zero command (`SwitchLeavesPreviousRobot`). It receives
its safety-stop zero command only once it is addressed again with R2
released.

Start-up is static zero-initialisation of the three flag arrays
(lines 44-46). `main` never calls `init` (lines 57-65), which would give
the same state.

## Model

| member | source | states |
|---|---|---|
| `Quantizer.TruncateTowardZero` | src/ds4_control.cpp:159-161 | the integer lies between zero and the value and is less than 1 away from it; C++ float-to-integer conversion |
| `Quantizer.SpeedStepControl` | src/ds4_control.cpp:157-164 | the result is a whole number of hundredths, has the sign of the input or is zero, is no larger in magnitude than the input, and lies within 0.01 of it; requires the int16 conversion to be defined |
| `Quantizer.SpeedStepControlUnique` | src/ds4_control.cpp:157-164 | any whole number of hundredths that lies between zero and v and within 0.01 of v is the result: truncation, not rounding |
| `Quantizer.FitsInt16Range` | src/ds4_control.cpp:159-161 | the `int16_t` intermediate is representable exactly when -327.69 < v < 327.68 |
| `Quantizer.CentiMultiplesAreFixed` | src/ds4_control.cpp:157-164 | every k/100 with k in the int16 range is left unchanged |
| `Quantizer.SpeedStepControlIdempotent` | src/ds4_control.cpp:157-164 | quantizing an already quantized value changes nothing |
| `Quantizer.SpeedStepControlSamples` | src/ds4_control.cpp:157-164 | 0.1234 becomes 0.12 and -0.1999 becomes -0.19 |
| `StateMachine.Initial` | src/ds4_control.cpp:41-46 | the start state satisfies the invariant: robot 0 addressed, every flag of every robot false |
| `StateMachine.SelectRobot` | src/ds4_control.cpp:84-96 | the selected robot always has a flag slot |
| `StateMachine.HardStopOrArm` | src/ds4_control.cpp:98-134 | the chain keeps the state invariant and leaves the addressed robot and the snapshot alone |
| `StateMachine.SafetyRelease` | src/ds4_control.cpp:136-153 | the release check keeps the state invariant and leaves the addressed robot and the snapshot alone |
| `StateMachine.Callback` | src/ds4_control.cpp:80-154 | a snapshot keeps the invariant, is stored as the last snapshot, and the addressed robot afterwards is the selected one |
| `StateMachine.Move` | src/ds4_control.cpp:166-182 | `move` keeps the invariant (a pending command always has convertible velocities) |
| `StateMachine.Tick` | src/ds4_control.cpp:219-228 | a loop pass keeps the invariant, and on an e-stopped addressed robot it changes nothing and sends nothing |
| `StateMachine.Apply` | src/ds4_control.cpp:219-228 | one callback or one loop pass keeps the invariant |
| `StateMachine.Run` | src/ds4_control.cpp:219-228 | any interleaving of callbacks and loop passes keeps the invariant |
| `Node.Ds4Controller.constructor` | src/ds4_control.cpp:41-46 | the new object, with zero-initialised flag arrays, is valid and its abstract state is `Initial()` |
| `Node.Ds4Controller.Init` | src/ds4_control.cpp:57-65 | after the loop every flag of every robot is false |
| `Node.Ds4Controller.JoyCallback` | src/ds4_control.cpp:80-154 | the arrays, robot and snapshot afterwards, and the events sent, are exactly those of `Callback` on the state before |
| `Node.Ds4Controller.HardStopOrArmStep` | src/ds4_control.cpp:98-134 | the chain, updating the arrays in place, has the state and events of `HardStopOrArm` |
| `Node.Ds4Controller.SafetyReleaseStep` | src/ds4_control.cpp:136-153 | the release check, updating the array in place, has the state and events of `SafetyRelease` |
| `Node.Ds4Controller.Move` | src/ds4_control.cpp:166-182 | `move`, clearing the pending flag in place, has the state and events of `Move` |
| `Node.Ds4Controller.Tick` | src/ds4_control.cpp:219-224 | the main loop's gate around `move` has the state and events of `Tick` |
| `Properties.AddressedRobot` | src/ds4_control.cpp:84-96 | with one robot no snapshot changes the addressed robot; with more, axis 6 above 0.8 addresses robot 0, below -0.8 robot 1, anything else keeps the current robot |
| `Properties.CallbackEffects` | src/ds4_control.cpp:98-153 | the calls and commands of a snapshot, in terms of the state before it: one hard-stop or disable call to the addressed robot when that branch fires, then the settle-delayed zero command exactly when the trigger was armed and the safety axis is above -0.8 |
| `Properties.CallbackFlags` | src/ds4_control.cpp:98-153 | the addressed robot's e-stop, trigger and pending flags afterwards, in closed form in terms of the state before |
| `Properties.AddressedSlotOnly` | src/ds4_control.cpp:98-153 | a snapshot leaves every flag of every robot other than the selected one unchanged |
| `Properties.HardStopEngage` | src/ds4_control.cpp:99-113 | triangle alone on a robot not e-stopped: exactly one hard-stop call, to that robot; the robot is e-stopped afterwards whatever the call returned; the success log appears exactly when the call succeeded and the failure log exactly when it failed |
| `Properties.HardStopRelease` | src/ds4_control.cpp:115-129 | triangle with L1 and R1 on an e-stopped robot: exactly one disable call, to that robot; the e-stop is cleared whatever the call returned; the success log appears exactly when the call succeeded and the failure log exactly when it failed |
| `Properties.SafetyArm` | src/ds4_control.cpp:130-134 | with neither hard-stop branch taken and the safety axis below -0.8, the trigger is armed and a command is pending, and nothing is sent, so arming and the release edge never fire in the same snapshot |
| `Properties.SafetyReleaseEdge` | src/ds4_control.cpp:136-153 | with the trigger armed and the safety axis above -0.8: the trigger is cleared, the only command is one zero command to the addressed robot, and the calls end with a delay, that command and a delay |
| `Properties.SafetyReleaseOnce` | src/ds4_control.cpp:136-153 | a second snapshot with the safety axis above -0.8 on the same robot publishes nothing |
| `Properties.SwitchLeavesPreviousRobot` | src/ds4_control.cpp:84-153 | a snapshot that switches robots leaves the previous robot's trigger as it was and sends commands only to the new robot |
| `Properties.CallbackNeverDrives` | src/ds4_control.cpp:80-154 | no snapshot sends any robot a non-zero velocity |
| `Properties.TickPublishes` | src/ds4_control.cpp:166-182 | a loop pass publishes if and only if the addressed robot is not e-stopped, a snapshot is pending and the trigger is held; it then sends exactly the quantized sticks (forward times 0.2, turn times 0.8) to that robot and clears the pending flag, and otherwise changes nothing |
| `Properties.TickTwice` | src/ds4_control.cpp:219-228 | a second loop pass with no snapshot in between sends nothing: at most one command per pending snapshot |
| `Properties.TicksPublishAtMostOnce` | src/ds4_control.cpp:219-228 | any number of loop passes with no snapshot in between do exactly what the first does |
| `Properties.StopIsLatched` | src/ds4_control.cpp:99-129 | an e-stopped robot stays e-stopped and is never sent a non-zero velocity along any interleaving in which no snapshot addressed to it presses triangle with L1 and R1 |
| `Properties.OutcomeOnlyLogged` | src/ds4_control.cpp:99-129 | the state after a snapshot and the calls and commands it sends are the same whatever the hard-stop and disable services return |
| `Properties.EndToEnd` | src/ds4_control.cpp:166-182 | two robots, robot 0 addressed, trigger pressed with forward stick 0.5 and turn stick 0, then one loop pass: exactly one command, (0.1, 0.0) to robot 0 |
| `Properties.StickVelocitiesFit` | src/ds4_control.cpp:31-32 | for every stick position in [-1, 1], both scaled velocities fit the int16 intermediate |

## Left out

- ROS plumbing (`ros::init`, the node handle, `advertise`, `subscribe`, `serviceClient`, `getParam`, `spinOnce`, `rate.sleep`, the topic and service names) is transport and configuration loading. `number_of_robots` becomes a constructor parameter. A published command or a service call becomes an event naming the robot index.
- `delayTimer` (its busy loop of 1 ms sleeps) is blocking timing. It becomes one `Delay(150)` event.
- Log messages keep only their tag (`Notice`) and robot index, not their text or level.
- Floating point: axes, gains and velocities are reals. The float-to-`int16_t` conversion is modelled as exact truncation toward zero, with no claim of bit-level agreement.
- Configured robot counts other than 1 or 2: the state machine accepts any count, but the model does not capture that the node then sets up no publishers or service clients.
- Concurrency: the callback and the loop run on one thread through `spinOnce`, so `Run` interleaves them as atomic steps.
- `Node.Ds4Controller.JoyCallback` requires the snapshot to have the indices the callback reads: button 2, then buttons 4 and 5 when button 2 reads 1, axis 5, and axis 6 when more than one robot is configured. It also requires the scaled stick values to be convertible to `int16_t`, because `move` later converts the stored snapshot. Out-of-range indexing and out-of-range conversion are undefined behaviour in C++.
- `Properties.StopIsLatched`: rules out only commands that would move an e-stopped robot, not the safety-release zero command, which line 136 sends without testing `is_emergency_stop`.
