/** The per-robot safety state machine of the DS4 teleoperation node, as
    pure functions over an abstract state. `Callback` is one run of
    `joyCallback`, `Move` one run of `move`, `Tick` one pass of the main
    loop's emergency-stop gate around `move`, and `Run` an interleaving of
    callbacks and ticks (both run on one thread, so each is atomic). */
module StateMachine {
  import opened Quantizer

  /** MAX_NUMBER_OF_ROBOTS: the size of every per-robot flag array. */
  const MaxRobots: nat := 2
  const MaxLinVel: real := 0.2
  const MaxAngVel: real := 0.8
  /** Settle delay, in 1 ms sleeps, before and after the safety-stop command. */
  const SettleDelay: nat := 150

  /** Button and axis indices of the DS4 layout. */
  const Triangle: nat := 2
  const L1: nat := 4
  const R1: nat := 5
  const TurnAxis: nat := 3
  const ForwardAxis: nat := 4
  const SafetyAxis: nat := 5
  const SelectAxis: nat := 6

  /** One joystick snapshot (`sensor_msgs::Joy`); buttons are integers. */
  datatype Joy = Joy(buttons: seq<int>, axes: seq<real>)

  /** The tag of a log line; its text is not modelled. */
  datatype Notice =
    | Switched            // ROS_WARN "Switch to Kursant"
    | HardStopEngaged     // ROS_WARN "HARD STOP!"
    | HardStopCallFailed  // ROS_ERROR "Can't call hard stop service!"
    | HardStopDisabled    // ROS_WARN "HARD STOP DISABLED!"
    | DisableCallFailed   // ROS_ERROR "Can't call disable hard stop service!"
    | SafetyStop          // ROS_INFO "Safety stop"

  /** What the node does to the outside world, in order. */
  datatype Event =
    | CallHardStop(robot: nat)
    | CallDisable(robot: nat)
    | Delay(dt: nat)
    | Publish(robot: nat, linear: real, angular: real)
    | Log(notice: Notice, robot: nat)

  /** The node's static state: the addressed robot, the three flag arrays
      and the last snapshot received. */
  datatype State = State(
    robot: nat,
    joyUpdated: seq<bool>,
    emergencyStop: seq<bool>,
    safetyTrigger: seq<bool>,
    joy: Joy)

  datatype Step = Step(state: State, events: seq<Event>)

  /** `joyCallback` may index buttons 4 and 5 only after button 2 reads 1. */
  predicate ButtonsReadable(msg: Joy) {
    |msg.buttons| > Triangle && (msg.buttons[Triangle] == 1 ==> |msg.buttons| > R1)
  }

  /** The indices `joyCallback` reads exist; axis 6 is read only when more
      than one robot is configured. */
  predicate Readable(numberOfRobots: int, msg: Joy) {
    ButtonsReadable(msg) && |msg.axes| > SafetyAxis
    && (numberOfRobots > 1 ==> |msg.axes| > SelectAxis)
  }

  /** `move` can convert both scaled stick values to `int16_t`. */
  predicate VelocitiesFit(msg: Joy) {
    |msg.axes| > ForwardAxis
    && FitsInt16(msg.axes[ForwardAxis] * MaxLinVel)
    && FitsInt16(msg.axes[TurnAxis] * MaxAngVel)
  }

  /** What the node demands of a snapshot it is handed. */
  predicate SnapshotOk(numberOfRobots: int, msg: Joy) {
    Readable(numberOfRobots, msg) && VelocitiesFit(msg)
  }

  /** Triangle pressed, L1 and R1 released. */
  predicate EngageCombo(msg: Joy)
    requires ButtonsReadable(msg)
  {
    msg.buttons[Triangle] == 1 && msg.buttons[L1] == 0 && msg.buttons[R1] == 0
  }

  /** Triangle, L1 and R1 all pressed. */
  predicate ReleaseCombo(msg: Joy)
    requires ButtonsReadable(msg)
  {
    msg.buttons[Triangle] == 1 && msg.buttons[L1] == 1 && msg.buttons[R1] == 1
  }

  /** The state invariant: the flag arrays have one slot per robot, the
      addressed robot has a slot, and a pending command has a snapshot
      whose velocities `move` can convert. */
  predicate Inv(s: State) {
    |s.joyUpdated| == MaxRobots && |s.emergencyStop| == MaxRobots
    && |s.safetyTrigger| == MaxRobots && s.robot < MaxRobots
    && (true in s.joyUpdated ==> VelocitiesFit(s.joy))
  }

  /** The state at start-up, from static zero-initialisation: robot 0,
      every flag false, an empty snapshot. `init` gives the same flags. */
  function Initial(): (s: State)
    ensures Inv(s)
    ensures forall i :: 0 <= i < MaxRobots ==>
      !s.joyUpdated[i] && !s.emergencyStop[i] && !s.safetyTrigger[i]
  {
    State(0, [false, false], [false, false], [false, false], Joy([], []))
  }

  /** Robot selection: with more than one robot, axis 6 above 0.8 addresses
      robot 0 and below -0.8 robot 1. */
  function SelectRobot(numberOfRobots: int, robot: nat, msg: Joy): (r: nat)
    requires robot < MaxRobots && Readable(numberOfRobots, msg)
    ensures r < MaxRobots
  {
    if numberOfRobots > 1 && msg.axes[SelectAxis] > 0.8 && robot != 0 then 0
    else if numberOfRobots > 1 && msg.axes[SelectAxis] < -0.8 && robot != 1 then 1
    else robot
  }

  /** The `if / else if / else if` chain on the addressed robot: hard-stop
      engage, hard-stop release, safety-trigger arm. */
  function HardStopOrArm(s: State, msg: Joy, hardStopOk: bool, disableOk: bool): (step: Step)
    requires Inv(s) && VelocitiesFit(s.joy) && ButtonsReadable(msg) && |msg.axes| > SafetyAxis
    ensures Inv(step.state)
    ensures step.state.robot == s.robot && step.state.joy == s.joy
  {
    var r := s.robot;
    if EngageCombo(msg) && !s.emergencyStop[r] then
      var notice := if hardStopOk then HardStopEngaged else HardStopCallFailed;
      Step(s.(emergencyStop := s.emergencyStop[r := true]),
           [CallHardStop(r), Log(notice, r)])
    else if ReleaseCombo(msg) && s.emergencyStop[r] then
      var notice := if disableOk then HardStopDisabled else DisableCallFailed;
      Step(s.(emergencyStop := s.emergencyStop[r := false]),
           [CallDisable(r), Log(notice, r)])
    else if msg.axes[SafetyAxis] < -0.8 then
      Step(s.(safetyTrigger := s.safetyTrigger[r := true],
              joyUpdated := s.joyUpdated[r := true]), [])
    else
      Step(s, [])
  }

  /** The separate `if` on the falling edge of the safety trigger. */
  function SafetyRelease(s: State, msg: Joy): (step: Step)
    requires Inv(s) && |msg.axes| > SafetyAxis
    ensures Inv(step.state)
    ensures step.state.robot == s.robot && step.state.joy == s.joy
  {
    var r := s.robot;
    if msg.axes[SafetyAxis] > -0.8 && s.safetyTrigger[r] then
      Step(s.(safetyTrigger := s.safetyTrigger[r := false]),
           [Log(SafetyStop, r), Delay(SettleDelay), Publish(r, 0.0, 0.0), Delay(SettleDelay)])
    else
      Step(s, [])
  }

  /** One run of `joyCallback`: store the snapshot, select, then the chain,
      then the safety-release check. The two service outcomes are inputs. */
  function Callback(numberOfRobots: int, s: State, msg: Joy, hardStopOk: bool, disableOk: bool): (step: Step)
    requires Inv(s) && SnapshotOk(numberOfRobots, msg)
    ensures Inv(step.state)
    ensures step.state.joy == msg
    ensures step.state.robot == SelectRobot(numberOfRobots, s.robot, msg)
  {
    var r := SelectRobot(numberOfRobots, s.robot, msg);
    var switched := if r != s.robot then [Log(Switched, r)] else [];
    var selected := s.(robot := r, joy := msg);
    var chain := HardStopOrArm(selected, msg, hardStopOk, disableOk);
    var release := SafetyRelease(chain.state, msg);
    Step(release.state, switched + chain.events + release.events)
  }

  /** One run of `move`: publish the quantized sticks to the addressed robot
      when a fresh snapshot is pending and the safety trigger is held. */
  function Move(s: State): (step: Step)
    requires Inv(s)
    ensures Inv(step.state)
  {
    var r := s.robot;
    if s.joyUpdated[r] && s.safetyTrigger[r] then
      var linear := SpeedStepControl(s.joy.axes[ForwardAxis] * MaxLinVel);
      var angular := SpeedStepControl(s.joy.axes[TurnAxis] * MaxAngVel);
      Step(s.(joyUpdated := s.joyUpdated[r := false]), [Publish(r, linear, angular)])
    else
      Step(s, [])
  }

  /** One pass of the main loop: `move` runs only if the addressed robot is
      not emergency-stopped. */
  function Tick(s: State): (step: Step)
    requires Inv(s)
    ensures Inv(step.state)
    ensures s.emergencyStop[s.robot] ==> step == Step(s, [])
  {
    if !s.emergencyStop[s.robot] then Move(s) else Step(s, [])
  }

  /** What can happen between two states: a snapshot arrives (with the
      outcomes the two services would give) or the loop ticks. */
  datatype Input = Snapshot(msg: Joy, hardStopOk: bool, disableOk: bool) | Pass

  predicate InputsOk(numberOfRobots: int, inputs: seq<Input>) {
    forall i :: 0 <= i < |inputs| ==>
      inputs[i].Snapshot? ==> SnapshotOk(numberOfRobots, inputs[i].msg)
  }

  function Apply(numberOfRobots: int, s: State, input: Input): (step: Step)
    requires Inv(s)
    requires input.Snapshot? ==> SnapshotOk(numberOfRobots, input.msg)
    ensures Inv(step.state)
  {
    match input
    case Snapshot(msg, hardStopOk, disableOk) => Callback(numberOfRobots, s, msg, hardStopOk, disableOk)
    case Pass => Tick(s)
  }

  /** An interleaving of callbacks and ticks, with all events in order. */
  function Run(numberOfRobots: int, s: State, inputs: seq<Input>): (step: Step)
    requires Inv(s) && InputsOk(numberOfRobots, inputs)
    ensures Inv(step.state)
    decreases |inputs|
  {
    if inputs == [] then Step(s, [])
    else
      var first := Apply(numberOfRobots, s, inputs[0]);
      var rest := Run(numberOfRobots, first.state, inputs[1..]);
      Step(rest.state, first.events + rest.events)
  }

  /** The externally visible actions of an event list: everything but logs. */
  function Effects(events: seq<Event>): seq<Event> {
    if events == [] then []
    else (if events[0].Log? then [] else [events[0]]) + Effects(events[1..])
  }

  /** The velocity commands of an event list. */
  function Publishes(events: seq<Event>): seq<Event> {
    if events == [] then []
    else (if events[0].Publish? then [events[0]] else []) + Publishes(events[1..])
  }
}
