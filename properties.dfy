/** Properties of the safety state machine: what one snapshot does, what
    one tick does, and what any interleaving of them can and cannot do. */
module Properties {
  import opened Quantizer
  import opened StateMachine

  /** The settle-delayed zero command sent on a safety-trigger release. */
  function ZeroStop(r: nat): seq<Event> {
    [Delay(SettleDelay), Publish(r, 0.0, 0.0), Delay(SettleDelay)]
  }

  /** A command that would make robot `r` move. */
  predicate Drives(e: Event, r: nat) {
    e.Publish? && e.robot == r && (e.linear != 0.0 || e.angular != 0.0)
  }

  lemma {:induction false} EffectsAppend(a: seq<Event>, b: seq<Event>)
    ensures Effects(a + b) == Effects(a) + Effects(b)
  {
    if a == [] {
      assert a + b == b;
    } else {
      assert (a + b)[1..] == a[1..] + b;
      EffectsAppend(a[1..], b);
    }
  }

  lemma {:induction false} PublishesAppend(a: seq<Event>, b: seq<Event>)
    ensures Publishes(a + b) == Publishes(a) + Publishes(b)
  {
    if a == [] {
      assert a + b == b;
    } else {
      assert (a + b)[1..] == a[1..] + b;
      PublishesAppend(a[1..], b);
    }
  }

  /** The robot a snapshot addresses: unchanged with a single robot; with
      more, axis 6 above 0.8 picks robot 0, below -0.8 robot 1, anything
      else keeps the current robot. */
  lemma AddressedRobot(n: int, s: State, msg: Joy, hardStopOk: bool, disableOk: bool)
    requires Inv(s) && SnapshotOk(n, msg)
    ensures n <= 1 ==> Callback(n, s, msg, hardStopOk, disableOk).state.robot == s.robot
    ensures n > 1 ==>
      (Callback(n, s, msg, hardStopOk, disableOk).state.robot ==
       if msg.axes[SelectAxis] > 0.8 then 0
       else if msg.axes[SelectAxis] < -0.8 then 1
       else s.robot)
  {
  }

  /** The log line and the settle-delayed zero command of a safety stop. */
  lemma SafetyStopEvents(r: nat)
    ensures Effects([Log(SafetyStop, r)] + ZeroStop(r)) == ZeroStop(r)
    ensures Publishes([Log(SafetyStop, r)] + ZeroStop(r)) == [Publish(r, 0.0, 0.0)]
  {
    var z := ZeroStop(r);
    var e := [Log(SafetyStop, r)] + z;
    assert e[0] == Log(SafetyStop, r) && e[1..] == z;
    assert z[1..][1..][1..] == [];
    assert Effects(z[1..][1..]) == [Delay(SettleDelay)];
    assert Effects(z[1..]) == [Publish(r, 0.0, 0.0), Delay(SettleDelay)];
    assert Effects(z) == z;
    assert Publishes(z[1..][1..]) == [];
    assert Publishes(z[1..]) == [Publish(r, 0.0, 0.0)];
    assert Publishes(z) == [Publish(r, 0.0, 0.0)];
  }

  /** The service call of the hard-stop chain and its log line. */
  lemma CallEvents(call: Event, notice: Notice, r: nat)
    requires !call.Log? && !call.Publish?
    ensures Effects([call, Log(notice, r)]) == [call]
    ensures Publishes([call, Log(notice, r)]) == []
  {
    var e := [call, Log(notice, r)];
    assert e[1..][1..] == [];
    assert Effects(e[1..]) == [];
    assert Publishes(e[1..]) == [];
  }

  /** What the `if / else if / else if` chain sends. */
  lemma ChainEffects(s: State, msg: Joy, hardStopOk: bool, disableOk: bool)
    requires Inv(s) && VelocitiesFit(s.joy) && ButtonsReadable(msg) && |msg.axes| > SafetyAxis
    ensures
      var r := s.robot;
      var step := HardStopOrArm(s, msg, hardStopOk, disableOk);
      && Effects(step.events) ==
           (if EngageCombo(msg) && !s.emergencyStop[r] then [CallHardStop(r)]
            else if ReleaseCombo(msg) && s.emergencyStop[r] then [CallDisable(r)]
            else [])
      && Publishes(step.events) == []
      && (step.state.safetyTrigger[r] && msg.axes[SafetyAxis] > -0.8
          <==> s.safetyTrigger[r] && msg.axes[SafetyAxis] > -0.8)
  {
    var r := s.robot;
    if EngageCombo(msg) && !s.emergencyStop[r] {
      CallEvents(CallHardStop(r), if hardStopOk then HardStopEngaged else HardStopCallFailed, r);
    } else if ReleaseCombo(msg) && s.emergencyStop[r] {
      CallEvents(CallDisable(r), if disableOk then HardStopDisabled else DisableCallFailed, r);
    }
  }

  /** What the safety-release check sends. */
  lemma ReleaseEffects(s: State, msg: Joy)
    requires Inv(s) && |msg.axes| > SafetyAxis
    ensures
      var r := s.robot;
      var edge := msg.axes[SafetyAxis] > -0.8 && s.safetyTrigger[r];
      var step := SafetyRelease(s, msg);
      && Effects(step.events) == (if edge then ZeroStop(r) else [])
      && Publishes(step.events) == (if edge then [Publish(r, 0.0, 0.0)] else [])
      && (edge ==> Log(SafetyStop, r) in step.events)
  {
    SafetyStopEvents(s.robot);
  }

  /** The three parts of one snapshot's events, each with what it sends. */
  lemma CallbackParts(n: int, s: State, msg: Joy, hardStopOk: bool, disableOk: bool)
    requires Inv(s) && SnapshotOk(n, msg)
    ensures
      var r := SelectRobot(n, s.robot, msg);
      var selected := s.(robot := r, joy := msg);
      var chain := HardStopOrArm(selected, msg, hardStopOk, disableOk);
      var release := SafetyRelease(chain.state, msg);
      var events := Callback(n, s, msg, hardStopOk, disableOk).events;
      && Effects(events) == Effects(chain.events) + Effects(release.events)
      && Publishes(events) == Publishes(chain.events) + Publishes(release.events)
      && (forall e :: e in chain.events ==> e in events)
      && (forall e :: e in release.events ==> e in events)
  {
    var r := SelectRobot(n, s.robot, msg);
    var switched: seq<Event> := if r != s.robot then [Log(Switched, r)] else [];
    var selected := s.(robot := r, joy := msg);
    var chain := HardStopOrArm(selected, msg, hardStopOk, disableOk);
    var release := SafetyRelease(chain.state, msg);
    var events := switched + chain.events + release.events;
    assert Callback(n, s, msg, hardStopOk, disableOk).events == events;
    EffectsAppend(switched + chain.events, release.events);
    EffectsAppend(switched, chain.events);
    PublishesAppend(switched + chain.events, release.events);
    PublishesAppend(switched, chain.events);
    assert Effects(switched) == [] && Publishes(switched) == [];
    assert forall e :: e in chain.events ==> e in events by {
      forall e | e in chain.events ensures e in events {
        assert e in switched + chain.events;
      }
    }
  }

  /** The externally visible actions of one snapshot, stated on the state
      before it: at most one service call on the addressed robot, then the
      settle-delayed zero command exactly when the safety trigger was armed
      and the safety axis is above -0.8. */
  lemma CallbackEffects(n: int, s: State, msg: Joy, hardStopOk: bool, disableOk: bool)
    requires Inv(s) && SnapshotOk(n, msg)
    ensures
      var r := SelectRobot(n, s.robot, msg);
      var engage := EngageCombo(msg) && !s.emergencyStop[r];
      var release := ReleaseCombo(msg) && s.emergencyStop[r];
      var edge := msg.axes[SafetyAxis] > -0.8 && s.safetyTrigger[r];
      Effects(Callback(n, s, msg, hardStopOk, disableOk).events) ==
        (if engage then [CallHardStop(r)] else if release then [CallDisable(r)] else [])
        + (if edge then ZeroStop(r) else [])
  {
    var r := SelectRobot(n, s.robot, msg);
    var selected := s.(robot := r, joy := msg);
    var chain := HardStopOrArm(selected, msg, hardStopOk, disableOk);
    CallbackParts(n, s, msg, hardStopOk, disableOk);
    ChainEffects(selected, msg, hardStopOk, disableOk);
    ReleaseEffects(chain.state, msg);
  }

  /** The flags of the addressed robot after one snapshot, stated on the
      state before it. */
  lemma CallbackFlags(n: int, s: State, msg: Joy, hardStopOk: bool, disableOk: bool)
    requires Inv(s) && SnapshotOk(n, msg)
    ensures
      var r := SelectRobot(n, s.robot, msg);
      var t := Callback(n, s, msg, hardStopOk, disableOk).state;
      var engage := EngageCombo(msg) && !s.emergencyStop[r];
      var release := ReleaseCombo(msg) && s.emergencyStop[r];
      var arm := !engage && !release && msg.axes[SafetyAxis] < -0.8;
      && t.emergencyStop[r] == (if engage then true else if release then false else s.emergencyStop[r])
      && t.safetyTrigger[r] == (arm || (s.safetyTrigger[r] && msg.axes[SafetyAxis] <= -0.8))
      && t.joyUpdated[r] == (arm || s.joyUpdated[r])
  {
  }

  /** A snapshot changes flags only in the slot of the robot it addresses
      once selection has run; the other robot's flags stay as they were. */
  lemma AddressedSlotOnly(n: int, s: State, msg: Joy, hardStopOk: bool, disableOk: bool, i: nat)
    requires Inv(s) && SnapshotOk(n, msg)
    requires i < MaxRobots && i != SelectRobot(n, s.robot, msg)
    ensures
      var t := Callback(n, s, msg, hardStopOk, disableOk).state;
      && t.emergencyStop[i] == s.emergencyStop[i]
      && t.safetyTrigger[i] == s.safetyTrigger[i]
      && t.joyUpdated[i] == s.joyUpdated[i]
  {
  }

  /** Triangle alone on a robot that is not e-stopped: exactly one hard-stop
      call, to the addressed robot, and the robot is e-stopped afterwards
      whatever the call returned; the log tells success from failure. */
  lemma HardStopEngage(n: int, s: State, msg: Joy, hardStopOk: bool, disableOk: bool)
    requires Inv(s) && SnapshotOk(n, msg)
    requires EngageCombo(msg) && !s.emergencyStop[SelectRobot(n, s.robot, msg)]
    ensures
      var r := SelectRobot(n, s.robot, msg);
      var step := Callback(n, s, msg, hardStopOk, disableOk);
      && step.state.emergencyStop[r]
      && Effects(step.events) ==
           [CallHardStop(r)]
           + (if msg.axes[SafetyAxis] > -0.8 && s.safetyTrigger[r] then ZeroStop(r) else [])
      && Log(if hardStopOk then HardStopEngaged else HardStopCallFailed, r) in step.events
      && Log(if hardStopOk then HardStopCallFailed else HardStopEngaged, r) !in step.events
  {
    var r := SelectRobot(n, s.robot, msg);
    var selected := s.(robot := r, joy := msg);
    CallbackEffects(n, s, msg, hardStopOk, disableOk);
    CallbackParts(n, s, msg, hardStopOk, disableOk);
    assert HardStopOrArm(selected, msg, hardStopOk, disableOk).events[1] in
      Callback(n, s, msg, hardStopOk, disableOk).events;
  }

  /** Triangle with L1 and R1 on an e-stopped robot: exactly one disable
      call, to the addressed robot, and the robot is no longer e-stopped
      whatever the call returned. */
  lemma HardStopRelease(n: int, s: State, msg: Joy, hardStopOk: bool, disableOk: bool)
    requires Inv(s) && SnapshotOk(n, msg)
    requires ReleaseCombo(msg) && s.emergencyStop[SelectRobot(n, s.robot, msg)]
    ensures
      var r := SelectRobot(n, s.robot, msg);
      var step := Callback(n, s, msg, hardStopOk, disableOk);
      && !step.state.emergencyStop[r]
      && Effects(step.events) ==
           [CallDisable(r)]
           + (if msg.axes[SafetyAxis] > -0.8 && s.safetyTrigger[r] then ZeroStop(r) else [])
      && Log(if disableOk then HardStopDisabled else DisableCallFailed, r) in step.events
      && Log(if disableOk then DisableCallFailed else HardStopDisabled, r) !in step.events
  {
    var r := SelectRobot(n, s.robot, msg);
    var selected := s.(robot := r, joy := msg);
    CallbackEffects(n, s, msg, hardStopOk, disableOk);
    CallbackParts(n, s, msg, hardStopOk, disableOk);
    assert HardStopOrArm(selected, msg, hardStopOk, disableOk).events[1] in
      Callback(n, s, msg, hardStopOk, disableOk).events;
  }

  /** With neither hard-stop branch taken and the safety axis below -0.8,
      the trigger is armed and a command is pending, and nothing is sent. */
  lemma SafetyArm(n: int, s: State, msg: Joy, hardStopOk: bool, disableOk: bool)
    requires Inv(s) && SnapshotOk(n, msg)
    requires !(EngageCombo(msg) && !s.emergencyStop[SelectRobot(n, s.robot, msg)])
    requires !(ReleaseCombo(msg) && s.emergencyStop[SelectRobot(n, s.robot, msg)])
    requires msg.axes[SafetyAxis] < -0.8
    ensures
      var r := SelectRobot(n, s.robot, msg);
      var step := Callback(n, s, msg, hardStopOk, disableOk);
      && step.state.safetyTrigger[r] && step.state.joyUpdated[r]
      && Effects(step.events) == []
  {
    CallbackEffects(n, s, msg, hardStopOk, disableOk);
  }

  /** The falling edge of the safety trigger: the trigger is cleared and
      exactly one zero command goes to the addressed robot, between two
      settle delays. */
  lemma SafetyReleaseEdge(n: int, s: State, msg: Joy, hardStopOk: bool, disableOk: bool)
    requires Inv(s) && SnapshotOk(n, msg)
    requires s.safetyTrigger[SelectRobot(n, s.robot, msg)] && msg.axes[SafetyAxis] > -0.8
    ensures
      var r := SelectRobot(n, s.robot, msg);
      var step := Callback(n, s, msg, hardStopOk, disableOk);
      var effects := Effects(step.events);
      && !step.state.safetyTrigger[r]
      && |effects| >= 3 && effects[|effects| - 3..] == ZeroStop(r)
      && Publishes(step.events) == [Publish(r, 0.0, 0.0)]
      && Log(SafetyStop, r) in step.events
  {
    var r := SelectRobot(n, s.robot, msg);
    var selected := s.(robot := r, joy := msg);
    var chain := HardStopOrArm(selected, msg, hardStopOk, disableOk);
    CallbackParts(n, s, msg, hardStopOk, disableOk);
    ChainEffects(selected, msg, hardStopOk, disableOk);
    ReleaseEffects(chain.state, msg);
    CallbackFlags(n, s, msg, hardStopOk, disableOk);
  }

  /** After a snapshot with the safety axis above -0.8, a second such
      snapshot on the same robot finds the trigger cleared and publishes
      nothing. */
  lemma SafetyReleaseOnce(n: int, s: State, msg: Joy, msg2: Joy, ok1: bool, ok2: bool, ok3: bool, ok4: bool)
    requires Inv(s) && SnapshotOk(n, msg) && SnapshotOk(n, msg2)
    requires msg.axes[SafetyAxis] > -0.8 && msg2.axes[SafetyAxis] > -0.8
    requires
      var t := Callback(n, s, msg, ok1, ok2).state;
      SelectRobot(n, t.robot, msg2) == t.robot
    ensures
      var t := Callback(n, s, msg, ok1, ok2).state;
      Publishes(Callback(n, t, msg2, ok3, ok4).events) == []
  {
    var t := Callback(n, s, msg, ok1, ok2).state;
    CallbackFlags(n, s, msg, ok1, ok2);
    var selected := t.(joy := msg2);
    var chain := HardStopOrArm(selected, msg2, ok3, ok4);
    CallbackParts(n, t, msg2, ok3, ok4);
    ChainEffects(selected, msg2, ok3, ok4);
    ReleaseEffects(chain.state, msg2);
  }

  /** Switching robots leaves the previously addressed robot's safety
      trigger as it was, and a snapshot that switches sends that robot no
      command: releasing the trigger while switching away stops only the
      newly addressed robot. */
  lemma SwitchLeavesPreviousRobot(n: int, s: State, msg: Joy, hardStopOk: bool, disableOk: bool)
    requires Inv(s) && SnapshotOk(n, msg)
    requires SelectRobot(n, s.robot, msg) != s.robot
    ensures Callback(n, s, msg, hardStopOk, disableOk).state.safetyTrigger[s.robot] == s.safetyTrigger[s.robot]
    ensures forall e :: e in Publishes(Callback(n, s, msg, hardStopOk, disableOk).events) ==>
      e == Publish(SelectRobot(n, s.robot, msg), 0.0, 0.0)
  {
    var r := SelectRobot(n, s.robot, msg);
    var selected := s.(robot := r, joy := msg);
    var chain := HardStopOrArm(selected, msg, hardStopOk, disableOk);
    AddressedSlotOnly(n, s, msg, hardStopOk, disableOk, s.robot);
    CallbackParts(n, s, msg, hardStopOk, disableOk);
    ChainEffects(selected, msg, hardStopOk, disableOk);
    ReleaseEffects(chain.state, msg);
  }

  /** A snapshot never makes any robot move: the only command it can send
      is the zero command. */
  lemma CallbackNeverDrives(n: int, s: State, msg: Joy, hardStopOk: bool, disableOk: bool, r: nat)
    requires Inv(s) && SnapshotOk(n, msg)
    ensures forall e :: e in Callback(n, s, msg, hardStopOk, disableOk).events ==> !Drives(e, r)
  {
  }

  /** A tick publishes exactly when the addressed robot is not e-stopped, a
      snapshot is pending and the safety trigger is held; it then sends the
      quantized sticks to that robot and consumes the pending flag, and
      otherwise changes nothing. */
  lemma TickPublishes(s: State)
    requires Inv(s)
    ensures
      var r := s.robot;
      var ready := !s.emergencyStop[r] && s.joyUpdated[r] && s.safetyTrigger[r];
      && (Tick(s).events != [] <==> ready)
      && (ready ==>
            Tick(s).events == [Publish(r, SpeedStepControl(s.joy.axes[ForwardAxis] * MaxLinVel),
                                          SpeedStepControl(s.joy.axes[TurnAxis] * MaxAngVel))]
            && Tick(s).state == s.(joyUpdated := s.joyUpdated[r := false]))
      && (!ready ==> Tick(s).state == s)
  {
  }

  /** Two ticks with no snapshot between them publish at most once. */
  lemma TickTwice(s: State)
    requires Inv(s)
    ensures Tick(Tick(s).state) == Step(Tick(s).state, [])
    ensures |Tick(s).events| + |Tick(Tick(s).state).events| <= 1
  {
  }

  function Ticks(k: nat): (inputs: seq<Input>)
    ensures |inputs| == k && forall i :: 0 <= i < k ==> inputs[i] == Pass
  {
    if k == 0 then [] else [Pass] + Ticks(k - 1)
  }

  lemma {:induction false} QuietTicks(n: int, s: State, k: nat)
    requires Inv(s) && Tick(s) == Step(s, [])
    ensures Run(n, s, Ticks(k)) == Step(s, [])
    decreases k
  {
    if k > 0 {
      assert Ticks(k)[1..] == Ticks(k - 1);
      QuietTicks(n, s, k - 1);
    }
  }

  /** Any number of ticks with no snapshot between them do exactly what the
      first one does: a pending command is published at most once. */
  lemma {:induction false} TicksPublishAtMostOnce(n: int, s: State, k: nat)
    requires Inv(s) && k > 0
    ensures Run(n, s, Ticks(k)) == Tick(s)
  {
    var first := Tick(s);
    TickTwice(s);
    assert Ticks(k)[1..] == Ticks(k - 1);
    QuietTicks(n, first.state, k - 1);
    assert first.events + [] == first.events;
  }

  /** Along the run, no snapshot that addresses robot `r` (once selection
      has run) presses the release combination (triangle, L1 and R1). */
  predicate NeverReleased(n: int, s: State, inputs: seq<Input>, r: nat)
    requires Inv(s) && InputsOk(n, inputs)
    decreases |inputs|
  {
    inputs == []
    || (&& ((inputs[0].Snapshot? && SelectRobot(n, s.robot, inputs[0].msg) == r)
               ==> !ReleaseCombo(inputs[0].msg))
        && NeverReleased(n, Apply(n, s, inputs[0]).state, inputs[1..], r))
  }

  /** An e-stopped robot stays e-stopped, and no command that would move it
      is sent, along any interleaving of snapshots and ticks in which no
      snapshot addressed to it presses the release combination. */
  lemma {:induction false} StopIsLatched(n: int, s: State, inputs: seq<Input>, r: nat)
    requires Inv(s) && InputsOk(n, inputs) && NeverReleased(n, s, inputs, r)
    requires r < MaxRobots && s.emergencyStop[r]
    ensures Run(n, s, inputs).state.emergencyStop[r]
    ensures forall e :: e in Run(n, s, inputs).events ==> !Drives(e, r)
    decreases |inputs|
  {
    if inputs != [] {
      var first := Apply(n, s, inputs[0]);
      if inputs[0].Snapshot? {
        var Snapshot(msg, hardStopOk, disableOk) := inputs[0];
        CallbackFlags(n, s, msg, hardStopOk, disableOk);
        CallbackNeverDrives(n, s, msg, hardStopOk, disableOk, r);
        if r != SelectRobot(n, s.robot, msg) {
          AddressedSlotOnly(n, s, msg, hardStopOk, disableOk, r);
        }
      } else {
        TickPublishes(s);
      }
      assert first.state.emergencyStop[r];
      assert forall e :: e in first.events ==> !Drives(e, r);
      assert InputsOk(n, inputs[1..]) by {
        forall i | 0 <= i < |inputs[1..]| ensures inputs[1..][i] == inputs[i + 1] { }
      }
      StopIsLatched(n, first.state, inputs[1..], r);
    }
  }

  /** The outcomes of the two service calls change only the log lines: the
      state afterwards and the calls and commands sent do not depend on them. */
  lemma OutcomeOnlyLogged(n: int, s: State, msg: Joy, hardStopOk: bool, disableOk: bool,
                          hardStopOk': bool, disableOk': bool)
    requires Inv(s) && SnapshotOk(n, msg)
    ensures Callback(n, s, msg, hardStopOk, disableOk).state
         == Callback(n, s, msg, hardStopOk', disableOk').state
    ensures Effects(Callback(n, s, msg, hardStopOk, disableOk).events)
         == Effects(Callback(n, s, msg, hardStopOk', disableOk').events)
  {
    CallbackEffects(n, s, msg, hardStopOk, disableOk);
    CallbackEffects(n, s, msg, hardStopOk', disableOk');
  }

  /** Two robots, robot 0 addressed, no hard-stop button, the select axis
      neutral: holding the safety trigger with the forward stick at 0.5 and
      the turn stick at 0, then ticking, sends (0.1, 0.0) to robot 0. */
  lemma EndToEnd(msg: Joy, hardStopOk: bool, disableOk: bool)
    requires |msg.buttons| > Triangle && msg.buttons[Triangle] != 1
    requires |msg.axes| > SelectAxis && -0.8 <= msg.axes[SelectAxis] <= 0.8
    requires msg.axes[SafetyAxis] == -1.0 && msg.axes[ForwardAxis] == 0.5 && msg.axes[TurnAxis] == 0.0
    ensures SnapshotOk(2, msg)
    ensures Run(2, Initial(), [Snapshot(msg, hardStopOk, disableOk), Pass]).events == [Publish(0, 0.1, 0.0)]
  {
    CentiMultiplesAreFixed(10);
    CentiMultiplesAreFixed(0);
    assert SnapshotOk(2, msg);
    var inputs := [Snapshot(msg, hardStopOk, disableOk), Pass];
    var first := Callback(2, Initial(), msg, hardStopOk, disableOk);
    assert first.events == [];
    assert inputs[1..] == [Pass];
    assert Run(2, first.state, [Pass]).events == Tick(first.state).events + [] by {
      assert [Pass][1..] == [];
    }
  }

  /** The velocities a tick can send fit the 16-bit intermediate for every
      stick position in [-1, 1]. */
  lemma StickVelocitiesFit(a: real)
    requires -1.0 <= a <= 1.0
    ensures FitsInt16(a * MaxLinVel) && FitsInt16(a * MaxAngVel)
  {
    FitsInt16Range(a * MaxLinVel);
    FitsInt16Range(a * MaxAngVel);
  }
}
