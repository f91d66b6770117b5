/** The node's static state and its three handlers, in the imperative
    form of the source: three per-robot flag arrays updated in place, the
    addressed robot and the last snapshot. Each method is proved to do
    exactly what the matching function of `StateMachine` describes. */
module Node {
  import opened Quantizer
  import opened StateMachine

  class Ds4Controller {
    /** `number_of_robots`, read once at start-up. */
    const numberOfRobots: int
    /** `robot_number`: the addressed robot. */
    var robotNumber: nat
    /** `joy`: the last snapshot received. */
    var joy: Joy
    const isJoyUpdated: array<bool>
    const isEmergencyStop: array<bool>
    const isSafetyTrigger: array<bool>

    /** The abstract state the handlers are specified on. */
    ghost function Model(): State
      reads this, isJoyUpdated, isEmergencyStop, isSafetyTrigger
    {
      State(robotNumber, isJoyUpdated[..], isEmergencyStop[..], isSafetyTrigger[..], joy)
    }

    ghost predicate Valid()
      reads this, isJoyUpdated, isEmergencyStop, isSafetyTrigger
    {
      isJoyUpdated != isEmergencyStop && isJoyUpdated != isSafetyTrigger
      && isEmergencyStop != isSafetyTrigger
      && Inv(Model())
    }

    /** Start-up: the static arrays are zero-initialised; `main` never calls
        `init`, which would give the same state. */
    constructor (numberOfRobots: int)
      ensures Valid() && Model() == Initial()
      ensures this.numberOfRobots == numberOfRobots
      ensures fresh(isJoyUpdated) && fresh(isEmergencyStop) && fresh(isSafetyTrigger)
    {
      this.numberOfRobots := numberOfRobots;
      robotNumber := 0;
      joy := Joy([], []);
      isJoyUpdated := new bool[MaxRobots](_ => false);
      isEmergencyStop := new bool[MaxRobots](_ => false);
      isSafetyTrigger := new bool[MaxRobots](_ => false);
      new;
      assert isJoyUpdated[..] == [false, false];
      assert isEmergencyStop[..] == [false, false];
      assert isSafetyTrigger[..] == [false, false];
    }

    /** `init`: clear every flag of every robot (the state `Initial` has). */
    method Init()
      requires isJoyUpdated.Length == MaxRobots && isEmergencyStop.Length == MaxRobots
      requires isSafetyTrigger.Length == MaxRobots
      modifies isJoyUpdated, isEmergencyStop, isSafetyTrigger
      ensures forall i :: 0 <= i < MaxRobots ==>
        !isJoyUpdated[i] && !isEmergencyStop[i] && !isSafetyTrigger[i]
    {
      for i := 0 to MaxRobots
        invariant forall j :: 0 <= j < i ==>
          !isJoyUpdated[j] && !isEmergencyStop[j] && !isSafetyTrigger[j]
      {
        isJoyUpdated[i] := false;
        isEmergencyStop[i] := false;
        isSafetyTrigger[i] := false;
      }
    }

    /** `joyCallback`, with the outcomes of the two service calls as inputs. */
    method JoyCallback(msg: Joy, hardStopOk: bool, disableOk: bool) returns (out: seq<Event>)
      requires Valid() && SnapshotOk(numberOfRobots, msg)
      modifies this, isJoyUpdated, isEmergencyStop, isSafetyTrigger
      ensures Valid()
      ensures Model() == Callback(numberOfRobots, old(Model()), msg, hardStopOk, disableOk).state
      ensures out == Callback(numberOfRobots, old(Model()), msg, hardStopOk, disableOk).events
    {
      ghost var s0 := Model();
      ghost var r0 := SelectRobot(numberOfRobots, s0.robot, msg);
      ghost var selected := s0.(robot := r0, joy := msg);

      out := [];
      joy := msg;

      if numberOfRobots > 1 {
        if msg.axes[SelectAxis] > 0.8 && robotNumber != 0 {
          robotNumber := 0;
          out := out + [Log(Switched, 0)];
        } else if msg.axes[SelectAxis] < -0.8 && robotNumber != 1 {
          robotNumber := 1;
          out := out + [Log(Switched, 1)];
        }
      }
      assert Model() == selected;
      var chainEvents := HardStopOrArmStep(hardStopOk, disableOk);
      out := out + chainEvents;
      var releaseEvents := SafetyReleaseStep();
      out := out + releaseEvents;
    }

    /** The `if / else if / else if` chain of `joyCallback` on the addressed robot. */
    method HardStopOrArmStep(hardStopOk: bool, disableOk: bool) returns (out: seq<Event>)
      requires Valid() && VelocitiesFit(joy) && ButtonsReadable(joy) && |joy.axes| > SafetyAxis
      modifies isJoyUpdated, isEmergencyStop, isSafetyTrigger
      ensures Valid()
      ensures Model() == HardStopOrArm(old(Model()), joy, hardStopOk, disableOk).state
      ensures out == HardStopOrArm(old(Model()), joy, hardStopOk, disableOk).events
    {
      out := [];
      var r := robotNumber;
      if joy.buttons[Triangle] == 1 && joy.buttons[L1] == 0 && joy.buttons[R1] == 0
        && !isEmergencyStop[r]
      {
        out := out + [CallHardStop(r)];
        if hardStopOk {
          out := out + [Log(HardStopEngaged, r)];
        } else {
          out := out + [Log(HardStopCallFailed, r)];
        }
        isEmergencyStop[r] := true;
      } else if joy.buttons[Triangle] == 1 && joy.buttons[L1] == 1 && joy.buttons[R1] == 1
        && isEmergencyStop[r]
      {
        isEmergencyStop[r] := false;
        out := out + [CallDisable(r)];
        if disableOk {
          out := out + [Log(HardStopDisabled, r)];
        } else {
          out := out + [Log(DisableCallFailed, r)];
        }
      } else if joy.axes[SafetyAxis] < -0.8 {
        isSafetyTrigger[r] := true;
        isJoyUpdated[r] := true;
      }
    }

    /** The separate safety-release check of `joyCallback`. */
    method SafetyReleaseStep() returns (out: seq<Event>)
      requires Valid() && |joy.axes| > SafetyAxis
      modifies isSafetyTrigger
      ensures Valid()
      ensures Model() == SafetyRelease(old(Model()), joy).state
      ensures out == SafetyRelease(old(Model()), joy).events
    {
      out := [];
      var r := robotNumber;
      if joy.axes[SafetyAxis] > -0.8 && isSafetyTrigger[r] {
        isSafetyTrigger[r] := false;
        out := [Log(SafetyStop, r), Delay(SettleDelay), Publish(r, 0.0, 0.0), Delay(SettleDelay)];
      }
    }

    /** `move`. */
    method Move() returns (out: seq<Event>)
      requires Valid()
      modifies isJoyUpdated
      ensures Valid()
      ensures Model() == StateMachine.Move(old(Model())).state
      ensures out == StateMachine.Move(old(Model())).events
    {
      out := [];
      var r := robotNumber;
      if isJoyUpdated[r] && isSafetyTrigger[r] {
        var linear := SpeedStepControl(joy.axes[ForwardAxis] * MaxLinVel);
        var angular := SpeedStepControl(joy.axes[TurnAxis] * MaxAngVel);
        out := [Publish(r, linear, angular)];
        isJoyUpdated[r] := false;
      }
    }

    /** One pass of the main loop: the emergency-stop gate around `move`. */
    method Tick() returns (out: seq<Event>)
      requires Valid()
      modifies isJoyUpdated
      ensures Valid()
      ensures Model() == StateMachine.Tick(old(Model())).state
      ensures out == StateMachine.Tick(old(Model())).events
    {
      out := [];
      if !isEmergencyStop[robotNumber] {
        out := Move();
      }
    }
  }
}
