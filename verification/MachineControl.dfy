/**
 Starting and stopping the two units of the machine
 (libs/MachineServiceComponent/src/MachineControl.cpp): each unit notifies that it runs or has
 stopped, which sets its flag and pushes a check event; the check, when it is processed, looks at
 both flags. The state table that routes events to actions is not fixed here.
 */
module MachineControls {
  import opened Arithmetic
  import opened EventQueues
  import opened Messages
  import opened StatedServiceComponents

  datatype Event =
    | SwitchOff
    | SwitchOn
    | SwitchOnSucceeded
    | Start
    | StartHeatless
    | MergerHeatedUp
    | StartingSucceeded
    | Stop
    | StoppingSucceeded
    | CheckStartingState
    | CheckStoppingState
    | ErrorOccurred

  datatype Unit = Merger | Coil

  /** A notification of a unit, or one of the three actions that touch or read the flags. */
  datatype Input =
    | Running(unit: Unit)
    | Stopped(unit: Unit)
    | StartMachine
    | CheckStarting
    | CheckStopping

  datatype Flags = Flags(merger: bool, coil: bool) {
    predicate Of(unit: Unit) {
      if unit == Merger then merger else coil
    }
  }

  function Set(flags: Flags, unit: Unit, value: bool): Flags {
    if unit == Merger then flags.(merger := value) else flags.(coil := value)
  }

  function After(flags: Flags, input: Input): Flags {
    match input
    case Running(u) => Set(flags, u, true)
    case Stopped(u) => Set(flags, u, false)
    case StartMachine => Flags(false, false)
    case CheckStarting | CheckStopping => flags
  }

  function FlagsAfter(inputs: seq<Input>): Flags
    decreases |inputs|
  {
    if inputs == [] then Flags(false, false) else After(FlagsAfter(inputs[..|inputs| - 1]), inputs[|inputs| - 1])
  }

  /** The success event that handling this input tries to push, if any. */
  function Attempts(flags: Flags, input: Input): seq<Event> {
    match input
    case CheckStarting => if flags.merger && flags.coil then [StartingSucceeded] else []
    case CheckStopping => if !flags.merger && !flags.coil then [StoppingSucceeded] else []
    case _ => []
  }

  // ---------------------------------------------------------------------------------------------
  // The barrier said about the history alone

  /** The unit notified Running since the last start of the machine, and has not notified Stopped after that. */
  ghost predicate UnitRuns(inputs: seq<Input>, unit: Unit) {
    exists i :: 0 <= i < |inputs| && inputs[i] == Running(unit) && Undisturbed(inputs, unit, i)
  }

  ghost predicate Undisturbed(inputs: seq<Input>, unit: Unit, since: int) {
    forall j :: since < j < |inputs| && j >= 0 ==> inputs[j] != Stopped(unit) && inputs[j] != StartMachine
  }

  lemma UnitRunsStep(inputs: seq<Input>, input: Input, unit: Unit)
    ensures UnitRuns(inputs + [input], unit) <==>
            input == Running(unit) || (input != Stopped(unit) && input != StartMachine && UnitRuns(inputs, unit))
  {
    var all := inputs + [input];
    if input == Running(unit) {
      assert all[|inputs|] == Running(unit) && Undisturbed(all, unit, |inputs|);
    } else if UnitRuns(all, unit) {
      var i :| 0 <= i < |all| && all[i] == Running(unit) && Undisturbed(all, unit, i);
      assert all[|inputs|] == input;
      assert inputs[i] == Running(unit);
      assert forall j :: i < j < |inputs| ==> inputs[j] == all[j];
      assert Undisturbed(inputs, unit, i);
    } else if UnitRuns(inputs, unit) {
      var i :| 0 <= i < |inputs| && inputs[i] == Running(unit) && Undisturbed(inputs, unit, i);
      assert all[i] == Running(unit);
      if input != Stopped(unit) && input != StartMachine {
        forall j | i < j < |all| ensures all[j] != Stopped(unit) && all[j] != StartMachine {
          if j < |inputs| { assert all[j] == inputs[j]; }
        }
        assert Undisturbed(all, unit, i);
      }
    }
  }

  /** In every run a unit's flag is exactly its history. */
  lemma {:induction false} FlagsAreTheHistory(inputs: seq<Input>, unit: Unit)
    ensures FlagsAfter(inputs).Of(unit) <==> UnitRuns(inputs, unit)
    decreases |inputs|
  {
    if inputs != [] {
      var before, last := inputs[..|inputs| - 1], inputs[|inputs| - 1];
      FlagsAreTheHistory(before, unit);
      assert inputs == before + [last];
      UnitRunsStep(before, last, unit);
    }
  }

  /** Main result: success is announced by a check exactly when the history justifies it, and by nothing else. */
  lemma SuccessIffJustified(inputs: seq<Input>, input: Input)
    ensures StartingSucceeded in Attempts(FlagsAfter(inputs), input) <==>
            input == CheckStarting && UnitRuns(inputs, Merger) && UnitRuns(inputs, Coil)
    ensures StoppingSucceeded in Attempts(FlagsAfter(inputs), input) <==>
            input == CheckStopping && !UnitRuns(inputs, Merger) && !UnitRuns(inputs, Coil)
  {
    FlagsAreTheHistory(inputs, Merger);
    FlagsAreTheHistory(inputs, Coil);
    assert FlagsAfter(inputs).Of(Merger) == FlagsAfter(inputs).merger;
    assert FlagsAfter(inputs).Of(Coil) == FlagsAfter(inputs).coil;
  }

  /**
   A check processed after both units have notified Running always attempts StartingSucceeded,
   unless a Stopped or a new start came in between.
   */
  lemma LaterCheckSucceeds(inputs: seq<Input>, i: nat, j: nat)
    requires i < |inputs| && j < |inputs|
    requires inputs[i] == Running(Merger) && inputs[j] == Running(Coil)
    requires Undisturbed(inputs, Merger, i) && Undisturbed(inputs, Coil, j)
    ensures Attempts(FlagsAfter(inputs), CheckStarting) == [StartingSucceeded]
  {
    FlagsAreTheHistory(inputs, Merger);
    FlagsAreTheHistory(inputs, Coil);
    assert FlagsAfter(inputs).Of(Merger) == FlagsAfter(inputs).merger;
    assert FlagsAfter(inputs).Of(Coil) == FlagsAfter(inputs).coil;
  }

  // ---------------------------------------------------------------------------------------------
  // Speed requests

  function Increased(speed: nat, increment: nat, max: nat): nat {
    Clamp(speed + increment, 0, max)
  }

  function Decreased(speed: nat, increment: nat, max: nat): nat {
    Clamp(speed - increment, 0, max)
  }

  /**
   One step up and one step down cancel exactly when the step up was not cut off, or lost nothing by
   it. A configured default speed above the maximum is never reached again.
   */
  lemma StepsCancelIff(speed: nat, increment: nat, max: nat)
    ensures Increased(speed, increment, max) <= max && Decreased(speed, increment, max) <= max
    ensures Decreased(Increased(speed, increment, max), increment, max) == speed <==>
            speed + increment <= max || (speed == 0 && max <= increment)
    ensures Increased(Decreased(speed, increment, max), increment, max) == speed <==>
            speed <= max && (increment <= speed || (speed == max && max <= increment))
  {
  }

  // ---------------------------------------------------------------------------------------------
  // The component

  class MachineControl {
    const eventQueue: EventQueue<Event>
    const motorSpeedDefault: nat
    var isFilamentMergerControlRunning: bool
    var isFilamentCoilControlRunning: bool
    var motorSpeed: nat
    ghost var inputs: seq<Input>

    ghost function CurrentFlags(): Flags
      reads this
    {
      Flags(isFilamentMergerControlRunning, isFilamentCoilControlRunning)
    }

    ghost predicate Valid()
      reads this, eventQueue
    {
      eventQueue.Valid() && CurrentFlags() == FlagsAfter(inputs)
    }

    constructor (eventQueue: EventQueue<Event>, motorSpeedDefault: nat)
      requires eventQueue.Valid()
      ensures Valid() && this.eventQueue == eventQueue && inputs == []
      ensures this.motorSpeedDefault == motorSpeedDefault && motorSpeed == motorSpeedDefault
    {
      this.eventQueue, this.motorSpeedDefault := eventQueue, motorSpeedDefault;
      isFilamentMergerControlRunning, isFilamentCoilControlRunning := false, false;
      motorSpeed, inputs := motorSpeedDefault, [];
    }

    /** `FeedingRunning` and `CoilRunning`. */
    method OnRunning(unit: Unit, notification: Message)
      requires Valid()
      modifies this, eventQueue
      ensures Valid() && inputs == old(inputs) + [Running(unit)]
      ensures UnitRuns(inputs, unit)
      ensures eventQueue.State() == Step(old(eventQueue.State()), eventQueue.maxSize, Push(CheckStartingState))
      ensures motorSpeed == old(motorSpeed)
    {
      Record(Running(unit));
      UnitRunsStep(old(inputs), Running(unit), unit);
      if unit == Merger {
        isFilamentMergerControlRunning := true;
      } else {
        isFilamentCoilControlRunning := true;
      }
      var _ := HandleEventMessage(eventQueue, notification, CheckStartingState);
    }

    /** `FeedingStopped` and `CoilStopped`. */
    method OnStopped(unit: Unit, notification: Message)
      requires Valid()
      modifies this, eventQueue
      ensures Valid() && inputs == old(inputs) + [Stopped(unit)]
      ensures !UnitRuns(inputs, unit)
      ensures eventQueue.State() == Step(old(eventQueue.State()), eventQueue.maxSize, Push(CheckStoppingState))
      ensures motorSpeed == old(motorSpeed)
    {
      Record(Stopped(unit));
      UnitRunsStep(old(inputs), Stopped(unit), unit);
      if unit == Merger {
        isFilamentMergerControlRunning := false;
      } else {
        isFilamentCoilControlRunning := false;
      }
      var _ := HandleEventMessage(eventQueue, notification, CheckStoppingState);
    }

    /** Action `startMachine`; `sent` says for each of its four requests in turn whether it succeeds. */
    method StartMachineAction(event: Event, sent: seq<bool>)
      requires Valid() && |sent| == 4
      modifies this, eventQueue
      ensures Valid() && inputs == old(inputs) + [StartMachine]
      ensures !UnitRuns(inputs, Merger) && !UnitRuns(inputs, Coil)
      ensures motorSpeed == if event == StartHeatless then 0 else motorSpeedDefault
      ensures eventQueue.State() ==
              if false in sent then Step(old(eventQueue.State()), eventQueue.maxSize, Push(ErrorOccurred))
              else old(eventQueue.State())
    {
      Record(StartMachine);
      UnitRunsStep(old(inputs), StartMachine, Merger);
      UnitRunsStep(old(inputs), StartMachine, Coil);
      isFilamentMergerControlRunning := false;
      isFilamentCoilControlRunning := false;
      motorSpeed := if event == StartHeatless then 0 else motorSpeedDefault;
      for i := 0 to 4
        invariant Valid() && inputs == old(inputs) + [StartMachine]
        invariant motorSpeed == if event == StartHeatless then 0 else motorSpeedDefault
        invariant eventQueue.State() == old(eventQueue.State())
        invariant forall k :: 0 <= k < i ==> sent[k]
      {
        if !sent[i] {
          var _ := eventQueue.Push(ErrorOccurred);
          return;
        }
      }
    }

    method CheckStartingStateAction()
      requires Valid()
      modifies this, eventQueue
      ensures Valid() && inputs == old(inputs) + [CheckStarting]
      ensures eventQueue.State() ==
              if UnitRuns(old(inputs), Merger) && UnitRuns(old(inputs), Coil)
              then Step(old(eventQueue.State()), eventQueue.maxSize, Push(StartingSucceeded))
              else old(eventQueue.State())
      ensures motorSpeed == old(motorSpeed)
    {
      SuccessIffJustified(inputs, CheckStarting);
      Record(CheckStarting);
      if isFilamentMergerControlRunning && isFilamentCoilControlRunning {
        var _ := eventQueue.Push(StartingSucceeded);
      }
    }

    method CheckStoppingStateAction()
      requires Valid()
      modifies this, eventQueue
      ensures Valid() && inputs == old(inputs) + [CheckStopping]
      ensures eventQueue.State() ==
              if !UnitRuns(old(inputs), Merger) && !UnitRuns(old(inputs), Coil)
              then Step(old(eventQueue.State()), eventQueue.maxSize, Push(StoppingSucceeded))
              else old(eventQueue.State())
      ensures motorSpeed == old(motorSpeed)
    {
      SuccessIffJustified(inputs, CheckStopping);
      Record(CheckStopping);
      if !isFilamentMergerControlRunning && !isFilamentCoilControlRunning {
        var _ := eventQueue.Push(StoppingSucceeded);
      }
    }

    ghost method Record(input: Input)
      modifies this`inputs
      ensures inputs == old(inputs) + [input]
      ensures FlagsAfter(inputs) == After(FlagsAfter(old(inputs)), input)
    {
      assert (inputs + [input])[..|inputs|] == inputs;
      inputs := inputs + [input];
    }
  }
}
