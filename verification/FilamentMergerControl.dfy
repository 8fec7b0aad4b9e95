/**
 The join of two heaters in the merger control
 (libs/MachineServiceComponent/src/FilamentMergerControl.cpp): each heater notifies that its target
 temperature is reached, and the notification that completes the pair requests HeatingUpSucceeded.
 Switching on and starting to heat reset the pair.
 */
module FilamentMergerControls {
  import opened EventQueues
  import opened Messages
  import opened StatedServiceComponents

  datatype Event =
    | SwitchOff
    | SwitchOn
    | SwitchOnSucceeded
    | StartHeating
    | HeatingUpSucceeded
    | StartMotor
    | StartMotorSucceeded
    | StopMotorSucceeded
    | Stop
    | ErrorOccurred

  /** What concerns the join: a heater's notification, or one of the two actions that reset it. */
  datatype Input = PreHeaterReached | MergerHeaterReached | Restart

  datatype Flags = Flags(pre: bool, merger: bool)

  function After(flags: Flags, input: Input): Flags {
    match input
    case PreHeaterReached => flags.(pre := true)
    case MergerHeaterReached => flags.(merger := true)
    case Restart => Flags(false, false)
  }

  /** Whether handling this input requests HeatingUpSucceeded: its own flag rises and both are then set. */
  predicate Requests(flags: Flags, input: Input) {
    match input
    case PreHeaterReached => !flags.pre && flags.merger
    case MergerHeaterReached => !flags.merger && flags.pre
    case Restart => false
  }

  function FlagsAfter(inputs: seq<Input>): Flags
    decreases |inputs|
  {
    if inputs == [] then Flags(false, false) else After(FlagsAfter(inputs[..|inputs| - 1]), inputs[|inputs| - 1])
  }

  /** The requests made since the last restart. */
  function RequestCount(inputs: seq<Input>): nat
    decreases |inputs|
  {
    if inputs == [] || inputs[|inputs| - 1] == Restart then 0
    else
      var before, last := inputs[..|inputs| - 1], inputs[|inputs| - 1];
      RequestCount(before) + if Requests(FlagsAfter(before), last) then 1 else 0
  }

  // ---------------------------------------------------------------------------------------------
  // The join said about the history alone

  ghost predicate SinceRestart(inputs: seq<Input>, kind: Input) {
    exists i :: 0 <= i < |inputs| && inputs[i] == kind && forall j :: i < j < |inputs| ==> inputs[j] != Restart
  }

  ghost predicate BothSinceRestart(inputs: seq<Input>) {
    SinceRestart(inputs, PreHeaterReached) && SinceRestart(inputs, MergerHeaterReached)
  }

  lemma SinceRestartStep(inputs: seq<Input>, input: Input, kind: Input)
    requires kind != Restart
    ensures SinceRestart(inputs + [input], kind) <==>
            input == kind || (input != Restart && SinceRestart(inputs, kind))
  {
    var all := inputs + [input];
    if input == kind {
      assert all[|inputs|] == kind;
    } else if SinceRestart(all, kind) {
      var i :| 0 <= i < |all| && all[i] == kind && forall j :: i < j < |all| ==> all[j] != Restart;
      assert all[|inputs|] != Restart;
      assert inputs[i] == kind;
      assert forall j :: i < j < |inputs| ==> inputs[j] == all[j];
    } else if SinceRestart(inputs, kind) {
      var i :| 0 <= i < |inputs| && inputs[i] == kind && forall j :: i < j < |inputs| ==> inputs[j] != Restart;
      assert all[i] == kind;
      assert forall j :: i < j < |inputs| ==> inputs[j] == all[j];
    }
  }

  /** A flag is set iff its heater has notified since the last restart. */
  lemma {:induction false} FlagsAreTheHistory(inputs: seq<Input>)
    ensures FlagsAfter(inputs).pre <==> SinceRestart(inputs, PreHeaterReached)
    ensures FlagsAfter(inputs).merger <==> SinceRestart(inputs, MergerHeaterReached)
    decreases |inputs|
  {
    if inputs != [] {
      var before, last := inputs[..|inputs| - 1], inputs[|inputs| - 1];
      FlagsAreTheHistory(before);
      assert inputs == before + [last];
      SinceRestartStep(before, last, PreHeaterReached);
      SinceRestartStep(before, last, MergerHeaterReached);
    }
  }

  /** A request is made exactly by the notification that completes the pair. */
  lemma RequestIffPairCompleted(inputs: seq<Input>, input: Input)
    ensures Requests(FlagsAfter(inputs), input) <==>
            BothSinceRestart(inputs + [input]) && !BothSinceRestart(inputs)
  {
    FlagsAreTheHistory(inputs);
    SinceRestartStep(inputs, input, PreHeaterReached);
    SinceRestartStep(inputs, input, MergerHeaterReached);
  }

  /** Main result: exactly one request between restarts once both have notified, and none otherwise. */
  lemma {:induction false} ExactlyOnce(inputs: seq<Input>)
    ensures RequestCount(inputs) == if BothSinceRestart(inputs) then 1 else 0
    decreases |inputs|
  {
    if inputs != [] {
      var before, last := inputs[..|inputs| - 1], inputs[|inputs| - 1];
      ExactlyOnce(before);
      assert inputs == before + [last];
      RequestIffPairCompleted(before, last);
      SinceRestartStep(before, last, PreHeaterReached);
      SinceRestartStep(before, last, MergerHeaterReached);
    }
  }

  /** The request is made on the rising edge only, so one the queue refuses is not made again before a restart. */
  lemma RefusedRequestIsNotRepeated(inputs: seq<Input>, later: seq<Input>, input: Input)
    requires BothSinceRestart(inputs) && Restart !in later
    ensures !Requests(FlagsAfter(inputs + later), input)
    decreases |later|
  {
    BothStay(inputs, later);
    RequestIffPairCompleted(inputs + later, input);
  }

  lemma {:induction false} BothStay(inputs: seq<Input>, later: seq<Input>)
    requires BothSinceRestart(inputs) && Restart !in later
    ensures BothSinceRestart(inputs + later)
    decreases |later|
  {
    if later == [] {
      assert inputs + later == inputs;
    } else {
      var before, last := later[..|later| - 1], later[|later| - 1];
      assert last in later && forall x :: x in before ==> x in later;
      BothStay(inputs, before);
      assert inputs + later == (inputs + before) + [last];
      SinceRestartStep(inputs + before, last, PreHeaterReached);
      SinceRestartStep(inputs + before, last, MergerHeaterReached);
    }
  }

  // ---------------------------------------------------------------------------------------------
  // The component

  class FilamentMergerControl {
    const eventQueue: EventQueue<Event>
    var isMergerHeaterTemperatureReached: bool
    var isPreHeaterTemperatureReached: bool
    ghost var inputs: seq<Input>

    ghost predicate Valid()
      reads this, eventQueue
    {
      && eventQueue.Valid()
      && Flags(isPreHeaterTemperatureReached, isMergerHeaterTemperatureReached) == FlagsAfter(inputs)
    }

    constructor (eventQueue: EventQueue<Event>)
      requires eventQueue.Valid()
      ensures Valid() && this.eventQueue == eventQueue && inputs == []
    {
      this.eventQueue := eventQueue;
      isMergerHeaterTemperatureReached, isPreHeaterTemperatureReached := false, false;
      inputs := [];
    }

    method OnPreHeaterTargetTemperatureRangeReached(request: Message)
      requires Valid()
      modifies this, eventQueue
      ensures Valid() && inputs == old(inputs) + [PreHeaterReached]
      ensures eventQueue.State() ==
              if BothSinceRestart(inputs) && !BothSinceRestart(old(inputs))
              then Step(old(eventQueue.State()), eventQueue.maxSize, Push(HeatingUpSucceeded))
              else old(eventQueue.State())
    {
      Record(PreHeaterReached);
      var stateChange := !isPreHeaterTemperatureReached;
      isPreHeaterTemperatureReached := true;
      if stateChange && isMergerHeaterTemperatureReached && isPreHeaterTemperatureReached {
        var _ := HandleEventMessage(eventQueue, request, HeatingUpSucceeded);
      }
    }

    method OnMergerHeaterTargetTemperatureRangeReached(request: Message)
      requires Valid()
      modifies this, eventQueue
      ensures Valid() && inputs == old(inputs) + [MergerHeaterReached]
      ensures eventQueue.State() ==
              if BothSinceRestart(inputs) && !BothSinceRestart(old(inputs))
              then Step(old(eventQueue.State()), eventQueue.maxSize, Push(HeatingUpSucceeded))
              else old(eventQueue.State())
    {
      Record(MergerHeaterReached);
      var stateChange := !isMergerHeaterTemperatureReached;
      isMergerHeaterTemperatureReached := true;
      if stateChange && isMergerHeaterTemperatureReached && isPreHeaterTemperatureReached {
        var _ := HandleEventMessage(eventQueue, request, HeatingUpSucceeded);
      }
    }

    /** Transition action `switchOn`; `sent`: the feeder motor could be switched on. */
    method SwitchOnAction(sent: bool)
      requires Valid()
      modifies this, eventQueue
      ensures Valid() && inputs == old(inputs) + [Restart]
      ensures eventQueue.State() ==
              Step(old(eventQueue.State()), eventQueue.maxSize, Push(if sent then SwitchOnSucceeded else ErrorOccurred))
    {
      Record(Restart);
      isMergerHeaterTemperatureReached, isPreHeaterTemperatureReached := false, false;
      if !sent {
        var _ := eventQueue.Push(ErrorOccurred);
      } else {
        var _ := eventQueue.Push(SwitchOnSucceeded);
      }
    }

    /** Transition action `heatingUp`; each heater that cannot be switched on pushes an error. */
    method HeatingUpAction(preSent: bool, mergerSent: bool)
      requires Valid()
      modifies this, eventQueue
      ensures Valid() && inputs == old(inputs) + [Restart]
      ensures preSent && mergerSent ==> eventQueue.State() == old(eventQueue.State())
      ensures preSent != mergerSent ==>
                eventQueue.State() == Step(old(eventQueue.State()), eventQueue.maxSize, Push(ErrorOccurred))
      ensures !preSent && !mergerSent ==>
                eventQueue.State() ==
                Run(old(eventQueue.State()), eventQueue.maxSize, [Push(ErrorOccurred), Push(ErrorOccurred)])
    {
      Record(Restart);
      isMergerHeaterTemperatureReached, isPreHeaterTemperatureReached := false, false;
      if !preSent {
        var _ := eventQueue.Push(ErrorOccurred);
      }
      if !mergerSent {
        var _ := eventQueue.Push(ErrorOccurred);
      }
      ghost var error: Op<Event> := Push(ErrorOccurred);
      assert [error, error][..1] == [error] && [error][..0] == [];
    }

    ghost method Record(input: Input)
      modifies this`inputs
      ensures inputs == old(inputs) + [input]
      ensures FlagsAfter(inputs) == After(FlagsAfter(old(inputs)), input)
      ensures Requests(FlagsAfter(old(inputs)), input) <==>
              BothSinceRestart(inputs) && !BothSinceRestart(old(inputs))
    {
      RequestIffPairCompleted(inputs, input);
      assert (inputs + [input])[..|inputs|] == inputs;
      inputs := inputs + [input];
    }
  }
}
