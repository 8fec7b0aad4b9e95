/**
 Whole runs of the machine control: its event queue, its flags and its state table together
 (libs/MachineServiceComponent/src/MachineControl.cpp,
 libs/ServiceComponent/include/ServiceComponent/StateMachine.hpp and
 libs/MachineServiceComponent/conf/MachineServiceComponent.yaml).

 Unlike the machine of `StateMachines`, this one keeps the flags that notifications and actions work
 on. The first part holds for every table; the second part is about the shipped one.
 */
module MachineControlRuns {
  import opened Options
  import opened EventQueues
  import opened MachineControls

  /** The actions that concern the barrier; the others only send requests and push other events. */
  datatype Action = StartMachineAction | CheckStartingAction | CheckStoppingAction | OtherAction

  datatype Entry<+S> = Entry(next: S, action: Option<Action>)

  type Table<!S> = (S, Event) -> Option<Entry<S>>

  datatype Machine<+S> = Machine(state: S, queue: QueueState<Event>, flags: Flags, inputs: seq<Input>)

  /** A unit notifies; a request or another component pushes; the loop processes an event. */
  datatype Step = Notify(input: Input) | PushFrom(event: Event) | Process(reaction: seq<Event>) | ResetQueue

  /** Success events are pushed by the two checks only, see all pushes of the source. */
  predicate Foreign(event: Event) {
    event != StartingSucceeded && event != StoppingSucceeded
  }

  predicate LegalStep(step: Step) {
    match step
    case Notify(input) => input.Running? || input.Stopped?
    case PushFrom(event) => Foreign(event)
    case Process(reaction) => forall e :: e in reaction ==> Foreign(e)
    case ResetQueue => true
  }

  /** Handling an input of the barrier: the flags change, or a check looks at them. */
  function Handle<S>(m: Machine<S>, input: Input): Machine<S> {
    Machine(m.state, Pushed(m.queue, Attempts(m.flags, input)), After(m.flags, input), m.inputs + [input])
  }

  function InputOf(action: Action): Option<Input> {
    match action
    case StartMachineAction => Some(StartMachine)
    case CheckStartingAction => Some(CheckStarting)
    case CheckStoppingAction => Some(CheckStopping)
    case OtherAction => None
  }

  function ActionAt<S>(table: Table<S>, m: Machine<S>): Option<Action> {
    if m.queue.queue == [] then None
    else
      match table(m.state, m.queue.queue[0])
      case None => None
      case Some(entry) => entry.action
  }

  function Next<S>(table: Table<S>, m: Machine<S>, step: Step): Machine<S> {
    match step
    case Notify(input) =>
      var handled := Handle(m, input);
      handled.(queue := Pushed(handled.queue, [if input.Running? then CheckStartingState else CheckStoppingState]))
    case PushFrom(event) => m.(queue := Pushed(m.queue, [event]))
    case ResetQueue => m.(queue := EventQueues.Step(m.queue, DEFAULT_QUEUE_SIZE, Op.Reset))
    case Process(reaction) =>
      if m.queue.queue == [] then m
      else
        var popped := m.(queue := Popped(m.queue));
        match table(m.state, m.queue.queue[0])
        case None => popped
        case Some(entry) =>
          var moved := popped.(state := entry.next);
          if entry.action.None? then moved
          else
            match InputOf(entry.action.value)
            case Some(StartMachine) =>
              var started := Handle(moved, StartMachine);
              started.(queue := Pushed(started.queue, reaction)) // an error, if a request fails
            case Some(check) => Handle(moved, check)
            case None => moved.(queue := Pushed(moved.queue, reaction))
  }

  function RunAll<S>(table: Table<S>, m: Machine<S>, steps: seq<Step>): Machine<S>
    decreases |steps|
  {
    if steps == [] then m else Next(table, RunAll(table, m, steps[..|steps| - 1]), steps[|steps| - 1])
  }

  function Initially<S>(start: S): Machine<S> {
    Machine(start, EmptyQueue(), Flags(false, false), [])
  }

  /** A notification changes its flag and pushes its check; others push their event, and a reset empties the queue. */
  lemma OutcomeFromOutside<S>(table: Table<S>, m: Machine<S>, step: Step)
    requires LegalStep(step) && !step.Process? && |m.queue.queue| < DEFAULT_QUEUE_SIZE
    ensures var m' := Next(table, m, step);
            && m'.state == m.state
            && match step
               case Notify(Running(unit)) =>
                 && m'.inputs == m.inputs + [Running(unit)] && m'.flags == Set(m.flags, unit, true)
                 && m'.queue.queue == Behind(m.queue.queue, [CheckStartingState])
               case Notify(Stopped(unit)) =>
                 && m'.inputs == m.inputs + [Stopped(unit)] && m'.flags == Set(m.flags, unit, false)
                 && m'.queue.queue == Behind(m.queue.queue, [CheckStoppingState])
               case PushFrom(event) =>
                 m'.inputs == m.inputs && m'.flags == m.flags && m'.queue.queue == Behind(m.queue.queue, [event])
               case _ => m'.inputs == m.inputs && m'.flags == m.flags && m'.queue.queue == []
  {
    match step
    case Notify(input) =>
      PushedNothing(m.queue);
      PushedBehind(m.queue, [if input.Running? then CheckStartingState else CheckStoppingState]);
    case PushFrom(event) => PushedBehind(m.queue, [event]);
    case ResetQueue =>
  }

  /**
   The oldest event is taken in any case. With a transition the state changes; a start forgets the flags,
   a check pushes its success if the flags allow it, and the other actions push what they push.
   */
  lemma OutcomeOfProcessing<S>(table: Table<S>, m: Machine<S>, reaction: seq<Event>)
    requires 0 < |m.queue.queue| < DEFAULT_QUEUE_SIZE
    ensures var m', waiting := Next(table, m, Process(reaction)), m.queue.queue[1..];
            match table(m.state, m.queue.queue[0])
            case None => m' == m.(queue := m'.queue) && m'.queue.queue == waiting
            case Some(entry) =>
              && m'.state == entry.next
              && (entry.action.None? ==> m'.flags == m.flags && m'.inputs == m.inputs && m'.queue.queue == waiting)
              && (entry.action == Some(OtherAction) ==>
                    m'.flags == m.flags && m'.inputs == m.inputs && m'.queue.queue == Behind(waiting, reaction))
              && (entry.action == Some(StartMachineAction) ==>
                    && m'.flags == Flags(false, false) && m'.inputs == m.inputs + [StartMachine]
                    && m'.queue.queue == Behind(waiting, reaction))
              && (entry.action == Some(CheckStartingAction) ==>
                    && m'.flags == m.flags && m'.inputs == m.inputs + [CheckStarting]
                    && m'.queue.queue ==
                       Behind(waiting, if m.flags.merger && m.flags.coil then [StartingSucceeded] else []))
              && (entry.action == Some(CheckStoppingAction) ==>
                    && m'.flags == m.flags && m'.inputs == m.inputs + [CheckStopping]
                    && m'.queue.queue ==
                       Behind(waiting, if !m.flags.merger && !m.flags.coil then [StoppingSucceeded] else []))
  {
    var popped := Popped(m.queue);
    PushedBehind(popped, []);
    PushedBehind(popped, reaction);
    PushedBehind(popped, [StartingSucceeded]);
    PushedBehind(popped, [StoppingSucceeded]);
    PushedNothing(popped);
  }

  // ---------------------------------------------------------------------------------------------
  // Any table: flags, and what a success event in the queue means

  ghost predicate FlagsFollow<S>(m: Machine<S>) {
    m.flags == FlagsAfter(m.inputs)
  }

  /** The input that a step handles, if any. */
  function HandledBy<S>(table: Table<S>, m: Machine<S>, step: Step): Option<Input> {
    match step
    case Notify(input) => Some(input)
    case Process(_) => if ActionAt(table, m).Some? then InputOf(ActionAt(table, m).value) else None
    case _ => None
  }

  lemma InputsOfStep<S>(table: Table<S>, m: Machine<S>, step: Step)
    ensures match HandledBy(table, m, step)
            case None => Next(table, m, step).flags == m.flags && Next(table, m, step).inputs == m.inputs
            case Some(input) =>
              && Next(table, m, step).flags == After(m.flags, input)
              && Next(table, m, step).inputs == m.inputs + [input]
  {
  }

  lemma FlagsFollowStep<S>(table: Table<S>, m: Machine<S>, step: Step)
    requires FlagsFollow(m)
    ensures FlagsFollow(Next(table, m, step))
  {
    InputsOfStep(table, m, step);
    if input :| HandledBy(table, m, step) == Some(input) {
      assert (m.inputs + [input])[..|m.inputs|] == m.inputs;
    }
  }

  /** In every run, whatever is lost to a full queue, the flags are those of the inputs handled so far. */
  lemma {:induction false} FlagsFollowAll<S>(table: Table<S>, start: S, steps: seq<Step>)
    ensures FlagsFollow(RunAll(table, Initially(start), steps))
    decreases |steps|
  {
    if steps != [] {
      FlagsFollowAll(table, start, steps[..|steps| - 1]);
      FlagsFollowStep(table, RunAll(table, Initially(start), steps[..|steps| - 1]), steps[|steps| - 1]);
    }
  }

  /** At some moment since the last start of the machine, both units were running. */
  ghost predicate BothRanSinceStart(inputs: seq<Input>) {
    exists n :: 0 <= n <= |inputs| && BothRunAt(inputs, n)
  }

  ghost predicate BothRunAt(inputs: seq<Input>, n: nat)
    requires n <= |inputs|
  {
    && StartMachine !in inputs[n..]
    && UnitRuns(inputs[..n], Merger) && UnitRuns(inputs[..n], Coil)
  }

  lemma LaterInputKeepsBothRan(inputs: seq<Input>, input: Input)
    requires input != StartMachine && BothRanSinceStart(inputs)
    ensures BothRanSinceStart(inputs + [input])
  {
    var n :| 0 <= n <= |inputs| && BothRunAt(inputs, n);
    assert (inputs + [input])[..n] == inputs[..n];
    assert (inputs + [input])[n..] == inputs[n..] + [input];
    assert BothRunAt(inputs + [input], n);
  }

  lemma StartForgets(inputs: seq<Input>)
    ensures !BothRanSinceStart(inputs + [StartMachine])
  {
    forall n | 0 <= n <= |inputs| + 1 ensures !BothRunAt(inputs + [StartMachine], n) {
      StartForgetsAt(inputs, n);
    }
  }

  lemma StartForgetsAt(inputs: seq<Input>, n: nat)
    requires n <= |inputs| + 1
    ensures !BothRunAt(inputs + [StartMachine], n)
  {
    var all := inputs + [StartMachine];
    UnitRunsStep(inputs, StartMachine, Merger);
    assert all[..|inputs| + 1] == all;
    if n <= |inputs| {
      assert all[n..] == inputs[n..] + [StartMachine];
    }
  }

  /** A check does not make the units run. */
  lemma CheckRemembersNothing(inputs: seq<Input>, check: Input)
    requires check == CheckStarting || check == CheckStopping
    requires !BothRanSinceStart(inputs) && !(UnitRuns(inputs, Merger) && UnitRuns(inputs, Coil))
    ensures !BothRanSinceStart(inputs + [check])
  {
    forall n | 0 <= n <= |inputs| + 1 ensures !BothRunAt(inputs + [check], n) {
      CheckRemembersNothingAt(inputs, check, n);
    }
  }

  lemma CheckRemembersNothingAt(inputs: seq<Input>, check: Input, n: nat)
    requires check == CheckStarting || check == CheckStopping
    requires n <= |inputs| + 1
    requires !BothRanSinceStart(inputs) && !(UnitRuns(inputs, Merger) && UnitRuns(inputs, Coil))
    ensures !BothRunAt(inputs + [check], n)
  {
    var all := inputs + [check];
    if n <= |inputs| {
      assert !BothRunAt(inputs, n);
      assert all[..n] == inputs[..n] && all[n..] == inputs[n..] + [check];
    } else {
      assert all[..n] == all;
      UnitRunsStep(inputs, check, Merger);
      UnitRunsStep(inputs, check, Coil);
    }
  }

  /** A waiting StartingSucceeded tells the truth: both units have run since the machine was last started. */
  ghost predicate Truthful<S>(m: Machine<S>) {
    StartingSucceeded in m.queue.queue ==> BothRanSinceStart(m.inputs)
  }

  lemma HandleTruthful<S>(m: Machine<S>, input: Input)
    requires FlagsFollow(m) && Truthful(m) && input != StartMachine
    ensures Truthful(Handle(m, input))
  {
    SuccessIffJustified(m.inputs, input);
    var attempts := Attempts(m.flags, input);
    if StartingSucceeded in attempts {
      assert m.inputs[..|m.inputs|] == m.inputs && m.inputs[|m.inputs|..] == [];
      assert BothRunAt(m.inputs, |m.inputs|);
      LaterInputKeepsBothRan(m.inputs, input);
    } else {
      PushedContents(m.queue, attempts, StartingSucceeded);
      if BothRanSinceStart(m.inputs) { LaterInputKeepsBothRan(m.inputs, input); }
    }
  }

  /** The step that starts the machine while an old StartingSucceeded still waits behind the start event. */
  predicate StartsOverStaleSuccess<S>(table: Table<S>, m: Machine<S>, step: Step) {
    step.Process? && ActionAt(table, m) == Some(StartMachineAction) && StartingSucceeded in m.queue.queue[1..]
  }

  /** Exactly those steps break the truth: a start leaves it intact iff no StartingSucceeded waits. */
  lemma StartKeepsTruthIff<S>(table: Table<S>, m: Machine<S>, step: Step)
    requires LegalStep(step) && step.Process? && ActionAt(table, m) == Some(StartMachineAction)
    ensures Truthful(Next(table, m, step)) <==> !StartsOverStaleSuccess(table, m, step)
  {
    var m' := Next(table, m, step);
    StartForgets(m.inputs);
    PoppedContents(m.queue, StartingSucceeded);
    PushedNothing(Popped(m.queue));
    PushedContents(Popped(m.queue), step.reaction, StartingSucceeded);
    assert m'.inputs == m.inputs + [StartMachine];
    assert m'.queue == Pushed(Popped(m.queue), step.reaction);
  }

  lemma TruthfulStep<S>(table: Table<S>, m: Machine<S>, step: Step)
    requires LegalStep(step) && FlagsFollow(m) && Truthful(m)
    requires !StartsOverStaleSuccess(table, m, step)
    ensures Truthful(Next(table, m, step))
  {
    match step
    case Notify(input) =>
      HandleTruthful(m, input);
      PushedContents(Handle(m, input).queue,
                     [if input.Running? then CheckStartingState else CheckStoppingState], StartingSucceeded);
    case PushFrom(event) =>
      PushedContents(m.queue, [event], StartingSucceeded);
    case ResetQueue =>
    case Process(reaction) =>
      if m.queue.queue != [] {
        PoppedContents(m.queue, StartingSucceeded);
        var action := ActionAt(table, m);
        if action == Some(StartMachineAction) {
          StartKeepsTruthIff(table, m, step);
        } else if action.Some? && InputOf(action.value).Some? {
          var moved := Machine(table(m.state, m.queue.queue[0]).value.next, Popped(m.queue), m.flags, m.inputs);
          HandleTruthful(moved, InputOf(action.value).value);
        } else {
          PushedContents(Popped(m.queue), reaction, StartingSucceeded);
        }
      }
  }

  /** Every step of the run is possible, and none of them starts the machine over a stale StartingSucceeded. */
  ghost predicate NeverStale<S>(table: Table<S>, start: S, steps: seq<Step>)
    decreases |steps|
  {
    steps == [] ||
    var before, last := steps[..|steps| - 1], steps[|steps| - 1];
    && NeverStale(table, start, before)
    && LegalStep(last) && !StartsOverStaleSuccess(table, RunAll(table, Initially(start), before), last)
  }

  /**
   Main result: in every run, from any table, in which the machine is never started over a stale
   StartingSucceeded, each StartingSucceeded waiting in the queue is true.
   */
  lemma {:induction false} SuccessIsTrue<S>(table: Table<S>, start: S, steps: seq<Step>)
    requires NeverStale(table, start, steps)
    ensures Truthful(RunAll(table, Initially(start), steps))
    decreases |steps|
  {
    if steps != [] {
      var before, last := steps[..|steps| - 1], steps[|steps| - 1];
      SuccessIsTrue(table, start, before);
      FlagsFollowAll(table, start, before);
      TruthfulStep(table, RunAll(table, Initially(start), before), last);
    }
  }

  ghost predicate AlwaysTruthful<S>(table: Table<S>, start: S, steps: seq<Step>)
    decreases |steps|
  {
    && Truthful(RunAll(table, Initially(start), steps))
    && (steps == [] || AlwaysTruthful(table, start, steps[..|steps| - 1]))
  }

  /** Exactly the runs without such a start are truthful throughout. */
  lemma {:induction false} AlwaysTruthfulIff<S>(table: Table<S>, start: S, steps: seq<Step>)
    requires forall step :: step in steps ==> LegalStep(step)
    ensures AlwaysTruthful(table, start, steps) <==> NeverStale(table, start, steps)
    decreases |steps|
  {
    if steps != [] {
      var before, last := steps[..|steps| - 1], steps[|steps| - 1];
      var m := RunAll(table, Initially(start), before);
      assert last in steps;
      assert forall x :: x in before ==> x in steps;
      AlwaysTruthfulIff(table, start, before);
      if StartsOverStaleSuccess(table, m, last) {
        StartKeepsTruthIff(table, m, last);
      } else if NeverStale(table, start, before) {
        SuccessIsTrue(table, start, steps);
      }
    }
  }

  // ---------------------------------------------------------------------------------------------
  // The shipped table

  datatype State = Off | Initialization | StoppedState | HeatingUp | Starting | RunningState | Stopping | Error

  /** The transitions of the component in the YAML file, by first match. */
  function Shipped(state: State, event: Event): Option<Entry<State>> {
    match (state, event)
    case (Off, SwitchOn) => Some(Entry(Initialization, Some(OtherAction)))
    case (Off, SwitchOff) => Some(Entry(Off, None))
    case (_, SwitchOff) => Some(Entry(Off, Some(OtherAction)))
    case (Error, ErrorOccurred) => Some(Entry(Error, None))
    case (_, ErrorOccurred) => Some(Entry(Error, Some(OtherAction)))
    case (Initialization, SwitchOnSucceeded) => Some(Entry(StoppedState, Some(OtherAction)))
    case (StoppedState, Start) => Some(Entry(HeatingUp, Some(OtherAction)))
    case (StoppedState, StartHeatless) => Some(Entry(Starting, Some(StartMachineAction)))
    case (HeatingUp, MergerHeatedUp) => Some(Entry(Starting, Some(StartMachineAction)))
    case (HeatingUp, Stop) => Some(Entry(Stopping, Some(OtherAction)))
    case (Starting, CheckStartingState) => Some(Entry(Starting, Some(CheckStartingAction)))
    case (Starting, StartingSucceeded) => Some(Entry(RunningState, None))
    case (RunningState, StartingSucceeded) => Some(Entry(RunningState, None))
    case (Starting, Stop) => Some(Entry(Stopping, Some(OtherAction)))
    case (RunningState, Stop) => Some(Entry(Stopping, Some(OtherAction)))
    case (Stopping, CheckStoppingState) => Some(Entry(Stopping, Some(CheckStoppingAction)))
    case (Stopping, StoppingSucceeded) => Some(Entry(StoppedState, None))
    case (StoppedState, CheckStoppingState) => Some(Entry(StoppedState, None))
    case _ => None
  }

  /** The same event by event: in which states it is handled, and where it leads. */
  lemma ShippedByEvent(state: State, event: Event)
    ensures Shipped(state, event).Some? <==>
            match event
            case SwitchOff | ErrorOccurred => true
            case SwitchOn => state == Off
            case SwitchOnSucceeded => state == Initialization
            case Start | StartHeatless => state == StoppedState
            case MergerHeatedUp => state == HeatingUp
            case CheckStartingState => state == Starting
            case StartingSucceeded => state == Starting || state == RunningState
            case Stop => state == HeatingUp || state == Starting || state == RunningState
            case CheckStoppingState => state == Stopping || state == StoppedState
            case StoppingSucceeded => state == Stopping
    ensures Shipped(state, event).Some? ==>
              Shipped(state, event).value.next ==
              match event
              case SwitchOff => Off
              case ErrorOccurred => Error
              case SwitchOn => Initialization
              case SwitchOnSucceeded | StoppingSucceeded => StoppedState
              case Start => HeatingUp
              case StartHeatless | MergerHeatedUp => Starting
              case StartingSucceeded => RunningState
              case Stop => Stopping
              case CheckStartingState | CheckStoppingState => state
  {
  }

  /** Each action is run on these events only; in particular the flags are reset exactly when the machine is started. */
  lemma ShippedActions(state: State, event: Event)
    requires Shipped(state, event).Some?
    ensures var action := Shipped(state, event).value.action;
            && (action == Some(StartMachineAction) <==> event == StartHeatless || event == MergerHeatedUp)
            && (action == Some(CheckStartingAction) <==> event == CheckStartingState)
            && (action == Some(CheckStoppingAction) <==> event == CheckStoppingState && state == Stopping)
            && (action == None <==>
                || event == StartingSucceeded || event == StoppingSucceeded
                || (event == SwitchOff && state == Off) || (event == ErrorOccurred && state == Error)
                || (event == CheckStoppingState && state == StoppedState))
  {
  }

  /** The machine is in Running only if both units have run since it was last started. */
  ghost predicate RunningIsTrue(m: Machine<State>) {
    m.state == RunningState ==> BothRanSinceStart(m.inputs)
  }

  lemma RunningIsTrueStep(m: Machine<State>, step: Step)
    requires LegalStep(step) && Truthful(m) && RunningIsTrue(m)
    ensures RunningIsTrue(Next(Shipped, m, step))
  {
    match step
    case Notify(input) =>
      if BothRanSinceStart(m.inputs) { LaterInputKeepsBothRan(m.inputs, input); }
    case PushFrom(_) =>
    case ResetQueue =>
    case Process(_) =>
      if m.queue.queue != [] && Shipped(m.state, m.queue.queue[0]).Some? {
        var event := m.queue.queue[0];
        assert event in m.queue.queue;
        assert Shipped(m.state, event).value.next == RunningState ==>
            event == StartingSucceeded && Shipped(m.state, event).value.action == None;
      }
  }

  /**
   Main result for the shipped table: in every run that never starts over a stale StartingSucceeded,
   also where events are lost or have no transition, Running means what it says.
   */
  lemma {:induction false} RunningMeansUnitsRan(steps: seq<Step>)
    requires NeverStale(Shipped, Off, steps)
    ensures RunningIsTrue(RunAll(Shipped, Initially(Off), steps))
    decreases |steps|
  {
    if steps != [] {
      var before, last := steps[..|steps| - 1], steps[|steps| - 1];
      RunningMeansUnitsRan(before);
      SuccessIsTrue(Shipped, Off, before);
      RunningIsTrueStep(RunAll(Shipped, Initially(Off), before), last);
    }
  }

  /** The machine stands in this state, with these events waiting and these flags. */
  ghost predicate Stands(m: Machine<State>, state: State, queue: seq<Event>, merger: bool, coil: bool) {
    m.state == state && m.queue.queue == queue && m.flags == Flags(merger, coil)
  }

  /** One step of the shipped machine, for the two ways an event comes in ... */
  lemma Arrives(m: Machine<State>, event: Event)
    requires |m.queue.queue| < 9
    ensures Stands(Next(Shipped, m, PushFrom(event)), m.state, m.queue.queue + [event], m.flags.merger, m.flags.coil)
  {
    PushOne(m.queue, event);
  }

  lemma Notifies(m: Machine<State>, input: Input)
    requires |m.queue.queue| < 9 && (input.Running? || input.Stopped?)
    ensures Stands(Next(Shipped, m, Notify(input)), m.state,
                   m.queue.queue + [if input.Running? then CheckStartingState else CheckStoppingState],
                   After(m.flags, input).merger, After(m.flags, input).coil)
  {
    PushedNothing(m.queue);
    PushOne(m.queue, if input.Running? then CheckStartingState else CheckStoppingState);
  }

  /** What the action of a transition pushes: the checks decide for themselves, the others react as given. */
  function PushedBy(action: Option<Action>, flags: Flags, reaction: seq<Event>): seq<Event> {
    match action
    case None => []
    case Some(CheckStartingAction) => Attempts(flags, CheckStarting)
    case Some(CheckStoppingAction) => Attempts(flags, CheckStopping)
    case _ => reaction
  }

  /** ... and for processing one. */
  lemma Processes(m: Machine<State>, reaction: seq<Event>)
    requires m.queue.queue != [] && |m.queue.queue| <= 9 && |reaction| <= 1
    requires Shipped(m.state, m.queue.queue[0]).Some?
    ensures var entry := Shipped(m.state, m.queue.queue[0]).value;
            Stands(Next(Shipped, m, Process(reaction)), entry.next,
                   m.queue.queue[1..] + PushedBy(entry.action, m.flags, reaction),
                   entry.action != Some(StartMachineAction) && m.flags.merger,
                   entry.action != Some(StartMachineAction) && m.flags.coil)
  {
    var popped := Popped(m.queue);
    PushedNothing(popped);
    if |reaction| == 1 { PushOne(popped, reaction[0]); assert reaction == [reaction[0]]; }
    PushOne(popped, StartingSucceeded);
    PushOne(popped, StoppingSucceeded);
  }

  // ---------------------------------------------------------------------------------------------
  // Runs of the shipped machine

  function At(steps: seq<Step>): Machine<State> {
    RunAll(Shipped, Initially(Off), steps)
  }

  /** The step is possible, and if it processes an event, the event has a transition. */
  predicate HandledStep(m: Machine<State>, step: Step) {
    && LegalStep(step)
    && (step.Process? ==> m.queue.queue != [] && Shipped(m.state, m.queue.queue[0]).Some?)
  }

  ghost predicate Handled(steps: seq<Step>)
    decreases |steps|
  {
    steps == [] ||
    (Handled(steps[..|steps| - 1]) && HandledStep(At(steps[..|steps| - 1]), steps[|steps| - 1]))
  }

  lemma OneMore(steps: seq<Step>, step: Step)
    ensures At(steps + [step]) == Next(Shipped, At(steps), step)
    ensures Handled(steps + [step]) <==> Handled(steps) && HandledStep(At(steps), step)
  {
    assert (steps + [step])[..|steps|] == steps;
  }

  ghost predicate Reachable(m: Machine<State>) {
    exists steps :: Handled(steps) && At(steps) == m
  }

  lemma StepsTo(m: Machine<State>) returns (steps: seq<Step>)
    requires Reachable(m)
    ensures Handled(steps) && At(steps) == m
  {
    steps :| Handled(steps) && At(steps) == m;
  }

  /** The set contains, with a machine, every machine one handled step away. */
  ghost predicate Closed(reached: iset<Machine<State>>) {
    forall m, step :: m in reached && HandledStep(m, step) ==> Next(Shipped, m, step) in reached
  }

  lemma ReachableIsClosed()
    ensures Initially(Off) in (iset m: Machine<State> | Reachable(m))
    ensures Closed(iset m: Machine<State> | Reachable(m))
    ensures forall m: Machine<State> :: Reachable(m) ==> FlagsFollow(m)
  {
    forall m: Machine<State> | Reachable(m) ensures FlagsFollow(m) {
      var steps :| Handled(steps) && At(steps) == m;
      FlagsFollowAll(Shipped, Off, steps);
    }
    assert Handled([]) && At([]) == Initially(Off);
    forall m: Machine<State>, step | Reachable(m) && HandledStep(m, step)
      ensures Reachable(Next(Shipped, m, step))
    {
      var steps :| Handled(steps) && At(steps) == m;
      OneMore(steps, step);
    }
  }

  lemma ThenPush(reached: iset<Machine<State>>, m: Machine<State>, event: Event) returns (m': Machine<State>)
    requires Closed(reached) && m in reached && Foreign(event) && |m.queue.queue| < 9
    ensures m' in reached
    ensures Stands(m', m.state, m.queue.queue + [event], m.flags.merger, m.flags.coil)
  {
    m' := Next(Shipped, m, PushFrom(event));
    Arrives(m, event);
    assert HandledStep(m, PushFrom(event));
  }

  lemma ThenNotify(reached: iset<Machine<State>>, m: Machine<State>, input: Input) returns (m': Machine<State>)
    requires Closed(reached) && m in reached
    requires (input.Running? || input.Stopped?) && |m.queue.queue| < 9
    ensures m' in reached
    ensures Stands(m', m.state,
                   m.queue.queue + [if input.Running? then CheckStartingState else CheckStoppingState],
                   After(m.flags, input).merger, After(m.flags, input).coil)
  {
    m' := Next(Shipped, m, Notify(input));
    Notifies(m, input);
    assert HandledStep(m, Notify(input));
  }

  lemma ThenProcess(reached: iset<Machine<State>>, m: Machine<State>, reaction: seq<Event>)
    returns (m': Machine<State>)
    requires Closed(reached) && m in reached && HandledStep(m, Process(reaction))
    requires |m.queue.queue| <= 9 && |reaction| <= 1
    ensures m' in reached
    ensures var entry := Shipped(m.state, m.queue.queue[0]).value;
            Stands(m', entry.next, m.queue.queue[1..] + PushedBy(entry.action, m.flags, reaction),
                   entry.action != Some(StartMachineAction) && m.flags.merger,
                   entry.action != Some(StartMachineAction) && m.flags.coil)
  {
    m' := Next(Shipped, m, Process(reaction));
    Processes(m, reaction);
  }

  /** The machine is switched on and started. */
  lemma MachineStarting(reached: iset<Machine<State>>, off: Machine<State>) returns (m: Machine<State>)
    requires Closed(reached) && off in reached && Stands(off, Off, [], false, false)
    ensures m in reached && Stands(m, Starting, [], false, false)
  {
    m := ThenPush(reached, off, SwitchOn);
    m := ThenProcess(reached, m, [SwitchOnSucceeded]);
    m := ThenProcess(reached, m, []);
    assert Stands(m, StoppedState, [], false, false);
    m := ThenPush(reached, m, StartHeatless);
    m := ThenProcess(reached, m, []);
  }

  /** The coil starts to run, and the machine is stopped again. */
  lemma StartedAndStopping(reached: iset<Machine<State>>, off: Machine<State>) returns (m: Machine<State>)
    requires Closed(reached) && off in reached && Stands(off, Off, [], false, false)
    ensures m in reached && Stands(m, Stopping, [], false, true)
  {
    m := MachineStarting(reached, off);
    m := ThenNotify(reached, m, Running(Coil));
    m := ThenProcess(reached, m, []);
    assert Stands(m, Starting, [], false, true);
    m := ThenPush(reached, m, Stop);
    m := ThenProcess(reached, m, []);
  }

  /**
   The merger stops; the coil pauses, resumes and stops, as it does when the filament tension is
   overloaded for a moment. Meanwhile the machine is asked to start, stop and start again.
   */
  lemma TwoSuccessesWaiting(reached: iset<Machine<State>>, stopping: Machine<State>) returns (m: Machine<State>)
    requires Closed(reached) && stopping in reached && Stands(stopping, Stopping, [], false, true)
    ensures m in reached
    ensures Stands(m, Stopping,
                   [StoppingSucceeded, StartHeatless, CheckStartingState, Stop, CheckStoppingState,
                    StoppingSucceeded, StartHeatless], false, false)
  {
    m := ThenNotify(reached, stopping, Stopped(Merger));
    m := ThenNotify(reached, m, Stopped(Coil));
    m := ThenProcess(reached, m, []);
    assert Stands(m, Stopping, [CheckStoppingState, StoppingSucceeded], false, false);
    m := ThenPush(reached, m, StartHeatless);
    m := ThenNotify(reached, m, Running(Coil));
    m := ThenPush(reached, m, Stop);
    m := ThenNotify(reached, m, Stopped(Coil));
    assert Stands(m, Stopping,
                  [CheckStoppingState, StoppingSucceeded, StartHeatless, CheckStartingState, Stop,
                   CheckStoppingState], false, false);
    m := ThenProcess(reached, m, []);
    m := ThenPush(reached, m, StartHeatless);
  }

  /** The first of them lets the machine start, and both units run. */
  lemma BothRunAgain(reached: iset<Machine<State>>, stopping: Machine<State>) returns (m: Machine<State>)
    requires Closed(reached) && stopping in reached
    requires Stands(stopping, Stopping,
                    [StoppingSucceeded, StartHeatless, CheckStartingState, Stop, CheckStoppingState,
                     StoppingSucceeded, StartHeatless], false, false)
    ensures m in reached
    ensures Stands(m, Starting,
                   [CheckStartingState, Stop, CheckStoppingState, StoppingSucceeded, StartHeatless,
                    CheckStartingState, CheckStartingState], true, true)
  {
    m := ThenProcess(reached, stopping, []);
    m := ThenProcess(reached, m, []);
    assert Stands(m, Starting,
                  [CheckStartingState, Stop, CheckStoppingState, StoppingSucceeded, StartHeatless], false, false);
    m := ThenNotify(reached, m, Running(Merger));
    m := ThenNotify(reached, m, Running(Coil));
  }

  /** The start succeeds, but its success waits behind a stop, the old success and the next start. */
  lemma StaleSuccessWaits(reached: iset<Machine<State>>, starting: Machine<State>) returns (m: Machine<State>)
    requires Closed(reached) && starting in reached
    requires Stands(starting, Starting,
                    [CheckStartingState, Stop, CheckStoppingState, StoppingSucceeded, StartHeatless,
                     CheckStartingState, CheckStartingState], true, true)
    ensures m in reached
    ensures Stands(m, Stopping,
                   [StoppingSucceeded, StartHeatless, CheckStartingState, CheckStartingState, StartingSucceeded],
                   true, true)
  {
    m := ThenProcess(reached, starting, []);
    assert Stands(m, Starting,
                  [Stop, CheckStoppingState, StoppingSucceeded, StartHeatless,
                   CheckStartingState, CheckStartingState, StartingSucceeded], true, true);
    m := ThenProcess(reached, m, []);
    m := ThenProcess(reached, m, []);
  }

  /** A processed event after which the units cannot both have run since the start: they do not run, or just start. */
  lemma ThenProcessQuietly(reached: iset<Machine<State>>, m: Machine<State>) returns (m': Machine<State>)
    requires Closed(reached) && (forall x :: x in reached ==> FlagsFollow(x))
    requires m in reached && HandledStep(m, Process([])) && |m.queue.queue| <= 9
    requires ActionAt(Shipped, m) == Some(StartMachineAction) ||
             (!BothRanSinceStart(m.inputs) && !(m.flags.merger && m.flags.coil))
    ensures m' in reached && !BothRanSinceStart(m'.inputs)
    ensures var entry := Shipped(m.state, m.queue.queue[0]).value;
            Stands(m', entry.next, m.queue.queue[1..] + PushedBy(entry.action, m.flags, []),
                   entry.action != Some(StartMachineAction) && m.flags.merger,
                   entry.action != Some(StartMachineAction) && m.flags.coil)
  {
    m' := Next(Shipped, m, Process([]));
    Processes(m, []);
    assert FlagsFollow(m);
    QuietInputs(m);
  }

  lemma QuietInputs(m: Machine<State>)
    requires FlagsFollow(m) && m.queue.queue != []
    requires ActionAt(Shipped, m) == Some(StartMachineAction) ||
             (!BothRanSinceStart(m.inputs) && !(m.flags.merger && m.flags.coil))
    ensures !BothRanSinceStart(Next(Shipped, m, Process([])).inputs)
  {
    StartForgets(m.inputs);
    FlagsAreTheHistory(m.inputs, Merger);
    FlagsAreTheHistory(m.inputs, Coil);
    assert m.flags.Of(Merger) == m.flags.merger && m.flags.Of(Coil) == m.flags.coil;
    var action := ActionAt(Shipped, m);
    if action == Some(CheckStartingAction) { CheckRemembersNothing(m.inputs, CheckStarting); }
    if action == Some(CheckStoppingAction) { CheckRemembersNothing(m.inputs, CheckStopping); }
  }

  lemma StartedOverStaleSuccess(reached: iset<Machine<State>>, stopping: Machine<State>) returns (m: Machine<State>)
    requires Closed(reached) && (forall x :: x in reached ==> FlagsFollow(x)) && stopping in reached
    requires Stands(stopping, Stopping,
                    [StoppingSucceeded, StartHeatless, CheckStartingState, CheckStartingState, StartingSucceeded],
                    true, true)
    ensures m in reached && !BothRanSinceStart(m.inputs)
    ensures Stands(m, Starting, [CheckStartingState, CheckStartingState, StartingSucceeded], false, false)
  {
    m := ThenProcess(reached, stopping, []);
    assert Stands(m, StoppedState,
                  [StartHeatless, CheckStartingState, CheckStartingState, StartingSucceeded], true, true);
    m := ThenProcessQuietly(reached, m);
  }

  /** A check that finds no unit running only leaves the queue. */
  lemma ThenCheckQuietly(reached: iset<Machine<State>>, m: Machine<State>) returns (m': Machine<State>)
    requires Closed(reached) && (forall x :: x in reached ==> FlagsFollow(x)) && m in reached
    requires !BothRanSinceStart(m.inputs) && m.queue.queue != [] && |m.queue.queue| <= 9
    requires Stands(m, Starting, [CheckStartingState] + m.queue.queue[1..], false, false)
    ensures m' in reached && !BothRanSinceStart(m'.inputs)
    ensures Stands(m', Starting, m.queue.queue[1..], false, false)
  {
    assert m.queue.queue[0] == CheckStartingState;
    m' := ThenProcessQuietly(reached, m);
  }

  lemma StaleSuccessIsBelieved(reached: iset<Machine<State>>, starting: Machine<State>) returns (m: Machine<State>)
    requires Closed(reached) && (forall x :: x in reached ==> FlagsFollow(x)) && starting in reached
    requires !BothRanSinceStart(starting.inputs)
    requires Stands(starting, Starting, [CheckStartingState, CheckStartingState, StartingSucceeded], false, false)
    ensures m in reached && Stands(m, RunningState, [], false, false) && !BothRanSinceStart(m.inputs)
  {
    m := ThenCheckQuietly(reached, starting);
    m := ThenCheckQuietly(reached, m);
    m := ThenProcessQuietly(reached, m);
  }

  /**
   The condition of `RunningMeansUnitsRan` is needed: there is a run in which every event is handled
   and the machine ends up in Running with nothing left to process, although the units have not both
   run at any time since the machine was last started.
   */
  lemma RunningWithoutUnits() returns (steps: seq<Step>)
    ensures Handled(steps) && !NeverStale(Shipped, Off, steps)
    ensures At(steps).state == RunningState && At(steps).queue.queue == []
    ensures !BothRanSinceStart(At(steps).inputs)
    ensures !UnitRuns(At(steps).inputs, Merger) && !UnitRuns(At(steps).inputs, Coil)
  {
    var reached := iset m: Machine<State> | Reachable(m);
    ReachableIsClosed();
    var m := StartedAndStopping(reached, Initially(Off));
    m := TwoSuccessesWaiting(reached, m);
    m := BothRunAgain(reached, m);
    m := StaleSuccessWaits(reached, m);
    m := StartedOverStaleSuccess(reached, m);
    m := StaleSuccessIsBelieved(reached, m);
    steps := StepsTo(m);
    NoFlagMeansNoUnit(steps);
    RefutesRunningIsTrue(steps);
  }

  lemma RefutesRunningIsTrue(steps: seq<Step>)
    requires !RunningIsTrue(RunAll(Shipped, Initially(Off), steps))
    ensures !NeverStale(Shipped, Off, steps)
  {
    if NeverStale(Shipped, Off, steps) { RunningMeansUnitsRan(steps); }
  }

  lemma NoFlagMeansNoUnit(steps: seq<Step>)
    requires At(steps).flags == Flags(false, false)
    ensures !UnitRuns(At(steps).inputs, Merger) && !UnitRuns(At(steps).inputs, Coil)
  {
    FlagsFollowAll(Shipped, Off, steps);
    FlagsAreTheHistory(At(steps).inputs, Merger);
    FlagsAreTheHistory(At(steps).inputs, Coil);
  }

  // ---------------------------------------------------------------------------------------------
  // Checks without a transition

  /**
   The check that a notification pushes is handled exactly if the machine, when it processes it, is
   starting, for a unit that runs, or stopping or stopped, for a unit that has stopped.
   */
  lemma CheckIsHandledIff(m: Machine<State>, input: Input)
    requires m.queue.queue == [] && (input.Running? || input.Stopped?)
    ensures HandledStep(Next(Shipped, m, Notify(input)), Process([])) <==>
            if input.Running? then m.state == Starting else m.state in {Stopping, StoppedState}
  {
    Notifies(m, input);
  }

  /** An ordinary start of both units. */
  lemma BothUnitsRunning(reached: iset<Machine<State>>, off: Machine<State>) returns (m: Machine<State>)
    requires Closed(reached) && off in reached && Stands(off, Off, [], false, false)
    ensures m in reached && Stands(m, RunningState, [], true, true)
  {
    m := MachineStarting(reached, off);
    m := ThenNotify(reached, m, Running(Merger));
    m := ThenProcess(reached, m, []);
    assert Stands(m, Starting, [], true, false);
    m := ThenNotify(reached, m, Running(Coil));
    m := ThenProcess(reached, m, []);
    m := ThenProcess(reached, m, []);
  }

  lemma CoilPauses(reached: iset<Machine<State>>, running: Machine<State>) returns (m: Machine<State>)
    requires Closed(reached) && running in reached && Stands(running, RunningState, [], true, true)
    ensures m in reached && Stands(m, RunningState, [CheckStoppingState], true, false)
    ensures !HandledStep(m, Process([]))
  {
    m := ThenNotify(reached, running, Stopped(Coil));
  }

  /** Normal operation meets such a check: a coil that pauses, as it does on overload, while the machine runs. */
  lemma PausedCoilIsUnhandled() returns (steps: seq<Step>)
    ensures Handled(steps) && Stands(At(steps), RunningState, [CheckStoppingState], true, false)
    ensures !HandledStep(At(steps), Process([]))
  {
    var reached := iset m: Machine<State> | Reachable(m);
    ReachableIsClosed();
    var m := BothUnitsRunning(reached, Initially(Off));
    m := CoilPauses(reached, m);
    steps := StepsTo(m);
  }

  // ---------------------------------------------------------------------------------------------
  // Several checks at once: starting absorbs repeated successes, stopping does not

  function Copies(event: Event, n: nat): seq<Event> {
    seq(n, _ => event)
  }

  /** `n` events processed in a row, none of whose actions pushes an event of its own. */
  function Processed(m: Machine<State>, n: nat): Machine<State> {
    if n == 0 then m else Next(Shipped, Processed(m, n - 1), Process([]))
  }

  lemma {:induction false} EveryStartingCheckSucceeds(m: Machine<State>, n: nat, k: nat)
    requires k <= n <= 9
    requires Stands(m, Starting, Copies(CheckStartingState, n), true, true)
    ensures Stands(Processed(m, k), Starting,
                   Copies(CheckStartingState, n - k) + Copies(StartingSucceeded, k), true, true)
  {
    if k == 0 {
      assert Copies(CheckStartingState, n) == Copies(CheckStartingState, n) + Copies(StartingSucceeded, 0);
    } else {
      EveryStartingCheckSucceeds(m, n, k - 1);
      StartingCheckSucceeds(Processed(m, k - 1), n - k, k - 1);
    }
  }

  lemma StartingCheckSucceeds(m: Machine<State>, checks: nat, successes: nat)
    requires checks + successes <= 8
    requires Stands(m, Starting,
                    Copies(CheckStartingState, checks + 1) + Copies(StartingSucceeded, successes), true, true)
    ensures Stands(Next(Shipped, m, Process([])), Starting,
                   Copies(CheckStartingState, checks) + Copies(StartingSucceeded, successes + 1), true, true)
  {
    OneFewer(CheckStartingState, StartingSucceeded, checks, successes);
    Processes(m, []);
  }

  lemma {:induction false} EveryStoppingCheckSucceeds(m: Machine<State>, n: nat, k: nat)
    requires k <= n <= 9
    requires Stands(m, Stopping, Copies(CheckStoppingState, n), false, false)
    ensures Stands(Processed(m, k), Stopping,
                   Copies(CheckStoppingState, n - k) + Copies(StoppingSucceeded, k), false, false)
  {
    if k == 0 {
      assert Copies(CheckStoppingState, n) == Copies(CheckStoppingState, n) + Copies(StoppingSucceeded, 0);
    } else {
      EveryStoppingCheckSucceeds(m, n, k - 1);
      StoppingCheckSucceeds(Processed(m, k - 1), n - k, k - 1);
    }
  }

  lemma StoppingCheckSucceeds(m: Machine<State>, checks: nat, successes: nat)
    requires checks + successes <= 8
    requires Stands(m, Stopping,
                    Copies(CheckStoppingState, checks + 1) + Copies(StoppingSucceeded, successes), false, false)
    ensures Stands(Next(Shipped, m, Process([])), Stopping,
                   Copies(CheckStoppingState, checks) + Copies(StoppingSucceeded, successes + 1), false, false)
  {
    OneFewer(CheckStoppingState, StoppingSucceeded, checks, successes);
    Processes(m, []);
  }

  /** When all the notifications arrive before the first check is processed, every check succeeds. */
  lemma EveryCheckSucceeds(m: Machine<State>, starting: bool, n: nat, k: nat)
    requires k <= n <= 9
    requires Stands(m, if starting then Starting else Stopping,
                    Copies(if starting then CheckStartingState else CheckStoppingState, n), starting, starting)
    ensures Stands(Processed(m, k), m.state,
                   Copies(if starting then CheckStartingState else CheckStoppingState, n - k)
                   + Copies(if starting then StartingSucceeded else StoppingSucceeded, k), starting, starting)
  {
    if starting {
      EveryStartingCheckSucceeds(m, n, k);
    } else {
      EveryStoppingCheckSucceeds(m, n, k);
    }
  }

  lemma OneFewer(check: Event, success: Event, checks: nat, successes: nat)
    ensures var queue := Copies(check, checks + 1) + Copies(success, successes);
            && queue[0] == check
            && queue[1..] + [success] == Copies(check, checks) + Copies(success, successes + 1)
  {
  }

  /** After a start all the successes are handled, the repeated ones as well. */
  lemma {:induction false} RepeatedStartIsHarmless(m: Machine<State>, n: nat, k: nat)
    requires 1 <= k <= n <= 9
    requires Stands(m, Starting, Copies(StartingSucceeded, n), true, true)
    ensures Stands(Processed(m, k), RunningState, Copies(StartingSucceeded, n - k), true, true)
  {
    var before := Processed(m, k - 1);
    if k > 1 { RepeatedStartIsHarmless(m, n, k - 1); }
    assert before.queue.queue == Copies(StartingSucceeded, n - k + 1);
    Processes(before, []);
    assert Copies(StartingSucceeded, n - k + 1)[1..] == Copies(StartingSucceeded, n - k);
  }

  /** While a unit still runs the stopping checks do nothing. */
  lemma {:induction false} EveryCheckFails(m: Machine<State>, n: nat, k: nat)
    requires k <= n <= 9 && (m.flags.merger || m.flags.coil)
    requires m.state == Stopping && m.queue.queue == Copies(CheckStoppingState, n)
    ensures Stands(Processed(m, k), Stopping, Copies(CheckStoppingState, n - k), m.flags.merger, m.flags.coil)
  {
    if k > 0 {
      EveryCheckFails(m, n, k - 1);
      OneCheckFails(Processed(m, k - 1), n - k);
    }
  }

  lemma OneCheckFails(m: Machine<State>, checks: nat)
    requires checks <= 8 && (m.flags.merger || m.flags.coil)
    requires m.state == Stopping && m.queue.queue == Copies(CheckStoppingState, checks + 1)
    ensures Stands(Next(Shipped, m, Process([])), Stopping,
                   Copies(CheckStoppingState, checks), m.flags.merger, m.flags.coil)
  {
    Processes(m, []);
    assert Copies(CheckStoppingState, checks + 1)[1..] == Copies(CheckStoppingState, checks);
  }

  /**
   After a stop only the first success has a transition. With any number of checks waiting, as many as
   the queue can hold, the machine meets an event it has no transition for exactly when both units have
   stopped and there are two checks or more.
   */
  lemma RepeatedStopIsUnhandledIff(m: Machine<State>, n: nat)
    requires n <= 9 && m.state == Stopping && m.queue.queue == Copies(CheckStoppingState, n)
    ensures var after := Processed(m, n + 1);
            var succeeds := n >= 1 && !m.flags.merger && !m.flags.coil;
            && Stands(after, if succeeds then StoppedState else Stopping,
                      if succeeds then Copies(StoppingSucceeded, n - 1) else [], m.flags.merger, m.flags.coil)
            && ((after.queue.queue != [] && !HandledStep(after, Process([]))) <==>
                n >= 2 && !m.flags.merger && !m.flags.coil)
  {
    var all := Processed(m, n);
    if m.flags.merger || m.flags.coil {
      EveryCheckFails(m, n, n);
    } else if n >= 1 {
      EveryStoppingCheckSucceeds(m, n, n);
      assert all.queue.queue == Copies(StoppingSucceeded, n);
      Processes(all, []);
      assert Copies(StoppingSucceeded, n)[1..] == Copies(StoppingSucceeded, n - 1);
    }
  }

  /** Two checks are waiting if both units stop before the first of their checks is processed. */
  lemma BothUnitsStopped(reached: iset<Machine<State>>, running: Machine<State>) returns (m: Machine<State>)
    requires Closed(reached) && running in reached && Stands(running, RunningState, [], true, true)
    ensures m in reached && Stands(m, Stopping, Copies(CheckStoppingState, 2), false, false)
  {
    m := ThenPush(reached, running, Stop);
    m := ThenProcess(reached, m, []);
    m := ThenNotify(reached, m, Stopped(Merger));
    m := ThenNotify(reached, m, Stopped(Coil));
    assert Copies(CheckStoppingState, 2) == [CheckStoppingState, CheckStoppingState];
  }

  /** And this happens after an ordinary start and stop. */
  lemma TwoStoppingChecks() returns (steps: seq<Step>)
    ensures Handled(steps)
    ensures Stands(At(steps), Stopping, Copies(CheckStoppingState, 2), false, false)
    ensures Processed(At(steps), 3).queue.queue != [] && !HandledStep(Processed(At(steps), 3), Process([]))
  {
    var reached := iset m: Machine<State> | Reachable(m);
    ReachableIsClosed();
    var m := BothUnitsRunning(reached, Initially(Off));
    m := BothUnitsStopped(reached, m);
    RepeatedStopIsUnhandledIff(m, 2);
    steps := StepsTo(m);
  }
}
