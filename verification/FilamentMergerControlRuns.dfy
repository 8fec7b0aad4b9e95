/**
 Whole runs of the filament merger control: its event queue, its flags and its state table together
 (libs/MachineServiceComponent/src/FilamentMergerControl.cpp,
 libs/ServiceComponent/include/ServiceComponent/StateMachine.hpp and
 libs/MachineServiceComponent/conf/MachineServiceComponent.yaml).

 The first part holds for every table; the second part is about the shipped one.
 */
module FilamentMergerControlRuns {
  import opened EventQueues
  import opened FilamentMergerControls
  import opened Options

  /** The two actions that forget the notifications, and the others. */
  datatype Action = RestartAction | OtherAction

  datatype Entry<+S> = Entry(next: S, action: Option<Action>)

  type Table<!S> = (S, Event) -> Option<Entry<S>>

  datatype Machine<+S> = Machine(state: S, queue: QueueState<Event>, flags: Flags, inputs: seq<Input>)

  /** A heater notifies; a request or another component pushes; the loop processes an event. */
  datatype Step = Notify(input: Input) | PushFrom(event: Event) | Process(reaction: seq<Event>) | ResetQueue

  /** Only the two notifications push HeatingUpSucceeded. */
  predicate LegalStep(step: Step) {
    match step
    case Notify(input) => input != Restart
    case PushFrom(event) => event != HeatingUpSucceeded
    case Process(reaction) => HeatingUpSucceeded !in reaction
    case ResetQueue => true
  }

  /** A notification, or a restart, is handled. */
  function Handle<S>(m: Machine<S>, input: Input): Machine<S> {
    Machine(m.state, if Requests(m.flags, input) then Pushed(m.queue, [HeatingUpSucceeded]) else m.queue,
            After(m.flags, input), m.inputs + [input])
  }

  function ActionAt<S>(table: Table<S>, m: Machine<S>): Option<Action> {
    if m.queue.queue == [] then None
    else
      match table(m.state, m.queue.queue[0])
      case None => None
      case Some(entry) => entry.action
  }

  function Next<S>(table: Table<S>, m: Machine<S>, step: Step): Machine<S> {
    match step
    case Notify(input) => Handle(m, input)
    case PushFrom(event) => m.(queue := Pushed(m.queue, [event]))
    case ResetQueue => m.(queue := EventQueues.Step(m.queue, DEFAULT_QUEUE_SIZE, Op.Reset))
    case Process(reaction) =>
      if m.queue.queue == [] then m
      else
        var popped := m.(queue := Popped(m.queue));
        match table(m.state, m.queue.queue[0])
        case None => popped
        case Some(entry) =>
          var moved := popped.(state := entry.next);
          match entry.action
          case None => moved
          case Some(OtherAction) => moved.(queue := Pushed(moved.queue, reaction))
          case Some(RestartAction) =>
            var restarted := Handle(moved, Restart);
            restarted.(queue := Pushed(restarted.queue, reaction))
  }

  function RunAll<S>(table: Table<S>, m: Machine<S>, steps: seq<Step>): Machine<S>
    decreases |steps|
  {
    if steps == [] then m else Next(table, RunAll(table, m, steps[..|steps| - 1]), steps[|steps| - 1])
  }

  function Initially<S>(start: S): Machine<S> {
    Machine(start, EmptyQueue(), Flags(false, false), [])
  }

  /** A notification sets its flag and, if it completes the pair, pushes the success; others push their event. */
  lemma OutcomeFromOutside<S>(table: Table<S>, m: Machine<S>, step: Step)
    requires LegalStep(step) && !step.Process? && |m.queue.queue| < DEFAULT_QUEUE_SIZE
    ensures var m', success := Next(table, m, step), [HeatingUpSucceeded];
            && m'.state == m.state
            && match step
               case Notify(PreHeaterReached) =>
                 && m'.inputs == m.inputs + [PreHeaterReached] && m'.flags == Flags(true, m.flags.merger)
                 && m'.queue.queue == Behind(m.queue.queue, if !m.flags.pre && m.flags.merger then success else [])
               case Notify(MergerHeaterReached) =>
                 && m'.inputs == m.inputs + [MergerHeaterReached] && m'.flags == Flags(m.flags.pre, true)
                 && m'.queue.queue == Behind(m.queue.queue, if !m.flags.merger && m.flags.pre then success else [])
               case PushFrom(event) =>
                 m'.inputs == m.inputs && m'.flags == m.flags && m'.queue.queue == Behind(m.queue.queue, [event])
               case _ => m'.inputs == m.inputs && m'.flags == m.flags && m'.queue.queue == []
  {
    match step
    case Notify(input) => PushedBehind(m.queue, [HeatingUpSucceeded]);
    case PushFrom(event) => PushedBehind(m.queue, [event]);
    case ResetQueue =>
  }

  /** The oldest event is taken in any case; with a transition the state changes, and its action is run. */
  lemma OutcomeOfProcessing<S>(table: Table<S>, m: Machine<S>, reaction: seq<Event>)
    requires 0 < |m.queue.queue| < DEFAULT_QUEUE_SIZE
    ensures var m', waiting := Next(table, m, Process(reaction)), m.queue.queue[1..];
            match table(m.state, m.queue.queue[0])
            case None => m' == m.(queue := m'.queue) && m'.queue.queue == waiting
            case Some(entry) =>
              && m'.state == entry.next
              && (entry.action.None? ==> m'.flags == m.flags && m'.inputs == m.inputs && m'.queue.queue == waiting)
              && (entry.action == Some(OtherAction) ==>
                    m'.flags == m.flags && m'.inputs == m.inputs && m'.queue.queue == Behind(waiting, reaction))
              && (entry.action == Some(RestartAction) ==>
                    && m'.flags == Flags(false, false) && m'.inputs == m.inputs + [Restart]
                    && m'.queue.queue == Behind(waiting, reaction))
  {
    PushedBehind(Popped(m.queue), reaction);
  }

  // ---------------------------------------------------------------------------------------------
  // Any table

  /** The flags are those of the handled inputs, and a waiting HeatingUpSucceeded is true. */
  ghost predicate Truthful<S>(m: Machine<S>) {
    && m.flags == FlagsAfter(m.inputs)
    && (HeatingUpSucceeded in m.queue.queue ==> BothSinceRestart(m.inputs))
  }

  lemma FlagsStep(inputs: seq<Input>, input: Input)
    ensures FlagsAfter(inputs + [input]) == After(FlagsAfter(inputs), input)
  {
    assert (inputs + [input])[..|inputs|] == inputs;
  }

  lemma BothStep(inputs: seq<Input>, input: Input)
    ensures input == Restart ==> !BothSinceRestart(inputs + [input])
    ensures input != Restart && BothSinceRestart(inputs) ==> BothSinceRestart(inputs + [input])
  {
    SinceRestartStep(inputs, input, PreHeaterReached);
    SinceRestartStep(inputs, input, MergerHeaterReached);
  }

  lemma NotificationTruthful<S>(m: Machine<S>, input: Input)
    requires Truthful(m) && input != Restart
    ensures Truthful(Handle(m, input))
  {
    FlagsStep(m.inputs, input);
    BothStep(m.inputs, input);
    RequestIffPairCompleted(m.inputs, input);
  }

  /** The step that restarts the heating while an old HeatingUpSucceeded still waits behind its event. */
  predicate RestartsOverStaleSuccess<S>(table: Table<S>, m: Machine<S>, step: Step) {
    step.Process? && ActionAt(table, m) == Some(RestartAction) && HeatingUpSucceeded in m.queue.queue[1..]
  }

  lemma RestartTruthfulIff<S>(table: Table<S>, m: Machine<S>, reaction: seq<Event>)
    requires HeatingUpSucceeded !in reaction && Truthful(m)
    requires ActionAt(table, m) == Some(RestartAction)
    ensures Truthful(Next(table, m, Process(reaction))) <==> HeatingUpSucceeded !in m.queue.queue[1..]
  {
    var m' := Next(table, m, Process(reaction));
    assert m'.inputs == m.inputs + [Restart] && m'.queue == Pushed(Popped(m.queue), reaction);
    PoppedContents(m.queue, HeatingUpSucceeded);
    PushedContents(Popped(m.queue), reaction, HeatingUpSucceeded);
    FlagsStep(m.inputs, Restart);
    BothStep(m.inputs, Restart);
  }

  lemma ProcessTruthful<S>(table: Table<S>, m: Machine<S>, reaction: seq<Event>)
    requires HeatingUpSucceeded !in reaction && Truthful(m)
    requires ActionAt(table, m) != Some(RestartAction)
    ensures Truthful(Next(table, m, Process(reaction)))
  {
    if m.queue.queue != [] {
      PoppedContents(m.queue, HeatingUpSucceeded);
      PushedContents(Popped(m.queue), reaction, HeatingUpSucceeded);
    }
  }

  /** Exactly those steps break the truth. */
  lemma TruthfulStepIff<S>(table: Table<S>, m: Machine<S>, step: Step)
    requires LegalStep(step) && Truthful(m)
    ensures Truthful(Next(table, m, step)) <==> !RestartsOverStaleSuccess(table, m, step)
  {
    match step
    case Notify(input) => NotificationTruthful(m, input);
    case PushFrom(event) => PushedContents(m.queue, [event], HeatingUpSucceeded);
    case ResetQueue =>
    case Process(reaction) =>
      if ActionAt(table, m) == Some(RestartAction) {
        RestartTruthfulIff(table, m, reaction);
      } else {
        ProcessTruthful(table, m, reaction);
      }
  }

  /** Every step of the run is possible, and none of them restarts over a stale HeatingUpSucceeded. */
  ghost predicate NeverStale<S>(table: Table<S>, start: S, steps: seq<Step>)
    decreases |steps|
  {
    steps == [] ||
    var before, last := steps[..|steps| - 1], steps[|steps| - 1];
    && NeverStale(table, start, before)
    && LegalStep(last) && !RestartsOverStaleSuccess(table, RunAll(table, Initially(start), before), last)
  }

  ghost predicate AlwaysTruthful<S>(table: Table<S>, start: S, steps: seq<Step>)
    decreases |steps|
  {
    && Truthful(RunAll(table, Initially(start), steps))
    && (steps == [] || AlwaysTruthful(table, start, steps[..|steps| - 1]))
  }

  /** Main result for every table: exactly the runs without such a restart are truthful throughout. */
  lemma {:induction false} AlwaysTruthfulIff<S>(table: Table<S>, start: S, steps: seq<Step>)
    requires forall step :: step in steps ==> LegalStep(step)
    ensures AlwaysTruthful(table, start, steps) <==> NeverStale(table, start, steps)
    decreases |steps|
  {
    if steps != [] {
      var before, last := steps[..|steps| - 1], steps[|steps| - 1];
      assert last in steps;
      assert forall x :: x in before ==> x in steps;
      AlwaysTruthfulIff(table, start, before);
      if NeverStale(table, start, before) {
        TruthfulNow(table, start, before);
        TruthfulStepIff(table, RunAll(table, Initially(start), before), last);
      }
    }
  }

  lemma TruthfulNow<S>(table: Table<S>, start: S, steps: seq<Step>)
    requires AlwaysTruthful(table, start, steps)
    ensures Truthful(RunAll(table, Initially(start), steps))
  {
  }

  lemma {:induction false} LegalSteps<S>(table: Table<S>, start: S, steps: seq<Step>)
    requires NeverStale(table, start, steps)
    ensures forall step :: step in steps ==> LegalStep(step)
    decreases |steps|
  {
    if steps != [] { LegalSteps(table, start, steps[..|steps| - 1]); }
  }

  // ---------------------------------------------------------------------------------------------
  // The shipped table

  datatype State = Off | Initialization | HeatingUp | HeatedUp | MergerStopped | StartingMotor | Running | Error

  /** The transitions of the component in the YAML file, by first match. */
  function Shipped(state: State, event: Event): Option<Entry<State>> {
    match (state, event)
    case (Off, SwitchOn) => Some(Entry(Initialization, Some(RestartAction)))
    case (Off, SwitchOff) => Some(Entry(Off, None))
    case (_, SwitchOff) => Some(Entry(Off, Some(OtherAction)))
    case (Error, ErrorOccurred) => Some(Entry(Error, None))
    case (_, ErrorOccurred) => Some(Entry(Error, Some(OtherAction)))
    case (Initialization, SwitchOnSucceeded) => Some(Entry(MergerStopped, None))
    case (MergerStopped, StartHeating) => Some(Entry(HeatingUp, Some(RestartAction)))
    case (HeatingUp, HeatingUpSucceeded) => Some(Entry(HeatedUp, Some(OtherAction)))
    case (HeatingUp, Stop) => Some(Entry(MergerStopped, Some(OtherAction)))
    case (StartingMotor, Stop) => Some(Entry(MergerStopped, Some(OtherAction)))
    case (Running, Stop) => Some(Entry(MergerStopped, Some(OtherAction)))
    case (HeatedUp, StartMotor) => Some(Entry(StartingMotor, Some(OtherAction)))
    case (MergerStopped, StartMotor) => Some(Entry(StartingMotor, Some(OtherAction)))
    case (MergerStopped, Stop) => Some(Entry(MergerStopped, None))
    case (StartingMotor, StartMotorSucceeded) => Some(Entry(Running, Some(OtherAction)))
    case _ => None
  }

  /** The same event by event: in which states it is handled, and where it leads. */
  lemma ShippedByEvent(state: State, event: Event)
    ensures Shipped(state, event).Some? <==>
            match event
            case SwitchOff | ErrorOccurred => true
            case SwitchOn => state == Off
            case SwitchOnSucceeded => state == Initialization
            case StartHeating => state == MergerStopped
            case HeatingUpSucceeded => state == HeatingUp
            case StartMotor => state == HeatedUp || state == MergerStopped
            case StartMotorSucceeded => state == StartingMotor
            case StopMotorSucceeded => false
            case Stop => state == HeatingUp || state == StartingMotor || state == Running || state == MergerStopped
    ensures Shipped(state, event).Some? ==>
              Shipped(state, event).value.next ==
              match event
              case SwitchOff => Off
              case ErrorOccurred => Error
              case SwitchOn => Initialization
              case SwitchOnSucceeded | Stop => MergerStopped
              case StartHeating => HeatingUp
              case HeatingUpSucceeded => HeatedUp
              case StartMotor => StartingMotor
              case _ => Running
  {
  }

  /** The flags are reset exactly when the component is switched on or starts to heat. */
  lemma ShippedActions(state: State, event: Event)
    requires Shipped(state, event).Some?
    ensures var action := Shipped(state, event).value.action;
            && (action == Some(RestartAction) <==> event == SwitchOn || event == StartHeating)
            && (action == None <==>
                || event == SwitchOnSucceeded || (event == SwitchOff && state == Off)
                || (event == ErrorOccurred && state == Error) || (event == Stop && state == MergerStopped))
  {
  }

  /** The component is in HeatedUp only if both heaters have notified since the heating was last started. */
  ghost predicate HeatedUpIsTrue(m: Machine<State>) {
    m.state == HeatedUp ==> BothSinceRestart(m.inputs)
  }

  lemma HeatedUpIsTrueStep(m: Machine<State>, step: Step)
    requires LegalStep(step) && Truthful(m) && HeatedUpIsTrue(m)
    ensures HeatedUpIsTrue(Next(Shipped, m, step))
  {
    match step
    case Notify(input) => BothStep(m.inputs, input);
    case PushFrom(_) =>
    case ResetQueue =>
    case Process(_) =>
      if m.queue.queue != [] { assert m.queue.queue[0] in m.queue.queue; }
  }

  /**
   Main result for the shipped table: in every run that never restarts over a stale success, also where
   events are lost or have no transition, HeatedUp means what it says.
   */
  lemma {:induction false} HeatedUpMeansHeated(steps: seq<Step>)
    requires NeverStale(Shipped, Off, steps)
    ensures HeatedUpIsTrue(RunAll(Shipped, Initially(Off), steps))
    decreases |steps|
  {
    if steps != [] {
      var before := steps[..|steps| - 1];
      HeatedUpMeansHeated(before);
      LegalSteps(Shipped, Off, before);
      AlwaysTruthfulIff(Shipped, Off, before);
      TruthfulNow(Shipped, Off, before);
      HeatedUpIsTrueStep(RunAll(Shipped, Initially(Off), before), steps[|steps| - 1]);
    }
  }

  // ---------------------------------------------------------------------------------------------
  // A run with a stale success

  function At(steps: seq<Step>): Machine<State> {
    RunAll(Shipped, Initially(Off), steps)
  }

  /** The step is possible, and if it processes an event, the event has a transition. */
  predicate HandledStep(m: Machine<State>, step: Step) {
    && LegalStep(step)
    && (step.Process? ==> m.queue.queue != [] && Shipped(m.state, m.queue.queue[0]).Some?)
  }

  ghost predicate Handled(steps: seq<Step>)
    decreases |steps|
  {
    steps == [] ||
    (Handled(steps[..|steps| - 1]) && HandledStep(At(steps[..|steps| - 1]), steps[|steps| - 1]))
  }

  ghost predicate Reachable(m: Machine<State>) {
    exists steps :: Handled(steps) && At(steps) == m
  }

  /** The set contains, with a machine, every machine one handled step away. */
  ghost predicate Closed(reached: iset<Machine<State>>) {
    forall m, step :: m in reached && HandledStep(m, step) ==> Next(Shipped, m, step) in reached
  }

  lemma ReachableIsClosed()
    ensures Initially(Off) in (iset m: Machine<State> | Reachable(m))
    ensures Closed(iset m: Machine<State> | Reachable(m))
  {
    assert Handled([]) && At([]) == Initially(Off);
    forall m: Machine<State>, step | Reachable(m) && HandledStep(m, step)
      ensures Reachable(Next(Shipped, m, step))
    {
      var steps :| Handled(steps) && At(steps) == m;
      assert (steps + [step])[..|steps|] == steps;
      assert Handled(steps + [step]) && At(steps + [step]) == Next(Shipped, m, step);
    }
  }

  ghost predicate Stands(m: Machine<State>, state: State, queue: seq<Event>, pre: bool, merger: bool) {
    m.state == state && m.queue.queue == queue && m.flags == Flags(pre, merger)
  }

  lemma ThenPush(reached: iset<Machine<State>>, m: Machine<State>, event: Event) returns (m': Machine<State>)
    requires Closed(reached) && m in reached && event != HeatingUpSucceeded && |m.queue.queue| < 9
    ensures m' in reached && Stands(m', m.state, m.queue.queue + [event], m.flags.pre, m.flags.merger)
  {
    m' := Next(Shipped, m, PushFrom(event));
    PushOne(m.queue, event);
    assert HandledStep(m, PushFrom(event));
  }

  lemma ThenNotify(reached: iset<Machine<State>>, m: Machine<State>, input: Input) returns (m': Machine<State>)
    requires Closed(reached) && m in reached && input != Restart && |m.queue.queue| < 9
    ensures m' in reached
    ensures Stands(m', m.state,
                   if Requests(m.flags, input) then m.queue.queue + [HeatingUpSucceeded] else m.queue.queue,
                   After(m.flags, input).pre, After(m.flags, input).merger)
  {
    m' := Next(Shipped, m, Notify(input));
    PushOne(m.queue, HeatingUpSucceeded);
    assert HandledStep(m, Notify(input));
  }

  lemma ThenProcess(reached: iset<Machine<State>>, m: Machine<State>, reaction: seq<Event>)
    returns (m': Machine<State>)
    requires Closed(reached) && m in reached && HandledStep(m, Process(reaction))
    requires |m.queue.queue| <= 9 && |reaction| <= 1
    ensures m' in reached
    ensures var entry := Shipped(m.state, m.queue.queue[0]).value;
            var restarts := entry.action == Some(RestartAction);
            && Stands(m', entry.next, m.queue.queue[1..] + if entry.action.None? then [] else reaction,
                      !restarts && m.flags.pre, !restarts && m.flags.merger)
            && (restarts ==> !BothSinceRestart(m'.inputs))
            && (!restarts ==> m'.inputs == m.inputs)
  {
    m' := Next(Shipped, m, Process(reaction));
    PushedNothing(Popped(m.queue));
    if |reaction| == 1 {
      PushOne(Popped(m.queue), reaction[0]);
      assert reaction == [reaction[0]];
    }
    BothStep(m.inputs, Restart);
  }

  /** The heating starts, and one heater reaches its temperature. */
  lemma OneHeaterReached(reached: iset<Machine<State>>, off: Machine<State>) returns (m: Machine<State>)
    requires Closed(reached) && off in reached && Stands(off, Off, [], false, false)
    ensures m in reached && Stands(m, HeatingUp, [], true, false)
  {
    m := ThenPush(reached, off, SwitchOn);
    m := ThenProcess(reached, m, [SwitchOnSucceeded]);
    m := ThenProcess(reached, m, []);
    assert Stands(m, MergerStopped, [], false, false);
    m := ThenPush(reached, m, StartHeating);
    m := ThenProcess(reached, m, []);
    m := ThenNotify(reached, m, PreHeaterReached);
  }

  /** A stop and a new start are waiting when the other heater does. */
  lemma SuccessBehindRestart(reached: iset<Machine<State>>, heating: Machine<State>) returns (m: Machine<State>)
    requires Closed(reached) && heating in reached && Stands(heating, HeatingUp, [], true, false)
    ensures m in reached && Stands(m, HeatedUp, [], false, false) && !BothSinceRestart(m.inputs)
  {
    m := ThenPush(reached, heating, Stop);
    m := ThenPush(reached, m, StartHeating);
    m := ThenNotify(reached, m, MergerHeaterReached);
    assert Stands(m, HeatingUp, [Stop, StartHeating, HeatingUpSucceeded], true, true);
    m := ThenProcess(reached, m, []);
    m := ThenProcess(reached, m, []);
    assert Stands(m, HeatingUp, [HeatingUpSucceeded], false, false);
    m := ThenProcess(reached, m, []);
  }

  /**
   The condition of `HeatedUpMeansHeated` is needed: there is a run in which every event is handled and
   the component ends up in HeatedUp, although no heater has notified since the heating was last started.
   */
  lemma HeatedUpWithoutHeat() returns (steps: seq<Step>)
    ensures Handled(steps) && !NeverStale(Shipped, Off, steps)
    ensures At(steps).state == HeatedUp && At(steps).queue.queue == []
    ensures At(steps).flags == Flags(false, false) && !BothSinceRestart(At(steps).inputs)
  {
    var reached := iset m: Machine<State> | Reachable(m);
    ReachableIsClosed();
    var m := OneHeaterReached(reached, Initially(Off));
    m := SuccessBehindRestart(reached, m);
    steps := StepsTo(m);
    if NeverStale(Shipped, Off, steps) { HeatedUpMeansHeated(steps); }
  }

  lemma StepsTo(m: Machine<State>) returns (steps: seq<Step>)
    requires Reachable(m)
    ensures Handled(steps) && At(steps) == m
  {
    steps :| Handled(steps) && At(steps) == m;
  }
}
