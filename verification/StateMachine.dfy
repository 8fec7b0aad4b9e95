/**
 The table-driven state machine fed by the event queue
 (libs/ServiceComponent/include/ServiceComponent/StateMachine.hpp).

 Guards read component state, so which of them hold is an input of each dispatch. Actions may push
 events; what happens to the queue during an action is an input too.
 */
module StateMachines {
  import opened Options
  import opened EventQueues

  datatype Transition<S, E, A, G> =
    Transition(state: S, next: S, event: E, action: Option<A>, guard: Option<G>)

  /** An event taken from the queue, with the guards that held when it was dispatched. */
  datatype Taken<E, G> = Taken(event: E, held: set<G>)

  /** One run of an action. */
  datatype Performed<S, E, A> = Performed(action: A, event: E, state: S)

  predicate Enabled<S(==), E(==), A, G(==)>(t: Transition<S, E, A, G>, state: S, event: E, held: set<G>) {
    t.state == state && t.event == event && (t.guard == None || t.guard.value in held)
  }

  /** `findTransition`: the position of the first enabled entry. */
  function FindTransition<S(==), E(==), A, G(==)>(
      table: seq<Transition<S, E, A, G>>, state: S, event: E, held: set<G>): (found: Option<nat>)
    ensures found.Some? ==>
              && found.value < |table|
              && var t := table[found.value];
              && t.state == state && t.event == event && (t.guard.Some? ==> t.guard.value in held)
    ensures forall j :: 0 <= j < (if found.Some? then found.value else |table|) ==>
              table[j].state == state && table[j].event == event ==>
                table[j].guard.Some? && table[j].guard.value !in held
    decreases |table|
  {
    if table == [] then None
    else if Enabled(table[0], state, event, held) then Some(0)
    else
      match FindTransition(table[1..], state, event, held)
      case None =>
        assert forall j :: 1 <= j < |table| ==> table[j] == table[1..][j - 1];
        None
      case Some(i) =>
        assert forall j :: 1 <= j < i + 1 ==> table[j] == table[1..][j - 1];
        Some(i + 1)
  }

  /** The chosen entry, if any. */
  function Choose<S(==), E(==), A, G(==)>(
      table: seq<Transition<S, E, A, G>>, state: S, event: E, held: set<G>): Option<Transition<S, E, A, G>>
  {
    match FindTransition(table, state, event, held)
    case None => None
    case Some(i) => Some(table[i])
  }

  lemma ChooseFromHead<S, E, A, G>(table: seq<Transition<S, E, A, G>>, state: S, event: E, held: set<G>)
    requires table != []
    ensures Choose(table, state, event, held)
         == if Enabled(table[0], state, event, held) then Some(table[0]) else Choose(table[1..], state, event, held)
  {
  }

  /** The meaning of a table on a list of consumed events: a plain fold of the dispatch. */
  function FoldState<S(==), E(==), A, G(==)>(
      table: seq<Transition<S, E, A, G>>, start: S, taken: seq<Taken<E, G>>): S
    decreases |taken|
  {
    if taken == [] then start
    else
      var state := FoldState(table, start, taken[..|taken| - 1]);
      var last := taken[|taken| - 1];
      match Choose(table, state, last.event, last.held)
      case None => state
      case Some(t) => t.next
  }

  function FoldActions<S(==), E(==), A, G(==)>(
      table: seq<Transition<S, E, A, G>>, start: S, taken: seq<Taken<E, G>>): seq<Performed<S, E, A>>
    decreases |taken|
  {
    if taken == [] then []
    else
      var before := taken[..|taken| - 1];
      var last := taken[|taken| - 1];
      FoldActions(table, start, before) +
      match Choose(table, FoldState(table, start, before), last.event, last.held)
      case None => []
      case Some(t) => if t.action.Some? then [Performed(t.action.value, last.event, t.next)] else []
  }

  datatype Machine<S, E, A, G> =
    Machine(state: S, queue: QueueState<E>, taken: seq<Taken<E, G>>, performed: seq<Performed<S, E, A>>)

  /**
   One step of the world around a machine: another thread works on the queue, or the event loop
   processes the next event. `reaction` is what happens to the queue while its action runs: the pushes
   of the action, mixed with what other threads do.
   */
  datatype Input<E, G> = Other(op: Op<E>) | Process(held: set<G>, reaction: seq<Op<E>>)

  /** Operations on the queue by anybody but the event loop, which alone pulls. */
  function Meanwhile<E>(queue: QueueState<E>, maxSize: nat, ops: seq<Op<E>>): QueueState<E>
    decreases |ops|
  {
    if ops == [] then queue
    else
      var before := Meanwhile(queue, maxSize, ops[..|ops| - 1]);
      if ops[|ops| - 1].Pull? then before else Step(before, maxSize, ops[|ops| - 1])
  }

  /** The operations that are not pulls. */
  function WithoutPulls<E>(ops: seq<Op<E>>): (r: seq<Op<E>>)
    ensures forall op :: op in r ==> !op.Pull?
    ensures (forall op :: op in ops ==> !op.Pull?) ==> r == ops
    ensures |r| + Pulls(ops) == |ops|
    decreases |ops|
  {
    if ops == [] then []
    else
      var before, op := WithoutPulls(ops[..|ops| - 1]), ops[|ops| - 1];
      assert op in ops && forall o :: o in ops[..|ops| - 1] ==> o in ops;
      if op.Pull? then before else before + [op]
  }

  /** What happens meanwhile is a run of the queue: every push and reset counts, and nothing else. */
  lemma {:induction false} MeanwhileIsARun<E>(queue: QueueState<E>, maxSize: nat, ops: seq<Op<E>>)
    ensures Meanwhile(queue, maxSize, ops) == Run(queue, maxSize, WithoutPulls(ops))
    decreases |ops|
  {
    if ops != [] {
      var before, op := ops[..|ops| - 1], ops[|ops| - 1];
      MeanwhileIsARun(queue, maxSize, before);
      if !op.Pull? {
        assert WithoutPulls(ops)[..|WithoutPulls(before)|] == WithoutPulls(before);
      }
    }
  }

  /** The events an action pushes stand in the queue after it, behind what was there, as far as they fit. */
  lemma PushesOfAnAction<E>(queue: QueueState<E>, maxSize: nat, events: seq<E>)
    requires maxSize >= 1 ==> |queue.queue| < maxSize
    ensures var fitting := events[..Fitting(|queue.queue|, maxSize, |events|)];
            Meanwhile(queue, maxSize, Pushes(events))
            == QueueState(queue.queue + fitting, queue.accepted + fitting, queue.gone)
  {
    var ops := Pushes(events);
    forall op | op in ops ensures !op.Pull? {
      var i :| 0 <= i < |ops| && ops[i] == op;
    }
    MeanwhileIsARun(queue, maxSize, ops);
    PushesFillTheQueue(queue, maxSize, events);
  }

  /**
   An event without a transition is consumed and changes nothing: the source logs it as fatal and
   stops only in builds with assertions.
   */
  function StepMachine<S(==), E(==), A, G(==)>(
      table: seq<Transition<S, E, A, G>>, maxSize: nat, m: Machine<S, E, A, G>, input: Input<E, G>)
    : Machine<S, E, A, G>
  {
    match input
    case Other(Pull) => m // only the event loop pulls
    case Other(op) => m.(queue := Step(m.queue, maxSize, op))
    case Process(held, reaction) =>
      if m.queue.queue == [] then m
      else
        var event := m.queue.queue[0];
        var pulled := m.(queue := Step(m.queue, maxSize, Pull), taken := m.taken + [Taken(event, held)]);
        match Choose(table, m.state, event, held)
        case None => pulled
        case Some(t) =>
          if t.action.None? then pulled.(state := t.next)
          else Machine(t.next, Meanwhile(pulled.queue, maxSize, reaction), pulled.taken,
                       m.performed + [Performed(t.action.value, event, t.next)])
  }

  /**
   What processing one event comes to. In particular the events that its action pushes stand in the
   queue afterwards, behind those that were waiting, as far as they fit.
   */
  lemma OutcomeOfProcessing<S, E, A, G>(
      table: seq<Transition<S, E, A, G>>, maxSize: nat, m: Machine<S, E, A, G>, held: set<G>, reaction: seq<Op<E>>)
    requires Conserved(m.queue, maxSize) && m.queue.queue != []
    ensures var m' := StepMachine(table, maxSize, m, Process(held, reaction));
            var event, waiting := m.queue.queue[0], m.queue.queue[1..];
            && m'.taken == m.taken + [Taken(event, held)]
            && match Choose(table, m.state, event, held)
               case None => m'.state == m.state && m'.queue.queue == waiting && m'.performed == m.performed
               case Some(t) =>
                 && m'.state == t.next
                 && (t.action.None? ==> m'.queue.queue == waiting && m'.performed == m.performed)
                 && (t.action.Some? ==>
                      && m'.performed == m.performed + [Performed(t.action.value, event, t.next)]
                      && forall events :: reaction == Pushes(events) ==>
                           m'.queue.queue == waiting + events[..Fitting(|waiting|, maxSize, |events|)])
  {
    var pulled := Step(m.queue, maxSize, Pull);
    forall events | reaction == Pushes(events) {
      PushesOfAnAction(pulled, maxSize, events);
    }
  }

  function RunMachine<S(==), E(==), A, G(==)>(
      table: seq<Transition<S, E, A, G>>, maxSize: nat, m: Machine<S, E, A, G>, inputs: seq<Input<E, G>>)
    : Machine<S, E, A, G>
    decreases |inputs|
  {
    if inputs == [] then m
    else StepMachine(table, maxSize, RunMachine(table, maxSize, m, inputs[..|inputs| - 1]), inputs[|inputs| - 1])
  }

  function Initial<S, E, A, G>(start: S): Machine<S, E, A, G> {
    Machine(start, EmptyQueue(), [], [])
  }

  function TakenEvents<E, G>(taken: seq<Taken<E, G>>): (events: seq<E>)
    ensures |events| == |taken|
  {
    seq(|taken|, i requires 0 <= i < |taken| => taken[i].event)
  }

  /** State and actions are the fold of the consumed events, which are the queue's consumed events. */
  ghost predicate RunToCompletion<S, E, A, G>(
      table: seq<Transition<S, E, A, G>>, maxSize: nat, start: S, m: Machine<S, E, A, G>)
  {
    && m.state == FoldState(table, start, m.taken)
    && m.performed == FoldActions(table, start, m.taken)
    && TakenEvents(m.taken) == ConsumedEvents(m.queue.gone)
    && Conserved(m.queue, maxSize)
  }

  lemma {:induction false} DroppedAreNotConsumed<E>(gone: seq<Departure<E>>, queue: seq<E>)
    ensures ConsumedEvents(gone + AllDropped(queue)) == ConsumedEvents(gone)
    decreases |queue|
  {
    if queue == [] {
      assert gone + AllDropped(queue) == gone;
    } else {
      var before := queue[..|queue| - 1];
      var all := gone + AllDropped(queue);
      assert all[..|all| - 1] == gone + AllDropped(before);
      assert all[|all| - 1].Dropped?;
      DroppedAreNotConsumed(gone, before);
    }
  }

  /** Without the event loop nothing is consumed, and nothing is lost. */
  lemma {:induction false} MeanwhileConsumesNothing<E>(queue: QueueState<E>, maxSize: nat, ops: seq<Op<E>>)
    requires Conserved(queue, maxSize)
    ensures Conserved(Meanwhile(queue, maxSize, ops), maxSize)
    ensures ConsumedEvents(Meanwhile(queue, maxSize, ops).gone) == ConsumedEvents(queue.gone)
    decreases |ops|
  {
    if ops != [] {
      var before, op := Meanwhile(queue, maxSize, ops[..|ops| - 1]), ops[|ops| - 1];
      MeanwhileConsumesNothing(queue, maxSize, ops[..|ops| - 1]);
      StepConserves(before, maxSize, op);
      if op.Reset? { DroppedAreNotConsumed(before.gone, before.queue); }
    }
  }

  lemma ConsumedAppend<E>(gone: seq<Departure<E>>, event: E)
    ensures ConsumedEvents(gone + [Consumed(event)]) == ConsumedEvents(gone) + [event]
  {
    assert (gone + [Consumed(event)])[..|gone|] == gone;
  }

  lemma FoldAppend<S, E, A, G>(
      table: seq<Transition<S, E, A, G>>, start: S, taken: seq<Taken<E, G>>, last: Taken<E, G>)
    ensures var state := FoldState(table, start, taken);
            var chosen := Choose(table, state, last.event, last.held);
            && FoldState(table, start, taken + [last]) == (if chosen.Some? then chosen.value.next else state)
            && FoldActions(table, start, taken + [last]) == FoldActions(table, start, taken) +
               (if chosen.Some? && chosen.value.action.Some?
                then [Performed(chosen.value.action.value, last.event, chosen.value.next)] else [])
  {
    assert (taken + [last])[..|taken|] == taken;
  }

  lemma ProcessRunsToCompletion<S, E, A, G>(
      table: seq<Transition<S, E, A, G>>, maxSize: nat, start: S, m: Machine<S, E, A, G>,
      held: set<G>, reaction: seq<Op<E>>)
    requires RunToCompletion(table, maxSize, start, m) && m.queue.queue != []
    ensures RunToCompletion(table, maxSize, start, StepMachine(table, maxSize, m, Process(held, reaction)))
  {
    var event := m.queue.queue[0];
    var taken := m.taken + [Taken(event, held)];
    FoldAppend(table, start, m.taken, Taken(event, held));
    assert TakenEvents(taken) == TakenEvents(m.taken) + [event];
    var pulled := Step(m.queue, maxSize, Pull);
    StepConserves(m.queue, maxSize, Pull);
    ConsumedAppend(m.queue.gone, event);
    MeanwhileConsumesNothing(pulled, maxSize, reaction);
    var m' := StepMachine(table, maxSize, m, Process(held, reaction));
    assert m'.taken == taken;
    assert ConsumedEvents(m'.queue.gone) == TakenEvents(taken);
  }

  lemma StepRunsToCompletion<S, E, A, G>(
      table: seq<Transition<S, E, A, G>>, maxSize: nat, start: S, m: Machine<S, E, A, G>, input: Input<E, G>)
    requires RunToCompletion(table, maxSize, start, m)
    ensures RunToCompletion(table, maxSize, start, StepMachine(table, maxSize, m, input))
  {
    match input
    case Other(op) =>
      StepConserves(m.queue, maxSize, op);
      if op.Reset? { DroppedAreNotConsumed(m.queue.gone, m.queue.queue); }
    case Process(held, reaction) =>
      if m.queue.queue != [] { ProcessRunsToCompletion(table, maxSize, start, m, held, reaction); }
  }

  /**
   Main result: in every run, with any pushes and resets by other threads, also during actions, and
   any pushes by the actions themselves, the machine is exactly where the fold of the consumed
   events puts it, has run exactly the actions of that fold, and no accepted event was lost or
   reordered.
   */
  lemma {:induction false} EveryRunIsTheFold<S, E, A, G>(
      table: seq<Transition<S, E, A, G>>, maxSize: nat, start: S, inputs: seq<Input<E, G>>)
    ensures RunToCompletion(table, maxSize, start, RunMachine(table, maxSize, Initial(start), inputs))
    decreases |inputs|
  {
    if inputs == [] {
      var m: Machine<S, E, A, G> := Initial(start);
      assert TakenEvents(m.taken) == [] == ConsumedEvents(m.queue.gone);
      assert m.queue.accepted == Events(m.queue.gone) + m.queue.queue;
    } else {
      EveryRunIsTheFold(table, maxSize, start, inputs[..|inputs| - 1]);
      StepRunsToCompletion(table, maxSize, start,
        RunMachine(table, maxSize, Initial(start), inputs[..|inputs| - 1]), inputs[|inputs| - 1]);
    }
  }

  /** What one call of `processNextEvent` did. */
  datatype Verdict = NoEvent | Handled | Unhandled

  class StateMachine<S(==), E(==), A, G(==)> {
    const transitions: seq<Transition<S, E, A, G>>
    const eventQueue: EventQueue<E>
    var state: S
    ghost var taken: seq<Taken<E, G>>
    ghost var performed: seq<Performed<S, E, A>>

    ghost function Model(): Machine<S, E, A, G>
      reads this, eventQueue
    {
      Machine(state, eventQueue.State(), taken, performed)
    }

    ghost predicate Valid()
      reads this, eventQueue
    {
      eventQueue.Valid()
    }

    constructor (initState: S, table: seq<Transition<S, E, A, G>>)
      ensures Valid() && fresh(eventQueue)
      ensures transitions == table && eventQueue.maxSize == DEFAULT_QUEUE_SIZE
      ensures Model() == Initial(initState)
    {
      state, transitions := initState, table;
      eventQueue := new EventQueue();
      taken, performed := [], [];
    }

    method Push(event: E) returns (ok: bool)
      requires Valid()
      modifies eventQueue
      ensures Valid()
      ensures Model() == StepMachine(transitions, eventQueue.maxSize, old(Model()), Other(Op.Push(event)))
      ensures ok <==> eventQueue.maxSize == 0 || |old(eventQueue.queue)| + 1 < eventQueue.maxSize
      ensures eventQueue.queue == old(eventQueue.queue) + if ok then [event] else []
      ensures eventQueue.accepted == old(eventQueue.accepted) + if ok then [event] else []
    {
      ok := eventQueue.Push(event);
    }

    method Reset()
      requires Valid()
      modifies eventQueue
      ensures Valid()
      ensures Model() == StepMachine(transitions, eventQueue.maxSize, old(Model()), Other(Op.Reset))
      ensures eventQueue.queue == [] && eventQueue.accepted == old(eventQueue.accepted)
    {
      eventQueue.Reset();
    }

    /** Processes one event; `reaction` happens to the queue during its action, `held` are the guards that are true. */
    method ProcessNextEvent(held: set<G>, reaction: seq<Op<E>>) returns (verdict: Verdict)
      requires Valid()
      modifies this, eventQueue
      ensures Valid()
      ensures Model() == StepMachine(transitions, eventQueue.maxSize, old(Model()), Process(held, reaction))
      ensures verdict == NoEvent <==> old(eventQueue.queue) == []
      ensures verdict == Unhandled <==>
                old(eventQueue.queue) != [] &&
                Choose(transitions, old(state), old(eventQueue.queue[0]), held).None?
      ensures verdict == NoEvent ==> Model() == old(Model())
      ensures verdict == Unhandled ==>
                state == old(state) && eventQueue.queue == old(eventQueue.queue[1..]) && performed == old(performed)
      ensures verdict == Handled ==>
                var t := Choose(transitions, old(state), old(eventQueue.queue[0]), held).value;
                && state == t.next
                && (t.action.None? ==> eventQueue.queue == old(eventQueue.queue[1..]) && performed == old(performed))
                && (t.action.Some? ==>
                      performed == old(performed) + [Performed(t.action.value, old(eventQueue.queue[0]), t.next)])
                && forall events :: reaction == Pushes(events) && t.action.Some? ==>
                     eventQueue.queue == old(eventQueue.queue[1..]) +
                       events[..Fitting(|old(eventQueue.queue)| - 1, eventQueue.maxSize, |events|)]
    {
      var pulled := eventQueue.Pull([]);
      if pulled.None? {
        return NoEvent;
      }
      taken := taken + [Taken(pulled.value, held)];
      ghost var before := old(Model());
      var ok := ProcessEvent(pulled.value, held, reaction);
      verdict := if ok then Handled else Unhandled;
      OutcomeOfProcessing(transitions, eventQueue.maxSize, before, held, reaction);
    }

    method ProcessEvent(event: E, held: set<G>, reaction: seq<Op<E>>) returns (ok: bool)
      requires Valid()
      modifies this, eventQueue
      ensures Valid() && taken == old(taken)
      ensures ok <==> Choose(transitions, old(state), event, held).Some?
      ensures match Choose(transitions, old(state), event, held)
              case None => Model() == old(Model())
              case Some(t) =>
                && state == t.next
                && eventQueue.State() ==
                   (if t.action.Some? then Meanwhile(old(eventQueue.State()), eventQueue.maxSize, reaction)
                    else old(eventQueue.State()))
                && performed == old(performed) +
                   (if t.action.Some? then [Performed(t.action.value, event, t.next)] else [])
    {
      var ti := FindTransition(transitions, state, event, held);
      if ti.None? {
        return false;
      }
      var t := transitions[ti.value];
      state := t.next;
      if t.action.Some? {
        performed := performed + [Performed(t.action.value, event, state)];
        Act(reaction);
      }
      return true;
    }

    /** The part of an action the machine can see: what happens to the queue before the next event is pulled. */
    method Act(reaction: seq<Op<E>>)
      requires Valid()
      modifies eventQueue
      ensures Valid()
      ensures eventQueue.State() == Meanwhile(old(eventQueue.State()), eventQueue.maxSize, reaction)
    {
      for i := 0 to |reaction|
        invariant Valid()
        invariant eventQueue.State() == Meanwhile(old(eventQueue.State()), eventQueue.maxSize, reaction[..i])
      {
        assert reaction[..i + 1][..i] == reaction[..i];
        match reaction[i] {
          case Push(e) => var _ := eventQueue.Push(e);
          case Pull =>
          case Reset => eventQueue.Reset();
        }
      }
      assert reaction[..|reaction|] == reaction;
    }
  }
}
