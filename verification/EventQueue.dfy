/**
 The bounded FIFO queue between the threads of a component
 (libs/ServiceComponent/include/ServiceComponent/EventQueue.hpp).

 `QueueState` is the queue together with its history: which events were ever accepted, and
 which of them have left the queue, and how. The class keeps that history as ghost state.
 */
module EventQueues {
  import opened Options

  /** How an event left the queue: handed to a consumer, or thrown away by a reset. */
  datatype Departure<+E> = Consumed(event: E) | Dropped(event: E)

  /** One atomic operation, made under the queue's mutex by any thread. */
  datatype Op<+E> = Push(event: E) | Pull | Reset

  datatype QueueState<+E> = QueueState(queue: seq<E>, accepted: seq<E>, gone: seq<Departure<E>>)

  const DEFAULT_QUEUE_SIZE: nat := 10

  /** The test of `push`: it refuses when one more element would make the size equal to maxSize. */
  predicate HasRoom<E>(queue: seq<E>, maxSize: nat) {
    |queue| + 1 != maxSize
  }

  function AllDropped<E>(queue: seq<E>): seq<Departure<E>> {
    seq(|queue|, i requires 0 <= i < |queue| => Dropped(queue[i]))
  }

  function Step<E>(st: QueueState<E>, maxSize: nat, op: Op<E>): QueueState<E> {
    match op
    case Push(e) =>
      if HasRoom(st.queue, maxSize) then st.(queue := st.queue + [e], accepted := st.accepted + [e]) else st
    case Pull =>
      if st.queue == [] then st else st.(queue := st.queue[1..], gone := st.gone + [Consumed(st.queue[0])])
    case Reset =>
      st.(queue := [], gone := st.gone + AllDropped(st.queue))
  }

  function Run<E>(st: QueueState<E>, maxSize: nat, ops: seq<Op<E>>): QueueState<E>
    decreases |ops|
  {
    if ops == [] then st else Step(Run(st, maxSize, ops[..|ops| - 1]), maxSize, ops[|ops| - 1])
  }

  function EmptyQueue<E>(): QueueState<E> {
    QueueState([], [], [])
  }

  function Events<E>(gone: seq<Departure<E>>): (events: seq<E>)
    ensures |events| == |gone|
  {
    seq(|gone|, i requires 0 <= i < |gone| => gone[i].event)
  }

  /** The events handed to consumers, in order. */
  function ConsumedEvents<E>(gone: seq<Departure<E>>): seq<E> {
    if gone == [] then []
    else
      var before := ConsumedEvents(gone[..|gone| - 1]);
      var last := gone[|gone| - 1];
      if last.Consumed? then before + [last.event] else before
  }

  /** Conservation and the capacity bound. */
  ghost predicate Conserved<E>(st: QueueState<E>, maxSize: nat) {
    && st.accepted == Events(st.gone) + st.queue
    && (maxSize >= 1 ==> |st.queue| <= maxSize - 1)
  }

  lemma StepConserves<E>(st: QueueState<E>, maxSize: nat, op: Op<E>)
    requires Conserved(st, maxSize)
    ensures Conserved(Step(st, maxSize, op), maxSize)
  {
    var st' := Step(st, maxSize, op);
    match op
    case Push(e) =>
      assert HasRoom(st.queue, maxSize) ==> st'.accepted == Events(st.gone) + (st.queue + [e]);
    case Pull =>
      if st.queue != [] {
        assert Events(st'.gone) == Events(st.gone) + [st.queue[0]];
        assert st.queue == [st.queue[0]] + st.queue[1..];
      }
    case Reset =>
      assert Events(st'.gone) == Events(st.gone) + st.queue;
  }

  /** In every run, whatever the interleaving, nothing accepted is lost, doubled or overtaken. */
  lemma {:induction false} RunConserves<E>(maxSize: nat, ops: seq<Op<E>>)
    ensures Conserved(Run(EmptyQueue(), maxSize, ops), maxSize)
    decreases |ops|
  {
    if ops != [] {
      RunConserves(maxSize, ops[..|ops| - 1]);
      StepConserves(Run(EmptyQueue(), maxSize, ops[..|ops| - 1]), maxSize, ops[|ops| - 1]);
    } else {
      assert Run<E>(EmptyQueue(), maxSize, ops) == EmptyQueue();
      assert Events<E>([]) + [] == [];
    }
  }

  /** With a positive size the queue can be filled to maxSize - 1 and no further; size 0 means unbounded. */
  lemma {:induction false} CapacityIsOneLess<E>(maxSize: nat, n: nat, e: E)
    ensures |Run(EmptyQueue(), maxSize, seq(n, _ => Push(e))).queue|
         == if maxSize >= 1 && n >= maxSize - 1 then maxSize - 1 else n
    decreases n
  {
    var ops := seq(n, _ => Push(e));
    if n > 0 {
      assert ops[..n - 1] == seq(n - 1, _ => Push(e));
      CapacityIsOneLess(maxSize, n - 1, e);
    }
  }

  /** The operations that push these events one after the other. */
  function Pushes<E>(events: seq<E>): (ops: seq<Op<E>>)
    ensures |ops| == |events|
    ensures forall i :: 0 <= i < |ops| ==> ops[i] == Push(events[i])
  {
    seq(|events|, i requires 0 <= i < |events| => Push(events[i]))
  }

  /** How many of a number of events a queue that holds `size` can still take. */
  function Fitting(size: nat, maxSize: nat, count: nat): (n: nat)
    requires maxSize >= 1 ==> size < maxSize
    ensures n <= count
    ensures n == count <==> maxSize == 0 || size + count < maxSize
    ensures n < count ==> size + n == maxSize - 1
  {
    if maxSize == 0 || size + count < maxSize then count else maxSize - 1 - size
  }

  /** Of any events pushed in a row exactly those that fit are accepted: the first ones, in order. */
  lemma {:induction false} PushesFillTheQueue<E>(st: QueueState<E>, maxSize: nat, events: seq<E>)
    requires maxSize >= 1 ==> |st.queue| < maxSize
    ensures var fitting := events[..Fitting(|st.queue|, maxSize, |events|)];
            Run(st, maxSize, Pushes(events)) == QueueState(st.queue + fitting, st.accepted + fitting, st.gone)
    decreases |events|
  {
    var n := |events| - 1;
    if events == [] {
      assert st.queue + [] == st.queue && st.accepted + [] == st.accepted;
    } else {
      assert Pushes(events)[..n] == Pushes(events[..n]);
      PushesFillTheQueue(st, maxSize, events[..n]);
      var k := Fitting(|st.queue|, maxSize, n);
      assert events[..n][..k] == events[..k];
      if k == n { assert events[..n + 1] == events[..n] + [events[n]]; }
    }
  }

  lemma {:induction false} RunAppend<E>(st: QueueState<E>, maxSize: nat, a: seq<Op<E>>, b: seq<Op<E>>)
    ensures Run(st, maxSize, a + b) == Run(Run(st, maxSize, a), maxSize, b)
    decreases |b|
  {
    if b == [] {
      assert a + b == a;
    } else {
      assert (a + b)[..|a + b| - 1] == a + b[..|b| - 1];
      RunAppend(st, maxSize, a, b[..|b| - 1]);
    }
  }

  /** After a reset only what is pushed later is in the queue, as far as it fits. */
  lemma ResetForgets<E>(st: QueueState<E>, maxSize: nat, before: seq<Op<E>>, events: seq<E>)
    ensures Run(st, maxSize, before + [Op.Reset] + Pushes(events)).queue == events[..Fitting(0, maxSize, |events|)]
  {
    RunAppend(st, maxSize, before + [Op.Reset], Pushes(events));
    assert (before + [Op.Reset])[..|before|] == before;
    var empty := Run(st, maxSize, before + [Op.Reset]);
    assert empty.queue == [];
    PushesFillTheQueue(empty, maxSize, events);
    assert [] + events[..Fitting(0, maxSize, |events|)] == events[..Fitting(0, maxSize, |events|)];
  }

  function Pulls<E>(ops: seq<Op<E>>): nat
    decreases |ops|
  {
    if ops == [] then 0 else Pulls(ops[..|ops| - 1]) + if ops[|ops| - 1].Pull? then 1 else 0
  }

  /**
   Without a reset, the next `Pulls(ops)` events taken out are the ones that stood in the queue,
   in their order, no matter what is pushed meanwhile.
   */
  lemma {:induction false} FirstInFirstOut<E>(st: QueueState<E>, maxSize: nat, ops: seq<Op<E>>)
    requires Reset !in ops
    requires Pulls(ops) <= |st.queue|
    ensures st.queue[Pulls(ops)..] <= Run(st, maxSize, ops).queue
    ensures Events(Run(st, maxSize, ops).gone) == Events(st.gone) + st.queue[..Pulls(ops)]
    decreases |ops|
  {
    if ops == [] {
      assert st.queue[..0] == [];
    } else {
      var before, op := ops[..|ops| - 1], ops[|ops| - 1];
      assert op in ops;
      assert forall o :: o in before ==> o in ops;
      FirstInFirstOut(st, maxSize, before);
      var mid := Run(st, maxSize, before);
      var k := Pulls(before);
      match op
      case Push(e) =>
      case Reset =>
      case Pull =>
        assert mid.queue[0] == st.queue[k..][0] == st.queue[k];
        var after := Step(mid, maxSize, op);
        assert Events(after.gone) == Events(mid.gone) + [st.queue[k]];
        assert st.queue[..k + 1] == st.queue[..k] + [st.queue[k]];
        assert st.queue[k + 1..] == st.queue[k..][1..];
    }
  }

  // ---------------------------------------------------------------------------------------------
  // A queue of the default size

  /** Pushes made one after the other. */
  function Pushed<E>(queue: QueueState<E>, events: seq<E>): QueueState<E>
    decreases |events|
  {
    if events == [] then queue
    else Step(Pushed(queue, events[..|events| - 1]), DEFAULT_QUEUE_SIZE, Push(events[|events| - 1]))
  }

  function Popped<E>(queue: QueueState<E>): QueueState<E> {
    Step(queue, DEFAULT_QUEUE_SIZE, Pull)
  }

  lemma {:induction false} PushedContents<E>(queue: QueueState<E>, events: seq<E>, e: E)
    requires e !in events
    ensures e in Pushed(queue, events).queue <==> e in queue.queue
    decreases |events|
  {
    if events != [] {
      assert events[|events| - 1] in events;
      PushedContents(queue, events[..|events| - 1], e);
    }
  }

  lemma {:induction false} PushedIsARun<E>(queue: QueueState<E>, events: seq<E>)
    ensures Pushed(queue, events) == Run(queue, DEFAULT_QUEUE_SIZE, Pushes(events))
    decreases |events|
  {
    if events != [] {
      assert Pushes(events)[..|events| - 1] == Pushes(events[..|events| - 1]);
      PushedIsARun(queue, events[..|events| - 1]);
    }
  }

  /** The queue when events are pushed behind it: those that fit stand at its end. */
  function Behind<E>(queue: seq<E>, events: seq<E>): seq<E>
    requires |queue| < DEFAULT_QUEUE_SIZE
  {
    queue + events[..Fitting(|queue|, DEFAULT_QUEUE_SIZE, |events|)]
  }

  lemma PushedBehind<E>(queue: QueueState<E>, events: seq<E>)
    requires |queue.queue| < DEFAULT_QUEUE_SIZE
    ensures Pushed(queue, events).queue == Behind(queue.queue, events)
  {
    PushedIsARun(queue, events);
    PushesFillTheQueue(queue, DEFAULT_QUEUE_SIZE, events);
  }

  lemma PushedNothing<E>(queue: QueueState<E>)
    ensures Pushed(queue, []) == queue
  {
  }

  lemma PushOne<E>(queue: QueueState<E>, event: E)
    requires |queue.queue| < 9
    ensures Pushed(queue, [event]).queue == queue.queue + [event]
  {
    assert [event][..0] == [];
  }

  lemma PoppedContents<E>(queue: QueueState<E>, e: E)
    requires queue.queue != []
    ensures Popped(queue).queue == queue.queue[1..]
    ensures e in Popped(queue).queue ==> e in queue.queue
  {
  }

  class EventQueue<E> {
    const maxSize: nat
    var queue: seq<E>
    ghost var accepted: seq<E>
    ghost var gone: seq<Departure<E>>

    ghost function State(): QueueState<E>
      reads this
    {
      QueueState(queue, accepted, gone)
    }

    ghost predicate Valid()
      reads this
    {
      Conserved(State(), maxSize)
    }

    constructor (maxQueueSize: nat := DEFAULT_QUEUE_SIZE)
      ensures Valid() && State() == EmptyQueue() && maxSize == maxQueueSize
    {
      maxSize := maxQueueSize;
      queue, accepted, gone := [], [], [];
    }

    method Push(event: E) returns (ok: bool)
      requires Valid()
      modifies this
      ensures Valid()
      ensures State() == Step(old(State()), maxSize, Op.Push(event))
      ensures ok <==> maxSize == 0 || |old(queue)| + 1 < maxSize
      ensures queue == old(queue) + if ok then [event] else []
      ensures accepted == old(accepted) + if ok then [event] else []
      ensures gone == old(gone)
    {
      StepConserves(State(), maxSize, Op.Push(event));
      if maxSize == |queue| + 1 {
        return false;
      }
      queue := queue + [event];
      accepted := accepted + [event];
      return true;
    }

    /**
     Takes the oldest event. On an empty queue the caller waits; `duringWait` is what the other
     threads do to the queue until this one is woken, rightly or not.
     */
    method Pull(duringWait: seq<Op<E>>) returns (event: Option<E>)
      requires Valid()
      modifies this
      ensures Valid()
      ensures var woken := if old(queue) == [] then Run(old(State()), maxSize, duringWait) else old(State());
              && State() == Step(woken, maxSize, Op.Pull)
              && event == (if woken.queue == [] then None else Some(woken.queue[0]))
      ensures old(queue) != [] ==> event.Some? && old(queue) == [event.value] + queue
    {
      if |queue| == 0 {
        Interfere(duringWait);
        if |queue| == 0 {
          return None;
        }
      }
      var front := Pop();
      event := Some(front);
    }

    method Pop() returns (event: E)
      requires Valid() && queue != []
      modifies this
      ensures Valid()
      ensures State() == Step(old(State()), maxSize, Op.Pull)
      ensures old(queue) == [event] + queue
      ensures accepted == old(accepted) && gone == old(gone) + [Consumed(event)]
    {
      StepConserves(State(), maxSize, Op.Pull);
      event := queue[0];
      gone := gone + [Consumed(queue[0])];
      queue := queue[1..];
    }

    method Reset()
      requires Valid()
      modifies this
      ensures Valid()
      ensures State() == Step(old(State()), maxSize, Op.Reset)
      ensures queue == [] && accepted == old(accepted)
    {
      StepConserves(State(), maxSize, Op.Reset);
      gone := gone + AllDropped(queue);
      queue := [];
    }

    /** What other threads do while the mutex is free. */
    method Interfere(ops: seq<Op<E>>)
      requires Valid()
      modifies this
      ensures Valid()
      ensures State() == Run(old(State()), maxSize, ops)
    {
      for i := 0 to |ops|
        invariant Valid()
        invariant State() == Run(old(State()), maxSize, ops[..i])
      {
        assert ops[..i + 1][..i] == ops[..i];
        match ops[i] {
          case Push(e) => var _ := Push(e);
          case Pull =>
            if queue != [] { var _ := Pop(); }
          case Reset => Reset();
        }
      }
      assert ops[..|ops|] == ops;
    }
  }
}
