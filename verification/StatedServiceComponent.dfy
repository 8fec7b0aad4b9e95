/**
 How a component turns a received message into an event, and its event loop
 (libs/ServiceComponent/include/ServiceComponent/StatedServiceComponent.hpp).
 */
module StatedServiceComponents {
  import opened EventQueues
  import opened Messages

  /** `handleEventMessage`: the answer says whether the event was accepted. */
  method HandleEventMessage<E>(queue: EventQueue<E>, message: Message, event: E) returns (response: Response)
    requires queue.Valid()
    modifies queue
    ensures queue.Valid()
    ensures queue.State() == Step(old(queue.State()), queue.maxSize, Push(event))
    ensures queue.queue == old(queue.queue) || queue.queue == old(queue.queue) + [event]
    ensures response == (if queue.queue == old(queue.queue) + [event] then Response(message.header, Success, "", "")
                         else Response(message.header, UnsupportedRequest, "null", UNSUPPORTED_REASON))
    ensures response.result == Success <==> queue.maxSize == 0 || |old(queue.queue)| + 1 < queue.maxSize
  {
    var ok := queue.Push(event);
    if ok {
      response := CreateResponse(message);
    } else {
      response := CreateErrorResponse(message, UnsupportedRequest);
      UnsupportedResponse(message);
    }
  }

  // ---------------------------------------------------------------------------------------------
  // The event loop and its stop

  /**
   Where the loop thread is: about to test the run flag, past the test and about to take the queue's
   mutex, blocked in the wait on an empty queue, or finished.
   */
  datatype Position = Testing | Pulling | Waiting | Finished

  /** How far `stop` has come: not called, run flag cleared, queue reset and the loop notified. */
  datatype Stopping = NotStopped | FlagCleared | QueueReset

  /** `taken` counts the events handed to the state machine. */
  datatype Loop = Loop(at: Position, stopping: Stopping, queued: nat, taken: nat)

  /** One atomic step: of the loop thread, of the stopping thread, or of a thread that pushes. */
  datatype LoopStep = Advance | StopStep | PushOne

  function Next(l: Loop, step: LoopStep): Loop {
    match step
    case Advance =>
      (match l.at
       case Testing => l.(at := if l.stopping == NotStopped then Pulling else Finished)
       case Pulling => if l.queued > 0 then Take(l) else l.(at := Waiting)
       case Waiting => l // blocked until notified
       case Finished => l)
    case StopStep =>
      (match l.stopping
       case NotStopped => l.(stopping := FlagCleared)
       case FlagCleared => Notified(l.(stopping := QueueReset, queued := 0))
       case QueueReset => l)
    case PushOne => Notified(l.(queued := l.queued + 1))
  }

  function Take(l: Loop): Loop
    requires l.queued > 0
  {
    l.(at := Testing, queued := l.queued - 1, taken := l.taken + 1)
  }

  /** A notification ends the wait; the woken pull takes an event if there is one, and returns either way. */
  function Notified(l: Loop): Loop {
    if l.at != Waiting then l else if l.queued > 0 then Take(l) else l.(at := Testing)
  }

  function RunLoop(l: Loop, steps: seq<LoopStep>): Loop
    decreases |steps|
  {
    if steps == [] then l else Next(RunLoop(l, steps[..|steps| - 1]), steps[|steps| - 1])
  }

  /** Reachable from a started loop: a wait never stands on a non-empty queue. */
  ghost predicate LoopInvariant(l: Loop) {
    && (l.at == Waiting ==> l.queued == 0)
    && (l.at == Finished ==> l.stopping != NotStopped)
  }

  lemma {:induction false} LoopKeepsInvariant(l: Loop, steps: seq<LoopStep>)
    requires LoopInvariant(l)
    ensures LoopInvariant(RunLoop(l, steps))
    decreases |steps|
  {
    if steps != [] { LoopKeepsInvariant(l, steps[..|steps| - 1]); }
  }

  function Advances(n: nat): (r: seq<LoopStep>)
    ensures |r| == n
  {
    seq(n, _ => Advance)
  }

  lemma {:induction false} StuckForever(l: Loop, n: nat)
    requires l.at == Waiting
    ensures RunLoop(l, Advances(n)) == l
  {
    if n > 0 {
      assert Advances(n)[..n - 1] == Advances(n - 1);
      StuckForever(l, n - 1);
    }
  }

  /**
   Once `stop` has reset the queue, the loop thread left to itself reaches its end iff the reset did
   not fall between its test of the run flag and its wait: then the notification is lost, and the
   thread waits on an empty queue for a push that may never come.
   */
  lemma StopEndsTheLoopIff(l: Loop)
    requires LoopInvariant(l) && l.stopping == FlagCleared
    ensures var reset := Next(l, StopStep);
            && (l.at != Pulling ==> RunLoop(reset, Advances(1)).at == Finished)
            && (l.at == Pulling ==> forall n: nat :: RunLoop(reset, Advances(n)).at != Finished)
  {
    var reset := Next(l, StopStep);
    assert Advances(1)[..0] == [];
    if l.at == Pulling {
      var waiting := Next(reset, Advance);
      forall n: nat ensures RunLoop(reset, Advances(n)).at != Finished {
        if n > 0 {
          FirstAdvance(reset, n);
          StuckForever(waiting, n - 1);
        }
      }
    }
  }

  function PushCount(steps: seq<LoopStep>): nat
    decreases |steps|
  {
    if steps == [] then 0
    else PushCount(steps[..|steps| - 1]) + if steps[|steps| - 1] == PushOne then 1 else 0
  }

  /** Until the queue is reset, every event pushed is waiting or was taken, once. */
  lemma {:induction false} EveryEventIsTakenOnce(l: Loop, steps: seq<LoopStep>)
    requires l.stopping == NotStopped
    ensures var l' := RunLoop(l, steps);
            l'.stopping != QueueReset ==> l'.taken + l'.queued == l.taken + l.queued + PushCount(steps)
    decreases |steps|
  {
    if steps != [] { EveryEventIsTakenOnce(l, steps[..|steps| - 1]); }
  }

  /** Left to itself the loop of a component that is not stopped takes every waiting event, and then waits. */
  lemma {:induction false} LoopDrainsTheQueue(l: Loop)
    requires LoopInvariant(l) && l.stopping == NotStopped
    ensures RunLoop(l, Advances(2 * l.queued + 2)) == Loop(Waiting, NotStopped, 0, l.taken + l.queued)
    decreases l.queued
  {
    var n, next := 2 * l.queued + 2, Next(Next(l, Advance), Advance);
    FirstAdvance(l, n);
    FirstAdvance(Next(l, Advance), n - 1);
    if l.queued > 0 {
      LoopDrainsTheQueue(next);
    } else {
      assert RunLoop(next, Advances(0)) == next;
    }
  }

  /** A push wakes a waiting loop, which takes its event. */
  lemma PushWakesTheLoop(l: Loop)
    requires LoopInvariant(l) && l.at == Waiting
    ensures Next(l, PushOne) == Loop(Testing, l.stopping, 0, l.taken + 1)
  {
  }

  /** A started loop can be there: it tests the flag, which is cleared, the queue is reset, and only then it waits. */
  lemma StopCanLoseTheWakeUp(n: nat)
    ensures RunLoop(Loop(Testing, NotStopped, 0, 0), [Advance, StopStep]) == Loop(Pulling, FlagCleared, 0, 0)
    ensures RunLoop(Loop(Testing, NotStopped, 0, 0), [Advance, StopStep, StopStep] + Advances(n)).at != Finished
  {
    var start, steps := Loop(Testing, NotStopped, 0, 0), [Advance, StopStep];
    assert steps[..1] == [Advance] && [Advance][..0] == [];
    assert [Advance, StopStep, StopStep][..2] == steps;
    RunsOn(start, [Advance, StopStep, StopStep], n);
    StopEndsTheLoopIff(RunLoop(start, steps));
  }

  lemma {:induction false} RunsOn(l: Loop, steps: seq<LoopStep>, n: nat)
    ensures RunLoop(l, steps + Advances(n)) == RunLoop(RunLoop(l, steps), Advances(n))
  {
    if n == 0 {
      assert steps + Advances(0) == steps;
    } else {
      assert Advances(n)[..n - 1] == Advances(n - 1);
      assert (steps + Advances(n))[..|steps| + n - 1] == steps + Advances(n - 1);
      RunsOn(l, steps, n - 1);
    }
  }

  lemma {:induction false} FirstAdvance(l: Loop, n: nat)
    requires n > 0
    ensures RunLoop(l, Advances(n)) == RunLoop(Next(l, Advance), Advances(n - 1))
  {
    if n == 1 {
      assert Advances(1)[..0] == [];
    } else {
      assert Advances(n)[..n - 1] == Advances(n - 1);
      assert Advances(n - 1)[..n - 2] == Advances(n - 2);
      FirstAdvance(l, n - 1);
    }
  }
}
