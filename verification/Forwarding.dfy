/**
 Requests forwarded through a chain of components
 (libs/ServiceComponent/include/ServiceComponent/ServiceComponent.hpp, `forward`, and
 libs/MessageBroker/src/MessageBroker.cpp, `send` and `processReceivedRequestMessage`).

 Component k of a chain receives the request; every component but the last forwards it, under
 another message id, to the next one, and the last one answers it itself.
 */
module Forwarding {
  import opened Messages

  /**
   What becomes of one `send`. Only some of these fill in the response: a failed connect, send or
   receive leaves it default-constructed, a response that cannot be parsed leaves `partial`, and a
   failed disconnect comes after the response was read.
   */
  datatype Outcome =
    | ConnectFails
    | NotSent
    | NoAnswer
    | Garbled(partial: Response)
    | DisconnectFails
    | Delivered

  /** The forwarding done by one component: the id it puts in, and what becomes of its send. */
  datatype Hop = Hop(targetId: nat, outcome: Outcome)

  /** The handler of the last component. */
  type Handler = Message -> Response

  predicate GetsThrough(outcome: Outcome) {
    outcome.DisconnectFails? || outcome.Delivered?
  }

  /** What `send` leaves in the response when the answer does not get through. */
  function Leftover(outcome: Outcome): Response {
    if outcome.Garbled? then outcome.partial else DEFAULT_RESPONSE
  }

  /** The message a hop puts on the wire: the id and the sequence number are new, the payload is not. */
  function Readdress(message: Message, targetId: nat, sequence: nat): Message {
    Message(Header(targetId, sequence), message.payload)
  }

  /**
   The response the first component of a chain sends. `registered[k]` are the ids component k has a
   handler for, `sequences[k]` the sequence number its broker will use next.
   */
  function Respond(
      registered: seq<set<nat>>, sequences: seq<nat>, hops: seq<Hop>, last: Handler, message: Message): Response
    requires |registered| == |sequences| == |hops| + 1
    decreases |hops|
  {
    if message.header.id !in registered[0] then CreateErrorResponse(message, UnsupportedRequest)
    else if hops == [] then ReferTo(last(message), message)
    else if GetsThrough(hops[0].outcome) then
      ReferTo(
        Respond(registered[1..], sequences[1..], hops[1..], last,
                Readdress(message, hops[0].targetId, sequences[0])), message)
    else ReferTo(Leftover(hops[0].outcome), message)
  }

  // ---------------------------------------------------------------------------------------------
  // What a requester gets, for chains of any length

  /** The request as component k receives it. */
  function Seen(sequences: seq<nat>, hops: seq<Hop>, message: Message, k: nat): Message
    requires k <= |hops| <= |sequences|
  {
    if k == 0 then message else Readdress(message, hops[k - 1].targetId, sequences[k - 1])
  }

  predicate Handles(registered: seq<set<nat>>, sequences: seq<nat>, hops: seq<Hop>, message: Message, k: nat)
    requires |registered| == |sequences| == |hops| + 1 && k <= |hops|
  {
    Seen(sequences, hops, message, k).header.id in registered[k]
  }

  /** The request gets past component k: it has a handler there, and its answer comes back. */
  predicate Passes(registered: seq<set<nat>>, sequences: seq<nat>, hops: seq<Hop>, message: Message, k: nat)
    requires |registered| == |sequences| == |hops| + 1 && k < |hops|
  {
    Handles(registered, sequences, hops, message, k) && GetsThrough(hops[k].outcome)
  }

  /** The answer made at the component where the request stops. */
  function AnswerAt(
      registered: seq<set<nat>>, sequences: seq<nat>, hops: seq<Hop>, last: Handler, message: Message, k: nat): Response
    requires |registered| == |sequences| == |hops| + 1 && k <= |hops|
  {
    var seen := Seen(sequences, hops, message, k);
    if !Handles(registered, sequences, hops, message, k) then CreateErrorResponse(seen, UnsupportedRequest)
    else if k == |hops| then last(seen)
    else Leftover(hops[k].outcome)
  }

  /**
   Main result. Whatever happens on the way, the response carries the header of the original request,
   although each hop overwrites both of its fields; and its result, error and payload are those made
   at the first component the request does not get past.
   */
  lemma {:induction false} ResponseOfChain(
      registered: seq<set<nat>>, sequences: seq<nat>, hops: seq<Hop>, last: Handler, message: Message, k: nat)
    requires |registered| == |sequences| == |hops| + 1 && k <= |hops|
    requires forall j :: 0 <= j < k ==> Passes(registered, sequences, hops, message, j)
    requires k < |hops| ==> !Passes(registered, sequences, hops, message, k)
    ensures Respond(registered, sequences, hops, last, message)
         == AnswerAt(registered, sequences, hops, last, message, k).(header := message.header)
    decreases |hops|
  {
    if k > 0 {
      var next := Readdress(message, hops[0].targetId, sequences[0]);
      assert Passes(registered, sequences, hops, message, 0);
      forall j | 0 <= j < |hops| ensures
        Seen(sequences[1..], hops[1..], next, j) == Seen(sequences, hops, message, j + 1)
      {
      }
      forall j | 0 <= j < k - 1 ensures Passes(registered[1..], sequences[1..], hops[1..], next, j) {
        assert Passes(registered, sequences, hops, message, j + 1);
      }
      ResponseOfChain(registered[1..], sequences[1..], hops[1..], last, next, k - 1);
    }
  }

  /** The first component from k on that the request does not get past. */
  function StopsAt(registered: seq<set<nat>>, sequences: seq<nat>, hops: seq<Hop>, message: Message, k: nat)
    : (stop: nat)
    requires |registered| == |sequences| == |hops| + 1 && k <= |hops|
    ensures k <= stop <= |hops|
    ensures forall j :: k <= j < stop ==> Passes(registered, sequences, hops, message, j)
    ensures stop < |hops| ==> !Passes(registered, sequences, hops, message, stop)
    decreases |hops| - k
  {
    if k == |hops| || !Passes(registered, sequences, hops, message, k) then k
    else StopsAt(registered, sequences, hops, message, k + 1)
  }

  lemma EveryChainAnswersOnce(
      registered: seq<set<nat>>, sequences: seq<nat>, hops: seq<Hop>, last: Handler, message: Message)
    requires |registered| == |sequences| == |hops| + 1
    ensures var stop := StopsAt(registered, sequences, hops, message, 0);
            Respond(registered, sequences, hops, last, message)
            == AnswerAt(registered, sequences, hops, last, message, stop).(header := message.header)
  {
    ResponseOfChain(registered, sequences, hops, last, message, StopsAt(registered, sequences, hops, message, 0));
  }

  // ---------------------------------------------------------------------------------------------
  // The same from the inputs alone

  /** A request gets past the first k components if they handle the ids it comes with and their sends get through. */
  lemma PassesOnInputs(registered: seq<set<nat>>, sequences: seq<nat>, hops: seq<Hop>, message: Message, k: nat)
    requires |registered| == |sequences| == |hops| + 1 && k <= |hops|
    requires k > 0 ==> message.header.id in registered[0]
    requires forall j :: 1 <= j < k ==> hops[j - 1].targetId in registered[j]
    requires forall j :: 0 <= j < k ==> hops[j].outcome.Delivered? || hops[j].outcome.DisconnectFails?
    ensures forall j :: 0 <= j < k ==> Passes(registered, sequences, hops, message, j)
  {
    forall j | 0 <= j < k ensures Passes(registered, sequences, hops, message, j) {
      assert Handles(registered, sequences, hops, message, j);
    }
  }

  /**
   Main result on delivery: if each component handles the id that the one before puts in, and every send
   gets through, the answer is that of the last handler to the original payload, under the id and the
   sequence number of the last hop.
   */
  lemma DeliveredAnswerIsTheLastHandlers(
      registered: seq<set<nat>>, sequences: seq<nat>, hops: seq<Hop>, last: Handler, message: Message)
    requires |registered| == |sequences| == |hops| + 1
    requires message.header.id in registered[0]
    requires forall k :: 1 <= k <= |hops| ==> hops[k - 1].targetId in registered[k]
    requires forall k :: 0 <= k < |hops| ==> hops[k].outcome.Delivered? || hops[k].outcome.DisconnectFails?
    ensures var n := |hops|;
            var received :=
              if n == 0 then message else Message(Header(hops[n - 1].targetId, sequences[n - 1]), message.payload);
            Respond(registered, sequences, hops, last, message) == last(received).(header := message.header)
  {
    PassesOnInputs(registered, sequences, hops, message, |hops|);
    assert Handles(registered, sequences, hops, message, |hops|);
    ResponseOfChain(registered, sequences, hops, last, message, |hops|);
  }

  /** If component k is the first one without a handler for the id it gets, the answer says so. */
  lemma UnhandledRequestIsAnswered(
      registered: seq<set<nat>>, sequences: seq<nat>, hops: seq<Hop>, last: Handler, message: Message, k: nat)
    requires |registered| == |sequences| == |hops| + 1 && k <= |hops|
    requires k > 0 ==> message.header.id in registered[0]
    requires forall j :: 1 <= j < k ==> hops[j - 1].targetId in registered[j]
    requires forall j :: 0 <= j < k ==> hops[j].outcome.Delivered? || hops[j].outcome.DisconnectFails?
    requires (if k == 0 then message.header.id else hops[k - 1].targetId) !in registered[k]
    ensures Respond(registered, sequences, hops, last, message)
         == Response(message.header, UnsupportedRequest, "null", UNSUPPORTED_REASON)
  {
    PassesOnInputs(registered, sequences, hops, message, k);
    assert !Handles(registered, sequences, hops, message, k);
    ResponseOfChain(registered, sequences, hops, last, message, k);
    UnsupportedResponse(Seen(sequences, hops, message, k));
  }

  /**
   If component k is the first one whose send does not get through, the answer is what could be parsed of
   a response, or else the very one for success.
   */
  lemma LostForwardIsAnswered(
      registered: seq<set<nat>>, sequences: seq<nat>, hops: seq<Hop>, last: Handler, message: Message, k: nat)
    requires |registered| == |sequences| == |hops| + 1 && k < |hops|
    requires message.header.id in registered[0]
    requires forall j :: 1 <= j <= k ==> hops[j - 1].targetId in registered[j]
    requires forall j :: 0 <= j < k ==> hops[j].outcome.Delivered? || hops[j].outcome.DisconnectFails?
    requires !hops[k].outcome.Delivered? && !hops[k].outcome.DisconnectFails?
    ensures Respond(registered, sequences, hops, last, message) ==
            if hops[k].outcome.Garbled? then hops[k].outcome.partial.(header := message.header)
            else Response(message.header, Success, "", "")
  {
    PassesOnInputs(registered, sequences, hops, message, k);
    assert Handles(registered, sequences, hops, message, k);
    ResponseOfChain(registered, sequences, hops, last, message, k);
  }

  /**
   "A request that could not be forwarded is answered with an error" is therefore false: it is exactly if
   the send ended with a response that cannot be parsed, and what was parsed of it already says so.
   */
  lemma LostForwardIsAnErrorIff(
      registered: seq<set<nat>>, sequences: seq<nat>, hops: seq<Hop>, last: Handler, message: Message, k: nat)
    requires |registered| == |sequences| == |hops| + 1 && k < |hops|
    requires message.header.id in registered[0]
    requires forall j :: 1 <= j <= k ==> hops[j - 1].targetId in registered[j]
    requires forall j :: 0 <= j < k ==> hops[j].outcome.Delivered? || hops[j].outcome.DisconnectFails?
    requires !hops[k].outcome.Delivered? && !hops[k].outcome.DisconnectFails?
    ensures Respond(registered, sequences, hops, last, message).result != Success <==>
            hops[k].outcome.Garbled? && hops[k].outcome.partial.result != Success
  {
    LostForwardIsAnswered(registered, sequences, hops, last, message, k);
  }

  /** If no response was read the requester cannot even tell: the answer is the very one for success. */
  lemma LostForwardLooksSuccessful(
      registered: seq<set<nat>>, sequences: seq<nat>, hops: seq<Hop>, last: Handler, message: Message, k: nat)
    requires |registered| == |sequences| == |hops| + 1 && k < |hops|
    requires message.header.id in registered[0]
    requires forall j :: 1 <= j <= k ==> hops[j - 1].targetId in registered[j]
    requires forall j :: 0 <= j < k ==> hops[j].outcome.Delivered? || hops[j].outcome.DisconnectFails?
    requires !hops[k].outcome.Delivered? && !hops[k].outcome.DisconnectFails?
    ensures Respond(registered, sequences, hops, last, message) == CreateResponse(message) <==>
            hops[k].outcome.Garbled? ==>
              hops[k].outcome.partial == Response(hops[k].outcome.partial.header, Success, "", "")
  {
    LostForwardIsAnswered(registered, sequences, hops, last, message, k);
  }

  // ---------------------------------------------------------------------------------------------
  // Sequence numbers

  /** The sequence numbers of the brokers after a request that arrives with this id. */
  function SequencesAfter(registered: seq<set<nat>>, sequences: seq<nat>, id: nat, hops: seq<Hop>): (r: seq<nat>)
    requires |registered| == |sequences| == |hops| + 1
    ensures |r| == |sequences|
    decreases |hops|
  {
    if id !in registered[0] || hops == [] || hops[0].outcome.ConnectFails? then sequences
    else
      [(sequences[0] + 1) % 0x1_0000_0000] +
      if hops[0].outcome.NotSent? then sequences[1..]
      else SequencesAfter(registered[1..], sequences[1..], hops[0].targetId, hops[1..])
  }

  /**
   A broker uses one sequence number, modulo 2^32, iff the request gets as far as its component, whatever
   becomes of the answers, is forwarded by it, and the connection can be made.
   */
  lemma SequenceIsUsedIff(registered: seq<set<nat>>, sequences: seq<nat>, id: nat, hops: seq<Hop>, i: nat)
    requires |registered| == |sequences| == |hops| + 1 && i <= |hops|
    ensures SequencesAfter(registered, sequences, id, hops)[i] ==
            if && i < |hops| && id in registered[0] && !hops[i].outcome.ConnectFails?
               && (forall j :: 1 <= j <= i ==> hops[j - 1].targetId in registered[j])
               && (forall j :: 0 <= j < i ==> !hops[j].outcome.ConnectFails? && !hops[j].outcome.NotSent?)
            then (sequences[i] + 1) % 0x1_0000_0000 else sequences[i]
  {
    SequenceOfSender(registered, sequences, id, hops, i);
    SendsIff(registered, id, hops, i);
  }

  lemma {:induction false} SequenceOfSender(
      registered: seq<set<nat>>, sequences: seq<nat>, id: nat, hops: seq<Hop>, i: nat)
    requires |registered| == |sequences| == |hops| + 1 && i <= |hops|
    ensures SequencesAfter(registered, sequences, id, hops)[i] ==
            if Sends(registered, id, hops, i) then (sequences[i] + 1) % 0x1_0000_0000 else sequences[i]
    decreases |hops|
  {
    if i > 0 {
      SequenceOfSender(registered[1..], sequences[1..], hops[0].targetId, hops[1..], i - 1);
    }
  }

  /** The i-th component of the chain sends a request that arrives with this id. */
  predicate Sends(registered: seq<set<nat>>, id: nat, hops: seq<Hop>, i: nat)
    requires |registered| == |hops| + 1
    decreases |hops|
  {
    && id in registered[0] && hops != [] && !hops[0].outcome.ConnectFails?
    && (i == 0 || (!hops[0].outcome.NotSent? && Sends(registered[1..], hops[0].targetId, hops[1..], i - 1)))
  }

  /** It does iff the request gets that far, whatever becomes of the answers, and the connection can be made. */
  lemma {:induction false} SendsIff(registered: seq<set<nat>>, id: nat, hops: seq<Hop>, i: nat)
    requires |registered| == |hops| + 1
    ensures Sends(registered, id, hops, i) <==>
            && i < |hops| && id in registered[0] && !hops[i].outcome.ConnectFails?
            && (forall j :: 1 <= j <= i ==> hops[j - 1].targetId in registered[j])
            && (forall j :: 0 <= j < i ==> !hops[j].outcome.ConnectFails? && !hops[j].outcome.NotSent?)
    decreases |hops|
  {
    if hops != [] && i > 0 {
      SendsIff(registered[1..], hops[0].targetId, hops[1..], i - 1);
      assert forall j :: 1 <= j < |hops| ==> hops[j] == hops[1..][j - 1];
      assert forall j :: 1 <= j <= |hops| ==> registered[j] == registered[1..][j - 1];
      if i < |hops| {
        SendsFurther(registered, hops, i);
      }
    }
  }

  lemma SendsFurther(registered: seq<set<nat>>, hops: seq<Hop>, i: nat)
    requires |registered| == |hops| + 1 && 0 < i < |hops|
    ensures (forall j :: 1 <= j <= i ==> hops[j - 1].targetId in registered[j]) <==>
            hops[0].targetId in registered[1..][0] &&
            forall j :: 1 <= j <= i - 1 ==> hops[1..][j - 1].targetId in registered[1..][j]
    ensures (forall j :: 0 <= j < i ==> !hops[j].outcome.ConnectFails? && !hops[j].outcome.NotSent?) <==>
            !hops[0].outcome.ConnectFails? && !hops[0].outcome.NotSent? &&
            forall j :: 0 <= j < i - 1 ==> !hops[1..][j].outcome.ConnectFails? && !hops[1..][j].outcome.NotSent?
  {
    forall j | 1 <= j <= i
      ensures hops[j - 1].targetId in registered[j] <==>
              if j == 1 then hops[0].targetId in registered[1..][0]
              else hops[1..][j - 2].targetId in registered[1..][j - 1]
    {
    }
    if forall j :: 1 <= j <= i ==> hops[j - 1].targetId in registered[j] {
      forall j | 1 <= j <= i - 1 ensures hops[1..][j - 1].targetId in registered[1..][j] {
        assert hops[(j + 1) - 1].targetId in registered[j + 1];
      }
    }
    if forall j :: 0 <= j < i ==> !hops[j].outcome.ConnectFails? && !hops[j].outcome.NotSent? {
      forall j | 0 <= j < i - 1 ensures !hops[1..][j].outcome.ConnectFails? && !hops[1..][j].outcome.NotSent? {
        assert hops[1..][j] == hops[j + 1];
      }
    } else {
      var j :| 0 <= j < i && (hops[j].outcome.ConnectFails? || hops[j].outcome.NotSent?);
      if j > 0 { assert hops[1..][j - 1] == hops[j]; }
    }
  }

  // ---------------------------------------------------------------------------------------------
  // The brokers

  class MessageBroker {
    const requestHandlers: set<nat>
    var sequenceNumber: nat

    constructor (requestHandlers: set<nat>)
      ensures this.requestHandlers == requestHandlers && sequenceNumber == 0
    {
      this.requestHandlers, sequenceNumber := requestHandlers, 0;
    }

    method GetNextSequenceNumber() returns (sequence: nat)
      modifies this
      ensures sequence == old(sequenceNumber)
      ensures sequenceNumber == (old(sequenceNumber) + 1) % 0x1_0000_0000
    {
      sequence := sequenceNumber;
      sequenceNumber := (sequenceNumber + 1) % 0x1_0000_0000;
    }
  }

  ghost predicate Chain(brokers: seq<MessageBroker>, hops: seq<Hop>) {
    && |brokers| == |hops| + 1
    && forall i, j :: 0 <= i < j < |brokers| ==> brokers[i] != brokers[j]
  }

  function Registered(brokers: seq<MessageBroker>): (r: seq<set<nat>>)
    ensures |r| == |brokers|
  {
    seq(|brokers|, i requires 0 <= i < |brokers| => brokers[i].requestHandlers)
  }

  function Sequences(brokers: seq<MessageBroker>): (r: seq<nat>)
    reads brokers
    ensures |r| == |brokers|
  {
    if brokers == [] then [] else [brokers[0].sequenceNumber] + Sequences(brokers[1..])
  }

  lemma {:induction false} SequencesAt(brokers: seq<MessageBroker>, i: nat)
    requires i < |brokers|
    ensures Sequences(brokers)[i] == brokers[i].sequenceNumber
    decreases i
  {
    if i > 0 { SequencesAt(brokers[1..], i - 1); }
  }

  lemma FirstAndRest(brokers: seq<MessageBroker>, hops: seq<Hop>)
    requires Chain(brokers, hops) && hops != []
    ensures Chain(brokers[1..], hops[1..]) && brokers[0] !in brokers[1..]
    ensures Registered(brokers) == [brokers[0].requestHandlers] + Registered(brokers[1..])
    ensures Sequences(brokers) == [brokers[0].sequenceNumber] + Sequences(brokers[1..])
  {
  }

  /** What a chain answers once its first component forwards the request. */
  lemma ForwardedAnswer(
      ids: set<nat>, sequence: nat, registered: seq<set<nat>>, sequences: seq<nat>, hops: seq<Hop>, last: Handler,
      message: Message)
    requires |registered| == |sequences| == |hops| > 0 && message.header.id in ids
    ensures Respond([ids] + registered, [sequence] + sequences, hops, last, message)
         == ReferTo(
              if GetsThrough(hops[0].outcome)
              then Respond(registered, sequences, hops[1..], last,
                           Message(Header(hops[0].targetId, sequence), message.payload))
              else Leftover(hops[0].outcome), message)
  {
    assert ([ids] + registered)[1..] == registered && ([sequence] + sequences)[1..] == sequences;
  }

  lemma ForwardedSequences(
      ids: set<nat>, sequence: nat, registered: seq<set<nat>>, sequences: seq<nat>, hops: seq<Hop>, id: nat)
    requires |registered| == |sequences| == |hops| > 0 && id in ids
    ensures SequencesAfter([ids] + registered, [sequence] + sequences, id, hops) ==
            if hops[0].outcome.ConnectFails? then [sequence] + sequences
            else [(sequence + 1) % 0x1_0000_0000] +
                 if hops[0].outcome.NotSent? then sequences
                 else SequencesAfter(registered, sequences, hops[0].targetId, hops[1..])
  {
    assert ([ids] + registered)[1..] == registered && ([sequence] + sequences)[1..] == sequences;
  }

  /** A chain that stops at its first component. */
  lemma StoppedChain(
      registered: seq<set<nat>>, sequences: seq<nat>, hops: seq<Hop>, last: Handler, message: Message)
    requires |registered| == |sequences| == |hops| + 1
    requires message.header.id !in registered[0] || hops == []
    ensures Respond(registered, sequences, hops, last, message) ==
            if message.header.id !in registered[0] then CreateErrorResponse(message, UnsupportedRequest)
            else ReferTo(last(message), message)
    ensures SequencesAfter(registered, sequences, message.header.id, hops) == sequences
  {
  }

  /** `processReceivedRequestMessage` of the first broker. */
  method ProcessReceivedRequest(brokers: seq<MessageBroker>, hops: seq<Hop>, last: Handler, message: Message)
    returns (response: Response)
    requires Chain(brokers, hops)
    modifies brokers
    ensures response == Respond(Registered(brokers), old(Sequences(brokers)), hops, last, message)
    ensures Sequences(brokers)
         == SequencesAfter(Registered(brokers), old(Sequences(brokers)), message.header.id, hops)
    decreases |hops|, 2
  {
    if message.header.id in brokers[0].requestHandlers {
      if hops == [] {
        StoppedChain(Registered(brokers), Sequences(brokers), hops, last, message);
        response := last(message);
        response := ReferTo(response, message);
      } else {
        FirstAndRest(brokers, hops);
        response := HandleByForwarding(brokers[0], brokers[1..], hops, last, message);
        FirstAndRest(brokers, hops);
      }
    } else {
      StoppedChain(Registered(brokers), Sequences(brokers), hops, last, message);
      response := CreateErrorResponse(message, UnsupportedRequest);
    }
  }

  /** The same when the handler of the first broker forwards the request. */
  method HandleByForwarding(
      first: MessageBroker, rest: seq<MessageBroker>, hops: seq<Hop>, last: Handler, message: Message)
    returns (response: Response)
    requires hops != [] && Chain(rest, hops[1..]) && first !in rest && message.header.id in first.requestHandlers
    modifies first, rest
    ensures response
         == Respond([first.requestHandlers] + Registered(rest), [old(first.sequenceNumber)] + old(Sequences(rest)),
                    hops, last, message)
    ensures [first.sequenceNumber] + Sequences(rest)
         == SequencesAfter([first.requestHandlers] + Registered(rest),
                           [old(first.sequenceNumber)] + old(Sequences(rest)), message.header.id, hops)
    decreases |hops|, 1
  {
    ghost var registered, sequences, sequence := Registered(rest), Sequences(rest), first.sequenceNumber;
    response := Forward(first, rest, hops, last, message);
    ForwardedAnswer(first.requestHandlers, sequence, registered, sequences, hops, last, message);
    ForwardedSequences(first.requestHandlers, sequence, registered, sequences, hops, message.header.id);
    response := ReferTo(response, message);
  }

  /** `forward`, by the first broker to the next one: the result of the send is not looked at. */
  method Forward(
      first: MessageBroker, rest: seq<MessageBroker>, hops: seq<Hop>, last: Handler, message: Message)
    returns (response: Response)
    requires hops != [] && Chain(rest, hops[1..]) && first !in rest
    modifies first, rest
    ensures response ==
            if GetsThrough(hops[0].outcome)
            then Respond(Registered(rest), old(Sequences(rest)), hops[1..], last,
                         Message(Header(hops[0].targetId, old(first.sequenceNumber)), message.payload))
            else Leftover(hops[0].outcome)
    ensures first.sequenceNumber ==
            if hops[0].outcome.ConnectFails? then old(first.sequenceNumber)
            else (old(first.sequenceNumber) + 1) % 0x1_0000_0000
    ensures Sequences(rest) ==
            if hops[0].outcome.ConnectFails? || hops[0].outcome.NotSent? then old(Sequences(rest))
            else SequencesAfter(Registered(rest), old(Sequences(rest)), hops[0].targetId, hops[1..])
    decreases |hops|, 0
  {
    var forwardMessage := message.(header := message.header.(id := hops[0].targetId));
    var outcome := hops[0].outcome;
    response := DEFAULT_RESPONSE;
    if outcome.ConnectFails? {
      return;
    }
    var sequence := first.GetNextSequenceNumber();
    forwardMessage := forwardMessage.(header := forwardMessage.header.(sequence := sequence));
    assert Sequences(rest) == old(Sequences(rest));
    if outcome.NotSent? {
      return;
    }
    var answer := ProcessReceivedRequest(rest, hops[1..], last, forwardMessage);
    if outcome.NoAnswer? {
      return;
    }
    response := if outcome.Garbled? then outcome.partial else answer;
  }
}
