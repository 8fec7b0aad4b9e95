/**
 The socket pool of a message subscriber (libs/MessageBroker/src/Subscriber.cpp): eight fixed slots,
 each connected to at most one publisher address, shared by all subscriptions to that address. The
 subscription map is keyed by the 32-bit identifier of (address, topic), not by the pair itself.

 The sockets are foreign code. A slot records what was asked of its socket: the addresses it is
 connected to, the filters set on it and the number of receive operations armed on it. Which calls
 fail is an input of each operation.
 */
module Subscribers {
  import opened Options
  import Fnv1a
  import Fnv1aCollision

  type Address = Fnv1a.Bytes
  type Topic = Fnv1a.Bytes
  type Identifier = Fnv1a.Hash32
  type Identify = (Address, Topic) -> Identifier

  /** `Message::createIdentifier`, as the subscriber uses it. */
  function MessageIdentify(signedChar: bool): Identify {
    (address: Address, topic: Topic) => Fnv1a.CreateIdentifier(address, topic, signedChar)
  }

  /** `address` is what the slot says it is connected to, `connections` what its socket is connected to. */
  datatype Slot = Slot(address: Address, connections: set<Address>, filters: multiset<Topic>, pending: nat)

  const FREE_SLOT := Slot([], {}, multiset{}, 0)

  datatype Pool = Pool(slots: seq<Slot>, subs: map<Identifier, nat>)

  /** Which socket calls of one operation fail. */
  datatype Faults = Faults(connect: bool, option: bool, disconnect: bool)

  const NO_FAULTS := Faults(false, false, false)

  const MAX_SUBSCRIPTION_SOCKETS: nat := 8

  function FindSocket(slots: seq<Slot>, address: Address): (r: Option<nat>)
    ensures r.Some? ==> r.value < |slots| && slots[r.value].address == address
    ensures r.Some? ==> forall i :: 0 <= i < r.value ==> slots[i].address != address
    ensures r.None? ==> forall i :: 0 <= i < |slots| ==> slots[i].address != address
    decreases |slots|
  {
    if slots == [] then None
    else
      match FindSocket(slots[..|slots| - 1], address)
      case Some(i) => Some(i)
      case None => if slots[|slots| - 1].address == address then Some(|slots| - 1) else None
  }

  function SubscriptionCount(subs: map<Identifier, nat>, slot: nat): nat {
    |set k | k in subs && subs[k] == slot|
  }

  // ---------------------------------------------------------------------------------------------
  // The operations on values

  function Attach(pool: Pool, i: nat, topic: Topic, key: Identifier): Pool
    requires i < |pool.slots|
  {
    Pool(pool.slots[i := pool.slots[i].(filters := pool.slots[i].filters + multiset{topic})], pool.subs[key := i])
  }

  function Subscribe(pool: Pool, address: Address, topic: Topic, faults: Faults, id: Identify): (Pool, bool) {
    var key := id(address, topic);
    if key in pool.subs then (pool, false)
    else
      match FindSocket(pool.slots, address)
      case Some(i) => if faults.option then (pool, false) else (Attach(pool, i, topic, key), true)
      case None =>
        match FindSocket(pool.slots, [])
        case None => (pool, false)
        case Some(i) =>
          if faults.connect then (pool, false)
          else
            var slot := pool.slots[i].(connections := pool.slots[i].connections + {address});
            if faults.option then
              // the error of this disconnect is not looked at
              var left := if faults.disconnect then slot.connections else slot.connections - {address};
              (pool.(slots := pool.slots[i := slot.(connections := left)]), false)
            else
              var connected := slot.(address := address, pending := slot.pending + 1);
              (Attach(pool.(slots := pool.slots[i := connected]), i, topic, key), true)
  }

  /** `Thrown`: removing the filter failed; that call reports by exception, before anything changed. */
  datatype UnsubscribeResult = Done(ok: bool) | Thrown

  function Unsubscribe(pool: Pool, address: Address, topic: Topic, faults: Faults, id: Identify)
    : (Pool, UnsubscribeResult)
  {
    var key := id(address, topic);
    if key !in pool.subs || pool.subs[key] >= |pool.slots| then (pool, Done(false))
    else if faults.option then (pool, Thrown)
    else
      var i := pool.subs[key];
      var slot := pool.slots[i].(filters := pool.slots[i].filters - multiset{topic});
      var subs := pool.subs - {key};
      if SubscriptionCount(subs, i) != 0 then (Pool(pool.slots[i := slot], subs), Done(true))
      else if faults.disconnect then (Pool(pool.slots[i := slot], subs), Done(false))
      else (Pool(pool.slots[i := slot.(address := [], connections := slot.connections - {slot.address})], subs), Done(true))
  }

  /** One receive completes; it is armed again only if the slot is still connected. */
  function Complete(pool: Pool, i: nat): Pool {
    if i < |pool.slots| && pool.slots[i].pending > 0 && pool.slots[i].address == [] then
      pool.(slots := pool.slots[i := pool.slots[i].(pending := pool.slots[i].pending - 1)])
    else pool
  }

  datatype Op =
    | DoSubscribe(address: Address, topic: Topic, faults: Faults)
    | DoUnsubscribe(address: Address, topic: Topic, faults: Faults)
    | DoComplete(slot: nat)

  function Step(pool: Pool, op: Op, id: Identify): Pool {
    match op
    case DoSubscribe(a, t, faults) => Subscribe(pool, a, t, faults, id).0
    case DoUnsubscribe(a, t, faults) => Unsubscribe(pool, a, t, faults, id).0
    case DoComplete(i) => Complete(pool, i)
  }

  function Run(ops: seq<Op>, id: Identify): Pool
    decreases |ops|
  {
    if ops == [] then InitialPool() else Step(Run(ops[..|ops| - 1], id), ops[|ops| - 1], id)
  }

  function InitialPool(): Pool {
    Pool(seq(MAX_SUBSCRIPTION_SOCKETS, _ => FREE_SLOT), map[])
  }

  /** The source asserts that an address to subscribe to is not empty. */
  predicate LegalOp(op: Op) {
    op.DoSubscribe? ==> op.address != []
  }

  // ---------------------------------------------------------------------------------------------
  // What every run keeps, whichever calls fail

  ghost predicate DistinctAddresses(slots: seq<Slot>) {
    forall i, j :: 0 <= i < j < |slots| && slots[i].address != [] ==> slots[i].address != slots[j].address
  }

  /** A slot with an address is connected to it and has a receive armed. */
  ghost predicate SlotInvariant(slot: Slot) {
    slot.address != [] ==> slot.address in slot.connections && slot.pending >= 1
  }

  ghost predicate Invariant(pool: Pool) {
    && |pool.slots| == MAX_SUBSCRIPTION_SOCKETS
    && (forall k :: k in pool.subs ==> pool.subs[k] < |pool.slots| && pool.slots[pool.subs[k]].address != [])
    && DistinctAddresses(pool.slots)
    && forall i :: 0 <= i < |pool.slots| ==> SlotInvariant(pool.slots[i])
  }

  lemma CountIsZero(subs: map<Identifier, nat>, i: nat)
    ensures SubscriptionCount(subs, i) == 0 <==> forall k :: k in subs ==> subs[k] != i
  {
    var ks := set k | k in subs && subs[k] == i;
    if exists k :: k in subs && subs[k] == i {
      var k :| k in subs && subs[k] == i;
      assert k in ks;
    } else {
      assert ks == {};
    }
  }

  lemma ConnectKeepsDistinct(slots: seq<Slot>, i: nat, slot: Slot)
    requires DistinctAddresses(slots) && i < |slots|
    requires slot.address == slots[i].address || forall j :: 0 <= j < |slots| ==> slots[j].address != slot.address
    ensures DistinctAddresses(slots[i := slot])
  {
  }

  lemma SubscribeKeepsInvariant(pool: Pool, a: Address, t: Topic, faults: Faults, id: Identify)
    requires Invariant(pool) && a != []
    ensures Invariant(Subscribe(pool, a, t, faults, id).0)
  {
    if id(a, t) !in pool.subs {
      match FindSocket(pool.slots, a)
      case Some(i) =>
        SubscribeAtKnownSlot(pool, a, t, faults, id, i);
        var slot := pool.slots[i].(filters := pool.slots[i].filters + multiset{t});
        ChangedSlotKeepsInvariant(pool, i, slot, pool.subs[id(a, t) := i]);
      case None =>
        if Connects(pool, DoSubscribe(a, t, faults), id) { NewConnectionKeepsInvariant(pool, a, t, faults, id); }
    }
  }

  lemma NewConnectionKeepsInvariant(pool: Pool, a: Address, t: Topic, faults: Faults, id: Identify)
    requires Invariant(pool) && a != [] && Connects(pool, DoSubscribe(a, t, faults), id)
    ensures Invariant(Subscribe(pool, a, t, faults, id).0)
  {
    var i := FindSocket(pool.slots, []).value;
    var slot := pool.slots[i];
    if faults.option {
      SubscribeUndone(pool, a, t, faults, id, i);
      var left := if faults.disconnect then slot.connections + {a} else slot.connections + {a} - {a};
      ChangedSlotKeepsInvariant(pool, i, slot.(connections := left), pool.subs);
    } else {
      SubscribeAtFreeSlot(pool, a, t, faults, id, i);
      var slot' := Slot(a, slot.connections + {a}, slot.filters + multiset{t}, slot.pending + 1);
      ChangedSlotKeepsInvariant(pool, i, slot', pool.subs[id(a, t) := i]);
    }
  }

  /** One slot changes, to an address of its own, and at most one entry for it comes in. */
  lemma ChangedSlotKeepsInvariant(pool: Pool, i: nat, slot: Slot, subs: map<Identifier, nat>)
    requires Invariant(pool) && i < |pool.slots| && SlotInvariant(slot)
    requires slot.address == pool.slots[i].address ||
             (slot.address != [] && forall j :: 0 <= j < |pool.slots| ==> pool.slots[j].address != slot.address)
    requires forall k :: k in subs ==> (k in pool.subs && subs[k] == pool.subs[k]) || (subs[k] == i && slot.address != [])
    ensures Invariant(Pool(pool.slots[i := slot], subs))
  {
    ConnectKeepsDistinct(pool.slots, i, slot);
  }

  /** The subscription opens a new connection, at the first free slot. */
  predicate Connects(pool: Pool, op: Op, id: Identify) {
    && op.DoSubscribe? && id(op.address, op.topic) !in pool.subs && !op.faults.connect
    && FindSocket(pool.slots, op.address).None? && FindSocket(pool.slots, []).Some?
  }

  /** It does, and then fails both to set the filter and to close the connection again. */
  predicate LeavesConnection(pool: Pool, op: Op, id: Identify) {
    Connects(pool, op, id) && op.faults.option && op.faults.disconnect
  }

  /** The same subscriptions at the same addresses; only the sockets may be connected otherwise. */
  ghost predicate SameButConnections(a: Pool, b: Pool) {
    && a.subs == b.subs && |a.slots| == |b.slots|
    && forall i :: 0 <= i < |a.slots| ==> a.slots[i].(connections := {}) == b.slots[i].(connections := {})
  }

  /**
   A failed subscription leaves addresses, filters, receives and map as they were. It leaves the
   connections too unless it opened one and the disconnect that should undo this fails; or unless that
   disconnect closes a connection that an earlier failure had left.
   */
  lemma FailedSubscribeChangesIff(pool: Pool, a: Address, t: Topic, faults: Faults, id: Identify)
    requires !Subscribe(pool, a, t, faults, id).1
    ensures SameButConnections(pool, Subscribe(pool, a, t, faults, id).0)
    ensures Subscribe(pool, a, t, faults, id).0 == pool <==>
            Connects(pool, DoSubscribe(a, t, faults), id) ==>
              (a in pool.slots[FindSocket(pool.slots, []).value].connections <==> faults.disconnect)
  {
    if Connects(pool, DoSubscribe(a, t, faults), id) {
      var i := FindSocket(pool.slots, []).value;
      var slot, slot' := pool.slots[i], Subscribe(pool, a, t, faults, id).0.slots[i];
      assert slot'.connections == if faults.disconnect then slot.connections + {a} else slot.connections - {a};
      assert slot'.connections == slot.connections <==> (a in slot.connections <==> faults.disconnect);
      assert slot'.connections == slot.connections ==> slot' == slot;
    }
  }

  lemma UnsubscribeKeepsInvariant(pool: Pool, a: Address, t: Topic, faults: Faults, id: Identify)
    requires Invariant(pool)
    ensures Invariant(Unsubscribe(pool, a, t, faults, id).0)
  {
    var key := id(a, t);
    if key in pool.subs {
      CountIsZero(pool.subs - {key}, pool.subs[key]);
    }
  }

  /**
   Under any pattern of failures: every map entry points to a slot with an address, no two slots share
   an address, and every slot with an address is connected to it and has a receive armed.
   */
  lemma {:induction false} EveryRunKeepsInvariant(ops: seq<Op>, id: Identify)
    requires forall op :: op in ops ==> LegalOp(op)
    ensures Invariant(Run(ops, id))
    decreases |ops|
  {
    if ops != [] {
      var before, op := ops[..|ops| - 1], ops[|ops| - 1];
      assert op in ops;
      assert forall o :: o in before ==> o in ops;
      EveryRunKeepsInvariant(before, id);
      match op
      case DoSubscribe(a, t, faults) => SubscribeKeepsInvariant(Run(before, id), a, t, faults, id);
      case DoUnsubscribe(a, t, faults) => UnsubscribeKeepsInvariant(Run(before, id), a, t, faults, id);
      case DoComplete(i) =>
    }
  }

  /** The property holds after every prefix of the run. */
  ghost predicate Always(ops: seq<Op>, id: Identify, holds: Pool -> bool)
    decreases |ops|
  {
    holds(Run(ops, id)) && (ops == [] || Always(ops[..|ops| - 1], id, holds))
  }

  /** No operation of the run does this to the pool it finds. */
  ghost predicate Never(ops: seq<Op>, id: Identify, breaks: (Pool, Op) -> bool)
    decreases |ops|
  {
    ops == [] || (Never(ops[..|ops| - 1], id, breaks) && !breaks(Run(ops[..|ops| - 1], id), ops[|ops| - 1]))
  }

  /** These operations are exactly those that break the property where it holds. */
  ghost predicate BrokenExactlyBy(id: Identify, holds: Pool -> bool, breaks: (Pool, Op) -> bool) {
    forall pool, op :: Invariant(pool) && LegalOp(op) && holds(pool) ==> (holds(Step(pool, op, id)) <==> !breaks(pool, op))
  }

  /** Then a run keeps it throughout iff it has no such operation. */
  lemma {:induction false} AlwaysIffNever(ops: seq<Op>, id: Identify, holds: Pool -> bool, breaks: (Pool, Op) -> bool)
    requires forall op :: op in ops ==> LegalOp(op)
    requires holds(InitialPool()) && BrokenExactlyBy(id, holds, breaks)
    ensures Always(ops, id, holds) <==> Never(ops, id, breaks)
    decreases |ops|
  {
    if ops != [] {
      var before, op := ops[..|ops| - 1], ops[|ops| - 1];
      assert op in ops;
      assert forall o :: o in before ==> o in ops;
      AlwaysIffNever(before, id, holds, breaks);
      EveryRunKeepsInvariant(before, id);
      if Always(before, id, holds) {
        AlwaysNow(before, id, holds);
        assert Run(ops, id) == Step(Run(before, id), op, id);
      }
    }
  }

  lemma AlwaysNow(ops: seq<Op>, id: Identify, holds: Pool -> bool)
    requires Always(ops, id, holds)
    ensures holds(Run(ops, id))
  {
  }

  // ---------------------------------------------------------------------------------------------
  // The class

  lemma AfterSubscribe(pool: Pool, a: Address, t: Topic, faults: Faults, id: Identify)
    requires Invariant(pool) && a != []
    ensures var (pool', ok) := Subscribe(pool, a, t, faults, id);
            Invariant(pool') && (!ok ==> SameButConnections(pool, pool'))
  {
    SubscribeKeepsInvariant(pool, a, t, faults, id);
    if !Subscribe(pool, a, t, faults, id).1 { FailedSubscribeChangesIff(pool, a, t, faults, id); }
  }

  /** What `subscribe` does when the address has a slot already ... */
  lemma SubscribeAtKnownSlot(pool: Pool, a: Address, t: Topic, faults: Faults, id: Identify, i: nat)
    requires id(a, t) !in pool.subs && FindSocket(pool.slots, a) == Some(i)
    ensures Subscribe(pool, a, t, faults, id) ==
            if faults.option then (pool, false)
            else (Pool(pool.slots[i := pool.slots[i].(filters := pool.slots[i].filters + multiset{t})],
                       pool.subs[id(a, t) := i]), true)
  {
  }

  /** ... when it gets a free slot ... */
  lemma SubscribeAtFreeSlot(pool: Pool, a: Address, t: Topic, faults: Faults, id: Identify, i: nat)
    requires Connects(pool, DoSubscribe(a, t, faults), id) && FindSocket(pool.slots, []) == Some(i) && !faults.option
    ensures var slot := pool.slots[i];
            var slot' := Slot(a, slot.connections + {a}, slot.filters + multiset{t}, slot.pending + 1);
            Subscribe(pool, a, t, faults, id) == (Pool(pool.slots[i := slot'], pool.subs[id(a, t) := i]), true)
  {
    var slot := pool.slots[i];
    var connected := slot.(address := a, connections := slot.connections + {a}, pending := slot.pending + 1);
    var slot' := connected.(filters := slot.filters + multiset{t});
    assert pool.slots[i := connected][i := slot'] == pool.slots[i := slot'];
  }

  /** ... and when it has to give that back. */
  lemma SubscribeUndone(pool: Pool, a: Address, t: Topic, faults: Faults, id: Identify, i: nat)
    requires Connects(pool, DoSubscribe(a, t, faults), id) && FindSocket(pool.slots, []) == Some(i) && faults.option
    ensures var slot := pool.slots[i];
            var left := if faults.disconnect then slot.connections + {a} else slot.connections + {a} - {a};
            Subscribe(pool, a, t, faults, id) == (pool.(slots := pool.slots[i := slot.(connections := left)]), false)
  {
  }

  /** The first slot with this address; a free one has the empty address. */
  ghost predicate IsFirst(slots: seq<Slot>, i: nat, address: Address) {
    i < |slots| && slots[i].address == address && forall j :: 0 <= j < i ==> slots[j].address != address
  }

  /**
   When a subscription succeeds, whichever calls fail: iff its identifier is not in use, the filter can be
   set, and its address has a slot or can be connected to a free one.
   */
  lemma SubscribeSucceedsIff(pool: Pool, a: Address, t: Topic, faults: Faults, id: Identify)
    ensures Subscribe(pool, a, t, faults, id).1 <==>
            && id(a, t) !in pool.subs && !faults.option
            && ((exists i :: 0 <= i < |pool.slots| && pool.slots[i].address == a) ||
                (!faults.connect && exists i :: 0 <= i < |pool.slots| && pool.slots[i].address == []))
  {
  }

  /** And what it then does: to its address's slot, or to the first free one, and to nothing else. */
  lemma SuccessfulSubscribe(pool: Pool, a: Address, t: Topic, faults: Faults, id: Identify)
    requires Subscribe(pool, a, t, faults, id).1
    ensures var pool' := Subscribe(pool, a, t, faults, id).0;
            && id(a, t) in pool'.subs
            && var i := pool'.subs[id(a, t)];
            && pool'.subs == pool.subs[id(a, t) := i]
            && i < |pool.slots| == |pool'.slots|
            && (forall j :: 0 <= j < |pool.slots| && j != i ==> pool'.slots[j] == pool.slots[j])
            && var slot := pool.slots[i];
            if exists j :: 0 <= j < |pool.slots| && pool.slots[j].address == a then
              IsFirst(pool.slots, i, a) &&
              pool'.slots[i] == Slot(a, slot.connections, slot.filters + multiset{t}, slot.pending)
            else
              IsFirst(pool.slots, i, []) &&
              pool'.slots[i] == Slot(a, slot.connections + {a}, slot.filters + multiset{t}, slot.pending + 1)
  {
    match FindSocket(pool.slots, a)
    case Some(i) => SubscribeAtKnownSlot(pool, a, t, faults, id, i);
    case None => SubscribeAtFreeSlot(pool, a, t, faults, id, FindSocket(pool.slots, []).value);
  }

  /** What a failed subscription does: nothing, unless it is the filter of a new connection that cannot be set. */
  lemma FailedSubscribe(pool: Pool, a: Address, t: Topic, faults: Faults, id: Identify)
    requires !Subscribe(pool, a, t, faults, id).1
    ensures var pool' := Subscribe(pool, a, t, faults, id).0;
            if id(a, t) !in pool.subs && !faults.connect
               && (forall j :: 0 <= j < |pool.slots| ==> pool.slots[j].address != a)
               && exists j :: 0 <= j < |pool.slots| && pool.slots[j].address == []
            then faults.option && exists i: nat :: IsUndone(pool, pool', i, a, faults.disconnect)
            else pool' == pool
  {
    if Connects(pool, DoSubscribe(a, t, faults), id) {
      var i := FindSocket(pool.slots, []).value;
      SubscribeUndone(pool, a, t, faults, id, i);
      assert pool.slots[i].connections + {a} - {a} == pool.slots[i].connections - {a};
      assert IsUndone(pool, Subscribe(pool, a, t, faults, id).0, i, a, faults.disconnect);
    }
  }

  /** The first free slot was connected to the address and, unless this failed, disconnected from it again. */
  ghost predicate IsUndone(pool: Pool, pool': Pool, i: nat, a: Address, stays: bool) {
    && IsFirst(pool.slots, i, [])
    && pool' == pool.(slots := pool.slots[i := pool.slots[i].(connections :=
                        if stays then pool.slots[i].connections + {a} else pool.slots[i].connections - {a})])
  }

  /** What an unsubscription does, whichever calls fail. */
  lemma UnsubscribeOutcome(pool: Pool, a: Address, t: Topic, faults: Faults, id: Identify)
    requires Invariant(pool)
    ensures var (pool', r) := Unsubscribe(pool, a, t, faults, id);
            var key := id(a, t);
            if key !in pool.subs then r == Done(false) && pool' == pool
            else if faults.option then r == Thrown && pool' == pool
            else
              var i := pool.subs[key];
              var slot, last := pool.slots[i], forall k :: k in pool.subs && k != key ==> pool.subs[k] != i;
              && r == Done(!(last && faults.disconnect))
              && pool'.subs == pool.subs - {key}
              && pool'.slots == pool.slots[i :=
                   if last && !faults.disconnect
                   then Slot([], slot.connections - {slot.address}, slot.filters - multiset{t}, slot.pending)
                   else Slot(slot.address, slot.connections, slot.filters - multiset{t}, slot.pending)]
  {
    var key := id(a, t);
    if key in pool.subs {
      CountIsZero(pool.subs - {key}, pool.subs[key]);
      assert forall k :: k in pool.subs && k != key ==> k in pool.subs - {key};
    }
  }

  class Subscriber {
    const sockets: array<Slot>
    const identify: Identify
    var subscriptionMap: map<Identifier, nat>

    ghost function Contents(): Pool
      reads this, sockets
    {
      Pool(sockets[..], subscriptionMap)
    }

    ghost predicate Valid()
      reads this, sockets
    {
      Invariant(Contents())
    }

    constructor (identify: Identify)
      ensures Valid() && fresh(sockets) && this.identify == identify
      ensures Contents() == InitialPool() && sockets.Length == 8
    {
      this.identify := identify;
      sockets := new Slot[MAX_SUBSCRIPTION_SOCKETS](_ => FREE_SLOT);
      subscriptionMap := map[];
      new;
      assert sockets[..] == InitialPool().slots;
    }

    /** A subscription that fails, at whatever point, leaves everything but connections as it was. */
    method SubscribeTo(address: Address, topic: Topic, faults: Faults) returns (ok: bool)
      requires Valid() && address != []
      modifies this, sockets
      ensures Valid()
      ensures (Contents(), ok) == Subscribe(old(Contents()), address, topic, faults, identify)
      ensures !ok ==> SameButConnections(old(Contents()), Contents())
      ensures ok <==>
                && identify(address, topic) !in old(subscriptionMap) && !faults.option
                && ((exists i :: 0 <= i < sockets.Length && old(sockets[i]).address == address) ||
                    (!faults.connect && exists i :: 0 <= i < sockets.Length && old(sockets[i]).address == []))
    {
      SubscribeSucceedsIff(Contents(), address, topic, faults, identify);
      AfterSubscribe(Contents(), address, topic, faults, identify);
      ok := TrySubscribe(address, topic, faults);
    }

    /** The steps of `subscribe`. */
    method TrySubscribe(address: Address, topic: Topic, faults: Faults) returns (ok: bool)
      modifies this, sockets
      ensures (Contents(), ok) == Subscribe(old(Contents()), address, topic, faults, identify)
    {
      ghost var before := Contents();
      var serviceId := identify(address, topic);
      if serviceId in subscriptionMap {
        return false;
      }
      var isNewConnection := false;
      var found := FindSocket(sockets[..], address);
      if found.None? {
        found := FindSocket(sockets[..], []); // find next empty one
        if found.None? || faults.connect {
          return false;
        }
        Connect(found.value, address);
        isNewConnection := true;
      }
      var i := found.value;
      if faults.option {
        if isNewConnection {
          Abandon(i, address, faults);
          SubscribeUndone(before, address, topic, faults, identify, i);
          assert sockets[..] == before.slots[i := sockets[i]];
        }
        return false;
      }
      subscriptionMap := subscriptionMap[serviceId := i];
      AddFilter(i, topic, isNewConnection);
      if isNewConnection {
        SubscribeAtFreeSlot(before, address, topic, faults, identify, i);
        assert sockets[..] == before.slots[i := sockets[i]];
      } else {
        SubscribeAtKnownSlot(before, address, topic, faults, identify, i);
      }
      return true;
    }

    method Connect(i: nat, address: Address)
      requires i < sockets.Length
      modifies sockets
      ensures sockets[..] == old(sockets[..])[i :=
                old(sockets[i]).(address := address, connections := old(sockets[i]).connections + {address})]
    {
      sockets[i] := sockets[i].(address := address, connections := sockets[i].connections + {address});
    }

    /** Closes a connection that was just opened; whether this fails is not looked at. */
    method Abandon(i: nat, address: Address, faults: Faults)
      requires i < sockets.Length
      modifies sockets
      ensures var slot := old(sockets[i]);
              var left := if faults.disconnect then slot.connections else slot.connections - {address};
              sockets[..] == old(sockets[..])[i := slot.(address := [], connections := left)]
    {
      if !faults.disconnect {
        sockets[i] := sockets[i].(connections := sockets[i].connections - {address});
      }
      sockets[i] := sockets[i].(address := []);
    }

    method AddFilter(i: nat, topic: Topic, isNewConnection: bool)
      requires i < sockets.Length
      modifies sockets
      ensures var slot := old(sockets[i]);
              var pending := if isNewConnection then slot.pending + 1 else slot.pending;
              sockets[..] == old(sockets[..])[i := slot.(filters := slot.filters + multiset{topic}, pending := pending)]
    {
      sockets[i] := sockets[i].(filters := sockets[i].filters + multiset{topic});
      if isNewConnection {
        sockets[i] := sockets[i].(pending := sockets[i].pending + 1); // receiveNotification
      }
    }

    method UnsubscribeFrom(address: Address, topic: Topic, faults: Faults) returns (r: UnsubscribeResult)
      requires Valid()
      modifies this, sockets
      ensures Valid()
      ensures (Contents(), r) == Unsubscribe(old(Contents()), address, topic, faults, identify)
    {
      UnsubscribeKeepsInvariant(Contents(), address, topic, faults, identify);
      var serviceId := identify(address, topic);
      if serviceId !in subscriptionMap {
        return Done(false);
      }
      var i := subscriptionMap[serviceId];
      if faults.option {
        return Thrown;
      }
      sockets[i] := sockets[i].(filters := sockets[i].filters - multiset{topic});
      subscriptionMap := subscriptionMap - {serviceId};
      if SubscriptionCount(subscriptionMap, i) == 0 {
        if faults.disconnect {
          assert sockets[..] == Unsubscribe(old(Contents()), address, topic, faults, identify).0.slots;
          return Done(false);
        }
        sockets[i] := sockets[i].(address := [], connections := sockets[i].connections - {sockets[i].address});
      }
      assert sockets[..] == Unsubscribe(old(Contents()), address, topic, faults, identify).0.slots;
      return Done(true);
    }
  }

  // ---------------------------------------------------------------------------------------------
  // Refinement of a set of subscriptions

  type Subscriptions = set<(Address, Topic)>

  ghost predicate CollisionFree(id: Identify, pairs: Subscriptions) {
    forall p, q :: p in pairs && q in pairs && id(p.0, p.1) == id(q.0, q.1) ==> p == q
  }

  ghost function Addresses(s: Subscriptions): set<Address> {
    set p | p in s :: p.0
  }

  ghost function SlotAddresses(slots: seq<Slot>): set<Address> {
    set i | 0 <= i < |slots| && slots[i].address != [] :: slots[i].address
  }

  ghost predicate Mapped(pool: Pool, p: (Address, Topic), id: Identify) {
    var key := id(p.0, p.1);
    && p.0 != []
    && key in pool.subs
    && pool.subs[key] < |pool.slots|
    && pool.slots[pool.subs[key]].address == p.0
  }

  ghost predicate FiltersAre(slot: Slot, s: Subscriptions) {
    forall t :: slot.filters[t] == if slot.address != [] && (slot.address, t) in s then 1 else 0
  }

  /** The pool stands for exactly the subscriptions s. */
  ghost predicate Refines(pool: Pool, s: Subscriptions, id: Identify) {
    && Invariant(pool)
    && (forall p :: p in s ==> Mapped(pool, p, id))
    && (forall k :: k in pool.subs ==> exists p :: p in s && id(p.0, p.1) == k)
    && SlotAddresses(pool.slots) == Addresses(s)
    && (forall i :: 0 <= i < |pool.slots| ==> FiltersAre(pool.slots[i], s))
  }

  lemma LastSlotAddress(slots: seq<Slot>)
    requires slots != []
    ensures var before, last := slots[..|slots| - 1], slots[|slots| - 1];
            SlotAddresses(slots) == SlotAddresses(before) + if last.address == [] then {} else {last.address}
  {
  }

  lemma LastAddressIsNew(slots: seq<Slot>)
    requires slots != [] && DistinctAddresses(slots)
    ensures DistinctAddresses(slots[..|slots| - 1])
    ensures slots[|slots| - 1].address !in SlotAddresses(slots[..|slots| - 1])
  {
    var before := slots[..|slots| - 1];
    assert forall i :: 0 <= i < |before| ==> before[i] == slots[i];
  }

  lemma {:induction false} SlotCount(slots: seq<Slot>)
    requires DistinctAddresses(slots)
    ensures |SlotAddresses(slots)| == |slots| - EmptySlots(slots)
    decreases |slots|
  {
    if slots != [] {
      LastAddressIsNew(slots);
      LastSlotAddress(slots);
      SlotCount(slots[..|slots| - 1]);
    } else {
      assert SlotAddresses(slots) == {};
    }
  }

  function EmptySlots(slots: seq<Slot>): (n: nat)
    ensures n > 0 <==> exists i :: 0 <= i < |slots| && slots[i].address == []
    decreases |slots|
  {
    if slots == [] then 0
    else EmptySlots(slots[..|slots| - 1]) + if slots[|slots| - 1].address == [] then 1 else 0
  }

  lemma AddressInUse(pool: Pool, s: Subscriptions, a: Address, id: Identify)
    requires Refines(pool, s, id) && a != []
    ensures FindSocket(pool.slots, a).Some? <==> a in Addresses(s)
    ensures FindSocket(pool.slots, []).Some? <==> |Addresses(s)| < MAX_SUBSCRIPTION_SOCKETS
  {
    SlotCount(pool.slots);
    if FindSocket(pool.slots, a).Some? {
      assert a in SlotAddresses(pool.slots);
    }
  }

  lemma KeyTaken(pool: Pool, s: Subscriptions, a: Address, t: Topic, id: Identify)
    requires Refines(pool, s, id)
    requires CollisionFree(id, s + {(a, t)})
    ensures id(a, t) in pool.subs <==> (a, t) in s
  {
    if id(a, t) in pool.subs {
      var p :| p in s && id(p.0, p.1) == id(a, t);
      assert p in s + {(a, t)} && (a, t) in s + {(a, t)};
    }
    if (a, t) in s { assert Mapped(pool, (a, t), id); }
  }

  /** Filing a new subscription at slot i, connected already or newly to its address, adds just that pair. */
  lemma AttachRefines(
      pool: Pool, pool': Pool, i: nat, s: Subscriptions, a: Address, t: Topic, id: Identify)
    requires Refines(pool, s, id) && a != [] && (a, t) !in s
    requires i < |pool.slots| == |pool'.slots| && id(a, t) !in pool.subs
    requires pool.slots[i].address == a || (pool.slots[i].address == [] && a !in Addresses(s))
    requires pool'.slots == pool.slots[i := pool'.slots[i]] && pool'.subs == pool.subs[id(a, t) := i]
    requires pool'.slots[i].address == a && pool'.slots[i].filters == pool.slots[i].filters + multiset{t}
    requires Invariant(pool')
    ensures Refines(pool', s + {(a, t)}, id)
  {
    MappedGrows(pool, pool', i, s, a, t, id);
    KeysGrow(pool, pool', i, s, a, t, id);
    AddressesGrow(pool, pool', i, s, a, t);
    FiltersGrow(pool, pool', i, s, a, t);
  }

  lemma MappedGrows(pool: Pool, pool': Pool, i: nat, s: Subscriptions, a: Address, t: Topic, id: Identify)
    requires forall p :: p in s ==> Mapped(pool, p, id)
    requires i < |pool.slots| == |pool'.slots| && id(a, t) !in pool.subs && a != []
    requires pool.slots[i].address in {[], a} && pool'.slots[i].address == a
    requires pool'.slots == pool.slots[i := pool'.slots[i]] && pool'.subs == pool.subs[id(a, t) := i]
    ensures forall p :: p in s + {(a, t)} ==> Mapped(pool', p, id)
  {
    forall p | p in s + {(a, t)} ensures Mapped(pool', p, id) {
      if p != (a, t) { assert Mapped(pool, p, id); }
    }
  }

  lemma FiltersGrow(pool: Pool, pool': Pool, i: nat, s: Subscriptions, a: Address, t: Topic)
    requires DistinctAddresses(pool'.slots)
    requires forall j :: 0 <= j < |pool.slots| ==> FiltersAre(pool.slots[j], s)
    requires i < |pool.slots| == |pool'.slots| && a != [] && (a, t) !in s
    requires pool.slots[i].address == a || (pool.slots[i].address == [] && a !in Addresses(s))
    requires pool'.slots == pool.slots[i := pool'.slots[i]]
    requires pool'.slots[i].address == a && pool'.slots[i].filters == pool.slots[i].filters + multiset{t}
    ensures forall j :: 0 <= j < |pool'.slots| ==> FiltersAre(pool'.slots[j], s + {(a, t)})
  {
    forall j | 0 <= j < |pool'.slots| ensures FiltersAre(pool'.slots[j], s + {(a, t)}) {
      assert FiltersAre(pool.slots[j], s);
      if j == i {
        FilterAdded(pool.slots[i], pool'.slots[i], s, a, t);
      } else {
        assert pool'.slots[j] == pool.slots[j] && pool'.slots[j].address != pool'.slots[i].address;
        FilterUnmoved(pool.slots[j], s, a, t);
      }
    }
  }

  lemma FilterUnmoved(slot: Slot, s: Subscriptions, a: Address, t: Topic)
    requires FiltersAre(slot, s) && slot.address != a
    ensures FiltersAre(slot, s + {(a, t)})
  {
  }

  lemma KeysGrow(pool: Pool, pool': Pool, i: nat, s: Subscriptions, a: Address, t: Topic, id: Identify)
    requires forall k :: k in pool.subs ==> exists p :: p in s && id(p.0, p.1) == k
    requires pool'.subs == pool.subs[id(a, t) := i]
    ensures forall k :: k in pool'.subs ==> exists p :: p in s + {(a, t)} && id(p.0, p.1) == k
  {
    forall k | k in pool'.subs ensures exists p :: p in s + {(a, t)} && id(p.0, p.1) == k {
      if k == id(a, t) {
        assert (a, t) in s + {(a, t)};
      } else {
        var p :| p in s && id(p.0, p.1) == k;
        assert p in s + {(a, t)};
      }
    }
  }

  /** `subscribe` succeeds iff the pair is new and its address has a slot or can get one. */
  lemma SubscribeRefines(pool: Pool, s: Subscriptions, a: Address, t: Topic, id: Identify)
    requires Refines(pool, s, id) && a != []
    requires CollisionFree(id, s + {(a, t)})
    ensures var (pool', ok) := Subscribe(pool, a, t, NO_FAULTS, id);
            && (ok <==> (a, t) !in s && (a in Addresses(s) || |Addresses(s)| < MAX_SUBSCRIPTION_SOCKETS))
            && Refines(pool', if ok then s + {(a, t)} else s, id)
  {
    KeyTaken(pool, s, a, t, id);
    AddressInUse(pool, s, a, id);
    var (pool', ok) := Subscribe(pool, a, t, NO_FAULTS, id);
    if ok {
      SubscribeKeepsInvariant(pool, a, t, NO_FAULTS, id);
      AttachRefines(pool, pool', pool'.subs[id(a, t)], s, a, t, id);
    }
  }

  lemma AddressesGrow(pool: Pool, pool': Pool, i: nat, s: Subscriptions, a: Address, t: Topic)
    requires i < |pool.slots| == |pool'.slots| && a != []
    requires SlotAddresses(pool.slots) == Addresses(s)
    requires pool'.slots[i].address == a && pool.slots[i].address in {[], a}
    requires forall j :: 0 <= j < |pool.slots| && j != i ==> pool'.slots[j] == pool.slots[j]
    ensures SlotAddresses(pool'.slots) == Addresses(s + {(a, t)})
  {
    assert Addresses(s + {(a, t)}) == Addresses(s) + {a} by {
      forall x | x in Addresses(s) + {a} ensures x in Addresses(s + {(a, t)}) {
        if x == a { assert (a, t) in s + {(a, t)}; }
        else {
          var p :| p in s && p.0 == x;
          assert p in s + {(a, t)};
        }
      }
    }
    forall x ensures x in SlotAddresses(pool'.slots) <==> x in SlotAddresses(pool.slots) + {a} {
      if x in SlotAddresses(pool.slots) {
        var j :| 0 <= j < |pool.slots| && pool.slots[j].address != [] && pool.slots[j].address == x;
        assert pool'.slots[j].address == x;
      }
      if x == a { assert pool'.slots[i].address == x; }
    }
  }

  lemma NotInUse(s: Subscriptions, a: Address, t: Topic)
    ensures a !in Addresses(s) ==> (a, t) !in s
  {
  }

  lemma FilterAdded(slot: Slot, slot': Slot, s: Subscriptions, a: Address, t: Topic)
    requires FiltersAre(slot, s) && (a, t) !in s && a != []
    requires slot.address == a || (slot.address == [] && a !in Addresses(s))
    requires slot'.address == a && slot'.filters == slot.filters + multiset{t}
    ensures FiltersAre(slot', s + {(a, t)})
  {
    if slot.address == [] {
      forall u ensures (a, u) !in s {
        NotInUse(s, a, u);
      }
    }
  }

  /** The slot of a subscription has others left iff another pair of s has its address. */
  lemma OthersLeft(pool: Pool, s: Subscriptions, a: Address, t: Topic, id: Identify)
    requires Refines(pool, s, id) && (a, t) in s && CollisionFree(id, s)
    ensures Mapped(pool, (a, t), id)
    ensures SubscriptionCount(pool.subs - {id(a, t)}, pool.subs[id(a, t)]) == 0 <==> a !in Addresses(s - {(a, t)})
  {
    SlotStillUsed(pool, s, a, t, id);
  }

  lemma SlotStillUsed(pool: Pool, s: Subscriptions, a: Address, t: Topic, id: Identify)
    requires Invariant(pool) && (a, t) in s && CollisionFree(id, s)
    requires forall p :: p in s ==> Mapped(pool, p, id)
    requires forall k :: k in pool.subs ==> exists p :: p in s && id(p.0, p.1) == k
    ensures Mapped(pool, (a, t), id)
    ensures SubscriptionCount(pool.subs - {id(a, t)}, pool.subs[id(a, t)]) == 0 <==> a !in Addresses(s - {(a, t)})
  {
    assert Mapped(pool, (a, t), id);
    CountIsZero(pool.subs - {id(a, t)}, pool.subs[id(a, t)]);
    if a in Addresses(s - {(a, t)}) {
      var p :| p in s - {(a, t)} && p.0 == a;
      assert Mapped(pool, p, id);
      SameAddressSameSlot(pool, s, p, a, t, id);
      assert id(p.0, p.1) in pool.subs - {id(a, t)};
    }
    forall k | k in pool.subs - {id(a, t)} && pool.subs[k] == pool.subs[id(a, t)]
      ensures a in Addresses(s - {(a, t)})
    {
      AnotherKeyAnotherPair(pool, s, k, a, t, id);
    }
  }

  lemma AnotherKeyAnotherPair(
      pool: Pool, s: Subscriptions, k: Identifier, a: Address, t: Topic, id: Identify)
    requires Mapped(pool, (a, t), id)
    requires forall p :: p in s ==> Mapped(pool, p, id)
    requires exists p :: p in s && id(p.0, p.1) == k
    requires k in pool.subs && k != id(a, t) && pool.subs[k] == pool.subs[id(a, t)]
    ensures a in Addresses(s - {(a, t)})
  {
    var p :| p in s && id(p.0, p.1) == k;
    assert Mapped(pool, p, id);
    assert p in s - {(a, t)} && p.0 == a;
  }

  lemma SameAddressSameSlot(pool: Pool, s: Subscriptions, p: (Address, Topic), a: Address, t: Topic, id: Identify)
    requires Invariant(pool) && Mapped(pool, p, id) && Mapped(pool, (a, t), id)
    requires p in s && (a, t) in s && p != (a, t) && p.0 == a && CollisionFree(id, s)
    ensures id(p.0, p.1) != id(a, t) && pool.subs[id(p.0, p.1)] == pool.subs[id(a, t)]
  {
  }

  lemma AddressesShrink(pool: Pool, pool': Pool, i: nat, s: Subscriptions, a: Address, t: Topic)
    requires i < |pool.slots| == |pool'.slots| && a != [] && (a, t) in s
    requires DistinctAddresses(pool.slots)
    requires SlotAddresses(pool.slots) == Addresses(s) && pool.slots[i].address == a
    requires pool'.slots[i].address == if a in Addresses(s - {(a, t)}) then a else []
    requires forall j :: 0 <= j < |pool.slots| && j != i ==> pool'.slots[j] == pool.slots[j]
    ensures SlotAddresses(pool'.slots) == Addresses(s - {(a, t)})
  {
    forall x ensures x in Addresses(s - {(a, t)}) <==> x in Addresses(s) && (x == a ==> a in Addresses(s - {(a, t)})) {
      if x in Addresses(s) && x != a {
        var p :| p in s && p.0 == x;
        assert p in s - {(a, t)};
      }
    }
    forall x ensures x in SlotAddresses(pool'.slots) <==> x in Addresses(s - {(a, t)}) {
      if x in Addresses(s - {(a, t)}) {
        var j :| 0 <= j < |pool.slots| && pool.slots[j].address != [] && pool.slots[j].address == x;
        assert pool'.slots[j].address == x;
      }
      if x in SlotAddresses(pool'.slots) {
        var j :| 0 <= j < |pool'.slots| && pool'.slots[j].address != [] && pool'.slots[j].address == x;
        assert pool.slots[j].address == x;
        assert x in SlotAddresses(pool.slots);
      }
    }
  }

  /** Removing the pair at slot i, and clearing the slot when no other pair uses it, removes just that pair. */
  lemma DetachRefines(
      pool: Pool, pool': Pool, i: nat, s: Subscriptions, a: Address, t: Topic, id: Identify)
    requires Refines(pool, s, id) && (a, t) in s && CollisionFree(id, s)
    requires Mapped(pool, (a, t), id) && i == pool.subs[id(a, t)] && |pool'.slots| == |pool.slots|
    requires pool'.slots == pool.slots[i := pool'.slots[i]] && pool'.subs == pool.subs - {id(a, t)}
    requires pool'.slots[i].address == if a in Addresses(s - {(a, t)}) then a else []
    requires pool'.slots[i].filters == pool.slots[i].filters - multiset{t}
    requires Invariant(pool')
    ensures Refines(pool', s - {(a, t)}, id)
  {
    MappedShrinks(pool, pool', i, s, a, t, id);
    KeysShrink(pool, s, a, t, id);
    AddressesShrink(pool, pool', i, s, a, t);
    FiltersShrink(pool, pool', i, s, a, t);
  }

  lemma FiltersShrink(pool: Pool, pool': Pool, i: nat, s: Subscriptions, a: Address, t: Topic)
    requires DistinctAddresses(pool.slots)
    requires forall j :: 0 <= j < |pool.slots| ==> FiltersAre(pool.slots[j], s)
    requires i < |pool.slots| == |pool'.slots| && (a, t) in s && pool.slots[i].address == a != []
    requires pool'.slots == pool.slots[i := pool'.slots[i]]
    requires pool'.slots[i].address == if a in Addresses(s - {(a, t)}) then a else []
    requires pool'.slots[i].filters == pool.slots[i].filters - multiset{t}
    ensures forall j :: 0 <= j < |pool'.slots| ==> FiltersAre(pool'.slots[j], s - {(a, t)})
  {
    forall j | 0 <= j < |pool'.slots| ensures FiltersAre(pool'.slots[j], s - {(a, t)}) {
      assert FiltersAre(pool.slots[j], s);
      if j == i {
        FilterRemoved(pool.slots[i], pool'.slots[i], s, a, t);
      } else {
        FilterElsewhere(pool.slots[j], s, a, t);
      }
    }
  }

  lemma FilterElsewhere(slot: Slot, s: Subscriptions, a: Address, t: Topic)
    requires FiltersAre(slot, s) && slot.address != a
    ensures FiltersAre(slot, s - {(a, t)})
  {
  }

  lemma MappedShrinks(
      pool: Pool, pool': Pool, i: nat, s: Subscriptions, a: Address, t: Topic, id: Identify)
    requires forall p :: p in s ==> Mapped(pool, p, id)
    requires (a, t) in s && CollisionFree(id, s) && Mapped(pool, (a, t), id)
    requires i == pool.subs[id(a, t)] && |pool.slots| == |pool'.slots|
    requires pool'.slots == pool.slots[i := pool'.slots[i]] && pool'.subs == pool.subs - {id(a, t)}
    requires pool'.slots[i].address == if a in Addresses(s - {(a, t)}) then a else []
    ensures forall p :: p in s - {(a, t)} ==> Mapped(pool', p, id)
  {
    forall p | p in s - {(a, t)} ensures Mapped(pool', p, id) {
      assert Mapped(pool, p, id) && Mapped(pool, (a, t), id);
      assert id(p.0, p.1) != id(a, t);
      if p.0 == a { assert a in Addresses(s - {(a, t)}); }
    }
  }

  lemma KeysShrink(pool: Pool, s: Subscriptions, a: Address, t: Topic, id: Identify)
    requires forall k :: k in pool.subs ==> exists p :: p in s && id(p.0, p.1) == k
    ensures forall k :: k in pool.subs - {id(a, t)} ==> exists p :: p in s - {(a, t)} && id(p.0, p.1) == k
  {
    forall k | k in pool.subs - {id(a, t)} ensures exists p :: p in s - {(a, t)} && id(p.0, p.1) == k {
      var p :| p in s && id(p.0, p.1) == k;
      assert p in s - {(a, t)};
    }
  }

  /** What a faultless `unsubscribe` of a mapped pair does to the pool. */
  lemma UnsubscribeShape(pool: Pool, a: Address, t: Topic, id: Identify)
    requires Invariant(pool) && Mapped(pool, (a, t), id)
    ensures var (pool', r) := Unsubscribe(pool, a, t, NO_FAULTS, id);
            var i := pool.subs[id(a, t)];
            && r == Done(true) && Invariant(pool') && |pool'.slots| == |pool.slots|
            && pool'.slots == pool.slots[i := pool'.slots[i]] && pool'.subs == pool.subs - {id(a, t)}
            && pool'.slots[i].filters == pool.slots[i].filters - multiset{t}
            && pool'.slots[i].address == (if SubscriptionCount(pool'.subs, i) != 0 then a else [])
  {
    UnsubscribeKeepsInvariant(pool, a, t, NO_FAULTS, id);
  }

  lemma UnsubscribeKnownRefines(pool: Pool, s: Subscriptions, a: Address, t: Topic, id: Identify)
    requires Refines(pool, s, id) && (a, t) in s && CollisionFree(id, s)
    ensures Unsubscribe(pool, a, t, NO_FAULTS, id).1 == Done(true)
    ensures Refines(Unsubscribe(pool, a, t, NO_FAULTS, id).0, s - {(a, t)}, id)
  {
    OthersLeft(pool, s, a, t, id);
    UnsubscribeShape(pool, a, t, id);
    DetachRefines(pool, Unsubscribe(pool, a, t, NO_FAULTS, id).0, pool.subs[id(a, t)], s, a, t, id);
  }

  /** `unsubscribe` succeeds iff the pair is subscribed. */
  lemma UnsubscribeRefines(pool: Pool, s: Subscriptions, a: Address, t: Topic, id: Identify)
    requires Refines(pool, s, id)
    requires CollisionFree(id, s + {(a, t)})
    ensures var (pool', r) := Unsubscribe(pool, a, t, NO_FAULTS, id);
            && r == Done((a, t) in s)
            && Refines(pool', s - {(a, t)}, id)
  {
    KeyTaken(pool, s, a, t, id);
    if (a, t) in s {
      FewerPairsFewerCollisions(id, s, s + {(a, t)});
      UnsubscribeKnownRefines(pool, s, a, t, id);
    } else {
      UnsubscribeUnknown(pool, a, t, id);
      assert s - {(a, t)} == s;
    }
  }

  lemma UnsubscribeUnknown(pool: Pool, a: Address, t: Topic, id: Identify)
    requires id(a, t) !in pool.subs
    ensures Unsubscribe(pool, a, t, NO_FAULTS, id) == (pool, Done(false))
  {
  }

  lemma FilterRemoved(slot: Slot, slot': Slot, s: Subscriptions, a: Address, t: Topic)
    requires FiltersAre(slot, s) && (a, t) in s && slot.address == a != []
    requires slot'.address == if a in Addresses(s - {(a, t)}) then a else []
    requires slot'.filters == slot.filters - multiset{t}
    ensures FiltersAre(slot', s - {(a, t)})
  {
    if slot'.address == [] {
      forall u | u != t ensures (a, u) !in s {
        NotInUse(s - {(a, t)}, a, u);
      }
    }
  }

  // ---------------------------------------------------------------------------------------------
  // Whole runs

  /** The abstract subscriber: a set of pairs over at most eight addresses. */
  ghost function AbstractStep(s: Subscriptions, op: Op): Subscriptions {
    match op
    case DoSubscribe(a, t, _) =>
      if a in Addresses(s) || |Addresses(s)| < MAX_SUBSCRIPTION_SOCKETS then s + {(a, t)} else s
    case DoUnsubscribe(a, t, _) => s - {(a, t)}
    case DoComplete(_) => s
  }

  ghost function AbstractRun(ops: seq<Op>): Subscriptions
    decreases |ops|
  {
    if ops == [] then {} else AbstractStep(AbstractRun(ops[..|ops| - 1]), ops[|ops| - 1])
  }

  predicate Faultless(op: Op) {
    LegalOp(op) && (op.DoComplete? || op.faults == NO_FAULTS)
  }

  ghost function Mentioned(ops: seq<Op>): Subscriptions {
    set i | 0 <= i < |ops| && !ops[i].DoComplete? :: (ops[i].address, ops[i].topic)
  }

  lemma CompleteKeepsInvariant(pool: Pool, i: nat)
    requires Invariant(pool)
    ensures Invariant(Complete(pool, i))
  {
  }

  /** Completing a receive changes nothing a subscription can see. */
  lemma CompleteRefines(pool: Pool, s: Subscriptions, i: nat, id: Identify)
    requires Refines(pool, s, id)
    ensures Refines(Complete(pool, i), s, id)
  {
    var pool' := Complete(pool, i);
    CompleteKeepsInvariant(pool, i);
    SameAddresses(pool.slots, pool'.slots);
    forall p | p in s ensures Mapped(pool', p, id) {
      assert Mapped(pool, p, id);
    }
    forall j | 0 <= j < |pool'.slots| ensures FiltersAre(pool'.slots[j], s) {
      SameFilters(pool.slots[j], pool'.slots[j], s);
    }
  }

  lemma SameFilters(slot: Slot, slot': Slot, s: Subscriptions)
    requires FiltersAre(slot, s) && slot'.address == slot.address && slot'.filters == slot.filters
    ensures FiltersAre(slot', s)
  {
  }

  lemma SameAddresses(a: seq<Slot>, b: seq<Slot>)
    requires |a| == |b| && forall i :: 0 <= i < |a| ==> a[i].address == b[i].address
    ensures SlotAddresses(a) == SlotAddresses(b)
  {
    forall x ensures x in SlotAddresses(a) <==> x in SlotAddresses(b) {
      if x in SlotAddresses(a) {
        var i :| 0 <= i < |a| && a[i].address != [] && a[i].address == x;
        assert b[i].address == x;
      }
      if x in SlotAddresses(b) {
        var i :| 0 <= i < |b| && b[i].address != [] && b[i].address == x;
        assert a[i].address == x;
      }
    }
  }

  /** A subscribed pair other than this one has its identifier. */
  ghost predicate Confusable(s: Subscriptions, a: Address, t: Topic, id: Identify) {
    exists q :: q in s && q != (a, t) && id(q.0, q.1) == id(a, t)
  }

  /**
   The operation names such a pair. A subscription that is refused for capacity anyway does not count.
   This speaks of the subscribed pairs and of identifiers only.
   */
  ghost predicate Confuses(s: Subscriptions, op: Op, id: Identify) {
    && !op.DoComplete?
    && Confusable(s, op.address, op.topic, id)
    && (op.DoSubscribe? ==> op.address in Addresses(s) || |Addresses(s)| < MAX_SUBSCRIPTION_SOCKETS)
  }

  ghost predicate NeverConfuses(ops: seq<Op>, id: Identify)
    decreases |ops|
  {
    ops == [] || (NeverConfuses(ops[..|ops| - 1], id) && !Confuses(AbstractRun(ops[..|ops| - 1]), ops[|ops| - 1], id))
  }

  /** After every prefix of the run the pool is exactly the abstract set: map, slots and filters say nothing else. */
  ghost predicate AlwaysRefines(ops: seq<Op>, id: Identify)
    decreases |ops|
  {
    Refines(Run(ops, id), AbstractRun(ops), id) && (ops == [] || AlwaysRefines(ops[..|ops| - 1], id))
  }

  lemma StillCollisionFree(s: Subscriptions, op: Op, id: Identify)
    requires CollisionFree(id, s) && !Confuses(s, op, id)
    ensures CollisionFree(id, AbstractStep(s, op))
  {
    var s' := AbstractStep(s, op);
    forall p, q | p in s' && q in s' && id(p.0, p.1) == id(q.0, q.1) ensures p == q {
      if p != q && (p !in s || q !in s) {
        assert Confusable(s, op.address, op.topic, id);
      }
    }
  }

  /** One operation without failures: the pool follows the set exactly if the operation confuses nothing. */
  lemma StepRefinesIff(pool: Pool, s: Subscriptions, op: Op, id: Identify)
    requires Refines(pool, s, id) && CollisionFree(id, s) && Faultless(op)
    ensures Refines(Step(pool, op, id), AbstractStep(s, op), id) <==> !Confuses(s, op, id)
  {
    if Confuses(s, op, id) {
      var q :| q in s && q != (op.address, op.topic) && id(q.0, q.1) == id(op.address, op.topic);
      ConfusedStepFails(pool, s, op, q, id);
    } else if !op.DoComplete? && Confusable(s, op.address, op.topic, id) {
      RefusedAnywayRefines(pool, s, op.address, op.topic, id);
    } else {
      if !op.DoComplete? { PairIsFresh(s, op.address, op.topic, id); }
      StepRefines(pool, s, op, id);
    }
  }

  lemma PairIsFresh(s: Subscriptions, a: Address, t: Topic, id: Identify)
    requires CollisionFree(id, s) && !Confusable(s, a, t, id)
    ensures CollisionFree(id, s + {(a, t)})
  {
  }

  /** A subscription that neither the set nor, for its identifier, the pool takes. */
  lemma RefusedAnywayRefines(pool: Pool, s: Subscriptions, a: Address, t: Topic, id: Identify)
    requires Refines(pool, s, id) && Confusable(s, a, t, id)
    requires !(a in Addresses(s) || |Addresses(s)| < MAX_SUBSCRIPTION_SOCKETS)
    ensures Subscribe(pool, a, t, NO_FAULTS, id) == (pool, false)
  {
    var q :| q in s && q != (a, t) && id(q.0, q.1) == id(a, t);
    assert Mapped(pool, q, id);
  }

  lemma ConfusedStepFails(pool: Pool, s: Subscriptions, op: Op, q: (Address, Topic), id: Identify)
    requires Refines(pool, s, id) && CollisionFree(id, s) && Faultless(op) && Confuses(s, op, id)
    requires q in s && q != (op.address, op.topic) && id(q.0, q.1) == id(op.address, op.topic)
    ensures !Refines(Step(pool, op, id), AbstractStep(s, op), id)
  {
    var a, t := op.address, op.topic;
    CollisionHitsTheOtherPair(pool, s, q, (a, t), id);
    assert Mapped(pool, q, id);
    if op.DoSubscribe? {
      assert (a, t) !in s;
      MissingFilter(pool, s, a, t, id);
    } else {
      assert q in AbstractStep(s, op);
    }
  }

  /** A pool that stands for s does not stand for one more pair as well. */
  lemma MissingFilter(pool: Pool, s: Subscriptions, a: Address, t: Topic, id: Identify)
    requires Refines(pool, s, id) && a != [] && (a, t) !in s
    ensures !Refines(pool, s + {(a, t)}, id)
  {
    var s' := s + {(a, t)};
    if a in Addresses(s) {
      AddressInUse(pool, s, a, id);
      var i := FindSocket(pool.slots, a).value;
      assert FiltersAre(pool.slots[i], s) && pool.slots[i].filters[t] == 0;
      assert (pool.slots[i].address, t) in s';
      assert !FiltersAre(pool.slots[i], s');
    } else {
      assert (a, t) in s' && a in Addresses(s');
    }
  }

  /**
   Main result: without failures, the pool stands for the abstract set throughout a run exactly if no
   operation in it names a pair whose identifier another pair subscribed at that moment has.
   */
  lemma {:induction false} AlwaysRefinesIff(ops: seq<Op>, id: Identify)
    requires forall op :: op in ops ==> Faultless(op)
    ensures AlwaysRefines(ops, id) <==> NeverConfuses(ops, id)
    ensures NeverConfuses(ops, id) ==> CollisionFree(id, AbstractRun(ops))
    decreases |ops|
  {
    if ops == [] {
      assert SlotAddresses(InitialPool().slots) == {} == Addresses({});
    } else {
      var before, op := ops[..|ops| - 1], ops[|ops| - 1];
      assert op in ops;
      assert forall o :: o in before ==> o in ops;
      AlwaysRefinesIff(before, id);
      if NeverConfuses(before, id) {
        RefinesNow(before, id);
        StepRefinesIff(Run(before, id), AbstractRun(before), op, id);
        if !Confuses(AbstractRun(before), op, id) { StillCollisionFree(AbstractRun(before), op, id); }
      }
    }
  }

  lemma RefinesNow(ops: seq<Op>, id: Identify)
    requires AlwaysRefines(ops, id)
    ensures Refines(Run(ops, id), AbstractRun(ops), id)
  {
  }

  /** In particular when none of the pairs it is ever asked about collide. */
  lemma {:induction false} EveryRunRefines(ops: seq<Op>, id: Identify)
    requires forall op :: op in ops ==> Faultless(op)
    requires CollisionFree(id, Mentioned(ops))
    ensures NeverConfuses(ops, id) && Refines(Run(ops, id), AbstractRun(ops), id)
    decreases |ops|
  {
    if ops != [] {
      var before, op := ops[..|ops| - 1], ops[|ops| - 1];
      assert forall o :: o in before ==> o in ops;
      PairsOfOneMoreOp(ops, id);
      EveryRunRefines(before, id);
      if Confuses(AbstractRun(before), op, id) {
        var q :| q in AbstractRun(before) && q != (op.address, op.topic) && id(q.0, q.1) == id(op.address, op.topic);
        assert (op.address, op.topic) in AbstractRun(before) + {(op.address, op.topic)};
      }
    }
    AlwaysRefinesIff(ops, id);
    RefinesNow(ops, id);
  }

  lemma PairsOfOneMoreOp(ops: seq<Op>, id: Identify)
    requires ops != [] && CollisionFree(id, Mentioned(ops))
    ensures CollisionFree(id, Mentioned(ops[..|ops| - 1]))
    ensures var op := ops[|ops| - 1];
            !op.DoComplete? ==> CollisionFree(id, AbstractRun(ops[..|ops| - 1]) + {(op.address, op.topic)})
  {
    var before, op := ops[..|ops| - 1], ops[|ops| - 1];
    MentionedGrows(ops);
    AbstractRunIsMentioned(before);
    FewerPairsFewerCollisions(id, Mentioned(before), Mentioned(ops));
    if !op.DoComplete? {
      FewerPairsFewerCollisions(id, AbstractRun(before) + {(op.address, op.topic)}, Mentioned(ops));
    }
  }

  lemma {:induction false} AbstractRunIsMentioned(ops: seq<Op>)
    ensures AbstractRun(ops) <= Mentioned(ops)
    decreases |ops|
  {
    if ops != [] {
      AbstractRunIsMentioned(ops[..|ops| - 1]);
      MentionedGrows(ops);
    }
  }

  lemma FewerPairsFewerCollisions(id: Identify, fewer: Subscriptions, pairs: Subscriptions)
    requires fewer <= pairs && CollisionFree(id, pairs)
    ensures CollisionFree(id, fewer)
  {
  }

  lemma AlreadyThere(s: Subscriptions, a: Address, t: Topic)
    ensures (a, t) in s ==> a in Addresses(s) && s + {(a, t)} == s
  {
  }

  lemma StepRefines(pool: Pool, s: Subscriptions, op: Op, id: Identify)
    requires Refines(pool, s, id) && Faultless(op)
    requires !op.DoComplete? ==> CollisionFree(id, s + {(op.address, op.topic)})
    ensures Refines(Step(pool, op, id), AbstractStep(s, op), id)
  {
    match op
    case DoSubscribe(a, t, faults) =>
      SubscribeRefines(pool, s, a, t, id);
      AlreadyThere(s, a, t);
    case DoUnsubscribe(a, t, faults) =>
      UnsubscribeRefines(pool, s, a, t, id);
    case DoComplete(i) =>
      CompleteRefines(pool, s, i, id);
  }

  lemma MentionedGrows(ops: seq<Op>)
    requires ops != []
    ensures var op := ops[|ops| - 1];
            Mentioned(ops) == Mentioned(ops[..|ops| - 1]) + if op.DoComplete? then {} else {(op.address, op.topic)}
  {
    var before, op := ops[..|ops| - 1], ops[|ops| - 1];
    forall p | p in Mentioned(ops) && (op.DoComplete? || p != (op.address, op.topic))
      ensures p in Mentioned(before)
    {
      var i :| 0 <= i < |ops| && !ops[i].DoComplete? && (ops[i].address, ops[i].topic) == p;
      assert before[i] == ops[i];
    }
    forall p | p in Mentioned(before) ensures p in Mentioned(ops) {
      var i :| 0 <= i < |before| && !before[i].DoComplete? && (before[i].address, before[i].topic) == p;
      assert before[i] == ops[i];
    }
    if !op.DoComplete? { assert (ops[|ops| - 1].address, ops[|ops| - 1].topic) in Mentioned(ops); }
  }

  /** For the identifiers actually used, freedom from collisions is an equation on string hashes. */
  lemma MessageIdentifiersCollisionFreeIff(pairs: Subscriptions, signedChar: bool)
    ensures CollisionFree(MessageIdentify(signedChar), pairs) <==>
            forall p, q :: p in pairs && q in pairs && p != q ==> !HashesCollide(p, q, signedChar)
  {
    var id := MessageIdentify(signedChar);
    forall p: (Address, Topic), q: (Address, Topic)
      ensures id(p.0, p.1) == id(q.0, q.1) <==> HashesCollide(p, q, signedChar)
    {
      Fnv1a.IdentifiersCollideIff(p.0, p.1, q.0, q.1, signedChar);
    }
  }

  predicate HashesCollide(p: (Address, Topic), q: (Address, Topic), signedChar: bool) {
    Fnv1a.CollisionEquation(
      Fnv1a.Hash(p.0, Fnv1a.OFFSET_BASIS, signedChar), Fnv1a.Hash(p.1, Fnv1a.OFFSET_BASIS, signedChar),
      Fnv1a.Hash(q.0, Fnv1a.OFFSET_BASIS, signedChar), Fnv1a.Hash(q.1, Fnv1a.OFFSET_BASIS, signedChar))
  }

  // ---------------------------------------------------------------------------------------------
  // What does not hold

  /**
   When a subscribed pair p has the identifier of another pair q, subscribing q is refused, and
   unsubscribing q reports success while it removes the entry of p.
   */
  lemma CollisionHitsTheOtherPair(
      pool: Pool, s: Subscriptions, p: (Address, Topic), q: (Address, Topic), id: Identify)
    requires Refines(pool, s, id) && p in s && id(p.0, p.1) == id(q.0, q.1)
    ensures !Subscribe(pool, q.0, q.1, NO_FAULTS, id).1
    ensures Unsubscribe(pool, q.0, q.1, NO_FAULTS, id).1 == Done(true)
    ensures !Mapped(Unsubscribe(pool, q.0, q.1, NO_FAULTS, id).0, p, id)
  {
    assert Mapped(pool, p, id);
  }

  /** Of two topics with one identifier, only the first can be subscribed at an address. */
  lemma SharedIdentifierIsRefused(a: Address, t: Topic, u: Topic, id: Identify)
    requires a != [] && t != u && id(a, t) == id(a, u)
    ensures !CollisionFree(id, {(a, t), (a, u)})
    ensures !Subscribe(Subscribe(InitialPool(), a, t, NO_FAULTS, id).0, a, u, NO_FAULTS, id).1
  {
    var p, q := (a, t), (a, u);
    assert p in {p, q} && q in {p, q} && id(p.0, p.1) == id(q.0, q.1) && p != q;
    assert InitialPool().slots[0].address == [];
  }

  /** Collisions happen: at every address the topics "costarring" and "liquid" share an identifier. */
  lemma CollidingTopics(a: Address, signedChar: bool)
    requires a != []
    ensures var id := MessageIdentify(signedChar);
            var t, u := Fnv1aCollision.COSTARRING, Fnv1aCollision.LIQUID;
            && !CollisionFree(id, {(a, t), (a, u)})
            && !Subscribe(Subscribe(InitialPool(), a, t, NO_FAULTS, id).0, a, u, NO_FAULTS, id).1
  {
    Fnv1aCollision.TopicsThatCollide(a, signedChar);
    SharedIdentifierIsRefused(a, Fnv1aCollision.COSTARRING, Fnv1aCollision.LIQUID, MessageIdentify(signedChar));
  }

  /** After a failed disconnect the subscription is gone but its slot keeps the address. */
  lemma FailedDisconnectKeepsTheSlot(pool: Pool, a: Address, t: Topic, faults: Faults, id: Identify)
    requires Invariant(pool)
    ensures var (pool', r) := Unsubscribe(pool, a, t, faults, id);
            var key := id(a, t);
            && (r == Done(false) <==>
                 key !in pool.subs ||
                 (!faults.option && faults.disconnect &&
                  forall k :: k in pool.subs && k != key ==> pool.subs[k] != pool.subs[key]))
            && (r == Done(false) && key in pool.subs ==>
                 && key !in pool'.subs
                 && pool'.slots[pool.subs[key]].address == pool.slots[pool.subs[key]].address != []
                 && forall k :: k in pool'.subs ==> pool'.subs[k] != pool.subs[key])
  {
    var key := id(a, t);
    if key in pool.subs {
      CountIsZero(pool.subs - {key}, pool.subs[key]);
      assert forall k :: k in pool.subs && k != key ==> k in pool.subs - {key};
    }
  }

  /** Every slot with an address has a subscription. */
  ghost predicate SlotsAreUsed(pool: Pool) {
    forall i :: 0 <= i < |pool.slots| && pool.slots[i].address != [] ==> IsUsed(pool, i)
  }

  ghost predicate IsUsed(pool: Pool, i: nat) {
    exists k :: k in pool.subs && pool.subs[k] == i
  }

  /** The operation removes the last subscription of its slot, and then fails to disconnect it. */
  ghost predicate KeepsUnusedSlot(pool: Pool, op: Op, id: Identify) {
    && op.DoUnsubscribe? && !op.faults.option && op.faults.disconnect
    && var key := id(op.address, op.topic);
    && key in pool.subs
    && forall k :: k in pool.subs && k != key ==> pool.subs[k] != pool.subs[key]
  }

  lemma SlotsAreUsedStep(pool: Pool, op: Op, id: Identify)
    requires Invariant(pool) && LegalOp(op) && SlotsAreUsed(pool)
    ensures SlotsAreUsed(Step(pool, op, id)) <==> !KeepsUnusedSlot(pool, op, id)
  {
    match op
    case DoSubscribe(a, t, faults) => SubscribeUsesSlots(pool, a, t, faults, id);
    case DoUnsubscribe(a, t, faults) => UnsubscribeUsesSlots(pool, a, t, faults, id);
    case DoComplete(j) =>
      forall i | 0 <= i < |pool.slots| && IsUsed(pool, i) ensures IsUsed(Complete(pool, j), i) {
      }
  }

  lemma SubscribeUsesSlots(pool: Pool, a: Address, t: Topic, faults: Faults, id: Identify)
    requires Invariant(pool) && a != [] && SlotsAreUsed(pool)
    ensures SlotsAreUsed(Subscribe(pool, a, t, faults, id).0)
  {
    var (pool', ok) := Subscribe(pool, a, t, faults, id);
    forall i | 0 <= i < |pool'.slots| && pool'.slots[i].address != [] ensures IsUsed(pool', i) {
      if ok && pool'.subs[id(a, t)] == i {
        assert id(a, t) in pool'.subs;
      } else {
        assert pool'.slots[i].address == pool.slots[i].address;
        var k :| k in pool.subs && pool.subs[k] == i;
        assert k in pool'.subs && pool'.subs[k] == i;
      }
    }
  }

  lemma UnsubscribeUsesSlots(pool: Pool, a: Address, t: Topic, faults: Faults, id: Identify)
    requires Invariant(pool) && SlotsAreUsed(pool)
    ensures SlotsAreUsed(Unsubscribe(pool, a, t, faults, id).0) <==>
            !KeepsUnusedSlot(pool, DoUnsubscribe(a, t, faults), id)
  {
    var key, pool' := id(a, t), Unsubscribe(pool, a, t, faults, id).0;
    if key in pool.subs && !faults.option {
      var i := pool.subs[key];
      CountIsZero(pool.subs - {key}, i);
      UsedWithout(pool, key, pool'.slots);
      if KeepsUnusedSlot(pool, DoUnsubscribe(a, t, faults), id) {
        assert pool'.slots[i].address != [] && !IsUsed(pool', i);
      }
    }
  }

  /** Without one key, the other slots are still used, and its own iff it had another. */
  lemma UsedWithout(pool: Pool, key: Identifier, slots: seq<Slot>)
    requires key in pool.subs
    ensures forall j: nat :: IsUsed(Pool(slots, pool.subs - {key}), j) <==>
              if j == pool.subs[key] then exists k :: k in pool.subs && k != key && pool.subs[k] == j else IsUsed(pool, j)
  {
    var subs := pool.subs - {key};
    forall j: nat
      ensures IsUsed(Pool(slots, subs), j) <==>
              if j == pool.subs[key] then exists k :: k in pool.subs && k != key && pool.subs[k] == j else IsUsed(pool, j)
    {
      if k :| k in pool.subs && k != key && pool.subs[k] == j {
        assert k in subs && subs[k] == j;
      }
      if IsUsed(Pool(slots, subs), j) {
        var k :| k in subs && subs[k] == j;
        assert k in pool.subs && k != key && pool.subs[k] == j;
      }
    }
  }

  ghost function KeepsUnusedSlotIn(id: Identify): (Pool, Op) -> bool {
    (pool, op) => KeepsUnusedSlot(pool, op, id)
  }

  /**
   "A slot with an address has a subscription" holds throughout a run, whatever else fails, exactly if
   no unsubscription of the last pair of a slot fails to disconnect it.
   */
  lemma SlotsAlwaysUsedIff(ops: seq<Op>, id: Identify)
    requires forall op :: op in ops ==> LegalOp(op)
    ensures Always(ops, id, SlotsAreUsed) <==> Never(ops, id, KeepsUnusedSlotIn(id))
  {
    forall pool, op | Invariant(pool) && LegalOp(op) && SlotsAreUsed(pool)
      ensures SlotsAreUsed(Step(pool, op, id)) <==> !KeepsUnusedSlotIn(id)(pool, op)
    {
      SlotsAreUsedStep(pool, op, id);
    }
    AlwaysIffNever(ops, id, SlotsAreUsed, KeepsUnusedSlotIn(id));
  }

  /** The operation connects a slot, sets its filter, and finds a receive still armed on it. */
  predicate ArmsSecondReceive(pool: Pool, op: Op, id: Identify) {
    Connects(pool, op, id) && !op.faults.option && pool.slots[FindSocket(pool.slots, []).value].pending >= 1
  }

  /**
   The receives armed on a slot change in two ways only: a new connection arms one more, and a receive that
   completes on a free slot is not armed again.
   */
  lemma PendingStep(pool: Pool, op: Op, id: Identify, i: nat)
    requires Invariant(pool) && LegalOp(op) && i < |pool.slots|
    ensures |Step(pool, op, id).slots| == |pool.slots|
    ensures var before, after := pool.slots[i].pending, Step(pool, op, id).slots[i].pending;
            if Connects(pool, op, id) && !op.faults.option && FindSocket(pool.slots, []) == Some(i)
            then after == before + 1
            else if op == DoComplete(i) && pool.slots[i].address == [] && before > 0 then after == before - 1
            else after == before
  {
  }

  function CompletedAll(pool: Pool, i: nat, n: nat): Pool {
    if n == 0 then pool else Complete(CompletedAll(pool, i, n - 1), i)
  }

  /** The receives left over on a free slot end with their completions; a slot in use always has its own armed. */
  lemma {:induction false} CompletionsEndFreeReceives(pool: Pool, i: nat, n: nat)
    requires i < |pool.slots|
    ensures var pending := pool.slots[i].pending;
            CompletedAll(pool, i, n) ==
            pool.(slots := pool.slots[i := pool.slots[i].(pending :=
                    if pool.slots[i].address != [] then pending else if n <= pending then pending - n else 0)])
  {
    if n > 0 { CompletionsEndFreeReceives(pool, i, n - 1); }
  }

  /** In any pool, exactly these operations arm a receive on a slot that has one already. */
  lemma SecondReceiveIff(pool: Pool, op: Op, id: Identify)
    requires Invariant(pool) && LegalOp(op)
    ensures |Step(pool, op, id).slots| == |pool.slots|
    ensures (exists i :: 0 <= i < |pool.slots| &&
               Step(pool, op, id).slots[i].pending > pool.slots[i].pending >= 1)
            <==> ArmsSecondReceive(pool, op, id)
  {
    forall i | 0 <= i < |pool.slots|
      ensures Step(pool, op, id).slots[i].pending > pool.slots[i].pending <==>
              Connects(pool, op, id) && !op.faults.option && FindSocket(pool.slots, []) == Some(i)
    {
      PendingStep(pool, op, id, i);
    }
  }

  /** No slot has two receives armed. */
  ghost predicate SingleReceives(pool: Pool) {
    forall i :: 0 <= i < |pool.slots| ==> pool.slots[i].pending <= 1
  }

  lemma SingleReceivesStep(pool: Pool, op: Op, id: Identify)
    requires Invariant(pool) && LegalOp(op) && SingleReceives(pool)
    ensures SingleReceives(Step(pool, op, id)) <==> !ArmsSecondReceive(pool, op, id)
  {
    forall i | 0 <= i < |pool.slots|
      ensures |Step(pool, op, id).slots| == |pool.slots|
      ensures Step(pool, op, id).slots[i].pending <= 1 <==>
              !(ArmsSecondReceive(pool, op, id) && FindSocket(pool.slots, []) == Some(i))
    {
      PendingStep(pool, op, id, i);
    }
    assert |Step(pool, op, id).slots| == |pool.slots| by { SecondReceiveIff(pool, op, id); }
  }

  function ArmsSecondReceiveIn(id: Identify): (Pool, Op) -> bool {
    (pool, op) => ArmsSecondReceive(pool, op, id)
  }

  /** "No slot has two receives armed" holds throughout a run exactly if no operation in it arms a second one. */
  lemma AlwaysSingleReceivesIff(ops: seq<Op>, id: Identify)
    requires forall op :: op in ops ==> LegalOp(op)
    ensures Always(ops, id, SingleReceives) <==> Never(ops, id, ArmsSecondReceiveIn(id))
  {
    forall pool, op | Invariant(pool) && LegalOp(op) && SingleReceives(pool)
      ensures SingleReceives(Step(pool, op, id)) <==> !ArmsSecondReceiveIn(id)(pool, op)
    {
      SingleReceivesStep(pool, op, id);
    }
    AlwaysIffNever(ops, id, SingleReceives, ArmsSecondReceiveIn(id));
  }

  /** Such a run exists: subscribe, unsubscribe, subscribe, with no receive completed in between. */
  lemma ReusedSlotReceivesTwice(a: Address, t: Topic, id: Identify)
    requires a != []
    ensures var p := Run([DoSubscribe(a, t, NO_FAULTS), DoUnsubscribe(a, t, NO_FAULTS), DoSubscribe(a, t, NO_FAULTS)], id);
            p.slots != [] && p.slots[0].pending == 2
  {
    var ops := [DoSubscribe(a, t, NO_FAULTS), DoUnsubscribe(a, t, NO_FAULTS), DoSubscribe(a, t, NO_FAULTS)];
    assert ops[..2] == [ops[0], ops[1]] && ops[..2][..1] == [ops[0]] && [ops[0]][..0] == [];
    var key := id(a, t);
    var p0 := InitialPool();
    assert p0.slots[0].address == [];
    assert FindSocket(p0.slots, []) == Some(0);
    forall j | 0 <= j < |p0.slots| ensures p0.slots[j].address != a {
    }
    assert Run([], id) == p0;
    var p1 := Run([ops[0]], id);
    assert p1 == Subscribe(p0, a, t, NO_FAULTS, id).0;
    assert multiset{} + multiset{t} == multiset{t};
    assert {} + {a} == {a} && {a} - {a} == {};
    assert p1 == Pool(p0.slots[0 := Slot(a, {a}, multiset{t}, 1)], map[key := 0]);
    var p2 := Run(ops[..2], id);
    CountIsZero(p1.subs - {key}, 0);
    assert p2 == Pool(p1.slots[0 := Slot([], {}, multiset{}, 1)], map[]);
    assert p2.slots[0].address == [];
    assert FindSocket(p2.slots, []) == Some(0);
    forall j | 0 <= j < |p2.slots| ensures p2.slots[j].address != a {
    }
  }

  // ---------------------------------------------------------------------------------------------
  // Connections that are left open

  /** The addresses a socket is connected to although its slot does not say so. */
  function Leaked(slot: Slot): set<Address> {
    slot.connections - {slot.address}
  }

  /** Every socket is connected to the address of its slot, and a free one to none. */
  ghost predicate NothingLeaked(pool: Pool) {
    forall i :: 0 <= i < |pool.slots| ==>
      pool.slots[i].connections == if pool.slots[i].address == [] then {} else {pool.slots[i].address}
  }

  /** One operation: opening a connection decides whether it is leaked; nothing else changes what is. */
  lemma LeakStep(pool: Pool, op: Op, id: Identify, i: nat, a: Address)
    requires Invariant(pool) && LegalOp(op) && i < MAX_SUBSCRIPTION_SOCKETS && a != []
    ensures Invariant(Step(pool, op, id))
    ensures a in Leaked(Step(pool, op, id).slots[i]) <==>
            if Connects(pool, op, id) && FindSocket(pool.slots, []) == Some(i) && op.address == a
            then LeavesConnection(pool, op, id) else a in Leaked(pool.slots[i])
  {
    match op
    case DoSubscribe(b, t, faults) =>
      SubscribeKeepsInvariant(pool, b, t, faults, id);
      LeakSubscribe(pool, b, t, faults, id, i, a);
    case DoUnsubscribe(b, t, faults) =>
      UnsubscribeKeepsInvariant(pool, b, t, faults, id);
    case DoComplete(j) =>
      CompleteKeepsInvariant(pool, j);
  }

  lemma LeakSubscribe(pool: Pool, b: Address, t: Topic, faults: Faults, id: Identify, i: nat, a: Address)
    requires Invariant(pool) && b != [] && i < MAX_SUBSCRIPTION_SOCKETS && a != []
    ensures |Subscribe(pool, b, t, faults, id).0.slots| == |pool.slots|
    ensures var op := DoSubscribe(b, t, faults);
            a in Leaked(Subscribe(pool, b, t, faults, id).0.slots[i]) <==>
            if Connects(pool, op, id) && FindSocket(pool.slots, []) == Some(i) && b == a
            then LeavesConnection(pool, op, id) else a in Leaked(pool.slots[i])
  {
  }

  /** The last time the slot was newly connected to the address, this failed and was not undone. */
  predicate LeftOpen(ops: seq<Op>, id: Identify, i: nat, a: Address)
    decreases |ops|
  {
    if ops == [] then false
    else
      var pool, op := Run(ops[..|ops| - 1], id), ops[|ops| - 1];
      if Connects(pool, op, id) && FindSocket(pool.slots, []) == Some(i) && op.address == a
      then LeavesConnection(pool, op, id) else LeftOpen(ops[..|ops| - 1], id, i, a)
  }

  /** In every run, whatever fails: exactly those connections are left open. */
  lemma {:induction false} LeakedIffLeftOpen(ops: seq<Op>, id: Identify, i: nat, a: Address)
    requires (forall op :: op in ops ==> LegalOp(op)) && i < MAX_SUBSCRIPTION_SOCKETS && a != []
    ensures Invariant(Run(ops, id))
    ensures a in Leaked(Run(ops, id).slots[i]) <==> LeftOpen(ops, id, i, a)
    decreases |ops|
  {
    if ops != [] {
      var before, op := ops[..|ops| - 1], ops[|ops| - 1];
      assert op in ops;
      assert forall o :: o in before ==> o in ops;
      LeakedIffLeftOpen(before, id, i, a);
      LeakStep(Run(before, id), op, id, i, a);
    }
  }

  /** An operation leaks nothing, where nothing was leaked, exactly if it leaves no connection. */
  lemma NothingLeakedStep(pool: Pool, op: Op, id: Identify)
    requires Invariant(pool) && LegalOp(op) && NothingLeaked(pool)
    ensures NothingLeaked(Step(pool, op, id)) <==> !LeavesConnection(pool, op, id)
  {
    match op
    case DoSubscribe(a, t, faults) => NothingLeakedSubscribe(pool, a, t, faults, id);
    case DoUnsubscribe(_, _, _) =>
    case DoComplete(_) =>
  }

  lemma NothingLeakedSubscribe(pool: Pool, a: Address, t: Topic, faults: Faults, id: Identify)
    requires Invariant(pool) && a != [] && NothingLeaked(pool)
    ensures NothingLeaked(Subscribe(pool, a, t, faults, id).0) <==> !LeavesConnection(pool, DoSubscribe(a, t, faults), id)
  {
    var pool' := Subscribe(pool, a, t, faults, id).0;
    if Connects(pool, DoSubscribe(a, t, faults), id) {
      var i := FindSocket(pool.slots, []).value;
      assert pool.slots[i].connections == {};
      assert a in pool'.slots[i].connections <==> !faults.option || faults.disconnect;
      assert pool'.slots == pool.slots[i := pool'.slots[i]];
    }
  }

  function LeavesConnectionIn(id: Identify): (Pool, Op) -> bool {
    (pool, op) => LeavesConnection(pool, op, id)
  }

  /**
   "A free slot has no connection, and any other only the one to its address" holds throughout a run
   exactly if no subscription in it fails to set its filter and then to close the connection it had
   opened for it.
   */
  lemma NothingEverLeakedIff(ops: seq<Op>, id: Identify)
    requires forall op :: op in ops ==> LegalOp(op)
    ensures Always(ops, id, NothingLeaked) <==> Never(ops, id, LeavesConnectionIn(id))
  {
    forall pool, op | Invariant(pool) && LegalOp(op) && NothingLeaked(pool)
      ensures NothingLeaked(Step(pool, op, id)) <==> !LeavesConnectionIn(id)(pool, op)
    {
      NothingLeakedStep(pool, op, id);
    }
    AlwaysIffNever(ops, id, NothingLeaked, LeavesConnectionIn(id));
  }

  /** In particular a run without failures leaks nothing. */
  lemma {:induction false} FaultlessRunsLeakNothing(ops: seq<Op>, id: Identify)
    requires forall op :: op in ops ==> Faultless(op)
    ensures Never(ops, id, LeavesConnectionIn(id)) && NothingLeaked(Run(ops, id))
    decreases |ops|
  {
    if ops != [] {
      assert ops[|ops| - 1] in ops;
      assert forall o :: o in ops[..|ops| - 1] ==> o in ops;
      FaultlessRunsLeakNothing(ops[..|ops| - 1], id);
    }
    NothingEverLeakedIff(ops, id);
    AlwaysNow(ops, id, NothingLeaked);
  }

  /** A connection that is left open stays when its slot is used for another address. */
  lemma ReusedSlotHearsTwoAddresses(a: Address, b: Address, t: Topic, id: Identify)
    requires a != [] && b != []
    ensures var p := Run([DoSubscribe(a, t, Faults(false, true, true)), DoSubscribe(b, t, NO_FAULTS)], id);
            p.slots != [] && p.slots[0].address == b && p.slots[0].connections == {a, b}
  {
    var ops := [DoSubscribe(a, t, Faults(false, true, true)), DoSubscribe(b, t, NO_FAULTS)];
    assert ops[..1] == [ops[0]] && [ops[0]][..0] == [];
    var p0 := InitialPool();
    assert p0.slots[0].address == [] && FindSocket(p0.slots, []) == Some(0);
    forall j | 0 <= j < |p0.slots| ensures p0.slots[j].address == [] {
    }
    assert Run([], id) == p0;
    var p1 := Run([ops[0]], id);
    assert p1 == Subscribe(p0, a, t, Faults(false, true, true), id).0;
    assert p1 == Pool(p0.slots[0 := Slot([], {} + {a}, multiset{}, 0)], map[]);
    assert p1.slots[0].address == [] && FindSocket(p1.slots, []) == Some(0);
    forall j | 0 <= j < |p1.slots| ensures p1.slots[j].address == [] {
    }
  }
}
