/** The single-writer coordinator: it owns the canonical projection, its revision and the subscriber registry. */
module StateCoordinator {
  import opened GoText
  import opened Wrappers
  import opened StateProjection

  const DEFAULT_SUBSCRIBER_BUFFER := 64

  datatype Delta = Delta(kind: Text, schema: int, instance: Text, base: nat, revision: nat, operations: seq<Operation>)
  {
    /** What a receiver of a delta envelope checks. */
    predicate Validate() {
      && kind == "delta"
      && schema == SCHEMA_VERSION
      && !Blank(instance)
      && revision > base
      && operations != []
      && forall i :: 0 <= i < |operations| ==> operations[i].Validate().None?
    }
  }

  datatype Message =
    | DeltaMessage(delta: Delta)
    | ResyncRequired(instance: Text, revision: nat)

  datatype SnapshotEnvelope = SnapshotEnvelope(instance: Text, revision: nat, state: Projection)

  /** A subscriber's bounded channel; a closed channel can still be drained by its reader. */
  datatype Channel = Channel(capacity: nat, queue: seq<Message>, closed: bool)

  datatype CommitResult = CommitResult(changed: bool, revision: nat, delta: Option<Delta>)

  datatype CommitError = InvalidBatch(fault: Fault) | CoordinatorClosed

  /** The coordinator's state between two commands. `registry` holds the subscribers that still receive deltas. */
  datatype Hub = Hub(
    instance: Text, projection: Projection, revision: nat, nextId: nat,
    registry: set<nat>, channels: map<nat, Channel>, stopped: bool)
  {
    predicate Valid() {
      && registry <= channels.Keys
      && (forall id :: id in channels ==> id <= nextId)
      && (forall id :: id in registry ==> !channels[id].closed)
      && (forall id :: id in channels ==> 0 < channels[id].capacity && |channels[id].queue| <= channels[id].capacity)
    }
  }

  function Start(instance: Text): Hub {
    Hub(instance, EMPTY, 0, 0, {}, map[], false)
  }

  /** What a batch does to the projection, and the result its sender gets. */
  function ApplyCommit(h: Hub, operations: seq<Operation>): (CommitResult, Projection, Option<CommitError>) {
    var same := CommitResult(false, h.revision, None);
    if operations == [] then (same, h.projection, None) else
      match Evaluate(h.projection, operations)
      case Err(fault) => (same, h.projection, Some(InvalidBatch(fault)))
      case Ok(next) =>
        if next == h.projection then (same, h.projection, None) else
          var delta := Delta("delta", SCHEMA_VERSION, h.instance, h.revision, h.revision + 1, operations);
          (CommitResult(true, h.revision + 1, Some(delta)), next, None)
  }

  predicate HasRoom(c: Channel) {
    |c.queue| < c.capacity
  }

  /** A full channel is drained, gets one resync message and is closed. */
  function Offer(c: Channel, delta: Delta): Channel {
    if HasRoom(c) then c.(queue := c.queue + [DeltaMessage(delta)])
    else c.(queue := [ResyncRequired(delta.instance, delta.revision)], closed := true)
  }

  function KeptSubscribers(registry: set<nat>, channels: map<nat, Channel>): set<nat>
    requires registry <= channels.Keys
  {
    set id | id in registry && HasRoom(channels[id])
  }

  function OfferAll(registry: set<nat>, channels: map<nat, Channel>, delta: Delta): map<nat, Channel> {
    map id | id in channels :: if id in registry then Offer(channels[id], delta) else channels[id]
  }

  function CommitStep(h: Hub, operations: seq<Operation>): (r: (Hub, Result<CommitResult, CommitError>))
    requires h.Valid()
    ensures r.0.Valid() && r.0.stopped == h.stopped
  {
    if h.stopped then (h, Err(CoordinatorClosed)) else
      var (result, next, error) := ApplyCommit(h, operations);
      if error.Some? then (h, Err(error.value))
      else if !result.changed then (h, Ok(result))
      else
        (h.(projection := next, revision := result.revision,
            registry := KeptSubscribers(h.registry, h.channels),
            channels := OfferAll(h.registry, h.channels, result.delta.value)),
         Ok(result))
  }

  function TakeSnapshot(h: Hub): SnapshotEnvelope {
    SnapshotEnvelope(h.instance, h.revision, h.projection)
  }

  function SubscribeStep(h: Hub, queueSize: int): (Hub, Option<(nat, SnapshotEnvelope)>)
    requires h.Valid()
  {
    if h.stopped then (h, None) else
      var capacity := if queueSize <= 0 then DEFAULT_SUBSCRIBER_BUFFER else queueSize;
      var id := h.nextId + 1;
      (h.(nextId := id, registry := h.registry + {id}, channels := h.channels[id := Channel(capacity, [], false)]),
       Some((id, TakeSnapshot(h))))
  }

  function UnsubscribeStep(h: Hub, id: nat): Hub
    requires h.Valid()
  {
    if h.stopped || id !in h.registry then h
    else h.(registry := h.registry - {id}, channels := h.channels[id := h.channels[id].(closed := true)])
  }

  /** A subscriber takes the oldest message out of its channel, if there is one. */
  function ReceiveStep(h: Hub, id: nat): (Hub, Option<Message>)
    requires h.Valid()
  {
    if id in h.channels && h.channels[id].queue != [] then
      (h.(channels := h.channels[id := h.channels[id].(queue := h.channels[id].queue[1..])]),
       Some(h.channels[id].queue[0]))
    else (h, None)
  }

  function StopStep(h: Hub): Hub
    requires h.Valid()
  {
    h.(stopped := true, registry := {},
       channels := (map id | id in h.channels ::
         if id in h.registry then h.channels[id].(closed := true) else h.channels[id]))
  }

  // ---------- The coordinator itself ----------

  class Coordinator {
    const instanceId: Text
    var projection: Projection
    var revision: nat
    var nextSubscriberId: nat
    var subscribers: set<nat>
    var channels: map<nat, Channel>
    var stopped: bool

    ghost function View(): Hub
      reads this
    {
      Hub(instanceId, projection, revision, nextSubscriberId, subscribers, channels, stopped)
    }

    ghost predicate Valid()
      reads this
    {
      View().Valid()
    }

    constructor (instanceId: Text)
      requires instanceId != ""
      ensures Valid() && View() == Start(instanceId)
    {
      this.instanceId := instanceId;
      projection, revision, nextSubscriberId := EMPTY, 0, 0;
      subscribers, channels, stopped := {}, map[], false;
    }

    method EvaluateBatch(operations: seq<Operation>) returns (result: Result<Projection, Fault>)
      ensures result == Evaluate(projection, operations)
    {
      var next := projection;
      for index := 0 to |operations|
        invariant Evaluate(projection, operations[..index]) == Ok(next)
      {
        assert operations[..index + 1][..index] == operations[..index];
        var error := operations[index].Validate();
        if error.Some? {
          ghost var prefix := operations[..index + 1];
          assert Evaluate(projection, prefix) == Err(Fault(index, error.value));
          ErrorPersists(projection, operations, index + 1);
          return Err(Fault(index, error.value));
        }
        next := ApplyOperation(next, operations[index]);
      }
      assert operations[..|operations|] == operations;
      return Ok(next);
    }

    method Commit(operations: seq<Operation>) returns (result: Result<CommitResult, CommitError>)
      requires Valid()
      modifies this
      ensures Valid()
      ensures (View(), result) == CommitStep(old(View()), operations)
    {
      hide Evaluate, KeptSubscribers, OfferAll;
      if stopped {
        return Err(CoordinatorClosed);
      }
      if operations == [] {
        return Ok(CommitResult(false, revision, None));
      }
      var evaluated := EvaluateBatch(operations);
      if evaluated.Err? {
        return Err(InvalidBatch(evaluated.error));
      }
      if evaluated.value == projection {
        return Ok(CommitResult(false, revision, None));
      }
      var delta := Delta("delta", SCHEMA_VERSION, instanceId, revision, revision + 1, operations);
      projection := evaluated.value;
      revision := revision + 1;
      Broadcast(delta);
      result := Ok(CommitResult(true, revision, Some(delta)));
    }

    /** Every registered subscriber is offered the delta, in any order. */
    method Broadcast(delta: Delta)
      requires Valid()
      modifies this`subscribers, this`channels
      ensures Valid()
      ensures subscribers == KeptSubscribers(old(subscribers), old(channels))
      ensures channels == OfferAll(old(subscribers), old(channels), delta)
    {
      var rest := subscribers;
      while rest != {}
        invariant rest <= old(subscribers)
        invariant channels.Keys == old(channels).Keys
        invariant subscribers == set id | id in old(subscribers) && (id in rest || HasRoom(old(channels)[id]))
        invariant forall id :: id in old(channels) ==>
          channels[id] == if id in old(subscribers) - rest then Offer(old(channels)[id], delta) else old(channels)[id]
        decreases rest
      {
        var id :| id in rest;
        var channel := channels[id];
        if |channel.queue| < channel.capacity {
          channels := channels[id := channel.(queue := channel.queue + [DeltaMessage(delta)])];
        } else {
          var resync := ResyncRequired(delta.instance, delta.revision);
          channels := channels[id := channel.(queue := [resync], closed := true)];
          subscribers := subscribers - {id};
        }
        rest := rest - {id};
      }
    }

    /** A stopped coordinator answers no more. */
    method Snapshot() returns (snapshot: Option<SnapshotEnvelope>)
      ensures snapshot == if stopped then None else Some(TakeSnapshot(View()))
    {
      if stopped {
        return None;
      }
      return Some(SnapshotEnvelope(instanceId, revision, projection));
    }

    method Subscribe(queueSize: int) returns (subscription: Option<(nat, SnapshotEnvelope)>)
      requires Valid()
      modifies this
      ensures Valid()
      ensures (View(), subscription) == SubscribeStep(old(View()), queueSize)
    {
      if stopped {
        return None;
      }
      var size := queueSize;
      if size <= 0 {
        size := DEFAULT_SUBSCRIBER_BUFFER;
      }
      nextSubscriberId := nextSubscriberId + 1;
      subscribers := subscribers + {nextSubscriberId};
      channels := channels[nextSubscriberId := Channel(size, [], false)];
      return Some((nextSubscriberId, SnapshotEnvelope(instanceId, revision, projection)));
    }

    method Unsubscribe(id: nat)
      requires Valid()
      modifies this
      ensures Valid()
      ensures View() == UnsubscribeStep(old(View()), id)
    {
      if !stopped && id in subscribers {
        subscribers := subscribers - {id};
        channels := channels[id := channels[id].(closed := true)];
      }
    }

    method Receive(id: nat) returns (message: Option<Message>)
      requires Valid()
      modifies this
      ensures Valid()
      ensures (View(), message) == ReceiveStep(old(View()), id)
    {
      message := None;
      if id in channels && channels[id].queue != [] {
        message := Some(channels[id].queue[0]);
        channels := channels[id := channels[id].(queue := channels[id].queue[1..])];
      }
    }

    method Close()
      requires Valid()
      modifies this
      ensures Valid()
      ensures View() == StopStep(old(View()))
    {
      var rest := subscribers;
      while rest != {}
        invariant rest == subscribers <= old(subscribers)
        invariant channels.Keys == old(channels).Keys
        invariant forall id :: id in old(channels) ==>
          channels[id] == if id in old(subscribers) - rest then old(channels)[id].(closed := true) else old(channels)[id]
        invariant unchanged(`projection) && unchanged(`revision) && unchanged(`nextSubscriberId)
        decreases rest
      {
        var id :| id in rest;
        channels := channels[id := channels[id].(closed := true)];
        subscribers := subscribers - {id};
        rest := rest - {id};
      }
      stopped := true;
    }
  }

  lemma {:induction false} ErrorPersists(p: Projection, operations: seq<Operation>, n: nat)
    requires n <= |operations| && Evaluate(p, operations[..n]).Err?
    ensures Evaluate(p, operations) == Evaluate(p, operations[..n])
  {
    if n == |operations| {
      assert operations[..n] == operations;
    } else {
      var last := |operations| - 1;
      assert operations[..last][..n] == operations[..n];
      ErrorPersists(p, operations[..last], n);
    }
  }
}
