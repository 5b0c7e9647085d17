/** Subscribers follow the canonical projection: what holds in every run of commit, subscribe, unsubscribe,
    receive and stop steps. */
module StateReplication {
  import opened GoText
  import opened Wrappers
  import opened StateProjection
  import opened StateCoordinator

  /** What a subscriber was given when it subscribed and what it has taken from its channel since. */
  datatype Client = Client(snapshot: SnapshotEnvelope, received: seq<Message>)

  /** The hub, the projection of every revision so far, and the subscribers. */
  datatype World = World(hub: Hub, history: seq<Projection>, clients: map<nat, Client>)

  datatype Step =
    | DoCommit(operations: seq<Operation>)
    | DoSubscribe(queueSize: int)
    | DoUnsubscribe(id: nat)
    | DoReceive(id: nat)
    | DoStop

  function Next(w: World, step: Step): World
    requires w.hub.Valid()
  {
    match step
    case DoCommit(operations) =>
      var (hub, result) := CommitStep(w.hub, operations);
      var history := if result.Ok? && result.value.changed then w.history + [hub.projection] else w.history;
      World(hub, history, w.clients)
    case DoSubscribe(queueSize) =>
      var (hub, subscription) := SubscribeStep(w.hub, queueSize);
      (match subscription
       case None => w.(hub := hub)
       case Some((id, snapshot)) => World(hub, w.history, w.clients[id := Client(snapshot, [])]))
    case DoUnsubscribe(id) => w.(hub := UnsubscribeStep(w.hub, id))
    case DoReceive(id) =>
      var (hub, message) := ReceiveStep(w.hub, id);
      if message.None? || id !in w.clients then w.(hub := hub)
      else World(hub, w.history, w.clients[id := w.clients[id].(received := w.clients[id].received + [message.value])])
    case DoStop => w.(hub := StopStep(w.hub))
  }

  /** The world after a run. */
  function After(instance: Text, steps: seq<Step>): (w: World)
    ensures w.hub.Valid()
  {
    if steps == [] then World(Start(instance), [EMPTY], map[]) else
      var before := After(instance, steps[..|steps| - 1]);
      NextIsValid(before, steps[|steps| - 1]);
      Next(before, steps[|steps| - 1])
  }

  lemma NextIsValid(w: World, step: Step)
    requires w.hub.Valid()
    ensures Next(w, step).hub.Valid()
  {
    hide Evaluate;
  }

  // ---------- A subscriber's replica ----------

  datatype Replica =
    | Following(state: Projection, revision: nat)
    | MustResync(state: Projection, revision: nat)
    | Broken

  /** A subscriber applies each delta to its copy; a delta that does not start at the copy's revision, or that
      does not apply, or any message after a resync, breaks it. */
  function Absorb(replica: Replica, message: Message): Replica {
    match (replica, message)
    case (Following(state, revision), ResyncRequired(_, _)) => MustResync(state, revision)
    case (Following(state, revision), DeltaMessage(delta)) =>
      if delta.base != revision then Broken else
        (match Evaluate(state, delta.operations)
         case Ok(next) => Following(next, delta.revision)
         case Err(_) => Broken)
    case _ => Broken
  }

  function Replay(snapshot: SnapshotEnvelope, messages: seq<Message>): Replica {
    if messages == [] then Following(snapshot.state, snapshot.revision)
    else Absorb(Replay(snapshot, messages[..|messages| - 1]), messages[|messages| - 1])
  }

  // ---------- The invariant ----------

  /** All the messages a subscriber has taken or can still take. */
  function Stream(w: World, id: nat): seq<Message>
    requires id in w.clients && id in w.hub.channels
  {
    w.clients[id].received + w.hub.channels[id].queue
  }

  /** The delta leads from one recorded projection to the next. */
  ghost predicate Links(history: seq<Projection>, message: Message, base: nat) {
    && message.DeltaMessage?
    && base + 1 < |history|
    && message.delta.base == base
    && message.delta.revision == base + 1
    && Evaluate(history[base], message.delta.operations) == Ok(history[base + 1])
  }

  /** From revision `base` on, the messages are consecutive deltas, except that the last may ask to resync. */
  ghost predicate Chained(history: seq<Projection>, messages: seq<Message>, base: nat) {
    forall i :: 0 <= i < |messages| ==>
      Links(history, messages[i], base + i) || (i == |messages| - 1 && messages[i].ResyncRequired?)
  }

  ghost predicate ClientInv(w: World, id: nat)
    requires id in w.clients && id in w.hub.channels
  {
    var snapshot, stream := w.clients[id].snapshot, Stream(w, id);
    && snapshot.revision < |w.history|
    && snapshot.state == w.history[snapshot.revision]
    && Chained(w.history, stream, snapshot.revision)
    && (id in w.hub.registry ==>
          snapshot.revision + |stream| == w.hub.revision && forall i :: 0 <= i < |stream| ==> stream[i].DeltaMessage?)
    && (id !in w.hub.registry ==> w.hub.channels[id].closed)
  }

  ghost predicate Inv(w: World) {
    && w.hub.Valid()
    && |w.history| == w.hub.revision + 1
    && w.history[w.hub.revision] == w.hub.projection
    && w.clients.Keys == w.hub.channels.Keys
    && forall id :: id in w.clients ==> ClientInv(w, id)
  }

  lemma ChainedGrows(history: seq<Projection>, latest: Projection, messages: seq<Message>, base: nat)
    requires Chained(history, messages, base)
    ensures Chained(history + [latest], messages, base)
  {
    var longer := history + [latest];
    forall i | 0 <= i < |messages|
      ensures Links(longer, messages[i], base + i) || (i == |messages| - 1 && messages[i].ResyncRequired?)
    {
      if Links(history, messages[i], base + i) {
        assert longer[base + i] == history[base + i] && longer[base + i + 1] == history[base + i + 1];
      }
    }
  }

  /** The delta of a commit leads from the latest recorded projection to the new one. */
  lemma DeltaLinks(w: World, operations: seq<Operation>)
    requires Inv(w)
    ensures var (hub, result) := CommitStep(w.hub, operations);
      if result.Ok? && result.value.changed then
        && result.value.delta.Some?
        && Links(w.history + [hub.projection], DeltaMessage(result.value.delta.value), w.hub.revision)
        && hub.revision == w.hub.revision + 1
        && hub.registry == KeptSubscribers(w.hub.registry, w.hub.channels)
        && hub.channels == OfferAll(w.hub.registry, w.hub.channels, result.value.delta.value)
      else hub == w.hub
  {
    var (hub, result) := CommitStep(w.hub, operations);
    if result.Ok? && result.value.changed {
      var longer := w.history + [hub.projection];
      assert longer[w.hub.revision] == w.hub.projection && longer[w.hub.revision + 1] == hub.projection;
    }
  }

  lemma OfferKeepsClient(w: World, w': World, id: nat, delta: Delta)
    requires id in w.clients && id in w.hub.channels && ClientInv(w, id) && Inv(w)
    requires w'.clients == w.clients && w'.hub.revision == w.hub.revision + 1 && |w'.history| == |w.history| + 1
    requires w'.history == w.history + [w'.hub.projection]
    requires w'.hub.registry == KeptSubscribers(w.hub.registry, w.hub.channels)
    requires w'.hub.channels == OfferAll(w.hub.registry, w.hub.channels, delta)
    requires Links(w'.history, DeltaMessage(delta), w.hub.revision)
    ensures ClientInv(w', id)
  {
    hide Evaluate;
    var base, stream, stream' := w.clients[id].snapshot.revision, Stream(w, id), Stream(w', id);
    ChainedGrows(w.history, w'.hub.projection, stream, base);
    assert w'.history[base] == w.history[base];
    if id !in w.hub.registry {
      assert stream' == stream;
    } else if HasRoom(w.hub.channels[id]) {
      assert stream' == stream + [DeltaMessage(delta)];
    } else {
      var received := w.clients[id].received;
      assert stream' == received + [ResyncRequired(delta.instance, delta.revision)];
      assert forall i :: 0 <= i < |received| ==> received[i] == stream[i];
    }
  }

  lemma CommitKeepsInv(w: World, operations: seq<Operation>)
    requires Inv(w)
    ensures Inv(Next(w, DoCommit(operations)))
  {
    hide Evaluate;
    var w' := Next(w, DoCommit(operations));
    var (hub, result) := CommitStep(w.hub, operations);
    DeltaLinks(w, operations);
    if result.Ok? && result.value.changed {
      forall id | id in w'.clients ensures ClientInv(w', id) {
        OfferKeepsClient(w, w', id, result.value.delta.value);
      }
      NextIsValid(w, DoCommit(operations));
    } else {
      assert w' == w;
    }
  }

  /** A client invariant only looks at the history, the client's own channel and message stream. */
  lemma SameStreamKeepsClient(w: World, w': World, id: nat)
    requires id in w.clients && id in w.hub.channels && ClientInv(w, id)
    requires id in w'.clients && id in w'.hub.channels && w'.history == w.history
    requires w'.clients[id].snapshot == w.clients[id].snapshot && Stream(w', id) == Stream(w, id)
    requires w'.hub.revision == w.hub.revision
    requires id in w'.hub.registry ==> id in w.hub.registry
    requires id !in w'.hub.registry ==> w'.hub.channels[id].closed
    ensures ClientInv(w', id)
  {
  }

  lemma ReceiveKeepsStreams(w: World, i: nat, id: nat)
    requires Inv(w) && id in w.clients
    ensures var w' := Next(w, DoReceive(i));
      && id in w'.clients && id in w'.hub.channels
      && w'.clients[id].snapshot == w.clients[id].snapshot
      && Stream(w', id) == Stream(w, id)
      && w'.hub.channels[id].closed == w.hub.channels[id].closed
  {
    hide Evaluate, ClientInv;
  }

  lemma ReceiveKeepsRest(w: World, i: nat)
    requires Inv(w)
    ensures var w' := Next(w, DoReceive(i));
      && w'.history == w.history && w'.hub.revision == w.hub.revision && w'.hub.projection == w.hub.projection
      && w'.hub.registry == w.hub.registry
      && w'.clients.Keys == w.clients.Keys && w'.hub.channels.Keys == w.hub.channels.Keys
  {
    hide Evaluate;
  }

  lemma ReceiveKeepsClient(w: World, w': World, i: nat, id: nat)
    requires Inv(w) && id in w.clients && w' == Next(w, DoReceive(i))
    ensures id in w'.clients && id in w'.hub.channels && ClientInv(w', id)
  {
    ReceiveKeepsStreams(w, i, id);
    ReceiveKeepsRest(w, i);
    SameStreamKeepsClient(w, w', id);
  }

  lemma SubscribeKeepsInv(w: World, queueSize: int)
    requires Inv(w)
    ensures Inv(Next(w, DoSubscribe(queueSize)))
  {
    hide Evaluate, Links;
    var w' := Next(w, DoSubscribe(queueSize));
    NextIsValid(w, DoSubscribe(queueSize));
    forall id | id in w'.clients ensures ClientInv(w', id) {
      if id in w.clients { SameStreamKeepsClient(w, w', id); }
    }
  }

  lemma UnsubscribeKeepsInv(w: World, i: nat)
    requires Inv(w)
    ensures Inv(Next(w, DoUnsubscribe(i)))
  {
    hide Evaluate;
    var w' := Next(w, DoUnsubscribe(i));
    NextIsValid(w, DoUnsubscribe(i));
    forall id | id in w'.clients ensures ClientInv(w', id) {
      SameStreamKeepsClient(w, w', id);
    }
  }

  lemma ReceiveKeepsInv(w: World, i: nat)
    requires Inv(w)
    ensures Inv(Next(w, DoReceive(i)))
  {
    hide Evaluate;
    var w' := Next(w, DoReceive(i));
    NextIsValid(w, DoReceive(i));
    ReceiveKeepsRest(w, i);
    forall id | id in w'.clients ensures ClientInv(w', id) {
      ReceiveKeepsClient(w, w', i, id);
    }
  }

  lemma StopKeepsInv(w: World)
    requires Inv(w)
    ensures Inv(Next(w, DoStop))
  {
    hide Evaluate;
    var w' := Next(w, DoStop);
    NextIsValid(w, DoStop);
    forall id | id in w'.clients ensures ClientInv(w', id) {
      SameStreamKeepsClient(w, w', id);
    }
  }

  lemma {:induction false} RunKeepsInv(instance: Text, steps: seq<Step>)
    ensures Inv(After(instance, steps))
  {
    if steps != [] {
      var before, last := steps[..|steps| - 1], steps[|steps| - 1];
      RunKeepsInv(instance, before);
      var w := After(instance, before);
      match last
      case DoCommit(operations) => CommitKeepsInv(w, operations);
      case DoSubscribe(queueSize) => SubscribeKeepsInv(w, queueSize);
      case DoUnsubscribe(id) => UnsubscribeKeepsInv(w, id);
      case DoReceive(id) => ReceiveKeepsInv(w, id);
      case DoStop => StopKeepsInv(w);
    }
  }

  // ---------- The theorems ----------

  /** A delta that links two recorded projections takes a replica from the one to the other. */
  lemma DeltaFollows(history: seq<Projection>, message: Message, base: nat)
    requires Links(history, message, base)
    ensures base + 1 < |history| && message.DeltaMessage?
    ensures Absorb(Following(history[base], base), message) == Following(history[base + 1], base + 1)
  {
    hide Evaluate;
  }

  lemma ChainedPrefix(history: seq<Projection>, messages: seq<Message>, base: nat)
    requires Chained(history, messages, base) && messages != []
    ensures var n := |messages| - 1;
      && Chained(history, messages[..n], base)
      && (forall i :: 0 <= i < n ==> messages[i].DeltaMessage?)
      && (Links(history, messages[n], base + n) || messages[n].ResyncRequired?)
  {
    hide Evaluate;
    var n := |messages| - 1;
    forall i | 0 <= i < n ensures messages[i].DeltaMessage? && Links(history, messages[..n][i], base + i) {
      assert Links(history, messages[i], base + i);
    }
  }

  lemma {:induction false} ReplayFollows(history: seq<Projection>, snapshot: SnapshotEnvelope, messages: seq<Message>)
    requires snapshot.revision < |history| && snapshot.state == history[snapshot.revision]
    requires Chained(history, messages, snapshot.revision)
    ensures var replica, n := Replay(snapshot, messages), |messages|;
      if n > 0 && messages[n - 1].ResyncRequired? then
        && snapshot.revision + n - 1 < |history|
        && replica == MustResync(history[snapshot.revision + n - 1], snapshot.revision + n - 1)
      else
        && snapshot.revision + n < |history|
        && replica == Following(history[snapshot.revision + n], snapshot.revision + n)
  {
    hide Links, Chained, Evaluate;
    if messages != [] {
      var n := |messages| - 1;
      ChainedPrefix(history, messages, snapshot.revision);
      ReplayFollows(history, snapshot, messages[..n]);
      if Links(history, messages[n], snapshot.revision + n) {
        DeltaFollows(history, messages[n], snapshot.revision + n);
      }
    }
  }

  /** The replica made of what was received is exactly the canonical projection of the revision it has reached. */
  ghost predicate ReplicaIsExact(w: World, client: Client) {
    var replica := Replay(client.snapshot, client.received);
    && !replica.Broken?
    && replica.revision < |w.history|
    && replica.state == w.history[replica.revision]
    && (replica.Following? ==> replica.revision == client.snapshot.revision + |client.received|)
  }

  /** Revision r is the r-th commit that changed something. */
  ghost predicate RevisionsAreGapFree(w: World) {
    |w.history| == w.hub.revision + 1 && w.history[w.hub.revision] == w.hub.projection
  }

  ghost predicate ResyncIsLast(w: World, id: nat)
    requires id in w.clients && id in w.hub.channels
  {
    var stream := Stream(w, id);
    forall i :: 0 <= i < |stream| && stream[i].ResyncRequired? ==>
      i == |stream| - 1 && w.hub.channels[id].closed && id !in w.hub.registry
  }

  /** In every run, a subscriber's replica is never broken and is exact for the revision it has reached; applying
      what is still queued brings a registered subscriber to the current projection; and a resync request is the
      last message of a closed channel. */
  lemma SubscribersFollow(instance: Text, steps: seq<Step>, id: nat)
    requires id in After(instance, steps).clients
    ensures var w := After(instance, steps);
      && RevisionsAreGapFree(w)
      && id in w.hub.channels
      && ReplicaIsExact(w, w.clients[id])
      && ResyncIsLast(w, id)
      && (id in w.hub.registry ==>
            Replay(w.clients[id].snapshot, Stream(w, id)) == Following(w.hub.projection, w.hub.revision))
  {
    RunKeepsInv(instance, steps);
    ClientFollows(After(instance, steps), id);
  }

  lemma ClientFollows(w: World, id: nat)
    requires Inv(w) && id in w.clients
    ensures ReplicaIsExact(w, w.clients[id]) && ResyncIsLast(w, id)
    ensures id in w.hub.registry ==>
      Replay(w.clients[id].snapshot, Stream(w, id)) == Following(w.hub.projection, w.hub.revision)
  {
    assert ClientInv(w, id);
    ReceivedIsExact(w, id);
    ReplayFollows(w.history, w.clients[id].snapshot, Stream(w, id));
  }

  lemma ReceivedIsExact(w: World, id: nat)
    requires id in w.clients && id in w.hub.channels && ClientInv(w, id)
    ensures ReplicaIsExact(w, w.clients[id])
  {
    var client, stream := w.clients[id], Stream(w, id);
    var n := |client.received|;
    forall i | 0 <= i < n
      ensures Links(w.history, client.received[i], client.snapshot.revision + i)
              || (i == n - 1 && client.received[i].ResyncRequired?)
    {
      assert client.received[i] == stream[i];
    }
    ReplayFollows(w.history, client.snapshot, client.received);
  }

  /** Every delta a subscriber can see passes the envelope check, provided the instance ID is not blank;
      the constructor only refuses the empty ID. */
  lemma DeltasValidate(instance: Text, steps: seq<Step>, operations: seq<Operation>)
    ensures var (_, result) := CommitStep(After(instance, steps).hub, operations);
      result.Ok? && result.value.changed ==>
        && result.value.delta.Some?
        && result.value.delta.value.revision == After(instance, steps).hub.revision + 1
        && (result.value.delta.value.Validate() <==> !Blank(instance))
  {
    InstanceIsFixed(instance, steps);
    EvaluateFails(After(instance, steps).hub.projection, operations);
  }

  lemma {:induction false} InstanceIsFixed(instance: Text, steps: seq<Step>)
    ensures After(instance, steps).hub.instance == instance
  {
    hide Evaluate;
    if steps != [] { InstanceIsFixed(instance, steps[..|steps| - 1]); }
  }

  /** The constructor accepts an instance ID whose deltas no receiver accepts. */
  lemma BlankInstanceIsAccepted()
    ensures var op := Operation(UpsertHost, host := Some(Host("host/a", "a", "", true, false, "", 0)));
      var (_, result) := CommitStep(Start(" "), [op]);
      result.Ok? && result.value.changed && !result.value.delta.value.Validate()
  {
    var op := Operation(UpsertHost, host := Some(Host("host/a", "a", "", true, false, "", 0)));
    assert Evaluate(EMPTY, [op][..0]) == Ok(EMPTY);
    assert Evaluate(EMPTY, [op]) == Ok(ApplyOperation(EMPTY, op));
    assert "host/a" in ApplyOperation(EMPTY, op).hosts && "host/a" !in EMPTY.hosts;
    BlankSpace();
  }

  lemma BlankSpace()
    ensures Blank(" ")
  {
    assert SpaceRune(" "[..1]);
    assert " "[1..] == [];
  }
}
