/** What the coordinator's subscribers are sent: which channel gets a delta, which one a resync request, and when. */
module StateDelivery {
  import opened GoText
  import opened Wrappers
  import opened StateProjection
  import opened StateCoordinator
  import opened StateReplication

  // ---------- One commit ----------

  /** The batch is accepted and leads to another projection. */
  ghost predicate Changes(h: Hub, operations: seq<Operation>) {
    && !h.stopped && operations != []
    && Evaluate(h.projection, operations).Ok? && Evaluate(h.projection, operations).value != h.projection
  }

  /** A registered channel that is not full gets the delta behind its unread messages; a full one is left with nothing
      but the resync request, closed and unregistered; any other channel stays as it is. */
  ghost predicate IsServed(h: Hub, h': Hub, id: nat, delta: Delta)
    requires id in h.channels && id in h'.channels
  {
    var before, after := h.channels[id], h'.channels[id];
    if id !in h.registry then after == before && id !in h'.registry
    else if |before.queue| < before.capacity then
      after == Channel(before.capacity, before.queue + [DeltaMessage(delta)], false) && id in h'.registry
    else
      after == Channel(before.capacity, [ResyncRequired(h.instance, h.revision + 1)], true) && id !in h'.registry
  }

  /** In every run, a commit that changes the projection serves every channel; any other commit changes nothing. */
  lemma CommitServesEveryone(instance: Text, steps: seq<Step>, operations: seq<Operation>)
    ensures var h := After(instance, steps).hub; var (h', r) := CommitStep(h, operations);
      && (r.Ok? && r.value.changed <==> Changes(h, operations))
      && if Changes(h, operations) then
           var delta := Delta("delta", SCHEMA_VERSION, instance, h.revision, h.revision + 1, operations);
           && r == Ok(CommitResult(true, h.revision + 1, Some(delta)))
           && Ok(h'.projection) == Evaluate(h.projection, operations) && h'.revision == h.revision + 1
           && h'.channels.Keys == h.channels.Keys
           && (forall id :: id in h.channels ==> IsServed(h, h', id, delta))
         else h' == h
  {
    hide Evaluate, CommitStep, After, IsServed;
    var h := After(instance, steps).hub;
    InstanceIsFixed(instance, steps);
    CommitDecides(h, operations);
    if Changes(h, operations) {
      var (h', r) := CommitStep(h, operations);
      forall id | id in h.channels ensures IsServed(h, h', id, r.value.delta.value) {
        CommitServes(h, operations, id);
      }
    }
  }

  lemma CommitDecides(h: Hub, operations: seq<Operation>)
    requires h.Valid()
    ensures var (h', r) := CommitStep(h, operations);
      && (r.Ok? && r.value.changed <==> Changes(h, operations))
      && if Changes(h, operations) then
           && r == Ok(CommitResult(true, h.revision + 1, Some(
                Delta("delta", SCHEMA_VERSION, h.instance, h.revision, h.revision + 1, operations))))
           && Ok(h'.projection) == Evaluate(h.projection, operations) && h'.revision == h.revision + 1
           && h'.channels.Keys == h.channels.Keys
         else h' == h
  {
    hide Evaluate, Offer;
  }

  lemma CommitServes(h: Hub, operations: seq<Operation>, id: nat)
    requires h.Valid() && Changes(h, operations) && id in h.channels
    ensures var (h', r) := CommitStep(h, operations);
      r.Ok? && r.value.delta.Some? && id in h'.channels && IsServed(h, h', id, r.value.delta.value)
  {
    hide Evaluate;
  }

  // ---------- Subscriptions ----------

  /** In every run of a coordinator that has not stopped, a subscription gets the current projection and an empty open
      channel of the size asked for, 64 if none is, under a number never used before; nobody else is touched. */
  lemma SubscribeOpensChannel(instance: Text, steps: seq<Step>, queueSize: int)
    requires !After(instance, steps).hub.stopped
    ensures var w, w' := After(instance, steps), Next(After(instance, steps), DoSubscribe(queueSize));
      exists id: nat ::
        && id !in w.clients && id !in w.hub.channels
        && w'.hub.registry == w.hub.registry + {id}
        && w'.hub.channels == w.hub.channels[id := Channel(if queueSize > 0 then queueSize else 64, [], false)]
        && w'.clients == w.clients[id := Client(SnapshotEnvelope(instance, w.hub.revision, w.hub.projection), [])]
  {
    hide Evaluate;
    RunKeepsInv(instance, steps);
    InstanceIsFixed(instance, steps);
    var w := After(instance, steps);
    assert w.hub.nextId + 1 !in w.hub.channels;
  }

  /** A channel keeps its size for ever. */
  lemma ChannelsKeepTheirSize(instance: Text, steps: seq<Step>, step: Step, id: nat)
    requires id in After(instance, steps).hub.channels
    ensures var h, h' := After(instance, steps).hub, Next(After(instance, steps), step).hub;
      id in h'.channels && h'.channels[id].capacity == h.channels[id].capacity
  {
    hide Evaluate;
  }

  // ---------- Leaving ----------

  /** In every run, an unsubscription closes that channel and takes it out of the registry; what is unread stays there to
      be read, and nobody else is touched. For anyone not registered it does nothing. */
  lemma UnsubscribeEndsDelivery(instance: Text, steps: seq<Step>, id: nat)
    ensures var h, h' := After(instance, steps).hub, Next(After(instance, steps), DoUnsubscribe(id)).hub;
      if id in h.registry && !h.stopped then
        && id in h.channels
        && h' == h.(registry := h.registry - {id},
                    channels := h.channels[id := Channel(h.channels[id].capacity, h.channels[id].queue, true)])
      else h' == h
  {
    hide Evaluate;
  }

  /** In every run, stopping closes every channel; what is unread stays there to be read. */
  lemma StopEndsDelivery(instance: Text, steps: seq<Step>)
    ensures var w, h' := After(instance, steps), Next(After(instance, steps), DoStop).hub;
      && h'.stopped && h'.registry == {} && h'.channels.Keys == w.hub.channels.Keys
      && (forall id :: id in h'.channels ==>
            h'.channels[id] == Channel(w.hub.channels[id].capacity, w.hub.channels[id].queue, true))
      && h'.projection == w.hub.projection && h'.revision == w.hub.revision
  {
    hide Evaluate;
    RunKeepsInv(instance, steps);
    var w := After(instance, steps);
    forall id | id in w.hub.channels && id !in w.hub.registry ensures w.hub.channels[id].closed {
      assert ClientInv(w, id);
    }
  }

  lemma GoneStaysGone(w: World, step: Step, id: nat)
    requires Inv(w) && id in w.hub.channels && id !in w.hub.registry
    ensures var h' := Next(w, step).hub;
      && id in h'.channels && id !in h'.registry && h'.channels[id].closed == w.hub.channels[id].closed
      && |h'.channels[id].queue| <= |w.hub.channels[id].queue|
      && h'.channels[id].queue == w.hub.channels[id].queue[|w.hub.channels[id].queue| - |h'.channels[id].queue|..]
  {
    hide Evaluate, ClientInv;
  }

  /** Whatever happens after a subscriber has left, whether it unsubscribed, overflowed or the coordinator stopped: its
      channel gets nothing more, and can only be read to its end. */
  lemma {:induction false} NothingMoreIsSent(instance: Text, steps: seq<Step>, more: seq<Step>, id: nat)
    requires id in After(instance, steps).hub.channels && id !in After(instance, steps).hub.registry
    ensures var h, h' := After(instance, steps).hub, After(instance, steps + more).hub;
      && id in h'.channels && id !in h'.registry && h'.channels[id].closed == h.channels[id].closed
      && |h'.channels[id].queue| <= |h.channels[id].queue|
      && h'.channels[id].queue == h.channels[id].queue[|h.channels[id].queue| - |h'.channels[id].queue|..]
  {
    hide Next, Inv;
    if more == [] {
      assert steps + more == steps;
    } else {
      var n := |more| - 1;
      NothingMoreIsSent(instance, steps, more[..n], id);
      RunKeepsInv(instance, steps + more[..n]);
      GoneStaysGone(After(instance, steps + more[..n]), more[n], id);
      assert (steps + more)[..|steps + more| - 1] == steps + more[..n];
    }
  }

  lemma StoppedStep(w: World, step: Step)
    requires w.hub.Valid() && w.hub.stopped
    ensures var h' := Next(w, step).hub;
      h'.stopped && h'.projection == w.hub.projection && h'.revision == w.hub.revision && h'.channels.Keys == w.hub.channels.Keys
  {
    hide Evaluate;
  }

  /** A stopped coordinator changes nothing any more and takes no new subscriber. */
  lemma {:induction false} StoppedStays(instance: Text, steps: seq<Step>, more: seq<Step>)
    requires After(instance, steps).hub.stopped
    ensures var h, h' := After(instance, steps).hub, After(instance, steps + more).hub;
      h'.stopped && h'.projection == h.projection && h'.revision == h.revision && h'.channels.Keys == h.channels.Keys
  {
    hide Next;
    if more == [] {
      assert steps + more == steps;
    } else {
      var n := |more| - 1;
      StoppedStays(instance, steps, more[..n]);
      StoppedStep(After(instance, steps + more[..n]), more[n]);
      assert (steps + more)[..|steps + more| - 1] == steps + more[..n];
    }
  }

  // ---------- Resync requests ----------

  ghost predicate IsToldToResync(w: World, id: nat) {
    && id in w.clients && id in w.hub.channels
    && exists i :: 0 <= i < |Stream(w, id)| && Stream(w, id)[i].ResyncRequired?
  }

  /** The step is a commit that changes something while as many messages as the channel holds are unread. */
  ghost predicate Overflows(w: World, step: Step, id: nat)
    requires w.hub.Valid()
  {
    && step.DoCommit? && Changes(w.hub, step.operations)
    && id in w.hub.registry && |w.hub.channels[id].queue| == w.hub.channels[id].capacity
  }

  lemma CommitTells(w: World, operations: seq<Operation>, id: nat)
    requires Inv(w) && id in w.clients
    ensures IsToldToResync(Next(w, DoCommit(operations)), id)
      <==> IsToldToResync(w, id) || Overflows(w, DoCommit(operations), id)
  {
    assert ClientInv(w, id);
    hide Evaluate, ClientInv, Links, Chained;
    var w' := Next(w, DoCommit(operations));
    if Changes(w.hub, operations) {
      var received := w.clients[id].received;
      if id !in w.hub.registry {
        assert Stream(w', id) == Stream(w, id);
      } else if |w.hub.channels[id].queue| < w.hub.channels[id].capacity {
        var message := w'.hub.channels[id].queue[|w.hub.channels[id].queue|];
        assert Stream(w', id) == Stream(w, id) + [message] && message.DeltaMessage?;
        assert forall i :: 0 <= i < |Stream(w, id)| ==> Stream(w', id)[i] == Stream(w, id)[i];
      } else {
        assert Stream(w', id)[|received|].ResyncRequired?;
      }
    } else {
      assert w' == w;
    }
  }

  lemma OtherStepsTellNobody(w: World, step: Step, id: nat)
    requires Inv(w) && id in w.clients && !step.DoCommit?
    ensures IsToldToResync(Next(w, step), id) <==> IsToldToResync(w, id)
  {
    hide Evaluate, ClientInv, Links, Chained;
    assert id in w.hub.channels;
    if step.DoReceive? {
      ReceiveKeepsStreams(w, step.id, id);
    } else {
      assert Stream(Next(w, step), id) == Stream(w, id);
    }
  }

  lemma NewcomersAreNotTold(w: World, step: Step, id: nat)
    requires Inv(w) && id !in w.clients
    ensures !IsToldToResync(Next(w, step), id) && !Overflows(w, step, id)
  {
    hide Evaluate, ClientInv, Links, Chained;
  }

  lemma StepTells(w: World, step: Step, id: nat)
    requires Inv(w)
    ensures IsToldToResync(Next(w, step), id) <==> IsToldToResync(w, id) || Overflows(w, step, id)
  {
    if id !in w.clients {
      NewcomersAreNotTold(w, step, id);
    } else if step.DoCommit? {
      CommitTells(w, step.operations, id);
    } else {
      OtherStepsTellNobody(w, step, id);
    }
  }

  /** The step with this number overflows the subscriber's channel. */
  ghost predicate OverflowsAt(instance: Text, steps: seq<Step>, id: nat, n: nat) {
    n < |steps| && Overflows(After(instance, steps[..n]), steps[n], id)
  }

  /** In every run, a subscriber is sent a resync request exactly if some commit that changed the projection found as
      many unread messages in its channel as the channel holds. */
  lemma {:induction false} ResyncIffOverflow(instance: Text, steps: seq<Step>, id: nat)
    ensures IsToldToResync(After(instance, steps), id) <==> exists n: nat :: OverflowsAt(instance, steps, id, n)
  {
    hide Inv, Next, IsToldToResync, Overflows;
    if steps == [] {
      NobodyIsTold(instance, id);
    } else {
      var last := |steps| - 1;
      ResyncIffOverflow(instance, steps[..last], id);
      RunKeepsInv(instance, steps[..last]);
      StepTells(After(instance, steps[..last]), steps[last], id);
      OverflowsBefore(instance, steps, id);
      hide After, OverflowsAt;
      if exists n: nat :: OverflowsAt(instance, steps, id, n) {
        var n: nat :| OverflowsAt(instance, steps, id, n);
        assert n == last || OverflowsAt(instance, steps[..last], id, n);
      }
    }
  }

  lemma OverflowsBefore(instance: Text, steps: seq<Step>, id: nat)
    requires steps != []
    ensures var last := |steps| - 1;
      && (OverflowsAt(instance, steps, id, last) <==> Overflows(After(instance, steps[..last]), steps[last], id))
      && forall n: nat :: n != last ==> (OverflowsAt(instance, steps, id, n) <==> OverflowsAt(instance, steps[..last], id, n))
  {
    hide After, Overflows;
    var last := |steps| - 1;
    forall n: nat | n != last ensures OverflowsAt(instance, steps, id, n) <==> OverflowsAt(instance, steps[..last], id, n) {
      if n < last { assert steps[..last][..n] == steps[..n]; }
    }
  }

  lemma NobodyIsTold(instance: Text, id: nat)
    ensures !IsToldToResync(After(instance, []), id)
  {
  }
}
