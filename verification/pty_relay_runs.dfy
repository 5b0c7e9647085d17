/** Every interleaving of registrations, attachments, teardowns and closes. */
module PtyRelayRuns {
  import opened GoText
  import opened Wrappers
  import opened PtyRelay

  datatype Step =
    | Connect(connection: ConnectionId, host: Text, generation: nat)
    | MarkClosed(connection: ConnectionId)
    | Stop(connection: ConnectionId)
    | Collect(connection: ConnectionId)
    | Finish(connection: ConnectionId)
    | Check(stream: StreamId, connection: ConnectionId, session: Text, token: Text)
    | Own(stream: StreamId)
    | Publish(stream: StreamId)
    | Look(claim: Claim)
    | Attach(peer: nat)
    | Cancel(stream: StreamId)
    | Remove(stream: StreamId)
    | Release(stream: StreamId)

  function Next(r: Relay, step: Step): Relay {
    match step
    case Connect(c, host, generation) => ConnectStep(r, c, host, generation)
    case MarkClosed(c) => MarkClosedStep(r, c)
    case Stop(c) => StopStep(r, c)
    case Collect(c) => CollectStep(r, c)
    case Finish(c) => ShutStep(r, c)
    case Check(id, c, session, token) => CheckStep(r, id, c, session, token)
    case Own(id) => OwnStep(r, id)
    case Publish(id) => PublishStep(r, id)
    case Look(claim) => LookStep(r, claim)
    case Attach(peer) => AttachStep(r, peer)
    case Cancel(id) => CancelStep(r, id)
    case Remove(id) => RemoveStep(r, id)
    case Release(id) => ReleaseStep(r, id)
  }

  /** The streams that a closing connection has taken over. */
  function Taken(c: Connection): set<StreamId> {
    if c.closing.Collected? || c.closing.Shut? then c.closing.collected else {}
  }

  ghost predicate OwnerInv(r: Relay, id: StreamId)
    requires id in r.owners
  {
    var owner := r.owners[id];
    && owner.connection in r.connections
    && (owner.registering == Checked ==> owner.tearing == Up)
    && (owner.registering != Published ==> owner.readyCloses == 0 && id !in r.pending && id !in r.active)
    && (id in r.pending ==> owner.readyCloses == 0)
    && (id in r.active ==> owner.tearing in {Up, Cancelled})
    && (owner.tearing == Up && owner.registering == Published ==> id in r.pending || id in r.active)
    && (owner.readyCloses == 0 ==> id !in r.active)
    && owner.readyCloses <= 1 && (owner.readyCloses == 1 <==> owner.peer.Some?)
    && (var c := r.connections[owner.connection];
        && (id in c.ptys || id in Taken(c) ==> owner.registering != Checked)
        && (owner.registering != Checked && owner.tearing != Down ==> id in c.ptys || id in Taken(c))
        && (owner.tearing == Down ==> id !in c.ptys)
        && (c.closing.Shut? && id in c.closing.collected ==> owner.tearing == Down)
        && ((c.closing.Collected? || c.closing.Shut?) && id in c.ptys ==>
              owner.readyCloses == 0 && r.attaching != Some(id)))
  }

  ghost predicate ConnectionInv(r: Relay, c: ConnectionId)
    requires c in r.connections
  {
    forall id :: id in r.connections[c].ptys || id in Taken(r.connections[c]) ==>
      id in r.owners && r.owners[id].connection == c
  }

  ghost predicate Inv(r: Relay) {
    && (forall id :: id in r.owners ==> OwnerInv(r, id))
    && (forall c :: c in r.connections ==> ConnectionInv(r, c))
    && r.pending <= r.owners.Keys && r.active <= r.owners.Keys
    && (r.attaching.Some? ==>
        r.attaching.value in r.pending && r.owners[r.attaching.value].tearing in {Up, Cancelled})
  }

  /** At most this stream is new or changed, in its own record or in the tables. */
  ghost predicate OnlyStreamChanges(r: Relay, r': Relay, id: StreamId) {
    && r'.owners.Keys == r.owners.Keys + {id} && r'.connections.Keys == r.connections.Keys
    && (forall d :: d in r.owners && d != id ==> r'.owners[d] == r.owners[d])
    && (forall d :: d != id ==> (d in r'.pending <==> d in r.pending) && (d in r'.active <==> d in r.active))
    && (r'.attaching == r.attaching || r'.attaching == None || r'.attaching == Some(id))
    && (forall c :: c in r.connections ==> r'.connections[c].closing == r.connections[c].closing)
    && (forall c, d :: c in r.connections && d != id ==>
          (d in r'.connections[c].ptys <==> d in r.connections[c].ptys))
  }

  lemma OtherStreamStays(r: Relay, r': Relay, id: StreamId, other: StreamId)
    requires OnlyStreamChanges(r, r', id) && other in r.owners && other != id && OwnerInv(r, other)
    ensures OwnerInv(r', other)
  {
    var c := r.owners[other].connection;
    assert Taken(r'.connections[c]) == Taken(r.connections[c]);
  }

  lemma ConnectionStays(r: Relay, r': Relay, id: StreamId, c: ConnectionId)
    requires OnlyStreamChanges(r, r', id) && c in r.connections && ConnectionInv(r, c) && id in r'.owners
    requires id in r'.connections[c].ptys || id in Taken(r'.connections[c]) ==> r'.owners[id].connection == c
    ensures ConnectionInv(r', c)
  {
    assert Taken(r'.connections[c]) == Taken(r.connections[c]);
  }

  /** For a step that changes one stream, it is enough to look at that stream. */
  lemma StreamChangeKeepsInv(r: Relay, r': Relay, id: StreamId)
    requires Inv(r) && OnlyStreamChanges(r, r', id) && OwnerInv(r', id)
    requires forall c :: c in r.connections && (id in r'.connections[c].ptys || id in Taken(r'.connections[c])) ==>
      r'.owners[id].connection == c
    requires r'.pending <= r'.owners.Keys && r'.active <= r'.owners.Keys
    requires r'.attaching.Some? ==>
      r'.attaching.value in r'.pending && r'.owners[r'.attaching.value].tearing in {Up, Cancelled}
    ensures Inv(r')
  {
    hide OwnerInv, ConnectionInv, Taken;
    forall d | d in r'.owners ensures OwnerInv(r', d) {
      if d != id { OtherStreamStays(r, r', id, d); }
    }
    forall c | c in r'.connections ensures ConnectionInv(r', c) {
      ConnectionStays(r, r', id, c);
    }
  }

  /** A step that sets one stream and its place in its connection's table changes only that stream. */
  lemma TableChangesOnly(r: Relay, r': Relay, id: StreamId)
    requires id in r.owners && id in r'.owners && r.owners[id].connection in r.connections
    requires var c := r.owners[id].connection;
      && c in r'.connections && r' == SetOwner(r, id, r'.owners[id]).(connections := r'.connections)
      && (r'.connections == r.connections[c := r.connections[c].(ptys := r.connections[c].ptys + {id})]
          || r'.connections == r.connections[c := r.connections[c].(ptys := r.connections[c].ptys - {id})])
    ensures OnlyStreamChanges(r, r', id)
  {
  }

  lemma IdIsKnown(r: Relay, id: StreamId)
    requires Inv(r)
    ensures id in r.owners ==> OwnerInv(r, id)
    ensures forall c :: c in r.connections && (id in r.connections[c].ptys || id in Taken(r.connections[c])) ==>
      id in r.owners && r.owners[id].connection == c
  {
    forall c | c in r.connections && (id in r.connections[c].ptys || id in Taken(r.connections[c]))
      ensures id in r.owners && r.owners[id].connection == c
    {
      assert ConnectionInv(r, c);
    }
  }

  lemma CheckKeepsInv(r: Relay, id: StreamId, c: ConnectionId, session: Text, token: Text)
    requires Inv(r)
    ensures Inv(CheckStep(r, id, c, session, token))
  {
    var r' := CheckStep(r, id, c, session, token);
    if r' != r {
      IdIsKnown(r, id);
      StreamChangeKeepsInv(r, r', id);
    }
  }

  lemma OwnKeepsInv(r: Relay, id: StreamId)
    requires Inv(r)
    ensures Inv(OwnStep(r, id))
  {
    var r' := OwnStep(r, id);
    if r' != r {
      IdIsKnown(r, id);
      hide OnlyStreamChanges;
      TableChangesOnly(r, r', id);
      StreamChangeKeepsInv(r, r', id);
    }
  }

  lemma PublishKeepsInv(r: Relay, id: StreamId)
    requires Inv(r)
    ensures Inv(PublishStep(r, id))
  {
    var r' := PublishStep(r, id);
    if r' != r {
      IdIsKnown(r, id);
      StreamChangeKeepsInv(r, r', id);
    }
  }

  lemma CancelKeepsInv(r: Relay, id: StreamId)
    requires Inv(r)
    ensures Inv(CancelStep(r, id))
  {
    var r' := CancelStep(r, id);
    if r' != r {
      IdIsKnown(r, id);
      StreamChangeKeepsInv(r, r', id);
    }
  }

  lemma RemoveKeepsInv(r: Relay, id: StreamId)
    requires Inv(r)
    ensures Inv(RemoveStep(r, id))
  {
    var r' := RemoveStep(r, id);
    if r' != r {
      IdIsKnown(r, id);
      StreamChangeKeepsInv(r, r', id);
    }
  }

  lemma ReleaseKeepsInv(r: Relay, id: StreamId)
    requires Inv(r)
    ensures Inv(ReleaseStep(r, id))
  {
    var r' := ReleaseStep(r, id);
    if r' != r {
      IdIsKnown(r, id);
      hide OnlyStreamChanges;
      TableChangesOnly(r, r', id);
      StreamChangeKeepsInv(r, r', id);
    }
  }

  lemma LookKeepsInv(r: Relay, claim: Claim)
    requires Inv(r)
    ensures Inv(LookStep(r, claim))
  {
    var r' := LookStep(r, claim);
    if r' != r {
      IdIsKnown(r, claim.stream);
      StreamChangeKeepsInv(r, r', claim.stream);
    }
  }

  lemma AttachKeepsInv(r: Relay, peer: nat)
    requires Inv(r)
    ensures Inv(AttachStep(r, peer))
  {
    var r' := AttachStep(r, peer);
    if r' != r {
      IdIsKnown(r, r.attaching.value);
      StreamChangeKeepsInv(r, r', r.attaching.value);
    }
  }

  /** For a step that changes one connection, it is enough to look at that connection and its streams. */
  lemma ConnectionChangeKeepsInv(r: Relay, c: ConnectionId, connection: Connection)
    requires Inv(r)
    requires var r' := r.(connections := r.connections[c := connection]);
      ConnectionInv(r', c) && forall id :: id in r.owners && r.owners[id].connection == c ==> OwnerInv(r', id)
    ensures Inv(r.(connections := r.connections[c := connection]))
  {
    var r' := r.(connections := r.connections[c := connection]);
    forall id | id in r'.owners ensures OwnerInv(r', id) {
      if r.owners[id].connection != c { assert OwnerInv(r, id); }
    }
    forall d | d in r'.connections ensures ConnectionInv(r', d) {
      if d != c { assert ConnectionInv(r, d); }
    }
  }

  lemma ConnectKeepsInv(r: Relay, c: ConnectionId, host: Text, generation: nat)
    requires Inv(r)
    ensures Inv(ConnectStep(r, c, host, generation))
  {
    if c !in r.connections {
      forall id | id in r.owners ensures r.owners[id].connection != c {
        assert OwnerInv(r, id);
      }
      ConnectionChangeKeepsInv(r, c, Connection(host, generation, Open, {}));
    }
  }

  lemma CollectKeepsInv(r: Relay, c: ConnectionId)
    requires Inv(r)
    ensures Inv(CollectStep(r, c))
  {
    var r' := CollectStep(r, c);
    if r' != r {
      assert ConnectionInv(r, c);
      forall id | id in r.owners && r.owners[id].connection == c ensures OwnerInv(r', id) {
        assert OwnerInv(r, id);
      }
      ConnectionChangeKeepsInv(r, c, r'.connections[c]);
    }
  }

  /** A close may go on to a state in which it has taken over the same streams. */
  lemma ClosingKeepsInv(r: Relay, c: ConnectionId, closing: Closing)
    requires Inv(r) && c in r.connections
    requires Taken(r.connections[c].(closing := closing)) == Taken(r.connections[c])
    requires closing.Collected? || closing.Shut? ==> r.connections[c].closing.Collected?
    requires closing.Shut? ==> forall id :: id in closing.collected ==> id in r.owners && r.owners[id].tearing == Down
    ensures Inv(SetClosing(r, c, closing))
  {
    assert ConnectionInv(r, c);
    var r' := SetClosing(r, c, closing);
    forall id | id in r.owners && r.owners[id].connection == c ensures OwnerInv(r', id) {
      assert OwnerInv(r, id);
    }
    ConnectionChangeKeepsInv(r, c, r'.connections[c]);
  }

  lemma StepKeepsInv(r: Relay, step: Step)
    requires Inv(r)
    ensures Inv(Next(r, step))
  {
    hide Inv;
    match step
    case Connect(c, host, generation) => ConnectKeepsInv(r, c, host, generation);
    case MarkClosed(c) => if MarkClosedStep(r, c) != r { ClosingKeepsInv(r, c, Marked); }
    case Stop(c) => if StopStep(r, c) != r { ClosingKeepsInv(r, c, Stopped); }
    case Collect(c) => CollectKeepsInv(r, c);
    case Finish(c) => if ShutStep(r, c) != r { ClosingKeepsInv(r, c, Shut(r.connections[c].closing.collected)); }
    case Check(id, c, session, token) => CheckKeepsInv(r, id, c, session, token);
    case Own(id) => OwnKeepsInv(r, id);
    case Publish(id) => PublishKeepsInv(r, id);
    case Look(claim) => LookKeepsInv(r, claim);
    case Attach(peer) => AttachKeepsInv(r, peer);
    case Cancel(id) => CancelKeepsInv(r, id);
    case Remove(id) => RemoveKeepsInv(r, id);
    case Release(id) => ReleaseKeepsInv(r, id);
  }

  function Run(r: Relay, steps: seq<Step>): Relay {
    if steps == [] then r else Next(Run(r, steps[..|steps| - 1]), steps[|steps| - 1])
  }

  lemma {:induction false} RunKeepsInv(r: Relay, steps: seq<Step>)
    requires Inv(r)
    ensures Inv(Run(r, steps))
  {
    if steps != [] {
      RunKeepsInv(r, steps[..|steps| - 1]);
      StepKeepsInv(Run(r, steps[..|steps| - 1]), steps[|steps| - 1]);
    }
  }

  function Empty(): Relay { Relay(map[], map[], {}, {}, None) }

  /** Readiness is signalled at most once, exactly when the stream gets its peer. */
  ghost predicate AttachedOnce(r: Relay, id: StreamId)
    requires id in r.owners
  {
    && r.owners[id].readyCloses <= 1 && (r.owners[id].readyCloses == 1 <==> r.owners[id].peer.Some?)
    && (id in r.active ==> r.owners[id].readyCloses == 1 && id !in r.pending)
  }

  /** The stream is neither active nor in the table of any connection. */
  ghost predicate IsGone(r: Relay, id: StreamId) {
    id !in r.active && forall c :: c in r.connections ==> id !in r.connections[c].ptys
  }

  /** In every interleaving, a stream's readiness is signalled at most once, and exactly then it has a peer; a stream
      torn down is neither active nor in any connection's table; a connection that has finished closing has no active
      stream. */
  lemma StreamsAreSafe(steps: seq<Step>)
    ensures var r := Run(Empty(), steps);
      && (forall id :: id in r.owners ==> AttachedOnce(r, id))
      && (forall id :: id in r.owners && r.owners[id].tearing == Down ==> IsGone(r, id))
      && (forall id :: id in r.active ==>
            id in r.owners && r.owners[id].connection in r.connections
              && !r.connections[r.owners[id].connection].closing.Shut?)
  {
    RunKeepsInv(Empty(), steps);
    var r := Run(Empty(), steps);
    forall id | id in r.owners
      ensures OwnerInv(r, id)
      ensures AttachedOnce(r, id) && (r.owners[id].tearing == Down ==> IsGone(r, id))
    {
      assert OwnerInv(r, id);
      forall c | c in r.connections && id in r.connections[c].ptys ensures r.owners[id].connection == c {
        assert ConnectionInv(r, c);
      }
    }
  }

  // ---------- Cancellation ----------

  /** The stream is cancelled, and no attachment of it has already passed its check. */
  ghost predicate Dead(r: Relay, id: StreamId) {
    && id in r.owners && r.owners[id].connection in r.connections && StreamDone(r, id) && r.attaching != Some(id)
  }

  lemma StepKeepsDead(r: Relay, step: Step, id: StreamId)
    requires Dead(r, id)
    ensures Dead(Next(r, step), id)
    ensures Next(r, step).owners[id].readyCloses == r.owners[id].readyCloses
    ensures Next(r, step).owners[id].peer == r.owners[id].peer
    ensures id in Next(r, step).active ==> id in r.active
  {
  }

  /** A stream cancelled before the check of an attachment is never attached, however the run goes on. */
  lemma {:induction false} NoAttachAfterCancellation(r: Relay, id: StreamId, steps: seq<Step>)
    requires Dead(r, id)
    ensures var r' := Run(r, steps);
      && Dead(r', id) && r'.owners[id].readyCloses == r.owners[id].readyCloses
      && r'.owners[id].peer == r.owners[id].peer && (id in r'.active ==> id in r.active)
  {
    if steps != [] {
      hide Next, Dead;
      NoAttachAfterCancellation(r, id, steps[..|steps| - 1]);
      var before := Run(r, steps[..|steps| - 1]);
      StepKeepsDead(before, steps[|steps| - 1], id);
      DeadIsKnown(before, id);
      DeadIsKnown(Run(r, steps), id);
    }
    DeadIsKnown(r, id);
  }

  lemma DeadIsKnown(r: Relay, id: StreamId)
    requires Dead(r, id)
    ensures id in r.owners
  {
  }

  // ---------- Only a matching claim attaches ----------

  /** The step is a check that carries the stream's own host, generation, token and session. */
  ghost predicate Claims(step: Step, id: StreamId, owner: Owner) {
    && step.Look? && step.claim.stream == id
    && step.claim.host == owner.host && step.claim.generation == owner.generation
    && step.claim.token == owner.token && step.claim.session == owner.session
  }

  ghost predicate WasClaimed(r: Relay, steps: seq<Step>, id: StreamId) {
    id in r.owners && exists i :: 0 <= i < |steps| && Claims(steps[i], id, r.owners[id])
  }

  lemma StepKeepsCredentials(r: Relay, step: Step, id: StreamId)
    requires id in r.owners
    ensures id in Next(r, step).owners
    ensures var before, after := r.owners[id], Next(r, step).owners[id];
      before.(registering := after.registering, tearing := after.tearing, readyCloses := after.readyCloses, peer := after.peer)
        == after
  {
  }

  ghost predicate IsTaken(r: Relay, id: StreamId) {
    (id in r.owners && r.owners[id].peer.Some?) || r.attaching == Some(id)
  }

  lemma OnlyLookTakes(r: Relay, step: Step, id: StreamId)
    requires IsTaken(Next(r, step), id) && !IsTaken(r, id)
    ensures id in Next(r, step).owners && Claims(step, id, Next(r, step).owners[id])
  {
  }

  lemma ClaimStays(before: Relay, step: Step, steps: seq<Step>, id: StreamId)
    requires WasClaimed(before, steps, id)
    ensures WasClaimed(Next(before, step), steps + [step], id)
  {
    hide Next;
    StepKeepsCredentials(before, step, id);
    var i :| 0 <= i < |steps| && Claims(steps[i], id, before.owners[id]);
    assert (steps + [step])[i] == steps[i];
  }

  /** A stream is attached only after a claim that carries its own host, generation, token and session. */
  lemma {:induction false} AttachedWasClaimed(steps: seq<Step>, id: StreamId)
    ensures IsTaken(Run(Empty(), steps), id) ==> WasClaimed(Run(Empty(), steps), steps, id)
  {
    if steps != [] && IsTaken(Run(Empty(), steps), id) {
      hide Next, WasClaimed, IsTaken;
      var n := |steps| - 1;
      var before := Run(Empty(), steps[..n]);
      assert steps == steps[..n] + [steps[n]];
      AttachedWasClaimed(steps[..n], id);
      if IsTaken(before, id) {
        ClaimStays(before, steps[n], steps[..n], id);
      } else {
        OnlyLookTakes(before, steps[n], id);
        ClaimedByLook(Next(before, steps[n]), steps, id);
      }
    }
  }

  lemma ClaimedByLook(r: Relay, steps: seq<Step>, id: StreamId)
    requires steps != [] && id in r.owners && Claims(steps[|steps| - 1], id, r.owners[id])
    ensures WasClaimed(r, steps, id)
  {
  }

  // ---------- The table of a closed connection ----------

  /** A registration of the connection has passed its closed check and not yet entered the table. */
  ghost predicate Underway(r: Relay, c: ConnectionId) {
    exists id :: id in r.owners && r.owners[id].connection == c && r.owners[id].registering == Checked
  }

  lemma StepStartsNone(r: Relay, step: Step, c: ConnectionId)
    requires c in r.connections && Closed(r.connections[c]) && !Underway(r, c) && r.connections[c].ptys == {}
    ensures c in Next(r, step).connections && Closed(Next(r, step).connections[c])
    ensures !Underway(Next(r, step), c) && Next(r, step).connections[c].ptys == {}
  {
  }

  lemma {:induction false} TableStaysEmpty(r: Relay, steps: seq<Step>, c: ConnectionId)
    requires c in r.connections && Closed(r.connections[c]) && !Underway(r, c) && r.connections[c].ptys == {}
    ensures var r' := Run(r, steps);
      c in r'.connections && Closed(r'.connections[c]) && !Underway(r', c) && r'.connections[c].ptys == {}
  {
    hide Next, Underway;
    if steps != [] {
      TableStaysEmpty(r, steps[..|steps| - 1], c);
      StepStartsNone(Run(r, steps[..|steps| - 1]), steps[|steps| - 1], c);
    }
  }

  /** Once its streams are collected, a connection's table stays empty in every continuation exactly if no registration
      was underway: one that had passed its closed check enters the table of the closed connection. */
  lemma CollectedTableStaysEmptyIff(r: Relay, c: ConnectionId)
    requires Inv(r) && c in r.connections && r.connections[c].closing.Stopped?
    ensures var after := CollectStep(r, c);
      (forall steps :: var r' := Run(after, steps); c in r'.connections && r'.connections[c].ptys == {})
        <==> !Underway(r, c)
  {
    var after := CollectStep(r, c);
    if Underway(r, c) {
      var id :| id in r.owners && r.owners[id].connection == c && r.owners[id].registering == Checked;
      var steps := [Own(id)];
      assert steps[..0] == [];
      assert Run(after, steps) == OwnStep(after, id);
      assert id in Run(after, steps).connections[c].ptys;
    } else {
      assert !Underway(after, c);
      forall steps ensures var r' := Run(after, steps); c in r'.connections && r'.connections[c].ptys == {} {
        TableStaysEmpty(after, steps, c);
      }
    }
  }

  /** While an attachment is between its check and its commit, no other step changes the relay's tables. */
  lemma AttachmentIsExclusive(r: Relay, step: Step)
    requires r.attaching.Some? && !step.Attach?
    ensures var r' := Next(r, step); r'.pending == r.pending && r'.active == r.active && r'.attaching == r.attaching
  {
  }

  // ---------- Credentials ----------

  /** A stream carries the host and the generation of its connection. */
  ghost predicate OwnersBelong(r: Relay) {
    forall id :: id in r.owners ==>
      && r.owners[id].connection in r.connections
      && r.owners[id].host == r.connections[r.owners[id].connection].host
      && r.owners[id].generation == r.connections[r.owners[id].connection].generation
  }

  lemma StepKeepsBelonging(r: Relay, step: Step)
    requires OwnersBelong(r)
    ensures OwnersBelong(Next(r, step))
  {
  }

  /** In every interleaving, a stream has the host and the generation of the connection that it was registered for, so
      that a claim for an attached stream has carried these. */
  lemma {:induction false} StreamsBelong(steps: seq<Step>)
    ensures OwnersBelong(Run(Empty(), steps))
  {
    hide Next, OwnersBelong;
    if steps != [] {
      StreamsBelong(steps[..|steps| - 1]);
      StepKeepsBelonging(Run(Empty(), steps[..|steps| - 1]), steps[|steps| - 1]);
    } else {
      NothingBelongs();
    }
  }

  lemma NothingBelongs()
    ensures OwnersBelong(Empty())
  {
  }

  // ---------- The relay's tables after a teardown ----------

  ghost predicate IsOut(r: Relay, id: StreamId) {
    && id in r.owners && r.owners[id].registering == Published && r.owners[id].tearing in {Removed, Down}
    && id !in r.pending && id !in r.active && r.attaching != Some(id)
  }

  lemma StepKeepsOut(r: Relay, step: Step, id: StreamId)
    requires IsOut(r, id)
    ensures IsOut(Next(r, step), id)
  {
  }

  /** A published stream that has been cancelled leaves both tables of the relay when its teardown removes it, and never
      comes back, however the run goes on. */
  lemma {:induction false} RemovedStaysOut(r: Relay, id: StreamId, steps: seq<Step>)
    requires id in r.owners && r.owners[id].registering == Published && r.owners[id].tearing == Cancelled
    requires r.attaching.None?
    ensures var r' := Run(RemoveStep(r, id), steps);
      id in r'.owners && id !in r'.pending && id !in r'.active && r'.owners[id].tearing in {Removed, Down}
    ensures IsOut(Run(RemoveStep(r, id), steps), id)
  {
    hide Next, IsOut;
    if steps != [] {
      RemovedStaysOut(r, id, steps[..|steps| - 1]);
      StepKeepsOut(Run(RemoveStep(r, id), steps[..|steps| - 1]), steps[|steps| - 1], id);
    } else {
      RemovedIsOut(r, id);
    }
    OutIsOut(Run(RemoveStep(r, id), steps), id);
  }

  lemma RemovedIsOut(r: Relay, id: StreamId)
    requires id in r.owners && r.owners[id].registering == Published && r.owners[id].tearing == Cancelled
    requires r.attaching.None?
    ensures IsOut(RemoveStep(r, id), id)
  {
  }

  lemma OutIsOut(r: Relay, id: StreamId)
    requires IsOut(r, id)
    ensures id in r.owners && id !in r.pending && id !in r.active && r.owners[id].tearing in {Removed, Down}
  {
  }
}
