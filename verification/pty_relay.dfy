/** Ownership of terminal streams: the relay's pending and active streams, the streams of each connection, and the
    regions in which they change. Each region that holds a lock is one step; the attachment of a stream is two, because a
    stream can be cancelled between the check and the commit while the relay's lock is held. */
module PtyRelay {
  import opened GoText
  import opened Wrappers

  type StreamId = nat
  type ConnectionId = nat

  datatype Registering = Checked | Owned | Published

  datatype Tearing = Up | Cancelled | Removed | Down

  datatype Owner = Owner(
    connection: ConnectionId, host: Text, generation: nat, session: Text, token: Text, registering: Registering,
    tearing: Tearing, readyCloses: nat, peer: Option<nat>)

  /** `collected` are the streams that the close took over to tear down. */
  datatype Closing = Open | Marked | Stopped | Collected(collected: set<StreamId>) | Shut(collected: set<StreamId>)

  datatype Connection = Connection(host: Text, generation: nat, closing: Closing, ptys: set<StreamId>)

  /** `attaching` is the stream whose attachment has passed its check and still holds the relay's lock. */
  datatype Relay = Relay(
    owners: map<StreamId, Owner>, connections: map<ConnectionId, Connection>, pending: set<StreamId>,
    active: set<StreamId>, attaching: Option<StreamId>)

  datatype Claim = Claim(stream: StreamId, host: Text, generation: nat, token: Text, session: Text)

  // ---------- Connections ----------

  predicate Closed(c: Connection) { c.closing != Open }

  /** The connection's context is done. */
  predicate ContextDone(c: Connection) { !c.closing.Open? && !c.closing.Marked? }

  /** A stream's context is done when its own or its connection's is. */
  predicate StreamDone(r: Relay, id: StreamId)
    requires id in r.owners && r.owners[id].connection in r.connections
  {
    r.owners[id].tearing != Up || ContextDone(r.connections[r.owners[id].connection])
  }

  function ConnectStep(r: Relay, c: ConnectionId, host: Text, generation: nat): Relay {
    if c in r.connections then r else r.(connections := r.connections[c := Connection(host, generation, Open, {})])
  }

  function SetClosing(r: Relay, c: ConnectionId, closing: Closing): Relay
    requires c in r.connections
  {
    r.(connections := r.connections[c := r.connections[c].(closing := closing)])
  }

  function MarkClosedStep(r: Relay, c: ConnectionId): Relay {
    if c in r.connections && r.connections[c].closing.Open? then SetClosing(r, c, Marked) else r
  }

  function StopStep(r: Relay, c: ConnectionId): Relay {
    if c in r.connections && r.connections[c].closing.Marked? then SetClosing(r, c, Stopped) else r
  }

  function CollectStep(r: Relay, c: ConnectionId): Relay {
    if c in r.connections && r.connections[c].closing.Stopped? then
      var owners := r.connections[c].ptys;
      r.(connections := r.connections[c := r.connections[c].(closing := Collected(owners), ptys := {})])
    else r
  }

  /** The close waits for every stream that it collected. */
  function ShutStep(r: Relay, c: ConnectionId): Relay {
    if c in r.connections && r.connections[c].closing.Collected?
       && forall id :: id in r.connections[c].closing.collected ==> id in r.owners && r.owners[id].tearing == Down
    then SetClosing(r, c, Shut(r.connections[c].closing.collected)) else r
  }

  // ---------- Registration ----------

  function SetOwner(r: Relay, id: StreamId, owner: Owner): Relay {
    r.(owners := r.owners[id := owner])
  }

  /** The closed check. Stream identifiers and tokens are random, so a new one is not in use. */
  function CheckStep(r: Relay, id: StreamId, c: ConnectionId, session: Text, token: Text): Relay {
    if id in r.owners || c !in r.connections || Closed(r.connections[c]) then r
    else SetOwner(r, id, Owner(c, r.connections[c].host, r.connections[c].generation, session, token, Checked, Up, 0, None))
  }

  function OwnStep(r: Relay, id: StreamId): Relay {
    if id in r.owners && r.owners[id].registering == Checked && r.owners[id].connection in r.connections then
      var c := r.owners[id].connection;
      SetOwner(r, id, r.owners[id].(registering := Owned)).(
        connections := r.connections[c := r.connections[c].(ptys := r.connections[c].ptys + {id})])
    else r
  }

  function PublishStep(r: Relay, id: StreamId): Relay {
    if id in r.owners && r.owners[id].registering == Owned && r.attaching.None? then
      SetOwner(r, id, r.owners[id].(registering := Published)).(pending := r.pending + {id})
    else r
  }

  // ---------- Attachment ----------

  predicate Matches(r: Relay, claim: Claim)
    requires claim.stream in r.owners
  {
    var owner := r.owners[claim.stream];
    && owner.host == claim.host && owner.generation == claim.generation
    && owner.token == claim.token && owner.session == claim.session
  }

  /** The check, which takes the relay's lock and keeps it if the stream may be attached. */
  function LookStep(r: Relay, claim: Claim): Relay {
    if r.attaching.None? && claim.stream in r.pending && claim.stream in r.owners && Matches(r, claim)
       && r.owners[claim.stream].connection in r.connections && !StreamDone(r, claim.stream)
    then r.(attaching := Some(claim.stream)) else r
  }

  function AttachStep(r: Relay, peer: nat): Relay {
    if r.attaching.Some? && r.attaching.value in r.owners then
      var id := r.attaching.value;
      SetOwner(r, id, r.owners[id].(readyCloses := r.owners[id].readyCloses + 1, peer := Some(peer))).(
        pending := r.pending - {id}, active := r.active + {id}, attaching := None)
    else r
  }

  // ---------- Teardown ----------

  /** The first caller cancels the stream; later ones find the teardown taken. Nobody knows a stream before its
      connection owns it. */
  function CancelStep(r: Relay, id: StreamId): Relay {
    if id in r.owners && r.owners[id].registering != Checked && r.owners[id].tearing == Up then
      SetOwner(r, id, r.owners[id].(tearing := Cancelled))
    else r
  }

  function RemoveStep(r: Relay, id: StreamId): Relay {
    if id in r.owners && r.owners[id].tearing == Cancelled && r.attaching.None? then
      SetOwner(r, id, r.owners[id].(tearing := Removed)).(pending := r.pending - {id}, active := r.active - {id})
    else r
  }

  function ReleaseStep(r: Relay, id: StreamId): Relay {
    if id in r.owners && r.owners[id].tearing == Removed && r.owners[id].connection in r.connections then
      var c := r.owners[id].connection;
      SetOwner(r, id, r.owners[id].(tearing := Down)).(
        connections := r.connections[c := r.connections[c].(ptys := r.connections[c].ptys - {id})])
    else r
  }

  // ---------- The same regions, in place ----------

  class PTYRelay {
    var owners: map<StreamId, Owner>
    var connections: map<ConnectionId, Connection>
    var pending: set<StreamId>
    var active: set<StreamId>
    var attaching: Option<StreamId>

    ghost function View(): Relay
      reads this
    {
      Relay(owners, connections, pending, active, attaching)
    }

    constructor ()
      ensures View() == Relay(map[], map[], {}, {}, None)
    {
      owners, connections, pending, active, attaching := map[], map[], {}, {}, None;
    }

    method Connect(c: ConnectionId, host: Text, generation: nat)
      requires c !in connections
      modifies this
      ensures View() == ConnectStep(old(View()), c, host, generation)
    {
      connections := connections[c := Connection(host, generation, Open, {})];
    }

    method OwnPTY(id: StreamId)
      requires id in owners && owners[id].registering == Checked && owners[id].connection in connections
      modifies this
      ensures View() == OwnStep(old(View()), id)
    {
      var c := owners[id].connection;
      connections := connections[c := connections[c].(ptys := connections[c].ptys + {id})];
      owners := owners[id := owners[id].(registering := Owned)];
    }

    /** Registration without interference: the check, the connection's table, the relay's table. */
    method RegisterPending(id: StreamId, c: ConnectionId, session: Text, token: Text) returns (ok: bool)
      requires id !in owners && c in connections && attaching.None?
      modifies this
      ensures ok <==> old(connections)[c].closing == Open
      ensures ok ==>
        && owners == old(owners)[id := Owner(c, old(connections)[c].host, old(connections)[c].generation, session, token,
                                             Published, Up, 0, None)]
        && pending == old(pending) + {id}
        && connections == old(connections)[c := old(connections)[c].(ptys := old(connections)[c].ptys + {id})]
      ensures View() == PublishStep(OwnStep(CheckStep(old(View()), id, c, session, token), id), id)
    {
      if Closed(connections[c]) {
        return false;
      }
      owners := owners[id :=
        Owner(c, connections[c].host, connections[c].generation, session, token, Checked, Up, 0, None)];
      OwnPTY(id);
      pending := pending + {id};
      owners := owners[id := owners[id].(registering := Published)];
      return true;
    }

    /** An attachment without interference between its check and its commit. */
    method CompletePending(claim: Claim, peer: nat) returns (ok: bool)
      requires attaching.None? && pending <= owners.Keys
      requires forall id :: id in owners ==> owners[id].connection in connections
      modifies this
      ensures View() == AttachStep(LookStep(old(View()), claim), peer)
      ensures ok <==>
        && claim.stream in old(pending)
        && var owner := old(owners)[claim.stream];
        && owner.host == claim.host && owner.generation == claim.generation
        && owner.token == claim.token && owner.session == claim.session
        && owner.tearing == Up && old(connections)[owner.connection].closing in {Open, Marked}
      ensures ok ==>
        && pending == old(pending) - {claim.stream} && active == old(active) + {claim.stream}
        && owners[claim.stream].peer == Some(peer)
    {
      if claim.stream !in pending {
        return false;
      }
      var owner := owners[claim.stream];
      if owner.host != claim.host || owner.generation != claim.generation || owner.token != claim.token
         || owner.session != claim.session {
        return false;
      }
      if owner.tearing != Up || ContextDone(connections[owner.connection]) {
        return false;
      }
      pending := pending - {claim.stream};
      active := active + {claim.stream};
      owners := owners[claim.stream := owner.(peer := Some(peer), readyCloses := owner.readyCloses + 1)];
      return true;
    }

    /** A teardown without interference; a stream already torn down is left alone. */
    method Teardown(id: StreamId)
      requires id in owners && owners[id].registering != Checked && owners[id].tearing in {Up, Down}
      requires owners[id].connection in connections && attaching.None?
      modifies this
      ensures View() == ReleaseStep(RemoveStep(CancelStep(old(View()), id), id), id)
      ensures owners == old(owners)[id := old(owners)[id].(tearing := Down)]
      ensures old(owners)[id].tearing == Up ==>
        && pending == old(pending) - {id} && active == old(active) - {id}
        && var c := old(owners)[id].connection;
        connections == old(connections)[c := old(connections)[c].(ptys := old(connections)[c].ptys - {id})]
    {
      if owners[id].tearing == Down {
        return;
      }
      owners := owners[id := owners[id].(tearing := Cancelled)];
      pending := pending - {id};
      active := active - {id};
      owners := owners[id := owners[id].(tearing := Removed)];
      ReleasePTY(id);
    }

    method ReleasePTY(id: StreamId)
      requires id in owners && owners[id].tearing == Removed && owners[id].connection in connections
      modifies this
      ensures View() == ReleaseStep(old(View()), id)
    {
      var c := owners[id].connection;
      connections := connections[c := connections[c].(ptys := connections[c].ptys - {id})];
      owners := owners[id := owners[id].(tearing := Down)];
    }

    /** The first half of a close: the flag, the context, and the streams to tear down. */
    method BeginClose(c: ConnectionId) returns (collected: set<StreamId>)
      requires c in connections && connections[c].closing == Open
      modifies this
      ensures View() == CollectStep(StopStep(MarkClosedStep(old(View()), c), c), c)
      ensures collected == old(connections)[c].ptys
      ensures connections ==
        old(connections)[c := old(connections)[c].(closing := Collected(collected), ptys := {})]
    {
      connections := connections[c := connections[c].(closing := Marked)];
      connections := connections[c := connections[c].(closing := Stopped)];
      collected := connections[c].ptys;
      connections := connections[c := connections[c].(closing := Collected(collected), ptys := {})];
    }
  }
}
