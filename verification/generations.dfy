/** Connection generations of the peers: reservation, authorised activation, revocation and generation-checked
    unregistration, each under the manager's lock. */
module Generations {
  import opened GoText
  import opened Wrappers

  type Serial = nat

  const KEY_SIZE := 32
  const FINGERPRINT_SIZE := 8

  /** The identifier of a peer: the first bytes of its public key. Keys are written as the bytes they encode. */
  function Fingerprint(key: Text): Text {
    if |key| == KEY_SIZE then key[..FINGERPRINT_SIZE] else ""
  }

  datatype Peer = Peer(name: Text, key: Text)

  datatype Connection = Connection(id: Text, key: Text, generation: nat)

  datatype Host = Host(key: Text, connected: bool, connection: Option<Serial>, generation: nat)

  /** `connections` are all that were ever opened, `tried` those whose handshake has come to its activation. */
  datatype Registry = Registry(
    hosts: map<Text, Host>, generations: map<Text, nat>, peers: seq<Peer>, connections: map<Serial, Connection>,
    tried: set<Serial>)

  // ---------- The peer store ----------

  predicate HasKey(peers: seq<Peer>, key: Text) {
    exists i :: 0 <= i < |peers| && peers[i].key == key
  }

  predicate HasName(peers: seq<Peer>, name: Text) {
    exists i :: 0 <= i < |peers| && peers[i].name == name
  }

  function FirstNamed(peers: seq<Peer>, name: Text): (i: nat)
    requires HasName(peers, name)
    ensures i < |peers| && peers[i].name == name && !HasName(peers[..i], name)
  {
    if peers[0].name == name then 0 else
      var i :| 0 <= i < |peers| && peers[i].name == name;
      assert peers[1..][i - 1].name == name;
      var j := FirstNamed(peers[1..], name);
      assert forall k :: 0 < k < j + 1 ==> peers[k] == peers[1..][..j][k - 1];
      j + 1
  }

  /** A peer is added if its key is well-formed, neither its key nor its name is taken, and the store can be written. */
  function PairStep(r: Registry, peer: Peer, saved: bool): (Registry, bool) {
    if |peer.key| != KEY_SIZE || HasKey(r.peers, peer.key) || HasName(r.peers, peer.name) || !saved then (r, false)
    else (r.(peers := r.peers + [peer]), true)
  }

  // ---------- The manager ----------

  function Reserved(r: Registry, id: Text): nat {
    if id in r.generations then r.generations[id] else 0
  }

  /** A handshake reserves its generation and opens its connection with it. */
  function ReserveStep(r: Registry, serial: Serial, key: Text): Registry
    requires serial !in r.connections
  {
    var id := Fingerprint(key);
    var generation := Reserved(r, id) + 1;
    r.(generations := r.generations[id := generation],
       connections := r.connections[serial := Connection(id, key, generation)])
  }

  function ActivateStep(r: Registry, serial: Serial): (Registry, bool)
    requires serial in r.connections
  {
    var c, after := r.connections[serial], r.(tried := r.tried + {serial});
    if !HasKey(r.peers, c.key) then (after, false)
    else if c.id in r.hosts && r.hosts[c.id].connection.Some? && r.hosts[c.id].generation >= c.generation then (after, false)
    else (after.(hosts := r.hosts[c.id := Host(c.key, true, Some(serial), c.generation)]), true)
  }

  function RevokeStep(r: Registry, name: Text, saved: bool): (Registry, bool) {
    if !HasName(r.peers, name) || !saved then (r, false) else
      var i := FirstNamed(r.peers, name);
      (r.(peers := r.peers[..i] + r.peers[i + 1..], hosts := r.hosts - {Fingerprint(r.peers[i].key)}), true)
  }

  function UnregisterStep(r: Registry, id: Text, generation: nat): (Registry, bool) {
    if id !in r.hosts || r.hosts[id].generation != generation then (r, false)
    else (r.(hosts := r.hosts[id := r.hosts[id].(connected := false, connection := None)]), true)
  }

  /** Hosts that have been offline for too long are dropped. */
  function PruneStep(r: Registry, id: Text): Registry {
    if id in r.hosts && !r.hosts[id].connected then r.(hosts := r.hosts - {id}) else r
  }

  predicate IsCurrent(r: Registry, serial: Serial) {
    && serial in r.connections
    && var c := r.connections[serial];
       c.id in r.hosts && r.hosts[c.id].connection == Some(serial) && r.hosts[c.id].generation == c.generation
  }

  // ---------- The same operations, in place ----------

  class Manager {
    var hosts: map<Text, Host>
    var generations: map<Text, nat>
    var peers: seq<Peer>
    var connections: map<Serial, Connection>
    var tried: set<Serial>

    ghost function View(): Registry
      reads this
    {
      Registry(hosts, generations, peers, connections, tried)
    }

    constructor (peers: seq<Peer>)
      ensures View() == Registry(map[], map[], peers, map[], {})
    {
      this.peers := peers;
      hosts, generations, connections, tried := map[], map[], map[], {};
    }

    method GetByPublicKey(key: Text) returns (found: bool)
      ensures found <==> HasKey(peers, key)
    {
      for i := 0 to |peers|
        invariant forall k :: 0 <= k < i ==> peers[k].key != key
      {
        if peers[i].key == key {
          return true;
        }
      }
      return false;
    }

    method Get(name: Text) returns (found: Option<nat>)
      ensures found == if HasName(peers, name) then Some(FirstNamed(peers, name)) else None
    {
      for i := 0 to |peers|
        invariant forall k :: 0 <= k < i ==> peers[k].name != name
      {
        if peers[i].name == name {
          FirstIsUnique(peers, name, i);
          return Some(i);
        }
      }
      return None;
    }

    method Add(peer: Peer, saved: bool) returns (ok: bool)
      modifies this`peers
      ensures (View(), ok) == PairStep(old(View()), peer, saved)
      ensures ok <==>
        && |peer.key| == 32 && saved
        && forall i :: 0 <= i < |old(peers)| ==> old(peers)[i].key != peer.key && old(peers)[i].name != peer.name
      ensures peers == if ok then old(peers) + [peer] else old(peers)
    {
      if |peer.key| != KEY_SIZE {
        return false;
      }
      for i := 0 to |peers|
        invariant forall k :: 0 <= k < i ==> peers[k].key != peer.key && peers[k].name != peer.name
      {
        if peers[i].key == peer.key || peers[i].name == peer.name {
          return false;
        }
      }
      if !saved {
        return false;
      }
      peers := peers + [peer];
      return true;
    }

    method ReserveGeneration(serial: Serial, key: Text)
      requires serial !in connections
      modifies this
      ensures View() == ReserveStep(old(View()), serial, key)
      ensures var id := Fingerprint(key);
        && id in generations && generations[id] == (if id in old(generations) then old(generations)[id] else 0) + 1
        && generations == old(generations)[id := generations[id]]
        && connections == old(connections)[serial := Connection(id, key, generations[id])]
    {
      var id := Fingerprint(key);
      generations := generations[id := (if id in generations then generations[id] else 0) + 1];
      connections := connections[serial := Connection(id, key, generations[id])];
    }

    method ActivateAuthorizedPeer(serial: Serial) returns (ok: bool)
      requires serial in connections
      modifies this
      ensures (View(), ok) == ActivateStep(old(View()), serial)
      ensures var c := connections[serial];
        && (ok <==>
              && (exists i :: 0 <= i < |peers| && peers[i].key == c.key)
              && (c.id !in old(hosts) || old(hosts)[c.id].connection.None? || old(hosts)[c.id].generation < c.generation))
        && hosts == if ok then old(hosts)[c.id := Host(c.key, true, Some(serial), c.generation)] else old(hosts)
    {
      var c := connections[serial];
      tried := tried + {serial};
      var authorized := GetByPublicKey(c.key);
      if !authorized {
        return false;
      }
      if c.id in hosts && hosts[c.id].connection.Some? && hosts[c.id].generation >= c.generation {
        return false;
      }
      hosts := hosts[c.id := Host(c.key, true, Some(serial), c.generation)];
      return true;
    }

    method RevokePeer(name: Text, saved: bool) returns (ok: bool)
      modifies this
      ensures (View(), ok) == RevokeStep(old(View()), name, saved)
      ensures ok <==> saved && HasName(old(peers), name)
      ensures ok ==>
        var i := FirstNamed(old(peers), name);
        && peers == old(peers)[..i] + old(peers)[i + 1..]
        && hosts == old(hosts) - {Fingerprint(old(peers)[i].key)}
      ensures !ok ==> peers == old(peers) && hosts == old(hosts)
    {
      hide HasName, FirstNamed, Fingerprint;
      var authorized := Get(name);
      if authorized.None? || !saved {
        return false;
      }
      var i := authorized.value;
      hosts := hosts - {Fingerprint(peers[i].key)};
      peers := peers[..i] + peers[i + 1..];
      return true;
    }

    method UnregisterPeerGeneration(id: Text, generation: nat) returns (ok: bool)
      modifies this`hosts
      ensures (View(), ok) == UnregisterStep(old(View()), id, generation)
      ensures ok <==> id in old(hosts) && old(hosts)[id].generation == generation
      ensures hosts == if ok then old(hosts)[id := Host(old(hosts)[id].key, false, None, generation)] else old(hosts)
    {
      if id !in hosts || hosts[id].generation != generation {
        return false;
      }
      hosts := hosts[id := hosts[id].(connected := false, connection := None)];
      return true;
    }
  }

  lemma FirstIsUnique(peers: seq<Peer>, name: Text, i: nat)
    requires i < |peers| && peers[i].name == name && forall k :: 0 <= k < i ==> peers[k].name != name
    ensures HasName(peers, name) && FirstNamed(peers, name) == i
  {
    var j := FirstNamed(peers, name);
    forall k | 0 <= k < j ensures peers[k].name != name {
      assert peers[..j][k] == peers[k];
    }
  }

  // ---------- Runs ----------

  datatype Step =
    | Pair(peer: Peer, saved: bool)
    | Reserve(serial: Serial, key: Text)
    | Activate(serial: Serial)
    | Revoke(name: Text, saved: bool)
    | Unregister(serial: Serial)
    | Prune(id: Text)

  /** Each connection is opened once and comes to its activation once. */
  function Next(r: Registry, step: Step): Registry {
    match step
    case Pair(peer, saved) => PairStep(r, peer, saved).0
    case Reserve(serial, key) => if serial in r.connections then r else ReserveStep(r, serial, key)
    case Activate(serial) =>
      if serial in r.connections && serial !in r.tried then ActivateStep(r, serial).0 else r
    case Revoke(name, saved) => RevokeStep(r, name, saved).0
    case Unregister(serial) =>
      if serial in r.connections then UnregisterStep(r, r.connections[serial].id, r.connections[serial].generation).0 else r
    case Prune(id) => PruneStep(r, id)
  }

  function Run(r: Registry, steps: seq<Step>): Registry {
    if steps == [] then r else Next(Run(r, steps[..|steps| - 1]), steps[|steps| - 1])
  }

  ghost predicate DistinctPeers(peers: seq<Peer>) {
    && (forall i, j :: 0 <= i < j < |peers| ==> peers[i].key != peers[j].key && peers[i].name != peers[j].name)
    && (forall i :: 0 <= i < |peers| ==> |peers[i].key| == KEY_SIZE)
  }

  ghost predicate ConnectionInv(r: Registry, serial: Serial)
    requires serial in r.connections
  {
    var c := r.connections[serial];
    c.id == Fingerprint(c.key) && 1 <= c.generation <= Reserved(r, c.id)
  }

  /** The installed connection is the one the host entry describes, and its key is in the peer store. */
  ghost predicate HostInv(r: Registry, id: Text)
    requires id in r.hosts
  {
    var host := r.hosts[id];
    && (host.connected <==> host.connection.Some?)
    && (host.connection.Some? ==>
          var serial := host.connection.value;
          && serial in r.connections && serial in r.tried
          && r.connections[serial] == Connection(id, host.key, host.generation) && HasKey(r.peers, host.key))
  }

  ghost predicate Inv(r: Registry) {
    && DistinctPeers(r.peers)
    && (forall serial :: serial in r.connections ==> ConnectionInv(r, serial))
    && (forall s, t :: s in r.connections && t in r.connections && s != t && r.connections[s].id == r.connections[t].id ==>
          r.connections[s].generation != r.connections[t].generation)
    && (forall id :: id in r.hosts ==> HostInv(r, id))
  }

  lemma RevokedPeers(peers: seq<Peer>, i: nat)
    requires DistinctPeers(peers) && i < |peers|
    ensures var left := peers[..i] + peers[i + 1..];
      DistinctPeers(left) && !HasKey(left, peers[i].key)
  {
    var left := peers[..i] + peers[i + 1..];
    forall k | 0 <= k < |left| ensures left[k] == peers[if k < i then k else k + 1] {}
  }

  lemma OthersStayPaired(peers: seq<Peer>, i: nat, key: Text)
    requires i < |peers| && HasKey(peers, key) && key != peers[i].key
    ensures HasKey(peers[..i] + peers[i + 1..], key)
  {
    var k :| 0 <= k < |peers| && peers[k].key == key;
    assert (peers[..i] + peers[i + 1..])[if k < i then k else k - 1].key == key;
  }

  lemma PairKeepsInv(r: Registry, peer: Peer, saved: bool)
    requires Inv(r)
    ensures Inv(PairStep(r, peer, saved).0)
  {
    var r' := PairStep(r, peer, saved).0;
    forall id | id in r'.hosts ensures HostInv(r', id) {
      assert HostInv(r, id);
      if r.hosts[id].connection.Some? {
        var k :| 0 <= k < |r.peers| && r.peers[k].key == r.hosts[id].key;
        assert r'.peers[k].key == r.hosts[id].key;
      }
    }
    forall serial | serial in r'.connections ensures ConnectionInv(r', serial) {
      assert ConnectionInv(r, serial);
    }
  }

  lemma ReserveKeepsInv(r: Registry, serial: Serial, key: Text)
    requires Inv(r) && serial !in r.connections
    ensures Inv(ReserveStep(r, serial, key))
  {
    hide Fingerprint, HasKey;
    var r' := ReserveStep(r, serial, key);
    forall s | s in r'.connections ensures ConnectionInv(r', s) {
      if s in r.connections { assert ConnectionInv(r, s); }
    }
    forall id | id in r'.hosts ensures HostInv(r', id) {
      assert HostInv(r, id);
    }
  }

  lemma ActivateKeepsInv(r: Registry, serial: Serial)
    requires Inv(r) && serial in r.connections
    ensures Inv(ActivateStep(r, serial).0)
  {
    hide Fingerprint, HasKey;
    var r' := ActivateStep(r, serial).0;
    forall s | s in r'.connections ensures ConnectionInv(r', s) {
      assert ConnectionInv(r, s);
    }
    forall id | id in r'.hosts ensures HostInv(r', id) {
      if id in r.hosts { assert HostInv(r, id); }
    }
  }

  lemma RevokeKeepsInv(r: Registry, name: Text, saved: bool)
    requires Inv(r)
    ensures Inv(RevokeStep(r, name, saved).0)
  {
    hide FirstNamed, HasName, HasKey;
    var r' := RevokeStep(r, name, saved).0;
    forall s | s in r'.connections ensures ConnectionInv(r', s) {
      assert ConnectionInv(r, s);
    }
    if r' != r {
      var i := FirstNamed(r.peers, name);
      RevokedPeers(r.peers, i);
      forall id | id in r'.hosts ensures HostInv(r', id) {
        assert HostInv(r, id);
        if r.hosts[id].connection.Some? {
          assert ConnectionInv(r, r.hosts[id].connection.value);
          OthersStayPaired(r.peers, i, r.hosts[id].key);
        }
      }
    }
  }

  lemma LeaveKeepsInv(r: Registry, step: Step)
    requires Inv(r) && (step.Unregister? || step.Prune?)
    ensures Inv(Next(r, step))
  {
    hide Fingerprint, HasKey;
    var r' := Next(r, step);
    forall s | s in r'.connections ensures ConnectionInv(r', s) {
      assert ConnectionInv(r, s);
    }
    forall id | id in r'.hosts ensures HostInv(r', id) {
      assert HostInv(r, id);
    }
  }

  lemma StepKeepsInv(r: Registry, step: Step)
    requires Inv(r)
    ensures Inv(Next(r, step))
  {
    hide Inv;
    match step
    case Pair(peer, saved) => PairKeepsInv(r, peer, saved);
    case Reserve(serial, key) => if serial !in r.connections { ReserveKeepsInv(r, serial, key); }
    case Activate(serial) => if serial in r.connections { ActivateKeepsInv(r, serial); }
    case Revoke(name, saved) => RevokeKeepsInv(r, name, saved);
    case Unregister(_) => LeaveKeepsInv(r, step);
    case Prune(_) => LeaveKeepsInv(r, step);
  }

  lemma {:induction false} RunKeepsInv(r: Registry, steps: seq<Step>)
    requires Inv(r)
    ensures Inv(Run(r, steps))
  {
    hide Inv, Next;
    if steps != [] {
      RunKeepsInv(r, steps[..|steps| - 1]);
      StepKeepsInv(Run(r, steps[..|steps| - 1]), steps[|steps| - 1]);
    }
  }

  function Start(peers: seq<Peer>): Registry { Registry(map[], map[], peers, map[], {}) }

  /** In every run, a live connection belongs to a peer in the store, is filed under its key's fingerprint, and has a
      generation that was reserved for that identifier. */
  lemma InstalledIsAuthorized(peers: seq<Peer>, steps: seq<Step>, id: Text)
    requires DistinctPeers(peers)
    ensures var r := Run(Start(peers), steps);
      id in r.hosts && r.hosts[id].connection.Some? ==>
        && HasKey(r.peers, r.hosts[id].key) && id == Fingerprint(r.hosts[id].key)
        && 1 <= r.hosts[id].generation <= Reserved(r, id)
        && r.hosts[id].connection.value in r.connections && IsCurrent(r, r.hosts[id].connection.value)
  {
    RunKeepsInv(Start(peers), steps);
    var r := Run(Start(peers), steps);
    if id in r.hosts && r.hosts[id].connection.Some? {
      assert HostInv(r, id);
      assert ConnectionInv(r, r.hosts[id].connection.value);
    }
  }

  // ---------- Replacement ----------

  function Live(r: Registry, id: Text): Option<Serial> {
    if id in r.hosts then r.hosts[id].connection else None
  }

  /** The ways in which a live connection can stop being live: a strictly newer generation of an authorised peer, its own
      unregistration, or the revocation of a peer with its fingerprint. */
  lemma LiveConnectionEndsOnlyBy(r: Registry, step: Step, id: Text)
    requires Inv(r) && Live(r, id).Some? && Live(Next(r, step), id) != Live(r, id)
    ensures match step
      case Activate(serial) =>
        && Live(Next(r, step), id) == Some(serial) && HasKey(r.peers, r.connections[serial].key)
        && r.connections[serial].generation > r.connections[Live(r, id).value].generation
      case Unregister(serial) => Live(r, id) == Some(serial) && Live(Next(r, step), id) == None
      case Revoke(name, saved) =>
        && HasName(r.peers, name) && Fingerprint(r.peers[FirstNamed(r.peers, name)].key) == id && id !in Next(r, step).hosts
      case _ => false
  {
    hide Fingerprint, HasKey, HasName, FirstNamed;
    assert HostInv(r, id);
    assert ConnectionInv(r, Live(r, id).value);
  }

  /** A late unregistration never removes another connection. */
  lemma LateUnregisterIsHarmless(r: Registry, late: Serial, other: Serial)
    requires Inv(r) && late in r.connections && late != other && IsCurrent(r, other)
    ensures IsCurrent(Next(r, Unregister(late)), other)
  {
    hide Fingerprint, HasKey;
    assert HostInv(r, r.connections[other].id);
  }

  lemma StepLeavesSuperseded(r: Registry, step: Step, serial: Serial)
    requires Inv(r) && serial in r.tried && serial in r.connections && !IsCurrent(r, serial)
    ensures serial in Next(r, step).tried && serial in Next(r, step).connections && !IsCurrent(Next(r, step), serial)
  {
    hide Fingerprint, HasKey, HasName, FirstNamed, DistinctPeers;
    assert ConnectionInv(r, serial);
  }

  /** A connection that has been activated and is no longer current never becomes current again. */
  lemma {:induction false} SupersededNeverReturns(r: Registry, steps: seq<Step>, serial: Serial)
    requires Inv(r) && serial in r.tried && serial in r.connections && !IsCurrent(r, serial)
    ensures var r' := Run(r, steps);
      serial in r'.tried && serial in r'.connections && !IsCurrent(r', serial)
  {
    hide Next, IsCurrent, Inv;
    if steps != [] {
      SupersededNeverReturns(r, steps[..|steps| - 1], serial);
      RunKeepsInv(r, steps[..|steps| - 1]);
      StepLeavesSuperseded(Run(r, steps[..|steps| - 1]), steps[|steps| - 1], serial);
    }
  }

  // ---------- Revocation ----------

  ghost predicate NeverPaired(steps: seq<Step>, key: Text) {
    forall i :: 0 <= i < |steps| && steps[i].Pair? ==> steps[i].peer.key != key
  }

  lemma StepKeepsUnpaired(r: Registry, step: Step, key: Text)
    requires Inv(r) && !HasKey(r.peers, key) && (step.Pair? ==> step.peer.key != key)
    ensures !HasKey(Next(r, step).peers, key)
  {
    hide FirstNamed, HasName, Fingerprint;
  }

  lemma {:induction false} UnpairedStays(r: Registry, steps: seq<Step>, key: Text)
    requires Inv(r) && !HasKey(r.peers, key) && NeverPaired(steps, key)
    ensures !HasKey(Run(r, steps).peers, key)
  {
    hide Next, Inv, HasKey;
    if steps != [] {
      UnpairedStays(r, steps[..|steps| - 1], key);
      RunKeepsInv(r, steps[..|steps| - 1]);
      StepKeepsUnpaired(Run(r, steps[..|steps| - 1]), steps[|steps| - 1], key);
    }
  }

  /** Once revoked, and until it is paired again, a peer has no live connection, whatever handshakes of it are under way. */
  lemma RevokedStaysOut(r: Registry, name: Text, steps: seq<Step>, id: Text)
    requires Inv(r) && RevokeStep(r, name, true).1
    requires NeverPaired(steps, r.peers[FirstNamed(r.peers, name)].key)
    ensures var r' := Run(RevokeStep(r, name, true).0, steps);
      Live(r', id).Some? ==> r'.hosts[id].key != r.peers[FirstNamed(r.peers, name)].key
  {
    hide HasName, Next, HasKey;
    var i, after := FirstNamed(r.peers, name), RevokeStep(r, name, true).0;
    RevokeKeepsInv(r, name, true);
    RevokedPeers(r.peers, i);
    UnpairedStays(after, steps, r.peers[i].key);
    RunKeepsInv(after, steps);
    if Live(Run(after, steps), id).Some? { assert HostInv(Run(after, steps), id); }
  }

  /** The revocation of one peer disconnects another one exactly if their keys have the same fingerprint, which is only
      the first eight of their thirty-two bytes. */
  lemma RevokeDisconnectsOtherIff(r: Registry, name: Text, serial: Serial)
    requires Inv(r) && RevokeStep(r, name, true).1 && IsCurrent(r, serial)
    ensures var revoked, other := r.peers[FirstNamed(r.peers, name)].key, r.connections[serial].key;
      |revoked| == |other| == KEY_SIZE
        && (IsCurrent(RevokeStep(r, name, true).0, serial) <==> revoked[..FINGERPRINT_SIZE] != other[..FINGERPRINT_SIZE])
  {
    hide HasName;
    assert ConnectionInv(r, serial);
    assert HostInv(r, r.connections[serial].id);
  }
}
