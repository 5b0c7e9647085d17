/** Discovery snapshots become one batch of typed operations: the difference between the current host tree and
    the next one. */
module StateProjector {
  import opened GoText
  import opened Wrappers
  import opened StateKeys
  import opened StateProjection
  import opened Sorting

  // ---------- What discovery reports ----------

  datatype TmuxPane = TmuxPane(
    id: Text, index: int, active: bool, width: int, height: int, currentCommand: Text, pid: int)

  /** Absent list entries are nil pointers. */
  datatype TmuxWindow = TmuxWindow(
    id: Text, name: Text, index: int, active: bool, layout: Text, panes: seq<Option<TmuxPane>>)

  datatype TmuxSession = TmuxSession(
    id: Text, name: Text, created: Time, attached: bool, lastActivity: Time, windows: seq<Option<TmuxWindow>>)

  datatype HostSnapshot = HostSnapshot(
    id: Text, displayName: Text, online: bool, local: bool, version: Text, sessions: seq<Option<TmuxSession>>)

  predicate KeptPane(p: Option<TmuxPane>) { p.Some? && p.value.id != "" }
  predicate KeptWindow(w: Option<TmuxWindow>) { w.Some? && w.value.id != "" }
  predicate KeptSession(s: Option<TmuxSession>) { s.Some? && s.value.name != "" }

  // ---------- The host tree as four flat maps ----------

  datatype Tree = Tree(
    hosts: map<Text, Host>, sessions: map<Text, Session>, windows: map<Text, Window>, panes: map<Text, Pane>)

  function TreeOf(p: Projection): Tree {
    Tree(p.hosts, p.sessions, p.windows, p.panes)
  }

  function WithTree(p: Projection, t: Tree): Projection {
    p.(hosts := t.hosts, sessions := t.sessions, windows := t.windows, panes := t.panes)
  }

  function HostOf(h: HostSnapshot): Host {
    Host(HostKey(h.id), h.id, h.displayName, h.online, h.local, h.version, 0)
  }

  function SessionOf(hostId: Text, s: TmuxSession): Session {
    Session(SessionKey(hostId, s.name), HostKey(hostId), hostId, s.name, s.id, s.attached, s.created, s.lastActivity)
  }

  function WindowOf(hostId: Text, session: Text, w: TmuxWindow): Window {
    Window(WindowKey(hostId, session, w.id), SessionKey(hostId, session), w.id, w.name, w.index, w.active, w.layout)
  }

  function PaneOf(hostId: Text, session: Text, windowId: Text, p: TmuxPane): Pane {
    Pane(PaneKey(hostId, session, windowId, p.id), WindowKey(hostId, session, windowId), p.id, p.index, p.active,
         p.width, p.height, p.currentCommand, p.pid)
  }

  /** Each function adds a list of reported nodes to a tree, in list order; a repeated key overwrites. */
  function AddPanes(t: Tree, hostId: Text, session: Text, windowId: Text, panes: seq<Option<TmuxPane>>): Tree {
    if panes == [] then t else
      var n := |panes| - 1;
      var before := AddPanes(t, hostId, session, windowId, panes[..n]);
      if !KeptPane(panes[n]) then before else
        var pane := PaneOf(hostId, session, windowId, panes[n].value);
        before.(panes := before.panes[pane.key := pane])
  }

  function AddWindows(t: Tree, hostId: Text, session: Text, windows: seq<Option<TmuxWindow>>): Tree {
    if windows == [] then t else
      var n := |windows| - 1;
      var before := AddWindows(t, hostId, session, windows[..n]);
      if !KeptWindow(windows[n]) then before else
        var window := WindowOf(hostId, session, windows[n].value);
        AddPanes(before.(windows := before.windows[window.key := window]),
                 hostId, session, windows[n].value.id, windows[n].value.panes)
  }

  function AddSessions(t: Tree, hostId: Text, sessions: seq<Option<TmuxSession>>): Tree {
    if sessions == [] then t else
      var n := |sessions| - 1;
      var before := AddSessions(t, hostId, sessions[..n]);
      if !KeptSession(sessions[n]) then before else
        var session := SessionOf(hostId, sessions[n].value);
        AddWindows(before.(sessions := before.sessions[session.key := session]),
                   hostId, sessions[n].value.name, sessions[n].value.windows)
  }

  function AddHost(t: Tree, h: HostSnapshot): Tree {
    AddSessions(t.(hosts := t.hosts[HostKey(h.id) := HostOf(h)]), h.id, h.sessions)
  }

  const NO_TREE := Tree(map[], map[], map[], map[])

  function TreeFrom(hosts: seq<HostSnapshot>): Tree {
    if hosts == [] then NO_TREE else AddHost(TreeFrom(hosts[..|hosts| - 1]), hosts[|hosts| - 1])
  }

  // ---------- Differences between maps ----------

  ghost function Removed<V>(current: map<Text, V>, next: map<Text, V>): set<Text> {
    current.Keys - next.Keys
  }

  ghost function Upserted<V>(current: map<Text, V>, next: map<Text, V>): set<Text> {
    set key | key in next && (key !in current || current[key] != next[key])
  }

  ghost function Listed<T, R>(items: seq<T>, f: T -> R): (r: seq<R>)
    ensures |r| == |items| && forall i :: 0 <= i < |items| ==> r[i] == f(items[i])
  {
    seq(|items|, i requires 0 <= i < |items| => f(items[i]))
  }

  ghost function Upserts<V>(keys: seq<Text>, next: map<Text, V>, upsert: V -> Operation): (r: seq<Operation>)
    requires forall i :: 0 <= i < |keys| ==> keys[i] in next
    ensures |r| == |keys| && forall i :: 0 <= i < |keys| ==> r[i] == upsert(next[keys[i]])
  {
    seq(|keys|, i requires 0 <= i < |keys| => upsert(next[keys[i]]))
  }

  /** Removals in key order, then insertions and changes in key order. */
  ghost function MapDiff<V>(current: map<Text, V>, next: map<Text, V>,
                            remove: Text -> Operation, upsert: V -> Operation): seq<Operation>
  {
    var upserted := InKeyOrder(Upserted(current, next));
    assert forall i :: 0 <= i < |upserted| ==> upserted[i] in Elements(upserted);
    Listed(InKeyOrder(Removed(current, next)), remove) + Upserts(upserted, next, upsert)
  }

  function RemoveHostOp(key: Text): Operation { Operation(RemoveHost, key) }
  function UpsertHostOp(value: Host): Operation { Operation(UpsertHost, host := Some(value)) }
  function RemoveSessionOp(key: Text): Operation { Operation(RemoveSession, key) }
  function UpsertSessionOp(value: Session): Operation { Operation(UpsertSession, session := Some(value)) }
  function RemoveWindowOp(key: Text): Operation { Operation(RemoveWindow, key) }
  function UpsertWindowOp(value: Window): Operation { Operation(UpsertWindow, window := Some(value)) }
  function RemovePaneOp(key: Text): Operation { Operation(RemovePane, key) }
  function UpsertPaneOp(value: Pane): Operation { Operation(UpsertPane, pane := Some(value)) }

  ghost function TreeDiff(current: Tree, next: Tree): seq<Operation> {
    MapDiff(current.panes, next.panes, RemovePaneOp, UpsertPaneOp)
    + MapDiff(current.windows, next.windows, RemoveWindowOp, UpsertWindowOp)
    + MapDiff(current.sessions, next.sessions, RemoveSessionOp, UpsertSessionOp)
    + MapDiff(current.hosts, next.hosts, RemoveHostOp, UpsertHostOp)
  }

  // ---------- The same, with loops ----------

  datatype ProjectorError = HostIdRequired

  method RemoveKeys<V>(current: map<Text, V>, next: map<Text, V>) returns (keys: seq<Text>)
    ensures keys == InKeyOrder(Removed(current, next))
  {
    keys := [];
    var rest := current.Keys;
    while rest != {}
      invariant rest <= current.Keys && Distinct(keys)
      invariant Elements(keys) == current.Keys - rest - next.Keys
      decreases rest
    {
      var key :| key in rest;
      if key !in next {
        PushDistinct(keys, key);
        keys := keys + [key];
      }
      rest := rest - {key};
    }
    assert Elements(keys) == Removed(current, next);
    keys := SortKeys(keys);
  }

  method UpsertKeys<V(==)>(current: map<Text, V>, next: map<Text, V>) returns (keys: seq<Text>)
    ensures keys == InKeyOrder(Upserted(current, next))
  {
    keys := [];
    var rest := next.Keys;
    while rest != {}
      invariant rest <= next.Keys && Distinct(keys)
      invariant Elements(keys) == Upserted(current, next) - rest
      decreases rest
    {
      var key :| key in rest;
      if key !in current || current[key] != next[key] {
        PushDistinct(keys, key);
        keys := keys + [key];
      }
      rest := rest - {key};
    }
    assert Upserted(current, next) - rest == Upserted(current, next);
    keys := SortKeys(keys);
  }

  lemma ListedMembers(keys: set<Text>)
    ensures forall i :: 0 <= i < |InKeyOrder(keys)| ==> InKeyOrder(keys)[i] in keys
  {
    assert forall i :: 0 <= i < |InKeyOrder(keys)| ==> InKeyOrder(keys)[i] in Elements(InKeyOrder(keys));
  }

  method AppendRemoves(operations: seq<Operation>, keys: seq<Text>, remove: Text -> Operation)
    returns (result: seq<Operation>)
    ensures result == operations + Listed(keys, remove)
  {
    result := operations;
    for i := 0 to |keys|
      invariant result == operations + Listed(keys, remove)[..i]
    {
      result := result + [remove(keys[i])];
    }
  }

  method AppendUpserts<V>(operations: seq<Operation>, keys: seq<Text>, next: map<Text, V>, upsert: V -> Operation)
    returns (result: seq<Operation>)
    requires forall i :: 0 <= i < |keys| ==> keys[i] in next
    ensures result == operations + Upserts(keys, next, upsert)
  {
    result := operations;
    for i := 0 to |keys|
      invariant result == operations + Upserts(keys, next, upsert)[..i]
    {
      result := result + [upsert(next[keys[i]])];
    }
  }

  method AppendMapDiff<V(==)>(operations: seq<Operation>, current: map<Text, V>, next: map<Text, V>,
                              remove: Text -> Operation, upsert: V -> Operation)
    returns (result: seq<Operation>)
    ensures result == operations + MapDiff(current, next, remove, upsert)
  {
    hide Listed, Upserts, InKeyOrder, Removed;
    var removeKeys := RemoveKeys(current, next);
    result := AppendRemoves(operations, removeKeys, remove);
    var upsertKeys := UpsertKeys(current, next);
    ListedMembers(Upserted(current, next));
    result := AppendUpserts(result, upsertKeys, next, upsert);
    assert result == operations + (Listed(removeKeys, remove) + Upserts(upsertKeys, next, upsert));
  }

  method ReconcileHosts(current: Projection, hosts: seq<HostSnapshot>)
    returns (result: Result<seq<Operation>, ProjectorError>)
    ensures result == if HostsHaveIds(hosts) then Ok(TreeDiff(TreeOf(current), TreeFrom(hosts)))
                      else Err(HostIdRequired)
    ensures result.Err? <==> exists i :: 0 <= i < |hosts| && hosts[i].id == ""
  {
    hide TreeDiff;
    var next := ProjectHosts(hosts);
    if next.Err? {
      return Err(next.error);
    }
    var operations := DiffTrees(current, next.value);
    return Ok(operations);
  }

  ghost predicate HostsHaveIds(hosts: seq<HostSnapshot>) {
    forall i :: 0 <= i < |hosts| ==> hosts[i].id != ""
  }

  method ProjectHosts(hosts: seq<HostSnapshot>) returns (result: Result<Tree, ProjectorError>)
    ensures result == if HostsHaveIds(hosts) then Ok(TreeFrom(hosts)) else Err(HostIdRequired)
  {
    hide AddSessions, HostKey, HostOf;
    var next := NO_TREE;
    for i := 0 to |hosts|
      invariant HostsHaveIds(hosts[..i])
      invariant next == TreeFrom(hosts[..i])
    {
      var source := hosts[i];
      if source.id == "" {
        return Err(HostIdRequired);
      }
      assert hosts[..i + 1][..i] == hosts[..i];
      next := next.(hosts := next.hosts[HostKey(source.id) := HostOf(source)]);
      next := ProjectSessions(next, source.id, source.sessions);
    }
    assert hosts[..|hosts|] == hosts;
    return Ok(next);
  }

  method DiffTrees(current: Projection, next: Tree) returns (operations: seq<Operation>)
    ensures operations == TreeDiff(TreeOf(current), next)
  {
    hide MapDiff;
    operations := AppendMapDiff([], current.panes, next.panes, RemovePaneOp, UpsertPaneOp);
    operations := AppendMapDiff(operations, current.windows, next.windows, RemoveWindowOp, UpsertWindowOp);
    operations := AppendMapDiff(operations, current.sessions, next.sessions, RemoveSessionOp, UpsertSessionOp);
    operations := AppendMapDiff(operations, current.hosts, next.hosts, RemoveHostOp, UpsertHostOp);
  }

  method ProjectSessions(t: Tree, hostId: Text, sessions: seq<Option<TmuxSession>>) returns (next: Tree)
    ensures next == AddSessions(t, hostId, sessions)
  {
    next := t;
    for i := 0 to |sessions|
      invariant next == AddSessions(t, hostId, sessions[..i])
    {
      assert sessions[..i + 1][..i] == sessions[..i];
      if sessions[i].None? || sessions[i].value.name == "" {
        continue;
      }
      var source := sessions[i].value;
      var session := SessionOf(hostId, source);
      next := next.(sessions := next.sessions[session.key := session]);
      next := ProjectWindows(next, hostId, source.name, source.windows);
    }
    assert sessions[..|sessions|] == sessions;
  }

  method ProjectWindows(t: Tree, hostId: Text, session: Text, windows: seq<Option<TmuxWindow>>) returns (next: Tree)
    ensures next == AddWindows(t, hostId, session, windows)
  {
    next := t;
    for i := 0 to |windows|
      invariant next == AddWindows(t, hostId, session, windows[..i])
    {
      assert windows[..i + 1][..i] == windows[..i];
      if windows[i].None? || windows[i].value.id == "" {
        continue;
      }
      var source := windows[i].value;
      var window := WindowOf(hostId, session, source);
      next := next.(windows := next.windows[window.key := window]);
      next := ProjectPanes(next, hostId, session, source.id, source.panes);
    }
    assert windows[..|windows|] == windows;
  }

  method ProjectPanes(t: Tree, hostId: Text, session: Text, windowId: Text, panes: seq<Option<TmuxPane>>)
    returns (next: Tree)
    ensures next == AddPanes(t, hostId, session, windowId, panes)
  {
    next := t;
    for i := 0 to |panes|
      invariant next == AddPanes(t, hostId, session, windowId, panes[..i])
    {
      assert panes[..i + 1][..i] == panes[..i];
      if panes[i].None? || panes[i].value.id == "" {
        continue;
      }
      var pane := PaneOf(hostId, session, windowId, panes[i].value);
      next := next.(panes := next.panes[pane.key := pane]);
    }
    assert panes[..|panes|] == panes;
  }
}
