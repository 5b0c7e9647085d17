/** What the batch made by ReconcileHosts does when it is committed, at once or after other commits. */
module StateDiff {
  import opened GoText
  import opened Wrappers
  import opened StateKeys
  import opened StateProjection
  import opened StateProjector
  import opened StateTree
  import opened StateCoordinator

  // ---------- One table of the projection ----------

  /** One of the maps of a projection, and the two operations that change it. */
  datatype Table<!V> = Table(
    get: Projection -> map<Text, V>, put: (Projection, map<Text, V>) -> Projection,
    remove: Text -> Operation, upsert: V -> Operation, key: V -> Text)

  ghost predicate IsLens<V(!new)>(t: Table<V>) {
    && (forall p: Projection :: t.put(p, t.get(p)) == p)
    && (forall p: Projection, m: map<Text, V> :: t.get(t.put(p, m)) == m)
    && (forall p: Projection, m: map<Text, V>, n: map<Text, V> :: t.put(t.put(p, m), n) == t.put(p, n))
  }

  ghost predicate Removes<V(!new)>(t: Table<V>) {
    && (forall key: Text :: t.remove(key).Validate().None? <==> !Blank(key))
    && (forall p: Projection, key: Text :: t.remove(key).Validate().None? ==>
          ApplyOperation(p, t.remove(key)) == t.put(p, t.get(p) - {key}))
  }

  ghost predicate Upserting<V(!new)>(t: Table<V>) {
    && (forall value: V :: t.upsert(value).Validate().None?)
    && (forall p: Projection, value: V ::
          ApplyOperation(p, t.upsert(value)) == t.put(p, t.get(p)[t.key(value) := value]))
  }

  ghost predicate Lawful<V(!new)>(t: Table<V>) {
    IsLens(t) && Removes(t) && Upserting(t)
  }

  lemma PutPut<V(!new)>(t: Table<V>, p: Projection, m: map<Text, V>, n: map<Text, V>)
    requires Lawful(t)
    ensures t.put(t.put(p, m), n) == t.put(p, n) && t.get(t.put(p, m)) == m && t.put(p, t.get(p)) == p
  {
  }

  lemma RemoveApplies<V(!new)>(t: Table<V>, p: Projection, key: Text)
    requires Lawful(t)
    ensures t.remove(key).Validate().None? <==> !Blank(key)
    ensures !Blank(key) ==> ApplyOperation(p, t.remove(key)) == t.put(p, t.get(p) - {key})
  {
    hide Blank, ApplyOperation;
  }

  lemma UpsertApplies<V(!new)>(t: Table<V>, p: Projection, value: V)
    requires Lawful(t)
    ensures t.upsert(value).Validate().None?
    ensures ApplyOperation(p, t.upsert(value)) == t.put(p, t.get(p)[t.key(value) := value])
  {
    hide Blank, ApplyOperation;
  }

  const PANES: Table<Pane> := Table((p: Projection) => p.panes, (p: Projection, m) => p.(panes := m),
                             RemovePaneOp, UpsertPaneOp, (v: Pane) => v.key)
  const WINDOWS: Table<Window> := Table((p: Projection) => p.windows, (p: Projection, m) => p.(windows := m),
                                 RemoveWindowOp, UpsertWindowOp, (v: Window) => v.key)
  const SESSIONS: Table<Session> := Table((p: Projection) => p.sessions, (p: Projection, m) => p.(sessions := m),
                                   RemoveSessionOp, UpsertSessionOp, (v: Session) => v.key)
  const HOSTS: Table<Host> := Table((p: Projection) => p.hosts, (p: Projection, m) => p.(hosts := m),
                             RemoveHostOp, UpsertHostOp, (v: Host) => v.key)

  lemma PanesAreLawful()
    ensures Lawful(PANES)
  {
    hide Blank;
    forall p: Projection, key: Text | PANES.remove(key).Validate().None?
      ensures ApplyOperation(p, PANES.remove(key)) == PANES.put(p, PANES.get(p) - {key})
    {
      assert PANES.remove(key) == RemovePaneOp(key);
    }
    forall p: Projection, value: Pane
      ensures PANES.upsert(value).Validate().None?
      ensures ApplyOperation(p, PANES.upsert(value)) == PANES.put(p, PANES.get(p)[PANES.key(value) := value])
    {
      assert PANES.upsert(value) == UpsertPaneOp(value);
    }
  }

  lemma WindowsAreLawful()
    ensures Lawful(WINDOWS)
  {
    hide Blank;
    forall p: Projection, key: Text | WINDOWS.remove(key).Validate().None?
      ensures ApplyOperation(p, WINDOWS.remove(key)) == WINDOWS.put(p, WINDOWS.get(p) - {key})
    {
      assert WINDOWS.remove(key) == RemoveWindowOp(key);
    }
    forall p: Projection, value: Window
      ensures WINDOWS.upsert(value).Validate().None?
      ensures ApplyOperation(p, WINDOWS.upsert(value)) == WINDOWS.put(p, WINDOWS.get(p)[WINDOWS.key(value) := value])
    {
      assert WINDOWS.upsert(value) == UpsertWindowOp(value);
    }
  }

  lemma SessionsAreLawful()
    ensures Lawful(SESSIONS)
  {
    hide Blank;
    forall p: Projection, key: Text | SESSIONS.remove(key).Validate().None?
      ensures ApplyOperation(p, SESSIONS.remove(key)) == SESSIONS.put(p, SESSIONS.get(p) - {key})
    {
      assert SESSIONS.remove(key) == RemoveSessionOp(key);
    }
    forall p: Projection, value: Session
      ensures SESSIONS.upsert(value).Validate().None?
      ensures ApplyOperation(p, SESSIONS.upsert(value)) == SESSIONS.put(p, SESSIONS.get(p)[SESSIONS.key(value) := value])
    {
      assert SESSIONS.upsert(value) == UpsertSessionOp(value);
    }
  }

  lemma HostsAreLawful()
    ensures Lawful(HOSTS)
  {
    hide Blank;
    forall p: Projection, key: Text | HOSTS.remove(key).Validate().None?
      ensures ApplyOperation(p, HOSTS.remove(key)) == HOSTS.put(p, HOSTS.get(p) - {key})
    {
      assert HOSTS.remove(key) == RemoveHostOp(key);
    }
    forall p: Projection, value: Host
      ensures HOSTS.upsert(value).Validate().None?
      ensures ApplyOperation(p, HOSTS.upsert(value)) == HOSTS.put(p, HOSTS.get(p)[HOSTS.key(value) := value])
    {
      assert HOSTS.upsert(value) == UpsertHostOp(value);
    }
  }

  // ---------- Applying the difference of two maps ----------

  ghost predicate AgreeAt<V>(a: map<Text, V>, b: map<Text, V>, key: Text) {
    (key in a <==> key in b) && (key in a && key in b ==> a[key] == b[key])
  }

  /** The map `m` after the difference from `current` to `next` has been applied to it. */
  ghost function Patched<V>(m: map<Text, V>, current: map<Text, V>, next: map<Text, V>): map<Text, V> {
    map key | key in (m.Keys - Removed(current, next)) + Upserted(current, next) ::
      if key in Upserted(current, next) then next[key] else m[key]
  }

  /** The difference turns `m` into `next` exactly if `m` still agrees with `current` at every key that
      the difference leaves alone. */
  ghost predicate StillFits<V>(m: map<Text, V>, current: map<Text, V>, next: map<Text, V>) {
    forall key :: AgreeAt(current, next, key) ==> AgreeAt(m, current, key)
  }

  lemma PatchedIsNext<V>(m: map<Text, V>, current: map<Text, V>, next: map<Text, V>)
    ensures Patched(m, current, next) == next <==> StillFits(m, current, next)
  {
    var r := Patched(m, current, next);
    assert forall key :: key in r <==> (key in m && key !in Removed(current, next)) || key in Upserted(current, next);
    assert forall key :: !AgreeAt(current, next, key) <==>
      key in Removed(current, next) || key in Upserted(current, next);
    if StillFits(m, current, next) {
      forall key ensures AgreeAt(r, next, key) {
        if AgreeAt(current, next, key) { assert AgreeAt(m, current, key); }
      }
      assert r.Keys == next.Keys;
    }
    if r == next {
      forall key | AgreeAt(current, next, key) ensures AgreeAt(m, current, key) {
        assert AgreeAt(r, next, key);
        assert AgreeAt(r, m, key);
      }
    }
  }

  ghost predicate KeyedBy<V>(m: map<Text, V>, key: V -> Text) {
    forall k :: k in m ==> key(m[k]) == k
  }

  lemma {:induction false} RemovesApply<V(!new)>(t: Table<V>, p: Projection, keys: seq<Text>)
    requires Lawful(t)
    requires forall i :: 0 <= i < |keys| ==> !Blank(keys[i])
    ensures AllValid(Listed(keys, t.remove))
    ensures Evaluate(p, Listed(keys, t.remove)) == Ok(t.put(p, t.get(p) - Elements(keys)))
  {
    hide Lawful, Blank, ApplyOperation;
    if keys == [] {
      assert t.get(p) - Elements(keys) == t.get(p);
      PutPut(t, p, t.get(p), t.get(p));
    } else {
      var n := |keys| - 1;
      var m := t.get(p) - Elements(keys[..n]);
      PutPut(t, p, m, m - {keys[n]});
      RemoveApplies(t, t.put(p, m), keys[n]);
      RemovesApply(t, p, keys[..n]);
      assert Listed(keys, t.remove)[..n] == Listed(keys[..n], t.remove);
      assert keys == keys[..n] + [keys[n]];
      assert t.get(p) - Elements(keys) == t.get(p) - Elements(keys[..n]) - {keys[n]};
    }
  }

  ghost function Overwritten<V>(m: map<Text, V>, next: map<Text, V>, keys: set<Text>): map<Text, V>
    requires keys <= next.Keys
  {
    map key | key in m.Keys + keys :: if key in keys then next[key] else m[key]
  }

  lemma OverwriteOneMore<V>(m: map<Text, V>, next: map<Text, V>, keys: set<Text>, key: Text)
    requires keys <= next.Keys && key in next
    ensures Overwritten(m, next, keys + {key}) == Overwritten(m, next, keys)[key := next[key]]
  {
  }

  lemma {:induction false} UpsertsApply<V(!new)>(t: Table<V>, p: Projection, keys: seq<Text>, next: map<Text, V>)
    requires Lawful(t) && KeyedBy(next, t.key)
    requires forall i :: 0 <= i < |keys| ==> keys[i] in next
    ensures AllValid(Upserts(keys, next, t.upsert))
    ensures Elements(keys) <= next.Keys
    ensures Evaluate(p, Upserts(keys, next, t.upsert)) == Ok(t.put(p, Overwritten(t.get(p), next, Elements(keys))))
  {
    hide Lawful, Blank, ApplyOperation, Upserts;
    if keys == [] {
      assert Overwritten(t.get(p), next, Elements(keys)) == t.get(p);
      PutPut(t, p, t.get(p), t.get(p));
    } else {
      var n := |keys| - 1;
      UpsertsApply(t, p, keys[..n], next);
      assert Upserts(keys, next, t.upsert)[..n] == Upserts(keys[..n], next, t.upsert);
      assert keys == keys[..n] + [keys[n]];
      assert Elements(keys) == Elements(keys[..n]) + {keys[n]};
      OverwriteOneMore(t.get(p), next, Elements(keys[..n]), keys[n]);
      var m := Overwritten(t.get(p), next, Elements(keys[..n]));
      PutPut(t, p, m, m[keys[n] := next[keys[n]]]);
      UpsertApplies(t, t.put(p, m), next[keys[n]]);
    }
  }

  lemma RemoveThenOverwrite<V>(m: map<Text, V>, current: map<Text, V>, next: map<Text, V>)
    ensures Overwritten(m - Removed(current, next), next, Upserted(current, next)) == Patched(m, current, next)
  {
  }

  lemma MapDiffParts<V>(current: map<Text, V>, next: map<Text, V>, remove: Text -> Operation, upsert: V -> Operation)
    ensures var removed, upserted := InKeyOrder(Removed(current, next)), InKeyOrder(Upserted(current, next));
      && (forall i :: 0 <= i < |removed| ==> removed[i] in Removed(current, next))
      && (forall i :: 0 <= i < |upserted| ==> upserted[i] in Upserted(current, next))
      && MapDiff(current, next, remove, upsert) == Listed(removed, remove) + Upserts(upserted, next, upsert)
  {
    ListedMembers(Removed(current, next));
    ListedMembers(Upserted(current, next));
  }

  lemma DiffApplies<V(!new)>(t: Table<V>, p: Projection, current: map<Text, V>, next: map<Text, V>)
    requires Lawful(t) && KeyedBy(next, t.key)
    requires forall key :: key in Removed(current, next) ==> !Blank(key)
    ensures AllValid(MapDiff(current, next, t.remove, t.upsert))
    ensures Evaluate(p, MapDiff(current, next, t.remove, t.upsert)) == Ok(t.put(p, Patched(t.get(p), current, next)))
  {
    hide Lawful, Blank, ApplyOperation, Evaluate, MapDiff, InKeyOrder, Listed, Upserts, Overwritten, Patched;
    var removed, upserted := InKeyOrder(Removed(current, next)), InKeyOrder(Upserted(current, next));
    MapDiffParts(current, next, t.remove, t.upsert);
    RemovesApply(t, p, removed);
    var m := t.get(p) - Removed(current, next);
    var q := t.put(p, m);
    UpsertsApply(t, q, upserted, next);
    EvaluateAppend(p, Listed(removed, t.remove), Upserts(upserted, next, t.upsert));
    RemoveThenOverwrite(t.get(p), current, next);
    PutPut(t, p, m, Patched(t.get(p), current, next));
    AppendValid(Listed(removed, t.remove), Upserts(upserted, next, t.upsert));
  }

  lemma AppendValid(a: seq<Operation>, b: seq<Operation>)
    ensures AllValid(a + b) <==> AllValid(a) && AllValid(b)
  {
    assert forall i :: 0 <= i < |a| ==> (a + b)[i] == a[i];
    assert forall i :: 0 <= i < |b| ==> (a + b)[|a| + i] == b[i];
  }

  lemma DiffIsRefused<V(!new)>(t: Table<V>, current: map<Text, V>, next: map<Text, V>, key: Text)
    requires Lawful(t) && key in Removed(current, next) && Blank(key)
    ensures !AllValid(MapDiff(current, next, t.remove, t.upsert))
  {
    hide Lawful, Blank, ApplyOperation;
    RemoveApplies(t, EMPTY, key);
    var removed := InKeyOrder(Removed(current, next));
    assert key in Elements(removed);
    var i :| 0 <= i < |removed| && removed[i] == key;
    assert MapDiff(current, next, t.remove, t.upsert)[i] == t.remove(key);
  }

  lemma DiffIsEmpty<V(!new)>(t: Table<V>, current: map<Text, V>, next: map<Text, V>)
    ensures MapDiff(current, next, t.remove, t.upsert) == [] <==> current == next
  {
    var d := MapDiff(current, next, t.remove, t.upsert);
    assert |d| == |Removed(current, next)| + |Upserted(current, next)|;
    if d == [] {
      assert Removed(current, next) == {} && Upserted(current, next) == {};
      assert forall key :: key in current.Keys ==> key !in Removed(current, next);
      assert forall key :: key in next.Keys ==> key !in Upserted(current, next);
      assert current.Keys == next.Keys;
    }
  }

  // ---------- Trees ----------

  ghost predicate NoBlankKeys(t: Tree) {
    && (forall k :: k in t.hosts ==> !Blank(k)) && (forall k :: k in t.sessions ==> !Blank(k))
    && (forall k :: k in t.windows ==> !Blank(k)) && (forall k :: k in t.panes ==> !Blank(k))
  }

  ghost function PatchedTree(t: Tree, current: Tree, next: Tree): Tree {
    Tree(Patched(t.hosts, current.hosts, next.hosts), Patched(t.sessions, current.sessions, next.sessions),
         Patched(t.windows, current.windows, next.windows), Patched(t.panes, current.panes, next.panes))
  }

  ghost predicate TreeStillFits(t: Tree, current: Tree, next: Tree) {
    && StillFits(t.hosts, current.hosts, next.hosts) && StillFits(t.sessions, current.sessions, next.sessions)
    && StillFits(t.windows, current.windows, next.windows) && StillFits(t.panes, current.panes, next.panes)
  }

  lemma EvaluateFour(p: Projection, a: seq<Operation>, b: seq<Operation>, c: seq<Operation>, d: seq<Operation>,
                     p1: Projection, p2: Projection, p3: Projection, p4: Projection)
    requires AllValid(a) && AllValid(b) && AllValid(c) && AllValid(d)
    requires Evaluate(p, a) == Ok(p1) && Evaluate(p1, b) == Ok(p2)
    requires Evaluate(p2, c) == Ok(p3) && Evaluate(p3, d) == Ok(p4)
    ensures AllValid(a + b + c + d) && Evaluate(p, a + b + c + d) == Ok(p4)
  {
    hide Evaluate;
    AppendValid(a, b);
    AppendValid(a + b, c);
    AppendValid(a + b + c, d);
    EvaluateAppend(p, a, b);
    EvaluateAppend(p, a + b, c);
    EvaluateAppend(p, a + b + c, d);
  }

  lemma PanesDiffApplies(p: Projection, current: map<Text, Pane>, next: map<Text, Pane>)
    requires (forall k :: k in next ==> next[k].key == k) && (forall k :: k in current ==> !Blank(k))
    ensures var d := MapDiff(current, next, RemovePaneOp, UpsertPaneOp);
      AllValid(d) && Evaluate(p, d) == Ok(p.(panes := Patched(p.panes, current, next)))
  {
    hide Lawful, Blank, ApplyOperation, Evaluate, MapDiff, Patched, AllValid;
    PanesAreLawful();
    DiffApplies(PANES, p, current, next);
  }

  lemma WindowsDiffApplies(p: Projection, current: map<Text, Window>, next: map<Text, Window>)
    requires (forall k :: k in next ==> next[k].key == k) && (forall k :: k in current ==> !Blank(k))
    ensures var d := MapDiff(current, next, RemoveWindowOp, UpsertWindowOp);
      AllValid(d) && Evaluate(p, d) == Ok(p.(windows := Patched(p.windows, current, next)))
  {
    hide Lawful, Blank, ApplyOperation, Evaluate, MapDiff, Patched, AllValid;
    WindowsAreLawful();
    DiffApplies(WINDOWS, p, current, next);
  }

  lemma SessionsDiffApplies(p: Projection, current: map<Text, Session>, next: map<Text, Session>)
    requires (forall k :: k in next ==> next[k].key == k) && (forall k :: k in current ==> !Blank(k))
    ensures var d := MapDiff(current, next, RemoveSessionOp, UpsertSessionOp);
      AllValid(d) && Evaluate(p, d) == Ok(p.(sessions := Patched(p.sessions, current, next)))
  {
    hide Lawful, Blank, ApplyOperation, Evaluate, MapDiff, Patched, AllValid;
    SessionsAreLawful();
    DiffApplies(SESSIONS, p, current, next);
  }

  lemma HostsDiffApplies(p: Projection, current: map<Text, Host>, next: map<Text, Host>)
    requires (forall k :: k in next ==> next[k].key == k) && (forall k :: k in current ==> !Blank(k))
    ensures var d := MapDiff(current, next, RemoveHostOp, UpsertHostOp);
      AllValid(d) && Evaluate(p, d) == Ok(p.(hosts := Patched(p.hosts, current, next)))
  {
    hide Lawful, Blank, ApplyOperation, Evaluate, MapDiff, Patched, AllValid;
    HostsAreLawful();
    DiffApplies(HOSTS, p, current, next);
  }

  lemma TreeDiffApplies(p: Projection, current: Tree, next: Tree)
    requires WellKeyed(next) && NoBlankKeys(current)
    ensures AllValid(TreeDiff(current, next))
    ensures Evaluate(p, TreeDiff(current, next)) == Ok(WithTree(p, PatchedTree(TreeOf(p), current, next)))
  {
    hide Blank, Evaluate, MapDiff, Patched, AllValid;
    var p1 := p.(panes := Patched(p.panes, current.panes, next.panes));
    var p2 := p1.(windows := Patched(p.windows, current.windows, next.windows));
    var p3 := p2.(sessions := Patched(p.sessions, current.sessions, next.sessions));
    PanesDiffApplies(p, current.panes, next.panes);
    WindowsDiffApplies(p1, current.windows, next.windows);
    SessionsDiffApplies(p2, current.sessions, next.sessions);
    HostsDiffApplies(p3, current.hosts, next.hosts);
    EvaluateFour(p,
      MapDiff(current.panes, next.panes, RemovePaneOp, UpsertPaneOp),
      MapDiff(current.windows, next.windows, RemoveWindowOp, UpsertWindowOp),
      MapDiff(current.sessions, next.sessions, RemoveSessionOp, UpsertSessionOp),
      MapDiff(current.hosts, next.hosts, RemoveHostOp, UpsertHostOp),
      p1, p2, p3, p3.(hosts := Patched(p.hosts, current.hosts, next.hosts)));
  }

  lemma TreeDiffIsRefused(current: Tree, next: Tree)
    requires WellKeyed(next) && !NoBlankKeys(current)
    ensures !AllValid(TreeDiff(current, next))
  {
    hide Lawful, Blank, ApplyOperation, Evaluate, MapDiff;
    var a := MapDiff(current.panes, next.panes, RemovePaneOp, UpsertPaneOp);
    var b := MapDiff(current.windows, next.windows, RemoveWindowOp, UpsertWindowOp);
    var c := MapDiff(current.sessions, next.sessions, RemoveSessionOp, UpsertSessionOp);
    var d := MapDiff(current.hosts, next.hosts, RemoveHostOp, UpsertHostOp);
    AppendValid(a, b);
    AppendValid(a + b, c);
    AppendValid(a + b + c, d);
    if key :| key in current.panes && Blank(key) {
      PanesAreLawful();
      DiffIsRefused(PANES, current.panes, next.panes, key);
    } else if key :| key in current.windows && Blank(key) {
      WindowsAreLawful();
      DiffIsRefused(WINDOWS, current.windows, next.windows, key);
    } else if key :| key in current.sessions && Blank(key) {
      SessionsAreLawful();
      DiffIsRefused(SESSIONS, current.sessions, next.sessions, key);
    } else {
      var key :| key in current.hosts && Blank(key);
      HostsAreLawful();
      DiffIsRefused(HOSTS, current.hosts, next.hosts, key);
    }
  }

  lemma PatchedTreeIsNext(t: Tree, current: Tree, next: Tree)
    ensures PatchedTree(t, current, next) == next <==> TreeStillFits(t, current, next)
  {
    hide Patched, StillFits;
    PatchedIsNext(t.hosts, current.hosts, next.hosts);
    PatchedIsNext(t.sessions, current.sessions, next.sessions);
    PatchedIsNext(t.windows, current.windows, next.windows);
    PatchedIsNext(t.panes, current.panes, next.panes);
  }

  lemma TreeDiffIsEmpty(current: Tree, next: Tree)
    ensures TreeDiff(current, next) == [] <==> current == next
  {
    hide MapDiff;
    DiffIsEmpty(PANES, current.panes, next.panes);
    DiffIsEmpty(WINDOWS, current.windows, next.windows);
    DiffIsEmpty(SESSIONS, current.sessions, next.sessions);
    DiffIsEmpty(HOSTS, current.hosts, next.hosts);
    var a := MapDiff(current.panes, next.panes, RemovePaneOp, UpsertPaneOp);
    var b := MapDiff(current.windows, next.windows, RemoveWindowOp, UpsertWindowOp);
    var c := MapDiff(current.sessions, next.sessions, RemoveSessionOp, UpsertSessionOp);
    var d := MapDiff(current.hosts, next.hosts, RemoveHostOp, UpsertHostOp);
    assert |TreeDiff(current, next)| == |a| + |b| + |c| + |d|;
  }

  // ---------- Committing a difference ----------

  lemma CommitEvaluated(h: Hub, operations: seq<Operation>)
    requires h.Valid() && !h.stopped
    ensures var (h', r) := CommitStep(h, operations);
      match Evaluate(h.projection, operations)
      case Err(_) => r.Err? && h' == h
      case Ok(next) =>
        && r.Ok?
        && h'.projection == next
        && (r.value.changed <==> next != h.projection)
        && h'.revision == r.value.revision == h.revision + (if r.value.changed then 1 else 0)
  {
    if operations == [] {
      assert Evaluate(h.projection, operations) == Ok(h.projection);
    }
  }

  /** Committing the difference between the current projection and a discovery result installs exactly that host tree
      and leaves the other maps alone, the batch is empty exactly when nothing differs, and the result has no
      orphans. It works exactly if no entry of the current tree is stored under a blank key: such an entry would
      have to be removed, a blank key is refused in a remove operation, and then nothing changes at all. */
  lemma ReconcileIsExact(h: Hub, hosts: seq<HostSnapshot>)
    requires h.Valid() && !h.stopped
    ensures var current, next := TreeOf(h.projection), TreeFrom(hosts);
      var (h', r) := CommitStep(h, TreeDiff(current, next));
      && (r.Ok? <==> NoBlankKeys(current))
      && (r.Ok? ==>
            && h'.projection == WithTree(h.projection, next)
            && NoOrphans(TreeOf(h'.projection))
            && (r.value.changed <==> current != next)
            && h'.revision == h.revision + (if current != next then 1 else 0))
      && (r.Err? ==> h' == h)
      && (TreeDiff(current, next) == [] <==> current == next)
  {
    hide TreeDiff, Evaluate, Blank, CommitStep, WellKeyed, NoBlankKeys;
    var current, next := TreeOf(h.projection), TreeFrom(hosts);
    ProjectedTreeIsSound(hosts);
    CommitEvaluated(h, TreeDiff(current, next));
    TreeDiffIsEmpty(current, next);
    if NoBlankKeys(current) {
      TreeDiffApplies(h.projection, current, next);
      PatchedTreeIsNext(current, current, next);
    } else {
      TreeDiffIsRefused(current, next);
      EvaluateFails(h.projection, TreeDiff(current, next));
    }
  }

  /** A difference computed from an older snapshot can be committed exactly if the snapshot has no blank key. It then
      installs the new host tree, on top of the latest other maps, exactly if the committed tree still agrees with the
      snapshot wherever the difference changes nothing. */
  lemma StaleDiffIsExactIff(h: Hub, current: Tree, hosts: seq<HostSnapshot>)
    requires h.Valid() && !h.stopped
    ensures var next := TreeFrom(hosts);
      var (h', r) := CommitStep(h, TreeDiff(current, next));
      && (r.Ok? <==> NoBlankKeys(current))
      && (r.Ok? ==>
            && (h'.projection == WithTree(h.projection, next) <==> TreeStillFits(TreeOf(h.projection), current, next))
            && h'.revision == h.revision + (if h'.projection != h.projection then 1 else 0))
      && (r.Err? ==> h' == h)
  {
    hide TreeDiff, Evaluate, Blank, CommitStep, WellKeyed, NoBlankKeys;
    var next := TreeFrom(hosts);
    ProjectedTreeIsSound(hosts);
    CommitEvaluated(h, TreeDiff(current, next));
    if NoBlankKeys(current) {
      TreeDiffApplies(h.projection, current, next);
      PatchedTreeIsNext(TreeOf(h.projection), current, next);
    } else {
      TreeDiffIsRefused(current, next);
      EvaluateFails(h.projection, TreeDiff(current, next));
    }
  }

  function CommitAll(h: Hub, batches: seq<seq<Operation>>): (r: Hub)
    requires h.Valid()
    ensures r.Valid()
  {
    if batches == [] then h else
      CommitStep(CommitAll(h, batches[..|batches| - 1]), batches[|batches| - 1]).0
  }

  lemma {:induction false} SideOperationsKeepTree(p: Projection, operations: seq<Operation>)
    requires forall i :: 0 <= i < |operations| ==> operations[i].OffTree()
    ensures var r := Evaluate(p, operations); r.Ok? ==> TreeOf(r.value) == TreeOf(p)
  {
    hide Blank, ApplyOperation;
    if operations != [] {
      var n := |operations| - 1;
      SideOperationsKeepTree(p, operations[..n]);
      var before := Evaluate(p, operations[..n]);
      if before.Ok? && operations[n].Validate().None? {
        OffTreeKeepsTree(before.value, operations[n]);
      }
    }
  }

  ghost predicate SideBatches(batches: seq<seq<Operation>>) {
    forall i, j :: 0 <= i < |batches| && 0 <= j < |batches[i]| ==> batches[i][j].OffTree()
  }

  lemma {:induction false} SideBatchesKeepTree(h: Hub, batches: seq<seq<Operation>>)
    requires h.Valid() && !h.stopped && SideBatches(batches)
    ensures var h' := CommitAll(h, batches);
      TreeOf(h'.projection) == TreeOf(h.projection) && !h'.stopped
  {
    if batches != [] {
      hide Evaluate;
      var n := |batches| - 1;
      assert forall i :: 0 <= i < n ==> batches[..n][i] == batches[i];
      SideBatchesKeepTree(h, batches[..n]);
      var before := CommitAll(h, batches[..n]);
      SideOperationsKeepTree(before.projection, batches[n]);
      CommitEvaluated(before, batches[n]);
    }
  }

  lemma FitsItself(t: Tree, next: Tree)
    ensures TreeStillFits(t, t, next)
  {
  }

  /** If only tool-event, activity, health and metadata commits came between the snapshot and the commit, the
      difference can be committed exactly if no tree key is blank, and the result is the new host tree together with
      the latest other maps. */
  lemma StaleDiffAfterSideCommits(h: Hub, batches: seq<seq<Operation>>, hosts: seq<HostSnapshot>)
    requires h.Valid() && !h.stopped && SideBatches(batches)
    ensures var latest, next := CommitAll(h, batches), TreeFrom(hosts);
      var (h', r) := CommitStep(latest, TreeDiff(TreeOf(h.projection), next));
      && (r.Ok? <==> NoBlankKeys(TreeOf(h.projection)))
      && (r.Ok? ==>
            && h'.projection == WithTree(latest.projection, next)
            && h'.revision == latest.revision + (if TreeOf(h.projection) != next then 1 else 0))
      && (r.Err? ==> h' == latest)
  {
    hide TreeDiff, CommitStep, NoBlankKeys, CommitAll, TreeStillFits;
    SideBatchesKeepTree(h, batches);
    FitsItself(TreeOf(h.projection), TreeFrom(hosts));
    StaleDiffIsExactIff(CommitAll(h, batches), TreeOf(h.projection), hosts);
  }

  /** A commit can store a host under a blank key, and from then on no discovery result that lacks it can be
      installed. */
  lemma BlankKeyBlocksReconcile(instance: Text)
    ensures var op := Operation(UpsertHost, host := Some(Host("", "a", "a", true, false, "", 0)));
      var (h, r) := CommitStep(Start(instance), [op]);
      && r.Ok? && r.value.changed
      && CommitStep(h, TreeDiff(TreeOf(h.projection), TreeFrom([]))) == (h, Err(InvalidBatch(Fault(0, KeyRequired))))
  {
    hide TreeDiff, CommitStep, MapDiff;
    var op := Operation(UpsertHost, host := Some(Host("", "a", "a", true, false, "", 0)));
    var p := ApplyOperation(EMPTY, op);
    assert [op][..0] == [] && Evaluate(EMPTY, []) == Ok(EMPTY);
    assert Evaluate(EMPTY, [op]) == Ok(p);
    CommitEvaluated(Start(instance), [op]);
    assert "" in p.hosts && "" !in EMPTY.hosts;
    var (h, r) := CommitStep(Start(instance), [op]);
    OnlyRemoval(p);
    var diff := TreeDiff(TreeOf(p), NO_TREE);
    assert diff == [RemoveHostOp("")];
    assert diff[..0] == [] && Evaluate(p, []) == Ok(p);
    assert Evaluate(p, diff) == Err(Fault(0, KeyRequired));
    CommitFault(h, diff);
  }

  lemma CommitFault(h: Hub, operations: seq<Operation>)
    requires h.Valid() && !h.stopped && Evaluate(h.projection, operations).Err?
    ensures CommitStep(h, operations) == (h, Err(InvalidBatch(Evaluate(h.projection, operations).error)))
  {
  }

  lemma OnlyRemoval(p: Projection)
    requires p.hosts.Keys == {""} && p.sessions == map[] && p.windows == map[] && p.panes == map[]
    ensures TreeDiff(TreeOf(p), NO_TREE) == [RemoveHostOp("")]
  {
    hide MapDiff;
    DiffIsEmpty(PANES, p.panes, map[]);
    DiffIsEmpty(WINDOWS, p.windows, map[]);
    DiffIsEmpty(SESSIONS, p.sessions, map[]);
    MapDiffParts(p.hosts, map[], RemoveHostOp, UpsertHostOp);
    var none: map<Text, Host> := map[];
    assert Removed(p.hosts, none) == {""} && Upserted(p.hosts, none) == {};
    var removed := InKeyOrder(Removed(p.hosts, none));
    assert |removed| == 1 && removed[0] == "";
    assert MapDiff(p.hosts, none, RemoveHostOp, UpsertHostOp) == [RemoveHostOp("")];
  }

  /** ReplaceHosts: snapshot, difference, commit. */
  method ReplaceHosts(c: Coordinator, hosts: seq<HostSnapshot>)
    returns (result: Result<Result<CommitResult, CommitError>, ProjectorError>)
    requires c.Valid()
    modifies c
    ensures c.Valid()
    ensures old(c.stopped) ==> result == Ok(Err(CoordinatorClosed)) && c.View() == old(c.View())
    ensures !old(c.stopped) && !HostsHaveIds(hosts) ==> result == Err(HostIdRequired) && c.View() == old(c.View())
    ensures !old(c.stopped) && HostsHaveIds(hosts) ==>
      && result.Ok?
      && (c.View(), result.value)
         == CommitStep(old(c.View()), TreeDiff(TreeOf(old(c.View()).projection), TreeFrom(hosts)))
  {
    hide TreeDiff, CommitStep;
    var current := c.Snapshot();
    if current.None? {
      return Ok(Err(CoordinatorClosed));
    }
    var operations := ReconcileHosts(current.value.state, hosts);
    if operations.Err? {
      return Err(operations.error);
    }
    var committed := c.Commit(operations.value);
    return Ok(committed);
  }
}
