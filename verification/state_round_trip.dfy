/** Projecting discovery results into flat maps and viewing them again gives back the reported tree. */
module StateRoundTrip {
  import opened GoText
  import opened Wrappers
  import opened StateKeys
  import opened StateProjection
  import opened StateProjector
  import opened StateCoordinator
  import opened StateTree
  import opened StateDiff
  import opened StateViews

  // ---------- What was reported, as sets of records ----------

  /** Absent entries, panes and windows without an ID and sessions without a name do not count as reported. */
  predicate PaneAt(panes: seq<Option<TmuxPane>>, m: int) {
    0 <= m < |panes| && panes[m].Some? && panes[m].value.id != ""
  }

  predicate WindowAt(windows: seq<Option<TmuxWindow>>, l: int) {
    0 <= l < |windows| && windows[l].Some? && windows[l].value.id != ""
  }

  predicate SessionAt(sessions: seq<Option<TmuxSession>>, j: int) {
    0 <= j < |sessions| && sessions[j].Some? && sessions[j].value.name != ""
  }

  ghost function PanesIn(h: Text, s: Text, w: Text, panes: seq<Option<TmuxPane>>): set<Pane> {
    set m | 0 <= m < |panes| && PaneAt(panes, m) :: PaneOf(h, s, w, panes[m].value)
  }

  ghost function PanesInWindows(h: Text, s: Text, windows: seq<Option<TmuxWindow>>): set<Pane> {
    set l, pane | 0 <= l < |windows| && WindowAt(windows, l) && pane in PanesIn(h, s, windows[l].value.id, windows[l].value.panes)
      :: pane
  }

  ghost function PanesInSessions(h: Text, sessions: seq<Option<TmuxSession>>): set<Pane> {
    set j, pane | 0 <= j < |sessions| && SessionAt(sessions, j) && pane in PanesInWindows(h, sessions[j].value.name, sessions[j].value.windows)
      :: pane
  }

  ghost function ReportedPanes(hosts: seq<HostSnapshot>): set<Pane> {
    set i, pane | 0 <= i < |hosts| && pane in PanesInSessions(hosts[i].id, hosts[i].sessions) :: pane
  }

  ghost function WindowsIn(h: Text, s: Text, windows: seq<Option<TmuxWindow>>): set<Window> {
    set l | 0 <= l < |windows| && WindowAt(windows, l) :: WindowOf(h, s, windows[l].value)
  }

  ghost function WindowsInSessions(h: Text, sessions: seq<Option<TmuxSession>>): set<Window> {
    set j, window | 0 <= j < |sessions| && SessionAt(sessions, j) && window in WindowsIn(h, sessions[j].value.name, sessions[j].value.windows)
      :: window
  }

  ghost function ReportedWindows(hosts: seq<HostSnapshot>): set<Window> {
    set i, window | 0 <= i < |hosts| && window in WindowsInSessions(hosts[i].id, hosts[i].sessions) :: window
  }

  ghost function SessionsIn(h: Text, sessions: seq<Option<TmuxSession>>): set<Session> {
    set j | 0 <= j < |sessions| && SessionAt(sessions, j) :: SessionOf(h, sessions[j].value)
  }

  ghost function ReportedSessions(hosts: seq<HostSnapshot>): set<Session> {
    set i, session | 0 <= i < |hosts| && session in SessionsIn(hosts[i].id, hosts[i].sessions) :: session
  }

  ghost function ReportedHosts(hosts: seq<HostSnapshot>): set<Host> {
    set i | 0 <= i < |hosts| :: HostOf(hosts[i])
  }

  // ---------- Maps that index a set of records ----------

  ghost predicate Indexes<V>(m: map<Text, V>, s: set<V>, key: V -> Text) {
    && (forall k :: k in m ==> key(m[k]) == k && m[k] in s)
    && (forall v :: v in s ==> key(v) in m && m[key(v)] == v)
  }

  ghost predicate UniqueKeys<V>(s: set<V>, key: V -> Text) {
    forall v, w :: v in s && w in s && key(v) == key(w) ==> v == w
  }

  lemma IndexOneMore<V>(m: map<Text, V>, s: set<V>, key: V -> Text, v: V, all: set<V>)
    requires Indexes(m, s, key) && s <= all && v in all && UniqueKeys(all, key)
    ensures Indexes(m[key(v) := v], s + {v}, key)
  {
  }

  const HostKeyOf := (v: Host) => v.key
  const SessionKeyOf := (v: Session) => v.key
  const WindowKeyOf := (v: Window) => v.key
  const PaneKeyOf := (v: Pane) => v.key

  /** No two reported nodes of one kind share a key, unless they are the same in everything that is kept. */
  ghost predicate Consistent(hosts: seq<HostSnapshot>) {
    && UniqueKeys(ReportedHosts(hosts), HostKeyOf)
    && UniqueKeys(ReportedSessions(hosts), SessionKeyOf)
    && UniqueKeys(ReportedWindows(hosts), WindowKeyOf)
    && UniqueKeys(ReportedPanes(hosts), PaneKeyOf)
  }

  // ---------- The projected maps index the reported records ----------

  lemma {:induction false} AddPanesIndexes(t: Tree, h: Text, s: Text, w: Text, panes: seq<Option<TmuxPane>>,
                                           before: set<Pane>, all: set<Pane>)
    requires Indexes(t.panes, before, PaneKeyOf) && UniqueKeys(all, PaneKeyOf)
    requires before + PanesIn(h, s, w, panes) <= all
    ensures Indexes(AddPanes(t, h, s, w, panes).panes, before + PanesIn(h, s, w, panes), PaneKeyOf)
  {
    hide Indexes, PaneKey, WindowKey;
    if panes == [] {
      assert before + PanesIn(h, s, w, panes) == before;
    } else {
      var n := |panes| - 1;
      PanesInGrows(h, s, w, panes);
      AddPanesIndexes(t, h, s, w, panes[..n], before, all);
      if KeptPane(panes[n]) {
        var pane := PaneOf(h, s, w, panes[n].value);
        IndexOneMore(AddPanes(t, h, s, w, panes[..n]).panes, before + PanesIn(h, s, w, panes[..n]), PaneKeyOf, pane, all);
        assert before + PanesIn(h, s, w, panes) == before + PanesIn(h, s, w, panes[..n]) + {pane};
      } else {
        assert PanesIn(h, s, w, panes) == PanesIn(h, s, w, panes[..n]);
      }
    }
  }

  lemma PanesInGrows(h: Text, s: Text, w: Text, panes: seq<Option<TmuxPane>>)
    requires panes != []
    ensures var n := |panes| - 1;
      PanesIn(h, s, w, panes)
      == PanesIn(h, s, w, panes[..n]) + (if KeptPane(panes[n]) then {PaneOf(h, s, w, panes[n].value)} else {})
  {
    hide PaneOf;
    var n := |panes| - 1;
    forall m | 0 <= m < n ensures PaneAt(panes, m) <==> PaneAt(panes[..n], m) {}
    assert PaneAt(panes, n) <==> KeptPane(panes[n]);
  }

  lemma {:induction false} AddPanesKeepsRest(t: Tree, h: Text, s: Text, w: Text, panes: seq<Option<TmuxPane>>)
    ensures var r := AddPanes(t, h, s, w, panes); r.hosts == t.hosts && r.sessions == t.sessions && r.windows == t.windows
  {
    if panes != [] { AddPanesKeepsRest(t, h, s, w, panes[..|panes| - 1]); }
  }

  lemma WindowsInGrow(h: Text, s: Text, windows: seq<Option<TmuxWindow>>)
    requires windows != []
    ensures var n := |windows| - 1;
      && WindowsIn(h, s, windows)
         == WindowsIn(h, s, windows[..n]) + (if KeptWindow(windows[n]) then {WindowOf(h, s, windows[n].value)} else {})
      && PanesInWindows(h, s, windows)
         == PanesInWindows(h, s, windows[..n])
            + (if KeptWindow(windows[n]) then PanesIn(h, s, windows[n].value.id, windows[n].value.panes) else {})
  {
    hide WindowOf, PanesIn;
    var n := |windows| - 1;
    forall l | 0 <= l < n ensures WindowAt(windows, l) <==> WindowAt(windows[..n], l) {}
    assert WindowAt(windows, n) <==> KeptWindow(windows[n]);
  }

  lemma {:induction false} AddWindowsIndexes(t: Tree, h: Text, s: Text, windows: seq<Option<TmuxWindow>>,
                                             windowsBefore: set<Window>, allWindows: set<Window>,
                                             panesBefore: set<Pane>, allPanes: set<Pane>)
    requires Indexes(t.windows, windowsBefore, WindowKeyOf) && UniqueKeys(allWindows, WindowKeyOf)
    requires Indexes(t.panes, panesBefore, PaneKeyOf) && UniqueKeys(allPanes, PaneKeyOf)
    requires windowsBefore + WindowsIn(h, s, windows) <= allWindows
    requires panesBefore + PanesInWindows(h, s, windows) <= allPanes
    ensures var r := AddWindows(t, h, s, windows);
      && Indexes(r.windows, windowsBefore + WindowsIn(h, s, windows), WindowKeyOf)
      && Indexes(r.panes, panesBefore + PanesInWindows(h, s, windows), PaneKeyOf)
      && r.hosts == t.hosts && r.sessions == t.sessions
  {
    hide Indexes, PanesIn, WindowKey, AddPanes, UniqueKeys;
    if windows == [] {
      assert windowsBefore + WindowsIn(h, s, windows) == windowsBefore;
      assert panesBefore + PanesInWindows(h, s, windows) == panesBefore;
    } else {
      var n := |windows| - 1;
      var rest := windows[..n];
      WindowsInGrow(h, s, windows);
      AddWindowsIndexes(t, h, s, rest, windowsBefore, allWindows, panesBefore, allPanes);
      var before := AddWindows(t, h, s, rest);
      var ws, ps := windowsBefore + WindowsIn(h, s, rest), panesBefore + PanesInWindows(h, s, rest);
      if KeptWindow(windows[n]) {
        var w := windows[n].value;
        var window := WindowOf(h, s, w);
        IndexOneMore(before.windows, ws, WindowKeyOf, window, allWindows);
        assert windowsBefore + WindowsIn(h, s, windows) == ws + {window};
        var t' := before.(windows := before.windows[window.key := window]);
        AddPanesIndexes(t', h, s, w.id, w.panes, ps, allPanes);
        AddPanesKeepsRest(t', h, s, w.id, w.panes);
        assert panesBefore + PanesInWindows(h, s, windows) == ps + PanesIn(h, s, w.id, w.panes);
      } else {
        assert WindowsIn(h, s, windows) == WindowsIn(h, s, rest);
        assert PanesInWindows(h, s, windows) == PanesInWindows(h, s, rest);
      }
    }
  }

  lemma SessionsInGrow(h: Text, sessions: seq<Option<TmuxSession>>)
    requires sessions != []
    ensures var n := |sessions| - 1;
      && SessionsIn(h, sessions)
         == SessionsIn(h, sessions[..n]) + (if KeptSession(sessions[n]) then {SessionOf(h, sessions[n].value)} else {})
      && WindowsInSessions(h, sessions)
         == WindowsInSessions(h, sessions[..n])
            + (if KeptSession(sessions[n]) then WindowsIn(h, sessions[n].value.name, sessions[n].value.windows) else {})
      && PanesInSessions(h, sessions)
         == PanesInSessions(h, sessions[..n])
            + (if KeptSession(sessions[n]) then PanesInWindows(h, sessions[n].value.name, sessions[n].value.windows) else {})
  {
    hide SessionOf, WindowsIn, PanesInWindows;
    var n := |sessions| - 1;
    forall j | 0 <= j < n ensures SessionAt(sessions, j) <==> SessionAt(sessions[..n], j) {}
    assert SessionAt(sessions, n) <==> KeptSession(sessions[n]);
  }

  lemma {:induction false} AddSessionsIndexes(t: Tree, h: Text, sessions: seq<Option<TmuxSession>>,
                                              sessionsBefore: set<Session>, allSessions: set<Session>,
                                              windowsBefore: set<Window>, allWindows: set<Window>,
                                              panesBefore: set<Pane>, allPanes: set<Pane>)
    requires Indexes(t.sessions, sessionsBefore, SessionKeyOf) && UniqueKeys(allSessions, SessionKeyOf)
    requires Indexes(t.windows, windowsBefore, WindowKeyOf) && UniqueKeys(allWindows, WindowKeyOf)
    requires Indexes(t.panes, panesBefore, PaneKeyOf) && UniqueKeys(allPanes, PaneKeyOf)
    requires sessionsBefore + SessionsIn(h, sessions) <= allSessions
    requires windowsBefore + WindowsInSessions(h, sessions) <= allWindows
    requires panesBefore + PanesInSessions(h, sessions) <= allPanes
    ensures var r := AddSessions(t, h, sessions);
      && Indexes(r.sessions, sessionsBefore + SessionsIn(h, sessions), SessionKeyOf)
      && Indexes(r.windows, windowsBefore + WindowsInSessions(h, sessions), WindowKeyOf)
      && Indexes(r.panes, panesBefore + PanesInSessions(h, sessions), PaneKeyOf)
      && r.hosts == t.hosts
  {
    hide Indexes, WindowsIn, PanesInWindows, SessionKey, AddWindows, UniqueKeys;
    if sessions == [] {
      assert sessionsBefore + SessionsIn(h, sessions) == sessionsBefore;
      assert windowsBefore + WindowsInSessions(h, sessions) == windowsBefore;
      assert panesBefore + PanesInSessions(h, sessions) == panesBefore;
    } else {
      var n := |sessions| - 1;
      var rest := sessions[..n];
      SessionsInGrow(h, sessions);
      AddSessionsIndexes(t, h, rest, sessionsBefore, allSessions, windowsBefore, allWindows, panesBefore, allPanes);
      var before := AddSessions(t, h, rest);
      var ss, ws, ps := sessionsBefore + SessionsIn(h, rest), windowsBefore + WindowsInSessions(h, rest),
                        panesBefore + PanesInSessions(h, rest);
      if KeptSession(sessions[n]) {
        var s := sessions[n].value;
        var session := SessionOf(h, s);
        IndexOneMore(before.sessions, ss, SessionKeyOf, session, allSessions);
        assert sessionsBefore + SessionsIn(h, sessions) == ss + {session};
        var t' := before.(sessions := before.sessions[session.key := session]);
        AddWindowsIndexes(t', h, s.name, s.windows, ws, allWindows, ps, allPanes);
        assert windowsBefore + WindowsInSessions(h, sessions) == ws + WindowsIn(h, s.name, s.windows);
        assert panesBefore + PanesInSessions(h, sessions) == ps + PanesInWindows(h, s.name, s.windows);
      } else {
        assert SessionsIn(h, sessions) == SessionsIn(h, rest);
        assert WindowsInSessions(h, sessions) == WindowsInSessions(h, rest);
        assert PanesInSessions(h, sessions) == PanesInSessions(h, rest);
      }
    }
  }

  lemma ReportGrows(hosts: seq<HostSnapshot>)
    requires hosts != []
    ensures var n := |hosts| - 1;
      && ReportedHosts(hosts) == ReportedHosts(hosts[..n]) + {HostOf(hosts[n])}
      && ReportedSessions(hosts) == ReportedSessions(hosts[..n]) + SessionsIn(hosts[n].id, hosts[n].sessions)
      && ReportedWindows(hosts) == ReportedWindows(hosts[..n]) + WindowsInSessions(hosts[n].id, hosts[n].sessions)
      && ReportedPanes(hosts) == ReportedPanes(hosts[..n]) + PanesInSessions(hosts[n].id, hosts[n].sessions)
  {
    hide HostOf, SessionsIn, WindowsInSessions, PanesInSessions;
  }

  /** The projected maps hold exactly the reported records, each under its own key. */
  ghost predicate TreeIndexes(t: Tree, hosts: seq<HostSnapshot>) {
    && Indexes(t.hosts, ReportedHosts(hosts), HostKeyOf)
    && Indexes(t.sessions, ReportedSessions(hosts), SessionKeyOf)
    && Indexes(t.windows, ReportedWindows(hosts), WindowKeyOf)
    && Indexes(t.panes, ReportedPanes(hosts), PaneKeyOf)
  }

  lemma {:induction false} TreeFromIndexes(hosts: seq<HostSnapshot>)
    requires Consistent(hosts)
    ensures TreeIndexes(TreeFrom(hosts), hosts)
  {
    if hosts != [] {
      hide Indexes, HostOf, HostKey, SessionsIn, WindowsInSessions, PanesInSessions, AddSessions, UniqueKeys,
           ReportedHosts, ReportedSessions, ReportedWindows, ReportedPanes;
      var n := |hosts| - 1;
      var rest, h := hosts[..n], hosts[n];
      ReportGrows(hosts);
      FewerKeysAreUnique(ReportedHosts(rest), ReportedHosts(hosts), HostKeyOf);
      FewerKeysAreUnique(ReportedSessions(rest), ReportedSessions(hosts), SessionKeyOf);
      FewerKeysAreUnique(ReportedWindows(rest), ReportedWindows(hosts), WindowKeyOf);
      FewerKeysAreUnique(ReportedPanes(rest), ReportedPanes(hosts), PaneKeyOf);
      TreeFromIndexes(rest);
      var before := TreeFrom(rest);
      IndexOneMore(before.hosts, ReportedHosts(rest), HostKeyOf, HostOf(h), ReportedHosts(hosts));
      HostOfKey(h);
      AddSessionsIndexes(before.(hosts := before.hosts[HostKey(h.id) := HostOf(h)]), h.id, h.sessions,
                         ReportedSessions(rest), ReportedSessions(hosts), ReportedWindows(rest), ReportedWindows(hosts),
                         ReportedPanes(rest), ReportedPanes(hosts));
    }
  }

  lemma HostOfKey(h: HostSnapshot)
    ensures HostKeyOf(HostOf(h)) == HostKey(h.id)
  {
  }

  lemma FewerKeysAreUnique<V>(some: set<V>, all: set<V>, key: V -> Text)
    requires UniqueKeys(all, key) && some <= all
    ensures UniqueKeys(some, key)
  {
  }

  // ---------- What a viewer should see ----------

  ghost function WithRank<V>(s: set<V>, rank: V -> Rank, r: Rank): V
    requires exists v :: v in s && rank(v) == r
  {
    var v :| v in s && rank(v) == r;
    v
  }

  ghost function RanksOf<V>(s: set<V>, rank: V -> Rank): set<Rank> {
    set v | v in s :: rank(v)
  }

  /** The records of a set, in the order of their ranks. */
  ghost function Arrange<V>(s: set<V>, rank: V -> Rank): (r: seq<V>)
    ensures forall i :: 0 <= i < |r| ==> r[i] in s
  {
    var taken := RanksOf(s, rank);
    var ranks := InRankOrder(taken);
    RanksAreListed(taken);
    seq(|ranks|, i requires 0 <= i < |ranks| => WithRank(s, rank, ranks[i]))
  }

  /** Records with different ranks are each listed exactly once, by ascending rank. */
  lemma ArrangedOnce<V(!new)>(s: set<V>, rank: V -> Rank)
    requires forall v, w :: v in s && w in s && rank(v) == rank(w) ==> v == w
    ensures var r := Arrange(s, rank);
      && Elements(r) == s
      && (forall i, j :: 0 <= i < j < |r| ==> r[i] != r[j] && Before(rank(r[i]), rank(r[j])))
  {
    var taken := RanksOf(s, rank);
    var ranks, r := InRankOrder(taken), Arrange(s, rank);
    RanksAreListed(taken);
    BeforeIsTotal();
    assert IsListing(ranks, taken, Before);
    forall v | v in s ensures v in r {
      assert rank(v) in taken;
      assert rank(v) in Elements(ranks);
      var i :| 0 <= i < |ranks| && ranks[i] == rank(v);
      assert r[i] == v;
    }
  }

  const RankOfPane := (v: Pane) => Rank(v.index, v.key)
  const RankOfWindow := (v: Window) => Rank(v.index, v.key)
  const RankOfSession := (v: Session) => Rank(0, v.key)

  /** The panes listed in a window with this ID, of a session with this name, of a host with this ID. */
  ghost function PanesBelow(hosts: seq<HostSnapshot>, h: Text, s: Text, w: Text): set<Pane> {
    set i, j, l, pane |
      && 0 <= i < |hosts| && hosts[i].id == h
      && 0 <= j < |hosts[i].sessions| && SessionAt(hosts[i].sessions, j) && hosts[i].sessions[j].value.name == s
      && 0 <= l < |hosts[i].sessions[j].value.windows| && WindowAt(hosts[i].sessions[j].value.windows, l)
      && hosts[i].sessions[j].value.windows[l].value.id == w
      && pane in PanesIn(h, s, w, hosts[i].sessions[j].value.windows[l].value.panes)
      :: pane
  }

  ghost function WindowsBelow(hosts: seq<HostSnapshot>, h: Text, s: Text): set<Window> {
    set i, j, window |
      && 0 <= i < |hosts| && hosts[i].id == h
      && 0 <= j < |hosts[i].sessions| && SessionAt(hosts[i].sessions, j) && hosts[i].sessions[j].value.name == s
      && window in WindowsIn(h, s, hosts[i].sessions[j].value.windows)
      :: window
  }

  ghost function ShownPanes(hosts: seq<HostSnapshot>, window: Window, session: Session): seq<PaneView> {
    var panes := Arrange(PanesBelow(hosts, session.hostId, session.name, window.tmuxId), RankOfPane);
    seq(|panes|, i requires 0 <= i < |panes| => ShowPane(panes[i], window, session))
  }

  ghost function ShownWindows(hosts: seq<HostSnapshot>, session: Session): seq<WindowView> {
    var windows := Arrange(WindowsBelow(hosts, session.hostId, session.name), RankOfWindow);
    seq(|windows|, i requires 0 <= i < |windows| =>
      ShowWindow(windows[i], session, ShownPanes(hosts, windows[i], session)))
  }

  ghost function ReportedHost(hosts: seq<HostSnapshot>, h: Text): Option<Host> {
    if exists i :: 0 <= i < |hosts| && hosts[i].id == h then
      var i :| 0 <= i < |hosts| && hosts[i].id == h; Some(HostOf(hosts[i]))
    else None
  }

  ghost function ShownSession(hosts: seq<HostSnapshot>, session: Session): SessionView {
    ShowSession(session, ReportedHost(hosts, session.hostId), ShownWindows(hosts, session))
  }

  /** The reported sessions in key order, each with its own windows and panes. */
  ghost function ShownSessions(hosts: seq<HostSnapshot>): seq<SessionView> {
    var sessions := Arrange(ReportedSessions(hosts), RankOfSession);
    seq(|sessions|, i requires 0 <= i < |sessions| => ShownSession(hosts, sessions[i]))
  }

  // ---------- Children are found under their own parent ----------

  lemma ReportedIsBelow(hosts: seq<HostSnapshot>, h: Text, s: Text, w: Text, v: Pane)
    requires v in ReportedPanes(hosts) && v.windowKey == WindowKey(h, s, w)
    ensures v in PanesBelow(hosts, h, s, w)
  {
    hide WindowKey, PaneKey;
    var i :| 0 <= i < |hosts| && v in PanesInSessions(hosts[i].id, hosts[i].sessions);
    var sessions := hosts[i].sessions;
    var j :| 0 <= j < |sessions| && SessionAt(sessions, j)
             && v in PanesInWindows(hosts[i].id, sessions[j].value.name, sessions[j].value.windows);
    var windows := sessions[j].value.windows;
    var l :| 0 <= l < |windows| && WindowAt(windows, l)
             && v in PanesIn(hosts[i].id, sessions[j].value.name, windows[l].value.id, windows[l].value.panes);
    assert v.windowKey == WindowKey(hosts[i].id, sessions[j].value.name, windows[l].value.id);
    WindowKeyIsInjective(h, s, w, hosts[i].id, sessions[j].value.name, windows[l].value.id);
  }

  lemma BelowIsReported(hosts: seq<HostSnapshot>, h: Text, s: Text, w: Text, v: Pane)
    requires v in PanesBelow(hosts, h, s, w)
    ensures v in ReportedPanes(hosts) && v.windowKey == WindowKey(h, s, w)
  {
    hide WindowKey, PaneKey;
    var i, j, l :|
      && 0 <= i < |hosts| && hosts[i].id == h
      && 0 <= j < |hosts[i].sessions| && SessionAt(hosts[i].sessions, j) && hosts[i].sessions[j].value.name == s
      && 0 <= l < |hosts[i].sessions[j].value.windows| && WindowAt(hosts[i].sessions[j].value.windows, l)
      && hosts[i].sessions[j].value.windows[l].value.id == w
      && v in PanesIn(h, s, w, hosts[i].sessions[j].value.windows[l].value.panes);
    assert v in PanesInWindows(h, s, hosts[i].sessions[j].value.windows);
    assert v in PanesInSessions(h, hosts[i].sessions);
  }

  lemma PanesOfWindow(hosts: seq<HostSnapshot>, h: Text, s: Text, w: Text)
    ensures (set v | v in ReportedPanes(hosts) && v.windowKey == WindowKey(h, s, w)) == PanesBelow(hosts, h, s, w)
  {
    hide ReportedPanes, PanesBelow, WindowKey;
    forall v | v in ReportedPanes(hosts) && v.windowKey == WindowKey(h, s, w) ensures v in PanesBelow(hosts, h, s, w) {
      ReportedIsBelow(hosts, h, s, w, v);
    }
    forall v | v in PanesBelow(hosts, h, s, w) ensures v in ReportedPanes(hosts) && v.windowKey == WindowKey(h, s, w) {
      BelowIsReported(hosts, h, s, w, v);
    }
  }

  lemma WindowsOfSession(hosts: seq<HostSnapshot>, h: Text, s: Text)
    ensures (set v | v in ReportedWindows(hosts) && v.sessionKey == SessionKey(h, s)) == WindowsBelow(hosts, h, s)
  {
    forall v | v in ReportedWindows(hosts) && v.sessionKey == SessionKey(h, s) ensures v in WindowsBelow(hosts, h, s) {
      var i :| 0 <= i < |hosts| && v in WindowsInSessions(hosts[i].id, hosts[i].sessions);
      var sessions := hosts[i].sessions;
      var j :| 0 <= j < |sessions| && SessionAt(sessions, j)
               && v in WindowsIn(hosts[i].id, sessions[j].value.name, sessions[j].value.windows);
      SessionKeyIsInjective(h, s, hosts[i].id, sessions[j].value.name);
    }
    forall v | v in WindowsBelow(hosts, h, s) ensures v in ReportedWindows(hosts) && v.sessionKey == SessionKey(h, s) {
      var i, j :|
        && 0 <= i < |hosts| && hosts[i].id == h
        && 0 <= j < |hosts[i].sessions| && SessionAt(hosts[i].sessions, j) && hosts[i].sessions[j].value.name == s
        && v in WindowsIn(h, s, hosts[i].sessions[j].value.windows);
      assert v in WindowsInSessions(h, hosts[i].sessions);
    }
  }

  // ---------- The round trip ----------

  lemma PanesMatch(p: Projection, hosts: seq<HostSnapshot>, window: Window, session: Session)
    requires Indexes(p.panes, ReportedPanes(hosts), PaneKeyOf)
    requires window.key == WindowKey(session.hostId, session.name, window.tmuxId)
    requires window.key in p.windows && p.windows[window.key] == window
    ensures PaneViews(p, window.key, session) == ShownPanes(hosts, window, session)
  {
    hide WindowKey, PanesBelow, ReportedPanes, InRankOrder, ShowPane;
    PanesOfWindow(hosts, session.hostId, session.name, window.tmuxId);
    var below := PanesBelow(hosts, session.hostId, session.name, window.tmuxId);
    var taken := RanksOf(below, RankOfPane);
    forall k | k in p.panes && p.panes[k].windowKey == window.key ensures Rank(p.panes[k].index, k) in taken {
      assert p.panes[k] in below;
      assert RankOfPane(p.panes[k]) == Rank(p.panes[k].index, k);
    }
    forall v | v in below ensures v.key in p.panes && p.panes[v.key] == v && RankOfPane(v) in PaneRanks(p, window.key) {
      assert PaneKeyOf(v) == v.key;
    }
    assert PaneRanks(p, window.key) == taken;
    var ranks := InRankOrder(taken);
    RanksAreListed(taken);
    forall i | 0 <= i < |ranks| ensures p.panes[ranks[i].key] == WithRank(below, RankOfPane, ranks[i]) {
      var v := WithRank(below, RankOfPane, ranks[i]);
      assert RankOfPane(v).key == v.key;
    }
    var seen, shown := PaneViews(p, window.key, session), ShownPanes(hosts, window, session);
    assert |seen| == |ranks| == |shown|;
    assert forall i :: 0 <= i < |ranks| ==> seen[i] == shown[i];
  }

  lemma WindowsMatch(p: Projection, hosts: seq<HostSnapshot>, session: Session)
    requires Indexes(p.panes, ReportedPanes(hosts), PaneKeyOf)
    requires Indexes(p.windows, ReportedWindows(hosts), WindowKeyOf)
    requires session.key == SessionKey(session.hostId, session.name)
    requires session.key in p.sessions && p.sessions[session.key] == session
    ensures WindowViews(p, session.key) == ShownWindows(hosts, session)
  {
    hide SessionKey, ReportedWindows, ReportedPanes, InRankOrder, ShowWindow, PaneViews, ShownPanes;
    WindowsOfSession(hosts, session.hostId, session.name);
    var below := WindowsBelow(hosts, session.hostId, session.name);
    var taken := RanksOf(below, RankOfWindow);
    forall k | k in p.windows && p.windows[k].sessionKey == session.key ensures Rank(p.windows[k].index, k) in taken {
      assert p.windows[k] in below;
      assert RankOfWindow(p.windows[k]) == Rank(p.windows[k].index, k);
    }
    forall v | v in below
      ensures v.key in p.windows && p.windows[v.key] == v && RankOfWindow(v) in WindowRanks(p, session.key)
    {
      assert WindowKeyOf(v) == v.key;
    }
    assert WindowRanks(p, session.key) == taken;
    var ranks := InRankOrder(taken);
    RanksAreListed(taken);
    forall i | 0 <= i < |ranks|
      ensures var v := WithRank(below, RankOfWindow, ranks[i]);
        && p.windows[ranks[i].key] == v
        && PaneViews(p, ranks[i].key, session) == ShownPanes(hosts, v, session)
    {
      var v := WithRank(below, RankOfWindow, ranks[i]);
      assert RankOfWindow(v).key == v.key;
      BelowHasKey(hosts, session.hostId, session.name, v);
      PanesMatch(p, hosts, v, session);
    }
    var seen, shown := WindowViews(p, session.key), ShownWindows(hosts, session);
    assert |seen| == |ranks| == |shown|;
    assert forall i :: 0 <= i < |ranks| ==> seen[i] == shown[i];
  }

  lemma BelowHasKey(hosts: seq<HostSnapshot>, h: Text, s: Text, v: Window)
    requires v in WindowsBelow(hosts, h, s)
    ensures v.key == WindowKey(h, s, v.tmuxId)
  {
  }

  lemma SessionMatches(p: Projection, hosts: seq<HostSnapshot>, session: Session)
    requires TreeIndexes(TreeOf(p), hosts) && session in ReportedSessions(hosts)
    ensures session.key in p.sessions && p.sessions[session.key] == session
    ensures SessionViewAt(p, session.key) == ShownSession(hosts, session)
  {
    hide SessionKey, HostKey, WindowViews, ShownWindows, ReportedWindows, ReportedPanes;
    assert SessionKeyOf(session) == session.key;
    var i :| 0 <= i < |hosts| && session in SessionsIn(hosts[i].id, hosts[i].sessions);
    assert session.key == SessionKey(session.hostId, session.name) && session.hostKey == HostKey(session.hostId);
    WindowsMatch(p, hosts, session);
    var host := ReportedHost(hosts, session.hostId).value;
    assert host in ReportedHosts(hosts) && HostKeyOf(host) == session.hostKey;
  }

  lemma KeyRanks(keys: set<Text>)
    ensures var ranks := InRankOrder(set k | k in keys :: Rank(0, k));
      |ranks| == |InKeyOrder(keys)| && forall i :: 0 <= i < |ranks| ==> ranks[i] == Rank(0, InKeyOrder(keys)[i])
  {
    hide Less;
    var listed := InKeyOrder(keys);
    var ranks := seq(|listed|, i requires 0 <= i < |listed| => Rank(0, listed[i]));
    var taken := set k | k in keys :: Rank(0, k);
    LessIsTotal();
    assert IsListing(listed, keys, Less);
    BeforeIsTotal();
    forall r | r in taken ensures r in Elements(ranks) {
      assert r.key in Elements(listed);
      var i :| 0 <= i < |listed| && listed[i] == r.key;
      assert ranks[i] == r;
    }
    forall r | r in Elements(ranks) ensures r in taken {
      var i :| 0 <= i < |ranks| && ranks[i] == r;
      assert listed[i] in Elements(listed);
    }
    assert Elements(ranks) == taken;
    InOrderIs(ranks, Before);
  }

  /** Viewing a projection that holds the reported tree shows exactly the reported sessions, windows and panes. */
  lemma RoundTrip(p: Projection, hosts: seq<HostSnapshot>)
    requires TreeIndexes(TreeOf(p), hosts)
    ensures SessionViews(p) == ShownSessions(hosts)
  {
    hide SessionViewAt, ShownSession, ReportedSessions, InRankOrder, InKeyOrder, ReportedWindows, ReportedPanes;
    var reported := ReportedSessions(hosts);
    KeyRanks(p.sessions.Keys);
    var taken := RanksOf(reported, RankOfSession);
    forall k | k in p.sessions.Keys ensures Rank(0, k) in taken {
      assert p.sessions[k] in reported && SessionKeyOf(p.sessions[k]) == k;
      assert RankOfSession(p.sessions[k]) == Rank(0, k);
    }
    forall v | v in reported ensures v.key in p.sessions.Keys {
      assert SessionKeyOf(v) == v.key;
    }
    assert taken == set k | k in p.sessions.Keys :: Rank(0, k);
    var keys, ranks := InKeyOrder(p.sessions.Keys), InRankOrder(taken);
    KeysAreListed(p.sessions.Keys);
    RanksAreListed(taken);
    forall i | 0 <= i < |keys|
      ensures SessionViewAt(p, keys[i]) == ShownSession(hosts, WithRank(reported, RankOfSession, ranks[i]))
    {
      var v := WithRank(reported, RankOfSession, ranks[i]);
      assert RankOfSession(v).key == v.key;
      SessionMatches(p, hosts, v);
    }
    var seen, shown := SessionViews(p), ShownSessions(hosts);
    assert |seen| == |keys| == |shown|;
    assert forall i :: 0 <= i < |keys| ==> seen[i] == shown[i];
  }

  /** Committing a consistent discovery result and viewing the state gives back the reported tree, whatever the state
      was before; only a blank tree key in that state keeps the result from being committed. */
  lemma CommittedTreeIsViewed(h: Hub, hosts: seq<HostSnapshot>)
    requires h.Valid() && !h.stopped && Consistent(hosts)
    ensures var (h', r) := CommitStep(h, TreeDiff(TreeOf(h.projection), TreeFrom(hosts)));
      && (r.Ok? <==> NoBlankKeys(TreeOf(h.projection)))
      && (r.Ok? ==> SessionViews(h'.projection) == ShownSessions(hosts))
  {
    hide TreeDiff, CommitStep, TreeIndexes, SessionViews, ShownSessions, NoBlankKeys, Consistent;
    ReconcileIsExact(h, hosts);
    TreeFromIndexes(hosts);
    var (h', r) := CommitStep(h, TreeDiff(TreeOf(h.projection), TreeFrom(hosts)));
    if r.Ok? { RoundTrip(h'.projection, hosts); }
  }

  // ---------- Distinct reports are consistent ----------

  ghost predicate DistinctPanes(panes: seq<Option<TmuxPane>>) {
    forall m, m' :: PaneAt(panes, m) && PaneAt(panes, m') && panes[m].value.id == panes[m'].value.id ==> m == m'
  }

  ghost predicate DistinctWindows(windows: seq<Option<TmuxWindow>>) {
    && (forall l, l' :: WindowAt(windows, l) && WindowAt(windows, l') && windows[l].value.id == windows[l'].value.id ==> l == l')
    && (forall l :: WindowAt(windows, l) ==> DistinctPanes(windows[l].value.panes))
  }

  ghost predicate DistinctSessions(sessions: seq<Option<TmuxSession>>) {
    && (forall j, j' :: SessionAt(sessions, j) && SessionAt(sessions, j') && sessions[j].value.name == sessions[j'].value.name
          ==> j == j')
    && (forall j :: SessionAt(sessions, j) ==> DistinctWindows(sessions[j].value.windows))
  }

  /** Host IDs are distinct, session names within a host, window IDs within a session, pane IDs within a window. */
  ghost predicate DistinctReport(hosts: seq<HostSnapshot>) {
    && (forall i, i' :: 0 <= i < |hosts| && 0 <= i' < |hosts| && hosts[i].id == hosts[i'].id ==> i == i')
    && (forall i :: 0 <= i < |hosts| ==> DistinctSessions(hosts[i].sessions))
  }

  lemma PanePath(hosts: seq<HostSnapshot>, v: Pane) returns (i: nat, j: nat, l: nat, m: nat)
    requires v in ReportedPanes(hosts)
    ensures i < |hosts| && SessionAt(hosts[i].sessions, j) && WindowAt(hosts[i].sessions[j].value.windows, l)
    ensures var windows := hosts[i].sessions[j].value.windows;
      && PaneAt(windows[l].value.panes, m)
      && v == PaneOf(hosts[i].id, hosts[i].sessions[j].value.name, windows[l].value.id, windows[l].value.panes[m].value)
  {
    i :| 0 <= i < |hosts| && v in PanesInSessions(hosts[i].id, hosts[i].sessions);
    var sessions := hosts[i].sessions;
    j :| 0 <= j < |sessions| && SessionAt(sessions, j)
         && v in PanesInWindows(hosts[i].id, sessions[j].value.name, sessions[j].value.windows);
    var windows := sessions[j].value.windows;
    l :| 0 <= l < |windows| && WindowAt(windows, l)
         && v in PanesIn(hosts[i].id, sessions[j].value.name, windows[l].value.id, windows[l].value.panes);
    m :| 0 <= m < |windows[l].value.panes| && PaneAt(windows[l].value.panes, m)
         && v == PaneOf(hosts[i].id, sessions[j].value.name, windows[l].value.id, windows[l].value.panes[m].value);
  }

  lemma WindowPath(hosts: seq<HostSnapshot>, v: Window) returns (i: nat, j: nat, l: nat)
    requires v in ReportedWindows(hosts)
    ensures i < |hosts| && SessionAt(hosts[i].sessions, j) && WindowAt(hosts[i].sessions[j].value.windows, l)
    ensures v == WindowOf(hosts[i].id, hosts[i].sessions[j].value.name, hosts[i].sessions[j].value.windows[l].value)
  {
    i :| 0 <= i < |hosts| && v in WindowsInSessions(hosts[i].id, hosts[i].sessions);
    var sessions := hosts[i].sessions;
    j :| 0 <= j < |sessions| && SessionAt(sessions, j)
         && v in WindowsIn(hosts[i].id, sessions[j].value.name, sessions[j].value.windows);
    var windows := sessions[j].value.windows;
    l :| 0 <= l < |windows| && WindowAt(windows, l) && v == WindowOf(hosts[i].id, sessions[j].value.name, windows[l].value);
  }

  lemma SessionPath(hosts: seq<HostSnapshot>, v: Session) returns (i: nat, j: nat)
    requires v in ReportedSessions(hosts)
    ensures i < |hosts| && SessionAt(hosts[i].sessions, j) && v == SessionOf(hosts[i].id, hosts[i].sessions[j].value)
  {
    i :| 0 <= i < |hosts| && v in SessionsIn(hosts[i].id, hosts[i].sessions);
    j :| 0 <= j < |hosts[i].sessions| && SessionAt(hosts[i].sessions, j)
         && v == SessionOf(hosts[i].id, hosts[i].sessions[j].value);
  }

  lemma DistinctIsConsistent(hosts: seq<HostSnapshot>)
    requires DistinctReport(hosts)
    ensures Consistent(hosts)
  {
    hide ReportedPanes, ReportedWindows, ReportedSessions, HostKey, SessionKey, WindowKey, PaneKey;
    forall v, w | v in ReportedHosts(hosts) && w in ReportedHosts(hosts) && HostKeyOf(v) == HostKeyOf(w) ensures v == w {
      HostKeyIsInjective(v.id, w.id);
    }
    forall v, w | v in ReportedSessions(hosts) && w in ReportedSessions(hosts) && SessionKeyOf(v) == SessionKeyOf(w)
      ensures v == w
    {
      var i, j := SessionPath(hosts, v);
      var i', j' := SessionPath(hosts, w);
      SessionKeyIsInjective(v.hostId, v.name, w.hostId, w.name);
    }
    forall v, w | v in ReportedWindows(hosts) && w in ReportedWindows(hosts) && WindowKeyOf(v) == WindowKeyOf(w)
      ensures v == w
    {
      var i, j, l := WindowPath(hosts, v);
      var i', j', l' := WindowPath(hosts, w);
      WindowKeyIsInjective(hosts[i].id, hosts[i].sessions[j].value.name, v.tmuxId,
                           hosts[i'].id, hosts[i'].sessions[j'].value.name, w.tmuxId);
    }
    forall v, w | v in ReportedPanes(hosts) && w in ReportedPanes(hosts) && PaneKeyOf(v) == PaneKeyOf(w) ensures v == w {
      var i, j, l, m := PanePath(hosts, v);
      var i', j', l', m' := PanePath(hosts, w);
      PaneKeyIsInjective(
        hosts[i].id, hosts[i].sessions[j].value.name, hosts[i].sessions[j].value.windows[l].value.id, v.tmuxId,
        hosts[i'].id, hosts[i'].sessions[j'].value.name, hosts[i'].sessions[j'].value.windows[l'].value.id, w.tmuxId);
    }
  }
}
