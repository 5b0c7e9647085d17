/** The round trip in the words of the report: every reported session, window and pane is shown exactly once, under the
    right parent, with each of its fields. */
module StateReport {
  import opened GoText
  import opened Wrappers
  import opened StateKeys
  import opened StateProjection
  import opened StateProjector
  import opened StateCoordinator
  import opened StateDiff
  import opened StateViews
  import opened StateRoundTrip

  // ---------- Views that show what was reported, field by field ----------

  predicate ShowsFieldsOfPane(view: PaneView, pane: TmuxPane, window: TmuxWindow, session: TmuxSession) {
    && view.id == pane.id && view.windowId == window.id && view.sessionId == session.id
    && view.index == pane.index && view.active == pane.active && view.width == pane.width && view.height == pane.height
    && view.currentCommand == pane.currentCommand && view.pid == pane.pid
  }

  predicate ShowsFieldsOfWindow(view: WindowView, window: TmuxWindow, session: TmuxSession) {
    && view.id == window.id && view.sessionId == session.id && view.name == window.name
    && view.index == window.index && view.active == window.active && view.layout == window.layout
  }

  predicate ShowsFieldsOfSession(view: SessionView, session: TmuxSession, host: HostSnapshot) {
    && view.id == session.id && view.name == session.name && view.attached == session.attached
    && view.created == session.created && view.lastActivity == session.lastActivity
    && view.host == host.id && view.hostName == host.displayName && view.hostOnline == host.online
  }

  /** Exactly one of the views has the pane's ID, and it shows the pane. */
  ghost predicate ShowsPane(views: seq<PaneView>, pane: TmuxPane, window: TmuxWindow, session: TmuxSession) {
    exists k :: 0 <= k < |views| && ShowsFieldsOfPane(views[k], pane, window, session)
      && forall other :: 0 <= other < |views| && views[other].id == pane.id ==> other == k
  }

  ghost predicate ShowsPanes(views: seq<PaneView>, window: TmuxWindow, session: TmuxSession) {
    forall m :: PaneAt(window.panes, m) ==> ShowsPane(views, window.panes[m].value, window, session)
  }

  ghost predicate ShowsWindow(views: seq<WindowView>, window: TmuxWindow, session: TmuxSession) {
    exists k :: 0 <= k < |views| && ShowsFieldsOfWindow(views[k], window, session) && ShowsPanes(views[k].panes, window, session)
      && forall other :: 0 <= other < |views| && views[other].id == window.id ==> other == k
  }

  ghost predicate ShowsWindows(views: seq<WindowView>, session: TmuxSession) {
    forall l :: WindowAt(session.windows, l) ==> ShowsWindow(views, session.windows[l].value, session)
  }

  ghost predicate ShowsSession(views: seq<SessionView>, session: TmuxSession, host: HostSnapshot) {
    exists k :: 0 <= k < |views| && ShowsFieldsOfSession(views[k], session, host) && ShowsWindows(views[k].windows, session)
      && forall other :: 0 <= other < |views| && views[other].host == host.id && views[other].name == session.name ==> other == k
  }

  /** Every reported session, and with it every window and pane, is shown exactly once. */
  ghost predicate ShowsReport(views: seq<SessionView>, hosts: seq<HostSnapshot>) {
    forall i, j :: 0 <= i < |hosts| && SessionAt(hosts[i].sessions, j) ==>
      ShowsSession(views, hosts[i].sessions[j].value, hosts[i])
  }

  // ---------- Nothing else is shown ----------

  ghost predicate ReportsSession(hosts: seq<HostSnapshot>, h: Text, s: Text) {
    exists i, j :: 0 <= i < |hosts| && SessionAt(hosts[i].sessions, j)
                   && hosts[i].id == h && hosts[i].sessions[j].value.name == s
  }

  ghost predicate ReportsWindow(hosts: seq<HostSnapshot>, h: Text, s: Text, w: Text) {
    exists i, j, l :: 0 <= i < |hosts| && SessionAt(hosts[i].sessions, j)
                      && WindowAt(hosts[i].sessions[j].value.windows, l)
                      && hosts[i].id == h && hosts[i].sessions[j].value.name == s
                      && hosts[i].sessions[j].value.windows[l].value.id == w
  }

  ghost predicate ReportsPane(hosts: seq<HostSnapshot>, h: Text, s: Text, w: Text, p: Text) {
    exists i, j, l, m :: 0 <= i < |hosts| && SessionAt(hosts[i].sessions, j)
                         && WindowAt(hosts[i].sessions[j].value.windows, l)
                         && PaneAt(hosts[i].sessions[j].value.windows[l].value.panes, m)
                         && hosts[i].id == h && hosts[i].sessions[j].value.name == s
                         && hosts[i].sessions[j].value.windows[l].value.id == w
                         && hosts[i].sessions[j].value.windows[l].value.panes[m].value.id == p
  }

  ghost predicate PanesWereReported(views: seq<PaneView>, hosts: seq<HostSnapshot>, h: Text, s: Text, w: Text) {
    forall k :: 0 <= k < |views| ==> ReportsPane(hosts, h, s, w, views[k].id)
  }

  ghost predicate WindowsWereReported(views: seq<WindowView>, hosts: seq<HostSnapshot>, h: Text, s: Text) {
    forall k :: 0 <= k < |views| ==>
      ReportsWindow(hosts, h, s, views[k].id) && PanesWereReported(views[k].panes, hosts, h, s, views[k].id)
  }

  /** Every session, window and pane shown was reported there. */
  ghost predicate ShowsNothingElse(views: seq<SessionView>, hosts: seq<HostSnapshot>) {
    forall k :: 0 <= k < |views| ==>
      && ReportsSession(hosts, views[k].host, views[k].name)
      && WindowsWereReported(views[k].windows, hosts, views[k].host, views[k].name)
  }

  // ---------- Display order ----------

  ghost predicate PanesAreInOrder(views: seq<PaneView>, h: Text, s: Text, w: Text) {
    forall k, l :: 0 <= k < l < |views| ==>
      || views[k].index < views[l].index
      || (views[k].index == views[l].index && Less(PaneKey(h, s, w, views[k].id), PaneKey(h, s, w, views[l].id)))
  }

  ghost predicate WindowsAreInOrder(views: seq<WindowView>, h: Text, s: Text) {
    && (forall k, l :: 0 <= k < l < |views| ==>
          || views[k].index < views[l].index
          || (views[k].index == views[l].index && Less(WindowKey(h, s, views[k].id), WindowKey(h, s, views[l].id))))
    && (forall k :: 0 <= k < |views| ==> PanesAreInOrder(views[k].panes, h, s, views[k].id))
  }

  /** Sessions are shown in the byte order of their keys, windows and panes by index and then in that order. */
  ghost predicate IsInOrder(views: seq<SessionView>) {
    && (forall k, l :: 0 <= k < l < |views| ==>
          Less(SessionKey(views[k].host, views[k].name), SessionKey(views[l].host, views[l].name)))
    && (forall k :: 0 <= k < |views| ==> WindowsAreInOrder(views[k].windows, views[k].host, views[k].name))
  }

  // ---------- Panes ----------

  lemma PaneBelow(hosts: seq<HostSnapshot>, h: Text, s: Text, w: Text, v: Pane)
    requires v in PanesBelow(hosts, h, s, w)
    ensures v in ReportedPanes(hosts) && v.key == PaneKey(h, s, w, v.tmuxId)
    ensures ReportsPane(hosts, h, s, w, v.tmuxId)
  {
    hide PaneKey, WindowKey, ReportedPanes;
    BelowIsReported(hosts, h, s, w, v);
    var i, j, l :|
      && 0 <= i < |hosts| && hosts[i].id == h
      && 0 <= j < |hosts[i].sessions| && SessionAt(hosts[i].sessions, j) && hosts[i].sessions[j].value.name == s
      && 0 <= l < |hosts[i].sessions[j].value.windows| && WindowAt(hosts[i].sessions[j].value.windows, l)
      && hosts[i].sessions[j].value.windows[l].value.id == w
      && v in PanesIn(h, s, w, hosts[i].sessions[j].value.windows[l].value.panes);
    var panes := hosts[i].sessions[j].value.windows[l].value.panes;
    var m :| 0 <= m < |panes| && PaneAt(panes, m) && v == PaneOf(h, s, w, panes[m].value);
    assert panes[m].value.id == v.tmuxId;
  }

  /** Panes of one window with the same rank, or with the same ID, are the same. */
  lemma PanesDiffer(hosts: seq<HostSnapshot>, h: Text, s: Text, w: Text)
    requires Consistent(hosts)
    ensures forall v, u | v in PanesBelow(hosts, h, s, w) && u in PanesBelow(hosts, h, s, w) ::
      RankOfPane(v) == RankOfPane(u) || v.tmuxId == u.tmuxId ==> v == u
  {
    hide PaneKey, PanesBelow, ReportedPanes, ReportedWindows, ReportedSessions, ReportedHosts;
    forall v, u | v in PanesBelow(hosts, h, s, w) && u in PanesBelow(hosts, h, s, w)
                  && (RankOfPane(v) == RankOfPane(u) || v.tmuxId == u.tmuxId)
      ensures v == u
    {
      PaneBelow(hosts, h, s, w, v);
      PaneBelow(hosts, h, s, w, u);
      assert PaneKeyOf(v) == v.key && PaneKeyOf(u) == u.key;
    }
  }

  /** A record of a set with different ranks is at exactly one place of its arrangement. */
  lemma ArrangedAt<V(!new)>(s: set<V>, rank: V -> Rank, v: V) returns (k: nat)
    requires v in s && forall x, y :: x in s && y in s && rank(x) == rank(y) ==> x == y
    ensures k < |Arrange(s, rank)| && Arrange(s, rank)[k] == v
    ensures forall other :: 0 <= other < |Arrange(s, rank)| && Arrange(s, rank)[other] == v ==> other == k
  {
    hide Arrange;
    ArrangedOnce(s, rank);
    assert v in Elements(Arrange(s, rank));
    k :| 0 <= k < |Arrange(s, rank)| && Arrange(s, rank)[k] == v;
  }

  lemma PanesAreShown(hosts: seq<HostSnapshot>, i: nat, j: nat, l: nat)
    requires Consistent(hosts) && i < |hosts| && SessionAt(hosts[i].sessions, j)
    requires WindowAt(hosts[i].sessions[j].value.windows, l)
    ensures var h, s := hosts[i].id, hosts[i].sessions[j].value; var w := s.windows[l].value;
      ShowsPanes(ShownPanes(hosts, WindowOf(h, s.name, w), SessionOf(h, s)), w, s)
  {
    var h, s := hosts[i].id, hosts[i].sessions[j].value;
    var w := s.windows[l].value;
    var below := PanesBelow(hosts, h, s.name, w.id);
    var views := ShownPanes(hosts, WindowOf(h, s.name, w), SessionOf(h, s));
    PanesDiffer(hosts, h, s.name, w.id);
    hide Arrange, PaneKey, WindowKey, SessionKey, HostKey, Consistent;
    forall m | PaneAt(w.panes, m) ensures ShowsPane(views, w.panes[m].value, w, s) {
      var v := PaneOf(h, s.name, w.id, w.panes[m].value);
      assert v in PanesIn(h, s.name, w.id, w.panes);
      assert v in below;
      hide PanesBelow, PanesIn;
      var k := ArrangedAt(below, RankOfPane, v);
      assert ShowsFieldsOfPane(views[k], w.panes[m].value, w, s);
    }
  }

  lemma OnlyPanesAreShown(hosts: seq<HostSnapshot>, window: Window, session: Session)
    requires Consistent(hosts)
    ensures var views := ShownPanes(hosts, window, session);
      && PanesWereReported(views, hosts, session.hostId, session.name, window.tmuxId)
      && PanesAreInOrder(views, session.hostId, session.name, window.tmuxId)
  {
    var h, s, w := session.hostId, session.name, window.tmuxId;
    PanesDiffer(hosts, h, s, w);
    hide Arrange, PanesBelow, Consistent, ReportsPane, PaneKey, Less;
    ArrangedOnce(PanesBelow(hosts, h, s, w), RankOfPane);
    var views, panes := ShownPanes(hosts, window, session), Arrange(PanesBelow(hosts, h, s, w), RankOfPane);
    forall k | 0 <= k < |views|
      ensures ReportsPane(hosts, h, s, w, views[k].id) && panes[k].key == PaneKey(h, s, w, views[k].id)
    {
      PaneBelow(hosts, h, s, w, panes[k]);
    }
    forall k, l | 0 <= k < l < |views|
      ensures panes[k].index < panes[l].index || (panes[k].index == panes[l].index && Less(panes[k].key, panes[l].key))
    {
      assert Before(RankOfPane(panes[k]), RankOfPane(panes[l]));
    }
  }

  // ---------- Windows ----------

  lemma WindowBelow(hosts: seq<HostSnapshot>, h: Text, s: Text, v: Window)
    requires v in WindowsBelow(hosts, h, s)
    ensures v in ReportedWindows(hosts) && v.key == WindowKey(h, s, v.tmuxId)
    ensures ReportsWindow(hosts, h, s, v.tmuxId)
  {
    WindowsOfSession(hosts, h, s);
    hide WindowKey, SessionKey, ReportedWindows;
    BelowHasKey(hosts, h, s, v);
    var i, j :|
      && 0 <= i < |hosts| && hosts[i].id == h
      && 0 <= j < |hosts[i].sessions| && SessionAt(hosts[i].sessions, j) && hosts[i].sessions[j].value.name == s
      && v in WindowsIn(h, s, hosts[i].sessions[j].value.windows);
    var windows := hosts[i].sessions[j].value.windows;
    var l :| 0 <= l < |windows| && WindowAt(windows, l) && v == WindowOf(h, s, windows[l].value);
    assert windows[l].value.id == v.tmuxId;
  }

  /** Windows of one session with the same rank, or with the same ID, are the same. */
  lemma WindowsDiffer(hosts: seq<HostSnapshot>, h: Text, s: Text)
    requires Consistent(hosts)
    ensures forall v, u | v in WindowsBelow(hosts, h, s) && u in WindowsBelow(hosts, h, s) ::
      RankOfWindow(v) == RankOfWindow(u) || v.tmuxId == u.tmuxId ==> v == u
  {
    hide WindowKey, WindowsBelow, ReportedPanes, ReportedWindows, ReportedSessions, ReportedHosts;
    forall v, u | v in WindowsBelow(hosts, h, s) && u in WindowsBelow(hosts, h, s)
                  && (RankOfWindow(v) == RankOfWindow(u) || v.tmuxId == u.tmuxId)
      ensures v == u
    {
      WindowBelow(hosts, h, s, v);
      WindowBelow(hosts, h, s, u);
      assert WindowKeyOf(v) == v.key && WindowKeyOf(u) == u.key;
    }
  }

  lemma WindowsAreShown(hosts: seq<HostSnapshot>, i: nat, j: nat)
    requires Consistent(hosts) && i < |hosts| && SessionAt(hosts[i].sessions, j)
    ensures var h, s := hosts[i].id, hosts[i].sessions[j].value;
      ShowsWindows(ShownWindows(hosts, SessionOf(h, s)), s)
  {
    var h, s := hosts[i].id, hosts[i].sessions[j].value;
    var below := WindowsBelow(hosts, h, s.name);
    var views := ShownWindows(hosts, SessionOf(h, s));
    WindowsDiffer(hosts, h, s.name);
    hide Arrange, WindowKey, SessionKey, HostKey, Consistent, ShowsPanes, ShownPanes;
    forall l | WindowAt(s.windows, l) ensures ShowsWindow(views, s.windows[l].value, s) {
      var v := WindowOf(h, s.name, s.windows[l].value);
      assert v in WindowsIn(h, s.name, s.windows);
      assert v in below;
      hide WindowsBelow, WindowsIn;
      var k := ArrangedAt(below, RankOfWindow, v);
      PanesAreShown(hosts, i, j, l);
      assert ShowsFieldsOfWindow(views[k], s.windows[l].value, s);
    }
  }

  lemma OnlyWindowsAreShown(hosts: seq<HostSnapshot>, session: Session)
    requires Consistent(hosts)
    ensures var views := ShownWindows(hosts, session);
      && WindowsWereReported(views, hosts, session.hostId, session.name)
      && WindowsAreInOrder(views, session.hostId, session.name)
  {
    var h, s := session.hostId, session.name;
    WindowsDiffer(hosts, h, s);
    hide Arrange, WindowsBelow, Consistent, ReportsWindow, PanesWereReported, PanesAreInOrder, ShownPanes, WindowKey, Less;
    ArrangedOnce(WindowsBelow(hosts, h, s), RankOfWindow);
    var views, windows := ShownWindows(hosts, session), Arrange(WindowsBelow(hosts, h, s), RankOfWindow);
    forall k | 0 <= k < |views|
      ensures ReportsWindow(hosts, h, s, views[k].id)
      ensures PanesWereReported(views[k].panes, hosts, h, s, views[k].id)
      ensures PanesAreInOrder(views[k].panes, h, s, views[k].id) && windows[k].key == WindowKey(h, s, views[k].id)
    {
      WindowBelow(hosts, h, s, windows[k]);
      OnlyPanesAreShown(hosts, windows[k], session);
    }
    forall k, l | 0 <= k < l < |views|
      ensures || windows[k].index < windows[l].index
              || (windows[k].index == windows[l].index && Less(windows[k].key, windows[l].key))
    {
      assert Before(RankOfWindow(windows[k]), RankOfWindow(windows[l]));
    }
  }

  // ---------- Sessions ----------

  lemma ReportedSessionIs(hosts: seq<HostSnapshot>, v: Session)
    requires v in ReportedSessions(hosts)
    ensures v.key == SessionKey(v.hostId, v.name) && ReportsSession(hosts, v.hostId, v.name)
  {
    hide SessionKey, HostKey;
    var i, j := SessionPath(hosts, v);
    assert hosts[i].id == v.hostId && hosts[i].sessions[j].value.name == v.name;
  }

  /** Sessions with the same rank, or with the same host and name, are the same. */
  lemma SessionsDiffer(hosts: seq<HostSnapshot>)
    requires Consistent(hosts)
    ensures forall v, u | v in ReportedSessions(hosts) && u in ReportedSessions(hosts) ::
      RankOfSession(v) == RankOfSession(u) || (v.hostId == u.hostId && v.name == u.name) ==> v == u
  {
    hide SessionKey, ReportedPanes, ReportedWindows, ReportedSessions, ReportedHosts;
    forall v, u | v in ReportedSessions(hosts) && u in ReportedSessions(hosts)
                  && (RankOfSession(v) == RankOfSession(u) || (v.hostId == u.hostId && v.name == u.name))
      ensures v == u
    {
      ReportedSessionIs(hosts, v);
      ReportedSessionIs(hosts, u);
      assert SessionKeyOf(v) == v.key && SessionKeyOf(u) == u.key;
    }
  }

  /** Entries of the report with the same host ID agree on what is kept of the host. */
  lemma HostIsFound(hosts: seq<HostSnapshot>, i: nat)
    requires Consistent(hosts) && i < |hosts|
    ensures ReportedHost(hosts, hosts[i].id) == Some(HostOf(hosts[i]))
  {
    hide HostKey, ReportedPanes, ReportedWindows, ReportedSessions;
    forall i' | 0 <= i' < |hosts| && hosts[i'].id == hosts[i].id ensures HostOf(hosts[i']) == HostOf(hosts[i]) {
      assert HostOf(hosts[i']) in ReportedHosts(hosts) && HostOf(hosts[i]) in ReportedHosts(hosts);
      HostOfKey(hosts[i']);
      HostOfKey(hosts[i]);
    }
  }

  lemma SessionsAreShown(hosts: seq<HostSnapshot>)
    requires Consistent(hosts)
    ensures ShowsReport(ShownSessions(hosts), hosts)
  {
    var reported, views := ReportedSessions(hosts), ShownSessions(hosts);
    SessionsDiffer(hosts);
    hide Arrange, SessionKey, HostKey, Consistent, ShowsWindows, ShownWindows, ReportedHost;
    forall i, j | 0 <= i < |hosts| && SessionAt(hosts[i].sessions, j)
      ensures ShowsSession(views, hosts[i].sessions[j].value, hosts[i])
    {
      var h, s := hosts[i], hosts[i].sessions[j].value;
      var v := SessionOf(h.id, s);
      assert v in SessionsIn(h.id, h.sessions);
      assert v in reported;
      hide ReportedSessions, SessionsIn;
      var k := ArrangedAt(reported, RankOfSession, v);
      HostIsFound(hosts, i);
      WindowsAreShown(hosts, i, j);
      assert ShowsFieldsOfSession(views[k], s, h);
    }
  }

  lemma OnlySessionsAreShown(hosts: seq<HostSnapshot>)
    requires Consistent(hosts)
    ensures ShowsNothingElse(ShownSessions(hosts), hosts) && IsInOrder(ShownSessions(hosts))
  {
    SessionsDiffer(hosts);
    hide Arrange, ReportedSessions, Consistent, ReportsSession, WindowsWereReported, WindowsAreInOrder, ShownWindows,
         SessionKey, ReportedHost;
    ArrangedOnce(ReportedSessions(hosts), RankOfSession);
    var views, sessions := ShownSessions(hosts), Arrange(ReportedSessions(hosts), RankOfSession);
    forall k | 0 <= k < |views|
      ensures ReportsSession(hosts, views[k].host, views[k].name)
      ensures WindowsWereReported(views[k].windows, hosts, views[k].host, views[k].name)
      ensures WindowsAreInOrder(views[k].windows, views[k].host, views[k].name)
      ensures sessions[k].key == SessionKey(views[k].host, views[k].name)
    {
      ReportedSessionIs(hosts, sessions[k]);
      OnlyWindowsAreShown(hosts, sessions[k]);
    }
    forall k, l | 0 <= k < l < |views|
      ensures Less(SessionKey(views[k].host, views[k].name), SessionKey(views[l].host, views[l].name))
    {
      assert Before(RankOfSession(sessions[k]), RankOfSession(sessions[l]));
    }
  }

  // ---------- The round trip ----------

  /** Committing a consistent report and viewing the state shows every reported session, window and pane exactly once,
      with each of its fields, under its own parent and in display order, and nothing else, whatever the state was
      before; only a blank tree key in that state keeps the report from being committed. */
  lemma CommittedReportIsShown(h: Hub, hosts: seq<HostSnapshot>)
    requires h.Valid() && !h.stopped && Consistent(hosts)
    ensures var (h', r) := CommitStep(h, TreeDiff(TreeOf(h.projection), TreeFrom(hosts)));
      var views := SessionViews(h'.projection);
      && (r.Ok? <==> NoBlankKeys(TreeOf(h.projection)))
      && (r.Ok? ==> ShowsReport(views, hosts) && ShowsNothingElse(views, hosts) && IsInOrder(views))
  {
    hide TreeDiff, CommitStep, SessionViews, ShownSessions, NoBlankKeys, Consistent, ShowsReport, ShowsNothingElse,
         IsInOrder;
    CommittedTreeIsViewed(h, hosts);
    SessionsAreShown(hosts);
    OnlySessionsAreShown(hosts);
  }

  /** Distinct host IDs, session names, window IDs and pane IDs are enough for that. */
  lemma DistinctReportIsShown(h: Hub, hosts: seq<HostSnapshot>)
    requires h.Valid() && !h.stopped && DistinctReport(hosts) && NoBlankKeys(TreeOf(h.projection))
    ensures var (h', r) := CommitStep(h, TreeDiff(TreeOf(h.projection), TreeFrom(hosts)));
      var views := SessionViews(h'.projection);
      r.Ok? && ShowsReport(views, hosts) && ShowsNothingElse(views, hosts) && IsInOrder(views)
  {
    hide TreeDiff, CommitStep, SessionViews, NoBlankKeys, Consistent, DistinctReport, ShowsReport, ShowsNothingElse,
         IsInOrder;
    DistinctIsConsistent(hosts);
    CommittedReportIsShown(h, hosts);
  }

  /** The committed projection holds exactly the reported hosts, with every field. */
  lemma CommittedHostsAreKept(h: Hub, hosts: seq<HostSnapshot>)
    requires h.Valid() && !h.stopped && Consistent(hosts)
    ensures var (h', r) := CommitStep(h, TreeDiff(TreeOf(h.projection), TreeFrom(hosts)));
      r.Ok? ==>
        var kept := h'.projection.hosts;
        && (forall i :: 0 <= i < |hosts| ==>
              var host := hosts[i]; var key := HostKey(host.id);
              key in kept
                && kept[key] == Host(key, host.id, host.displayName, host.online, host.local, host.version, 0))
        && (forall key :: key in kept ==> exists i :: 0 <= i < |hosts| && key == HostKey(hosts[i].id))
  {
    hide TreeDiff, CommitStep, NoBlankKeys, Consistent, HostKey, ReportedSessions, ReportedWindows, ReportedPanes;
    ReconcileIsExact(h, hosts);
    TreeFromIndexes(hosts);
    forall i | 0 <= i < |hosts| ensures HostOf(hosts[i]) in ReportedHosts(hosts) {
      HostOfKey(hosts[i]);
    }
  }

  // ---------- Sessions without a host ----------

  /** In any projection, a session shows the name and the state of the host stored under its host key; without one it
      shows no name and is offline. */
  lemma SessionShowsItsHost(p: Projection, key: Text)
    requires key in p.sessions
    ensures var view, hostKey := SessionViewAt(p, key), p.sessions[key].hostKey;
      if hostKey in p.hosts then
        view.hostName == p.hosts[hostKey].displayName && view.hostOnline == p.hosts[hostKey].online
      else view.hostName == "" && !view.hostOnline
  {
    hide WindowViews;
  }
}
