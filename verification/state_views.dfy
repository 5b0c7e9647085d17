/** The browser's nested view, rebuilt from the flat maps. */
module StateViews {
  import opened GoText
  import opened Wrappers
  import opened Sorting
  import opened StateProjection

  datatype PaneView = PaneView(
    id: Text, windowId: Text, sessionId: Text, index: int, active: bool, width: int, height: int,
    currentCommand: Text, pid: int)

  datatype WindowView = WindowView(
    id: Text, sessionId: Text, name: Text, index: int, active: bool, layout: Text, panes: seq<PaneView>)

  datatype SessionView = SessionView(
    id: Text, name: Text, host: Text, hostName: Text, hostOnline: bool, created: Time, attached: bool,
    lastActivity: Time, windows: seq<WindowView>)

  function ShowPane(pane: Pane, window: Window, session: Session): PaneView {
    PaneView(pane.tmuxId, window.tmuxId, session.tmuxId, pane.index, pane.active, pane.width, pane.height,
             pane.currentCommand, pane.pid)
  }

  function ShowWindow(window: Window, session: Session, panes: seq<PaneView>): WindowView {
    WindowView(window.tmuxId, session.tmuxId, window.name, window.index, window.active, window.layout, panes)
  }

  /** A session whose host is missing shows an empty name and is offline. */
  function ShowSession(session: Session, host: Option<Host>, windows: seq<WindowView>): SessionView {
    SessionView(session.tmuxId, session.name, session.hostId,
                if host.Some? then host.value.displayName else "", host.Some? && host.value.online,
                session.created, session.attached, session.lastActivity, windows)
  }

  // ---------- What is under a parent, in display order ----------

  ghost function PaneRanks(p: Projection, windowKey: Text): set<Rank> {
    set k | k in p.panes && p.panes[k].windowKey == windowKey :: Rank(p.panes[k].index, k)
  }

  ghost function WindowRanks(p: Projection, sessionKey: Text): set<Rank> {
    set k | k in p.windows && p.windows[k].sessionKey == sessionKey :: Rank(p.windows[k].index, k)
  }

  ghost function PaneViews(p: Projection, windowKey: Text, session: Session): (r: seq<PaneView>)
    requires windowKey in p.windows
  {
    var ranks := InRankOrder(PaneRanks(p, windowKey));
    RanksAreListed(PaneRanks(p, windowKey));
    seq(|ranks|, i requires 0 <= i < |ranks| => ShowPane(p.panes[ranks[i].key], p.windows[windowKey], session))
  }

  ghost function WindowViews(p: Projection, sessionKey: Text): seq<WindowView>
    requires sessionKey in p.sessions
  {
    var ranks, session := InRankOrder(WindowRanks(p, sessionKey)), p.sessions[sessionKey];
    RanksAreListed(WindowRanks(p, sessionKey));
    seq(|ranks|, i requires 0 <= i < |ranks| =>
      ShowWindow(p.windows[ranks[i].key], session, PaneViews(p, ranks[i].key, session)))
  }

  ghost function SessionViewAt(p: Projection, key: Text): SessionView
    requires key in p.sessions
  {
    var session := p.sessions[key];
    ShowSession(session, if session.hostKey in p.hosts then Some(p.hosts[session.hostKey]) else None, WindowViews(p, key))
  }

  ghost function SessionViews(p: Projection): seq<SessionView> {
    var keys := InKeyOrder(p.sessions.Keys);
    KeysAreListed(p.sessions.Keys);
    seq(|keys|, i requires 0 <= i < |keys| => SessionViewAt(p, keys[i]))
  }

  lemma RanksAreListed(s: set<Rank>)
    ensures forall i :: 0 <= i < |InRankOrder(s)| ==> InRankOrder(s)[i] in s
  {
    assert forall i :: 0 <= i < |InRankOrder(s)| ==> InRankOrder(s)[i] in Elements(InRankOrder(s));
  }

  lemma KeysAreListed(s: set<Text>)
    ensures forall i :: 0 <= i < |InKeyOrder(s)| ==> InKeyOrder(s)[i] in s
  {
    assert forall i :: 0 <= i < |InKeyOrder(s)| ==> InKeyOrder(s)[i] in Elements(InKeyOrder(s));
  }

  // ---------- The code ----------

  method SortRanks(ranks: seq<Rank>) returns (sorted: seq<Rank>)
    requires Distinct(ranks)
    ensures sorted == InRankOrder(Elements(ranks))
  {
    BeforeIsTotal();
    var a := new Rank[|ranks|](i requires 0 <= i < |ranks| => ranks[i]);
    assert a[..] == ranks;
    InsertionSort(a, Before);
    sorted := a[..];
  }

  method RankPanes(p: Projection, windowKey: Text) returns (sorted: seq<Rank>)
    ensures sorted == InRankOrder(PaneRanks(p, windowKey))
  {
    sorted := [];
    var rest := p.panes.Keys;
    while rest != {}
      invariant rest <= p.panes.Keys && Distinct(sorted)
      invariant forall r :: r in Elements(sorted) <==> r in PaneRanks(p, windowKey) && r.key !in rest
      decreases rest
    {
      var key :| key in rest;
      if p.panes[key].windowKey == windowKey {
        PushDistinct(sorted, Rank(p.panes[key].index, key));
        sorted := sorted + [Rank(p.panes[key].index, key)];
      }
      rest := rest - {key};
    }
    assert Elements(sorted) == PaneRanks(p, windowKey);
    sorted := SortRanks(sorted);
  }

  method RankWindows(p: Projection, sessionKey: Text) returns (sorted: seq<Rank>)
    ensures sorted == InRankOrder(WindowRanks(p, sessionKey))
  {
    sorted := [];
    var rest := p.windows.Keys;
    while rest != {}
      invariant rest <= p.windows.Keys && Distinct(sorted)
      invariant forall r :: r in Elements(sorted) <==> r in WindowRanks(p, sessionKey) && r.key !in rest
      decreases rest
    {
      var key :| key in rest;
      if p.windows[key].sessionKey == sessionKey {
        PushDistinct(sorted, Rank(p.windows[key].index, key));
        sorted := sorted + [Rank(p.windows[key].index, key)];
      }
      rest := rest - {key};
    }
    assert Elements(sorted) == WindowRanks(p, sessionKey);
    sorted := SortRanks(sorted);
  }

  method BuildPanes(p: Projection, windowKey: Text, session: Session) returns (views: seq<PaneView>)
    requires windowKey in p.windows
    ensures views == PaneViews(p, windowKey, session)
  {
    var ranks := RankPanes(p, windowKey);
    RanksAreListed(PaneRanks(p, windowKey));
    views := [];
    for i := 0 to |ranks|
      invariant views == PaneViews(p, windowKey, session)[..i]
    {
      views := views + [ShowPane(p.panes[ranks[i].key], p.windows[windowKey], session)];
    }
  }

  method BuildWindows(p: Projection, sessionKey: Text) returns (views: seq<WindowView>)
    requires sessionKey in p.sessions
    ensures views == WindowViews(p, sessionKey)
  {
    hide PaneViews;
    var ranks := RankWindows(p, sessionKey);
    RanksAreListed(WindowRanks(p, sessionKey));
    views := [];
    for i := 0 to |ranks|
      invariant views == WindowViews(p, sessionKey)[..i]
    {
      var panes := BuildPanes(p, ranks[i].key, p.sessions[sessionKey]);
      views := views + [ShowWindow(p.windows[ranks[i].key], p.sessions[sessionKey], panes)];
    }
  }

  method BuildSession(p: Projection, key: Text) returns (view: SessionView)
    requires key in p.sessions
    ensures view == SessionViewAt(p, key)
  {
    hide WindowViews;
    var session := p.sessions[key];
    var host := if session.hostKey in p.hosts then Some(p.hosts[session.hostKey]) else None;
    var windows := BuildWindows(p, key);
    view := ShowSession(session, host, windows);
  }

  method BuildSessionViews(p: Projection) returns (views: seq<SessionView>)
    ensures views == SessionViews(p)
  {
    hide SessionViewAt;
    var keys := ListKeys(p.sessions.Keys);
    KeysAreListed(p.sessions.Keys);
    views := [];
    for i := 0 to |keys|
      invariant views == SessionViews(p)[..i]
    {
      var view := BuildSession(p, keys[i]);
      views := views + [view];
    }
  }
}
