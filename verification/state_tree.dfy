/** The host tree that a list of discovery snapshots projects to: every entry is stored under its own key and below
    a parent that is there. */
module StateTree {
  import opened GoText
  import opened Wrappers
  import opened StateKeys
  import opened StateProjection
  import opened StateProjector

  /** Entries are stored under their own, non-blank keys. */
  ghost predicate WellKeyed(t: Tree) {
    && (forall k :: k in t.hosts ==> t.hosts[k].key == k && !Blank(k))
    && (forall k :: k in t.sessions ==> t.sessions[k].key == k && !Blank(k))
    && (forall k :: k in t.windows ==> t.windows[k].key == k && !Blank(k))
    && (forall k :: k in t.panes ==> t.panes[k].key == k && !Blank(k))
  }

  ghost predicate NoOrphans(t: Tree) {
    && (forall k :: k in t.sessions ==> t.sessions[k].hostKey in t.hosts)
    && (forall k :: k in t.windows ==> t.windows[k].sessionKey in t.sessions)
    && (forall k :: k in t.panes ==> t.panes[k].windowKey in t.windows)
  }

  ghost predicate Sound(t: Tree) {
    WellKeyed(t) && NoOrphans(t)
  }

  lemma AddPaneSound(t: Tree, h: Text, s: Text, w: Text, pane: TmuxPane)
    requires Sound(t) && WindowKey(h, s, w) in t.windows
    ensures var v := PaneOf(h, s, w, pane); Sound(t.(panes := t.panes[v.key := v]))
  {
    hide Blank, PaneKey, WindowKey;
    BuiltKeysAreNotBlank(h, s, w, pane.id);
  }

  lemma AddWindowSound(t: Tree, h: Text, s: Text, window: TmuxWindow)
    requires Sound(t) && SessionKey(h, s) in t.sessions
    ensures var v := WindowOf(h, s, window);
      v.key == WindowKey(h, s, window.id) && Sound(t.(windows := t.windows[v.key := v]))
  {
    hide Blank, WindowKey, SessionKey;
    BuiltKeysAreNotBlank(h, s, window.id, "");
  }

  lemma AddSessionSound(t: Tree, h: Text, session: TmuxSession)
    requires Sound(t) && HostKey(h) in t.hosts
    ensures var v := SessionOf(h, session);
      v.key == SessionKey(h, session.name) && Sound(t.(sessions := t.sessions[v.key := v]))
  {
    hide Blank, SessionKey, HostKey;
    BuiltKeysAreNotBlank(h, session.name, "", "");
  }

  lemma {:induction false} AddPanesSound(t: Tree, h: Text, s: Text, w: Text, panes: seq<Option<TmuxPane>>)
    requires Sound(t) && WindowKey(h, s, w) in t.windows
    ensures var r := AddPanes(t, h, s, w, panes);
      Sound(r) && r.hosts == t.hosts && r.sessions == t.sessions && r.windows == t.windows
  {
    hide Sound, WindowKey, PaneOf;
    if panes != [] {
      var n := |panes| - 1;
      AddPanesSound(t, h, s, w, panes[..n]);
      if KeptPane(panes[n]) { AddPaneSound(AddPanes(t, h, s, w, panes[..n]), h, s, w, panes[n].value); }
    }
  }

  lemma {:induction false} AddWindowsSound(t: Tree, h: Text, s: Text, windows: seq<Option<TmuxWindow>>)
    requires Sound(t) && SessionKey(h, s) in t.sessions
    ensures var r := AddWindows(t, h, s, windows);
      Sound(r) && r.hosts == t.hosts && r.sessions == t.sessions
  {
    hide Sound, WindowKey, SessionKey, WindowOf, AddPanes;
    if windows != [] {
      var n := |windows| - 1;
      AddWindowsSound(t, h, s, windows[..n]);
      if KeptWindow(windows[n]) {
        var w, before := windows[n].value, AddWindows(t, h, s, windows[..n]);
        AddWindowSound(before, h, s, w);
        var v := WindowOf(h, s, w);
        AddPanesSound(before.(windows := before.windows[v.key := v]), h, s, w.id, w.panes);
      }
    }
  }

  lemma {:induction false} AddSessionsSound(t: Tree, h: Text, sessions: seq<Option<TmuxSession>>)
    requires Sound(t) && HostKey(h) in t.hosts
    ensures var r := AddSessions(t, h, sessions); Sound(r) && r.hosts == t.hosts
  {
    hide Sound, SessionKey, HostKey, SessionOf, AddWindows;
    if sessions != [] {
      var n := |sessions| - 1;
      AddSessionsSound(t, h, sessions[..n]);
      if KeptSession(sessions[n]) {
        var s, before := sessions[n].value, AddSessions(t, h, sessions[..n]);
        AddSessionSound(before, h, s);
        var v := SessionOf(h, s);
        AddWindowsSound(before.(sessions := before.sessions[v.key := v]), h, s.name, s.windows);
      }
    }
  }

  lemma AddHostSound(t: Tree, host: HostSnapshot)
    requires Sound(t)
    ensures Sound(t.(hosts := t.hosts[HostKey(host.id) := HostOf(host)]))
  {
    hide Blank, HostKey;
    BuiltKeysAreNotBlank(host.id, "", "", "");
  }

  lemma EmptyTreeIsSound()
    ensures Sound(NO_TREE)
  {
  }

  /** Whatever discovery reports, the projected tree has no orphan session, window or pane. */
  lemma {:induction false} ProjectedTreeIsSound(hosts: seq<HostSnapshot>)
    ensures Sound(TreeFrom(hosts))
  {
    hide Sound, AddSessions, HostKey;
    if hosts != [] {
      var n := |hosts| - 1;
      ProjectedTreeIsSound(hosts[..n]);
      var before := TreeFrom(hosts[..n]);
      AddHostSound(before, hosts[n]);
      AddSessionsSound(before.(hosts := before.hosts[HostKey(hosts[n].id) := HostOf(hosts[n])]),
                       hosts[n].id, hosts[n].sessions);
    } else {
      EmptyTreeIsSound();
    }
  }
}
