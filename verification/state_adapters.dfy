/** The adapters that keep activity samples and tool events up to date. */
module StateAdapters {
  import opened GoText
  import opened Wrappers
  import opened StateKeys
  import opened StateProjection
  import opened StateProjector
  import opened StateCoordinator
  import opened StateDiff

  function RemoveActivityOp(key: Text): Operation { Operation(RemoveActivity, key) }
  function UpsertActivityOp(value: Activity): Operation { Operation(UpsertActivity, activity := Some(value)) }
  function RemoveToolEventOp(key: Text): Operation { Operation(RemoveToolEvent, key) }
  function UpsertToolEventOp(value: ToolEvent): Operation { Operation(UpsertToolEvent, toolEvent := Some(value)) }

  const ACTIVITY: Table<Activity> := Table((p: Projection) => p.activity, (p: Projection, m) => p.(activity := m),
                                           RemoveActivityOp, UpsertActivityOp, (v: Activity) => v.key)
  const TOOL_EVENTS: Table<ToolEvent> := Table(
    (p: Projection) => p.toolEvents, (p: Projection, m) => p.(toolEvents := m),
    RemoveToolEventOp, UpsertToolEventOp, (v: ToolEvent) => v.key)

  lemma ActivityIsLawful()
    ensures Lawful(ACTIVITY)
  {
    hide Blank;
    forall p: Projection, key: Text | ACTIVITY.remove(key).Validate().None?
      ensures ApplyOperation(p, ACTIVITY.remove(key)) == ACTIVITY.put(p, ACTIVITY.get(p) - {key})
    {
      assert ACTIVITY.remove(key) == RemoveActivityOp(key);
    }
    forall p: Projection, value: Activity
      ensures ACTIVITY.upsert(value).Validate().None?
      ensures ApplyOperation(p, ACTIVITY.upsert(value)) == ACTIVITY.put(p, ACTIVITY.get(p)[ACTIVITY.key(value) := value])
    {
      assert ACTIVITY.upsert(value) == UpsertActivityOp(value);
    }
  }

  lemma ToolEventsAreLawful()
    ensures Lawful(TOOL_EVENTS)
  {
    hide Blank;
    forall p: Projection, key: Text | TOOL_EVENTS.remove(key).Validate().None?
      ensures ApplyOperation(p, TOOL_EVENTS.remove(key)) == TOOL_EVENTS.put(p, TOOL_EVENTS.get(p) - {key})
    {
      assert TOOL_EVENTS.remove(key) == RemoveToolEventOp(key);
    }
    forall p: Projection, value: ToolEvent
      ensures TOOL_EVENTS.upsert(value).Validate().None?
      ensures ApplyOperation(p, TOOL_EVENTS.upsert(value))
           == TOOL_EVENTS.put(p, TOOL_EVENTS.get(p)[TOOL_EVENTS.key(value) := value])
    {
      assert TOOL_EVENTS.upsert(value) == UpsertToolEventOp(value);
    }
  }

  // ---------- Activity ----------

  /** A sample of a session's activity; an empty host means the local one. */
  datatype Sample = Sample(host: Text, session: Text, data: Json)

  function HostOr(host: Text, local: Text): Text { if host == "" then local else host }

  predicate Usable(s: Option<Sample>, local: Text): (usable: bool)
    ensures usable ==> s.Some?
  {
    s.Some? && HostOr(s.value.host, local) != "" && s.value.session != ""
  }

  function ActivityOf(s: Sample, local: Text): Activity {
    var host := HostOr(s.host, local);
    Activity(ActivityKey(host, s.session), host, s.session, "", "", 0, s.data)
  }

  /** The samples filed by host and session. */
  function ActivityFrom(samples: seq<Option<Sample>>, local: Text): (r: map<Text, Activity>) {
    if samples == [] then map[] else
      var before, last := ActivityFrom(samples[..|samples| - 1], local), samples[|samples| - 1];
      if Usable(last, local) then before[ActivityOf(last.value, local).key := ActivityOf(last.value, local)] else before
  }

  /** The sample counts for this session of this host; without a host of its own it is the local one's. */
  predicate CountsFor(s: Option<Sample>, local: Text, host: Text, session: Text) {
    && host != "" && session != ""
    && s.Some? && s.value.session == session && (s.value.host == host || (s.value.host == "" && local == host))
  }

  ghost predicate IsLatest(samples: seq<Option<Sample>>, local: Text, host: Text, session: Text, i: nat) {
    && i < |samples| && CountsFor(samples[i], local, host, session)
    && forall j :: i < j < |samples| ==> !CountsFor(samples[j], local, host, session)
  }

  /** The record of each session of each host is made of its latest sample. */
  lemma {:induction false} LatestIsKept(samples: seq<Option<Sample>>, local: Text, host: Text, session: Text, i: nat)
    requires IsLatest(samples, local, host, session, i)
    ensures var next, key := ActivityFrom(samples, local), ActivityKey(host, session);
      key in next && next[key] == Activity(key, host, session, "", "", 0, samples[i].value.data)
  {
    hide ActivityKey;
    var n := |samples| - 1;
    if i < n {
      LatestIsKept(samples[..n], local, host, session, i);
      if Usable(samples[n], local) {
        var last := ActivityOf(samples[n].value, local);
        assert !CountsFor(samples[n], local, host, session);
        ActivityKeyIsInjective(last.hostId, last.session, host, session);
      }
    }
  }

  lemma {:induction false} OnlyReportedAreKept(samples: seq<Option<Sample>>, local: Text, key: Text)
    requires key in ActivityFrom(samples, local)
    ensures exists host, session, i: nat :: key == ActivityKey(host, session) && IsLatest(samples, local, host, session, i)
  {
    hide ActivityKey;
    var n := |samples| - 1;
    if Usable(samples[n], local) && ActivityOf(samples[n].value, local).key == key {
      var last := ActivityOf(samples[n].value, local);
      assert IsLatest(samples, local, last.hostId, last.session, n);
    } else {
      OnlyReportedAreKept(samples[..n], local, key);
      var host, session, i: nat :| key == ActivityKey(host, session) && IsLatest(samples[..n], local, host, session, i);
      if CountsFor(samples[n], local, host, session) {
        assert IsLatest(samples, local, host, session, n);
      } else {
        assert IsLatest(samples, local, host, session, i);
      }
    }
  }

  /** The activity map holds, for each session of each host that was reported, exactly the latest of its samples, and
      nothing else. */
  lemma ActivityHoldsLatest(samples: seq<Option<Sample>>, local: Text)
    ensures var next := ActivityFrom(samples, local);
      && (forall host, session, i: nat :: IsLatest(samples, local, host, session, i) ==>
            var key := ActivityKey(host, session);
            key in next && next[key] == Activity(key, host, session, "", "", 0, samples[i].value.data))
      && (forall key :: key in next ==>
            exists host, session, i: nat :: key == ActivityKey(host, session) && IsLatest(samples, local, host, session, i))
  {
    hide ActivityKey, ActivityFrom;
    forall host, session, i: nat | IsLatest(samples, local, host, session, i)
      ensures var key, next := ActivityKey(host, session), ActivityFrom(samples, local);
        key in next && next[key] == Activity(key, host, session, "", "", 0, samples[i].value.data)
    {
      LatestIsKept(samples, local, host, session, i);
    }
    forall key | key in ActivityFrom(samples, local)
      ensures exists host, session, i: nat :: key == ActivityKey(host, session) && IsLatest(samples, local, host, session, i)
    {
      OnlyReportedAreKept(samples, local, key);
    }
  }

  /** Entries are stored under their own keys, none of which is blank. */
  lemma {:induction false} ActivityIsKeyed(samples: seq<Option<Sample>>, local: Text, key: Text)
    ensures var next := ActivityFrom(samples, local);
      key in next ==> next[key].key == key && !Blank(key)
  {
    hide ActivityKey, Blank;
    if samples != [] {
      ActivityIsKeyed(samples[..|samples| - 1], local, key);
      var last := samples[|samples| - 1];
      if Usable(last, local) {
        ActivityKeysAreNotBlank(HostOr(last.value.host, local), last.value.session);
      }
    }
  }

  lemma ActivityKeysAreNotBlank(host: Text, session: Text)
    ensures !Blank(ActivityKey(host, session))
  {
    LetterIsNotBlank(ActivityKey(host, session));
  }

  ghost function ActivityDiff(current: map<Text, Activity>, next: map<Text, Activity>): seq<Operation> {
    MapDiff(current, next, RemoveActivityOp, UpsertActivityOp)
  }

  ghost predicate NoneBlank<V>(m: map<Text, V>) {
    forall key :: key in m ==> !Blank(key)
  }

  ghost predicate OwnKeys(m: map<Text, Activity>) {
    forall key :: key in m ==> m[key].key == key && !Blank(key)
  }

  lemma ActivityDiffApplies(p: Projection, next: map<Text, Activity>)
    requires OwnKeys(next)
    ensures Evaluate(p, ActivityDiff(p.activity, next)).Ok? <==> NoneBlank(p.activity)
    ensures NoneBlank(p.activity) ==> Evaluate(p, ActivityDiff(p.activity, next)) == Ok(p.(activity := next))
  {
    hide Evaluate, Blank, MapDiff, Lawful, Patched, StillFits;
    ActivityIsLawful();
    if NoneBlank(p.activity) {
      DiffApplies(ACTIVITY, p, p.activity, next);
      PatchedIsNext(p.activity, p.activity, next);
      FitsItselfAlone(p.activity, next);
    } else {
      var key :| key in p.activity && Blank(key);
      DiffIsRefused(ACTIVITY, p.activity, next, key);
      EvaluateFails(p, ActivityDiff(p.activity, next));
    }
  }

  lemma ActivityOwnsKeys(samples: seq<Option<Sample>>, local: Text)
    ensures OwnKeys(ActivityFrom(samples, local))
  {
    hide ActivityFrom, Blank;
    var next := ActivityFrom(samples, local);
    forall key | key in next ensures next[key].key == key && !Blank(key) {
      ActivityIsKeyed(samples, local, key);
    }
  }

  /** Replacing the activity installs exactly the latest samples and leaves the other maps alone, and the revision goes
      up exactly if something differs. It works exactly if no current entry is stored under a blank key. */
  lemma ActivityIsReplaced(h: Hub, samples: seq<Option<Sample>>, local: Text)
    requires h.Valid() && !h.stopped
    ensures var current, next := h.projection.activity, ActivityFrom(samples, local);
      var (h', r) := CommitStep(h, ActivityDiff(current, next));
      && (r.Ok? <==> NoneBlank(current))
      && (r.Ok? ==>
            && h'.projection == h.projection.(activity := next)
            && (r.value.changed <==> current != next)
            && h'.revision == h.revision + (if current != next then 1 else 0))
      && (r.Err? ==> h' == h)
  {
    hide Evaluate, CommitStep, ActivityDiff, ActivityFrom, NoneBlank, OwnKeys;
    ActivityOwnsKeys(samples, local);
    ActivityDiffApplies(h.projection, ActivityFrom(samples, local));
    CommitEvaluated(h, ActivityDiff(h.projection.activity, ActivityFrom(samples, local)));
  }

  lemma FitsItselfAlone<V>(m: map<Text, V>, next: map<Text, V>)
    ensures StillFits(m, m, next)
  {
  }

  method ReplaceActivity(c: Coordinator, samples: seq<Option<Sample>>, local: Text)
    returns (result: Result<CommitResult, CommitError>)
    requires c.Valid()
    modifies c
    ensures c.Valid()
    ensures (c.View(), result)
         == CommitStep(old(c.View()), ActivityDiff(old(c.View()).projection.activity, ActivityFrom(samples, local)))
  {
    hide CommitStep, MapDiff;
    var current := c.Snapshot();
    if current.None? {
      StoppedRefuses(c.View(), ActivityDiff(c.View().projection.activity, ActivityFrom(samples, local)));
      return Err(CoordinatorClosed);
    }
    var next: map<Text, Activity> := map[];
    for i := 0 to |samples|
      invariant next == ActivityFrom(samples[..i], local)
      invariant c.Valid() && c.View() == old(c.View())
    {
      assert samples[..i + 1][..i] == samples[..i];
      if samples[i].None? {
        continue;
      }
      var host := if samples[i].value.host == "" then local else samples[i].value.host;
      if host == "" || samples[i].value.session == "" {
        continue;
      }
      var key := ActivityKey(host, samples[i].value.session);
      next := next[key := Activity(key, host, samples[i].value.session, "", "", 0, samples[i].value.data)];
    }
    assert samples[..|samples|] == samples;
    var operations := AppendMapDiff([], current.value.state.activity, next, RemoveActivityOp, UpsertActivityOp);
    assert operations == ActivityDiff(current.value.state.activity, next);
    result := c.Commit(operations);
  }

  lemma StoppedRefuses(h: Hub, operations: seq<Operation>)
    requires h.Valid() && h.stopped
    ensures CommitStep(h, operations) == (h, Err(CoordinatorClosed))
  {
  }

  // ---------- Clearing tool events ----------

  datatype Place = Place(hostId: Text, session: Text, window: int, pane: Text)

  /** Without a session, every event of every host is meant. */
  predicate IsAt(event: ToolEvent, place: Place) {
    place.session == "" || (event.hostId == place.hostId && event.session == place.session
                            && event.window == Itoa(place.window) && event.pane == place.pane)
  }

  function EventsAt(p: Projection, place: Place): set<Text> {
    set key | key in p.toolEvents && IsAt(p.toolEvents[key], place)
  }

  /** The events that clearing leaves: those of another host, session, window or pane, and none at all if no session is
      named. */
  ghost predicate IsElsewhere(event: ToolEvent, place: Place) {
    place.session != "" && (event.hostId != place.hostId || event.session != place.session
                            || event.window != Itoa(place.window) || event.pane != place.pane)
  }

  lemma AtOrElsewhere(event: ToolEvent, place: Place)
    ensures IsAt(event, place) <==> !IsElsewhere(event, place)
  {
    hide Itoa;
  }

  /** Clearing removes exactly the events at the place, in whatever order they are listed. It works exactly if none of
      them is stored under a blank key. */
  lemma ToolEventsAreCleared(h: Hub, place: Place, keys: seq<Text>)
    requires h.Valid() && !h.stopped && Elements(keys) == EventsAt(h.projection, place)
    ensures var (h', r) := CommitStep(h, Listed(keys, RemoveToolEventOp));
      && (r.Ok? <==> forall key :: key in EventsAt(h.projection, place) ==> !Blank(key))
      && (r.Ok? ==>
            && h'.projection == h.projection.(toolEvents := h'.projection.toolEvents)
            && h'.projection.toolEvents ==
               (map key | key in h.projection.toolEvents && IsElsewhere(h.projection.toolEvents[key], place)
                  :: h.projection.toolEvents[key])
            && (r.value.changed <==> EventsAt(h.projection, place) != {}))
      && (r.Err? ==> h' == h)
  {
    hide Evaluate, Blank, CommitStep, Lawful, IsAt, IsElsewhere, ApplyOperation, Itoa;
    var p := h.projection;
    forall key | key in p.toolEvents ensures IsElsewhere(p.toolEvents[key], place) <==> key !in EventsAt(p, place) {
      AtOrElsewhere(p.toolEvents[key], place);
    }
    ToolEventsAreLawful();
    CommitEvaluated(h, Listed(keys, RemoveToolEventOp));
    if forall key :: key in EventsAt(p, place) ==> !Blank(key) {
      forall i | 0 <= i < |keys| ensures !Blank(keys[i]) { assert keys[i] in Elements(keys); }
      RemovesApply(TOOL_EVENTS, p, keys);
      if EventsAt(p, place) == {} {
        assert p.toolEvents - EventsAt(p, place) == p.toolEvents;
      } else {
        var key :| key in EventsAt(p, place);
        assert key !in p.toolEvents - EventsAt(p, place);
      }
    } else {
      var key :| key in EventsAt(p, place) && Blank(key);
      assert key in Elements(keys);
      var i :| 0 <= i < |keys| && keys[i] == key;
      RemoveApplies(TOOL_EVENTS, p, key);
      assert Listed(keys, RemoveToolEventOp)[i] == TOOL_EVENTS.remove(key);
      EvaluateFails(p, Listed(keys, RemoveToolEventOp));
    }
  }

  method ClearToolEvents(c: Coordinator, place: Place)
    returns (result: Result<CommitResult, CommitError>, ghost keys: seq<Text>)
    requires c.Valid()
    modifies c
    ensures c.Valid() && Elements(keys) == EventsAt(old(c.View()).projection, place)
    ensures (c.View(), result) == CommitStep(old(c.View()), Listed(keys, RemoveToolEventOp))
  {
    hide CommitStep;
    var current := c.Snapshot();
    if current.None? {
      keys := InKeyOrder(EventsAt(c.View().projection, place));
      StoppedRefuses(c.View(), Listed(keys, RemoveToolEventOp));
      return Err(CoordinatorClosed), keys;
    }
    var p := current.value.state;
    var operations: seq<Operation> := [];
    keys := [];
    var rest := p.toolEvents.Keys;
    while rest != {}
      invariant c.Valid() && c.View() == old(c.View()) && rest <= p.toolEvents.Keys
      invariant Elements(keys) == EventsAt(p, place) - rest && operations == Listed(keys, RemoveToolEventOp)
      decreases rest
    {
      var key :| key in rest;
      rest := rest - {key};
      if IsAt(p.toolEvents[key], place) {
        operations := operations + [RemoveToolEventOp(key)];
        assert Elements(keys + [key]) == Elements(keys) + {key};
        keys := keys + [key];
      }
    }
    result := c.Commit(operations);
  }
}
