/** The Agent's outcome cache: the same request is executed once, and its retries get the cached outcome. */
module OutcomeCaching {
  import opened GoText
  import opened Wrappers
  import opened PeerProtocol
  import opened RequestTracking

  /** What two requests must share to count as the same: operation, target and payload value. A digest of it is
      injective for the purposes of this model. */
  datatype Digest = Digest(operation: Text, target: SessionTarget, payload: Text)

  function RequestDigest(r: RuntimeRequest): Option<Digest> {
    match r.payload
    case NotJson(_) => None
    case JsonValue(_, _, value) => Some(Digest(r.operation, r.target, value))
  }

  function ErrorFor(r: RuntimeRequest, code: ErrorCode, message: Text): Outcome {
    ErrorOutcome(RuntimeError(r.requestId, r.generation, code, message))
  }

  /** The object that the executing call fills in and that joining calls wait for. */
  datatype Entry = Entry(digest: Digest, complete: bool, outcome: Option<Outcome>, expires: int)

  datatype Config = Config(ttl: int, maxEntries: int, maxResultSize: int) {
    predicate Valid() { ttl > 0 && maxEntries > 0 && maxResultSize > 0 }
  }

  /** `index` is the table; an entry outlives its place in the table. */
  datatype Cache = Cache(config: Config, index: map<Text, nat>, entries: seq<Entry>) {
    ghost predicate Valid() {
      && config.Valid()
      && (forall id :: id in index ==> index[id] < |entries|)
      && (forall t :: 0 <= t < |entries| ==> (entries[t].complete <==> entries[t].outcome.Some?))
    }
  }

  datatype Decision =
    | Answer(outcome: Outcome)
    | Join(ticket: nat)
    | Execute(ticket: nat)

  predicate Expired(c: Cache, id: Text, now: int)
    requires c.Valid() && id in c.index
  {
    var e := c.entries[c.index[id]];
    e.complete && now >= e.expires
  }

  function Purge(c: Cache, now: int): (r: Cache)
    requires c.Valid()
    ensures r.Valid() && r.entries == c.entries && r.config == c.config
  {
    c.(index := map id | id in c.index && !Expired(c, id, now) :: c.index[id])
  }

  /** The first locked region of `Do`. */
  function EnterStep(c: Cache, r: RuntimeRequest, now: int): (Cache, Decision)
    requires c.Valid()
  {
    match RequestDigest(r)
    case None => (c, Answer(ErrorFor(r, ExecutionFailed, "invalid request payload")))
    case Some(digest) =>
      var c' := Purge(c, now);
      if r.requestId in c'.index then
        if c'.entries[c'.index[r.requestId]].digest != digest then (c', Answer(ErrorFor(r, RequestConflict, "")))
        else (c', Join(c'.index[r.requestId]))
      else if |c'.index| >= c.config.maxEntries then (c', Answer(ErrorFor(r, ResourceExhausted, "")))
      else
        (c'.(index := c'.index[r.requestId := |c.entries|], entries := c.entries + [Entry(digest, false, None, 0)]),
         Execute(|c.entries|))
  }

  /** An outcome whose encoding is too large is replaced by an error. */
  function Bound(c: Config, r: RuntimeRequest, outcome: Outcome, size: nat): Outcome {
    if size > c.maxResultSize then ErrorFor(r, ResourceExhausted, "terminal outcome exceeds configured bound")
    else outcome
  }

  /** The second locked region of `Do`, and what the executing call returns. */
  function FinishStep(c: Cache, r: RuntimeRequest, ticket: nat, outcome: Outcome, size: nat, now: int): (Cache, Outcome)
    requires ticket < |c.entries|
  {
    var final := Bound(c.config, r, outcome, size);
    (c.(entries := c.entries[ticket :=
       c.entries[ticket].(complete := true, outcome := Some(final), expires := now + c.config.ttl)]),
     final)
  }

  class OutcomeCache {
    const config: Config
    var index: map<Text, nat>
    var entries: seq<Entry>

    ghost function View(): Cache
      reads this
    {
      Cache(config, index, entries)
    }

    ghost predicate Valid()
      reads this
    {
      View().Valid()
    }

    constructor (config: Config)
      requires config.Valid()
      ensures Valid() && View() == Cache(config, map[], [])
    {
      this.config := config;
      index, entries := map[], [];
    }

    method RemoveExpired(now: int)
      requires Valid()
      modifies this`index
      ensures Valid()
      ensures View() == Purge(old(View()), now)
    {
      ghost var was := View();
      var rest := index.Keys;
      while rest != {}
        invariant rest <= index.Keys <= was.index.Keys && Valid()
        invariant forall id :: id in index <==> id in was.index && (id in rest || !Expired(was, id, now))
        invariant forall id :: id in index ==> index[id] == was.index[id]
        decreases rest
      {
        var id :| id in rest;
        if entries[index[id]].complete && !(now < entries[index[id]].expires) {
          index := index - {id};
        }
        rest := rest - {id};
      }
      assert index == Purge(was, now).index;
    }

    method Enter(request: RuntimeRequest, now: int) returns (decision: Decision)
      requires Valid()
      modifies this
      ensures Valid()
      ensures (View(), decision) == EnterStep(old(View()), request, now)
    {
      var digest := RequestDigest(request);
      if digest.None? {
        return Answer(ErrorFor(request, ExecutionFailed, "invalid request payload"));
      }
      RemoveExpired(now);
      if request.requestId in index {
        if entries[index[request.requestId]].digest != digest.value {
          return Answer(ErrorFor(request, RequestConflict, ""));
        }
        return Join(index[request.requestId]);
      }
      if |index| >= config.maxEntries {
        return Answer(ErrorFor(request, ResourceExhausted, ""));
      }
      index := index[request.requestId := |entries|];
      entries := entries + [Entry(digest.value, false, None, 0)];
      return Execute(|entries| - 1);
    }

    method Finish(request: RuntimeRequest, ticket: nat, outcome: Outcome, size: nat, now: int) returns (final: Outcome)
      requires Valid() && ticket < |entries|
      modifies this
      ensures Valid()
      ensures (View(), final) == FinishStep(old(View()), request, ticket, outcome, size, now)
    {
      final := outcome;
      if size > config.maxResultSize {
        final := ErrorFor(request, ResourceExhausted, "terminal outcome exceeds configured bound");
      }
      entries := entries[ticket :=
        entries[ticket].(complete := true, outcome := Some(final), expires := now + config.ttl)];
    }

    /** What a joining call returns now; None while it has to wait. */
    method Await(request: RuntimeRequest, ticket: nat, contextDone: bool) returns (answer: Option<Outcome>)
      requires Valid() && ticket < |entries|
      ensures contextDone ==>
        answer == Some(ErrorOutcome(RuntimeError(request.requestId, request.generation, Timeout)))
      ensures !contextDone ==> answer == entries[ticket].outcome
    {
      if contextDone {
        return Some(ErrorFor(request, Timeout, ""));
      }
      if !entries[ticket].complete {
        return None;
      }
      return entries[ticket].outcome;
    }
  }

  /** A cache is opened exactly with positive limits. */
  method OpenCache(config: Config) returns (cache: Option<OutcomeCache>)
    ensures cache.Some? <==> config.ttl > 0 && config.maxEntries > 0 && config.maxResultSize > 0
    ensures cache.Some? ==> fresh(cache.value) && cache.value.Valid() && cache.value.View() == Cache(config, map[], [])
  {
    if config.ttl <= 0 || config.maxEntries <= 0 || config.maxResultSize <= 0 {
      return None;
    }
    var created := new OutcomeCache(config);
    return Some(created);
  }

  // ---------- Runs ----------

  /** When an execution ended, what it produced, and what the executing call returned. */
  datatype Ending = Ending(time: int, produced: Outcome, size: nat, returned: Outcome)

  /** One execution per entry, in the order of their start. */
  datatype Execution = Execution(request: RuntimeRequest, start: int, finish: Option<Ending>)

  datatype World = World(cache: Cache, log: seq<Execution>, clock: int)

  datatype Step =
    | DoEnter(request: RuntimeRequest, now: int)
    | DoFinish(ticket: nat, outcome: Outcome, size: nat, now: int)

  /** Steps happen in clock order; an execution finishes once. */
  predicate Possible(w: World, step: Step) {
    && step.now >= w.clock
    && (step.DoFinish? ==> step.ticket < |w.log| && w.log[step.ticket].finish.None?)
  }

  function Next(w: World, step: Step): World
    requires w.cache.Valid()
    requires step.DoFinish? ==> step.ticket < |w.log| == |w.cache.entries|
  {
    match step
    case DoEnter(request, now) =>
      var (cache, decision) := EnterStep(w.cache, request, now);
      World(cache, if decision.Execute? then w.log + [Execution(request, now, None)] else w.log, now)
    case DoFinish(ticket, outcome, size, now) =>
      var (cache, returned) := FinishStep(w.cache, w.log[ticket].request, ticket, outcome, size, now);
      World(cache, w.log[ticket := w.log[ticket].(finish := Some(Ending(now, outcome, size, returned)))], now)
  }

  /** An execution is live while it runs and for TTL after it has finished. */
  predicate Live(c: Config, e: Execution, now: int) {
    e.finish.None? || now < e.finish.value.time + c.ttl
  }

  /** What everyone who asks for a finished execution is due: its own outcome if that is not too large, and otherwise
      an error that its request can be correlated with. */
  function DueOutcome(c: Config, x: Execution): Outcome
    requires x.finish.Some?
  {
    if x.finish.value.size <= c.maxResultSize then x.finish.value.produced
    else ErrorOutcome(RuntimeError(x.request.requestId, x.request.generation, ResourceExhausted,
                                   "terminal outcome exceeds configured bound"))
  }

  ghost predicate EntryInv(w: World, t: nat)
    requires t < |w.log| == |w.cache.entries|
  {
    var e, x := w.cache.entries[t], w.log[t];
    && (e.complete <==> x.finish.Some?)
    && x.start <= w.clock
    && (e.complete ==>
          && e.expires == x.finish.value.time + w.cache.config.ttl && x.start <= x.finish.value.time <= w.clock
          && e.outcome == Some(x.finish.value.returned) == Some(DueOutcome(w.cache.config, x)))
    && RequestDigest(x.request) == Some(e.digest)
    && (Live(w.cache.config, x, w.clock) ==> x.request.requestId in w.cache.index && w.cache.index[x.request.requestId] == t)
  }

  /** Two executions of one request ID do not overlap, and the later one starts at least TTL after the earlier ended. */
  ghost predicate Apart(c: Config, earlier: Execution, later: Execution) {
    earlier.request.requestId == later.request.requestId ==>
      earlier.finish.Some? && later.start >= earlier.finish.value.time + c.ttl
  }

  ghost predicate Inv(w: World) {
    && w.cache.Valid()
    && |w.log| == |w.cache.entries|
    && (forall id :: id in w.cache.index ==> w.log[w.cache.index[id]].request.requestId == id)
    && (forall t :: 0 <= t < |w.log| ==> EntryInv(w, t))
    && (forall i, j :: 0 <= i < j < |w.log| ==> Apart(w.cache.config, w.log[i], w.log[j]))
    && |w.cache.index| <= w.cache.config.maxEntries
  }

  /** After a purge, exactly the live executions have a place in the table. */
  lemma PurgedIsLive(w: World, now: int)
    requires Inv(w) && now >= w.clock
    ensures var c := Purge(w.cache, now);
      && c.index.Keys <= w.cache.index.Keys && |c.index| <= |w.cache.index|
      && (forall id :: id in c.index ==> c.index[id] == w.cache.index[id] && Live(c.config, w.log[c.index[id]], now))
      && (forall t :: 0 <= t < |w.log| && Live(c.config, w.log[t], now) ==>
            w.log[t].request.requestId in c.index && c.index[w.log[t].request.requestId] == t)
  {
    var c := Purge(w.cache, now);
    SmallerSet(c.index.Keys, w.cache.index.Keys);
    assert |c.index| == |c.index.Keys| && |w.cache.index| == |w.cache.index.Keys|;
    forall id | id in c.index ensures Live(c.config, w.log[c.index[id]], now) {
      assert EntryInv(w, w.cache.index[id]);
    }
    forall t | 0 <= t < |w.log| && Live(c.config, w.log[t], now)
      ensures w.log[t].request.requestId in c.index && c.index[w.log[t].request.requestId] == t
    {
      assert EntryInv(w, t);
    }
  }

  lemma SmallerSet<T>(a: set<T>, b: set<T>)
    requires a <= b
    ensures |a| <= |b|
  {
    assert b == a + (b - a);
  }

  lemma PurgeKeepsInv(w: World, now: int)
    requires Inv(w) && now >= w.clock
    ensures Inv(World(Purge(w.cache, now), w.log, now)) && Inv(World(w.cache, w.log, now))
  {
    hide RequestDigest, Purge;
    PurgedIsLive(w, now);
    var w' := World(Purge(w.cache, now), w.log, now);
    forall t | 0 <= t < |w.log| ensures EntryInv(w', t) && EntryInv(World(w.cache, w.log, now), t) {
      assert EntryInv(w, t);
    }
  }

  /** The world with one more execution, which has just started. */
  function Started(w: World, request: RuntimeRequest, digest: Digest, now: int): World {
    World(w.cache.(index := w.cache.index[request.requestId := |w.log|],
                   entries := w.cache.entries + [Entry(digest, false, None, 0)]),
          w.log + [Execution(request, now, None)], now)
  }

  lemma StartKeepsEntries(w: World, request: RuntimeRequest, digest: Digest, now: int, t: nat)
    requires Inv(w) && now == w.clock && RequestDigest(request) == Some(digest)
    requires request.requestId !in w.cache.index && t <= |w.log|
    ensures EntryInv(Started(w, request, digest, now), t)
  {
    hide RequestDigest, Apart;
    if t < |w.log| { assert EntryInv(w, t); }
  }

  lemma StartStaysApart(w: World, request: RuntimeRequest, digest: Digest, now: int, i: nat, j: nat)
    requires Inv(w) && now == w.clock && request.requestId !in w.cache.index && i < j <= |w.log|
    ensures var w' := Started(w, request, digest, now); Apart(w.cache.config, w'.log[i], w'.log[j])
  {
    hide RequestDigest;
    assert EntryInv(w, i);
    if j < |w.log| { assert Apart(w.cache.config, w.log[i], w.log[j]); }
  }

  lemma StartKeepsInv(w: World, request: RuntimeRequest, digest: Digest, now: int)
    requires Inv(w) && now == w.clock && RequestDigest(request) == Some(digest)
    requires request.requestId !in w.cache.index && |w.cache.index| < w.cache.config.maxEntries
    ensures Inv(Started(w, request, digest, now))
  {
    hide RequestDigest, Apart, EntryInv;
    var w' := Started(w, request, digest, now);
    assert |w'.cache.index| == |w.cache.index| + 1;
    forall t | 0 <= t < |w'.log| ensures EntryInv(w', t) {
      StartKeepsEntries(w, request, digest, now, t);
    }
    forall i, j | 0 <= i < j < |w'.log| ensures Apart(w'.cache.config, w'.log[i], w'.log[j]) {
      StartStaysApart(w, request, digest, now, i, j);
    }
  }

  lemma EnterKeepsInv(w: World, request: RuntimeRequest, now: int)
    requires Inv(w) && now >= w.clock
    ensures Inv(Next(w, DoEnter(request, now)))
  {
    hide Purge, RequestDigest, EntryInv, Apart;
    PurgeKeepsInv(w, now);
    if EnterStep(w.cache, request, now).1.Execute? {
      StartKeepsInv(World(Purge(w.cache, now), w.log, now), request, RequestDigest(request).value, now);
    }
  }

  lemma FinishKeepsInv(w: World, step: Step)
    requires Inv(w) && step.DoFinish? && Possible(w, step)
    ensures Inv(Next(w, step))
  {
    hide RequestDigest;
    var w' := Next(w, step);
    forall t | 0 <= t < |w'.log| ensures EntryInv(w', t) {
      assert EntryInv(w, t);
    }
    forall i, j | 0 <= i < j < |w'.log| ensures Apart(w'.cache.config, w'.log[i], w'.log[j]) {
      assert Apart(w.cache.config, w.log[i], w.log[j]);
    }
  }

  function Begin(config: Config): World {
    World(Cache(config, map[], []), [], 0)
  }

  /** The world after those of the steps that are possible when their turn comes. */
  function After(config: Config, steps: seq<Step>): (w: World)
    requires config.Valid()
    ensures Inv(w) && w.cache.config == config
  {
    if steps == [] then Begin(config) else
      Advance(After(config, steps[..|steps| - 1]), steps[|steps| - 1])
  }

  lemma NextKeepsInv(w: World, step: Step)
    requires Inv(w) && Possible(w, step)
    ensures Inv(Next(w, step)) && Next(w, step).cache.config == w.cache.config
  {
    if step.DoEnter? {
      EnterKeepsInv(w, step.request, step.now);
    } else {
      FinishKeepsInv(w, step);
    }
    hide Inv, Live, Apart, Bound, RequestDigest;
  }

  function Advance(w: World, step: Step): (r: World)
    requires Inv(w)
    ensures Inv(r) && r.cache.config == w.cache.config
  {
    if !Possible(w, step) then w else
      NextKeepsInv(w, step);
      Next(w, step)
  }

  // ---------- The theorems ----------

  /** In every run, two executions of the same request ID are at least TTL apart. */
  lemma ExecutionsAreApart(config: Config, steps: seq<Step>, i: nat, j: nat)
    requires config.Valid() && i < j < |After(config, steps).log|
    ensures Apart(config, After(config, steps).log[i], After(config, steps).log[j])
  {
  }

  /** The number of live executions: those that hold a place in the table. */
  ghost function LiveIds(w: World, now: int): set<Text> {
    set t | 0 <= t < |w.log| && Live(w.cache.config, w.log[t], now) :: w.log[t].request.requestId
  }

  lemma IndexIsLive(w: World, now: int)
    requires Inv(w) && now >= w.clock
    ensures var c := Purge(w.cache, now);
      && c.index.Keys == LiveIds(w, now) && |c.index| <= |w.cache.index| && c.entries == w.cache.entries
      && (forall t :: 0 <= t < |w.log| && Live(c.config, w.log[t], now) ==>
            w.log[t].request.requestId in c.index && c.index[w.log[t].request.requestId] == t)
  {
    hide Live, Apart;
    PurgedIsLive(w, now);
    var c := Purge(w.cache, now);
    forall id | id in c.index ensures id in LiveIds(w, now) {
      assert w.log[c.index[id]].request.requestId == id by { assert id in w.cache.index; }
    }
  }

  /** A live execution with the request's ID. */
  ghost predicate IsRival(w: World, request: RuntimeRequest, now: int, t: nat) {
    t < |w.log| && Live(w.cache.config, w.log[t], now) && w.log[t].request.requestId == request.requestId
  }

  /** Both requests have the same operation, target and payload value, however that is written. */
  predicate AsksTheSame(a: RuntimeRequest, b: RuntimeRequest) {
    && a.operation == b.operation && a.target.hostId == b.target.hostId && a.target.session == b.target.session
    && a.payload.JsonValue? && b.payload.JsonValue? && a.payload.value == b.payload.value
  }

  /** A payload that is no JSON is refused. A request whose ID has a live execution joins it if both ask the same,
      and conflicts with it otherwise. Any other request is executed if there is room, and refused if there is none. */
  ghost predicate DecidesRightly(w: World, request: RuntimeRequest, now: int, decision: Decision) {
    if !request.payload.JsonValue? then
      decision == Answer(ErrorFor(request, ExecutionFailed, "invalid request payload"))
    else if request.requestId in LiveIds(w, now) then
      exists t: nat :: IsRival(w, request, now, t)
        && decision == if AsksTheSame(request, w.log[t].request) then Join(t)
                       else Answer(ErrorFor(request, RequestConflict, ""))
    else if |LiveIds(w, now)| >= w.cache.config.maxEntries then
      decision == Answer(ErrorFor(request, ResourceExhausted, ""))
    else decision == Execute(|w.log|)
  }

  lemma LiveIdHasRival(w: World, request: RuntimeRequest, now: int)
    requires request.requestId in LiveIds(w, now)
    ensures exists t: nat :: IsRival(w, request, now, t)
  {
    hide Live;
    var t :| 0 <= t < |w.log| && Live(w.cache.config, w.log[t], now) && w.log[t].request.requestId == request.requestId;
    assert IsRival(w, request, now, t);
  }

  lemma EnterDecides(w: World, request: RuntimeRequest, now: int)
    requires Inv(w) && now >= w.clock
    ensures DecidesRightly(w, request, now, EnterStep(w.cache, request, now).1)
    ensures forall t: nat, u: nat :: IsRival(w, request, now, t) && IsRival(w, request, now, u) ==> t == u
  {
    hide Live, LiveIds, Purge, Apart;
    IndexIsLive(w, now);
    var c := Purge(w.cache, now);
    assert |c.index| == |c.index.Keys|;
    if request.requestId in LiveIds(w, now) {
      LiveIdHasRival(w, request, now);
    }
    forall t | 0 <= t < |w.log| && Live(w.cache.config, w.log[t], now) && w.log[t].request.requestId == request.requestId
      ensures c.index[request.requestId] == t && RequestDigest(w.log[t].request) == Some(c.entries[t].digest)
    {
      assert EntryInv(w, t);
      assert w.log[t].request.requestId in c.index;
    }
  }

  lemma EnterStaysBounded(w: World, request: RuntimeRequest, now: int)
    requires Inv(w) && now >= w.clock
    ensures |EnterStep(w.cache, request, now).0.index| <= w.cache.config.maxEntries
  {
    hide Live, LiveIds, Purge, Apart, EntryInv;
    IndexIsLive(w, now);
  }

  /** In every run, what becomes of a request is decided by its payload, by the one live execution of its ID, if there
      is one, and by the number of live executions, which never exceeds MaxEntries. */
  lemma ExecutesExactlyWhen(config: Config, steps: seq<Step>, request: RuntimeRequest, now: int)
    requires config.Valid() && now >= After(config, steps).clock
    ensures var w := After(config, steps);
      && w.cache.config == config
      && DecidesRightly(w, request, now, EnterStep(w.cache, request, now).1)
      && (forall t: nat, u: nat :: IsRival(w, request, now, t) && IsRival(w, request, now, u) ==> t == u)
      && |EnterStep(w.cache, request, now).0.index| <= config.maxEntries
  {
    hide Inv, EnterStep, DecidesRightly, IsRival;
    EnterDecides(After(config, steps), request, now);
    EnterStaysBounded(After(config, steps), request, now);
  }

  /** An execution that is still running is never dropped from the table. */
  lemma RunningIsNeverEvicted(config: Config, steps: seq<Step>, t: nat)
    requires config.Valid() && t < |After(config, steps).log| && After(config, steps).log[t].finish.None?
    ensures var w := After(config, steps); var id := w.log[t].request.requestId;
      id in w.cache.index && w.cache.index[id] == t
  {
    assert EntryInv(After(config, steps), t);
  }

  /** Once an execution is complete its outcome never changes, so everyone who joined it gets the same one. */
  lemma OutcomeIsFinal(config: Config, steps: seq<Step>, step: Step, t: nat)
    requires config.Valid() && t < |After(config, steps).cache.entries|
    ensures var w := After(config, steps);
      && t < |Advance(w, step).cache.entries|
      && (w.cache.entries[t].complete ==> Advance(w, step).cache.entries[t] == w.cache.entries[t])
  {
    hide Inv, Next, Possible;
    var w := After(config, steps);
    if Possible(w, step) {
      if step.DoEnter? {
        EnterIsFinal(w, step, t);
      } else {
        FinishIsFinal(w, step, t);
      }
    }
  }

  lemma EnterIsFinal(w: World, step: Step, t: nat)
    requires Inv(w) && step.DoEnter? && t < |w.cache.entries|
    ensures t < |Next(w, step).cache.entries| && Next(w, step).cache.entries[t] == w.cache.entries[t]
  {
    hide Purge, RequestDigest, Apart, Live, EntryInv;
    assert w.cache.entries <= EnterStep(w.cache, step.request, step.now).0.entries;
  }

  /** A second outcome for the same execution is not possible. */
  lemma FinishIsFinal(w: World, step: Step, t: nat)
    requires Inv(w) && step.DoFinish? && Possible(w, step) && t < |w.cache.entries|
    ensures t < |Next(w, step).cache.entries|
    ensures w.cache.entries[t].complete ==> Next(w, step).cache.entries[t] == w.cache.entries[t]
  {
    hide Bound, RequestDigest, Apart, Live;
    assert EntryInv(w, t);
  }

  lemma {:induction false} OutcomesAreFinal(config: Config, steps: seq<Step>, more: seq<Step>, t: nat)
    requires config.Valid() && t < |After(config, steps).log| && After(config, steps).log[t].finish.Some?
    ensures var w, w' := After(config, steps), After(config, steps + more);
      t < |w'.log| && w'.log[t] == w.log[t] && w'.cache.entries[t] == w.cache.entries[t]
  {
    hide Inv, Advance;
    if more == [] {
      assert steps + more == steps;
    } else {
      var n := |more| - 1;
      OutcomesAreFinal(config, steps, more[..n], t);
      assert (steps + more)[..|steps + more| - 1] == steps + more[..n];
      FinishedStays(After(config, steps + more[..n]), more[n], t);
    }
  }

  lemma FinishedStays(w: World, step: Step, t: nat)
    requires Inv(w) && t < |w.log| && w.log[t].finish.Some?
    ensures var w' := Advance(w, step);
      t < |w'.log| && w'.log[t] == w.log[t] && w'.cache.entries[t] == w.cache.entries[t]
  {
    hide Purge, RequestDigest, Apart, Live, Bound;
    assert EntryInv(w, t);
    hide EntryInv;
    if Possible(w, step) && step.DoEnter? {
      EnterIsFinal(w, step, t);
    }
  }

  /** In every run, whoever joins an execution gets, now or later, exactly what the executing call has returned: the
      execution's own outcome, or the error for one that is too large. Until it is finished there is nothing to get. */
  lemma EveryoneGetsTheSame(config: Config, steps: seq<Step>, more: seq<Step>, t: nat)
    requires config.Valid() && t < |After(config, steps).log|
    ensures var w, later := After(config, steps), After(config, steps + more);
      if w.log[t].finish.None? then w.cache.entries[t].outcome == None
      else
        && t < |later.cache.entries|
        && later.cache.entries[t].outcome == Some(w.log[t].finish.value.returned) == Some(DueOutcome(config, w.log[t]))
  {
    assert EntryInv(After(config, steps), t);
    hide Inv, EntryInv;
    if After(config, steps).log[t].finish.Some? { OutcomesAreFinal(config, steps, more, t); }
  }

  /** The specification promises at most one execution per ID and payload for the life of the Agent process; the cache
      forgets after TTL, and a retry that comes exactly then is executed again. */
  lemma RetryAfterTtlExecutesAgain(config: Config, request: RuntimeRequest, outcome: Outcome)
    requires config.Valid() && request.payload.JsonValue?
    ensures var steps := [DoEnter(request, 0), DoFinish(0, outcome, 0, 0), DoEnter(request, config.ttl)];
      var log := After(config, steps).log;
      |log| == 2 && log[0].request == log[1].request == request
  {
    hide EntryInv, Apart, Inv, Advance;
    var steps := [DoEnter(request, 0), DoFinish(0, outcome, 0, 0), DoEnter(request, config.ttl)];
    assert steps[..1][..0] == [] && steps[..2][..1] == steps[..1] && steps[..3][..2] == steps[..2] && steps[..3] == steps;
    FirstExecution(config, request);
    assert After(config, []) == Begin(config);
    var w1 := After(config, steps[..1]);
    assert w1 == Advance(Begin(config), steps[0]);
    FirstFinish(w1, request, outcome);
    var w2 := After(config, steps[..2]);
    assert w2 == Advance(w1, steps[1]);
    SecondExecution(w2, request);
    assert After(config, steps) == Advance(w2, steps[2]);
  }

  lemma FirstExecution(config: Config, request: RuntimeRequest)
    requires config.Valid() && request.payload.JsonValue?
    ensures Inv(Begin(config))
    ensures var w := Advance(Begin(config), DoEnter(request, 0));
      && w.log == [Execution(request, 0, None)] && w.clock == 0 && w.cache.index == map[request.requestId := 0]
  {
    hide EntryInv, Apart;
    assert Purge(Begin(config).cache, 0).index == map[];
  }

  lemma FirstFinish(w: World, request: RuntimeRequest, outcome: Outcome)
    requires Inv(w) && w.log == [Execution(request, 0, None)] && w.clock == 0
    requires w.cache.index == map[request.requestId := 0]
    ensures var w' := Advance(w, DoFinish(0, outcome, 0, 0));
      && |w'.log| == 1 && w'.log[0].request == request && w'.clock == 0
      && w'.cache.index == w.cache.index && w'.cache.entries[0].complete && w'.cache.entries[0].expires == w.cache.config.ttl
  {
    hide EntryInv, Apart;
  }

  lemma SecondExecution(w: World, request: RuntimeRequest)
    requires Inv(w) && |w.log| == 1 && w.log[0].request == request && w.clock == 0 && request.payload.JsonValue?
    requires w.cache.index == map[request.requestId := 0]
    requires w.cache.entries[0].complete && w.cache.entries[0].expires == w.cache.config.ttl
    ensures var w' := Advance(w, DoEnter(request, w.cache.config.ttl));
      w'.log == [w.log[0], Execution(request, w.cache.config.ttl, None)]
  {
    hide EntryInv, Apart;
    assert Purge(w.cache, w.cache.config.ttl).index == map[];
  }

  // ---------- What the Hub makes of a joined outcome ----------

  /** A successful outcome is correlated with the request that was executed, not with the one that joined it. */
  function SuccessOf(r: RuntimeRequest, payload: Payload): Outcome {
    ResultOutcome(RuntimeResult(r.requestId, r.generation, payload))
  }

  /** The digest leaves out the connection generation, so a retry over a new connection joins the old execution. The
      Hub's table takes the joined outcome exactly if both requests were made under the same generation. */
  lemma JoinedOutcomeCompletesIffSameGeneration(t: Table, executed: RuntimeRequest, retry: RuntimeRequest, payload: Payload)
    requires t.Valid() && retry.requestId !in t.pending && retry.requestId == executed.requestId
    ensures var registered := RegisterStep(t, retry.requestId, retry.generation).0;
      var result := SuccessOf(executed, payload).result;
      && registered.Valid()
      && (Claim(registered, result.requestId, result.generation).1.Some? <==> executed.generation == retry.generation)
  {
  }

  // ---------- Dispatch ----------

  datatype Dispatcher = Dispatcher(generation: nat, hostId: Text, capabilities: set<Text>, ready: bool)

  /** The checks before the cache; None lets the request through. `invalid` is the text of a failed validation. */
  function DispatchCheck(d: Dispatcher, r: RuntimeRequest, now: int, invalid: Text): Option<Outcome> {
    if !r.Validate(now) then Some(ErrorFor(r, InvalidTarget, invalid))
    else if r.generation != d.generation then Some(ErrorFor(r, StaleGeneration, ""))
    else if r.target.hostId != d.hostId then Some(ErrorFor(r, InvalidTarget, "target host does not match this Agent"))
    else if "session-actions" !in d.capabilities then Some(ErrorFor(r, CapabilityUnsupported, ""))
    else if !d.ready then Some(ErrorFor(r, ExecutionFailed, "runtime executor unavailable"))
    else None
  }

  /** A dispatcher refuses a request for the first of these reasons: it is malformed or its deadline has passed, it is of
      another connection, it is for another host, the actions were not agreed on, nobody can execute it. It lets every
      other request through. */
  lemma DispatchDecides(d: Dispatcher, r: RuntimeRequest, now: int, invalid: Text)
    ensures var refused := (code: ErrorCode, message: Text) =>
        Some(ErrorOutcome(RuntimeError(r.requestId, r.generation, code, message)));
      DispatchCheck(d, r, now, invalid) ==
        if !RuntimeId(r.requestId) || r.generation == 0 || r.deadline <= now || !IsName(r.operation, 64)
           || !RuntimeId(r.target.hostId) || !RuntimeId(r.target.session)
           || !r.payload.JsonValue? || !r.payload.isObject || r.payload.size == 0 || r.payload.size > 65536
        then refused(InvalidTarget, invalid)
        else if r.generation != d.generation then refused(StaleGeneration, "")
        else if r.target.hostId != d.hostId then refused(InvalidTarget, "target host does not match this Agent")
        else if "session-actions" !in d.capabilities then refused(CapabilityUnsupported, "")
        else if !d.ready then refused(ExecutionFailed, "runtime executor unavailable")
        else None
  {
    hide RuntimeId;
  }

  /** The Hub can correlate every refusal of a well-formed request, and a request that reaches the cache is of this
      connection's generation, for this host, and has a digest. */
  lemma DispatchIsSound(d: Dispatcher, r: RuntimeRequest, now: int, invalid: Text)
    requires r.Validate(now)
    ensures match DispatchCheck(d, r, now, invalid)
      case Some(outcome) =>
        && outcome.ErrorOutcome? && outcome.error.ValidateCorrelated()
        && outcome.error.requestId == r.requestId && outcome.error.generation == r.generation
      case None => r.generation == d.generation && r.target.hostId == d.hostId && RequestDigest(r).Some?
  {
    hide RuntimeId, BoundedOptional;
    MessagesAreBounded();
  }

  lemma MessagesAreBounded()
    ensures BoundedOptional("", 256)
    ensures BoundedOptional("target host does not match this Agent", 256)
    ensures BoundedOptional("runtime executor unavailable", 256)
  {
  }
}
