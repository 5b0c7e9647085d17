/** Evicting idle sources cannot be seen from outside exactly when an idle source has refilled by the time it may be
    evicted. The reference is a policy that never forgets a source. */
module IngressEviction {
  import opened GoText
  import opened Wrappers
  import opened IngressPolicy
  import opened IngressRuns

  // ---------- The policy that never evicts ----------

  function AcquireForever(p: Policy, category: Text, origin: Text, now: real): (Policy, Result<nat, Reason>)
    requires p.Shaped()
  {
    if category !in p.categories then RejectStep(p, category, UnknownCategory)
    else if Busy(p, category) then RejectStep(p, category, ConcurrencyLimited)
    else Charge(p, category, NormalizeSource(origin), now, p.categories[category].sources)
  }

  function NextForever(p: Policy, step: Step): Policy
    requires p.Shaped()
  {
    match step
    case Acquire(category, origin, now, _) => AcquireForever(p, category, origin, now).0
    case Release(_) => Next(p, step)
  }

  lemma NextForeverKeepsInv(p: Policy, step: Step)
    requires Inv(p)
    ensures Inv(NextForever(p, step)) && NextForever(p, step).config == p.config
    ensures NextForever(p, step).categories.Keys == p.categories.Keys
  {
    hide Charge, NormalizeSource, BucketInv;
    match step
    case Acquire(c, origin, now, _) =>
      RejectionsAreIrrelevant();
      if c in p.categories {
        assert CategoryInv(p, c);
        ChargeKeepsInv(p, c, NormalizeSource(origin), now, p.categories[c].sources);
        ChargeKeepsShape(p, c, NormalizeSource(origin), now, p.categories[c].sources);
      }
    case Release(_) =>
      NextKeepsInv(p, step);
      NextKeepsConfig(p, step);
  }

  lemma ChargeKeepsShape(p: Policy, c: Text, source: Text, now: real, sources: map<Text, Bucket>)
    requires p.Shaped() && c in p.categories
    ensures var p' := Charge(p, c, source, now, sources).0;
      p'.config == p.config && p'.categories.Keys == p.categories.Keys
  {
    hide Refill;
  }

  function RunForever(p: Policy, steps: seq<Step>): (r: Policy)
    requires Inv(p)
    ensures Inv(r) && r.config == p.config && r.categories.Keys == p.categories.Keys
  {
    if steps == [] then p else
      var before := RunForever(p, steps[..|steps| - 1]);
      NextForeverKeepsInv(before, steps[|steps| - 1]);
      NextForever(before, steps[|steps| - 1])
  }

  // ---------- What the two policies share ----------

  /** The bucket is full at time t. */
  ghost predicate Full(b: Bucket, rate: real, burst: int, t: real) {
    Available(b, rate, burst, t) == burst as real
  }

  ghost predicate Seen(b: Bucket, clock: real) {
    b.last == b.lastSeen <= clock
  }

  /** The policy remembers a part of what the reference remembers, and what it forgot is full. */
  ghost predicate Remembers(state: Category, forever: Category, limits: Limits, clock: real) {
    && state.global == forever.global && state.inFlight == forever.inFlight
    && state.sources.Keys <= forever.sources.Keys
    && (forall s :: s in forever.sources ==> Seen(forever.sources[s], clock))
    && (forall s :: s in state.sources ==> state.sources[s] == forever.sources[s])
    && (forall s :: s in forever.sources && s !in state.sources ==>
          Full(forever.sources[s], limits.sourceRate, limits.sourceBurst, clock))
  }

  ghost predicate Tracks(p: Policy, q: Policy, clock: real) {
    && p.Shaped() && q.Shaped() && p.config == q.config && p.globalInFlight == q.globalInFlight && p.leases == q.leases
    && p.rejections == q.rejections
    && forall c :: c in p.categories ==> Remembers(p.categories[c], q.categories[c], p.config.categories[c], clock)
  }

  /** Every source bucket refills completely within the idle time. */
  ghost predicate RefillsWithinTtl(config: Config) {
    forall c :: c in config.categories ==>
      config.categories[c].sourceRate * config.idleTtl >= config.categories[c].sourceBurst as real
  }

  lemma FullStaysFull(b: Bucket, rate: real, burst: int, t: real, u: real)
    requires rate > 0.0 && t <= u && Full(b, rate, burst, t)
    ensures Full(b, rate, burst, u)
  {
    assert Positive(t - b.last) <= Positive(u - b.last);
    assert rate * Positive(t - b.last) <= rate * Positive(u - b.last);
  }

  lemma IdleIsFull(b: Bucket, rate: real, burst: int, now: real, ttl: real)
    requires BucketInv(b, burst) && rate > 0.0 && ttl > 0.0 && rate * ttl >= burst as real
    requires b.last == b.lastSeen && Idle(b, now, ttl)
    ensures Full(b, rate, burst, now)
  {
    assert rate * (now - b.last) >= rate * ttl;
  }

  /** A full bucket, refilled, is a new bucket, refilled. */
  lemma FullIsNew(b: Bucket, rate: real, burst: int, now: real)
    requires rate > 0.0 && Full(b, rate, burst, now) && b.last <= now && b.tokens <= burst as real
    ensures Refill(b, rate, burst, now) == Refill(NewBucket(burst, now), rate, burst, now)
  {
    assert rate * 0.0 == 0.0;
    assert Positive(now - b.last) == now - b.last;
    assert rate * Positive(now - b.last) == (now - b.last) * rate;
  }

  lemma TimePasses(state: Category, forever: Category, limits: Limits, clock: real, now: real)
    requires Remembers(state, forever, limits, clock) && clock <= now && limits.sourceRate > 0.0
    ensures Remembers(state, forever, limits, now)
  {
    hide Full;
    forall s | s in forever.sources && s !in state.sources
      ensures Full(forever.sources[s], limits.sourceRate, limits.sourceBurst, now)
    {
      FullStaysFull(forever.sources[s], limits.sourceRate, limits.sourceBurst, clock, now);
    }
  }

  lemma CleaningForgetsFullSources(
    state: Category, forever: Category, limits: Limits, scanned: set<Text>, now: real, ttl: real)
    requires Remembers(state, forever, limits, now) && limits.Valid()
    requires ttl > 0.0 && limits.sourceRate * ttl >= limits.sourceBurst as real
    requires forall s :: s in forever.sources ==> BucketInv(forever.sources[s], limits.sourceBurst)
    ensures Remembers(state.(sources := Clean(state.sources, scanned, now, ttl)), forever, limits, now)
  {
    hide Full, Idle, BucketInv;
    var left := Clean(state.sources, scanned, now, ttl);
    forall s | s in forever.sources && s !in left
      ensures Full(forever.sources[s], limits.sourceRate, limits.sourceBurst, now)
    {
      if s in state.sources {
        IdleIsFull(forever.sources[s], limits.sourceRate, limits.sourceBurst, now, ttl);
      }
    }
  }

  lemma KnownAlike(state: Category, forever: Category, limits: Limits, source: Text, now: real)
    requires Remembers(state, forever, limits, now) && limits.Valid()
    requires forall s :: s in forever.sources ==> BucketInv(forever.sources[s], limits.sourceBurst)
    ensures Known(state.sources, source, limits, now) == Known(forever.sources, source, limits, now)
    ensures Seen(Known(state.sources, source, limits, now), now)
  {
    if source in forever.sources && source !in state.sources {
      FullIsNew(forever.sources[source], limits.sourceRate, limits.sourceBurst, now);
    }
  }

  lemma SettingAlike(state: Category, forever: Category, limits: Limits, source: Text, b: Bucket, global: Bucket,
                     inFlight: nat, now: real)
    requires Remembers(state, forever, limits, now) && Seen(b, now)
    ensures Remembers(Category(global, state.sources[source := b], inFlight),
                      Category(global, forever.sources[source := b], inFlight), limits, now)
  {
    hide Full, Seen;
  }

  lemma ReplaceTracks(p: Policy, q: Policy, p': Policy, q': Policy, c: Text, clock: real, now: real)
    requires Tracks(p, q, clock) && clock <= now && c in p.categories
    requires p'.Shaped() && q'.Shaped() && p'.config == q'.config == p.config
    requires p'.globalInFlight == q'.globalInFlight && p'.leases == q'.leases && p'.rejections == q'.rejections
    requires c in p'.categories && c in q'.categories
    requires p'.categories == p.categories[c := p'.categories[c]] && q'.categories == q.categories[c := q'.categories[c]]
    requires Remembers(p'.categories[c], q'.categories[c], p.config.categories[c], now)
    ensures Tracks(p', q', now)
  {
    hide Remembers;
    forall d | d in p'.categories
      ensures Remembers(p'.categories[d], q'.categories[d], p'.config.categories[d], now)
    {
      assert Remembers(p.categories[d], q.categories[d], p.config.categories[d], clock);
      TimePasses(p.categories[d], q.categories[d], p.config.categories[d], clock, now);
    }
  }

  lemma TracksLater(p: Policy, q: Policy, clock: real, now: real)
    requires Tracks(p, q, clock) && clock <= now
    ensures Tracks(p, q, now)
  {
    hide Remembers;
    forall d | d in p.categories ensures Remembers(p.categories[d], q.categories[d], p.config.categories[d], now) {
      assert Remembers(p.categories[d], q.categories[d], p.config.categories[d], clock);
      TimePasses(p.categories[d], q.categories[d], p.config.categories[d], clock, now);
    }
  }

  /** The charge, given the two buckets brought up to date. */
  function Settle(p: Policy, c: Text, source: Text, sources: map<Text, Bucket>, bucket: Bucket, global: Bucket):
    (Policy, Result<nat, Reason>)
    requires c in p.categories
  {
    var inFlight := p.categories[c].inFlight;
    if global.tokens < 1.0 || bucket.tokens < 1.0 then
      RejectStep(p.(categories := p.categories[c := Category(global, sources[source := bucket], inFlight)]), c, RateLimited)
    else
      (p.(categories := p.categories[c := Category(Spend(global), sources[source := Spend(bucket)], inFlight + 1)],
          globalInFlight := p.globalInFlight + 1, leases := p.leases + [Lease(c, false)]),
       Ok(|p.leases|))
  }

  lemma ChargeSettles(p: Policy, c: Text, source: Text, now: real, sources: map<Text, Bucket>)
    requires p.Shaped() && c in p.categories
    ensures var limits := p.config.categories[c];
      Charge(p, c, source, now, sources) == Settle(p, c, source, sources, Known(sources, source, limits, now),
        Refill(p.categories[c].global, limits.globalRate, limits.globalBurst, now))
  {
    hide Refill;
  }

  lemma RefuseAlike(p: Policy, q: Policy, c: Text, source: Text, now: real, clock: real, sources: map<Text, Bucket>,
                    bucket: Bucket, global: Bucket)
    requires Tracks(p, q, clock) && clock <= now && c in p.categories && Seen(bucket, now)
    requires Remembers(p.categories[c].(sources := sources), q.categories[c], p.config.categories[c], now)
    requires global.tokens < 1.0 || bucket.tokens < 1.0
    ensures var mine, reference := Settle(p, c, source, sources, bucket, global),
                                   Settle(q, c, source, q.categories[c].sources, bucket, global);
      mine.1 == reference.1 && Tracks(mine.0, reference.0, now)
  {
    hide Remembers, Seen;
    var limits, forever := p.config.categories[c], q.categories[c];
    var state := p.categories[c].(sources := sources);
    SharedParts(state, forever, limits, now);
    SettingAlike(state, forever, limits, source, bucket, global, forever.inFlight, now);
    ReplaceTracks(p, q, Settle(p, c, source, sources, bucket, global).0,
                  Settle(q, c, source, forever.sources, bucket, global).0, c, clock, now);
  }

  lemma AdmitAlike(p: Policy, q: Policy, c: Text, source: Text, now: real, clock: real, sources: map<Text, Bucket>,
                   bucket: Bucket, global: Bucket)
    requires Tracks(p, q, clock) && clock <= now && c in p.categories && Seen(bucket, now)
    requires Remembers(p.categories[c].(sources := sources), q.categories[c], p.config.categories[c], now)
    requires !(global.tokens < 1.0 || bucket.tokens < 1.0)
    ensures var mine, reference := Settle(p, c, source, sources, bucket, global),
                                   Settle(q, c, source, q.categories[c].sources, bucket, global);
      mine.1 == reference.1 && Tracks(mine.0, reference.0, now)
  {
    hide Remembers, Seen;
    var limits, forever := p.config.categories[c], q.categories[c];
    var state := p.categories[c].(sources := sources);
    SharedParts(state, forever, limits, now);
    SpentIsSeen(bucket, now);
    SettingAlike(state, forever, limits, source, Spend(bucket), Spend(global), forever.inFlight + 1, now);
    ReplaceTracks(p, q, Settle(p, c, source, sources, bucket, global).0,
                  Settle(q, c, source, forever.sources, bucket, global).0, c, clock, now);
  }

  /** Charging the same source of two policies that remember the same decides the same. */
  lemma ChargeAlike(p: Policy, q: Policy, c: Text, source: Text, now: real, clock: real, sources: map<Text, Bucket>)
    requires Tracks(p, q, clock) && clock <= now && c in p.categories && Inv(q)
    requires Remembers(p.categories[c].(sources := sources), q.categories[c], p.config.categories[c], now)
    ensures var charged, reference := Charge(p, c, source, now, sources),
                                      Charge(q, c, source, now, q.categories[c].sources);
      charged.1 == reference.1 && Tracks(charged.0, reference.0, now)
  {
    hide Refill, Remembers, Seen, Charge, Known, Settle;
    var limits := p.config.categories[c];
    var state, forever := p.categories[c].(sources := sources), q.categories[c];
    assert CategoryInv(q, c);
    ChargeSettles(p, c, source, now, sources);
    ChargeSettles(q, c, source, now, forever.sources);
    KnownAlike(state, forever, limits, source, now);
    SharedParts(state, forever, limits, now);
    var bucket := Known(sources, source, limits, now);
    var global := Refill(forever.global, limits.globalRate, limits.globalBurst, now);
    if global.tokens < 1.0 || bucket.tokens < 1.0 {
      RefuseAlike(p, q, c, source, now, clock, sources, bucket, global);
    } else {
      AdmitAlike(p, q, c, source, now, clock, sources, bucket, global);
    }
  }

  lemma SharedParts(state: Category, forever: Category, limits: Limits, clock: real)
    requires Remembers(state, forever, limits, clock)
    ensures state.global == forever.global && state.inFlight == forever.inFlight
  {
  }

  lemma SpentIsSeen(b: Bucket, now: real)
    requires Seen(b, now)
    ensures Seen(Spend(b), now)
  {
  }

  // ---------- Eviction is invisible ----------

  /** The clock readings of the acquisitions never go back, from t0 on. */
  ghost predicate InClockOrder(steps: seq<Step>, t0: real) {
    && (forall i :: 0 <= i < |steps| && steps[i].Acquire? ==> t0 <= steps[i].now)
    && (forall i, j :: 0 <= i < j < |steps| && steps[i].Acquire? && steps[j].Acquire? ==> steps[i].now <= steps[j].now)
  }

  function Clock(steps: seq<Step>, t0: real): real {
    if steps == [] then t0
    else if steps[|steps| - 1].Acquire? then steps[|steps| - 1].now
    else Clock(steps[..|steps| - 1], t0)
  }

  function Decision(p: Policy, step: Step): Result<nat, Reason>
    requires p.Shaped() && step.Acquire?
  {
    AcquireStep(p, step.category, step.origin, step.now, step.scanned).1
  }

  function DecisionForever(p: Policy, step: Step): Result<nat, Reason>
    requires p.Shaped() && step.Acquire?
  {
    AcquireForever(p, step.category, step.origin, step.now).1
  }

  /** No acquisition of the run is turned away because too many sources are known. */
  ghost predicate NeverAtCapacity(p: Policy, steps: seq<Step>)
    requires Inv(p)
  {
    steps == [] ||
      var n := |steps| - 1;
      && NeverAtCapacity(p, steps[..n])
      && (steps[n].Acquire? ==> Decision(Run(p, steps[..n]), steps[n]) != Err(SourceCapacity))
  }

  /** Short of an early refusal, an acquisition is a charge. */
  lemma AcquireCharges(p: Policy, step: Step)
    requires p.Shaped() && step.Acquire? && Decision(p, step) != Err(SourceCapacity)
    requires step.category in p.categories && !Busy(p, step.category)
    ensures var c := step.category;
      var sources := Clean(p.categories[c].sources, step.scanned, step.now, p.config.idleTtl);
      var charged := Charge(p, c, NormalizeSource(step.origin), step.now, sources);
      charged == (Next(p, step), Decision(p, step))
  {
    hide Charge, NormalizeSource, Clean, Busy;
  }

  lemma KnownFacts(q: Policy, c: Text)
    requires Inv(q) && c in q.categories
    ensures q.config.categories[c].Valid() && q.config.idleTtl > 0.0
    ensures forall s :: s in q.categories[c].sources ==>
      BucketInv(q.categories[c].sources[s], q.config.categories[c].sourceBurst)
  {
    hide BucketInv;
    assert CategoryInv(q, c);
  }

  lemma CleanedRemembers(p: Policy, q: Policy, c: Text, clock: real, now: real, scanned: set<Text>)
    requires Tracks(p, q, clock) && Inv(q) && RefillsWithinTtl(p.config) && clock <= now && c in p.categories
    ensures Remembers(p.categories[c].(sources := Clean(p.categories[c].sources, scanned, now, p.config.idleTtl)),
                      q.categories[c], p.config.categories[c], now)
  {
    hide Remembers, Clean, BucketInv, Inv;
    var limits, ttl := p.config.categories[c], p.config.idleTtl;
    KnownFacts(q, c);
    assert Remembers(p.categories[c], q.categories[c], limits, clock);
    TimePasses(p.categories[c], q.categories[c], limits, clock, now);
    CleaningForgetsFullSources(p.categories[c], q.categories[c], limits, scanned, now, ttl);
  }

  lemma AskAlike(p: Policy, q: Policy, clock: real, step: Step)
    requires Tracks(p, q, clock) && Inv(q) && RefillsWithinTtl(p.config)
    requires step.Acquire? && clock <= step.now && Decision(p, step) != Err(SourceCapacity)
    requires step.category in p.categories && !Busy(p, step.category) && !Busy(q, step.category)
    ensures Decision(p, step) == DecisionForever(q, step) && Tracks(Next(p, step), NextForever(q, step), step.now)
  {
    hide Remembers, Charge, NormalizeSource, Clean, CategoryInv, Busy, Decision, Next;
    var c := step.category;
    CleanedRemembers(p, q, c, clock, step.now, step.scanned);
    AcquireCharges(p, step);
    ChargeAlike(p, q, c, NormalizeSource(step.origin), step.now, clock,
                Clean(p.categories[c].sources, step.scanned, step.now, p.config.idleTtl));
  }

  lemma AcquireAlike(p: Policy, q: Policy, clock: real, step: Step)
    requires Tracks(p, q, clock) && Inv(q) && RefillsWithinTtl(p.config)
    requires step.Acquire? && clock <= step.now && Decision(p, step) != Err(SourceCapacity)
    ensures Decision(p, step) == DecisionForever(q, step) && Tracks(Next(p, step), NextForever(q, step), step.now)
  {
    var c := step.category;
    if c !in p.categories {
      RejectAlike(p, q, c, UnknownCategory, clock, step.now);
    } else {
      BusyAlike(p, q, c, clock);
      hide Charge, NormalizeSource, Clean, Busy, CategoryInv, Remembers;
      if Busy(p, c) {
        RejectAlike(p, q, c, ConcurrencyLimited, clock, step.now);
      } else {
        AskAlike(p, q, clock, step);
      }
    }
  }

  lemma BusyAlike(p: Policy, q: Policy, c: Text, clock: real)
    requires Tracks(p, q, clock) && c in p.categories
    ensures Busy(p, c) == Busy(q, c)
  {
    hide Full, Seen;
    assert Remembers(p.categories[c], q.categories[c], p.config.categories[c], clock);
  }

  lemma RejectAlike(p: Policy, q: Policy, c: Text, reason: Reason, clock: real, now: real)
    requires Tracks(p, q, clock) && clock <= now
    ensures Tracks(RejectStep(p, c, reason).0, RejectStep(q, c, reason).0, now)
  {
    hide Remembers;
    TracksLater(p, q, clock, now);
  }

  lemma ReleaseAlike(p: Policy, q: Policy, clock: real, step: Step)
    requires Tracks(p, q, clock) && step.Release?
    ensures Tracks(Next(p, step), NextForever(q, step), clock)
  {
    hide Remembers;
    if step.lease < |p.leases| && p.leases[step.lease].category in p.categories && !p.leases[step.lease].released {
      var c := p.leases[step.lease].category;
      assert Remembers(p.categories[c], q.categories[c], p.config.categories[c], clock);
      LeavingAlike(p.categories[c], q.categories[c], p.config.categories[c], clock);
      ReplaceTracks(p, q, Next(p, step), NextForever(q, step), c, clock, clock);
    }
  }

  lemma LeavingAlike(state: Category, forever: Category, limits: Limits, clock: real)
    requires Remembers(state, forever, limits, clock)
    ensures Remembers(state.(inFlight := Decremented(state.inFlight)),
                      forever.(inFlight := Decremented(forever.inFlight)), limits, clock)
  {
    hide Full, Seen;
  }

  lemma {:induction false} RunsAlike(config: Config, steps: seq<Step>, t0: real)
    requires config.Valid() && RefillsWithinTtl(config) && InClockOrder(steps, t0)
    requires Inv(NewPolicy(config, t0)) && NeverAtCapacity(NewPolicy(config, t0), steps)
    ensures Tracks(Run(NewPolicy(config, t0), steps), RunForever(NewPolicy(config, t0), steps), Clock(steps, t0))
  {
    hide Tracks, Next, NextForever, Inv, Decision;
    var p := NewPolicy(config, t0);
    if steps == [] {
      StartTracks(config, t0);
    } else {
      var n := |steps| - 1;
      RunsAlike(config, steps[..n], t0);
      if steps[n].Acquire? {
        ClockIsBehind(steps, t0);
        AcquireAlike(Run(p, steps[..n]), RunForever(p, steps[..n]), Clock(steps[..n], t0), steps[n]);
      } else {
        ReleaseAlike(Run(p, steps[..n]), RunForever(p, steps[..n]), Clock(steps[..n], t0), steps[n]);
      }
    }
  }

  lemma StartTracks(config: Config, t0: real)
    requires config.Valid()
    ensures Tracks(NewPolicy(config, t0), NewPolicy(config, t0), t0)
  {
  }

  lemma {:induction false} ClockIsBehind(steps: seq<Step>, t0: real)
    requires InClockOrder(steps, t0) && steps != [] && steps[|steps| - 1].Acquire?
    ensures Clock(steps[..|steps| - 1], t0) <= steps[|steps| - 1].now
    decreases |steps|
  {
    var n := |steps| - 1;
    if n > 0 && !steps[n - 1].Acquire? {
      var shorter := steps[..n - 1] + [steps[n]];
      ClockIsBehind(shorter, t0);
      assert shorter[..n - 1] == steps[..n][..n - 1];
    }
  }

  /** Every decision of the policy, in every run in which source capacity is never hit and the clock never goes back,
      is the decision of the policy that never evicts, whichever sources the cleanup looks at. */
  lemma EvictionIsInvisible(config: Config, steps: seq<Step>, call: Step, t0: real)
    requires config.Valid() && RefillsWithinTtl(config) && call.Acquire? && InClockOrder(steps + [call], t0)
    requires Inv(NewPolicy(config, t0)) && NeverAtCapacity(NewPolicy(config, t0), steps + [call])
    ensures var start := NewPolicy(config, t0);
      Decision(Run(start, steps), call) == DecisionForever(RunForever(start, steps), call)
  {
    hide Tracks, Next, NextForever, Inv, Decision, DecisionForever;
    var all := steps + [call];
    assert all[..|all| - 1] == steps;
    assert InClockOrder(steps, t0);
    RunsAlike(config, steps, t0);
    ClockIsBehind(all, t0);
    AcquireAlike(Run(NewPolicy(config, t0), steps), RunForever(NewPolicy(config, t0), steps), Clock(steps, t0), call);
  }

  // ---------- Eviction shows when the idle time is too short ----------

  ghost function Start(config: Config, t0: real): (p: Policy)
    requires config.Valid()
    ensures Inv(p) && p == NewPolicy(config, t0)
  {
    NewPolicyHoldsInv(config, t0);
    NewPolicy(config, t0)
  }

  /** The bounded cleanup looks at as many sources as there are, up to its budget. */
  ghost predicate CanScan(p: Policy, step: Step)
    requires p.Shaped()
  {
    step.Acquire? && step.category in p.categories ==>
      var sources := p.categories[step.category].sources;
      && step.scanned <= sources.Keys
      && |step.scanned| == if |sources| < p.config.cleanupBudget then |sources| else p.config.cleanupBudget
  }

  ghost predicate ScansArePossible(p: Policy, steps: seq<Step>)
    requires Inv(p)
  {
    steps == [] ||
      var n := |steps| - 1;
      ScansArePossible(p, steps[..n]) && CanScan(Run(p, steps[..n]), steps[n])
  }

  /** A run the real policy can go through without hitting source capacity. */
  ghost predicate Legal(p: Policy, steps: seq<Step>, t0: real)
    requires Inv(p)
  {
    InClockOrder(steps, t0) && NeverAtCapacity(p, steps) && ScansArePossible(p, steps)
  }

  /** No legal run tells the policy from the one that never evicts. */
  ghost predicate EvictionIsHidden(config: Config)
    requires config.Valid()
  {
    forall t0: real, steps: seq<Step>, call: Step | call.Acquire? && Legal(Start(config, t0), steps + [call], t0) ::
      Decision(Run(Start(config, t0), steps), call) == DecisionForever(RunForever(Start(config, t0), steps), call)
  }

  /** Nothing in flight, one source known, both buckets read at `now`. */
  ghost predicate Ready(p: Policy, c: Text, s: Text, now: real, x: real, y: real) {
    && p.Shaped() && c in p.categories && p.globalInFlight == 0
    && p.categories[c] == Category(Bucket(y, now, now), map[s := Bucket(x, now, now)], 0)
  }

  function Ask(c: Text, origin: Text, now: real): Step {
    Acquire(c, origin, now, {NormalizeSource(origin)})
  }

  /** k acquisitions at the same time, each released at once. */
  function Drain(c: Text, origin: Text, now: real, first: nat, k: nat): (steps: seq<Step>) {
    if k == 0 then [] else Drain(c, origin, now, first, k - 1) + [Ask(c, origin, now), Release(first + k - 1)]
  }

  /** As Ready, with the last lease still out. */
  ghost predicate Held(p: Policy, c: Text, s: Text, now: real, x: real, y: real, lease: nat) {
    && p.Shaped() && c in p.categories && p.globalInFlight == 1
    && p.categories[c] == Category(Bucket(y, now, now), map[s := Bucket(x, now, now)], 1)
    && |p.leases| == lease + 1 && p.leases[lease] == Lease(c, false)
  }

  lemma LetGo(p: Policy, c: Text, s: Text, now: real, x: real, y: real, lease: nat)
    requires Held(p, c, s, now, x, y, lease)
    ensures Ready(Next(p, Release(lease)), c, s, now, x, y) && |Next(p, Release(lease)).leases| == lease + 1
    ensures NextForever(p, Release(lease)) == Next(p, Release(lease))
  {
  }

  lemma AskAtOnce(p: Policy, c: Text, origin: Text, now: real, x: real, y: real)
    requires Ready(p, c, NormalizeSource(origin), now, x, y) && x >= 1.0 && y >= 1.0
    ensures var step := Ask(c, origin, now);
      && Decision(p, step) == DecisionForever(p, step) == Ok(|p.leases|) && CanScan(p, step)
      && NextForever(p, step) == Next(p, step)
      && Held(Next(p, step), c, NormalizeSource(origin), now, x - 1.0, y - 1.0, |p.leases|)
  {
    hide NormalizeSource;
    var sources := p.categories[c].sources;
    assert Clean(sources, {NormalizeSource(origin)}, now, p.config.idleTtl) == sources;
  }

  lemma AskTooMuch(p: Policy, c: Text, origin: Text, now: real, x: real, y: real)
    requires Ready(p, c, NormalizeSource(origin), now, x, y) && x < 1.0
    ensures DecisionForever(p, Ask(c, origin, now)) == Err(RateLimited)
  {
    hide NormalizeSource;
  }

  lemma FirstAsk(config: Config, c: Text, origin: Text)
    requires config.Valid() && c in config.categories
    ensures var p, step, limits := NewPolicy(config, 0.0), Acquire(c, origin, 0.0, {}), config.categories[c];
      && Decision(p, step) == Ok(0) && CanScan(p, step)
      && NextForever(p, step) == Next(p, step)
      && Held(Next(p, step), c, NormalizeSource(origin), 0.0,
              limits.sourceBurst as real - 1.0, limits.globalBurst as real - 1.0, 0)
  {
    hide NormalizeSource;
  }

  /** The evicted source comes back with a full bucket. */
  lemma AskAfterEviction(p: Policy, c: Text, origin: Text, x: real, y: real) returns (y': real)
    requires Inv(p) && Ready(p, c, NormalizeSource(origin), 0.0, x, y) && 1.0 <= y
    ensures var step, limits := Ask(c, origin, p.config.idleTtl), p.config.categories[c];
      && Decision(p, step) == Ok(|p.leases|) && CanScan(p, step) && y' >= y - 1.0
      && Held(Next(p, step), c, NormalizeSource(origin), p.config.idleTtl,
              limits.sourceBurst as real - 1.0, y', |p.leases|)
  {
    hide NormalizeSource, BucketInv;
    var s, ttl, limits, sources := NormalizeSource(origin), p.config.idleTtl, p.config.categories[c], p.categories[c].sources;
    assert CategoryInv(p, c);
    assert Clean(sources, {s}, ttl, ttl) == map[];
    RefillInRange(p.categories[c].global, limits.globalRate, limits.globalBurst, ttl);
    y' := Refill(p.categories[c].global, limits.globalRate, limits.globalBurst, ttl).tokens - 1.0;
  }

  lemma ForeverCharges(p: Policy, step: Step)
    requires p.Shaped() && step.Acquire? && step.category in p.categories && !Busy(p, step.category)
    ensures var charged := Charge(p, step.category, NormalizeSource(step.origin), step.now,
                                  p.categories[step.category].sources);
      charged == (NextForever(p, step), DecisionForever(p, step))
  {
    hide Charge, NormalizeSource, Busy;
  }

  lemma ChargeHolds(p: Policy, c: Text, s: Text, last: real, x: real, y: real, now: real, x': real, y': real)
    requires Ready(p, c, s, last, x, y) && y' >= 0.0
    requires var limits := p.config.categories[c];
      && Known(p.categories[c].sources, s, limits, now) == Bucket(x', now, now)
      && Refill(p.categories[c].global, limits.globalRate, limits.globalBurst, now) == Bucket(y' + 1.0, now, now)
    ensures var charged := Charge(p, c, s, now, p.categories[c].sources);
      && (x' < 1.0 ==> charged.1 == Err(RateLimited))
      && (x' >= 1.0 ==> Held(charged.0, c, s, now, x' - 1.0, y', |p.leases|))
  {
    hide Refill;
  }

  /** The remembered source comes back with what it earned meanwhile. */
  lemma AskAfterWaiting(p: Policy, c: Text, origin: Text, y: real, earned: real) returns (y': real)
    requires Inv(p) && Ready(p, c, NormalizeSource(origin), 0.0, 0.0, y) && 1.0 <= y
    requires p.config.categories[c].sourceRate * p.config.idleTtl == earned
    requires earned < p.config.categories[c].sourceBurst as real
    ensures var step := Ask(c, origin, p.config.idleTtl);
      && y' >= y - 1.0
      && (earned < 1.0 ==> DecisionForever(p, step) == Err(RateLimited))
      && (earned >= 1.0 ==>
          Held(NextForever(p, step), c, NormalizeSource(origin), p.config.idleTtl, earned - 1.0, y', |p.leases|))
  {
    hide NormalizeSource, BucketInv, NextForever, DecisionForever, Charge;
    var s, ttl, limits := NormalizeSource(origin), p.config.idleTtl, p.config.categories[c];
    assert CategoryInv(p, c);
    RefillEarns(limits, ttl);
    RefillInRange(p.categories[c].global, limits.globalRate, limits.globalBurst, ttl);
    y' := Refill(p.categories[c].global, limits.globalRate, limits.globalBurst, ttl).tokens - 1.0;
    RefillKeepsTime(p.categories[c].global, limits.globalRate, limits.globalBurst, ttl);
    ForeverCharges(p, Ask(c, origin, ttl));
    ChargeHolds(p, c, s, 0.0, 0.0, y, ttl, earned, y');
  }

  lemma RefillEarns(limits: Limits, ttl: real)
    requires ttl > 0.0 && limits.sourceRate * ttl < limits.sourceBurst as real
    ensures Refill(Bucket(0.0, 0.0, 0.0), limits.sourceRate, limits.sourceBurst, ttl)
         == Bucket(limits.sourceRate * ttl, ttl, ttl)
  {
    assert ttl * limits.sourceRate == limits.sourceRate * ttl;
  }

  lemma RefillKeepsTime(b: Bucket, rate: real, burst: int, now: real)
    requires b.last <= now
    ensures Refill(b, rate, burst, now).last == Refill(b, rate, burst, now).lastSeen == now
  {
  }

  lemma OneMore(p: Policy, steps: seq<Step>, step: Step, t0: real)
    requires Inv(p)
    ensures Run(p, steps + [step]) == Next(Run(p, steps), step)
    ensures RunForever(p, steps + [step]) == NextForever(RunForever(p, steps), step)
    ensures Legal(p, steps + [step], t0) <==>
      && Legal(p, steps, t0) && InClockOrder(steps + [step], t0) && CanScan(Run(p, steps), step)
      && (step.Acquire? ==> Decision(Run(p, steps), step) != Err(SourceCapacity))
  {
    hide Next, NextForever, Inv, Decision, CanScan;
    var all := steps + [step];
    assert all[..|steps|] == steps && all[|steps|] == step;
    assert InClockOrder(all, t0) ==> InClockOrder(steps, t0) by {
      if InClockOrder(all, t0) {
        forall i | 0 <= i < |steps| && steps[i].Acquire? ensures t0 <= steps[i].now { assert all[i] == steps[i]; }
      }
    }
  }

  ghost predicate NoLaterThan(steps: seq<Step>, now: real) {
    forall i :: 0 <= i < |steps| && steps[i].Acquire? ==> steps[i].now <= now
  }

  /** The run so far has left the real policy and the one that never evicts ready for more calls from one source. */
  ghost predicate BothReady(
    start: Policy, steps: seq<Step>, c: Text, s: Text, now: real, x: real, x2: real, y: real, y2: real, leases: nat)
    requires Inv(start)
  {
    && Legal(start, steps, 0.0) && NoLaterThan(steps, now)
    && Ready(Run(start, steps), c, s, now, x, y) && |Run(start, steps).leases| == leases
    && Ready(RunForever(start, steps), c, s, now, x2, y2) && |RunForever(start, steps).leases| == leases
  }

  /** One acquisition that both policies grant, and its release. */
  lemma GrantAndRelease(start: Policy, steps: seq<Step>, call: Step, c: Text, s: Text, x: real, x2: real, y: real,
                        y2: real, lease: nat)
    requires Inv(start) && Legal(start, steps, 0.0) && call.Acquire? && InClockOrder(steps + [call], 0.0)
    requires CanScan(Run(start, steps), call) && Decision(Run(start, steps), call) != Err(SourceCapacity)
    requires Held(Next(Run(start, steps), call), c, s, call.now, x, y, lease)
    requires Held(NextForever(RunForever(start, steps), call), c, s, call.now, x2, y2, lease)
    ensures BothReady(start, steps + [call, Release(lease)], c, s, call.now, x, x2, y, y2, lease + 1)
  {
    hide Legal, InClockOrder, NoLaterThan, BothReady, Held, Next, NextForever, CategoryInv, CanScan, Decision, Run,
         RunForever;
    OneMore(start, steps, call, 0.0);
    ReleaseBoth(start, steps, call, c, s, x, x2, y, y2, lease);
    assert steps + [call, Release(lease)] == steps + [call] + [Release(lease)];
  }

  lemma ReleaseBoth(start: Policy, steps: seq<Step>, call: Step, c: Text, s: Text, x: real, x2: real, y: real,
                    y2: real, lease: nat)
    requires Inv(start) && Legal(start, steps + [call], 0.0) && call.Acquire? && InClockOrder(steps + [call], 0.0)
    requires Held(Run(start, steps + [call]), c, s, call.now, x, y, lease)
    requires Held(RunForever(start, steps + [call]), c, s, call.now, x2, y2, lease)
    ensures BothReady(start, steps + [call] + [Release(lease)], c, s, call.now, x, x2, y, y2, lease + 1)
  {
    hide Legal, InClockOrder, NoLaterThan, Ready, Held, Next, NextForever, CategoryInv, CanScan, Decision;
    var asked := steps + [call];
    OneMore(start, asked, Release(lease), 0.0);
    LetGo(Run(start, asked), c, s, call.now, x, y, lease);
    LetGo(RunForever(start, asked), c, s, call.now, x2, y2, lease);
    ReleaseScansNothing(Run(start, asked), Release(lease));
    ReleaseKeepsClock(steps, call, Release(lease));
  }

  lemma ReleaseKeepsClock(steps: seq<Step>, call: Step, release: Step)
    requires call.Acquire? && InClockOrder(steps + [call], 0.0) && release.Release?
    ensures InClockOrder(steps + [call] + [release], 0.0) && NoLaterThan(steps + [call] + [release], call.now)
  {
    var all := steps + [call];
    assert all[|steps|] == call;
  }

  lemma ReleaseScansNothing(p: Policy, step: Step)
    requires p.Shaped() && step.Release?
    ensures CanScan(p, step)
  {
  }

  lemma AskBothAtOnce(start: Policy, steps: seq<Step>, c: Text, origin: Text, now: real, x: real, x2: real,
                      y: real, y2: real, leases: nat)
    requires Inv(start) && BothReady(start, steps, c, NormalizeSource(origin), now, x, x2, y, y2, leases)
    requires 1.0 <= x && 1.0 <= x2 && 1.0 <= y && 1.0 <= y2 && 0.0 <= now
    ensures BothReady(start, steps + [Ask(c, origin, now), Release(leases)], c, NormalizeSource(origin), now,
                      x - 1.0, x2 - 1.0, y - 1.0, y2 - 1.0, leases + 1)
  {
    hide Legal, BothReady, InClockOrder, NoLaterThan, Ready, Held, Next, NextForever, CategoryInv, CanScan, Decision,
         DecisionForever, NormalizeSource;
    BothReadyParts(start, steps, c, NormalizeSource(origin), now, x, x2, y, y2, leases);
    var call := Ask(c, origin, now);
    AskAtOnce(Run(start, steps), c, origin, now, x, y);
    AskAtOnce(RunForever(start, steps), c, origin, now, x2, y2);
    LaterCall(steps, call);
    GrantAndRelease(start, steps, call, c, NormalizeSource(origin), x - 1.0, x2 - 1.0, y - 1.0, y2 - 1.0, leases);
  }

  lemma BothReadyParts(
    start: Policy, steps: seq<Step>, c: Text, s: Text, now: real, x: real, x2: real, y: real, y2: real, leases: nat)
    requires Inv(start) && BothReady(start, steps, c, s, now, x, x2, y, y2, leases)
    ensures Legal(start, steps, 0.0) && InClockOrder(steps, 0.0) && NoLaterThan(steps, now)
    ensures Ready(Run(start, steps), c, s, now, x, y) && |Run(start, steps).leases| == leases
    ensures Ready(RunForever(start, steps), c, s, now, x2, y2) && |RunForever(start, steps).leases| == leases
  {
  }

  /** k more acquisitions at the same time take k tokens from each bucket of each policy. */
  lemma {:induction false} DrainBoth(start: Policy, steps: seq<Step>, c: Text, origin: Text, now: real, x: real, x2: real,
                                     y: real, y2: real, leases: nat, k: nat)
    requires Inv(start) && BothReady(start, steps, c, NormalizeSource(origin), now, x, x2, y, y2, leases)
    requires k as real <= x && k as real <= x2 && k as real <= y && k as real <= y2 && 0.0 <= now
    ensures BothReady(start, steps + Drain(c, origin, now, leases, k), c, NormalizeSource(origin), now,
                      x - k as real, x2 - k as real, y - k as real, y2 - k as real, leases + k)
  {
    hide BothReady, Inv, Ask, NormalizeSource;
    if k == 0 {
      assert steps + Drain(c, origin, now, leases, 0) == steps;
    } else {
      var before, m := steps + Drain(c, origin, now, leases, k - 1), (k - 1) as real;
      DrainBoth(start, steps, c, origin, now, x, x2, y, y2, leases, k - 1);
      AskBothAtOnce(start, before, c, origin, now, x - m, x2 - m, y - m, y2 - m, leases + k - 1);
      var more := [Ask(c, origin, now), Release(leases + k - 1)];
      assert steps + Drain(c, origin, now, leases, k) == before + more by {
        assert Drain(c, origin, now, leases, k) == Drain(c, origin, now, leases, k - 1) + more;
      }
      assert m + 1.0 == k as real;
      assert x - m - 1.0 == x - k as real && x2 - m - 1.0 == x2 - k as real;
      assert y - m - 1.0 == y - k as real && y2 - m - 1.0 == y2 - k as real;
    }
  }

  lemma LaterCall(steps: seq<Step>, call: Step)
    requires call.Acquire? && InClockOrder(steps, 0.0) && NoLaterThan(steps, call.now) && 0.0 <= call.now
    ensures InClockOrder(steps + [call], 0.0)
  {
  }

  lemma NoneLaterThan(steps: seq<Step>, now: real, later: real)
    requires NoLaterThan(steps, now) && now <= later
    ensures NoLaterThan(steps, later)
  {
  }

  /** Decisions that differ after a legal run show the eviction. */
  lemma Shows(config: Config, steps: seq<Step>, call: Step)
    requires config.Valid() && call.Acquire?
    requires var start := Start(config, 0.0);
      && Legal(start, steps, 0.0) && InClockOrder(steps + [call], 0.0) && CanScan(Run(start, steps), call)
      && Decision(Run(start, steps), call).Ok? && DecisionForever(RunForever(start, steps), call).Err?
    ensures !EvictionIsHidden(config)
  {
    hide NeverAtCapacity, ScansArePossible, InClockOrder, Next, NextForever, CategoryInv, CanScan, Decision, DecisionForever;
    OneMore(Start(config, 0.0), steps, call, 0.0);
  }

  /** A source that has used up its tokens at time 0. */
  lemma UseUp(config: Config, c: Text, origin: Text) returns (steps: seq<Step>)
    requires config.Valid() && c in config.categories
    requires config.categories[c].globalBurst >= config.categories[c].sourceBurst
    ensures var limits, start := config.categories[c], Start(config, 0.0);
      var left := (limits.globalBurst - limits.sourceBurst) as real;
      BothReady(start, steps, c, NormalizeSource(origin), 0.0, 0.0, 0.0, left, left, limits.sourceBurst)
  {
    hide NormalizeSource, Held, Next, NextForever, CategoryInv, CanScan, Decision, DecisionForever, BothReady;
    var limits, start, s := config.categories[c], Start(config, 0.0), NormalizeSource(origin);
    var call, x, y := Acquire(c, origin, 0.0, {}), limits.sourceBurst as real - 1.0, limits.globalBurst as real - 1.0;
    FirstAsk(config, c, origin);
    assert [] + [call] == [call];
    GrantAndRelease(start, [], call, c, s, x, x, y, y, 0);
    var first := [] + [call, Release(0)];
    DrainBoth(start, first, c, origin, 0.0, x, x, y, y, 1, limits.sourceBurst - 1);
    steps := first + Drain(c, origin, 0.0, 1, limits.sourceBurst - 1);
    assert x - (limits.sourceBurst - 1) as real == 0.0;
    assert y - (limits.sourceBurst - 1) as real == (limits.globalBurst - limits.sourceBurst) as real;
  }

  lemma WholeTokens(earned: real, burst: int, y: real, y2: real) returns (m: nat)
    requires 1.0 <= earned < burst as real && burst as real - 1.0 <= y && burst as real - 1.0 <= y2
    ensures m as real <= earned - 1.0 < m as real + 1.0 <= burst as real - 1.0
    ensures m as real + 1.0 <= y && m as real <= y2
  {
    var whole := earned.Floor;
    assert whole as real <= earned < whole as real + 1.0;
    assert 1 <= whole < burst;
    m := whole - 1;
    assert m as real == whole as real - 1.0;
  }

  /** After its idle time the evicted source is granted calls that the remembered source is refused. */
  lemma EvictionShows(config: Config, c: Text, earned: real)
    requires config.Valid() && c in config.categories
    requires config.categories[c].globalBurst >= 2 * config.categories[c].sourceBurst
    requires config.categories[c].sourceRate * config.idleTtl == earned < config.categories[c].sourceBurst as real
    ensures !EvictionIsHidden(config)
  {
    hide NormalizeSource, Held, Next, NextForever, CategoryInv, CanScan, Decision, DecisionForever, NeverAtCapacity,
         ScansArePossible, InClockOrder, NoLaterThan, EvictionIsHidden;
    var limits, start, ttl, origin := config.categories[c], Start(config, 0.0), config.idleTtl, "client";
    var left := (limits.globalBurst - limits.sourceBurst) as real;
    var call := Ask(c, origin, ttl);
    var steps := UseUp(config, c, origin);
    NoneLaterThan(steps, 0.0, ttl);
    LaterCall(steps, call);
    var y := AskAfterEviction(Run(start, steps), c, origin, 0.0, left);
    var y2 := AskAfterWaiting(RunForever(start, steps), c, origin, left, earned);
    if earned < 1.0 {
      Shows(config, steps, call);
    } else {
      GrantedThenRefused(config, steps, c, origin, earned, y, y2);
    }
  }

  lemma GrantedThenRefused(config: Config, steps: seq<Step>, c: Text, origin: Text, earned: real, y: real, y2: real)
    requires config.Valid() && c in config.categories
    requires var limits, start, call := config.categories[c], Start(config, 0.0), Ask(c, origin, config.idleTtl);
      var burst := limits.sourceBurst;
      && 1.0 <= earned < burst as real && burst as real - 1.0 <= y && burst as real - 1.0 <= y2
      && Legal(start, steps, 0.0) && InClockOrder(steps + [call], 0.0)
      && CanScan(Run(start, steps), call) && Decision(Run(start, steps), call).Ok?
      && Held(Next(Run(start, steps), call), c, NormalizeSource(origin), call.now, burst as real - 1.0, y, burst)
      && Held(NextForever(RunForever(start, steps), call), c, NormalizeSource(origin), call.now, earned - 1.0, y2, burst)
    ensures !EvictionIsHidden(config)
  {
    hide NormalizeSource, Held, Next, NextForever, CategoryInv, CanScan, Decision, DecisionForever, NeverAtCapacity,
         ScansArePossible, InClockOrder, NoLaterThan, EvictionIsHidden, BothReady, Legal;
    var call, burst := Ask(c, origin, config.idleTtl), config.categories[c].sourceBurst;
    GrantAndRelease(Start(config, 0.0), steps, call, c, NormalizeSource(origin), burst as real - 1.0, earned - 1.0,
                    y, y2, burst);
    var m := WholeTokens(earned, burst, y, y2);
    RefusedAtLast(config, steps + [call, Release(burst)], c, origin, burst as real - 1.0, earned - 1.0, y, y2,
                  burst + 1, m);
  }

  lemma RefusedAtLast(config: Config, steps: seq<Step>, c: Text, origin: Text, x: real, x2: real, y: real, y2: real,
                      leases: nat, m: nat)
    requires config.Valid() && c in config.categories
    requires m as real <= x2 < m as real + 1.0 <= x && m as real + 1.0 <= y && m as real <= y2
    requires BothReady(Start(config, 0.0), steps, c, NormalizeSource(origin), config.idleTtl, x, x2, y, y2, leases)
    ensures !EvictionIsHidden(config)
  {
    hide BothReady, NormalizeSource, EvictionIsHidden, Start;
    DrainBoth(Start(config, 0.0), steps, c, origin, config.idleTtl, x, x2, y, y2, leases, m);
    RefusedNow(config, steps + Drain(c, origin, config.idleTtl, leases, m), c, origin, x - m as real, x2 - m as real,
               y - m as real, y2 - m as real, leases + m);
  }

  lemma RefusedNow(config: Config, steps: seq<Step>, c: Text, origin: Text, x: real, x2: real, y: real, y2: real,
                   leases: nat)
    requires config.Valid() && c in config.categories && 1.0 <= x && x2 < 1.0 && 1.0 <= y
    requires BothReady(Start(config, 0.0), steps, c, NormalizeSource(origin), config.idleTtl, x, x2, y, y2, leases)
    ensures !EvictionIsHidden(config)
  {
    hide NormalizeSource, Next, NextForever, CategoryInv, CanScan, Decision, DecisionForever, NeverAtCapacity,
         ScansArePossible, InClockOrder, NoLaterThan, EvictionIsHidden;
    var start, call := Start(config, 0.0), Ask(c, origin, config.idleTtl);
    AskAtOnce(Run(start, steps), c, origin, config.idleTtl, x, y);
    AskTooMuch(RunForever(start, steps), c, origin, config.idleTtl, x2, y2);
    LaterCall(steps, call);
    Shows(config, steps, call);
  }

  /** Eviction cannot be seen exactly when every source bucket refills completely within the idle time, given global
      buckets of at least two source bursts. */
  lemma EvictionIsHiddenIff(config: Config)
    requires config.Valid()
    requires forall c :: c in config.categories ==>
      config.categories[c].globalBurst >= 2 * config.categories[c].sourceBurst
    ensures EvictionIsHidden(config) <==> RefillsWithinTtl(config)
  {
    hide Inv, InClockOrder, NeverAtCapacity, ScansArePossible, Decision, DecisionForever;
    if RefillsWithinTtl(config) {
      forall t0: real, steps: seq<Step>, call: Step | call.Acquire? && Legal(Start(config, t0), steps + [call], t0)
        ensures Decision(Run(Start(config, t0), steps), call)
             == DecisionForever(RunForever(Start(config, t0), steps), call)
      {
        EvictionIsInvisible(config, steps, call, t0);
      }
    } else {
      var c :| c in config.categories
        && config.categories[c].sourceRate * config.idleTtl < config.categories[c].sourceBurst as real;
      EvictionShows(config, c, config.categories[c].sourceRate * config.idleTtl);
    }
  }

  /** With the limits the server starts with, eviction cannot be seen. */
  lemma DefaultsHideEviction()
    ensures DefaultConfig().Valid() && EvictionIsHidden(DefaultConfig())
  {
    hide EvictionIsHidden;
    assert "webauthn" in DefaultConfig().categories;
    EvictionIsHiddenIff(DefaultConfig());
  }
}
