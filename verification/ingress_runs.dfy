/** What the admission policy guarantees in every run: conservation of in-flight counts, the rate bound, and that
    evicting idle sources cannot be seen from outside. */
module IngressRuns {
  import opened GoText
  import opened Wrappers
  import opened IngressPolicy

  datatype Step =
    | Acquire(category: Text, origin: Text, now: real, scanned: set<Text>)
    | Release(lease: nat)

  function Next(p: Policy, step: Step): Policy
    requires p.Shaped()
  {
    match step
    case Acquire(category, origin, now, scanned) => AcquireStep(p, category, origin, now, scanned).0
    case Release(lease) =>
      if lease < |p.leases| && p.leases[lease].category in p.categories then ReleaseStep(p, lease) else p
  }

  // ---------- Tokens and leases ----------

  ghost predicate BucketInv(b: Bucket, burst: int) {
    0.0 <= b.tokens <= burst as real
  }

  ghost predicate CategoryInv(p: Policy, c: Text)
    requires p.Shaped() && c in p.categories
  {
    var limits, state := p.config.categories[c], p.categories[c];
    && BucketInv(state.global, limits.globalBurst)
    && (forall s :: s in state.sources ==> BucketInv(state.sources[s], limits.sourceBurst))
    && state.inFlight == OpenIn(p.leases, c)
  }

  /** The unreleased leases of a category, and of all categories. */
  function OpenIn(leases: seq<Lease>, c: Text): nat {
    if leases == [] then 0 else
      OpenIn(leases[..|leases| - 1], c)
      + (if leases[|leases| - 1].category == c && !leases[|leases| - 1].released then 1 else 0)
  }

  function OpenLeases(leases: seq<Lease>): nat {
    if leases == [] then 0 else
      OpenLeases(leases[..|leases| - 1]) + (if leases[|leases| - 1].released then 0 else 1)
  }

  ghost predicate Inv(p: Policy) {
    && p.Shaped()
    && (forall c :: c in p.categories ==> CategoryInv(p, c))
    && (forall i :: 0 <= i < |p.leases| ==> p.leases[i].category in p.categories)
    && p.globalInFlight == OpenLeases(p.leases)
  }

  lemma {:induction false} ReleaseCounts(leases: seq<Lease>, i: nat, c: Text)
    requires i < |leases| && !leases[i].released
    ensures var after := leases[i := Lease(leases[i].category, true)];
      && OpenLeases(after) == OpenLeases(leases) - 1
      && OpenIn(after, c) == OpenIn(leases, c) - (if leases[i].category == c then 1 else 0)
  {
    var n := |leases| - 1;
    var after := leases[i := Lease(leases[i].category, true)];
    if i < n {
      ReleaseCounts(leases[..n], i, c);
      assert after[..n] == leases[..n][i := Lease(leases[i].category, true)];
    } else {
      assert after[..n] == leases[..n];
    }
  }

  lemma RefillInRange(b: Bucket, rate: real, burst: int, now: real)
    requires BucketInv(b, burst) && rate > 0.0
    ensures BucketInv(Refill(b, rate, burst, now), burst) && Refill(b, rate, burst, now).tokens >= b.tokens
  {
    if now - b.last > 0.0 { assert (now - b.last) * rate >= 0.0; }
  }

  lemma CleanKeepsInv(p: Policy, c: Text, scanned: set<Text>, now: real)
    requires Inv(p) && c in p.categories
    ensures var sources := Clean(p.categories[c].sources, scanned, now, p.config.idleTtl);
      && sources.Keys <= p.categories[c].sources.Keys
      && forall s :: s in sources ==> BucketInv(sources[s], p.config.categories[c].sourceBurst)
  {
    assert CategoryInv(p, c);
  }

  /** Replacing one category, and adding a lease of it, keeps the invariant. */
  lemma ReplaceKeepsInv(p: Policy, p': Policy, c: Text)
    requires Inv(p) && c in p.categories && c in p'.categories && p'.config == p.config
    requires p'.categories == p.categories[c := p'.categories[c]]
    requires p'.Shaped() && BucketInv(p'.categories[c].global, p.config.categories[c].globalBurst)
    requires forall s :: s in p'.categories[c].sources ==>
      BucketInv(p'.categories[c].sources[s], p.config.categories[c].sourceBurst)
    requires || (p'.leases == p.leases && p'.globalInFlight == p.globalInFlight
                 && p'.categories[c].inFlight == p.categories[c].inFlight)
             || (p'.leases == p.leases + [Lease(c, false)] && p'.globalInFlight == p.globalInFlight + 1
                 && p'.categories[c].inFlight == p.categories[c].inFlight + 1)
    ensures Inv(p')
  {
    if p'.leases != p.leases { assert p'.leases[..|p.leases|] == p.leases; }
    forall d | d in p'.categories ensures CategoryInv(p', d) {
      assert CategoryInv(p, d);
    }
  }

  lemma ChargeKeepsInv(p: Policy, c: Text, source: Text, now: real, sources: map<Text, Bucket>)
    requires Inv(p) && c in p.categories
    requires forall s :: s in sources ==> BucketInv(sources[s], p.config.categories[c].sourceBurst)
    ensures Inv(Charge(p, c, source, now, sources).0)
  {
    hide Refill;
    assert CategoryInv(p, c);
    var limits, state := p.config.categories[c], p.categories[c];
    var known := if source in sources then sources[source] else NewBucket(limits.sourceBurst, now);
    RefillInRange(state.global, limits.globalRate, limits.globalBurst, now);
    RefillInRange(known, limits.sourceRate, limits.sourceBurst, now);
    ReplaceKeepsInv(p, Charge(p, c, source, now, sources).0, c);
  }

  lemma NextKeepsInv(p: Policy, step: Step)
    requires Inv(p)
    ensures Inv(Next(p, step))
  {
    hide Clean, Charge, NormalizeSource, BucketInv;
    match step
    case Acquire(c, origin, now, scanned) =>
      if c in p.categories {
        assert CategoryInv(p, c);
        var sources := Clean(p.categories[c].sources, scanned, now, p.config.idleTtl);
        CleanKeepsInv(p, c, scanned, now);
        ChargeKeepsInv(p, c, NormalizeSource(origin), now, sources);
        ReplaceKeepsInv(p, p.(categories := p.categories[c := p.categories[c].(sources := sources)]), c);
      }
      RejectionsAreIrrelevant();
    case Release(lease) => ReleaseKeepsInv(p, lease);
  }

  lemma RejectionsAreIrrelevant()
    ensures forall p': Policy, c, reason ::
      Inv(p') ==> Inv(RejectStep(p', c, reason).0)
  {
    forall p': Policy, c, reason | Inv(p') ensures Inv(RejectStep(p', c, reason).0) {
      var r := RejectStep(p', c, reason).0;
      forall d | d in r.categories ensures CategoryInv(r, d) {
        assert CategoryInv(p', d);
      }
    }
  }

  lemma ReleaseKeepsInv(p: Policy, lease: nat)
    requires Inv(p)
    ensures Inv(Next(p, Release(lease)))
  {
    if lease < |p.leases| && !p.leases[lease].released {
      var p' := Next(p, Release(lease));
      forall d | d in p'.categories ensures CategoryInv(p', d) {
        assert CategoryInv(p, d);
        ReleaseCounts(p.leases, lease, d);
      }
      ReleaseCounts(p.leases, lease, p.leases[lease].category);
    }
  }

  function Run(p: Policy, steps: seq<Step>): (r: Policy)
    requires Inv(p)
    ensures Inv(r) && r.config == p.config && r.categories.Keys == p.categories.Keys
  {
    if steps == [] then p else
      var before := Run(p, steps[..|steps| - 1]);
      NextKeepsInv(before, steps[|steps| - 1]);
      NextKeepsConfig(before, steps[|steps| - 1]);
      Next(before, steps[|steps| - 1])
  }

  lemma NextKeepsConfig(p: Policy, step: Step)
    requires p.Shaped()
    ensures Next(p, step).config == p.config && Next(p, step).categories.Keys == p.categories.Keys
  {
    hide NormalizeSource, Clean, Refill;
  }

  lemma NewPolicyHoldsInv(config: Config, now: real)
    requires config.Valid()
    ensures Inv(NewPolicy(config, now))
  {
  }

  // ---------- In-flight operations are conserved ----------

  function OpenAmong(leases: seq<Lease>, keys: set<Text>): nat {
    if leases == [] then 0 else
      OpenAmong(leases[..|leases| - 1], keys)
      + (if leases[|leases| - 1].category in keys && !leases[|leases| - 1].released then 1 else 0)
  }

  lemma {:induction false} OpenSplits(leases: seq<Lease>, keys: set<Text>, c: Text)
    requires c in keys
    ensures OpenAmong(leases, keys) == OpenIn(leases, c) + OpenAmong(leases, keys - {c})
  {
    if leases != [] { OpenSplits(leases[..|leases| - 1], keys, c); }
  }

  lemma {:induction false} OpenNowhere(leases: seq<Lease>)
    ensures OpenAmong(leases, {}) == 0
  {
    if leases != [] { OpenNowhere(leases[..|leases| - 1]); }
  }

  lemma {:induction false} OpenEverywhere(leases: seq<Lease>, keys: set<Text>)
    requires forall i :: 0 <= i < |leases| ==> leases[i].category in keys
    ensures OpenAmong(leases, keys) == OpenLeases(leases)
  {
    if leases != [] { OpenEverywhere(leases[..|leases| - 1], keys); }
  }

  ghost function SumInFlight(p: Policy, keys: set<Text>): (n: nat)
    requires Inv(p) && keys <= p.categories.Keys
    ensures n == OpenAmong(p.leases, keys)
  {
    if keys == {} then OpenNowhere(p.leases); 0 else
      var c :| c in keys;
      OpenSplits(p.leases, keys, c);
      assert CategoryInv(p, c);
      p.categories[c].inFlight + SumInFlight(p, keys - {c})
  }

  /** In every run, the global count of operations in flight is the sum over the categories and the number of leases
      not yet released. */
  lemma InFlightIsConserved(config: Config, now: real, steps: seq<Step>)
    requires config.Valid()
    ensures Inv(NewPolicy(config, now))
    ensures var p := Run(NewPolicy(config, now), steps);
      p.globalInFlight == SumInFlight(p, p.categories.Keys) == OpenLeases(p.leases)
  {
    NewPolicyHoldsInv(config, now);
    var p := Run(NewPolicy(config, now), steps);
    OpenEverywhere(p.leases, p.categories.Keys);
  }

  /** In every run, whatever the clock does, the tokens of every bucket stay between nothing and its burst, and a
      category's count is that of its open leases. */
  lemma TokensStayInRange(config: Config, now: real, steps: seq<Step>, c: Text)
    requires config.Valid() && c in config.categories
    ensures Inv(NewPolicy(config, now))
    ensures var p := Run(NewPolicy(config, now), steps);
      && c in p.categories
      && 0.0 <= p.categories[c].global.tokens <= config.categories[c].globalBurst as real
      && (forall s :: s in p.categories[c].sources ==>
            0.0 <= p.categories[c].sources[s].tokens <= config.categories[c].sourceBurst as real)
      && p.categories[c].inFlight == OpenIn(p.leases, c)
  {
    NewPolicyHoldsInv(config, now);
    assert CategoryInv(Run(NewPolicy(config, now), steps), c);
  }

  // ---------- Limits ----------

  /** No count exceeds its limit. */
  ghost predicate KeepsLimits(p: Policy)
    requires p.Shaped()
  {
    && p.globalInFlight <= p.config.globalMaxInFlight
    && forall c :: c in p.categories ==> p.categories[c].inFlight <= p.config.categories[c].maxInFlight
  }

  lemma StepKeepsLimits(p: Policy, step: Step)
    requires Inv(p) && KeepsLimits(p)
    ensures Next(p, step).Shaped() && KeepsLimits(Next(p, step))
  {
    hide NormalizeSource, Clean, Refill, CategoryInv;
  }

  /** In every run, the operations in flight never exceed the global limit, nor a category's its own. */
  lemma {:induction false} LimitsHold(config: Config, now: real, steps: seq<Step>)
    requires config.Valid()
    ensures Inv(NewPolicy(config, now))
    ensures var p := Run(NewPolicy(config, now), steps);
      && KeepsLimits(p) && p.globalInFlight <= config.globalMaxInFlight
      && (forall c :: c in config.categories ==>
            c in p.categories && p.categories[c].inFlight <= config.categories[c].maxInFlight)
  {
    hide Inv, Next;
    NewPolicyHoldsInv(config, now);
    if steps != [] {
      var n := |steps| - 1;
      LimitsHold(config, now, steps[..n]);
      StepKeepsLimits(Run(NewPolicy(config, now), steps[..n]), steps[n]);
    }
  }

  /** The sources that a scan leaves: all but those that it has looked at and found idle. */
  ghost function Left(p: Policy, c: Text, scanned: set<Text>, now: real): set<Text>
    requires p.Shaped() && c in p.categories
  {
    var sources := p.categories[c].sources;
    set s | s in sources && (s in scanned ==> now - sources[s].lastSeen < p.config.idleTtl)
  }

  /** Each refusal has its one reason, looked for in this order: the category is unknown, a count is at its limit, a new
      source finds no place, or one of the two buckets has less than one token left. Any other call is accepted. */
  lemma DecidesInOrder(p: Policy, c: Text, origin: Text, now: real, scanned: set<Text>)
    requires Inv(p)
    ensures var r, source := AcquireStep(p, c, origin, now, scanned).1, NormalizeSource(origin);
      if c !in p.categories then r == Err(UnknownCategory)
      else
        var limits, state, left := p.config.categories[c], p.categories[c], Left(p, c, scanned, now);
        if p.globalInFlight >= p.config.globalMaxInFlight || state.inFlight >= limits.maxInFlight then
          r == Err(ConcurrencyLimited)
        else if source !in left && |left| >= p.config.maxSources then r == Err(SourceCapacity)
        else if Available(state.global, limits.globalRate, limits.globalBurst, now) < 1.0
                || (source in left
                    && Available(state.sources[source], limits.sourceRate, limits.sourceBurst, now) < 1.0)
          then r == Err(RateLimited)
        else r == Ok(|p.leases|)
  {
    hide NormalizeSource, Available, Refill, BucketInv;
    if c in p.categories {
      var limits, state, source := p.config.categories[c], p.categories[c], NormalizeSource(origin);
      var sources := Clean(state.sources, scanned, now, p.config.idleTtl);
      assert CategoryInv(p, c);
      assert sources.Keys == Left(p, c, scanned, now);
      RefilledIsAvailable(state.global, limits.globalRate, limits.globalBurst, now);
      NewBucketIsFull(limits.sourceBurst, limits.sourceRate, now);
      if source in sources {
        RefilledIsAvailable(state.sources[source], limits.sourceRate, limits.sourceBurst, now);
      }
    }
  }

  lemma ChargeFiles(p: Policy, c: Text, source: Text, now: real, sources: map<Text, Bucket>)
    requires p.Shaped() && c in p.categories
    ensures var p' := Charge(p, c, source, now, sources).0;
      c in p'.categories && p'.categories[c].sources.Keys == sources.Keys + {source}
  {
    hide Refill;
  }

  /** A call that gets as far as the cleanup drops exactly the sources that it has looked at and found idle, and then
      files its own source, unless there is no place for it; any other call leaves the sources alone. */
  lemma EvictsExactly(p: Policy, c: Text, origin: Text, now: real, scanned: set<Text>)
    requires Inv(p) && c in p.categories
    ensures var (p', r) := AcquireStep(p, c, origin, now, scanned);
      c in p'.categories
        && p'.categories[c].sources.Keys ==
           if r == Err(ConcurrencyLimited) then p.categories[c].sources.Keys
           else if r == Err(SourceCapacity) then Left(p, c, scanned, now)
           else Left(p, c, scanned, now) + {NormalizeSource(origin)}
  {
    var sources, source := Clean(p.categories[c].sources, scanned, now, p.config.idleTtl), NormalizeSource(origin);
    assert sources.Keys == Left(p, c, scanned, now);
    ChargeFiles(p, c, source, now, sources);
    ChargeDecides(p, c, source, now, sources);
    hide NormalizeSource, CategoryInv, Charge, Clean, Left, Inv;
  }

  lemma ChargeDecides(p: Policy, c: Text, source: Text, now: real, sources: map<Text, Bucket>)
    requires p.Shaped() && c in p.categories
    ensures var r := Charge(p, c, source, now, sources).1; r.Ok? || r == Err(RateLimited)
  {
    hide Refill;
  }

  /** A source's label is never empty and never long: "unknown" for a blank source, and otherwise the trimmed source, cut
      off after 128 bytes. */
  lemma LabelIsBounded(origin: Text)
    ensures var kept, trimmed := NormalizeSource(origin), TrimSpace(origin);
      && 1 <= |kept| <= 128
      && if Blank(origin) then kept == "unknown" else kept <= trimmed && (kept == trimmed || |kept| == 128)
  {
    hide TrimSpace;
  }

  // ---------- Rejections are counted ----------

  function Counted(p: Policy, c: Text, reason: Reason): nat {
    var key := (c, reason);
    if key in p.rejections then p.rejections[key] else 0
  }

  ghost function Rejected(p: Policy, steps: seq<Step>, c: Text, reason: Reason): nat
    requires Inv(p)
  {
    if steps == [] then 0 else
      var before, last := Run(p, steps[..|steps| - 1]), steps[|steps| - 1];
      Rejected(p, steps[..|steps| - 1], c, reason)
      + (if last.Acquire? && last.category == c
            && AcquireStep(before, c, last.origin, last.now, last.scanned).1 == Err(reason) then 1 else 0)
  }

  lemma StepCounts(p: Policy, step: Step, c: Text, reason: Reason)
    requires Inv(p)
    ensures Counted(Next(p, step), c, reason) == Counted(p, c, reason)
      + (if step.Acquire? && step.category == c
            && AcquireStep(p, c, step.origin, step.now, step.scanned).1 == Err(reason) then 1 else 0)
  {
    hide NormalizeSource, Clean, Refill, CategoryInv;
  }

  /** In every run, the counter of a category and a reason is the number of calls rejected there for that reason. */
  lemma {:induction false} RejectionsAreCounted(p: Policy, steps: seq<Step>, c: Text, reason: Reason)
    requires Inv(p)
    ensures Counted(Run(p, steps), c, reason) == Counted(p, c, reason) + Rejected(p, steps, c, reason)
  {
    hide Next, Inv;
    if steps != [] {
      RejectionsAreCounted(p, steps[..|steps| - 1], c, reason);
      StepCounts(Run(p, steps[..|steps| - 1]), steps[|steps| - 1], c, reason);
    }
  }

  lemma NewBucketIsFull(burst: int, rate: real, now: real)
    ensures Refill(NewBucket(burst, now), rate, burst, now).tokens == burst as real
  {
  }

  /** The source's bucket as the call finds it: known or new, and brought up to date. */
  function Known(sources: map<Text, Bucket>, source: Text, limits: Limits, now: real): Bucket {
    Refill(if source in sources then sources[source] else NewBucket(limits.sourceBurst, now),
           limits.sourceRate, limits.sourceBurst, now)
  }

  /** What a call leaves alone: everything but the rejection counts for a category that is not configured, and the
      other categories and the other sources, save those evicted, for one that is. */
  lemma OthersAreUntouched(p: Policy, c: Text, origin: Text, now: real, scanned: set<Text>)
    requires Inv(p)
    ensures var p' := AcquireStep(p, c, origin, now, scanned).0;
      && p'.categories.Keys == p.categories.Keys
      && (c !in p.categories ==> p' == p.(rejections := p'.rejections))
      && (forall d :: d in p.categories && d != c ==> p'.categories[d] == p.categories[d])
    ensures c in p.categories ==>
      var before, after := p.categories[c], AcquireStep(p, c, origin, now, scanned).0.categories[c];
      forall s :: s in before.sources && s != NormalizeSource(origin) ==>
        if s in after.sources then after.sources[s] == before.sources[s]
        else s in scanned && Idle(before.sources[s], now, p.config.idleTtl)
  {
    hide NormalizeSource, Refill, CategoryInv, Idle;
  }

  /** An accepted call takes exactly one token from its category's bucket and one from its source's. */
  lemma AcceptanceSpendsOne(p: Policy, c: Text, origin: Text, now: real, scanned: set<Text>)
    requires Inv(p) && AcquireStep(p, c, origin, now, scanned).1.Ok?
    ensures c in p.categories
    ensures var p', limits, source := AcquireStep(p, c, origin, now, scanned).0, p.config.categories[c], NormalizeSource(origin);
      var before, after := p.categories[c], p'.categories[c];
      var global := Refill(before.global, limits.globalRate, limits.globalBurst, now);
      var bucket := Known(Clean(before.sources, scanned, now, p.config.idleTtl), source, limits, now);
      && after.global == global.(tokens := global.tokens - 1.0) && after.global.tokens >= 0.0
      && source in after.sources && after.sources[source] == bucket.(tokens := bucket.tokens - 1.0)
      && after.sources[source].tokens >= 0.0
  {
    hide NormalizeSource, Refill, CategoryInv, Clean;
  }

  /** A rejected call takes no token from any bucket. */
  lemma RejectionSpendsNothing(p: Policy, c: Text, origin: Text, now: real, scanned: set<Text>)
    requires Inv(p) && c in p.categories && AcquireStep(p, c, origin, now, scanned).1.Err?
    ensures var p', source := AcquireStep(p, c, origin, now, scanned).0, NormalizeSource(origin);
      var before, after := p.categories[c], p'.categories[c];
      && after.global.tokens >= before.global.tokens
      && (source in before.sources && source in after.sources ==>
            after.sources[source].tokens >= before.sources[source].tokens)
  {
    assert CategoryInv(p, c);
    hide NormalizeSource, Refill, CategoryInv, BucketInv;
    var limits, state, source := p.config.categories[c], p.categories[c], NormalizeSource(origin);
    RefillInRange(state.global, limits.globalRate, limits.globalBurst, now);
    if source in state.sources {
      RefillInRange(state.sources[source], limits.sourceRate, limits.sourceBurst, now);
      RefillInRange(NewBucket(limits.sourceBurst, now), limits.sourceRate, limits.sourceBurst, now);
    }
  }

  // ---------- The rate bound ----------

  function Positive(x: real): real { if x > 0.0 then x else 0.0 }

  /** The tokens a bucket has at time t. */
  function Available(b: Bucket, rate: real, burst: int, t: real): real {
    MinReal(burst as real, b.tokens + rate * Positive(t - b.last))
  }

  lemma EarnsAtMost(rate: real, x: real, y: real, d: real)
    requires rate > 0.0 && y <= x + d
    ensures rate * y <= rate * x + rate * d
  {
    var spare := x + d - y;
    assert rate * spare >= 0.0;
    assert rate * spare == rate * x + rate * d - rate * y;
  }

  lemma AvailableGrows(b: Bucket, rate: real, burst: int, t: real, u: real)
    requires rate > 0.0 && t <= u
    ensures Available(b, rate, burst, u) <= Available(b, rate, burst, t) + rate * (u - t)
  {
    EarnsAtMost(rate, Positive(t - b.last), Positive(u - b.last), u - t);
    EarnsAtMost(rate, 0.0, 0.0, u - t);
  }

  lemma RefilledIsAvailable(b: Bucket, rate: real, burst: int, now: real)
    requires rate > 0.0 && BucketInv(b, burst)
    ensures var r := Refill(b, rate, burst, now);
      r.tokens == Available(b, rate, burst, now) && Positive(now - r.last) == 0.0
  {
    assert rate * 0.0 == 0.0;
    assert (now - b.last) * rate == rate * (now - b.last);
  }

  ghost predicate Admits(p: Policy, step: Step, c: Text)
    requires p.Shaped()
  {
    step.Acquire? && step.category == c && AcquireStep(p, c, step.origin, step.now, step.scanned).1.Ok?
  }

  ghost function Admitted(p: Policy, steps: seq<Step>, c: Text): nat
    requires Inv(p)
  {
    if steps == [] then 0 else
      Admitted(p, steps[..|steps| - 1], c)
      + (if Admits(Run(p, steps[..|steps| - 1]), steps[|steps| - 1], c) then 1 else 0)
  }

  /** The acquisitions happen in clock order, between t0 and t1. */
  ghost predicate Within(steps: seq<Step>, t0: real, t1: real) {
    && (forall i :: 0 <= i < |steps| && steps[i].Acquire? ==> t0 <= steps[i].now <= t1)
    && (forall i, j :: 0 <= i < j < |steps| && steps[i].Acquire? && steps[j].Acquire? ==> steps[i].now <= steps[j].now)
  }

  /** The tokens a category's global bucket has at time t. */
  ghost function Budget(p: Policy, c: Text, t: real): real
    requires p.Shaped() && c in p.categories
  {
    var limits := p.config.categories[c];
    Available(p.categories[c].global, limits.globalRate, limits.globalBurst, t)
  }

  lemma BudgetGrows(p: Policy, c: Text, t: real, u: real)
    requires p.Shaped() && c in p.categories && t <= u
    ensures Budget(p, c, u) <= Budget(p, c, t) + p.config.categories[c].globalRate * (u - t)
  {
    hide Available;
    var limits := p.config.categories[c];
    AvailableGrows(p.categories[c].global, limits.globalRate, limits.globalBurst, t, u);
  }

  lemma BudgetInRange(p: Policy, c: Text, t: real)
    requires Inv(p) && c in p.categories
    ensures 0.0 <= Budget(p, c, t) <= p.config.categories[c].globalBurst as real
  {
    assert CategoryInv(p, c);
    var limits, b := p.config.categories[c], p.categories[c].global;
    assert limits.globalRate * Positive(t - b.last) >= 0.0;
  }

  /** The category's bucket after a step: spent from if the step is admitted, and otherwise at most refilled. */
  lemma GlobalMoves(p: Policy, step: Step, c: Text)
    requires Inv(p) && c in p.categories && step.Acquire?
    ensures Next(p, step).Shaped() && c in Next(p, step).categories
    ensures var limits, before, after := p.config.categories[c], p.categories[c].global, Next(p, step).categories[c].global;
      var refilled := Refill(before, limits.globalRate, limits.globalBurst, step.now);
      if Admits(p, step, c) then after == Spend(refilled) else after == before || after == refilled
    ensures Next(p, step).config == p.config
  {
    hide NormalizeSource, Clean, Refill, CategoryInv;
  }

  /** One step takes what it admits from the budget at its time. */
  lemma StepTakesTokens(p: Policy, step: Step, c: Text)
    requires Inv(p) && c in p.categories && step.Acquire?
    ensures Next(p, step).Shaped() && c in Next(p, step).categories
    ensures Budget(Next(p, step), c, step.now) <= Budget(p, c, step.now) - (if Admits(p, step, c) then 1.0 else 0.0)
  {
    assert CategoryInv(p, c);
    GlobalMoves(p, step, c);
    hide Next, Admits, Refill, CategoryInv;
    var limits, b := p.config.categories[c], p.categories[c].global;
    RefilledIsAvailable(b, limits.globalRate, limits.globalBurst, step.now);
    assert limits.globalRate * 0.0 == 0.0;
  }

  lemma ReleaseKeepsBudget(p: Policy, step: Step, c: Text, t: real)
    requires Inv(p) && c in p.categories && step.Release?
    ensures Next(p, step).Shaped() && c in Next(p, step).categories
    ensures Budget(Next(p, step), c, t) == Budget(p, c, t) && !Admits(p, step, c)
  {
    hide Available, CategoryInv;
  }

  lemma Earned(rate: real, t0: real, u: real, t: real)
    ensures rate * (t - t0) == rate * (u - t0) + rate * (t - u)
  {
  }

  lemma WithinPrefix(steps: seq<Step>, t0: real, t: real)
    requires Within(steps, t0, t) && steps != []
    ensures var before, last := steps[..|steps| - 1], steps[|steps| - 1];
      Within(before, t0, t) && (last.Acquire? ==> t0 <= last.now <= t && Within(before, t0, last.now))
  {
  }

  lemma {:induction false} TokensBoundAdmissions(p: Policy, steps: seq<Step>, c: Text, t0: real, t: real)
    requires Inv(p) && c in p.categories && Within(steps, t0, t) && t0 <= t
    ensures Admitted(p, steps, c) as real + Budget(Run(p, steps), c, t)
         <= Budget(p, c, t0) + p.config.categories[c].globalRate * (t - t0)
  {
    hide Budget, Next, Admits, CategoryInv, Within;
    if steps == [] {
      BudgetGrows(p, c, t0, t);
    } else {
      var n := |steps| - 1;
      var before, step := Run(p, steps[..n]), steps[n];
      WithinPrefix(steps, t0, t);
      if step.Acquire? {
        TokensBoundAdmissions(p, steps[..n], c, t0, step.now);
        StepTakesTokens(before, step, c);
        BudgetGrows(Run(p, steps), c, step.now, t);
        Earned(p.config.categories[c].globalRate, t0, step.now, t);
      } else {
        TokensBoundAdmissions(p, steps[..n], c, t0, t);
        ReleaseKeepsBudget(before, step, c, t);
      }
    }
  }

  /** In any interval from t0 to t1, a category admits at most GlobalBurst + GlobalRate * (t1 - t0) operations,
      whatever happened before. */
  lemma RateBound(p: Policy, steps: seq<Step>, c: Text, t0: real, t1: real)
    requires Inv(p) && c in p.categories && Within(steps, t0, t1) && t0 <= t1
    ensures Admitted(p, steps, c) as real
         <= p.config.categories[c].globalBurst as real + p.config.categories[c].globalRate * (t1 - t0)
  {
    hide Budget, CategoryInv;
    TokensBoundAdmissions(p, steps, c, t0, t1);
    BudgetInRange(p, c, t0);
    BudgetInRange(Run(p, steps), c, t1);
  }
}
