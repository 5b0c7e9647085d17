/** Admission control at the public entry points: token buckets per source and per category, with eviction of idle
    sources and leases for operations in flight. */
module IngressPolicy {
  import opened GoText
  import opened Wrappers

  const MAX_SOURCE_LABEL := 128

  datatype Limits = Limits(sourceRate: real, sourceBurst: int, globalRate: real, globalBurst: int, maxInFlight: int) {
    predicate Valid() {
      sourceRate > 0.0 && globalRate > 0.0 && sourceBurst > 0 && globalBurst > 0 && maxInFlight > 0
    }
  }

  /** Times and rates are in seconds. */
  datatype Config = Config(
    globalMaxInFlight: int, maxSources: int, idleTtl: real, cleanupBudget: int, categories: map<Text, Limits>)
  {
    predicate Valid() {
      && globalMaxInFlight > 0 && maxSources > 0 && idleTtl > 0.0 && cleanupBudget > 0 && categories != map[]
      && forall c :: c in categories ==> c != "" && categories[c].Valid()
    }
  }

  /** The limits of a single-administrator server; an idle source is kept for 15 minutes. */
  function DefaultConfig(): Config {
    Config(128, 4096, 900.0, 32, map[
      "webauthn" := Limits(0.25, 8, 4.0, 32, 16),
      "bootstrap" := Limits(0.10, 4, 1.0, 16, 8),
      "pairing" := Limits(0.10, 6, 2.0, 24, 12),
      "ws-terminal" := Limits(0.50, 8, 8.0, 64, 64),
      "ws-peer-control" := Limits(0.25, 6, 4.0, 32, 64),
      "ws-peer-pty" := Limits(0.50, 8, 8.0, 64, 64)])
  }

  datatype Reason = RateLimited | ConcurrencyLimited | SourceCapacity | UnknownCategory | InvalidConfig

  datatype Bucket = Bucket(tokens: real, last: real, lastSeen: real)

  function NewBucket(burst: int, now: real): Bucket {
    Bucket(burst as real, now, now)
  }

  function MinReal(a: real, b: real): real { if a < b then a else b }

  function Refill(b: Bucket, rate: real, burst: int, now: real): Bucket {
    var elapsed := now - b.last;
    if elapsed > 0.0 then Bucket(MinReal(burst as real, b.tokens + elapsed * rate), now, now)
    else b.(lastSeen := now)
  }

  function Spend(b: Bucket): Bucket { b.(tokens := b.tokens - 1.0) }

  datatype Category = Category(global: Bucket, sources: map<Text, Bucket>, inFlight: nat)

  /** One accepted operation; releasing it twice has no further effect. */
  datatype Lease = Lease(category: Text, released: bool)

  datatype Policy = Policy(
    config: Config, categories: map<Text, Category>, globalInFlight: nat, leases: seq<Lease>,
    rejections: map<(Text, Reason), nat>)
  {
    predicate Shaped() {
      config.Valid() && categories.Keys == config.categories.Keys
    }
  }

  function NewPolicy(config: Config, now: real): (p: Policy)
    requires config.Valid()
    ensures p.Shaped()
  {
    Policy(config, map c | c in config.categories ::
      Category(NewBucket(config.categories[c].globalBurst, now), map[], 0), 0, [], map[])
  }

  function NormalizeSource(source: Text): Text {
    var trimmed := TrimSpace(source);
    if trimmed == "" then "unknown"
    else if |trimmed| > MAX_SOURCE_LABEL then trimmed[..MAX_SOURCE_LABEL]
    else trimmed
  }

  function RejectStep(p: Policy, category: Text, reason: Reason): (Policy, Result<nat, Reason>) {
    var key := (category, reason);
    (p.(rejections := p.rejections[key := if key in p.rejections then p.rejections[key] + 1 else 1]), Err(reason))
  }

  predicate Busy(p: Policy, category: Text)
    requires p.Shaped() && category in p.categories
  {
    || p.globalInFlight >= p.config.globalMaxInFlight
    || p.categories[category].inFlight >= p.config.categories[category].maxInFlight
  }

  function Idle(b: Bucket, now: real, ttl: real): bool {
    now - b.lastSeen >= ttl
  }

  /** The sources left after the `scanned` ones have been looked at. */
  function Clean(sources: map<Text, Bucket>, scanned: set<Text>, now: real, ttl: real): map<Text, Bucket> {
    map s | s in sources && !(s in scanned && Idle(sources[s], now, ttl)) :: sources[s]
  }

  /** The two buckets brought up to date, and the charge if both hold a token. */
  function Charge(p: Policy, category: Text, source: Text, now: real, sources: map<Text, Bucket>):
    (Policy, Result<nat, Reason>)
    requires p.Shaped() && category in p.categories
  {
    var limits, state := p.config.categories[category], p.categories[category];
    var known := if source in sources then sources[source] else NewBucket(limits.sourceBurst, now);
    var global := Refill(state.global, limits.globalRate, limits.globalBurst, now);
    var bucket := Refill(known, limits.sourceRate, limits.sourceBurst, now);
    if global.tokens < 1.0 || bucket.tokens < 1.0 then
      RejectStep(p.(categories := p.categories[category := Category(global, sources[source := bucket], state.inFlight)]),
             category, RateLimited)
    else
      var charged := Category(Spend(global), sources[source := Spend(bucket)], state.inFlight + 1);
      (p.(categories := p.categories[category := charged], globalInFlight := p.globalInFlight + 1,
          leases := p.leases + [Lease(category, false)]),
       Ok(|p.leases|))
  }

  /** The policy's admission decision; `scanned` are the sources the bounded cleanup happened to look at. */
  function AcquireStep(p: Policy, category: Text, origin: Text, now: real, scanned: set<Text>): (Policy, Result<nat, Reason>)
    requires p.Shaped()
  {
    if category !in p.categories then RejectStep(p, category, UnknownCategory)
    else if Busy(p, category) then RejectStep(p, category, ConcurrencyLimited)
    else
      var sources := Clean(p.categories[category].sources, scanned, now, p.config.idleTtl);
      var source := NormalizeSource(origin);
      if source !in sources && |sources| >= p.config.maxSources then
        RejectStep(p.(categories := p.categories[category := p.categories[category].(sources := sources)]),
               category, SourceCapacity)
      else Charge(p, category, source, now, sources)
  }

  function Decremented(n: nat): nat { if n > 0 then n - 1 else 0 }

  function ReleaseStep(p: Policy, lease: nat): Policy
    requires lease < |p.leases| && p.leases[lease].category in p.categories
  {
    if p.leases[lease].released then p else
      var c := p.leases[lease].category;
      p.(leases := p.leases[lease := Lease(c, true)], globalInFlight := Decremented(p.globalInFlight),
         categories := p.categories[c := p.categories[c].(inFlight := Decremented(p.categories[c].inFlight))])
  }

  lemma CleanNothing(sources: map<Text, Bucket>, now: real, ttl: real)
    ensures Clean(sources, {}, now, ttl) == sources
  {
  }

  lemma CleanOneMore(sources: map<Text, Bucket>, scanned: set<Text>, source: Text, now: real, ttl: real)
    requires source in sources && source !in scanned
    ensures Clean(sources, scanned + {source}, now, ttl)
         == if Idle(sources[source], now, ttl) then Clean(sources, scanned, now, ttl) - {source}
            else Clean(sources, scanned, now, ttl)
  {
  }

  lemma Partition(all: set<Text>, rest: set<Text>, scanned: set<Text>)
    requires rest <= all && scanned == all - rest
    ensures |all| == |rest| + |scanned| && (rest == {} ==> scanned == all)
  {
    assert all == rest + scanned;
  }

  class IngressPolicy {
    const config: Config
    var categories: map<Text, Category>
    var globalInFlight: nat
    var leases: seq<Lease>
    var rejections: map<(Text, Reason), nat>

    ghost function View(): Policy
      reads this
    {
      Policy(config, categories, globalInFlight, leases, rejections)
    }

    ghost predicate Valid()
      reads this
    {
      View().Shaped() && forall i :: 0 <= i < |leases| ==> leases[i].category in categories
    }

    constructor (config: Config, now: real)
      requires config.Valid()
      ensures Valid() && View() == NewPolicy(config, now)
    {
      this.config := config;
      categories := map c | c in config.categories ::
        Category(NewBucket(config.categories[c].globalBurst, now), map[], 0);
      globalInFlight, leases, rejections := 0, [], map[];
    }

    method Reject(category: Text, reason: Reason) returns (r: Result<nat, Reason>)
      modifies this`rejections
      ensures (View(), r) == RejectStep(old(View()), category, reason)
    {
      var key := (category, reason);
      rejections := rejections[key := if key in rejections then rejections[key] + 1 else 1];
      return Err(reason);
    }

    /** The cleanup looks at sources in any order, stops after the budget, and drops the idle ones. */
    method CleanupSources(sources: map<Text, Bucket>, now: real) returns (left: map<Text, Bucket>, ghost scanned: set<Text>)
      requires config.Valid()
      ensures scanned <= sources.Keys
      ensures |scanned| == if |sources| < config.cleanupBudget then |sources| else config.cleanupBudget
      ensures left == Clean(sources, scanned, now, config.idleTtl)
    {
      hide Clean, Idle;
      left, scanned := sources, {};
      CleanNothing(sources, now, config.idleTtl);
      var count := 0;
      var rest := sources.Keys;
      while rest != {} && count < config.cleanupBudget
        invariant rest <= sources.Keys && scanned == sources.Keys - rest && count == |scanned| <= config.cleanupBudget
        invariant left == Clean(sources, scanned, now, config.idleTtl)
        decreases rest
      {
        var source :| source in rest;
        CleanOneMore(sources, scanned, source, now, config.idleTtl);
        count := count + 1;
        if Idle(sources[source], now, config.idleTtl) {
          left := left - {source};
        }
        rest := rest - {source};
        scanned := scanned + {source};
      }
      Partition(sources.Keys, rest, scanned);
    }

    method Acquire(category: Text, origin: Text, now: real) returns (r: Result<nat, Reason>, ghost scanned: set<Text>)
      requires Valid()
      modifies this
      ensures Valid()
      ensures (View(), r) == AcquireStep(old(View()), category, origin, now, scanned)
      ensures category in old(categories) ==>
        scanned <= old(categories)[category].sources.Keys && |scanned| <= config.cleanupBudget
    {
      hide NormalizeSource, Clean, Refill;
      scanned := {};
      if category !in categories {
        r := Reject(category, UnknownCategory);
        return;
      }
      var state, limits := categories[category], config.categories[category];
      if globalInFlight >= config.globalMaxInFlight || state.inFlight >= limits.maxInFlight {
        r := Reject(category, ConcurrencyLimited);
        return;
      }
      var sources;
      sources, scanned := CleanupSources(state.sources, now);
      var source := NormalizeSource(origin);
      if source !in sources {
        if |sources| >= config.maxSources {
          categories := categories[category := state.(sources := sources)];
          r := Reject(category, SourceCapacity);
          return;
        }
      }
      var known := if source in sources then sources[source] else NewBucket(limits.sourceBurst, now);
      var global := Refill(state.global, limits.globalRate, limits.globalBurst, now);
      var bucket := Refill(known, limits.sourceRate, limits.sourceBurst, now);
      if global.tokens < 1.0 || bucket.tokens < 1.0 {
        categories := categories[category := Category(global, sources[source := bucket], state.inFlight)];
        r := Reject(category, RateLimited);
        return;
      }
      categories := categories[category :=
        Category(Spend(global), sources[source := Spend(bucket)], state.inFlight + 1)];
      globalInFlight := globalInFlight + 1;
      leases := leases + [Lease(category, false)];
      r := Ok(|leases| - 1);
    }

    method Release(lease: nat)
      requires Valid() && lease < |leases|
      modifies this
      ensures Valid()
      ensures View() == ReleaseStep(old(View()), lease)
    {
      if leases[lease].released {
        return;
      }
      var c := leases[lease].category;
      leases := leases[lease := Lease(c, true)];
      if categories[c].inFlight > 0 {
        categories := categories[c := categories[c].(inFlight := categories[c].inFlight - 1)];
      }
      if globalInFlight > 0 {
        globalInFlight := globalInFlight - 1;
      }
    }
  }

  /** A policy is opened exactly for a valid configuration. */
  method OpenPolicy(config: Config, now: real) returns (r: Result<IngressPolicy, Reason>)
    ensures r.Ok? <==> config.Valid()
    ensures r.Ok? <==>
      && config.globalMaxInFlight > 0 && config.maxSources > 0 && config.idleTtl > 0.0 && config.cleanupBudget > 0
      && config.categories != map[]
      && forall c :: c in config.categories ==>
           var limits := config.categories[c];
           && c != "" && limits.maxInFlight > 0 && limits.sourceBurst > 0 && limits.globalBurst > 0
           && limits.sourceRate > 0.0 && limits.globalRate > 0.0
    ensures r.Ok? ==> fresh(r.value) && r.value.Valid() && r.value.View() == NewPolicy(config, now)
    ensures r.Err? ==> r.error == InvalidConfig
  {
    if !config.Valid() {
      return Err(InvalidConfig);
    }
    var policy := new IngressPolicy(config, now);
    return Ok(policy);
  }
}
