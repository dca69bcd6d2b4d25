/**
 Quota limits and their process-wide cache. A caller reads the environment defaults to build the
 cache key, looks the key up, and on a miss reads the environment a second time, reads the tenant's
 policy, and stores the composition under the first key. Nothing is held across those moments:
 other callers, clock ticks, environment changes and policy changes fall between any two of them.
 */
module QuotaCache {

  import opened Wrappers

  const CAPACITY: nat := 1024
  const TTL_MILLIS: nat := 60_000

  type Tenant = int

  datatype Limits = Limits(records: nat, spaces: nat)

  datatype Policy = Policy(records: Option<nat>, spaces: Option<nat>)

  datatype Key = Key(tenant: Tenant, env: Limits)

  datatype Entry = Entry(limits: Limits, cachedAt: nat)

  type Cache = map<Key, Entry>

  function Override(value: Option<nat>, fallback: nat): nat {
    if value.Some? then value.value else fallback
  }

  /** The uncached resolution: the policy's values win key by key over the environment. */
  function Compose(env: Limits, policy: Option<Policy>): Limits {
    match policy
    case None => env
    case Some(p) => Limits(Override(p.records, env.records), Override(p.spaces, env.spaces))
  }

  /** Each limit is the policy's where the policy sets it, and the environment's elsewhere. */
  ghost predicate AreLimits(limits: Limits, env: Limits, policy: Option<Policy>) {
    && limits.records == (if policy.Some? && policy.value.records.Some? then policy.value.records.value else env.records)
    && limits.spaces == (if policy.Some? && policy.value.spaces.Some? then policy.value.spaces.value else env.spaces)
  }

  // ----- The cache -----

  predicate Expired(entry: Entry, now: nat) {
    now - entry.cachedAt > TTL_MILLIS
  }

  function Served(cache: Cache, key: Key, now: nat): Option<Limits> {
    if key in cache && !Expired(cache[key], now) then Some(cache[key].limits) else None
  }

  function AfterLookup(cache: Cache, key: Key, now: nat): Cache {
    if key in cache && Expired(cache[key], now) then cache - {key} else cache
  }

  function AfterStore(cache: Cache, key: Key, limits: Limits, now: nat): Cache {
    (if |cache| >= CAPACITY then map[] else cache)[key := Entry(limits, now)]
  }

  lemma SizeAfterInsert(cache: Cache, key: Key, entry: Entry)
    ensures |cache[key := entry]| <= |cache| + 1
  {
    var bigger := cache[key := entry];
    assert bigger.Keys == cache.Keys + {key};
    assert |bigger| == |bigger.Keys| && |cache| == |cache.Keys|;
  }

  lemma SizeAfterRemove(cache: Cache, key: Key)
    ensures |cache - {key}| <= |cache|
  {
    var smaller := cache - {key};
    assert smaller.Keys == cache.Keys - {key};
    assert |smaller| == |smaller.Keys| && |cache| == |cache.Keys|;
    if key in cache {
      assert cache.Keys == smaller.Keys + {key};
    }
  }

  lemma SizeStaysBounded(cache: Cache, key: Key, limits: Limits, now: nat)
    requires |cache| <= CAPACITY
    ensures |AfterLookup(cache, key, now)| <= CAPACITY && |AfterStore(cache, key, limits, now)| <= CAPACITY
  {
    SizeAfterRemove(cache, key);
    if |cache| >= CAPACITY {
      SizeAfterInsert(map[], key, Entry(limits, now));
    } else {
      SizeAfterInsert(cache, key, Entry(limits, now));
    }
  }

  /** The map behind the mutex. */
  class QuotaLimitsCache {
    var entries: Cache

    ghost predicate Valid()
      reads this
    {
      |entries| <= CAPACITY
    }

    constructor ()
      ensures Valid() && entries == map[]
    {
      entries := map[];
    }

    method CachedQuotaLimits(key: Key, now: nat) returns (limits: Option<Limits>)
      requires Valid()
      modifies this
      ensures Valid()
      ensures limits == Served(old(entries), key, now) && entries == AfterLookup(old(entries), key, now)
    {
      SizeStaysBounded(entries, key, Limits(0, 0), now);
      if key !in entries {
        return None;
      }
      var entry := entries[key];
      if now - entry.cachedAt > TTL_MILLIS {
        entries := entries - {key};
        return None;
      }
      return Some(entry.limits);
    }

    method CacheQuotaLimits(key: Key, limits: Limits, now: nat)
      requires Valid()
      modifies this
      ensures Valid()
      ensures entries == AfterStore(old(entries), key, limits, now)
      ensures |old(entries)| < 1024 ==> entries == old(entries)[key := Entry(limits, now)]
      ensures |old(entries)| >= 1024 ==> entries == map[key := Entry(limits, now)]
    {
      SizeStaysBounded(entries, key, limits, now);
      if |entries| >= CAPACITY {
        entries := map[];
      }
      entries := entries[key := Entry(limits, now)];
    }

    /** One caller alone: a hit answers from the cache, a miss composes and stores, a failed policy
        read leaves the cache without the key. */
    method ResolveQuotaLimits(tenant: Tenant, env: Limits, policy: Result<Option<Policy>, string>, now: nat)
      returns (r: Result<Limits, string>)
      requires Valid()
      modifies this
      ensures Valid()
      ensures
        var key, hit := Key(tenant, env), Served(old(entries), Key(tenant, env), now);
        match (hit, policy)
        case (Some(limits), _) => r == Ok(limits) && entries == old(entries)
        case (None, Err(error)) => r == Err(error) && entries == old(entries) - {key}
        case (None, Ok(found)) => r.Ok? && AreLimits(r.value, env, found) && Served(entries, key, now) == Some(r.value)
    {
      var key := Key(tenant, env);
      var hit := CachedQuotaLimits(key, now);
      if hit.Some? {
        return Ok(hit.value);
      }
      if policy.Err? {
        return Err(policy.error);
      }
      var limits := Compose(env, policy.value);
      CacheQuotaLimits(key, limits, now);
      return Ok(limits);
    }
  }

  // ----- Interleaved callers -----

  /** Where a composition came from: the moments its caller read the key, the environment and the
      policy, and the moment it was stored. */
  datatype Source = Source(keyAt: nat, envAt: nat, policyAt: nat, storedAt: nat)

  datatype Phase =
    | Begun(key: Key, keyAt: nat)
    | Missed(key: Key, keyAt: nat)
    | EnvRead(key: Key, keyAt: nat, env: Limits, envAt: nat)
    | Composed(key: Key, keyAt: nat, limits: Limits, envAt: nat, policyAt: nat)

  /** `askedAt` is the moment the asker read the environment into its key. */
  datatype Answer = Answer(key: Key, limits: Limits, source: Source, askedAt: nat, servedAt: nat)

  /** `moment` counts the steps taken; `sources` and `answers` are the history of the run. */
  datatype World = World(
    moment: nat,
    clock: nat,
    env: Limits,
    policies: map<Tenant, Policy>,
    cache: Cache,
    sources: map<Key, Source>,
    callers: map<nat, Phase>,
    answers: seq<Answer>)

  datatype Step =
    | Tick(millis: nat)
    | SetEnv(env: Limits)
    | SetPolicy(tenant: Tenant, policy: Option<Policy>)
    | Begin(caller: nat, tenant: Tenant)
    | LookUp(caller: nat)
    | ReadEnv(caller: nat)
    | ReadPolicy(caller: nat, ok: bool)
    | Store(caller: nat)

  function PolicyOf(w: World, tenant: Tenant): Option<Policy> {
    if tenant in w.policies then Some(w.policies[tenant]) else None
  }

  function CallerStep(w: World, step: Step): World
    requires step.LookUp? || step.ReadEnv? || step.ReadPolicy? || step.Store?
  {
    if step.caller !in w.callers then w
    else
      match (step, w.callers[step.caller])
      case (LookUp(c), Begun(key, keyAt)) =>
        var hit := Served(w.cache, key, w.clock);
        var looked := w.(cache := AfterLookup(w.cache, key, w.clock));
        if hit.Some? && key in w.sources
        then looked.(callers := w.callers - {c}, answers := w.answers + [Answer(key, hit.value, w.sources[key], keyAt, w.moment)])
        else looked.(callers := w.callers[c := Missed(key, keyAt)])
      case (ReadEnv(c), Missed(key, keyAt)) =>
        w.(callers := w.callers[c := EnvRead(key, keyAt, w.env, w.moment)])
      case (ReadPolicy(c, ok), EnvRead(key, keyAt, env, envAt)) =>
        if ok
        then w.(callers := w.callers[c := Composed(key, keyAt, Compose(env, PolicyOf(w, key.tenant)), envAt, w.moment)])
        else w.(callers := w.callers - {c})
      case (Store(c), Composed(key, keyAt, limits, envAt, policyAt)) =>
        var source := Source(keyAt, envAt, policyAt, w.moment);
        w.(cache := AfterStore(w.cache, key, limits, w.clock),
           sources := w.sources[key := source],
           callers := w.callers - {c},
           answers := w.answers + [Answer(key, limits, source, keyAt, w.moment)])
      case _ => w
  }

  function Apply(w: World, step: Step): World {
    (match step
     case Tick(millis) => w.(clock := w.clock + millis)
     case SetEnv(env) => w.(env := env)
     case SetPolicy(tenant, policy) =>
       w.(policies := if policy.Some? then w.policies[tenant := policy.value] else w.policies - {tenant})
     case Begin(c, tenant) =>
       if c in w.callers then w else w.(callers := w.callers[c := Begun(Key(tenant, w.env), w.moment)])
     case _ => CallerStep(w, step)).(moment := w.moment + 1)
  }

  function Start(clock: nat, env: Limits, policies: map<Tenant, Policy>): World {
    World(0, clock, env, policies, map[], map[], map[], [])
  }

  /** The worlds of a run, one more than its steps. */
  ghost predicate IsRun(trace: seq<World>, steps: seq<Step>) {
    && |trace| == |steps| + 1
    && trace[0] == Start(trace[0].clock, trace[0].env, trace[0].policies)
    && forall n | 0 <= n < |steps| :: trace[n + 1] == Apply(trace[n], steps[n])
  }

  // ----- Every answer has a source -----

  /** `limits` is the uncached composition of the environment as it stood at one moment and the
      policy as it stood at a later one, read by a caller whose key held the environment as it
      stood before both. */
  ghost predicate ComposedAt(trace: seq<World>, key: Key, limits: Limits, keyAt: nat, envAt: nat, policyAt: nat) {
    && keyAt <= envAt <= policyAt < |trace|
    && key.env == trace[keyAt].env
    && limits == Compose(trace[envAt].env, PolicyOf(trace[policyAt], key.tenant))
  }

  ghost predicate SourceHolds(trace: seq<World>, key: Key, limits: Limits, source: Source) {
    && source.policyAt <= source.storedAt < |trace|
    && ComposedAt(trace, key, limits, source.keyAt, source.envAt, source.policyAt)
  }

  ghost predicate EntryHolds(trace: seq<World>, w: World, key: Key)
    requires key in w.cache
  {
    && key in w.sources
    && SourceHolds(trace, key, w.cache[key].limits, w.sources[key])
    && w.cache[key].cachedAt == trace[w.sources[key].storedAt].clock
    && w.sources[key].storedAt <= w.moment
  }

  ghost predicate PhaseHolds(trace: seq<World>, moment: nat, phase: Phase) {
    match phase
    case Begun(key, keyAt) => keyAt <= moment < |trace| && key.env == trace[keyAt].env
    case Missed(key, keyAt) => keyAt <= moment < |trace| && key.env == trace[keyAt].env
    case EnvRead(key, keyAt, env, envAt) =>
      keyAt <= envAt <= moment < |trace| && key.env == trace[keyAt].env && env == trace[envAt].env
    case Composed(key, keyAt, limits, envAt, policyAt) =>
      policyAt <= moment && ComposedAt(trace, key, limits, keyAt, envAt, policyAt)
  }

  /** What every answer promises: its key holds the environment its asker saw, its source holds, it was
      stored no later than it was served, and it was then at most the time to live old. */
  ghost predicate AnswerHolds(trace: seq<World>, answer: Answer) {
    && answer.askedAt <= answer.servedAt && answer.askedAt < |trace| && answer.key.env == trace[answer.askedAt].env
    && SourceHolds(trace, answer.key, answer.limits, answer.source)
    && answer.source.storedAt <= answer.servedAt < |trace|
    && trace[answer.servedAt].clock - trace[answer.source.storedAt].clock <= TTL_MILLIS
  }

  ghost predicate Inv(trace: seq<World>, w: World) {
    && |w.cache| <= CAPACITY
    && (forall key | key in w.cache :: EntryHolds(trace, w, key))
    && (forall c | c in w.callers :: PhaseHolds(trace, w.moment, w.callers[c]))
    && (forall i | 0 <= i < |w.answers| :: AnswerHolds(trace, w.answers[i]))
  }

  /** A step that stores nothing leaves every entry it keeps as it was. */
  lemma EntriesKept(trace: seq<World>, w: World, step: Step)
    requires w.moment < |trace| && trace[w.moment] == w && Inv(trace, w)
    ensures forall key | key in Apply(w, step).cache :: EntryHolds(trace, Apply(w, step), key)
  {
    var next := Apply(w, step);
    if Stores(w, step) {
      StoredEntryHolds(trace, w, step);
    } else {
      OnlyStoresAdd(w, step);
      forall key | key in next.cache
        ensures EntryHolds(trace, next, key)
      {
        assert EntryHolds(trace, w, key);
      }
    }
  }

  predicate Stores(w: World, step: Step) {
    step.Store? && step.caller in w.callers && w.callers[step.caller].Composed?
  }

  lemma OnlyStoresAdd(w: World, step: Step)
    requires !Stores(w, step)
    ensures
      var next := Apply(w, step);
      && next.sources == w.sources && next.moment == w.moment + 1
      && forall key | key in next.cache :: key in w.cache && next.cache[key] == w.cache[key]
  {
  }

  lemma StoreMeans(w: World, step: Step)
    requires Stores(w, step)
    ensures
      var next, phase := Apply(w, step), w.callers[step.caller];
      && next.cache == AfterStore(w.cache, phase.key, phase.limits, w.clock)
      && next.sources == w.sources[phase.key := Source(phase.keyAt, phase.envAt, phase.policyAt, w.moment)]
      && next.moment == w.moment + 1
  {
  }

  lemma StoredEntryHolds(trace: seq<World>, w: World, step: Step)
    requires w.moment < |trace| && trace[w.moment] == w && Inv(trace, w) && Stores(w, step)
    ensures forall key | key in Apply(w, step).cache :: EntryHolds(trace, Apply(w, step), key)
  {
    var next, phase := Apply(w, step), w.callers[step.caller];
    assert PhaseHolds(trace, w.moment, phase);
    StoreMeans(w, step);
    forall key | key in next.cache
      ensures EntryHolds(trace, next, key)
    {
      assert key != phase.key ==> EntryHolds(trace, w, key) && next.cache[key] == w.cache[key];
    }
  }

  lemma PhasesKept(trace: seq<World>, w: World, step: Step)
    requires w.moment + 1 < |trace| && trace[w.moment] == w && Inv(trace, w)
    ensures
      var next := Apply(w, step);
      forall c | c in next.callers :: PhaseHolds(trace, next.moment, next.callers[c])
  {
    var next := Apply(w, step);
    forall c | c in next.callers
      ensures PhaseHolds(trace, next.moment, next.callers[c])
    {
      assert c in w.callers ==> PhaseHolds(trace, w.moment, w.callers[c]);
      if !(c in w.callers && next.callers[c] == w.callers[c]) {
        PhaseStep(trace, w, step, c);
      }
    }
  }

  lemma PhaseStep(trace: seq<World>, w: World, step: Step, c: nat)
    requires w.moment + 1 < |trace| && trace[w.moment] == w
    requires c in w.callers ==> PhaseHolds(trace, w.moment, w.callers[c])
    requires c in Apply(w, step).callers && (c in w.callers ==> Apply(w, step).callers[c] != w.callers[c])
    ensures PhaseHolds(trace, w.moment, Apply(w, step).callers[c])
  {
    match step
    case Begin(_, _) =>
    case LookUp(_) =>
    case ReadEnv(_) =>
    case ReadPolicy(_, _) =>
    case _ =>
  }

  /** A step answers at most once, from the cache or with what it has just composed. */
  lemma LookUpAnswers(w: World, step: Step)
    requires LooksUp(w, step)
    ensures
      var phase := w.callers[step.caller];
      Apply(w, step).answers == if ServesHit(w, phase) then w.answers + [HitAnswer(w, phase)] else w.answers
  {
  }

  lemma StoreAnswers(w: World, step: Step)
    requires Stores(w, step)
    ensures Apply(w, step).answers == w.answers + [StoredAnswer(w, w.callers[step.caller])]
  {
  }

  lemma OthersAnswerNothing(w: World, step: Step)
    requires !LooksUp(w, step) && !Stores(w, step)
    ensures Apply(w, step).answers == w.answers
  {
  }

  predicate ServesHit(w: World, phase: Phase) {
    phase.Begun? && phase.key in w.cache && !Expired(w.cache[phase.key], w.clock) && phase.key in w.sources
  }

  function HitAnswer(w: World, phase: Phase): Answer
    requires ServesHit(w, phase)
  {
    Answer(phase.key, w.cache[phase.key].limits, w.sources[phase.key], phase.keyAt, w.moment)
  }

  function StoredAnswer(w: World, phase: Phase): Answer
    requires phase.Composed?
  {
    Answer(phase.key, phase.limits, Source(phase.keyAt, phase.envAt, phase.policyAt, w.moment), phase.keyAt, w.moment)
  }

  lemma HitAnswerHolds(trace: seq<World>, w: World, phase: Phase)
    requires w.moment < |trace| && trace[w.moment] == w && ServesHit(w, phase)
    requires PhaseHolds(trace, w.moment, phase) && EntryHolds(trace, w, phase.key)
    ensures AnswerHolds(trace, HitAnswer(w, phase))
  {
  }

  lemma StoredAnswerHolds(trace: seq<World>, w: World, phase: Phase)
    requires w.moment < |trace| && trace[w.moment] == w && phase.Composed?
    requires PhaseHolds(trace, w.moment, phase)
    ensures AnswerHolds(trace, StoredAnswer(w, phase))
  {
  }

  lemma AnswersKept(trace: seq<World>, w: World, step: Step)
    requires w.moment < |trace| && trace[w.moment] == w && Inv(trace, w)
    ensures
      var next := Apply(w, step);
      forall i | 0 <= i < |next.answers| :: AnswerHolds(trace, next.answers[i])
  {
    if LooksUp(w, step) {
      LookUpAnswers(w, step);
      if ServesHit(w, w.callers[step.caller]) {
        HitAnswerHolds(trace, w, w.callers[step.caller]);
      }
    } else if Stores(w, step) {
      StoreAnswers(w, step);
      StoredAnswerHolds(trace, w, w.callers[step.caller]);
    } else {
      OthersAnswerNothing(w, step);
    }
  }

  /** A caller that is answered is asked for its own key, and gone. */
  lemma AnsweredCallersAreGone(w: World, step: Step)
    requires Apply(w, step).answers != w.answers
    ensures (step.LookUp? || step.Store?) && step.caller in w.callers && Apply(w, step).callers == w.callers - {step.caller}
    ensures |Apply(w, step).answers| == |w.answers| + 1
    ensures Apply(w, step).answers[|w.answers|].key == w.callers[step.caller].key
  {
    if LooksUp(w, step) {
      LookUpAnswers(w, step);
      LookUpReleases(w, step);
    } else if Stores(w, step) {
      StoreAnswers(w, step);
      StoreReleases(w, step);
    } else {
      OthersAnswerNothing(w, step);
    }
  }

  lemma LookUpReleases(w: World, step: Step)
    requires LooksUp(w, step) && ServesHit(w, w.callers[step.caller])
    ensures Apply(w, step).callers == w.callers - {step.caller}
  {
  }

  lemma StoreReleases(w: World, step: Step)
    requires Stores(w, step)
    ensures Apply(w, step).callers == w.callers - {step.caller}
  {
  }

  predicate LooksUp(w: World, step: Step) {
    step.LookUp? && step.caller in w.callers && w.callers[step.caller].Begun?
  }

  lemma LookUpMeans(w: World, step: Step)
    requires LooksUp(w, step)
    ensures Apply(w, step).cache == AfterLookup(w.cache, w.callers[step.caller].key, w.clock)
  {
  }

  lemma OthersLeaveCache(w: World, step: Step)
    requires !LooksUp(w, step) && !Stores(w, step)
    ensures Apply(w, step).cache == w.cache
  {
  }

  lemma SizeKept(w: World, step: Step)
    requires |w.cache| <= CAPACITY
    ensures |Apply(w, step).cache| <= CAPACITY
  {
    if LooksUp(w, step) {
      LookUpMeans(w, step);
      SizeStaysBounded(w.cache, w.callers[step.caller].key, w.env, w.clock);
    } else if Stores(w, step) {
      StoreMeans(w, step);
      SizeStaysBounded(w.cache, w.callers[step.caller].key, w.callers[step.caller].limits, w.clock);
    } else {
      OthersLeaveCache(w, step);
    }
  }

  lemma StepKeeps(trace: seq<World>, w: World, step: Step)
    requires w.moment + 1 < |trace| && trace[w.moment] == w && Inv(trace, w)
    ensures Inv(trace, Apply(w, step))
  {
    EntriesKept(trace, w, step);
    PhasesKept(trace, w, step);
    AnswersKept(trace, w, step);
    SizeKept(w, step);
  }

  lemma {:induction false} EveryRunHolds(trace: seq<World>, steps: seq<Step>, n: nat)
    requires IsRun(trace, steps) && n < |trace|
    ensures trace[n].moment == n && Inv(trace, trace[n])
    decreases n
  {
    if n > 0 {
      EveryRunHolds(trace, steps, n - 1);
      StepKeeps(trace, trace[n - 1], steps[n - 1]);
      assert trace[n - 1 + 1] == Apply(trace[n - 1], steps[n - 1]);
    }
  }

  /** In every reachable state the map is within its capacity, and every answer given so far has a
      source no older than the time to live. */
  lemma AnswersAreFreshCompositions(trace: seq<World>, steps: seq<Step>, n: nat, i: nat)
    requires IsRun(trace, steps) && n < |trace|
    ensures |trace[n].cache| <= 1024
    ensures i < |trace[n].answers| ==>
      var answer := trace[n].answers[i];
      && AnswerHolds(trace, answer)
      && trace[answer.servedAt].clock - trace[answer.source.storedAt].clock <= 60_000
  {
    EveryRunHolds(trace, steps, n);
  }

  /** Of every answer of a run, each limit is the one the tenant's policy set at the moment its source
      read it, and where it set none, that of the environment at the second read of that source. */
  lemma AnswersApplyThePolicy(trace: seq<World>, steps: seq<Step>, n: nat, i: nat)
    requires IsRun(trace, steps) && n < |trace| && i < |trace[n].answers|
    ensures
      var answer := trace[n].answers[i];
      var source, tenant := answer.source, answer.key.tenant;
      && source.keyAt <= source.envAt <= source.policyAt <= source.storedAt <= answer.servedAt <= n < |trace|
      && var env, policies := trace[source.envAt].env, trace[source.policyAt].policies;
      && answer.limits.records ==
           (if tenant in policies && policies[tenant].records.Some? then policies[tenant].records.value else env.records)
      && answer.limits.spaces ==
           (if tenant in policies && policies[tenant].spaces.Some? then policies[tenant].spaces.value else env.spaces)
  {
    EveryRunHolds(trace, steps, n);
    ServedInThePast(trace, steps, n, i);
    assert AnswerHolds(trace, trace[n].answers[i]);
  }

  lemma {:induction false} ServedInThePast(trace: seq<World>, steps: seq<Step>, n: nat, i: nat)
    requires IsRun(trace, steps) && n < |trace| && i < |trace[n].answers|
    ensures trace[n].answers[i].servedAt <= n
    decreases n
  {
    if n > 0 {
      NextAnswers(trace, steps, n - 1);
      if i < |trace[n - 1].answers| {
        ServedInThePast(trace, steps, n - 1, i);
      }
    }
  }

  lemma NextAnswers(trace: seq<World>, steps: seq<Step>, n: nat)
    requires IsRun(trace, steps) && n < |steps|
    ensures
      var before, after := trace[n].answers, trace[n + 1].answers;
      before <= after && forall i | |before| <= i < |after| :: after[i].servedAt == n
  {
    EveryRunHolds(trace, steps, n);
    AnswersGrow(trace[n], steps[n]);
  }

  lemma AnswersGrow(w: World, step: Step)
    ensures
      var next := Apply(w, step);
      && w.answers <= next.answers
      && forall i | |w.answers| <= i < |next.answers| :: next.answers[i].servedAt == w.moment
  {
    if LooksUp(w, step) {
      LookUpAnswers(w, step);
    } else if Stores(w, step) {
      StoreAnswers(w, step);
    } else {
      OthersAnswerNothing(w, step);
    }
  }

  // ----- When an answer is right for the caller's own environment -----

  /** Two environments compose to the same limits exactly where the policy decides or they agree. */
  lemma ComposeAgrees(a: Limits, b: Limits, policy: Option<Policy>)
    ensures Compose(a, policy) == Compose(b, policy) <==>
      && (a.records == b.records || (policy.Some? && policy.value.records.Some?))
      && (a.spaces == b.spaces || (policy.Some? && policy.value.spaces.Some?))
  {
  }

  /** An answer is the composition of the environment its asker saw with a policy of the run exactly
      when, for each limit the policy leaves open, the environment was the same at both reads of the
      caller that resolved it. */
  lemma AnswerFitsItsKey(trace: seq<World>, steps: seq<Step>, n: nat, i: nat)
    requires IsRun(trace, steps) && n < |trace| && i < |trace[n].answers|
    ensures
      var answer := trace[n].answers[i];
      var source := answer.source;
      && source.keyAt <= source.envAt <= source.policyAt < |trace| && answer.askedAt < |trace|
      && var policy, early, late := PolicyOf(trace[source.policyAt], answer.key.tenant), trace[source.keyAt].env, trace[source.envAt].env;
      (answer.limits == Compose(trace[answer.askedAt].env, policy) <==>
        && (early.records == late.records || (policy.Some? && policy.value.records.Some?))
        && (early.spaces == late.spaces || (policy.Some? && policy.value.spaces.Some?)))
  {
    EveryRunHolds(trace, steps, n);
    var answer := trace[n].answers[i];
    assert AnswerHolds(trace, answer);
    var source := answer.source;
    ComposeAgrees(trace[source.keyAt].env, trace[source.envAt].env, PolicyOf(trace[source.policyAt], answer.key.tenant));
  }

  // ----- A change between the two reads -----

  const BEFORE: Limits := Limits(10, 1)
  const BETWEEN: Limits := Limits(20, 1)
  const RACE_KEY: Key := Key(7, BEFORE)

  function Race(): seq<Step> {
    [Begin(0, 7), LookUp(0), SetEnv(BETWEEN), ReadEnv(0), ReadPolicy(0, true), Store(0), SetEnv(BEFORE), Begin(1, 7), LookUp(1)]
  }

  ghost predicate IsRace(trace: seq<World>) {
    IsRun(trace, Race()) && trace[0] == Start(0, BEFORE, map[])
  }

  lemma RaceMisses(trace: seq<World>)
    requires IsRace(trace)
    ensures trace[3] == World(3, 0, BETWEEN, map[], map[], map[], map[0 := Missed(RACE_KEY, 0)], [])
  {
    assert trace[0 + 1] == Apply(trace[0], Race()[0]) && trace[1 + 1] == Apply(trace[1], Race()[1]);
    assert trace[1].callers == map[0 := Begun(RACE_KEY, 0)];
    assert trace[2 + 1] == Apply(trace[2], Race()[2]);
  }

  lemma RaceStores(trace: seq<World>)
    requires IsRace(trace)
    ensures
      var source := Source(0, 3, 4, 5);
      trace[6] == World(6, 0, BETWEEN, map[], map[RACE_KEY := Entry(BETWEEN, 0)], map[RACE_KEY := source], map[],
        [Answer(RACE_KEY, BETWEEN, source, 0, 5)])
  {
    RaceMisses(trace);
    assert trace[3 + 1] == Apply(trace[3], Race()[3]) && trace[4 + 1] == Apply(trace[4], Race()[4]);
    assert trace[4].callers == map[0 := EnvRead(RACE_KEY, 0, BETWEEN, 3)];
    assert trace[5].callers == map[0 := Composed(RACE_KEY, 0, BETWEEN, 3, 4)];
    assert trace[5 + 1] == Apply(trace[5], Race()[5]);
  }

  /** The environment is read twice, so a change between the reads stores the new composition under
      the old key: here a later caller whose environment is the old one is served the new value. */
  lemma EnvironmentRace(trace: seq<World>)
    requires IsRace(trace)
    ensures
      var answers := trace[9].answers;
      && |answers| == 2 && answers[1].askedAt == 7 && answers[1].key.env == trace[7].env == trace[9].env == BEFORE
      && answers[1].limits == BETWEEN != Compose(trace[9].env, None)
  {
    RaceStores(trace);
    assert trace[6 + 1] == Apply(trace[6], Race()[6]) && trace[7 + 1] == Apply(trace[7], Race()[7]);
    assert trace[8].callers == map[1 := Begun(RACE_KEY, 7)];
    assert trace[8 + 1] == Apply(trace[8], Race()[8]);
  }
}
