/**
 Provider health: the sweep that probes every binding of every tenant page by page, and the summary
 one tenant reads. A page read returns up to one row more than the page size, and that extra row
 only says that there is more to read.
 */
module ProviderProbe {

  import opened Wrappers
  import opened Text

  const PAGE_SIZE: nat := 200

  datatype Health = Healthy | Degraded | Unhealthy | Unknown | OtherState(text: string)

  /** A binding row; `id` is its uuid read as a number, when it is one. */
  datatype Row = Row(uuid: string, id: Option<nat>, health: Health)

  datatype Tenant = Tenant(id: nat, bindings: seq<Row>)

  datatype StoreError = ReadFailed | MalformedId

  ghost predicate ValidBindings(rows: seq<Row>) {
    && (forall i | 0 <= i < |rows| :: rows[i].uuid != [])
    && (forall i, j | 0 <= i < j < |rows| :: rows[i].uuid != rows[j].uuid)
  }

  /** Tenants by ascending id; bindings in id order under unique, non-empty uuids. */
  ghost predicate ValidDirectory(tenants: seq<Tenant>) {
    && (forall i, j | 0 <= i < j < |tenants| :: tenants[i].id < tenants[j].id)
    && (forall i | 0 <= i < |tenants| :: ValidBindings(tenants[i].bindings))
  }

  // ----- The store's reads -----

  /** From the `k`-th tenant on, the ids above `after`. */
  function IdsAfter(tenants: seq<Tenant>, k: nat, after: int): seq<nat>
    requires k <= |tenants|
    decreases |tenants| - k
  {
    if k == |tenants| then []
    else (if tenants[k].id > after then [tenants[k].id] else []) + IdsAfter(tenants, k + 1, after)
  }

  function BindingsOf(tenants: seq<Tenant>, k: nat, id: nat): seq<Row>
    requires k <= |tenants|
    decreases |tenants| - k
  {
    if k == |tenants| then []
    else if tenants[k].id == id then tenants[k].bindings
    else BindingsOf(tenants, k + 1, id)
  }

  /** The rows past the cursor row, and none when that row is gone. */
  function RowsAfter(rows: seq<Row>, k: nat, uuid: string): seq<Row>
    requires k <= |rows|
    decreases |rows| - k
  {
    if k == |rows| then []
    else if rows[k].uuid == uuid then rows[k + 1..]
    else RowsAfter(rows, k + 1, uuid)
  }

  function TenantPage(tenants: seq<Tenant>, cursor: Option<nat>): seq<nat> {
    Take(IdsAfter(tenants, 0, if cursor.Some? then cursor.value else -1), PAGE_SIZE + 1)
  }

  function BindingPage(rows: seq<Row>, cursor: Option<string>): seq<Row> {
    Take(if cursor.None? || cursor.value == [] then rows else RowsAfter(rows, 0, cursor.value), PAGE_SIZE + 1)
  }

  lemma {:induction false} IdsAfterAll(tenants: seq<Tenant>, k: nat, after: int)
    requires k <= |tenants| && forall i | k <= i < |tenants| :: after < tenants[i].id
    ensures
      var ids := IdsAfter(tenants, k, after);
      |ids| == |tenants| - k && forall i | 0 <= i < |ids| :: ids[i] == tenants[k + i].id
    decreases |tenants| - k
  {
    if k < |tenants| {
      IdsAfterAll(tenants, k + 1, after);
      var ids, rest := IdsAfter(tenants, k, after), IdsAfter(tenants, k + 1, after);
      assert ids == [tenants[k].id] + rest;
      forall i | 0 <= i < |ids|
        ensures ids[i] == tenants[k + i].id
      {
        assert i > 0 ==> ids[i] == rest[i - 1];
      }
    }
  }

  /** The cursor left by the first `done` tenants leads to the rest. */
  lemma {:induction false} IdsAfterDone(tenants: seq<Tenant>, k: nat, done: nat)
    requires ValidDirectory(tenants) && k <= done <= |tenants| && 0 < done
    ensures
      var after := tenants[done - 1].id;
      IdsAfter(tenants, k, after) == IdsAfter(tenants, done, after)
    decreases done - k
  {
    if k < done {
      assert tenants[k].id <= tenants[done - 1].id;
      IdsAfterDone(tenants, k + 1, done);
    }
  }

  lemma {:induction false} RowsAfterDone(rows: seq<Row>, k: nat, done: nat)
    requires ValidBindings(rows) && k < done <= |rows|
    ensures RowsAfter(rows, k, rows[done - 1].uuid) == rows[done..]
    decreases done - k
  {
    if k + 1 < done {
      assert rows[k].uuid != rows[done - 1].uuid;
      RowsAfterDone(rows, k + 1, done);
    }
  }

  lemma {:induction false} BindingsAt(tenants: seq<Tenant>, from: nat, k: nat)
    requires ValidDirectory(tenants) && from <= k < |tenants|
    ensures BindingsOf(tenants, from, tenants[k].id) == tenants[k].bindings
    decreases k - from
  {
    if from < k {
      BindingsAt(tenants, from + 1, k);
    }
  }

  /** Where the keyset walk stands after `done` rows, and what the next read returns. */
  ghost predicate TenantCursorAt(tenants: seq<Tenant>, done: nat, cursor: Option<nat>)
    requires done <= |tenants|
  {
    cursor == if done == 0 then None else Some(tenants[done - 1].id)
  }

  lemma TenantPageAt(tenants: seq<Tenant>, done: nat, cursor: Option<nat>)
    requires ValidDirectory(tenants) && done <= |tenants| && TenantCursorAt(tenants, done, cursor)
    ensures
      var page := TenantPage(tenants, cursor);
      && |page| == (if |tenants| - done <= 200 then |tenants| - done else 201)
      && forall i | 0 <= i < |page| :: page[i] == tenants[done + i].id
  {
    if done == 0 {
      IdsAfterAll(tenants, 0, -1);
    } else {
      IdsAfterDone(tenants, 0, done);
      IdsAfterAll(tenants, done, tenants[done - 1].id);
    }
  }

  /** `batch` is the next tenants after the first `done`, and `next` where the walk stands behind them. */
  ghost predicate TenantsListed(tenants: seq<Tenant>, done: nat, batch: seq<nat>, next: Option<nat>) {
    && done + |batch| <= |tenants| && (forall i | 0 <= i < |batch| :: batch[i] == tenants[done + i].id)
    && if next.Some? then |batch| > 0 && TenantCursorAt(tenants, done + |batch|, next) else done + |batch| == |tenants|
  }

  lemma TenantBatchAt(tenants: seq<Tenant>, done: nat, cursor: Option<nat>)
    requires ValidDirectory(tenants) && done <= |tenants| && TenantCursorAt(tenants, done, cursor)
    ensures
      var page := TenantPage(tenants, cursor);
      TenantsListed(tenants, done, Take(page, PAGE_SIZE), if |page| > PAGE_SIZE then Some(page[PAGE_SIZE - 1]) else None)
  {
    TenantPageAt(tenants, done, cursor);
  }

  ghost predicate BindingCursorAt(rows: seq<Row>, done: nat, cursor: Option<string>)
    requires done <= |rows|
  {
    cursor == if done == 0 then None else Some(rows[done - 1].uuid)
  }

  lemma BindingPageAt(rows: seq<Row>, done: nat, cursor: Option<string>)
    requires ValidBindings(rows) && done <= |rows| && BindingCursorAt(rows, done, cursor)
    ensures
      var page := BindingPage(rows, cursor);
      && |page| == (if |rows| - done <= 200 then |rows| - done else 201)
      && forall i | 0 <= i < |page| :: page[i] == rows[done + i]
  {
    if done > 0 {
      RowsAfterDone(rows, 0, done);
    }
  }

  /** `batch` is the next rows after the first `done`, and `next` where the walk stands behind them. */
  ghost predicate BindingsListed(rows: seq<Row>, done: nat, batch: seq<Row>, next: Option<string>) {
    && done + |batch| <= |rows| && (forall i | 0 <= i < |batch| :: batch[i] == rows[done + i])
    && if next.Some? then |batch| > 0 && BindingCursorAt(rows, done + |batch|, next) else done + |batch| == |rows|
  }

  lemma BindingBatchAt(rows: seq<Row>, done: nat, cursor: Option<string>)
    requires ValidBindings(rows) && done <= |rows| && BindingCursorAt(rows, done, cursor)
    ensures
      var page := BindingPage(rows, cursor);
      BindingsListed(rows, done, Take(page, PAGE_SIZE), if |page| > PAGE_SIZE then Some(page[PAGE_SIZE - 1].uuid) else None)
  {
    BindingPageAt(rows, done, cursor);
  }

  // ----- The sweep -----

  type BindingKey = (nat, string)

  /** The first `n` bindings of a tenant. */
  function KeysOf(tenant: Tenant, n: nat): seq<BindingKey>
    requires n <= |tenant.bindings|
  {
    if n == 0 then [] else KeysOf(tenant, n - 1) + [(tenant.id, tenant.bindings[n - 1].uuid)]
  }

  /** All bindings of the first `n` tenants. */
  function AllKeys(tenants: seq<Tenant>, n: nat): seq<BindingKey>
    requires n <= |tenants|
  {
    if n == 0 then [] else AllKeys(tenants, n - 1) + KeysOf(tenants[n - 1], |tenants[n - 1].bindings|)
  }

  /** The health column after the probes of the first `n` of `keys`. */
  function SavedUpTo(health: map<BindingKey, Health>, keys: seq<BindingKey>, n: nat, observe: BindingKey -> (Health, bool)): map<BindingKey, Health>
    requires n <= |keys|
  {
    if n == 0 then health
    else
      var last := keys[n - 1];
      var before := SavedUpTo(health, keys, n - 1, observe);
      if observe(last).1 then before[last := observe(last).0] else before
  }

  function Saved(health: map<BindingKey, Health>, keys: seq<BindingKey>, observe: BindingKey -> (Health, bool)): map<BindingKey, Health> {
    SavedUpTo(health, keys, |keys|, observe)
  }

  lemma {:induction false} SavedOfPrefix(health: map<BindingKey, Health>, keys: seq<BindingKey>, more: seq<BindingKey>, n: nat, observe: BindingKey -> (Health, bool))
    requires n <= |keys| && keys <= more
    ensures SavedUpTo(health, more, n, observe) == SavedUpTo(health, keys, n, observe)
    decreases n
  {
    if n > 0 {
      SavedOfPrefix(health, keys, more, n - 1, observe);
    }
  }

  lemma SavedOneMore(health: map<BindingKey, Health>, keys: seq<BindingKey>, key: BindingKey, observe: BindingKey -> (Health, bool))
    ensures
      var before := Saved(health, keys, observe);
      Saved(health, keys + [key], observe) == if observe(key).1 then before[key := observe(key).0] else before
  {
    SavedOfPrefix(health, keys, keys + [key], |keys|, observe);
  }

  lemma {:induction false} SavedValueUpTo(health: map<BindingKey, Health>, keys: seq<BindingKey>, n: nat, observe: BindingKey -> (Health, bool), key: BindingKey)
    requires n <= |keys|
    ensures
      var after := SavedUpTo(health, keys, n, observe);
      if key in keys[..n] && observe(key).1 then key in after && after[key] == observe(key).0
      else (key in after <==> key in health) && (key in health ==> after[key] == health[key])
    decreases n
  {
    if n > 0 {
      SavedValueUpTo(health, keys, n - 1, observe, key);
      assert keys[..n] == keys[..n - 1] + [keys[n - 1]];
    }
  }

  class ProviderStore {
    const tenants: seq<Tenant>
    const initial: map<BindingKey, Health>
    /** Which read, counted from the first, fails. */
    const faults: nat -> bool
    /** What a probe of a binding observes, and whether saving that succeeds. */
    const observe: BindingKey -> (Health, bool)
    var readCount: nat
    var health: map<BindingKey, Health>
    var probed: seq<BindingKey>

    /** The health column is the initial one after the probes so far. */
    ghost predicate Valid()
      reads this
    {
      health == Saved(initial, probed, observe)
    }

    constructor (tenants: seq<Tenant>, initial: map<BindingKey, Health>, faults: nat -> bool, observe: BindingKey -> (Health, bool))
      ensures this.tenants == tenants && this.initial == initial && this.faults == faults && this.observe == observe
      ensures Valid() && readCount == 0 && probed == []
    {
      this.tenants, this.initial, this.faults, this.observe := tenants, initial, faults, observe;
      readCount, health, probed := 0, initial, [];
    }

    method ListTenantIds(cursor: Option<nat>) returns (r: Result<seq<nat>, StoreError>)
      requires Valid()
      modifies this`readCount
      ensures Valid()
      ensures r == if faults(old(readCount)) then Err(ReadFailed) else Ok(TenantPage(tenants, cursor))
    {
      readCount := readCount + 1;
      r := if faults(readCount - 1) then Err(ReadFailed) else Ok(TenantPage(tenants, cursor));
    }

    method ListBindings(tenant: nat, cursor: Option<string>) returns (r: Result<seq<Row>, StoreError>)
      requires Valid()
      modifies this`readCount
      ensures Valid()
      ensures r == if faults(old(readCount)) then Err(ReadFailed) else Ok(BindingPage(BindingsOf(tenants, 0, tenant), cursor))
    {
      readCount := readCount + 1;
      r := if faults(readCount - 1) then Err(ReadFailed) else Ok(BindingPage(BindingsOf(tenants, 0, tenant), cursor));
    }

    /** Probe one binding; a failed save is only logged. */
    method Probe(key: BindingKey)
      requires Valid()
      modifies this`health, this`probed
      ensures Valid() && probed == old(probed) + [key]
    {
      var (state, saved) := observe(key);
      probed := probed + [key];
      SavedOneMore(initial, old(probed), key, observe);
      if saved {
        health := health[key := state];
      }
    }
  }

  /** Since `before`, the first `n` bindings of one tenant have been probed. */
  ghost predicate ProbedWithin(tenant: Tenant, n: nat, before: seq<BindingKey>, now: seq<BindingKey>) {
    n <= |tenant.bindings| && now == before + KeysOf(tenant, n)
  }

  /** Since `before`, all bindings of the first `k` tenants have been probed. */
  ghost predicate ProbedThrough(tenants: seq<Tenant>, k: nat, before: seq<BindingKey>, now: seq<BindingKey>) {
    k <= |tenants| && now == before + AllKeys(tenants, k)
  }

  lemma ProbedOneMore(tenant: Tenant, n: nat, before: seq<BindingKey>, now: seq<BindingKey>)
    requires n < |tenant.bindings| && ProbedWithin(tenant, n, before, now)
    ensures ProbedWithin(tenant, n + 1, before, now + [(tenant.id, tenant.bindings[n].uuid)])
  {
    Regroup(before, KeysOf(tenant, n), [(tenant.id, tenant.bindings[n].uuid)]);
  }

  lemma Regroup(a: seq<BindingKey>, b: seq<BindingKey>, c: seq<BindingKey>)
    ensures a + b + c == a + (b + c)
  {
  }

  /** The rows of one page, after the first `n`. */
  method ProbeBatch(store: ProviderStore, batch: seq<Row>, id: nat, ghost tenant: Tenant, ghost n: nat, ghost before: seq<BindingKey>)
    requires store.Valid() && tenant.id == id && n + |batch| <= |tenant.bindings|
    requires forall i | 0 <= i < |batch| :: batch[i] == tenant.bindings[n + i]
    requires ProbedWithin(tenant, n, before, store.probed)
    modifies store`health, store`probed
    ensures store.Valid() && ProbedWithin(tenant, n + |batch|, before, store.probed)
  {
    for i := 0 to |batch|
      invariant store.Valid() && ProbedWithin(tenant, n + i, before, store.probed)
    {
      ProbedOneMore(tenant, n + i, before, store.probed);
      store.Probe((id, batch[i].uuid));
    }
  }

  /** One read of a tenant's bindings; the row past the page only says that there is a next page. */
  method NextBindings(store: ProviderStore, id: nat, cursor: Option<string>, ghost rows: seq<Row>, ghost done: nat)
    returns (r: Result<(seq<Row>, Option<string>), StoreError>)
    requires store.Valid() && BindingsOf(store.tenants, 0, id) == rows && ValidBindings(rows)
    requires done <= |rows| && BindingCursorAt(rows, done, cursor)
    modifies store`readCount
    ensures store.Valid()
    ensures r.Ok? ==> BindingsListed(rows, done, r.value.0, r.value.1)
    ensures (forall i :: !store.faults(i)) ==> r.Ok?
  {
    var page := store.ListBindings(id, cursor);
    if page.Err? {
      return Err(page.error);
    }
    BindingBatchAt(rows, done, cursor);
    var hasMore := |page.value| > PAGE_SIZE;
    var batch := Take(page.value, PAGE_SIZE);
    return Ok((batch, if hasMore then Some(page.value[PAGE_SIZE - 1].uuid) else None));
  }

  /** The page loop over one tenant's bindings; a failed read leaves the first `n` of them probed. */
  method ProbeTenant(store: ProviderStore, id: nat, ghost k: nat) returns (r: Result<(), StoreError>, ghost n: nat)
    requires store.Valid() && ValidDirectory(store.tenants) && k < |store.tenants| && store.tenants[k].id == id
    modifies store
    ensures store.Valid() && n <= |store.tenants[k].bindings|
    ensures ProbedWithin(store.tenants[k], n, old(store.probed), store.probed)
    ensures r.Ok? ==> n == |store.tenants[k].bindings|
    ensures (forall i :: !store.faults(i)) ==> r.Ok?
  {
    ghost var tenant, before := store.tenants[k], store.probed;
    BindingsAt(store.tenants, 0, k);
    var cursor: Option<string> := None;
    n := 0;
    while true
      invariant store.Valid() && n <= |tenant.bindings| && BindingCursorAt(tenant.bindings, n, cursor)
      invariant ProbedWithin(tenant, n, before, store.probed)
      decreases |tenant.bindings| - n
    {
      var page := NextBindings(store, id, cursor, tenant.bindings, n);
      if page.Err? {
        return Err(page.error), n;
      }
      ProbeBatch(store, page.value.0, id, tenant, n, before);
      n, cursor := n + |page.value.0|, page.value.1;
      if cursor.None? {
        return Ok(()), n;
      }
    }
  }

  /** The bindings of the first `k` tenants and the first `n` of the next. */
  function SweptKeys(tenants: seq<Tenant>, k: nat, n: nat): seq<BindingKey>
    requires k <= |tenants| && (n > 0 ==> k < |tenants| && n <= |tenants[k].bindings|)
  {
    AllKeys(tenants, k) + (if n == 0 then [] else KeysOf(tenants[k], n))
  }

  ghost predicate StoppedAt(tenants: seq<Tenant>, k: nat, n: nat, before: seq<BindingKey>, now: seq<BindingKey>) {
    && k <= |tenants| && (n > 0 ==> k < |tenants| && n <= |tenants[k].bindings|)
    && now == before + SweptKeys(tenants, k, n)
  }

  lemma StoppedBetween(tenants: seq<Tenant>, k: nat, before: seq<BindingKey>, now: seq<BindingKey>)
    requires ProbedThrough(tenants, k, before, now)
    ensures StoppedAt(tenants, k, 0, before, now)
  {
    assert AllKeys(tenants, k) + [] == AllKeys(tenants, k);
  }

  lemma StoppedWithin(tenants: seq<Tenant>, k: nat, n: nat, before: seq<BindingKey>, mid: seq<BindingKey>, now: seq<BindingKey>)
    requires k < |tenants| && ProbedThrough(tenants, k, before, mid) && ProbedWithin(tenants[k], n, mid, now)
    ensures StoppedAt(tenants, k, n, before, now)
    ensures n == |tenants[k].bindings| ==> ProbedThrough(tenants, k + 1, before, now)
  {
    Regroup(before, AllKeys(tenants, k), KeysOf(tenants[k], n));
  }

  /** The tenant after the first `k`. */
  method ProbeNextTenant(store: ProviderStore, id: nat, ghost k: nat, ghost before: seq<BindingKey>)
    returns (r: Result<(), StoreError>, ghost n: nat)
    requires store.Valid() && ValidDirectory(store.tenants) && k < |store.tenants| && store.tenants[k].id == id
    requires ProbedThrough(store.tenants, k, before, store.probed)
    modifies store
    ensures store.Valid()
    ensures r.Err? ==> StoppedAt(store.tenants, k, n, before, store.probed)
    ensures r.Ok? ==> ProbedThrough(store.tenants, k + 1, before, store.probed)
    ensures (forall i :: !store.faults(i)) ==> r.Ok?
  {
    ghost var mid := store.probed;
    r, n := ProbeTenant(store, id, k);
    StoppedWithin(store.tenants, k, n, before, mid, store.probed);
  }

  /** The tenants of one page. */
  method ProbeTenants(store: ProviderStore, batch: seq<nat>, ghost start: nat, ghost before: seq<BindingKey>)
    returns (r: Result<(), StoreError>, ghost k: nat, ghost n: nat)
    requires store.Valid() && ValidDirectory(store.tenants) && start + |batch| <= |store.tenants|
    requires forall i | 0 <= i < |batch| :: batch[i] == store.tenants[start + i].id
    requires ProbedThrough(store.tenants, start, before, store.probed)
    modifies store
    ensures store.Valid()
    ensures r.Err? ==> StoppedAt(store.tenants, k, n, before, store.probed)
    ensures r.Ok? ==> ProbedThrough(store.tenants, start + |batch|, before, store.probed)
    ensures (forall i :: !store.faults(i)) ==> r.Ok?
  {
    ghost var tenants := store.tenants;
    k, n := start, 0;
    for i := 0 to |batch|
      invariant store.Valid() && k == start + i && ProbedThrough(tenants, k, before, store.probed)
    {
      var one, m := ProbeNextTenant(store, batch[i], k, before);
      if one.Err? {
        return Err(one.error), k, m;
      }
      k := k + 1;
    }
    return Ok(()), k, 0;
  }

  /** One read of tenants; the id past the page only says that there is a next page. */
  method NextTenants(store: ProviderStore, cursor: Option<nat>, ghost done: nat)
    returns (r: Result<(seq<nat>, Option<nat>), StoreError>)
    requires store.Valid() && ValidDirectory(store.tenants) && done <= |store.tenants| && TenantCursorAt(store.tenants, done, cursor)
    modifies store`readCount
    ensures store.Valid()
    ensures r.Ok? ==> TenantsListed(store.tenants, done, r.value.0, r.value.1)
    ensures (forall i :: !store.faults(i)) ==> r.Ok?
  {
    var page := store.ListTenantIds(cursor);
    if page.Err? {
      return Err(page.error);
    }
    TenantBatchAt(store.tenants, done, cursor);
    var hasMore := |page.value| > PAGE_SIZE;
    var batch := Take(page.value, PAGE_SIZE);
    return Ok((batch, if hasMore then Some(page.value[PAGE_SIZE - 1]) else None));
  }

  /** The nested loops end, and without a failed read every binding of every tenant has been probed,
      in order; a failed read ends the sweep with some first tenants probed, and some first bindings
      of the next. A probe whose save fails stops nothing. */
  method ProbeProviderBindings(store: ProviderStore) returns (r: Result<(), StoreError>, ghost k: nat, ghost n: nat)
    requires store.Valid() && ValidDirectory(store.tenants)
    modifies store
    ensures store.Valid()
    ensures r.Err? ==> StoppedAt(store.tenants, k, n, old(store.probed), store.probed)
    ensures r.Ok? ==> ProbedThrough(store.tenants, |store.tenants|, old(store.probed), store.probed)
    ensures (forall i :: !store.faults(i)) ==> r.Ok?
  {
    var cursor: Option<nat> := None;
    ghost var done, before, tenants := 0, store.probed, store.tenants;
    k, n := 0, 0;
    while true
      invariant store.Valid() && done <= |tenants| && TenantCursorAt(tenants, done, cursor)
      invariant ProbedThrough(tenants, done, before, store.probed)
      decreases |tenants| - done
    {
      var page := NextTenants(store, cursor, done);
      if page.Err? {
        StoppedBetween(tenants, done, before, store.probed);
        return Err(page.error), done, 0;
      }
      r, k, n := ProbeTenants(store, page.value.0, done, before);
      if r.Err? {
        return;
      }
      done, cursor := done + |page.value.0|, page.value.1;
      if cursor.None? {
        return;
      }
    }
  }

  ghost predicate IsBinding(tenants: seq<Tenant>, key: BindingKey) {
    exists t | 0 <= t < |tenants| :: tenants[t].id == key.0 && HasUuid(tenants[t].bindings, key.1)
  }

  ghost predicate HasUuid(rows: seq<Row>, uuid: string) {
    exists b | 0 <= b < |rows| :: rows[b].uuid == uuid
  }

  lemma {:induction false} KeysOfExactly(tenant: Tenant, n: nat, key: BindingKey)
    requires ValidBindings(tenant.bindings) && n <= |tenant.bindings|
    ensures |KeysOf(tenant, n)| == n && forall i | 0 <= i < n :: KeysOf(tenant, n)[i] == (tenant.id, tenant.bindings[i].uuid)
    ensures key in KeysOf(tenant, n) <==> tenant.id == key.0 && HasUuid(tenant.bindings[..n], key.1)
    decreases n
  {
    if n > 0 {
      KeysOfExactly(tenant, n - 1, key);
      var rows := tenant.bindings[..n];
      assert rows[..n - 1] == tenant.bindings[..n - 1];
      UuidOfInitOrLast(rows, key.1);
    }
  }

  lemma UuidOfInitOrLast(rows: seq<Row>, uuid: string)
    requires rows != []
    ensures HasUuid(rows, uuid) <==> HasUuid(rows[..|rows| - 1], uuid) || rows[|rows| - 1].uuid == uuid
  {
    var init := rows[..|rows| - 1];
    if HasUuid(init, uuid) {
      var b :| 0 <= b < |init| && init[b].uuid == uuid;
      assert rows[b].uuid == uuid;
    }
    if HasUuid(rows, uuid) {
      var b :| 0 <= b < |rows| && rows[b].uuid == uuid;
      assert b < |init| ==> init[b] == rows[b];
    }
  }

  /** The sweep's keys are exactly the bindings of all tenants, each once. */
  lemma {:induction false} EveryBindingOnce(tenants: seq<Tenant>, n: nat, key: BindingKey)
    requires ValidDirectory(tenants) && n <= |tenants|
    ensures key in AllKeys(tenants, n) <==> IsBinding(tenants[..n], key)
    ensures forall i, j | 0 <= i < j < |AllKeys(tenants, n)| :: AllKeys(tenants, n)[i] != AllKeys(tenants, n)[j]
    decreases n
  {
    if n > 0 {
      var last := tenants[n - 1];
      var size := |last.bindings|;
      EveryBindingOnce(tenants, n - 1, key);
      KeysOfExactly(last, size, key);
      assert last.bindings[..size] == last.bindings;
      var before, own := AllKeys(tenants, n - 1), KeysOf(last, size);
      forall i, j | 0 <= i < |before| && 0 <= j < |own|
        ensures before[i] != own[j]
      {
        EveryBindingOnce(tenants, n - 1, before[i]);
        var t :| 0 <= t < n - 1 && tenants[..n - 1][t].id == before[i].0 && HasUuid(tenants[..n - 1][t].bindings, before[i].1);
        assert tenants[t].id < last.id;
      }
      DistinctSum(before, own);
      assert tenants[..n][..n - 1] == tenants[..n - 1];
      BindingOfInitOrLast(tenants[..n], key);
    }
  }

  lemma DistinctSum(a: seq<BindingKey>, b: seq<BindingKey>)
    requires forall i, j | 0 <= i < j < |a| :: a[i] != a[j]
    requires forall i, j | 0 <= i < j < |b| :: b[i] != b[j]
    requires forall i, j | 0 <= i < |a| && 0 <= j < |b| :: a[i] != b[j]
    ensures forall i, j | 0 <= i < j < |a + b| :: (a + b)[i] != (a + b)[j]
  {
  }

  lemma BindingOfInitOrLast(tenants: seq<Tenant>, key: BindingKey)
    requires tenants != []
    ensures
      var init, last := tenants[..|tenants| - 1], tenants[|tenants| - 1];
      IsBinding(tenants, key) <==> IsBinding(init, key) || (last.id == key.0 && HasUuid(last.bindings, key.1))
  {
    var init := tenants[..|tenants| - 1];
    if IsBinding(init, key) {
      var t :| 0 <= t < |init| && init[t].id == key.0 && HasUuid(init[t].bindings, key.1);
      assert tenants[t].id == key.0 && HasUuid(tenants[t].bindings, key.1);
    }
    if IsBinding(tenants, key) {
      var t :| 0 <= t < |tenants| && tenants[t].id == key.0 && HasUuid(tenants[t].bindings, key.1);
      assert t < |init| ==> init[t] == tenants[t];
    }
  }

  /** After a completed sweep a binding whose save worked shows what its probe observed, and nothing
      else changed. */
  lemma SweepSavesEveryProbe(tenants: seq<Tenant>, health0: map<BindingKey, Health>, observe: BindingKey -> (Health, bool), key: BindingKey)
    requires ValidDirectory(tenants)
    ensures
      var health := Saved(health0, AllKeys(tenants, |tenants|), observe);
      if IsBinding(tenants, key) && observe(key).1 then key in health && health[key] == observe(key).0
      else (key in health <==> key in health0) && (key in health0 ==> health[key] == health0[key])
  {
    var keys := AllKeys(tenants, |tenants|);
    EveryBindingOnce(tenants, |tenants|, key);
    assert tenants[..|tenants|] == tenants;
    SavedValueUpTo(health0, keys, |keys|, observe, key);
    assert keys[..|keys|] == keys;
  }

  // ----- The summary of one tenant -----

  datatype Provider = Provider(id: nat, health: Health)

  datatype Counts = Counts(total: nat, healthy: nat, degraded: nat, unhealthy: nat, unknown: nat, other: nat)

  datatype Summary = Summary(status: Health, providers: seq<Provider>, truncated: bool, counts: Counts)

  function Tally(providers: seq<Provider>): Counts {
    if providers == [] then Counts(0, 0, 0, 0, 0, 0)
    else
      var c := Tally(providers[..|providers| - 1]);
      match providers[|providers| - 1].health
      case Healthy => c.(total := c.total + 1, healthy := c.healthy + 1)
      case Degraded => c.(total := c.total + 1, degraded := c.degraded + 1)
      case Unhealthy => c.(total := c.total + 1, unhealthy := c.unhealthy + 1)
      case Unknown => c.(total := c.total + 1, unknown := c.unknown + 1)
      case OtherState(_) => c.(total := c.total + 1, other := c.other + 1)
  }

  function StatusOf(c: Counts): Health {
    if c.total == 0 || (c.degraded == 0 && c.unhealthy == 0 && c.unknown == 0 && c.other == 0) then Healthy
    else if c.unhealthy > 0 then Unhealthy
    else if c.healthy == 0 && c.degraded == 0 && c.other == 0 then Unknown
    else Degraded
  }

  ghost predicate AllAre(providers: seq<Provider>, health: Health) {
    forall i | 0 <= i < |providers| :: providers[i].health == health
  }

  ghost predicate SomeIs(providers: seq<Provider>, health: Health) {
    exists i | 0 <= i < |providers| :: providers[i].health == health
  }

  lemma {:induction false} TallyTotal(providers: seq<Provider>)
    ensures
      var c := Tally(providers);
      c.total == |providers| == c.healthy + c.degraded + c.unhealthy + c.unknown + c.other
  {
    if providers != [] {
      TallyTotal(providers[..|providers| - 1]);
    }
  }

  lemma {:induction false} TallyMeans(providers: seq<Provider>)
    ensures Tally(providers).healthy == Tally(providers).total <==> AllAre(providers, Healthy)
    ensures Tally(providers).unknown == Tally(providers).total <==> AllAre(providers, Unknown)
    ensures Tally(providers).unhealthy > 0 <==> SomeIs(providers, Unhealthy)
  {
    if providers != [] {
      var init, last := providers[..|providers| - 1], providers[|providers| - 1];
      TallyMeans(init);
      TallyTotal(init);
      AllOrSome(init, last, Healthy);
      AllOrSome(init, last, Unknown);
      AllOrSome(init, last, Unhealthy);
      assert providers == init + [last];
    }
  }

  /** The providers in the states picked out. */
  ghost function PositionsOf(providers: seq<Provider>, picks: Health -> bool): set<nat> {
    set i | 0 <= i < |providers| && picks(providers[i].health)
  }

  lemma PositionsStep(init: seq<Provider>, last: Provider, picks: Health -> bool)
    ensures |PositionsOf(init + [last], picks)| == |PositionsOf(init, picks)| + (if picks(last.health) then 1 else 0)
  {
    var before, after := PositionsOf(init, picks), PositionsOf(init + [last], picks);
    assert forall i | 0 <= i < |init| :: (init + [last])[i] == init[i];
    if picks(last.health) {
      assert after == before + {|init|};
    } else {
      assert after == before;
    }
  }

  lemma NoPositions(picks: Health -> bool)
    ensures |PositionsOf([], picks)| == 0
  {
    assert PositionsOf([], picks) == {};
  }

  ghost predicate CountsStates(c: Counts, providers: seq<Provider>) {
    && c.total == |providers|
    && c.healthy == |PositionsOf(providers, h => h == Healthy)|
    && c.degraded == |PositionsOf(providers, h => h == Degraded)|
    && c.unhealthy == |PositionsOf(providers, h => h == Unhealthy)|
    && c.unknown == |PositionsOf(providers, h => h == Unknown)|
    && c.other == |PositionsOf(providers, (h: Health) => h.OtherState?)|
  }

  /** Each counter counts the providers in its own state. */
  lemma {:induction false} TallyCounts(providers: seq<Provider>)
    ensures CountsStates(Tally(providers), providers)
  {
    var healthy, degraded, unhealthy := (h: Health) => h == Healthy, (h: Health) => h == Degraded, (h: Health) => h == Unhealthy;
    var unknown, other := (h: Health) => h == Unknown, (h: Health) => h.OtherState?;
    if providers == [] {
      NoPositions(healthy);
      NoPositions(degraded);
      NoPositions(unhealthy);
      NoPositions(unknown);
      NoPositions(other);
    } else {
      var init, last := providers[..|providers| - 1], providers[|providers| - 1];
      assert providers == init + [last];
      TallyCounts(init);
      PositionsStep(init, last, healthy);
      PositionsStep(init, last, degraded);
      PositionsStep(init, last, unhealthy);
      PositionsStep(init, last, unknown);
      PositionsStep(init, last, other);
    }
  }

  lemma AllOrSome(init: seq<Provider>, last: Provider, health: Health)
    ensures AllAre(init + [last], health) <==> AllAre(init, health) && last.health == health
    ensures SomeIs(init + [last], health) <==> SomeIs(init, health) || last.health == health
  {
    var all := init + [last];
    assert forall i | 0 <= i < |init| :: all[i] == init[i];
    assert all[|init|] == last;
  }

  /** The counts add up to the number of providers; the status is healthy exactly when every
      provider is, unhealthy exactly when some provider is, unknown exactly when there are providers
      and every one is unknown, and degraded otherwise. */
  lemma StatusMeans(providers: seq<Provider>)
    ensures
      var c, status := Tally(providers), StatusOf(Tally(providers));
      && |providers| == c.total == c.healthy + c.degraded + c.unhealthy + c.unknown + c.other
      && (status == Healthy <==> AllAre(providers, Healthy))
      && (status == Unhealthy <==> SomeIs(providers, Unhealthy))
      && (status == Unknown <==> providers != [] && AllAre(providers, Unknown))
      && status in {Healthy, Unhealthy, Unknown, Degraded}
  {
    TallyTotal(providers);
    TallyMeans(providers);
  }

  /** Each of the first `cap` rows has an id that is a number. */
  ghost predicate AllReadable(rows: seq<Row>, cap: nat) {
    forall i | 0 <= i < |rows| && i < cap :: rows[i].id.Some?
  }

  ghost predicate Collected(rows: seq<Row>, done: nat, providers: seq<Provider>) {
    && |providers| == done <= |rows|
    && forall i | 0 <= i < done :: rows[i].id == Some(providers[i].id) && rows[i].health == providers[i].health
  }

  /** One page: stops at the first row past the cap. */
  method CollectBatch(batch: seq<Row>, collected: seq<Provider>, cap: nat, ghost rows: seq<Row>)
    returns (r: Result<seq<Provider>, StoreError>, truncated: bool)
    requires Collected(rows, |collected|, collected) && |collected| <= cap
    requires |collected| + |batch| <= |rows| && forall i | 0 <= i < |batch| :: batch[i] == rows[|collected| + i]
    ensures r.Err? ==> !AllReadable(rows, cap)
    ensures r.Ok? ==> Collected(rows, |r.value|, r.value) && |r.value| <= cap
    ensures r.Ok? ==> if truncated then |r.value| == cap < |collected| + |batch| else |r.value| == |collected| + |batch|
  {
    var providers := collected;
    for i := 0 to |batch|
      invariant |providers| == |collected| + i <= cap && Collected(rows, |providers|, providers)
    {
      if |providers| >= cap {
        return Ok(providers), true;
      }
      var id := batch[i].id;
      if id.None? {
        assert rows[|providers|] == batch[i];
        return Err(MalformedId), false;
      }
      providers := providers + [Provider(id.value, batch[i].health)];
    }
    return Ok(providers), false;
  }

  /** The page behind the cursor, and the cursor of the next one when there is one. */
  method CollectPage(rows: seq<Row>, cursor: Option<string>, collected: seq<Provider>, cap: nat)
    returns (r: Result<seq<Provider>, StoreError>, truncated: bool, next: Option<string>)
    requires ValidBindings(rows) && |collected| <= |rows| && |collected| <= cap
    requires Collected(rows, |collected|, collected) && BindingCursorAt(rows, |collected|, cursor)
    ensures r.Err? ==> !AllReadable(rows, cap)
    ensures r.Ok? ==> |r.value| <= cap && Collected(rows, |r.value|, r.value)
    ensures r.Ok? && (truncated || next.None?) ==> |r.value| == |Take(rows, cap)| && (truncated <==> |rows| > cap)
    ensures r.Ok? && !truncated && next.Some? ==> |collected| < |r.value| && BindingCursorAt(rows, |r.value|, next)
  {
    var page := BindingPage(rows, cursor);
    BindingBatchAt(rows, |collected|, cursor);
    next := if |page| > PAGE_SIZE then Some(page[PAGE_SIZE - 1].uuid) else None;
    r, truncated := CollectBatch(Take(page, PAGE_SIZE), collected, cap, rows);
  }

  /** The page loop: the first `cap` rows, and whether a row past them was seen. */
  method CollectProviders(rows: seq<Row>, cap: nat) returns (r: Result<seq<Provider>, StoreError>, truncated: bool)
    requires ValidBindings(rows)
    ensures r.Ok? <==> AllReadable(rows, cap)
    ensures r.Ok? ==> Collected(rows, |Take(rows, cap)|, r.value) && (truncated <==> |rows| > cap)
  {
    var cursor: Option<string> := None;
    var providers: seq<Provider> := [];
    while true
      invariant |providers| <= |rows| && |providers| <= cap && BindingCursorAt(rows, |providers|, cursor)
      invariant Collected(rows, |providers|, providers)
      decreases |rows| - |providers|
    {
      r, truncated, cursor := CollectPage(rows, cursor, providers, cap);
      if r.Err? {
        return;
      }
      providers := r.value;
      if truncated || cursor.None? {
        CollectedAreReadable(rows, cap, providers);
        return;
      }
    }
  }

  lemma CollectedAreReadable(rows: seq<Row>, cap: nat, providers: seq<Provider>)
    requires Collected(rows, |providers|, providers) && |providers| == |Take(rows, cap)|
    ensures AllReadable(rows, cap)
  {
  }

  /** The first `cap` bindings, the truncation flag exactly when there are more, and their tally; a
      row among them whose id is not a number fails the call. */
  method RetrieveProviderHealthSummary(rows: seq<Row>, cap: nat) returns (r: Result<Summary, StoreError>)
    requires ValidBindings(rows)
    ensures r.Ok? <==> AllReadable(rows, cap)
    ensures r.Ok? ==>
      && Collected(rows, |Take(rows, cap)|, r.value.providers) && (r.value.truncated <==> |rows| > cap)
      && r.value.counts == Tally(r.value.providers) && r.value.status == StatusOf(r.value.counts)
  {
    var providers, truncated := CollectProviders(rows, cap);
    if providers.Err? {
      return Err(providers.error);
    }
    var counts := CountStates(providers.value);
    r := Ok(Summary(StatusOf(counts), providers.value, truncated, counts));
  }

  method CountStates(providers: seq<Provider>) returns (c: Counts)
    ensures c == Tally(providers)
  {
    c := Counts(|providers|, 0, 0, 0, 0, 0);
    assert providers[..0] == [];
    for i := 0 to |providers|
      invariant c == Tally(providers[..i]).(total := |providers|)
    {
      assert providers[..i + 1][..i] == providers[..i];
      match providers[i].health {
        case Healthy => c := c.(healthy := c.healthy + 1);
        case Degraded => c := c.(degraded := c.degraded + 1);
        case Unhealthy => c := c.(unhealthy := c.unhealthy + 1);
        case Unknown => c := c.(unknown := c.unknown + 1);
        case OtherState(_) => c := c.(other := c.other + 1);
      }
    }
    assert providers[..|providers|] == providers;
    TallyTotal(providers);
  }
}
