/**
 The lease-fenced worker plane as a step system: learning jobs, eval runs and outbox events.

 A row is claimed under an owner, a token and an expiry; every statement that ends an attempt
 compares that triple in its WHERE clause. One `Sys` holds one table, the claim batches of all
 workers, and the tasks those workers are executing. `Apply` is total: a step that is not
 enabled leaves the system as it is, so every sequence of steps is a run.
 */
module LeasePlane {
  import opened Wrappers

  type RowId = nat
  type Token = nat
  type WorkerId = nat

  datatype Plane = Learning | Eval | Outbox

  /** Outbox names: pending = Queued, processing = Running, published = Succeeded.
      The eval state 'accepted' is claimable exactly as 'queued' is, and is Queued here. */
  datatype RowState = Queued | Running | Succeeded | Failed | Dead | Skipped

  datatype Lease = Lease(owner: WorkerId, token: Token, expiresAt: nat)

  /** How the execution of a claimed row completed. */
  datatype Outcome = ExecOk | ExecErr | ExecSkipped

  /** How an attempt ended: acknowledged terminally, charged after an execution error, or swept. */
  datatype Ending = Acked(to: RowState) | Charged(to: RowState) | Swept(to: RowState)

  datatype Event = Claimed(token: Token) | Ended(token: Token, how: Ending)

  /** `log` is the row's history: one event for every statement that changed its state. */
  datatype Row = Row(
    state: RowState,
    attempts: nat,
    lease: Option<Lease>,
    nextAttempt: Option<nat>,
    log: seq<Event>)

  datatype Config = Config(plane: Plane, maxAttempts: nat, leaseSeconds: nat, batchLimit: nat, backoffSeconds: nat)

  const NEW_ROW := Row(Queued, 0, None, None, [])

  predicate Terminal(state: RowState) {
    !state.Queued? && !state.Running?
  }

  function Max(a: nat, b: nat): nat {
    if a < b then b else a
  }

  // ----- Statements on one row. `ts` is the timestamp the statement was bound with. -----

  /** The WHERE clause shared by renewal, completion and failure marking. */
  predicate Holds(row: Row, owner: WorkerId, token: Token, ts: nat) {
    && row.state.Running?
    && row.lease.Some?
    && row.lease.value.owner == owner
    && row.lease.value.token == token
    && ts < row.lease.value.expiresAt
  }

  predicate Due(row: Row, ts: nat) {
    row.state.Queued? && (row.nextAttempt.Some? ==> row.nextAttempt.value <= ts)
  }

  /** A running row always carries a lease (see RowInv), so the statement's IS NULL disjunct never decides. */
  predicate Stale(row: Row, ts: nat) {
    row.state.Running? && row.lease.Some? && row.lease.value.expiresAt <= ts
  }

  function ExpiryAfter(cfg: Config, ts: nat): nat {
    ts + Max(cfg.leaseSeconds, 5)
  }

  function ClaimRow(cfg: Config, row: Row, owner: WorkerId, token: Token, ts: nat): Row {
    if row.state.Queued? then
      Row(Running, row.attempts, Some(Lease(owner, token, ExpiryAfter(cfg, ts))),
          if cfg.plane.Outbox? then None else row.nextAttempt,
          row.log + [Claimed(token)])
    else row
  }

  function RenewRow(cfg: Config, row: Row, owner: WorkerId, token: Token, ts: nat): Row {
    if Holds(row, owner, token, ts) then
      row.(lease := Some(Lease(owner, token, ExpiryAfter(cfg, ts))))
    else row
  }

  /** Leave the running state for `to`, clearing the lease and recording how. */
  function EndAttempt(row: Row, how: Ending, attempts: nat, nextAttempt: Option<nat>): Row
    requires row.lease.Some?
  {
    Row(how.to, attempts, None, nextAttempt, row.log + [Ended(row.lease.value.token, how)])
  }

  function FinishRow(cfg: Config, row: Row, owner: WorkerId, token: Token, ts: nat, to: RowState): Row {
    if Holds(row, owner, token, ts) then
      EndAttempt(row, Acked(to), row.attempts, if cfg.plane.Outbox? then None else row.nextAttempt)
    else row
  }

  /** 2, 4, 8, 16, 32, 32, ... seconds for the outbox; the configured backoff for jobs. */
  function Backoff(cfg: Config, charged: nat): nat {
    if cfg.plane.Outbox? then
      (if charged <= 1 then 2 else if charged == 2 then 4 else if charged == 3 then 8
       else if charged == 4 then 16 else 32)
    else Max(cfg.backoffSeconds, 1)
  }

  /** Charge a failed execution: back to the queue while attempts remain, else terminally failed. */
  function FailRow(cfg: Config, row: Row, owner: WorkerId, token: Token, ts: nat): Row {
    if Holds(row, owner, token, ts) then
      var charged := row.attempts + 1;
      var ceiling := if cfg.plane.Outbox? then Max(cfg.maxAttempts, 1) else cfg.maxAttempts;
      if charged >= ceiling then EndAttempt(row, Charged(Failed), charged, None)
      else EndAttempt(row, Charged(Queued), charged, Some(ts + Backoff(cfg, charged)))
    else row
  }

  /** Recover a row whose holder let the lease expire. Job tables compare the count before the
      charge and do not charge the row they bury; the outbox compares the count after it. */
  function SweepRow(cfg: Config, row: Row, ts: nat): Row {
    if Stale(row, ts) then
      if cfg.plane.Outbox? then
        EndAttempt(row, Swept(if row.attempts + 1 >= cfg.maxAttempts then Failed else Queued),
                   row.attempts + 1, row.nextAttempt)
      else if row.attempts >= cfg.maxAttempts then
        EndAttempt(row, Swept(Dead), row.attempts, row.nextAttempt)
      else
        EndAttempt(row, Swept(Queued), row.attempts + 1, row.nextAttempt)
    else row
  }

  // ----- Workers -----

  /** One claim statement sequence: the ids it selected and has not updated yet. */
  datatype Batch = Batch(owner: WorkerId, remaining: set<RowId>)

  /** Program counter of a claimed row's task. */
  datatype Pc = Executing | Done(outcome: Outcome) | Fallback

  /** Answer of a store call: it answered, or reported an error before or after its effect. */
  datatype Reply = Answered | ErrBefore | ErrAfter

  datatype Sys = Sys(
    now: nat,
    rows: map<RowId, Row>,
    batches: map<Token, Batch>,
    nextToken: Token,
    tasks: map<(RowId, Token), Pc>,
    completed: map<(RowId, Token), Outcome>)

  const INIT := Sys(0, map[], map[], 0, map[], map[])

  datatype Step =
    | Tick(seconds: nat)
    | Enqueue(id: RowId)
    | Sweep(id: RowId, ts: nat)
    | OpenBatch(owner: WorkerId, ids: set<RowId>, ts: nat)
    | ClaimOne(id: RowId, token: Token, ts: nat)
    | Heartbeat(id: RowId, token: Token, ts: nat, reply: Reply)
    | Complete(id: RowId, token: Token, outcome: Outcome)
    | Acknowledge(id: RowId, token: Token, ts: nat, reply: Reply)
    | FinishFallback(id: RowId, token: Token, ts: nat, reply: Reply)
    | Crash(id: RowId, token: Token)

  function AckState(outcome: Outcome): RowState {
    match outcome
    case ExecOk => Succeeded
    case ExecErr => Failed
    case ExecSkipped => Skipped
  }

  /** The first store call after the execution completed. */
  function AckRow(cfg: Config, row: Row, owner: WorkerId, token: Token, ts: nat, outcome: Outcome): Row {
    if outcome.ExecErr? && !cfg.plane.Eval? then FailRow(cfg, row, owner, token, ts)
    else FinishRow(cfg, row, owner, token, ts, AckState(outcome))
  }

  predicate IsTask(s: Sys, id: RowId, token: Token) {
    (id, token) in s.tasks && id in s.rows && token in s.batches
  }

  function Stored(s: Sys, id: RowId, row: Row, reply: Reply): Sys {
    if reply.ErrBefore? then s else s.(rows := s.rows[id := row])
  }

  function Retired(s: Sys, id: RowId, token: Token): Sys {
    s.(tasks := s.tasks - {(id, token)})
  }

  function Apply(cfg: Config, s: Sys, step: Step): Sys {
    match step
    case Tick(seconds) => s.(now := s.now + seconds)
    case Enqueue(id) => if id in s.rows then s else s.(rows := s.rows[id := NEW_ROW])
    case Sweep(id, ts) =>
      if id in s.rows && ts <= s.now then s.(rows := s.rows[id := SweepRow(cfg, s.rows[id], ts)]) else s
    case OpenBatch(owner, ids, ts) =>
      if ts <= s.now && |ids| <= Max(cfg.batchLimit, 1) && forall id | id in ids :: id in s.rows && Due(s.rows[id], ts)
      then s.(batches := s.batches[s.nextToken := Batch(owner, ids)], nextToken := s.nextToken + 1)
      else s
    case ClaimOne(id, token, ts) =>
      if token in s.batches && id in s.batches[token].remaining && id in s.rows && ts <= s.now then
        var batch := s.batches[token];
        var drawn := s.(batches := s.batches[token := batch.(remaining := batch.remaining - {id})]);
        if s.rows[id].state.Queued? then
          drawn.(rows := s.rows[id := ClaimRow(cfg, s.rows[id], batch.owner, token, ts)],
                 tasks := s.tasks[(id, token) := Executing])
        else drawn
      else s
    case Heartbeat(id, token, ts, reply) =>
      if IsTask(s, id, token) && s.tasks[(id, token)].Executing? && ts <= s.now then
        var owner := s.batches[token].owner;
        var next := Stored(s, id, RenewRow(cfg, s.rows[id], owner, token, ts), reply);
        if reply.Answered? && Holds(s.rows[id], owner, token, ts) then next else Retired(next, id, token)
      else s
    case Complete(id, token, outcome) =>
      if IsTask(s, id, token) && s.tasks[(id, token)].Executing? && (outcome.ExecSkipped? ==> cfg.plane.Eval?) then
        s.(tasks := s.tasks[(id, token) := Done(outcome)],
           completed := s.completed[(id, token) := outcome])
      else s
    case Acknowledge(id, token, ts, reply) =>
      if IsTask(s, id, token) && s.tasks[(id, token)].Done? && ts <= s.now then
        var outcome := s.tasks[(id, token)].outcome;
        var next := Stored(s, id, AckRow(cfg, s.rows[id], s.batches[token].owner, token, ts, outcome), reply);
        if cfg.plane.Learning? && outcome.ExecErr? && !reply.Answered?
        then next.(tasks := s.tasks[(id, token) := Fallback])
        else Retired(next, id, token)
      else s
    case FinishFallback(id, token, ts, reply) =>
      if IsTask(s, id, token) && s.tasks[(id, token)].Fallback? && ts <= s.now then
        Retired(Stored(s, id, FinishRow(cfg, s.rows[id], s.batches[token].owner, token, ts, Failed), reply), id, token)
      else s
    case Crash(id, token) => Retired(s, id, token)
  }

  function Run(cfg: Config, s: Sys, steps: seq<Step>): Sys
    decreases |steps|
  {
    if steps == [] then s else Run(cfg, Apply(cfg, s, steps[0]), steps[1..])
  }

  lemma {:induction false} RunAppend(cfg: Config, s: Sys, first: seq<Step>, second: seq<Step>)
    ensures Run(cfg, s, first + second) == Run(cfg, Run(cfg, s, first), second)
    decreases |first|
  {
    if first == [] {
      assert first + second == second;
    } else {
      assert (first + second)[0] == first[0] && (first + second)[1..] == first[1..] + second;
      RunAppend(cfg, Apply(cfg, s, first[0]), first[1..], second);
    }
  }

  /** The most claims any run can make of one row. */
  function ClaimBound(cfg: Config): nat {
    if cfg.plane.Outbox? then Max(cfg.maxAttempts, 1) else cfg.maxAttempts + 1
  }

  function Claims(log: seq<Event>): nat {
    if log == [] then 0 else Claims(log[..|log| - 1]) + (if log[|log| - 1].Claimed? then 1 else 0)
  }
}
