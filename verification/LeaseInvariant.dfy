/** The invariant of the lease plane and its preservation by every step. */
module LeaseInvariant {
  import opened Wrappers
  import opened LeasePlane

  // ----- One row -----

  /** The history alternates claim, end, claim, end, ..., every end names the claim before it,
      and no token claims the row twice. */
  ghost predicate Alternates(log: seq<Event>) {
    && (forall i | 0 <= i < |log| :: log[i].Claimed? <==> i % 2 == 0)
    && (forall i | 1 <= i < |log| && log[i].Ended? :: log[i - 1].token == log[i].token)
    && (forall i, j | 0 <= i < j < |log| && log[i].Claimed? && log[j].Claimed? :: log[i].token != log[j].token)
  }

  ghost predicate RowInv(cfg: Config, row: Row) {
    && Alternates(row.log)
    && (row.state.Running? <==> row.lease.Some?)
    && (row.state.Running? <==> |row.log| % 2 == 1)
    && (row.state.Running? ==> row.lease.value.token == row.log[|row.log| - 1].token)
    && (row.state.Queued? ==> |row.log| == 2 * row.attempts)
    && (row.state.Running? ==> |row.log| == 2 * row.attempts + 1)
    && (!Terminal(row.state) ==> row.attempts < ClaimBound(cfg))
    && |row.log| <= 2 * ClaimBound(cfg)
    && (|row.log| == 0 ==> row.state.Queued?)
    && (|row.log| > 0 && !row.state.Running? ==> row.log[|row.log| - 1].how.to == row.state)
  }

  lemma ClaimKeepsRow(cfg: Config, row: Row, owner: WorkerId, token: Token, ts: nat)
    requires RowInv(cfg, row) && row.state.Queued? && Claimed(token) !in row.log
    ensures RowInv(cfg, ClaimRow(cfg, row, owner, token, ts))
  {
    var log := row.log + [Claimed(token)];
    forall i, j | 0 <= i < j < |log| && log[i].Claimed? && log[j].Claimed?
      ensures log[i].token != log[j].token
    {
      if j == |row.log| {
        assert row.log[i] == Claimed(row.log[i].token) && row.log[i] in row.log;
      }
    }
    assert Alternates(log);
  }

  lemma EndKeepsRow(cfg: Config, row: Row, how: Ending, attempts: nat, nextAttempt: Option<nat>)
    requires RowInv(cfg, row) && row.state.Running? && !how.to.Running?
    requires how.to.Queued? ==> attempts == row.attempts + 1 && attempts < ClaimBound(cfg)
    ensures RowInv(cfg, EndAttempt(row, how, attempts, nextAttempt))
  {
    var log := row.log + [Ended(row.lease.value.token, how)];
    assert log[|row.log| - 1] == row.log[|row.log| - 1];
    assert Alternates(log);
  }

  /** Ending an attempt appends exactly the end of the attempt that was running. */
  ghost predicate SameOrEnded(row: Row, next: Row, how: Ending) {
    || (next.log == row.log && next.state == row.state && next.attempts == row.attempts)
    || (row.lease.Some? && next.state == how.to && next.log == row.log + [Ended(row.lease.value.token, how)])
  }

  lemma HolderKeepsRow(cfg: Config, row: Row, owner: WorkerId, token: Token, ts: nat, to: RowState)
    requires RowInv(cfg, row) && Terminal(to)
    ensures RowInv(cfg, RenewRow(cfg, row, owner, token, ts))
    ensures RowInv(cfg, FinishRow(cfg, row, owner, token, ts, to))
    ensures RowInv(cfg, FailRow(cfg, row, owner, token, ts))
  {
    if row.state.Running? {
      var charged := row.attempts + 1;
      EndKeepsRow(cfg, row, Acked(to), row.attempts, if cfg.plane.Outbox? then None else row.nextAttempt);
      EndKeepsRow(cfg, row, Charged(Failed), charged, None);
      if charged < ClaimBound(cfg) {
        EndKeepsRow(cfg, row, Charged(Queued), charged, Some(ts + Backoff(cfg, charged)));
      }
    }
  }

  lemma SweepKeepsRow(cfg: Config, row: Row, ts: nat)
    requires RowInv(cfg, row)
    ensures RowInv(cfg, SweepRow(cfg, row, ts))
  {
    if row.state.Running? {
      var charged := row.attempts + 1;
      EndKeepsRow(cfg, row, Swept(Failed), charged, row.nextAttempt);
      EndKeepsRow(cfg, row, Swept(Dead), row.attempts, row.nextAttempt);
      if charged < ClaimBound(cfg) {
        EndKeepsRow(cfg, row, Swept(Queued), charged, row.nextAttempt);
      }
    }
  }

  // ----- The whole system -----

  /** An acknowledged ending states what the execution under its own token completed with. */
  predicate Justified(plane: Plane, outcome: Outcome, how: Ending) {
    match how
    case Acked(to) => to == AckState(outcome)
    case Charged(to) => outcome.ExecErr? && !plane.Eval?
    case Swept(to) => true
  }

  ghost predicate EventOk(cfg: Config, s: Sys, id: RowId, e: Event) {
    match e
    case Claimed(token) => token in s.batches && id !in s.batches[token].remaining
    case Ended(token, how) =>
      how.Swept? || ((id, token) in s.completed && Justified(cfg.plane, s.completed[(id, token)], how))
  }

  ghost predicate Drawn(s: Sys, id: RowId, token: Token) {
    id in s.rows && token in s.batches && Claimed(token) in s.rows[id].log
  }

  ghost predicate TaskOk(cfg: Config, s: Sys, id: RowId, token: Token)
    requires (id, token) in s.tasks
  {
    && Drawn(s, id, token)
    && match s.tasks[(id, token)]
       case Executing => (id, token) !in s.completed
       case Done(outcome) => (id, token) in s.completed && s.completed[(id, token)] == outcome
       case Fallback => (id, token) in s.completed && s.completed[(id, token)] == ExecErr
  }

  ghost predicate RowsOk(cfg: Config, s: Sys) {
    forall id | id in s.rows :: RowInv(cfg, s.rows[id])
  }

  ghost predicate EventsOk(cfg: Config, s: Sys) {
    forall id, e | id in s.rows && e in s.rows[id].log :: EventOk(cfg, s, id, e)
  }

  ghost predicate TasksOk(cfg: Config, s: Sys) {
    forall id, token | (id, token) in s.tasks :: TaskOk(cfg, s, id, token)
  }

  ghost predicate CompletedOk(s: Sys) {
    forall id, token | (id, token) in s.completed :: Drawn(s, id, token)
  }

  ghost predicate SysInv(cfg: Config, s: Sys) {
    && RowsOk(cfg, s) && EventsOk(cfg, s) && TasksOk(cfg, s) && CompletedOk(s)
    && forall token | token in s.batches :: token < s.nextToken
  }


  lemma OpenBatchKeeps(cfg: Config, s: Sys, owner: WorkerId, ids: set<RowId>, ts: nat)
    requires SysInv(cfg, s)
    ensures SysInv(cfg, Apply(cfg, s, OpenBatch(owner, ids, ts)))
  {
    var next := Apply(cfg, s, OpenBatch(owner, ids, ts));
    assert forall token | token in s.batches :: token != s.nextToken;
    assert next.rows == s.rows && next.tasks == s.tasks && next.completed == s.completed;
  }

  /** The row a claim writes keeps its invariant, and its history grows by the claim. */
  lemma ClaimedRowsOk(cfg: Config, s: Sys, id: RowId, token: Token, ts: nat)
    requires SysInv(cfg, s)
    ensures
      var next := Apply(cfg, s, ClaimOne(id, token, ts));
      && RowsOk(cfg, next)
      && forall other, e | other in s.rows && e in s.rows[other].log :: other in next.rows && e in next.rows[other].log
  {
    var next := Apply(cfg, s, ClaimOne(id, token, ts));
    if next != s && s.rows[id].state.Queued? {
      assert Claimed(token) in s.rows[id].log ==> EventOk(cfg, s, id, Claimed(token));
      ClaimKeepsRow(cfg, s.rows[id], s.batches[token].owner, token, ts);
      assert next.rows[id].log == s.rows[id].log + [Claimed(token)];
    }
  }

  /** A claim starts a task with its own token and leaves the others. */
  lemma ClaimedTasksOk(cfg: Config, s: Sys, id: RowId, token: Token, ts: nat)
    requires SysInv(cfg, s)
    ensures TasksOk(cfg, Apply(cfg, s, ClaimOne(id, token, ts)))
  {
    var next := Apply(cfg, s, ClaimOne(id, token, ts));
    ClaimedRowsOk(cfg, s, id, token, ts);
    forall other, t | (other, t) in next.tasks
      ensures TaskOk(cfg, next, other, t)
    {
      if (other, t) in s.tasks && next.tasks[(other, t)] == s.tasks[(other, t)] && (other, t) != (id, token) {
        assert TaskOk(cfg, s, other, t);
      } else {
        FreshTaskOk(cfg, s, id, token, ts);
      }
    }
  }

  lemma FreshTaskOk(cfg: Config, s: Sys, id: RowId, token: Token, ts: nat)
    requires SysInv(cfg, s)
    ensures
      var next := Apply(cfg, s, ClaimOne(id, token, ts));
      (id, token) in next.tasks ==> TaskOk(cfg, next, id, token)
  {
    var next := Apply(cfg, s, ClaimOne(id, token, ts));
    assert (id, token) in s.tasks ==> TaskOk(cfg, s, id, token);
    assert (id, token) in s.completed ==> Drawn(s, id, token);
    assert id in s.rows && Claimed(token) in s.rows[id].log ==> EventOk(cfg, s, id, Claimed(token));
    if next != s && s.rows[id].state.Queued? {
      assert next.rows[id].log[|s.rows[id].log|] == Claimed(token);
    }
  }

  lemma ClaimOneKeeps(cfg: Config, s: Sys, id: RowId, token: Token, ts: nat)
    requires SysInv(cfg, s)
    ensures SysInv(cfg, Apply(cfg, s, ClaimOne(id, token, ts)))
  {
    ClaimedRowsOk(cfg, s, id, token, ts);
    ClaimedEventsOk(cfg, s, id, token, ts);
    ClaimedTasksOk(cfg, s, id, token, ts);
    ClaimedCompletedOk(cfg, s, id, token, ts);
  }

  lemma ClaimedCompletedOk(cfg: Config, s: Sys, id: RowId, token: Token, ts: nat)
    requires SysInv(cfg, s)
    ensures
      var next := Apply(cfg, s, ClaimOne(id, token, ts));
      CompletedOk(next) && forall t | t in next.batches :: t < next.nextToken
  {
    var next := Apply(cfg, s, ClaimOne(id, token, ts));
    ClaimedRowsOk(cfg, s, id, token, ts);
    forall other, t | (other, t) in next.completed
      ensures Drawn(next, other, t)
    {
      assert Drawn(s, other, t);
    }
  }

  lemma ClaimedEventsOk(cfg: Config, s: Sys, id: RowId, token: Token, ts: nat)
    requires EventsOk(cfg, s)
    ensures EventsOk(cfg, Apply(cfg, s, ClaimOne(id, token, ts)))
  {
    var next := Apply(cfg, s, ClaimOne(id, token, ts));
    forall other, e | other in next.rows && e in next.rows[other].log
      ensures EventOk(cfg, next, other, e)
    {
      if other in s.rows && e in s.rows[other].log {
        assert EventOk(cfg, s, other, e);
      }
    }
  }

  /** Storing a row whose log only grew by an ending its completed execution justifies. */
  lemma StoreKeeps(cfg: Config, s: Sys, id: RowId, row: Row, how: Ending)
    requires SysInv(cfg, s) && id in s.rows && RowInv(cfg, row)
    requires SameOrEnded(s.rows[id], row, how)
    requires row.log != s.rows[id].log ==> EventOk(cfg, s, id, Ended(s.rows[id].lease.value.token, how))
    ensures SysInv(cfg, s.(rows := s.rows[id := row]))
  {
    var next := s.(rows := s.rows[id := row]);
    forall other, e | other in next.rows && e in next.rows[other].log
      ensures EventOk(cfg, next, other, e)
    {
      if e in s.rows[other].log {
        assert EventOk(cfg, s, other, e);
      }
    }
    assert forall e | e in s.rows[id].log :: e in row.log;
    forall other, token | (other, token) in next.tasks
      ensures TaskOk(cfg, next, other, token)
    {
      assert TaskOk(cfg, s, other, token);
    }
  }

  lemma RetireKeeps(cfg: Config, s: Sys, id: RowId, token: Token)
    requires SysInv(cfg, s)
    ensures SysInv(cfg, Retired(s, id, token))
  {
    var next := Retired(s, id, token);
    forall other, t | (other, t) in next.tasks
      ensures TaskOk(cfg, next, other, t)
    {
      assert TaskOk(cfg, s, other, t);
    }
  }

  lemma HeartbeatKeeps(cfg: Config, s: Sys, id: RowId, token: Token, ts: nat, reply: Reply)
    requires SysInv(cfg, s)
    ensures SysInv(cfg, Apply(cfg, s, Heartbeat(id, token, ts, reply)))
  {
    if IsTask(s, id, token) && s.tasks[(id, token)].Executing? && ts <= s.now {
      var row := RenewRow(cfg, s.rows[id], s.batches[token].owner, token, ts);
      HolderKeepsRow(cfg, s.rows[id], s.batches[token].owner, token, ts, Failed);
      StoreKeeps(cfg, s, id, row, Acked(Failed));
      var next := Stored(s, id, row, reply);
      RetireKeeps(cfg, next, id, token);
    }
  }

  lemma CompleteKeeps(cfg: Config, s: Sys, id: RowId, token: Token, outcome: Outcome)
    requires SysInv(cfg, s)
    ensures SysInv(cfg, Apply(cfg, s, Complete(id, token, outcome)))
  {
    var next := Apply(cfg, s, Complete(id, token, outcome));
    if next != s {
      assert TaskOk(cfg, s, id, token);
      forall other, e | other in next.rows && e in next.rows[other].log
        ensures EventOk(cfg, next, other, e)
      {
        assert EventOk(cfg, s, other, e);
      }
      forall other, t | (other, t) in next.tasks
        ensures TaskOk(cfg, next, other, t)
      {
        assert TaskOk(cfg, s, other, t);
      }
      assert CompletedOk(next);
    }
  }

  /** The ending an acknowledgement of `outcome` writes on a row it still holds. */
  function AckEnding(cfg: Config, row: Row, outcome: Outcome): Ending {
    if outcome.ExecErr? && !cfg.plane.Eval? then
      var ceiling := if cfg.plane.Outbox? then Max(cfg.maxAttempts, 1) else cfg.maxAttempts;
      Charged(if row.attempts + 1 >= ceiling then Failed else Queued)
    else Acked(AckState(outcome))
  }

  lemma AcknowledgedRowKeeps(cfg: Config, s: Sys, id: RowId, token: Token, ts: nat, reply: Reply)
    requires SysInv(cfg, s) && IsTask(s, id, token) && s.tasks[(id, token)].Done? && ts <= s.now
    ensures SysInv(cfg, Stored(s, id, AckRow(cfg, s.rows[id], s.batches[token].owner, token, ts, s.tasks[(id, token)].outcome), reply))
  {
    assert TaskOk(cfg, s, id, token);
    var outcome, owner := s.tasks[(id, token)].outcome, s.batches[token].owner;
    var row := AckRow(cfg, s.rows[id], owner, token, ts, outcome);
    HolderKeepsRow(cfg, s.rows[id], owner, token, ts, AckState(outcome));
    StoreKeeps(cfg, s, id, row, AckEnding(cfg, s.rows[id], outcome));
  }

  lemma AcknowledgeKeeps(cfg: Config, s: Sys, id: RowId, token: Token, ts: nat, reply: Reply)
    requires SysInv(cfg, s)
    ensures SysInv(cfg, Apply(cfg, s, Acknowledge(id, token, ts, reply)))
  {
    if IsTask(s, id, token) && s.tasks[(id, token)].Done? && ts <= s.now {
      AcknowledgedRowKeeps(cfg, s, id, token, ts, reply);
      var outcome := s.tasks[(id, token)].outcome;
      var next := Stored(s, id, AckRow(cfg, s.rows[id], s.batches[token].owner, token, ts, outcome), reply);
      RetireKeeps(cfg, next, id, token);
      assert TaskOk(cfg, s, id, token) && TaskOk(cfg, next, id, token);
      var after := Apply(cfg, s, Acknowledge(id, token, ts, reply));
      if (id, token) in after.tasks {
        forall other, t | (other, t) in after.tasks
          ensures TaskOk(cfg, after, other, t)
        {
          assert TaskOk(cfg, next, other, t);
        }
      }
    }
  }

  lemma FinishFallbackKeeps(cfg: Config, s: Sys, id: RowId, token: Token, ts: nat, reply: Reply)
    requires SysInv(cfg, s)
    ensures SysInv(cfg, Apply(cfg, s, FinishFallback(id, token, ts, reply)))
  {
    if IsTask(s, id, token) && s.tasks[(id, token)].Fallback? && ts <= s.now {
      assert TaskOk(cfg, s, id, token);
      var owner := s.batches[token].owner;
      var row := FinishRow(cfg, s.rows[id], owner, token, ts, Failed);
      HolderKeepsRow(cfg, s.rows[id], owner, token, ts, Failed);
      StoreKeeps(cfg, s, id, row, Acked(Failed));
      RetireKeeps(cfg, Stored(s, id, row, reply), id, token);
    }
  }

  lemma TickKeeps(cfg: Config, s: Sys, seconds: nat)
    requires SysInv(cfg, s)
    ensures SysInv(cfg, Apply(cfg, s, Tick(seconds)))
  {
    var next := Apply(cfg, s, Tick(seconds));
    assert forall id, e | id in s.rows && e in s.rows[id].log :: EventOk(cfg, s, id, e) && EventOk(cfg, next, id, e);
    assert forall id, token | (id, token) in s.tasks :: TaskOk(cfg, s, id, token) && TaskOk(cfg, next, id, token);
  }

  lemma EnqueuedHistoriesOk(cfg: Config, s: Sys, id: RowId)
    requires SysInv(cfg, s)
    ensures
      var next := Apply(cfg, s, Enqueue(id));
      && RowsOk(cfg, next) && EventsOk(cfg, next)
      && forall other | other in s.rows :: other in next.rows && next.rows[other] == s.rows[other]
  {
    var next := Apply(cfg, s, Enqueue(id));
    assert id in next.rows && (id !in s.rows ==> next.rows[id] == NEW_ROW);
    forall other, e | other in next.rows && e in next.rows[other].log
      ensures EventOk(cfg, next, other, e)
    {
      assert other in s.rows && EventOk(cfg, s, other, e);
    }
  }

  lemma EnqueueKeeps(cfg: Config, s: Sys, id: RowId)
    requires SysInv(cfg, s)
    ensures SysInv(cfg, Apply(cfg, s, Enqueue(id)))
  {
    var next := Apply(cfg, s, Enqueue(id));
    EnqueuedHistoriesOk(cfg, s, id);
    assert next == s.(rows := next.rows);
    forall other, token | (other, token) in next.tasks
      ensures TaskOk(cfg, next, other, token)
    {
      assert TaskOk(cfg, s, other, token);
    }
    forall other, token | (other, token) in next.completed
      ensures Drawn(next, other, token)
    {
      assert Drawn(s, other, token);
    }
  }

  lemma SweepKeeps(cfg: Config, s: Sys, id: RowId, ts: nat)
    requires SysInv(cfg, s)
    ensures SysInv(cfg, Apply(cfg, s, Sweep(id, ts)))
  {
    if id in s.rows && ts <= s.now {
      var row := SweepRow(cfg, s.rows[id], ts);
      SweepKeepsRow(cfg, s.rows[id], ts);
      StoreKeeps(cfg, s, id, row, Swept(row.state));
    }
  }

  lemma StepKeeps(cfg: Config, s: Sys, step: Step)
    requires SysInv(cfg, s)
    ensures SysInv(cfg, Apply(cfg, s, step))
  {
    match step
    case Tick(seconds) => TickKeeps(cfg, s, seconds);
    case Enqueue(id) => EnqueueKeeps(cfg, s, id);
    case Sweep(id, ts) => SweepKeeps(cfg, s, id, ts);
    case OpenBatch(owner, ids, ts) => OpenBatchKeeps(cfg, s, owner, ids, ts);
    case ClaimOne(id, token, ts) => ClaimOneKeeps(cfg, s, id, token, ts);
    case Heartbeat(id, token, ts, reply) => HeartbeatKeeps(cfg, s, id, token, ts, reply);
    case Complete(id, token, outcome) => CompleteKeeps(cfg, s, id, token, outcome);
    case Acknowledge(id, token, ts, reply) => AcknowledgeKeeps(cfg, s, id, token, ts, reply);
    case FinishFallback(id, token, ts, reply) => FinishFallbackKeeps(cfg, s, id, token, ts, reply);
    case Crash(id, token) => RetireKeeps(cfg, s, id, token);
  }

  lemma {:induction false} RunKeeps(cfg: Config, s: Sys, steps: seq<Step>)
    requires SysInv(cfg, s)
    ensures SysInv(cfg, Run(cfg, s, steps))
    decreases |steps|
  {
    if steps != [] {
      StepKeeps(cfg, s, steps[0]);
      RunKeeps(cfg, Apply(cfg, s, steps[0]), steps[1..]);
    }
  }

  /** In every run, with any number of workers, crashes and clock ticks, the invariant holds. */
  lemma EveryRunIsSound(cfg: Config, steps: seq<Step>)
    ensures SysInv(cfg, Run(cfg, INIT, steps))
  {
    RunKeeps(cfg, INIT, steps);
  }
}
