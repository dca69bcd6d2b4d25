/** What holds over whole runs of the lease plane. Every theorem quantifies over all step sequences. */
module LeaseRuns {
  import opened Wrappers
  import opened LeasePlane
  import opened LeaseInvariant

  // ----- The effect of one step on one row -----

  function RowNext(cfg: Config, s: Sys, step: Step, id: RowId): Row
    requires id in s.rows
  {
    var row := s.rows[id];
    match step
    case Sweep(other, ts) => if other == id && ts <= s.now then SweepRow(cfg, row, ts) else row
    case ClaimOne(other, token, ts) =>
      if other == id && token in s.batches && id in s.batches[token].remaining && ts <= s.now
      then ClaimRow(cfg, row, s.batches[token].owner, token, ts) else row
    case Heartbeat(other, token, ts, reply) =>
      if other == id && IsTask(s, id, token) && s.tasks[(id, token)].Executing? && ts <= s.now && !reply.ErrBefore?
      then RenewRow(cfg, row, s.batches[token].owner, token, ts) else row
    case Acknowledge(other, token, ts, reply) =>
      if other == id && IsTask(s, id, token) && s.tasks[(id, token)].Done? && ts <= s.now && !reply.ErrBefore?
      then AckRow(cfg, row, s.batches[token].owner, token, ts, s.tasks[(id, token)].outcome) else row
    case FinishFallback(other, token, ts, reply) =>
      if other == id && IsTask(s, id, token) && s.tasks[(id, token)].Fallback? && ts <= s.now && !reply.ErrBefore?
      then FinishRow(cfg, row, s.batches[token].owner, token, ts, Failed) else row
    case _ => row
  }

  lemma RowNextIsNext(cfg: Config, s: Sys, step: Step, id: RowId)
    requires id in s.rows
    ensures id in Apply(cfg, s, step).rows && Apply(cfg, s, step).rows[id] == RowNext(cfg, s, step, id)
  {
  }

  /** A renewal changes nothing but the expiry. */
  ghost predicate Renewed(row: Row, next: Row) {
    && next.state.Running? && next.lease.Some? && row.lease.Some?
    && next.lease.value.token == row.lease.value.token && next.lease.value.owner == row.lease.value.owner
    && next.log == row.log && next.attempts == row.attempts && next.nextAttempt == row.nextAttempt
  }

  ghost predicate EndedAs(row: Row, next: Row, how: Ending) {
    && row.lease.Some?
    && next.log == row.log + [Ended(row.lease.value.token, how)] && next.state == how.to
  }

  lemma RunningRowStatements(cfg: Config, row: Row, owner: WorkerId, token: Token, ts: nat, outcome: Outcome)
    requires RowInv(cfg, row) && row.state.Running?
    ensures ClaimRow(cfg, row, owner, token, ts) == row
    ensures Renewed(row, RenewRow(cfg, row, owner, token, ts))
    ensures var next := SweepRow(cfg, row, ts);
      next == row || (row.lease.value.expiresAt <= ts && EndedAs(row, next, Swept(next.state)))
    ensures var next := AckRow(cfg, row, owner, token, ts, outcome);
      next == row || (Holds(row, owner, token, ts) && EndedAs(row, next, AckEnding(cfg, row, outcome)))
    ensures var next := FinishRow(cfg, row, owner, token, ts, Failed);
      next == row || (Holds(row, owner, token, ts) && EndedAs(row, next, Acked(Failed)))
  {
  }

  // ----- Fencing -----

  /** A running row keeps its lease identity, its count and its history, or else it was left by
      the stale sweep after its expiry, or by the task that holds its current token before it. */
  lemma OnlyHolderOrSweepEndsAttempt(cfg: Config, steps: seq<Step>, step: Step, id: RowId)
    requires id in Run(cfg, INIT, steps).rows
    requires Run(cfg, INIT, steps).rows[id].state.Running?
    ensures
      var s := Run(cfg, INIT, steps);
      var next := Apply(cfg, s, step);
      && id in next.rows
      && s.rows[id].lease.Some?
      && var lease := s.rows[id].lease.value;
      || Renewed(s.rows[id], next.rows[id])
      || (step.Sweep? && step.id == id && lease.expiresAt <= step.ts <= s.now
          && EndedAs(s.rows[id], next.rows[id], Swept(next.rows[id].state)))
      || (&& (step.Acknowledge? || step.FinishFallback?) && step.id == id && step.token == lease.token
          && (id, lease.token) in s.tasks && (id, lease.token) in s.completed && step.ts < lease.expiresAt
          && EndedAs(s.rows[id], next.rows[id],
                     if step.FinishFallback? then Acked(Failed)
                     else AckEnding(cfg, s.rows[id], s.completed[(id, lease.token)])))
  {
    var s := Run(cfg, INIT, steps);
    EveryRunIsSound(cfg, steps);
    assert RowInv(cfg, s.rows[id]);
    RowNextIsNext(cfg, s, step, id);
    if step.Heartbeat? || step.Acknowledge? || step.FinishFallback? {
      if IsTask(s, id, step.token) && step.id == id {
        assert TaskOk(cfg, s, id, step.token);
        var outcome := if s.tasks[(id, step.token)].Done? then s.tasks[(id, step.token)].outcome else ExecErr;
        RunningRowStatements(cfg, s.rows[id], s.batches[step.token].owner, step.token, step.ts, outcome);
      }
    } else if step.Sweep? {
      RunningRowStatements(cfg, s.rows[id], 0, 0, step.ts, ExecErr);
    }
  }

  lemma IdleRowStatements(cfg: Config, row: Row, owner: WorkerId, token: Token, ts: nat, outcome: Outcome)
    requires !row.state.Running?
    ensures RenewRow(cfg, row, owner, token, ts) == row && SweepRow(cfg, row, ts) == row
    ensures AckRow(cfg, row, owner, token, ts, outcome) == row && FinishRow(cfg, row, owner, token, ts, Failed) == row
  {
  }

  /** A step changes the state of a row exactly when it appends to the row's history, and it
      appends at most one event, so the history theorems below are about every state change. */
  lemma HistoryRecordsEveryChange(cfg: Config, steps: seq<Step>, step: Step, id: RowId)
    requires id in Run(cfg, INIT, steps).rows
    ensures
      var row := Run(cfg, INIT, steps).rows[id];
      var next := Apply(cfg, Run(cfg, INIT, steps), step);
      && id in next.rows
      && row.log <= next.rows[id].log
      && |next.rows[id].log| <= |row.log| + 1
      && (next.rows[id].log == row.log <==> next.rows[id].state == row.state)
      && (next.rows[id].log == row.log ==> next.rows[id].attempts == row.attempts)
  {
    var s := Run(cfg, INIT, steps);
    EveryRunIsSound(cfg, steps);
    RowNextIsNext(cfg, s, step, id);
    assert RowInv(cfg, s.rows[id]);
    if s.rows[id].state.Running? {
      OnlyHolderOrSweepEndsAttempt(cfg, steps, step, id);
      var next := Apply(cfg, s, step).rows[id];
      EveryRunIsSound(cfg, steps);
      StepKeeps(cfg, s, step);
      assert RowInv(cfg, next);
    } else if (step.Heartbeat? || step.Acknowledge? || step.FinishFallback?) && IsTask(s, id, step.token) {
      var outcome := if s.tasks[(id, step.token)].Done? then s.tasks[(id, step.token)].outcome else ExecErr;
      IdleRowStatements(cfg, s.rows[id], s.batches[step.token].owner, step.token, step.ts, outcome);
    } else if step.Sweep? {
      IdleRowStatements(cfg, s.rows[id], 0, 0, step.ts, ExecErr);
    }
  }

  /** No attempt ends twice: two ends in one history carry different tokens, and likewise two claims. */
  lemma AttemptEndsAtMostOnce(cfg: Config, steps: seq<Step>, id: RowId, i: nat, j: nat)
    requires id in Run(cfg, INIT, steps).rows
    requires i < j < |Run(cfg, INIT, steps).rows[id].log|
    requires
      var log := Run(cfg, INIT, steps).rows[id].log;
      (log[i].Ended? && log[j].Ended?) || (log[i].Claimed? && log[j].Claimed?)
    ensures
      var log := Run(cfg, INIT, steps).rows[id].log;
      log[i].token != log[j].token
  {
    EveryRunIsSound(cfg, steps);
    var s := Run(cfg, INIT, steps);
    assert RowInv(cfg, s.rows[id]);
    var log := s.rows[id].log;
    if log[i].Ended? {
      assert log[i - 1].Claimed? && log[j - 1].Claimed?;
    }
  }

  /** Once an attempt has ended, nothing its task still does changes the row. In particular a
      requeue that took effect but reported an error makes the terminal fallback write a no-op. */
  lemma EndedAttemptIsInert(cfg: Config, steps: seq<Step>, step: Step, id: RowId, token: Token, how: Ending)
    requires id in Run(cfg, INIT, steps).rows
    requires Ended(token, how) in Run(cfg, INIT, steps).rows[id].log
    requires (step.Heartbeat? || step.Complete? || step.Acknowledge? || step.FinishFallback?)
             && step.id == id && step.token == token
    ensures Apply(cfg, Run(cfg, INIT, steps), step).rows == Run(cfg, INIT, steps).rows
  {
    EveryRunIsSound(cfg, steps);
    var s := Run(cfg, INIT, steps);
    assert RowInv(cfg, s.rows[id]);
    EndedTokenIsGone(cfg, s.rows[id], token, how);
    UnheldTokenIsInert(cfg, s, step, id, token);
  }

  /** A token whose attempt has ended holds no lease on the row. */
  lemma EndedTokenIsGone(cfg: Config, row: Row, token: Token, how: Ending)
    requires RowInv(cfg, row) && Ended(token, how) in row.log
    ensures row.state.Running? ==> row.lease.value.token != token
  {
    var i :| 0 <= i < |row.log| && row.log[i] == Ended(token, how);
    assert row.log[i - 1].Claimed? && row.log[i - 1].token == token;
  }

  lemma UnheldTokenIsInert(cfg: Config, s: Sys, step: Step, id: RowId, token: Token)
    requires id in s.rows && (s.rows[id].state.Running? ==> s.rows[id].lease.Some? && s.rows[id].lease.value.token != token)
    requires (step.Heartbeat? || step.Complete? || step.Acknowledge? || step.FinishFallback?)
             && step.id == id && step.token == token
    ensures Apply(cfg, s, step).rows == s.rows
  {
    assert s.rows[id := s.rows[id]] == s.rows;
  }

  // ----- What the end states mean -----

  lemma LastEndingOf(cfg: Config, s: Sys, id: RowId) returns (token: Token, how: Ending)
    requires SysInv(cfg, s) && id in s.rows && Terminal(s.rows[id].state)
    ensures |s.rows[id].log| > 0
    ensures s.rows[id].log[|s.rows[id].log| - 1] == Ended(token, how) && how.to == s.rows[id].state
    ensures EventOk(cfg, s, id, Ended(token, how))
  {
    var log := s.rows[id].log;
    assert RowInv(cfg, s.rows[id]);
    var last := log[|log| - 1];
    token, how := last.token, last.how;
    assert last in log;
  }

  /** No row is marked succeeded (or published) without an execution that completed well under
      the very token of the acknowledgement; likewise 'skipped'. 'dead' comes from the sweep of a
      job table alone, and 'failed' from a failed execution or from the outbox sweep. */
  lemma EndStatesAreEarned(cfg: Config, steps: seq<Step>, id: RowId)
    requires id in Run(cfg, INIT, steps).rows
    requires Terminal(Run(cfg, INIT, steps).rows[id].state)
    ensures
      var s := Run(cfg, INIT, steps);
      var log := s.rows[id].log;
      && |log| > 0 && log[|log| - 1].Ended?
      && var key := (id, log[|log| - 1].token);
      match s.rows[id].state
      case Succeeded => key in s.completed && s.completed[key] == ExecOk
      case Skipped => key in s.completed && s.completed[key] == ExecSkipped && cfg.plane.Eval?
      case Dead => log[|log| - 1].how == Swept(Dead) && !cfg.plane.Outbox?
      case Failed => (key in s.completed && s.completed[key] == ExecErr)
                     || (log[|log| - 1].how == Swept(Failed) && cfg.plane.Outbox?)
      case Queued => false
      case Running => false
  {
    EveryRunIsSound(cfg, steps);
    var s := Run(cfg, INIT, steps);
    var token, how := LastEndingOf(cfg, s, id);
    PlaneLimits(cfg, steps);
    assert PlaneLimited(cfg, s, id, Ended(token, how));
  }

  /** Which endings and completions the three planes can produce at all. */
  ghost predicate PlaneLimited(cfg: Config, s: Sys, id: RowId, e: Event) {
    && (e.Ended? && e.how.Charged? ==> e.how.to == Failed || e.how.to == Queued)
    && (e.Ended? && e.how.Swept? ==> e.how.to == Queued || e.how.to == (if cfg.plane.Outbox? then Failed else Dead))
  }

  ghost predicate PlaneInv(cfg: Config, s: Sys) {
    && (forall id, e | id in s.rows && e in s.rows[id].log :: PlaneLimited(cfg, s, id, e))
    && (forall key | key in s.completed :: s.completed[key].ExecSkipped? ==> cfg.plane.Eval?)
  }

  /** The endings one statement can append are within the limits of its plane. */
  lemma StatementsAreLimited(cfg: Config, s: Sys, step: Step, id: RowId, e: Event)
    requires SysInv(cfg, s) && id in s.rows && e in RowNext(cfg, s, step, id).log && e !in s.rows[id].log
    ensures PlaneLimited(cfg, s, id, e)
  {
    match step
    case Sweep(_, ts) => SweepIsLimited(cfg, s.rows[id], ts);
    case Acknowledge(_, token, ts, _) =>
      if IsTask(s, id, token) && s.tasks[(id, token)].Done? {
        AckIsLimited(cfg, s.rows[id], s.batches[token].owner, token, ts, s.tasks[(id, token)].outcome);
      }
    case _ =>
  }

  lemma SweepIsLimited(cfg: Config, row: Row, ts: nat)
    ensures SweepRow(cfg, row, ts) == row
      || (&& |SweepRow(cfg, row, ts).log| == |row.log| + 1 && row.log <= SweepRow(cfg, row, ts).log
          && var e := SweepRow(cfg, row, ts).log[|row.log|];
             e.Ended? && e.how.Swept? && (e.how.to == Queued || e.how.to == (if cfg.plane.Outbox? then Failed else Dead)))
  {
  }

  lemma AckIsLimited(cfg: Config, row: Row, owner: WorkerId, token: Token, ts: nat, outcome: Outcome)
    ensures AckRow(cfg, row, owner, token, ts, outcome) == row
      || (&& |AckRow(cfg, row, owner, token, ts, outcome).log| == |row.log| + 1 && row.log <= AckRow(cfg, row, owner, token, ts, outcome).log
          && var e := AckRow(cfg, row, owner, token, ts, outcome).log[|row.log|];
             e.Ended? && !e.how.Swept? && (e.how.Charged? ==> e.how.to == Failed || e.how.to == Queued))
  {
  }

  lemma PlaneStep(cfg: Config, s: Sys, step: Step)
    requires SysInv(cfg, s) && PlaneInv(cfg, s)
    ensures PlaneInv(cfg, Apply(cfg, s, step))
  {
    var next := Apply(cfg, s, step);
    forall id, e | id in next.rows && e in next.rows[id].log
      ensures PlaneLimited(cfg, next, id, e)
    {
      NewRowsAreEmpty(cfg, s, step, id);
      if id in s.rows {
        RowNextIsNext(cfg, s, step, id);
        if e in s.rows[id].log {
          assert PlaneLimited(cfg, s, id, e);
        } else {
          StatementsAreLimited(cfg, s, step, id, e);
        }
      }
    }
    CompletedGrows(cfg, s, step);
  }

  lemma NewRowsAreEmpty(cfg: Config, s: Sys, step: Step, id: RowId)
    ensures id in Apply(cfg, s, step).rows && id !in s.rows ==> Apply(cfg, s, step).rows[id].log == []
  {
  }

  lemma CompletedGrows(cfg: Config, s: Sys, step: Step)
    ensures var next := Apply(cfg, s, step);
      next.completed == s.completed
      || (step.Complete? && (step.outcome.ExecSkipped? ==> cfg.plane.Eval?)
          && next.completed == s.completed[(step.id, step.token) := step.outcome])
  {
  }

  lemma {:induction false} PlaneLimitsFrom(cfg: Config, s: Sys, steps: seq<Step>)
    requires SysInv(cfg, s) && PlaneInv(cfg, s)
    ensures PlaneInv(cfg, Run(cfg, s, steps))
    decreases |steps|
  {
    if steps != [] {
      StepKeeps(cfg, s, steps[0]);
      PlaneStep(cfg, s, steps[0]);
      PlaneLimitsFrom(cfg, Apply(cfg, s, steps[0]), steps[1..]);
    }
  }

  lemma PlaneLimits(cfg: Config, steps: seq<Step>)
    ensures PlaneInv(cfg, Run(cfg, INIT, steps))
  {
    PlaneLimitsFrom(cfg, INIT, steps);
  }

  lemma TerminalStep(cfg: Config, s: Sys, step: Step, id: RowId)
    requires SysInv(cfg, s) && id in s.rows && Terminal(s.rows[id].state)
    ensures id in Apply(cfg, s, step).rows && Apply(cfg, s, step).rows[id] == s.rows[id]
  {
    RowNextIsNext(cfg, s, step, id);
    IdleStatementsAreNoOps(cfg, s, step, id);
  }

  /** A row that is neither queued nor running is matched by no statement. */
  lemma IdleStatementsAreNoOps(cfg: Config, s: Sys, step: Step, id: RowId)
    requires id in s.rows && Terminal(s.rows[id].state)
    ensures RowNext(cfg, s, step, id) == s.rows[id]
  {
    if (step.Heartbeat? || step.Acknowledge? || step.FinishFallback?) && IsTask(s, id, step.token) {
      var outcome := if s.tasks[(id, step.token)].Done? then s.tasks[(id, step.token)].outcome else ExecErr;
      IdleRowStatements(cfg, s.rows[id], s.batches[step.token].owner, step.token, step.ts, outcome);
    } else if step.Sweep? {
      IdleRowStatements(cfg, s.rows[id], 0, 0, step.ts, ExecErr);
    }
  }

  lemma {:induction false} TerminalFrom(cfg: Config, s: Sys, more: seq<Step>, id: RowId)
    requires SysInv(cfg, s) && id in s.rows && Terminal(s.rows[id].state)
    ensures id in Run(cfg, s, more).rows && Run(cfg, s, more).rows[id] == s.rows[id]
    decreases |more|
  {
    if more != [] {
      StepKeeps(cfg, s, more[0]);
      TerminalStep(cfg, s, more[0], id);
      TerminalFrom(cfg, Apply(cfg, s, more[0]), more[1..], id);
    }
  }

  /** Terminal rows are never touched again, whatever happens next. */
  lemma TerminalIsForever(cfg: Config, steps: seq<Step>, more: seq<Step>, id: RowId)
    requires id in Run(cfg, INIT, steps).rows && Terminal(Run(cfg, INIT, steps).rows[id].state)
    ensures id in Run(cfg, INIT, steps + more).rows
    ensures Run(cfg, INIT, steps + more).rows[id] == Run(cfg, INIT, steps).rows[id]
  {
    EveryRunIsSound(cfg, steps);
    RunAppend(cfg, INIT, steps, more);
    TerminalFrom(cfg, Run(cfg, INIT, steps), more, id);
  }

  lemma {:induction false} RowsGrow(cfg: Config, s: Sys, more: seq<Step>, id: RowId)
    requires id in s.rows
    ensures id in Run(cfg, s, more).rows
    decreases |more|
  {
    if more != [] {
      RowsGrow(cfg, Apply(cfg, s, more[0]), more[1..], id);
    }
  }

  // ----- Bounded claims, and progress -----

  lemma {:induction false} ClaimsOfAlternating(log: seq<Event>)
    requires Alternates(log)
    ensures Claims(log) == (|log| + 1) / 2
  {
    if log != [] {
      var init := log[..|log| - 1];
      assert forall i | 0 <= i < |init| :: init[i] == log[i];
      ClaimsOfAlternating(init);
    }
  }

  /** In every run a row is claimed at most `ClaimBound` times; the unused part of twice that
      bound is the measure every state change of the row decreases. While the row is live, its
      attempt counter is exactly the number of its attempts that have ended. */
  lemma ClaimsAreBounded(cfg: Config, steps: seq<Step>, id: RowId)
    requires id in Run(cfg, INIT, steps).rows
    ensures
      var row := Run(cfg, INIT, steps).rows[id];
      && Claims(row.log) <= ClaimBound(cfg)
      && |row.log| <= 2 * ClaimBound(cfg)
      && (row.state.Queued? ==> Claims(row.log) == row.attempts < ClaimBound(cfg))
      && (row.state.Running? ==> Claims(row.log) == row.attempts + 1)
  {
    EveryRunIsSound(cfg, steps);
    var s := Run(cfg, INIT, steps);
    assert RowInv(cfg, s.rows[id]);
    ClaimsOfAlternating(s.rows[id].log);
  }

  /** A claim of a queued row, however far its backoff reaches. */
  lemma ClaimNow(cfg: Config, s: Sys, id: RowId) returns (steps: seq<Step>)
    requires SysInv(cfg, s) && id in s.rows && s.rows[id].state.Queued?
    ensures
      var next := Run(cfg, s, steps);
      && SysInv(cfg, next) && id in next.rows
      && next.rows[id].state.Running?
      && next.rows[id].attempts == s.rows[id].attempts
      && next.rows[id].log == s.rows[id].log + [Claimed(s.nextToken)]
  {
    var wait := if s.rows[id].nextAttempt.Some? then s.rows[id].nextAttempt.value else 0;
    var ts := s.now + wait;
    steps := [Tick(wait), OpenBatch(0, {id}, ts), ClaimOne(id, s.nextToken, ts)];
    var s1 := Apply(cfg, s, steps[0]);
    var s2 := Apply(cfg, s1, steps[1]);
    var s3 := Apply(cfg, s2, steps[2]);
    assert s2.batches[s.nextToken] == Batch(0, {id});
    assert steps[1..][1..] == [steps[2]] && steps[1..] == [steps[1], steps[2]];
    assert Run(cfg, s2, [steps[2]]) == Run(cfg, s3, []);
    RunKeeps(cfg, s, steps);
  }

  /** A running row whose lease is over is always recoverable: the sweep takes it out of the
      running state, whether its holder is alive or not. */
  lemma SweepNow(cfg: Config, s: Sys, id: RowId) returns (steps: seq<Step>)
    requires SysInv(cfg, s) && id in s.rows && s.rows[id].state.Running?
    ensures
      var next := Run(cfg, s, steps);
      && SysInv(cfg, next) && id in next.rows
      && !next.rows[id].state.Running?
      && |next.rows[id].log| == |s.rows[id].log| + 1
      && (s.rows[id].attempts + 1 < ClaimBound(cfg) ==>
            next.rows[id].state.Queued? && next.rows[id].attempts == s.rows[id].attempts + 1)
  {
    var wait := s.rows[id].lease.value.expiresAt;
    steps := [Tick(wait), Sweep(id, s.now + wait)];
    var s1 := Apply(cfg, s, steps[0]);
    var s2 := Apply(cfg, s1, steps[1]);
    assert steps[1..] == [steps[1]];
    assert Run(cfg, s1, [steps[1]]) == Run(cfg, s2, []);
    RunKeeps(cfg, s, steps);
  }

  lemma {:induction false} FinishFrom(cfg: Config, s: Sys, id: RowId) returns (steps: seq<Step>)
    requires SysInv(cfg, s) && id in s.rows
    ensures id in Run(cfg, s, steps).rows && Terminal(Run(cfg, s, steps).rows[id].state)
    decreases 2 * ClaimBound(cfg) - |s.rows[id].log|
  {
    assert RowInv(cfg, s.rows[id]);
    if Terminal(s.rows[id].state) {
      steps := [];
    } else {
      var first: seq<Step>;
      if s.rows[id].state.Queued? {
        first := ClaimNow(cfg, s, id);
      } else {
        first := SweepNow(cfg, s, id);
      }
      var next := Run(cfg, s, first);
      assert RowInv(cfg, next.rows[id]);
      var rest := FinishFrom(cfg, next, id);
      RunAppend(cfg, s, first, rest);
      steps := first + rest;
    }
  }

  /** No row is ever lost: it stays in the table, and from every reachable state some
      continuation brings it to a terminal state. */
  lemma NoRowIsLost(cfg: Config, steps: seq<Step>, more: seq<Step>, id: RowId) returns (rescue: seq<Step>)
    requires id in Run(cfg, INIT, steps).rows
    ensures id in Run(cfg, INIT, steps + more).rows
    ensures id in Run(cfg, INIT, steps + more + rescue).rows
    ensures Terminal(Run(cfg, INIT, steps + more + rescue).rows[id].state)
  {
    RunAppend(cfg, INIT, steps, more);
    RowsGrow(cfg, Run(cfg, INIT, steps), more, id);
    EveryRunIsSound(cfg, steps + more);
    rescue := FinishFrom(cfg, Run(cfg, INIT, steps + more), id);
    RunAppend(cfg, INIT, steps + more, rescue);
  }

  lemma {:induction false} CrashRounds(cfg: Config, rounds: nat) returns (steps: seq<Step>)
    requires rounds < ClaimBound(cfg)
    ensures
      var s := Run(cfg, INIT, steps);
      0 in s.rows && s.rows[0].state.Queued? && s.rows[0].attempts == rounds
    decreases rounds
  {
    if rounds == 0 {
      steps := [Enqueue(0)];
      assert Run(cfg, INIT, steps) == Run(cfg, Apply(cfg, INIT, Enqueue(0)), []);
    } else {
      var before := CrashRounds(cfg, rounds - 1);
      EveryRunIsSound(cfg, before);
      var s := Run(cfg, INIT, before);
      var claim := ClaimNow(cfg, s, 0);
      RunAppend(cfg, INIT, before, claim);
      var sweep := SweepNow(cfg, Run(cfg, s, claim), 0);
      RunAppend(cfg, INIT, before + claim, sweep);
      steps := before + claim + sweep;
    }
  }

  /** The bound is exact. A job that keeps losing its worker is executed `maxAttempts + 1` times
      before it is dead; an outbox event is delivered at most max(maxAttempts, 1) times. */
  lemma ClaimBoundIsReached(cfg: Config) returns (steps: seq<Step>)
    ensures
      var s := Run(cfg, INIT, steps);
      0 in s.rows && Claims(s.rows[0].log) == ClaimBound(cfg)
  {
    var rounds := CrashRounds(cfg, ClaimBound(cfg) - 1);
    EveryRunIsSound(cfg, rounds);
    var claim := ClaimNow(cfg, Run(cfg, INIT, rounds), 0);
    RunAppend(cfg, INIT, rounds, claim);
    steps := rounds + claim;
    ClaimsAreBounded(cfg, steps, 0);
  }
}
