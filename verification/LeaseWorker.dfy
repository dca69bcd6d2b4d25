/**
 The imperative side of the lease plane: the table with its statements, the batched stale sweep,
 and the task that executes one claimed row under a heartbeat. Each method is proved to be a run
 of the step system, so every theorem about runs is a theorem about this code.
 */
module LeaseWorker {
  import opened Wrappers
  import opened LeasePlane
  import opened LeaseInvariant
  import opened LeaseTime

  const SWEEP_BATCH := 500

  /** What a claimed row's task observes next, after the rest of the system made `others` moves.
      A statement is bound with the clock it read, `lag` seconds before it takes effect. */
  datatype Signal =
    | HeartbeatDue(others: seq<Step>, lag: nat, reply: Reply)
    | ExecutionDone(others: seq<Step>, outcome: Outcome)

  /** The moment of the store call that follows the execution, and of the fallback call. */
  datatype Moment = Moment(others: seq<Step>, lag: nat, reply: Reply)

  datatype StoreFault = StoreFault

  datatype TaskResult = Recorded | Fenced | Faulted | Abandoned

  function SweptRows(cfg: Config, rows: map<RowId, Row>, ids: set<RowId>, ts: nat): map<RowId, Row> {
    map id | id in rows :: if id in ids then SweepRow(cfg, rows[id], ts) else rows[id]
  }

  /** One sweep statement over a set of ids is a run of single-row sweeps. */
  lemma {:induction false} SweepSet(cfg: Config, s: Sys, ids: set<RowId>, ts: nat) returns (steps: seq<Step>)
    requires ts <= s.now
    ensures Run(cfg, s, steps) == s.(rows := SweptRows(cfg, s.rows, ids, ts))
    decreases |ids|
  {
    if ids == {} {
      steps := [];
      assert SweptRows(cfg, s.rows, ids, ts) == s.rows;
    } else {
      var id :| id in ids;
      var next := Apply(cfg, s, Sweep(id, ts));
      var rest := SweepSet(cfg, next, ids - {id}, ts);
      steps := [Sweep(id, ts)] + rest;
      assert steps[1..] == rest;
      assert SweptRows(cfg, next.rows, ids - {id}, ts) == SweptRows(cfg, s.rows, ids, ts);
    }
  }

  /** Facts about a reached state that the methods below need, without its whole invariant. */
  lemma RunThen(cfg: Config, history: seq<Step>, step: Step)
    ensures Run(cfg, INIT, history + [step]) == Apply(cfg, Run(cfg, INIT, history), step)
  {
    RunAppend(cfg, INIT, history, [step]);
    var last := Run(cfg, INIT, history);
    assert Run(cfg, last, [step]) == Run(cfg, Apply(cfg, last, step), []);
  }

  lemma RunForeign(cfg: Config, history: seq<Step>, others: seq<Step>, id: RowId, token: Token)
    requires IsTask(Run(cfg, INIT, history), id, token) && AllForeign(id, token, others)
    ensures
      var s := Run(cfg, INIT, history);
      var next := Run(cfg, INIT, history + others);
      && next == Run(cfg, s, others)
      && IsTask(next, id, token)
      && next.tasks[(id, token)] == s.tasks[(id, token)]
      && next.batches[token].owner == s.batches[token].owner
  {
    EveryRunIsSound(cfg, history);
    RunAppend(cfg, INIT, history, others);
    ForeignKeepsTask(cfg, Run(cfg, INIT, history), others, id, token);
  }

  /** A task whose execution completed has its outcome on record. */
  lemma TaskOutcome(cfg: Config, history: seq<Step>, id: RowId, token: Token)
    requires (id, token) in Run(cfg, INIT, history).tasks && !Run(cfg, INIT, history).tasks[(id, token)].Executing?
    ensures
      var s := Run(cfg, INIT, history);
      && (id, token) in s.completed
      && s.completed[(id, token)] == if s.tasks[(id, token)].Done? then s.tasks[(id, token)].outcome else ExecErr
  {
    EveryRunIsSound(cfg, history);
    assert TaskOk(cfg, Run(cfg, INIT, history), id, token);
  }

  /** A sweep leaves no stale row behind and never leaves a row running. */
  lemma SweepEnds(cfg: Config, rows: map<RowId, Row>, ts: nat)
    ensures forall id | id in rows :: !Stale(SweepRow(cfg, rows[id], ts), ts)
    ensures forall id | id in rows && Stale(rows[id], ts) :: !SweepRow(cfg, rows[id], ts).state.Running?
  {
  }

  /** The stale rows a sweep returns to the queue, and the ones it buries. */
  function Requeueable(cfg: Config, rows: map<RowId, Row>, ts: nat): set<RowId> {
    set id | id in rows && Stale(rows[id], ts) && SweepRow(cfg, rows[id], ts).state.Queued?
  }

  function Buriable(cfg: Config, rows: map<RowId, Row>, ts: nat): set<RowId> {
    set id | id in rows && Stale(rows[id], ts) && Terminal(SweepRow(cfg, rows[id], ts).state)
  }

  /** Sweeping a set of stale rows takes exactly those rows out of the two candidate sets. */
  lemma SweptCandidates(cfg: Config, rows: map<RowId, Row>, ids: set<RowId>, ts: nat)
    ensures Requeueable(cfg, SweptRows(cfg, rows, ids, ts), ts) == Requeueable(cfg, rows, ts) - ids
    ensures Buriable(cfg, SweptRows(cfg, rows, ids, ts), ts) == Buriable(cfg, rows, ts) - ids
  {
    var swept := SweptRows(cfg, rows, ids, ts);
    assert forall id | id in rows :: swept[id] == if id in ids then SweepRow(cfg, rows[id], ts) else rows[id];
    SweepEnds(cfg, rows, ts);
  }

  lemma SweptTwice(cfg: Config, rows: map<RowId, Row>, first: set<RowId>, second: set<RowId>, ts: nat)
    requires first * second == {}
    ensures SweptRows(cfg, SweptRows(cfg, rows, first, ts), second, ts) == SweptRows(cfg, rows, first + second, ts)
  {
  }

  /** One turn of the sweep: a batch to bury and a batch to requeue leave the candidate sets, and
      what the table finally becomes does not change. */
  lemma SweepTurn(cfg: Config, rows: map<RowId, Row>, deadIds: set<RowId>, queueIds: set<RowId>, ts: nat)
    requires deadIds <= Buriable(cfg, rows, ts) && queueIds <= Requeueable(cfg, rows, ts)
    ensures
      var next := SweptRows(cfg, SweptRows(cfg, rows, deadIds, ts), queueIds, ts);
      && next == SweptRows(cfg, rows, deadIds + queueIds, ts)
      && Buriable(cfg, next, ts) == Buriable(cfg, rows, ts) - deadIds
      && Requeueable(cfg, next, ts) == Requeueable(cfg, rows, ts) - queueIds
      && SweptRows(cfg, next, next.Keys, ts) == SweptRows(cfg, rows, rows.Keys, ts)
  {
    assert deadIds !! queueIds;
    SweptTwice(cfg, rows, deadIds, queueIds, ts);
    SweptCandidates(cfg, rows, deadIds + queueIds, ts);
    SweepEnds(cfg, rows, ts);
    var next := SweptRows(cfg, rows, deadIds + queueIds, ts);
    forall id | id in rows
      ensures SweepRow(cfg, next[id], ts) == SweepRow(cfg, rows[id], ts)
    {
      assert next[id] == rows[id] || next[id] == SweepRow(cfg, rows[id], ts);
    }
  }

  lemma NothingStale(cfg: Config, rows: map<RowId, Row>, ts: nat)
    requires Requeueable(cfg, rows, ts) == {} && Buriable(cfg, rows, ts) == {}
    ensures forall id | id in rows :: !Stale(rows[id], ts)
    ensures SweptRows(cfg, rows, rows.Keys, ts) == rows
  {
    forall id | id in rows
      ensures !Stale(rows[id], ts)
    {
      SweepEnds(cfg, rows, ts);
      assert Stale(rows[id], ts) ==> id in Requeueable(cfg, rows, ts) || id in Buriable(cfg, rows, ts);
    }
  }

  /** The ids one statement enumerates: all candidates, or a full batch of them. */
  method PickBatch(candidates: set<RowId>) returns (ids: set<RowId>)
    ensures ids <= candidates
    ensures |ids| == if |candidates| < 500 then |candidates| else 500
    ensures |candidates - ids| == |candidates| - |ids|
  {
    ids := {};
    var rest := candidates;
    while |ids| < SWEEP_BATCH && rest != {}
      invariant ids !! rest && ids + rest == candidates && |ids| <= SWEEP_BATCH
      decreases rest
    {
      var id :| id in rest;
      ids, rest := ids + {id}, rest - {id};
    }
    assert rest == {} ==> ids == candidates;
    assert |ids + rest| == |ids| + |rest|;
  }

  class LeaseTable {
    const cfg: Config
    var sys: Sys

    ghost var history: seq<Step>

    /** Every step the table and its workers have taken is on record. */
    ghost predicate Valid() reads this {
      sys == Run(cfg, INIT, history)
    }

    constructor (cfg: Config)
      ensures Valid() && this.cfg == cfg && sys == INIT
    {
      this.cfg := cfg;
      sys, history := INIT, [];
    }

    // ----- Statements: one UPDATE each, answering through `reply` -----

    method RenewLease(id: RowId, owner: WorkerId, token: Token, ts: nat, reply: Reply)
      returns (answer: Result<bool, StoreFault>)
      requires id in sys.rows
      modifies `sys
      ensures sys == Stored(old(sys), id, RenewRow(cfg, old(sys).rows[id], owner, token, ts), reply)
      ensures
        var row := old(sys).rows[id];
        row.state.Running? && row.lease.Some? && row.lease.value.owner == owner && row.lease.value.token == token && ts < row.lease.value.expiresAt && reply.Answered?
        ==> answer == Ok(true) && sys.rows[id] == row.(lease := Some(Lease(owner, token, ts + (if cfg.leaseSeconds <= 5 then 5 else cfg.leaseSeconds))))
      ensures answer == if reply.Answered? then Ok(Holds(old(sys).rows[id], owner, token, ts)) else Err(StoreFault)
    {
      if reply.ErrBefore? {
        return Err(StoreFault);
      }
      var row := sys.rows[id];
      var held := Holds(row, owner, token, ts);
      if held {
        row := row.(lease := Some(Lease(owner, token, ExpiryAfter(cfg, ts))));
      }
      sys := sys.(rows := sys.rows[id := row]);
      answer := if reply.Answered? then Ok(held) else Err(StoreFault);
    }

    method FinishRun(id: RowId, owner: WorkerId, token: Token, ts: nat, to: RowState, reply: Reply)
      returns (answer: Result<bool, StoreFault>)
      requires id in sys.rows
      modifies `sys
      ensures sys == Stored(old(sys), id, FinishRow(cfg, old(sys).rows[id], owner, token, ts, to), reply)
      ensures answer == if reply.Answered? then Ok(Holds(old(sys).rows[id], owner, token, ts)) else Err(StoreFault)
    {
      if reply.ErrBefore? {
        return Err(StoreFault);
      }
      var row := sys.rows[id];
      var held := Holds(row, owner, token, ts);
      if held {
        row := Row(to, row.attempts, None, if cfg.plane.Outbox? then None else row.nextAttempt,
                   row.log + [Ended(token, Acked(to))]);
      }
      sys := sys.(rows := sys.rows[id := row]);
      answer := if reply.Answered? then Ok(held) else Err(StoreFault);
    }

    /** Whether the charge hit the row. The state the service reads back for its log is that of a later
        statement, and may already be a later claimant's. */
    method ChargeFailure(id: RowId, owner: WorkerId, token: Token, ts: nat, reply: Reply)
      returns (answer: Result<bool, StoreFault>)
      requires id in sys.rows
      modifies `sys
      ensures sys == Stored(old(sys), id, FailRow(cfg, old(sys).rows[id], owner, token, ts), reply)
      ensures answer == if reply.Answered? then Ok(Holds(old(sys).rows[id], owner, token, ts)) else Err(StoreFault)
    {
      if reply.ErrBefore? {
        return Err(StoreFault);
      }
      var row := sys.rows[id];
      var held := Holds(row, owner, token, ts);
      if held {
        var charged := row.attempts + 1;
        var ceiling := if cfg.plane.Outbox? then Max(cfg.maxAttempts, 1) else cfg.maxAttempts;
        var state, nextAttempt := Failed, None;
        if charged < ceiling {
          state, nextAttempt := Queued, Some(ts + Backoff(cfg, charged));
        }
        row := Row(state, charged, None, nextAttempt, row.log + [Ended(token, Charged(state))]);
      }
      sys := sys.(rows := sys.rows[id := row]);
      answer := if reply.Answered? then Ok(held) else Err(StoreFault);
    }

    /** One turn of the stale sweep, over a batch of the rows to bury and one of those to requeue. */
    method SweepBatch(dead: set<RowId>, queue: set<RowId>, ts: nat) returns (deadIds: set<RowId>, queueIds: set<RowId>)
      requires Valid() && ts <= sys.now && (dead != {} || queue != {})
      requires dead == Buriable(cfg, sys.rows, ts) && queue == Requeueable(cfg, sys.rows, ts)
      modifies this
      ensures Valid() && old(history) <= history
      ensures sys == old(sys).(rows := sys.rows)
      ensures SweptRows(cfg, sys.rows, sys.rows.Keys, ts) == SweptRows(cfg, old(sys).rows, old(sys).rows.Keys, ts)
      ensures deadIds <= dead && queueIds <= queue && |deadIds| + |queueIds| > 0
      ensures |dead - deadIds| == |dead| - |deadIds| && |queue - queueIds| == |queue| - |queueIds|
      ensures dead - deadIds == Buriable(cfg, sys.rows, ts) && queue - queueIds == Requeueable(cfg, sys.rows, ts)
    {
      deadIds := PickBatch(dead);
      queueIds := PickBatch(queue);
      SweepTurn(cfg, sys.rows, deadIds, queueIds, ts);
      ghost var steps := SweepSet(cfg, sys, deadIds + queueIds, ts);
      RunAppend(cfg, INIT, history, steps);
      history := history + steps;
      sys := sys.(rows := SweptRows(cfg, SweptRows(cfg, sys.rows, deadIds, ts), queueIds, ts));
    }

    /** The stale sweep: bounded batches of rows to bury and rows to requeue until neither is left. */
    method RequeueStale(ts: nat) returns (buried: nat, requeued: nat)
      requires Valid() && ts <= sys.now
      modifies this
      ensures Valid() && old(history) <= history
      ensures sys == old(sys).(rows := SweptRows(cfg, old(sys).rows, old(sys).rows.Keys, ts))
      ensures forall id | id in sys.rows :: !Stale(sys.rows[id], ts)
      ensures requeued == |Requeueable(cfg, old(sys).rows, ts)|
      ensures buried == |Buriable(cfg, old(sys).rows, ts)|
    {
      buried, requeued := 0, 0;
      ghost var before := sys;
      var dead, queue := Buriable(cfg, sys.rows, ts), Requeueable(cfg, sys.rows, ts);
      while dead != {} || queue != {}
        invariant Valid() && old(history) <= history
        invariant sys == before.(rows := sys.rows)
        invariant SweptRows(cfg, sys.rows, sys.rows.Keys, ts) == SweptRows(cfg, before.rows, before.rows.Keys, ts)
        invariant dead == Buriable(cfg, sys.rows, ts) && queue == Requeueable(cfg, sys.rows, ts)
        invariant buried + |dead| == |Buriable(cfg, before.rows, ts)|
        invariant requeued + |queue| == |Requeueable(cfg, before.rows, ts)|
        decreases |dead| + |queue|
      {
        var deadIds, queueIds := SweepBatch(dead, queue, ts);
        buried, requeued := buried + |deadIds|, requeued + |queueIds|;
        dead, queue := dead - deadIds, queue - queueIds;
      }
      NothingStale(cfg, sys.rows, ts);
    }

    // ----- One claimed row -----

    /** The clock a statement was bound with, `lag` seconds ago. */
    function Past(lag: nat): (ts: nat) reads this
      ensures ts <= sys.now
    {
      if lag <= sys.now then sys.now - lag else 0
    }

    /** Let the rest of the system run. */
    method Interfere(id: RowId, token: Token, others: seq<Step>)
      requires Valid() && IsTask(sys, id, token) && AllForeign(id, token, others)
      modifies this
      ensures Valid() && history == old(history) + others
      ensures IsTask(sys, id, token)
      ensures sys.tasks[(id, token)] == old(sys).tasks[(id, token)]
      ensures sys.batches[token].owner == old(sys).batches[token].owner
    {
      RunForeign(cfg, history, others, id, token);
      sys := Run(cfg, sys, others);
      history := history + others;
    }

    /** The execution of a claimed row ends. */
    method EndExecution(id: RowId, token: Token, outcome: Outcome)
      requires Valid() && IsTask(sys, id, token) && sys.tasks[(id, token)].Executing?
      requires outcome.ExecSkipped? ==> cfg.plane.Eval?
      modifies this
      ensures Valid() && history == old(history) + [Complete(id, token, outcome)]
      ensures IsTask(sys, id, token) && sys.tasks[(id, token)] == Done(outcome) && sys.batches == old(sys).batches
    {
      RunThen(cfg, history, Complete(id, token, outcome));
      history := history + [Complete(id, token, outcome)];
      sys := sys.(tasks := sys.tasks[(id, token) := Done(outcome)],
                  completed := sys.completed[(id, token) := outcome]);
    }

    /** One heartbeat; any answer but a renewed lease ends the task. A heartbeat bound before the row's
        expiry that is answered renews it, for the lease length after its own timestamp. */
    method Beat(id: RowId, owner: WorkerId, token: Token, lag: nat, reply: Reply) returns (answer: Result<bool, StoreFault>)
      requires Valid() && IsTask(sys, id, token) && sys.tasks[(id, token)].Executing?
      requires sys.batches[token].owner == owner
      modifies this
      ensures Valid() && old(history) <= history && sys.batches == old(sys).batches
      ensures answer == Ok(true) ==> IsTask(sys, id, token) && sys.tasks[(id, token)].Executing?
      ensures answer != Ok(true) ==> (id, token) !in sys.tasks && id in sys.rows
      ensures reply.Answered? && old(HeldAfter(sys, id, token, Past(lag))) ==>
        answer == Ok(true) && HeldUntil(sys, id, token, old(Past(lag)) + LeaseLength(cfg))
    {
      EveryLeaseHasItsOwner(cfg, history);
      assert HeldAfter(sys, id, token, Past(lag)) ==> OwnerOk(sys, sys.rows[id].lease.value);
      var ts := Past(lag);
      RunThen(cfg, history, Heartbeat(id, token, ts, reply));
      answer := RenewLease(id, owner, token, ts, reply);
      history := history + [Heartbeat(id, token, ts, reply)];
      if answer != Ok(true) {
        sys := Retired(sys, id, token);
      }
    }

    /** Wait for the execution while renewing the lease; the first renewal that does not succeed,
        or losing the process, ends the task without an outcome. */
    method Supervise(id: RowId, owner: WorkerId, token: Token, signals: seq<Signal>)
      returns (outcome: Option<Outcome>, stopped: TaskResult)
      requires Valid() && IsTask(sys, id, token) && sys.tasks[(id, token)].Executing?
      requires sys.batches[token].owner == owner
      requires forall i | 0 <= i < |signals| :: AllForeign(id, token, signals[i].others)
      requires forall i | 0 <= i < |signals| && signals[i].ExecutionDone? :: signals[i].outcome.ExecSkipped? ==> cfg.plane.Eval?
      modifies this
      ensures Valid() && old(history) <= history
      ensures outcome.Some? ==> IsTask(sys, id, token) && sys.tasks[(id, token)] == Done(outcome.value)
      ensures outcome.Some? ==> sys.batches[token].owner == owner
      ensures outcome.None? ==> (id, token) !in sys.tasks && id in sys.rows && !stopped.Recorded?
    {
      outcome, stopped := None, Abandoned;
      var i := 0;
      while i < |signals|
        invariant i <= |signals|
        invariant Valid() && old(history) <= history
        invariant IsTask(sys, id, token) && sys.batches[token].owner == owner
        invariant sys.tasks[(id, token)].Executing? && outcome.None? && stopped == Abandoned
      {
        Interfere(id, token, signals[i].others);
        match signals[i] {
          case ExecutionDone(_, completed) =>
            EndExecution(id, token, completed);
            return Some(completed), Abandoned;
          case HeartbeatDue(_, lag, reply) =>
            var answer := Beat(id, owner, token, lag, reply);
            if answer != Ok(true) {
              stopped := if answer.Ok? then Fenced else Faulted;
              return;
            }
        }
        i := i + 1;
      }
      RunThen(cfg, history, Crash(id, token));
      history := history + [Crash(id, token)];
      sys := Retired(sys, id, token);
    }

    /** The requeue reported an error: fall back to the terminal write, under the same fence. */
    method FinishAfterFault(id: RowId, owner: WorkerId, token: Token, fallback: Moment) returns (result: TaskResult)
      requires Valid() && IsTask(sys, id, token) && sys.tasks[(id, token)].Fallback?
      requires sys.batches[token].owner == owner && AllForeign(id, token, fallback.others)
      modifies this
      ensures Valid() && old(history) <= history
      ensures (id, token) !in sys.tasks && id in sys.rows
      ensures result.Recorded? ==> Ended(token, Acked(Failed)) in sys.rows[id].log
      ensures result.Recorded? ==> (id, token) in sys.completed && sys.completed[(id, token)] == ExecErr
    {
      Interfere(id, token, fallback.others);
      TaskOutcome(cfg, history, id, token);
      var ts := Past(fallback.lag);
      RunThen(cfg, history, FinishFallback(id, token, ts, fallback.reply));
      history := history + [FinishFallback(id, token, ts, fallback.reply)];
      var finished := FinishRun(id, owner, token, ts, Failed, fallback.reply);
      sys := Retired(sys, id, token);
      result := if finished.Err? then Faulted else if finished.value then Recorded else Fenced;
    }

    /** Record a completed execution under the same lease: charge a failure, with the terminal write as
        the fallback of a learning job, or finish the row. */
    method RecordOutcome(id: RowId, owner: WorkerId, token: Token, outcome: Outcome, ack: Moment, fallback: Moment)
      returns (result: TaskResult, ghost how: Ending)
      requires Valid() && IsTask(sys, id, token) && sys.tasks[(id, token)] == Done(outcome)
      requires sys.batches[token].owner == owner
      requires AllForeign(id, token, ack.others) && AllForeign(id, token, fallback.others)
      modifies this
      ensures Valid() && old(history) <= history
      ensures (id, token) !in sys.tasks && id in sys.rows
      ensures result.Recorded? ==>
        && Ended(token, how) in sys.rows[id].log
        && (id, token) in sys.completed && Justified(cfg.plane, sys.completed[(id, token)], how)
    {
      Interfere(id, token, ack.others);
      TaskOutcome(cfg, history, id, token);
      var ts := Past(ack.lag);
      how := AckEnding(cfg, sys.rows[id], outcome);
      RunThen(cfg, history, Acknowledge(id, token, ts, ack.reply));
      history := history + [Acknowledge(id, token, ts, ack.reply)];
      if outcome.ExecErr? && !cfg.plane.Eval? {
        var charged := ChargeFailure(id, owner, token, ts, ack.reply);
        if charged.Err? && cfg.plane.Learning? {
          sys := sys.(tasks := sys.tasks[(id, token) := Fallback]);
          result := FinishAfterFault(id, owner, token, fallback);
          how := Acked(Failed);
        } else {
          sys := Retired(sys, id, token);
          result := if charged.Err? then Faulted else if charged.value then Recorded else Fenced;
        }
      } else {
        var finished := FinishRun(id, owner, token, ts, AckState(outcome), ack.reply);
        sys := Retired(sys, id, token);
        result := if finished.Err? then Faulted else if finished.value then Recorded else Fenced;
      }
    }

    /** Execute one claimed row under a heartbeat and record its outcome under the same lease. */
    method ProcessClaimed(id: RowId, owner: WorkerId, token: Token, signals: seq<Signal>, ack: Moment, fallback: Moment)
      returns (result: TaskResult, ghost how: Ending)
      requires Valid() && IsTask(sys, id, token) && sys.tasks[(id, token)].Executing?
      requires sys.batches[token].owner == owner
      requires forall i | 0 <= i < |signals| :: AllForeign(id, token, signals[i].others)
      requires forall i | 0 <= i < |signals| && signals[i].ExecutionDone? :: signals[i].outcome.ExecSkipped? ==> cfg.plane.Eval?
      requires AllForeign(id, token, ack.others) && AllForeign(id, token, fallback.others)
      modifies this
      ensures Valid() && old(history) <= history
      ensures (id, token) !in sys.tasks && id in sys.rows
      ensures result.Recorded? ==>
        && Ended(token, how) in sys.rows[id].log
        && (id, token) in sys.completed && Justified(cfg.plane, sys.completed[(id, token)], how)
    {
      var outcome, stopped := Supervise(id, owner, token, signals);
      if outcome.None? {
        return stopped, Acked(Failed);
      }
      result, how := RecordOutcome(id, owner, token, outcome.value, ack, fallback);
    }
  }
}
