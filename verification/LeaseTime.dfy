/**
 What a lease is worth. A worker that acts before its lease is over, counted from its own timestamps,
 keeps its row, whatever the rest of the system does; and a charged row waits for its backoff.
 */
module LeaseTime {
  import opened Wrappers
  import opened LeasePlane
  import opened LeaseInvariant
  import opened LeaseRuns

  /** Moves of the rest of the system: anything but the moves of the task (id, token) itself. */
  predicate Foreign(id: RowId, token: Token, step: Step) {
    match step
    case Heartbeat(other, t, _, _) => (other, t) != (id, token)
    case Complete(other, t, _) => (other, t) != (id, token)
    case Acknowledge(other, t, _, _) => (other, t) != (id, token)
    case FinishFallback(other, t, _, _) => (other, t) != (id, token)
    case Crash(other, t) => (other, t) != (id, token)
    case _ => true
  }

  ghost predicate AllForeign(id: RowId, token: Token, steps: seq<Step>) {
    forall i | 0 <= i < |steps| :: Foreign(id, token, steps[i])
  }

  /** A step of the rest of the system leaves the task, its row's place in the table and its batch. */
  lemma ForeignStepLeavesTask(cfg: Config, s: Sys, step: Step, id: RowId, token: Token)
    requires SysInv(cfg, s) && IsTask(s, id, token) && Foreign(id, token, step)
    ensures
      var next := Apply(cfg, s, step);
      && IsTask(next, id, token)
      && next.tasks[(id, token)] == s.tasks[(id, token)]
      && next.batches[token].owner == s.batches[token].owner
  {
    RowsStay(cfg, s, step, id);
    match step
    case OpenBatch(_, _, _) => assert token < s.nextToken;
    case ClaimOne(other, t, ts) => ForeignClaimLeavesTask(cfg, s, other, t, ts, id, token);
    case Heartbeat(_, _, _, _) =>
    case Acknowledge(_, _, _, _) =>
    case _ =>
  }

  lemma RowsStay(cfg: Config, s: Sys, step: Step, id: RowId)
    requires id in s.rows
    ensures id in Apply(cfg, s, step).rows
  {
  }

  /** A claim of the task's own row under its own token cannot happen a second time. */
  lemma ForeignClaimLeavesTask(cfg: Config, s: Sys, other: RowId, t: Token, ts: nat, id: RowId, token: Token)
    requires SysInv(cfg, s) && IsTask(s, id, token)
    ensures
      var next := Apply(cfg, s, ClaimOne(other, t, ts));
      && (id, token) in next.tasks && next.tasks[(id, token)] == s.tasks[(id, token)]
      && token in next.batches && next.batches[token].owner == s.batches[token].owner
  {
    assert TaskOk(cfg, s, id, token);
    assert EventOk(cfg, s, id, Claimed(token));
  }

  lemma ForeignStepKeepsTask(cfg: Config, s: Sys, step: Step, id: RowId, token: Token)
    requires SysInv(cfg, s) && IsTask(s, id, token) && Foreign(id, token, step)
    ensures
      var next := Apply(cfg, s, step);
      && SysInv(cfg, next) && IsTask(next, id, token)
      && next.tasks[(id, token)] == s.tasks[(id, token)]
      && next.batches[token].owner == s.batches[token].owner
  {
    StepKeeps(cfg, s, step);
    ForeignStepLeavesTask(cfg, s, step, id, token);
  }

  /** The rest of the system cannot touch a task or its batch owner. */
  lemma {:induction false} ForeignKeepsTask(cfg: Config, s: Sys, steps: seq<Step>, id: RowId, token: Token)
    requires SysInv(cfg, s) && IsTask(s, id, token) && AllForeign(id, token, steps)
    ensures
      var next := Run(cfg, s, steps);
      && SysInv(cfg, next) && IsTask(next, id, token)
      && next.tasks[(id, token)] == s.tasks[(id, token)]
      && next.batches[token].owner == s.batches[token].owner
    decreases |steps|
  {
    if steps != [] {
      ForeignStepKeepsTask(cfg, s, steps[0], id, token);
      ForeignKeepsTask(cfg, Apply(cfg, s, steps[0]), steps[1..], id, token);
    }
  }

  // ----- Who holds a lease -----

  /** A running row's lease names the worker whose batch claimed it. */
  ghost predicate OwnersOk(s: Sys) {
    forall id | id in s.rows && s.rows[id].lease.Some? :: OwnerOk(s, s.rows[id].lease.value)
  }

  ghost predicate OwnerOk(s: Sys, lease: Lease) {
    lease.token in s.batches && s.batches[lease.token].owner == lease.owner
  }

  /** A lease keeps its owner and token until it ends, and a new one is its batch's. */
  lemma LeaseOrigin(cfg: Config, s: Sys, step: Step, id: RowId)
    requires id in s.rows && RowNext(cfg, s, step, id).lease.Some?
    ensures
      var lease := RowNext(cfg, s, step, id).lease.value;
      || OwnerOk(s, lease)
      || (s.rows[id].lease.Some? && s.rows[id].lease.value.owner == lease.owner && s.rows[id].lease.value.token == lease.token)
  {
  }

  lemma OwnerStays(cfg: Config, s: Sys, step: Step, lease: Lease)
    requires SysInv(cfg, s) && OwnerOk(s, lease)
    ensures OwnerOk(Apply(cfg, s, step), lease)
  {
  }

  lemma OwnersKept(cfg: Config, s: Sys, step: Step)
    requires SysInv(cfg, s) && OwnersOk(s)
    ensures OwnersOk(Apply(cfg, s, step))
  {
    var next := Apply(cfg, s, step);
    forall id | id in next.rows && next.rows[id].lease.Some?
      ensures OwnerOk(next, next.rows[id].lease.value)
    {
      NewRowsHaveNoLease(cfg, s, step, id);
      RowNextIsNext(cfg, s, step, id);
      LeaseOrigin(cfg, s, step, id);
      if OwnerOk(s, next.rows[id].lease.value) {
        OwnerStays(cfg, s, step, next.rows[id].lease.value);
      } else {
        OwnerStays(cfg, s, step, s.rows[id].lease.value);
      }
    }
  }

  lemma NewRowsHaveNoLease(cfg: Config, s: Sys, step: Step, id: RowId)
    ensures id in Apply(cfg, s, step).rows && id !in s.rows ==> Apply(cfg, s, step).rows[id].lease.None?
  {
  }

  ghost predicate Sound(cfg: Config, s: Sys) {
    SysInv(cfg, s) && OwnersOk(s)
  }

  lemma StepIsSound(cfg: Config, s: Sys, step: Step)
    requires Sound(cfg, s)
    ensures Sound(cfg, Apply(cfg, s, step))
  {
    StepKeeps(cfg, s, step);
    OwnersKept(cfg, s, step);
  }

  lemma {:induction false} SoundFrom(cfg: Config, s: Sys, steps: seq<Step>)
    requires Sound(cfg, s)
    ensures Sound(cfg, Run(cfg, s, steps))
    decreases |steps|
  {
    if steps != [] {
      StepIsSound(cfg, s, steps[0]);
      SoundFrom(cfg, Apply(cfg, s, steps[0]), steps[1..]);
    }
  }

  /** In every run the lease of a running row names the worker that opened the batch of its token. */
  lemma EveryLeaseHasItsOwner(cfg: Config, steps: seq<Step>)
    ensures Sound(cfg, Run(cfg, INIT, steps))
  {
    EveryRunIsSound(cfg, []);
    SoundFrom(cfg, INIT, steps);
  }

  // ----- How long a lease lasts -----

  /** The configured seconds, and at least five. */
  ghost function LeaseLength(cfg: Config): nat {
    if cfg.leaseSeconds <= 5 then 5 else cfg.leaseSeconds
  }

  /** The row runs under the token until the given moment. */
  ghost predicate HeldUntil(s: Sys, id: RowId, token: Token, until: nat) {
    && id in s.rows && s.rows[id].state.Running? && s.rows[id].lease.Some?
    && s.rows[id].lease.value.token == token && s.rows[id].lease.value.expiresAt == until
  }

  /** The row runs under the token beyond the given moment. */
  ghost predicate HeldAfter(s: Sys, id: RowId, token: Token, ts: nat) {
    && id in s.rows && s.rows[id].state.Running? && s.rows[id].lease.Some?
    && s.rows[id].lease.value.token == token && ts < s.rows[id].lease.value.expiresAt
  }

  ghost predicate IsAt(s: Sys, id: RowId, token: Token, pc: Pc) {
    (id, token) in s.tasks && s.tasks[(id, token)] == pc
  }

  /** A claim that finds the row queued, or a heartbeat of the task whose token the row has, before its
      expiry; bound with the timestamp `ts`. */
  ghost predicate Grants(s: Sys, step: Step, id: RowId, token: Token, ts: nat) {
    match step
    case ClaimOne(other, t, at) =>
      && (other, t, at) == (id, token, ts) && ts <= s.now
      && id in s.rows && s.rows[id].state.Queued? && token in s.batches && id in s.batches[token].remaining
    case Heartbeat(other, t, at, reply) =>
      && (other, t, at) == (id, token, ts) && ts <= s.now && reply.Answered?
      && IsAt(s, id, token, Executing)
      && HeldAfter(s, id, token, ts)
    case _ => false
  }

  lemma TaskIsTask(cfg: Config, s: Sys, id: RowId, token: Token)
    requires SysInv(cfg, s) && (id, token) in s.tasks
    ensures IsTask(s, id, token)
  {
    assert TaskOk(cfg, s, id, token);
  }

  lemma GrantGives(cfg: Config, s: Sys, step: Step, id: RowId, token: Token, ts: nat)
    requires Sound(cfg, s) && Grants(s, step, id, token, ts)
    ensures
      var next := Apply(cfg, s, step);
      && Sound(cfg, next) && HeldUntil(next, id, token, ts + LeaseLength(cfg)) && IsAt(next, id, token, Executing)
      && (step.Heartbeat? ==> next.rows[id] == s.rows[id].(lease := next.rows[id].lease))
  {
    StepIsSound(cfg, s, step);
    if step.Heartbeat? {
      TaskIsTask(cfg, s, id, token);
      assert OwnerOk(s, s.rows[id].lease.value);
    }
  }

  // ----- Keeping a row -----

  /** The steps of the rest of the system, whose sweeps of the row are bound before the given moment. */
  ghost predicate Undisturbed(id: RowId, token: Token, steps: seq<Step>, until: nat) {
    && AllForeign(id, token, steps)
    && forall i | 0 <= i < |steps| && steps[i].Sweep? && steps[i].id == id :: steps[i].ts < until
  }

  lemma ForeignStepLeavesRow(cfg: Config, s: Sys, step: Step, id: RowId, token: Token, until: nat)
    requires HeldUntil(s, id, token, until) && Foreign(id, token, step)
    requires step.Sweep? && step.id == id ==> step.ts < until
    ensures id in Apply(cfg, s, step).rows && Apply(cfg, s, step).rows[id] == s.rows[id]
  {
    RowNextIsNext(cfg, s, step, id);
  }

  lemma {:induction false} RowStays(cfg: Config, s: Sys, steps: seq<Step>, id: RowId, token: Token, until: nat)
    requires HeldUntil(s, id, token, until) && Undisturbed(id, token, steps, until)
    ensures id in Run(cfg, s, steps).rows && Run(cfg, s, steps).rows[id] == s.rows[id]
    decreases |steps|
  {
    if steps != [] {
      ForeignStepLeavesRow(cfg, s, steps[0], id, token, until);
      RowStays(cfg, Apply(cfg, s, steps[0]), steps[1..], id, token, until);
    }
  }

  /** Until the lease is over, neither the row nor the place its task has reached changes. */
  lemma WorkGoesOn(cfg: Config, s: Sys, steps: seq<Step>, id: RowId, token: Token, until: nat, pc: Pc)
    requires Sound(cfg, s) && HeldUntil(s, id, token, until) && IsAt(s, id, token, pc) && Undisturbed(id, token, steps, until)
    ensures
      var now := Run(cfg, s, steps);
      Sound(cfg, now) && HeldUntil(now, id, token, until) && now.rows[id] == s.rows[id] && IsAt(now, id, token, pc)
  {
    TaskIsTask(cfg, s, id, token);
    RowStays(cfg, s, steps, id, token, until);
    ForeignKeepsTask(cfg, s, steps, id, token);
    SoundFrom(cfg, s, steps);
  }

  /** After a claim or a renewal bound at `ts` the row stays with its holder: as long as the sweeps of the
      row are bound before the lease is over, nothing the rest of the system does changes the row. */
  lemma LeaseKeepsRow(cfg: Config, steps: seq<Step>, grant: Step, others: seq<Step>, id: RowId, token: Token, ts: nat)
    requires Grants(Run(cfg, INIT, steps), grant, id, token, ts)
    requires Undisturbed(id, token, others, ts + (if cfg.leaseSeconds <= 5 then 5 else cfg.leaseSeconds))
    ensures
      var granted := Apply(cfg, Run(cfg, INIT, steps), grant);
      var now := Run(cfg, granted, others);
      && id in granted.rows && id in now.rows && now.rows[id] == granted.rows[id]
      && now.rows[id].state.Running? && now.rows[id].lease.Some? && now.rows[id].lease.value.token == token
      && now.rows[id].lease.value.expiresAt == ts + (if cfg.leaseSeconds <= 5 then 5 else cfg.leaseSeconds)
      && (id, token) in now.tasks && now.tasks[(id, token)] == Executing
  {
    var s := Run(cfg, INIT, steps);
    EveryLeaseHasItsOwner(cfg, steps);
    GrantGives(cfg, s, grant, id, token, ts);
    WorkGoesOn(cfg, Apply(cfg, s, grant), others, id, token, ts + LeaseLength(cfg), Executing);
  }

  /** The sweep takes a held row exactly when it is bound at or after the expiry. */
  lemma SweepTakesExactly(cfg: Config, s: Sys, id: RowId, token: Token, until: nat, ts: nat)
    requires HeldUntil(s, id, token, until) && ts <= s.now
    ensures
      var next := Apply(cfg, s, Sweep(id, ts));
      id in next.rows && (next.rows[id].state.Running? <==> ts < until)
  {
  }

  // ----- Renewing in time -----

  /** A heartbeat after the rest of the system made `others` moves. */
  datatype Beat = Beat(others: seq<Step>, ts: nat)

  function StepsOf(id: RowId, token: Token, beats: seq<Beat>): seq<Step> {
    if beats == [] then []
    else beats[0].others + ([Heartbeat(id, token, beats[0].ts, Answered)] + StepsOf(id, token, beats[1..]))
  }

  /** Each heartbeat is bound before the expiry the one before it set, and so are the sweeps of the row. */
  ghost predicate InTime(cfg: Config, s: Sys, id: RowId, token: Token, until: nat, beats: seq<Beat>)
    decreases |beats|
  {
    beats == [] ||
    var here := Run(cfg, s, beats[0].others);
    && Undisturbed(id, token, beats[0].others, until)
    && beats[0].ts < until && beats[0].ts <= here.now
    && InTime(cfg, Apply(cfg, here, Heartbeat(id, token, beats[0].ts, Answered)), id, token, beats[0].ts + LeaseLength(cfg), beats[1..])
  }

  ghost function LastExpiry(cfg: Config, until: nat, beats: seq<Beat>): nat {
    if beats == [] then until else beats[|beats| - 1].ts + LeaseLength(cfg)
  }

  lemma RunOne(cfg: Config, s: Sys, step: Step, rest: seq<Step>)
    ensures Run(cfg, s, [step] + rest) == Run(cfg, Apply(cfg, s, step), rest)
  {
    assert ([step] + rest)[1..] == rest;
  }

  lemma FirstBeat(cfg: Config, s: Sys, id: RowId, token: Token, until: nat, beats: seq<Beat>)
    requires beats != [] && InTime(cfg, s, id, token, until, beats)
    requires Sound(cfg, s) && HeldUntil(s, id, token, until) && IsAt(s, id, token, Executing)
    ensures
      var next := Apply(cfg, Run(cfg, s, beats[0].others), Heartbeat(id, token, beats[0].ts, Answered));
      && Sound(cfg, next) && HeldUntil(next, id, token, beats[0].ts + LeaseLength(cfg)) && IsAt(next, id, token, Executing)
      && next.rows[id] == s.rows[id].(lease := next.rows[id].lease)
      && Run(cfg, s, StepsOf(id, token, beats)) == Run(cfg, next, StepsOf(id, token, beats[1..]))
  {
    var here := Run(cfg, s, beats[0].others);
    var beat := Heartbeat(id, token, beats[0].ts, Answered);
    WorkGoesOn(cfg, s, beats[0].others, id, token, until, Executing);
    GrantGives(cfg, here, beat, id, token, beats[0].ts);
    RunAppend(cfg, s, beats[0].others, [beat] + StepsOf(id, token, beats[1..]));
    RunOne(cfg, here, beat, StepsOf(id, token, beats[1..]));
  }

  /** A worker that renews in time, however often, keeps its row: only the expiry of the row changes. */
  lemma {:induction false} HeartbeatsKeepRow(cfg: Config, s: Sys, id: RowId, token: Token, until: nat, beats: seq<Beat>)
    requires Sound(cfg, s) && HeldUntil(s, id, token, until) && IsAt(s, id, token, Executing)
    requires InTime(cfg, s, id, token, until, beats)
    ensures
      var now := Run(cfg, s, StepsOf(id, token, beats));
      && Sound(cfg, now) && HeldUntil(now, id, token, LastExpiry(cfg, until, beats)) && IsAt(now, id, token, Executing)
      && now.rows[id] == s.rows[id].(lease := now.rows[id].lease)
    decreases |beats|
  {
    if beats != [] {
      FirstBeat(cfg, s, id, token, until, beats);
      var next := Apply(cfg, Run(cfg, s, beats[0].others), Heartbeat(id, token, beats[0].ts, Answered));
      HeartbeatsKeepRow(cfg, next, id, token, beats[0].ts + LeaseLength(cfg), beats[1..]);
    }
  }

  // ----- Recording in time -----

  function TwoToThe(n: nat): nat {
    if n == 0 then 1 else 2 * TwoToThe(n - 1)
  }

  /** The wait after the `charged`-th failure: two to the power of that number, between 2 and 32 seconds,
      for the outbox; for jobs the configured seconds, and at least one. */
  ghost function Wait(cfg: Config, charged: nat): nat {
    if cfg.plane.Outbox? then TwoToThe(if charged < 1 then 1 else if charged > 5 then 5 else charged)
    else if cfg.backoffSeconds < 1 then 1 else cfg.backoffSeconds
  }

  /** What the acknowledgement of an outcome, bound at `at`, makes of a running row. */
  ghost predicate Recorded(cfg: Config, before: Row, after: Row, token: Token, outcome: Outcome, at: nat) {
    && after.lease.None?
    && match outcome
       case ExecOk =>
         after.state == Succeeded && after.attempts == before.attempts && after.log == before.log + [Ended(token, Acked(Succeeded))]
       case ExecSkipped =>
         after.state == Skipped && after.attempts == before.attempts && after.log == before.log + [Ended(token, Acked(Skipped))]
       case ExecErr =>
         if cfg.plane.Eval? then
           after.state == Failed && after.attempts == before.attempts && after.log == before.log + [Ended(token, Acked(Failed))]
         else
           && after.attempts == before.attempts + 1 && after.log == before.log + [Ended(token, Charged(after.state))]
           && if after.attempts >= cfg.maxAttempts then after.state == Failed
              else after.state == Queued && after.nextAttempt == Some(at + Wait(cfg, after.attempts))
  }

  lemma AckInTime(cfg: Config, s: Sys, id: RowId, token: Token, until: nat, outcome: Outcome, at: nat, reply: Reply)
    requires Sound(cfg, s) && HeldUntil(s, id, token, until) && IsAt(s, id, token, Done(outcome))
    requires at < until && at <= s.now && !reply.ErrBefore?
    ensures
      var next := Apply(cfg, s, Acknowledge(id, token, at, reply));
      id in next.rows && Recorded(cfg, s.rows[id], next.rows[id], token, outcome, at)
  {
    TaskIsTask(cfg, s, id, token);
    assert OwnerOk(s, s.rows[id].lease.value);
    BackoffIsWait(cfg, s.rows[id].attempts + 1);
  }

  lemma BackoffIsWait(cfg: Config, charged: nat)
    ensures Backoff(cfg, charged) == Wait(cfg, charged)
  {
    assert TwoToThe(1) == 2 && TwoToThe(2) == 4 && TwoToThe(3) == 8 && TwoToThe(4) == 16;
    assert TwoToThe(5) == 2 * TwoToThe(4);
  }

  lemma CompletesInTime(cfg: Config, s: Sys, id: RowId, token: Token, until: nat, outcome: Outcome)
    requires Sound(cfg, s) && HeldUntil(s, id, token, until) && IsAt(s, id, token, Executing)
    requires outcome.ExecSkipped? ==> cfg.plane.Eval?
    ensures
      var next := Apply(cfg, s, Complete(id, token, outcome));
      Sound(cfg, next) && HeldUntil(next, id, token, until) && IsAt(next, id, token, Done(outcome)) && next.rows == s.rows
  {
    TaskIsTask(cfg, s, id, token);
    StepIsSound(cfg, s, Complete(id, token, outcome));
  }

  /** The life of a claimed row whose worker acts in time, from the grant to the acknowledgement. */
  ghost function Attempt(cfg: Config, granted: Sys, id: RowId, token: Token, beats: seq<Beat>, before: seq<Step>, outcome: Outcome, after: seq<Step>): Sys {
    var executed := Run(cfg, Run(cfg, granted, StepsOf(id, token, beats)), before);
    Run(cfg, Apply(cfg, executed, Complete(id, token, outcome)), after)
  }

  /** Whatever the rest of the system does, the outcome of an execution is recorded when its worker renews
      its lease in time and acknowledges before it is over: a good execution makes the row succeeded. */
  lemma WorkInTimeIsRecorded(cfg: Config, steps: seq<Step>, grant: Step, id: RowId, token: Token, ts: nat, beats: seq<Beat>,
    before: seq<Step>, outcome: Outcome, after: seq<Step>, at: nat, reply: Reply)
    requires Grants(Run(cfg, INIT, steps), grant, id, token, ts)
    requires InTime(cfg, Apply(cfg, Run(cfg, INIT, steps), grant), id, token, ts + LeaseLength(cfg), beats)
    requires
      var until := LastExpiry(cfg, ts + LeaseLength(cfg), beats);
      Undisturbed(id, token, before, until) && Undisturbed(id, token, after, until) && at < until
    requires at <= Attempt(cfg, Apply(cfg, Run(cfg, INIT, steps), grant), id, token, beats, before, outcome, after).now
    requires (outcome.ExecSkipped? ==> cfg.plane.Eval?) && !reply.ErrBefore?
    ensures
      var granted := Apply(cfg, Run(cfg, INIT, steps), grant);
      var recorded := Apply(cfg, Attempt(cfg, granted, id, token, beats, before, outcome, after), Acknowledge(id, token, at, reply));
      && id in granted.rows && id in recorded.rows
      && Recorded(cfg, granted.rows[id], recorded.rows[id], token, outcome, at)
  {
    var s := Run(cfg, INIT, steps);
    var until := LastExpiry(cfg, ts + LeaseLength(cfg), beats);
    EveryLeaseHasItsOwner(cfg, steps);
    GrantGives(cfg, s, grant, id, token, ts);
    var granted := Apply(cfg, s, grant);
    HeartbeatsKeepRow(cfg, granted, id, token, ts + LeaseLength(cfg), beats);
    var renewed := Run(cfg, granted, StepsOf(id, token, beats));
    WorkGoesOn(cfg, renewed, before, id, token, until, Executing);
    var executed := Run(cfg, renewed, before);
    CompletesInTime(cfg, executed, id, token, until, outcome);
    var completed := Apply(cfg, executed, Complete(id, token, outcome));
    WorkGoesOn(cfg, completed, after, id, token, until, Done(outcome));
    AckInTime(cfg, Run(cfg, completed, after), id, token, until, outcome, at, reply);
  }

  // ----- Waiting -----

  /** The row waits for the given moment. */
  ghost predicate WaitsFor(s: Sys, id: RowId, moment: nat) {
    id in s.rows && s.rows[id].state.Queued? && s.rows[id].nextAttempt == Some(moment)
  }

  /** A batch that selected the row and has not come to it yet. */
  ghost predicate Selected(s: Sys, id: RowId) {
    exists token | token in s.batches :: id in s.batches[token].remaining
  }

  /** The batches that ask for the row are opened with timestamps before the given moment. */
  ghost predicate OpenedBefore(id: RowId, steps: seq<Step>, moment: nat) {
    forall i | 0 <= i < |steps| && steps[i].OpenBatch? && id in steps[i].ids :: steps[i].ts < moment
  }

  /** From that moment on a batch can select the row. */
  lemma WaitIsOver(cfg: Config, s: Sys, id: RowId, moment: nat, owner: WorkerId, ts: nat)
    requires WaitsFor(s, id, moment) && ts <= s.now
    ensures Apply(cfg, s, OpenBatch(owner, {id}, ts)) != s <==> moment <= ts
    ensures moment <= ts ==> Selected(Apply(cfg, s, OpenBatch(owner, {id}, ts)), id)
  {
    if moment <= ts {
      var next := Apply(cfg, s, OpenBatch(owner, {id}, ts));
      assert s.nextToken in next.batches && id in next.batches[s.nextToken].remaining;
    }
  }

  lemma WaitingStep(cfg: Config, s: Sys, step: Step, id: RowId, moment: nat)
    requires WaitsFor(s, id, moment) && !Selected(s, id)
    requires step.OpenBatch? && id in step.ids ==> step.ts < moment
    ensures
      var next := Apply(cfg, s, step);
      id in next.rows && next.rows[id] == s.rows[id] && !Selected(next, id)
  {
    RowNextIsNext(cfg, s, step, id);
    QueuedRowIsLeft(cfg, s, step, id);
    var next := Apply(cfg, s, step);
    forall token | token in next.batches
      ensures id !in next.batches[token].remaining
    {
      assert token in s.batches ==> id !in s.batches[token].remaining;
    }
  }

  lemma QueuedRowIsLeft(cfg: Config, s: Sys, step: Step, id: RowId)
    requires id in s.rows && s.rows[id].state.Queued? && !Selected(s, id)
    ensures RowNext(cfg, s, step, id) == s.rows[id]
  {
    if step.ClaimOne? && step.token in s.batches {
      assert id !in s.batches[step.token].remaining;
    }
  }

  lemma {:induction false} WaitingThrough(cfg: Config, s: Sys, more: seq<Step>, id: RowId, moment: nat)
    requires WaitsFor(s, id, moment) && !Selected(s, id) && OpenedBefore(id, more, moment)
    ensures id in Run(cfg, s, more).rows && Run(cfg, s, more).rows[id] == s.rows[id]
    decreases |more|
  {
    if more != [] {
      WaitingStep(cfg, s, more[0], id, moment);
      WaitingThrough(cfg, Apply(cfg, s, more[0]), more[1..], id, moment);
    }
  }

  /** A row that waits for a moment can be claimed by a run whose batches are all bound before it exactly
      when some batch had selected the row already: the claim itself does not look at the moment again. */
  lemma WaitIsKeptExactly(cfg: Config, s: Sys, id: RowId, moment: nat)
    requires WaitsFor(s, id, moment)
    ensures
      (exists more :: OpenedBefore(id, more, moment) && id in Run(cfg, s, more).rows && Run(cfg, s, more).rows[id] != s.rows[id])
      <==> Selected(s, id)
  {
    if Selected(s, id) {
      var token :| token in s.batches && id in s.batches[token].remaining;
      var more := [ClaimOne(id, token, 0)];
      RunOne(cfg, s, more[0], []);
      assert [more[0]] + [] == more;
      assert Run(cfg, s, more) == Apply(cfg, s, more[0]);
      assert OpenedBefore(id, more, moment) && Run(cfg, s, more).rows[id].state.Running?;
    } else {
      forall more | OpenedBefore(id, more, moment)
        ensures id in Run(cfg, s, more).rows && Run(cfg, s, more).rows[id] == s.rows[id]
      {
        WaitingThrough(cfg, s, more, id, moment);
      }
    }
  }

  const EARLY: Config := Config(Learning, 3, 60, 10, 10)

  /** Row 0 selected by two batches. */
  const SELECTED_TWICE: Sys := Sys(0, map[0 := NEW_ROW], map[0 := Batch(1, {0}), 1 := Batch(2, {0})], 2, map[], map[])

  lemma SelectTwice()
    ensures Run(EARLY, INIT, [Enqueue(0), OpenBatch(1, {0}, 0), OpenBatch(2, {0}, 0)]) == SELECTED_TWICE
  {
    var s1 := Apply(EARLY, INIT, Enqueue(0));
    var s2 := Apply(EARLY, s1, OpenBatch(1, {0}, 0));
    RunOne(EARLY, INIT, Enqueue(0), [OpenBatch(1, {0}, 0), OpenBatch(2, {0}, 0)]);
    RunOne(EARLY, s1, OpenBatch(1, {0}, 0), [OpenBatch(2, {0}, 0)]);
    RunOne(EARLY, s2, OpenBatch(2, {0}, 0), []);
    assert [OpenBatch(2, {0}, 0)] + [] == [OpenBatch(2, {0}, 0)];
    assert [OpenBatch(1, {0}, 0)] + [OpenBatch(2, {0}, 0)] == [OpenBatch(1, {0}, 0), OpenBatch(2, {0}, 0)];
  }

  /** The first batch claims the row and its execution fails; the second claims it at once, ten seconds
      before the backoff is over. */
  lemma EarlierBatchIgnoresBackoff()
    ensures Run(EARLY, INIT, [Enqueue(0), OpenBatch(1, {0}, 0), OpenBatch(2, {0}, 0)]) == SELECTED_TWICE
    ensures
      var failed := Apply(EARLY, Apply(EARLY, Apply(EARLY, SELECTED_TWICE, ClaimOne(0, 0, 0)), Complete(0, 0, ExecErr)), Acknowledge(0, 0, 0, Answered));
      failed.now == 0 && WaitsFor(failed, 0, 10) && Apply(EARLY, failed, ClaimOne(0, 1, 0)).rows[0].state.Running?
  {
    SelectTwice();
    var claimed := Apply(EARLY, SELECTED_TWICE, ClaimOne(0, 0, 0));
    var completed := Apply(EARLY, claimed, Complete(0, 0, ExecErr));
    var failed := Apply(EARLY, completed, Acknowledge(0, 0, 0, Answered));
    assert failed.batches[1] == Batch(2, {0});
  }
}
