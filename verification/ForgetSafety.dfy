/** What every run of forget requests keeps, whatever interleaves and whatever crashes. */
module ForgetSafety {

  import opened Wrappers
  import opened ForgetProtocol

  /** A start row of the job among the first `n` rows. */
  ghost predicate StartedBefore(audit: seq<AuditRow>, job: JobId, n: nat) {
    exists i | 0 <= i < n && i < |audit| :: audit[i] == AuditRow(StartKey(job), ForgetProgress, job, 0)
  }

  function CountBy(deletions: seq<Deletion>, job: JobId): nat {
    if deletions == [] then 0
    else CountBy(deletions[..|deletions| - 1], job) + (if deletions[|deletions| - 1].job == job then 1 else 0)
  }

  // ----- The invariant, part by part -----

  ghost predicate UniqueUuids(audit: seq<AuditRow>) {
    forall i, j | 0 <= i < j < |audit| :: audit[i].uuid != audit[j].uuid
  }

  ghost predicate JobsHold(w: World) {
    && (forall job | job in w.accepted :: job < w.nextJob && WellShaped(w.accepted[job]))
    && (forall job | job in w.phases :: job in w.accepted)
    && (forall job | job in w.begun :: job in w.accepted && w.begun[job] <= w.used)
  }

  ghost predicate DeletionHolds(w: World, d: Deletion) {
    && d.auditLength <= |w.audit| && StartedBefore(w.audit, d.job, d.auditLength)
    && d.job in w.begun && d.id in w.used && d.id !in w.records
  }

  ghost predicate StoreHolds(w: World) {
    && w.records.Keys <= w.used
    && (forall i | 0 <= i < |w.deletions| :: DeletionHolds(w, w.deletions[i]))
    && (forall i, j | 0 <= i < j < |w.deletions| :: w.deletions[i].id != w.deletions[j].id)
  }

  /** Of the records present when its deletions began, the wanted ones a request has still before it. */
  ghost predicate LeftToDelete(like: Like, w: World, job: JobId, phase: Phase)
    requires job in w.accepted && job in w.begun && phase.Working?
  {
    var r := w.accepted[job];
    forall id | id in w.begun[job] && id in w.records && Wanted(like, r, id, w.records[id]) ::
      || id in phase.todo || phase.found == Some(id)
      || (r.scope != MemoryScope && id > phase.cursor && !phase.lastPage)
  }

  /** None of the wanted records present when the deletions began is left. */
  ghost predicate NothingLeft(like: Like, w: World, job: JobId)
    requires job in w.accepted && job in w.begun
  {
    forall id | id in w.begun[job] && id in w.records :: !Wanted(like, w.accepted[job], id, w.records[id])
  }

  ghost predicate PhaseHolds(like: Like, w: World, job: JobId)
    requires job in w.phases
  {
    && job in w.accepted
    && match w.phases[job]
       case Accepted => job !in w.begun
       case Started => job !in w.begun && StartedBefore(w.audit, job, |w.audit|)
       case Working(cursor, todo, found, lastPage, count) =>
         && job in w.begun && StartedBefore(w.audit, job, |w.audit|) && count == CountBy(w.deletions, job)
         && LeftToDelete(like, w, job, w.phases[job]) && (found.Some? ==> w.accepted[job].scope == MemoryScope)
       case Swept(count) =>
         && job in w.begun && StartedBefore(w.audit, job, |w.audit|) && count == CountBy(w.deletions, job)
         && NothingLeft(like, w, job)
  }

  /** What the rows of the protocol say about the run. */
  ghost predicate RowHolds(like: Like, w: World, row: AuditRow, i: nat) {
    match row.resource
    case OtherResource(_) => true
    case ForgetProgress => row.job in w.accepted && row.uuid == StartKey(row.job)
    case ForgetJob =>
      && row.uuid == JobKey(row.job) && row.job in w.accepted && row.job in w.begun && row.job !in w.phases
      && StartedBefore(w.audit, row.job, i)
      && row.deletedCount == CountBy(w.deletions, row.job)
      && NothingLeft(like, w, row.job)
  }

  ghost predicate PhasesHold(like: Like, w: World) {
    forall job | job in w.phases :: PhaseHolds(like, w, job)
  }

  ghost predicate RowsHold(like: Like, w: World) {
    forall i | 0 <= i < |w.audit| :: RowHolds(like, w, w.audit[i], i)
  }

  ghost predicate Inv(like: Like, w: World) {
    UniqueUuids(w.audit) && JobsHold(w) && StoreHolds(w) && PhasesHold(like, w) && RowsHold(like, w)
  }

  // ----- What one step leaves alone -----

  /** A stored record changes its status only, and is never live again. */
  ghost predicate SameBut(now: Record, before: Record) {
    now.space == before.space && now.user == before.user && now.text == before.text && (before.softDeleted ==> now.softDeleted)
  }

  lemma WantedBefore(like: Like, r: Request, id: RecordId, now: Record, before: Record)
    requires SameBut(now, before) && Wanted(like, r, id, now)
    ensures Wanted(like, r, id, before)
  {
  }

  /** The request a step acts for. */
  function Actor(w: World, step: Step): JobId {
    match step
    case Submit(_) => w.nextJob
    case AppendOther(_, _) => w.nextJob
    case AddRecord(_, _) => w.nextJob
    case SoftDelete(_) => w.nextJob
    case _ => step.job
  }

  /** Stored records lose only members, apart from new ids, and change only their status. */
  ghost predicate Shrinks(now: map<RecordId, Record>, before: map<RecordId, Record>, used: set<RecordId>) {
    forall id | id in now && id in used :: id in before && SameBut(now[id], before[id])
  }

  ghost predicate Frame(now: World, w: World, actor: JobId) {
    && w.audit <= now.audit
    && (now.deletions == w.deletions || (|now.deletions| == |w.deletions| + 1 && w.deletions <= now.deletions && now.deletions[|w.deletions|].job == actor))
    && Shrinks(now.records, w.records, w.used) && w.used <= now.used
    && (forall job | job in w.accepted :: job in now.accepted && now.accepted[job] == w.accepted[job])
    && (forall job | job in w.begun :: job in now.begun && now.begun[job] == w.begun[job])
    && (forall job | job in now.begun && job != actor :: job in w.begun)
    && (forall job | job in now.phases && job != actor :: job in w.phases && now.phases[job] == w.phases[job])
  }

  lemma StartFrames(w: World, job: JobId, fault: Fault)
    ensures Frame(StartStep(w, job, fault), w, job)
  {
  }

  lemma AuthorizeFrames(w: World, job: JobId, allowed: bool)
    requires job in w.accepted && job !in w.begun
    ensures Frame(AuthorizeStep(w, job, allowed), w, job)
  {
  }

  lemma PageFrames(like: Like, w: World, job: JobId, page: seq<RecordId>)
    requires IsWorking(w, job)
    ensures Frame(PageStep(like, w, job, page), w, job)
    ensures var now := PageStep(like, w, job, page); now == w.(phases := now.phases)
  {
  }

  lemma DeleteFrames(w: World, job: JobId)
    requires IsWorking(w, job)
    ensures Frame(DeleteStep(w, job), w, job)
  {
  }

  lemma TerminalFrames(w: World, job: JobId, fault: Fault)
    requires job in w.phases && w.phases[job].Swept?
    ensures Frame(TerminalStep(w, job, fault), w, job)
  {
  }

  lemma FrameOfNothing(w: World, actor: JobId)
    ensures Frame(w, w, actor)
  {
  }

  predicate OfRequest(w: World, step: Step) {
    && (step.WriteStart? || step.Authorize? || step.ReadPage? || step.LookUp? || step.DeleteNext? || step.FinishMemories? || step.WriteTerminal?)
    && step.job in w.phases && step.job in w.accepted
  }

  lemma LookUpFrames(w: World, job: JobId)
    requires IsWorking(w, job)
    ensures Frame(LookUpStep(w, job), w, job) && Frame(FinishStep(w, job), w, job)
  {
  }

  lemma RequestFrames(like: Like, w: World, step: Step)
    requires OfRequest(w, step) && PhaseHolds(like, w, step.job)
    ensures Frame(RequestStep(like, w, step), w, step.job)
  {
    FrameOfNothing(w, step.job);
    var phase := w.phases[step.job];
    match step
    case WriteStart(job, fault) => StartFrames(w, job, fault);
    case Authorize(job, allowed) =>
      if phase.Started? {
        AuthorizeFrames(w, job, allowed);
      }
    case ReadPage(job, page) =>
      if phase.Working? {
        PageFrames(like, w, job, page);
      }
    case LookUp(job) =>
      if phase.Working? {
        LookUpFrames(w, job);
      }
    case DeleteNext(job) =>
      if phase.Working? {
        DeleteFrames(w, job);
      }
    case FinishMemories(job) =>
      if phase.Working? {
        LookUpFrames(w, job);
      }
    case WriteTerminal(job, fault) =>
      if phase.Swept? {
        TerminalFrames(w, job, fault);
      }
  }

  lemma SubmitFrames(w: World, request: Request)
    requires JobsHold(w)
    ensures Frame(SubmitStep(w, request), w, w.nextJob)
  {
  }

  lemma StoreFrames(like: Like, w: World, step: Step)
    requires step.Crash? || step.AppendOther? || step.AddRecord? || step.SoftDelete?
    ensures Frame(Apply(like, w, step), w, Actor(w, step))
  {
  }

  lemma StepFrames(like: Like, w: World, step: Step)
    requires JobsHold(w) && PhasesHold(like, w)
    ensures Frame(Apply(like, w, step), w, Actor(w, step))
  {
    match step
    case Submit(request) => SubmitFrames(w, request);
    case Crash(_) => StoreFrames(like, w, step);
    case AppendOther(_, _) => StoreFrames(like, w, step);
    case AddRecord(_, _) => StoreFrames(like, w, step);
    case SoftDelete(_) => StoreFrames(like, w, step);
    case _ =>
      if step.job in w.phases {
        assert PhaseHolds(like, w, step.job);
        RequestFrames(like, w, step);
      } else {
        FrameOfNothing(w, step.job);
      }
  }

  lemma StartedBeforeExtends(now: seq<AuditRow>, before: seq<AuditRow>, job: JobId, n: nat, m: nat)
    requires before <= now && n <= m && StartedBefore(before, job, n)
    ensures StartedBefore(now, job, m)
  {
    var i :| 0 <= i < n && i < |before| && before[i] == AuditRow(StartKey(job), ForgetProgress, job, 0);
    assert now[i] == before[i];
  }

  lemma CountByOthers(now: World, w: World, actor: JobId, job: JobId)
    requires Frame(now, w, actor) && job != actor
    ensures CountBy(now.deletions, job) == CountBy(w.deletions, job)
  {
    if now.deletions != w.deletions {
      assert now.deletions[..|now.deletions| - 1] == w.deletions;
    }
  }

  lemma {:induction false} CountByNobody(deletions: seq<Deletion>, job: JobId)
    requires forall i | 0 <= i < |deletions| :: deletions[i].job != job
    ensures CountBy(deletions, job) == 0
  {
    if deletions != [] {
      CountByNobody(deletions[..|deletions| - 1], job);
    }
  }

  lemma LeftStays(like: Like, now: World, w: World, actor: JobId, job: JobId)
    requires Frame(now, w, actor) && JobsHold(w) && job in w.accepted && job in w.begun
    ensures forall phase: Phase | phase.Working? && LeftToDelete(like, w, job, phase) :: LeftToDelete(like, now, job, phase)
    ensures NothingLeft(like, w, job) ==> NothingLeft(like, now, job)
  {
    forall id | id in w.begun[job] && id in now.records && Wanted(like, w.accepted[job], id, now.records[id])
      ensures id in w.records && Wanted(like, w.accepted[job], id, w.records[id])
    {
      WantedBefore(like, w.accepted[job], id, now.records[id], w.records[id]);
    }
  }

  lemma OtherPhasesHold(like: Like, now: World, w: World, actor: JobId, job: JobId)
    requires Frame(now, w, actor) && JobsHold(w) && job != actor
    requires job in now.phases && PhaseHolds(like, w, job)
    ensures PhaseHolds(like, now, job)
  {
    CountByOthers(now, w, actor, job);
    var phase := w.phases[job];
    if !phase.Accepted? {
      StartedBeforeExtends(now.audit, w.audit, job, |w.audit|, |now.audit|);
    }
    if phase.Working? || phase.Swept? {
      LeftStays(like, now, w, actor, job);
    }
  }

  lemma OldRowsHold(like: Like, now: World, w: World, actor: JobId, i: nat)
    requires Frame(now, w, actor) && JobsHold(w) && i < |w.audit| && RowHolds(like, w, w.audit[i], i)
    requires actor in w.phases || actor !in w.accepted
    ensures RowHolds(like, now, now.audit[i], i)
  {
    var row := w.audit[i];
    assert now.audit[i] == row;
    if row.resource.ForgetJob? {
      CountByOthers(now, w, actor, row.job);
      StartedBeforeExtends(now.audit, w.audit, row.job, i, i);
      LeftStays(like, now, w, actor, row.job);
    }
  }

  // ----- What one step does to its own request -----

  lemma AppendKeepsUnique(audit: seq<AuditRow>, row: AuditRow, fault: Fault)
    requires UniqueUuids(audit)
    ensures UniqueUuids(Append(audit, row, fault).1)
    ensures Append(audit, row, fault).1 == audit || Append(audit, row, fault).1 == audit + [row]
    ensures Append(audit, row, fault).0 ==> Append(audit, row, fault).1 == audit + [row]
  {
  }

  lemma RequestKeepsUnique(like: Like, w: World, step: Step)
    requires UniqueUuids(w.audit) && OfRequest(w, step)
    ensures UniqueUuids(RequestStep(like, w, step).audit)
    ensures |RequestStep(like, w, step).audit| <= |w.audit| + 1
  {
    match step
    case WriteStart(job, fault) => AppendKeepsUnique(w.audit, AuditRow(StartKey(job), ForgetProgress, job, 0), fault);
    case WriteTerminal(job, fault) =>
      if w.phases[job].Swept? {
        AppendKeepsUnique(w.audit, AuditRow(JobKey(job), ForgetJob, job, w.phases[job].count), fault);
      }
    case _ =>
  }

  lemma UniqueKept(like: Like, w: World, step: Step)
    requires UniqueUuids(w.audit)
    ensures UniqueUuids(Apply(like, w, step).audit)
    ensures |Apply(like, w, step).audit| <= |w.audit| + 1
  {
    if OfRequest(w, step) {
      RequestKeepsUnique(like, w, step);
    } else if step.AppendOther? {
      AppendKeepsUnique(w.audit, AuditRow(step.uuid, OtherResource(step.name), 0, 0), NoFault);
    }
  }

  lemma RequestKeepsJobs(like: Like, w: World, step: Step)
    requires JobsHold(w) && w.records.Keys <= w.used && OfRequest(w, step)
    ensures JobsHold(RequestStep(like, w, step))
  {
    RequestAcceptsNobody(like, w, step);
    RequestStartsNobody(like, w, step);
  }

  /** A step of a request adds no phase and begins at most its own deletions, with the ids now stored. */
  lemma RequestStartsNobody(like: Like, w: World, step: Step)
    requires OfRequest(w, step)
    ensures
      var now := RequestStep(like, w, step);
      && now.used == w.used && now.phases.Keys <= w.phases.Keys
      && (now.begun == w.begun || now.begun == w.begun[step.job := w.records.Keys])
  {
    match step
    case ReadPage(job, page) =>
      if w.phases[job].Working? {
        PageFrames(like, w, job, page);
      }
    case _ =>
  }

  lemma JobsKept(like: Like, w: World, step: Step)
    requires JobsHold(w) && w.records.Keys <= w.used
    ensures JobsHold(Apply(like, w, step))
  {
    if OfRequest(w, step) {
      RequestKeepsJobs(like, w, step);
    }
  }

  lemma TerminalRowHolds(like: Like, w: World, job: JobId, fault: Fault)
    requires JobsHold(w) && job in w.accepted && job in w.phases && w.phases[job].Swept? && PhaseHolds(like, w, job)
    ensures
      var now := TerminalStep(w, job, fault);
      |now.audit| == |w.audit| + 1 ==> RowHolds(like, now, now.audit[|w.audit|], |w.audit|)
  {
    var now := TerminalStep(w, job, fault);
    TerminalFrames(w, job, fault);
    LeftStays(like, now, w, job, job);
    StartedBeforeExtends(now.audit, w.audit, job, |w.audit|, |w.audit|);
  }

  lemma StartRowHolds(like: Like, w: World, job: JobId, fault: Fault)
    requires job in w.accepted
    ensures
      var now := StartStep(w, job, fault);
      |now.audit| == |w.audit| + 1 ==> RowHolds(like, now, now.audit[|w.audit|], |w.audit|)
  {
  }

  lemma NewRowHolds(like: Like, w: World, step: Step)
    requires JobsHold(w) && PhasesHold(like, w) && |Apply(like, w, step).audit| == |w.audit| + 1
    ensures RowHolds(like, Apply(like, w, step), Apply(like, w, step).audit[|w.audit|], |w.audit|)
  {
    if OfRequest(w, step) {
      assert PhaseHolds(like, w, step.job);
      if step.WriteStart? {
        StartRowHolds(like, w, step.job, step.fault);
      } else if step.WriteTerminal? {
        TerminalRowHolds(like, w, step.job, step.fault);
      }
    }
  }

  lemma ActorPhaseHolds(like: Like, w: World, step: Step)
    requires Inv(like, w) && Actor(w, step) in Apply(like, w, step).phases
    ensures PhaseHolds(like, Apply(like, w, step), Actor(w, step))
  {
    if OfRequest(w, step) {
      assert PhaseHolds(like, w, step.job);
      RequestPhaseHolds(like, w, step);
    }
  }

  lemma RequestPhaseHolds(like: Like, w: World, step: Step)
    requires OfRequest(w, step) && StoreHolds(w) && PhaseHolds(like, w, step.job) && step.job in RequestStep(like, w, step).phases
    ensures PhaseHolds(like, RequestStep(like, w, step), step.job)
  {
    var phase := w.phases[step.job];
    match step
    case WriteStart(job, fault) =>
      if phase.Accepted? {
        StartPhaseHolds(like, w, job, fault);
      }
    case Authorize(job, allowed) =>
      if phase.Started? {
        AuthorizePhaseHolds(like, w, job, allowed);
      }
    case ReadPage(job, page) =>
      if phase.Working? {
        PagePhaseHolds(like, w, job, page);
      }
    case LookUp(job) =>
      if phase.Working? {
        LookUpPhaseHolds(like, w, job);
      }
    case DeleteNext(job) =>
      if phase.Working? {
        DeletePhaseHolds(like, w, job);
      }
    case FinishMemories(job) =>
      if phase.Working? {
        FinishPhaseHolds(like, w, job);
      }
    case WriteTerminal(job, fault) =>
  }

  lemma AuthorizePhaseHolds(like: Like, w: World, job: JobId, allowed: bool)
    requires StoreHolds(w) && job in w.accepted && job in w.phases && w.phases[job].Started? && PhaseHolds(like, w, job)
    requires job in AuthorizeStep(w, job, allowed).phases
    ensures PhaseHolds(like, AuthorizeStep(w, job, allowed), job)
  {
    NoDeletionsYet(w, job);
  }

  lemma LookUpPhaseHolds(like: Like, w: World, job: JobId)
    requires IsWorking(w, job) && PhaseHolds(like, w, job)
    ensures PhaseHolds(like, LookUpStep(w, job), job)
  {
  }

  lemma FinishPhaseHolds(like: Like, w: World, job: JobId)
    requires IsWorking(w, job) && PhaseHolds(like, w, job)
    ensures PhaseHolds(like, FinishStep(w, job), job)
  {
  }

  lemma NoDeletionsYet(w: World, job: JobId)
    requires StoreHolds(w) && job !in w.begun
    ensures CountBy(w.deletions, job) == 0
  {
    forall i | 0 <= i < |w.deletions|
      ensures w.deletions[i].job != job
    {
      assert DeletionHolds(w, w.deletions[i]);
    }
    CountByNobody(w.deletions, job);
  }

  lemma StartPhaseHolds(like: Like, w: World, job: JobId, fault: Fault)
    requires job in w.accepted && job in w.phases && w.phases[job].Accepted? && PhaseHolds(like, w, job)
    requires job in StartStep(w, job, fault).phases
    ensures PhaseHolds(like, StartStep(w, job, fault), job)
  {
    var row := AuditRow(StartKey(job), ForgetProgress, job, 0);
    assert (w.audit + [row])[|w.audit|] == row;
  }

  lemma PagePhaseHolds(like: Like, w: World, job: JobId, page: seq<RecordId>)
    requires IsWorking(w, job) && PhaseHolds(like, w, job)
    ensures PhaseHolds(like, PageStep(like, w, job, page), job)
  {
    var r, phase, now := w.accepted[job], w.phases[job], PageStep(like, w, job, page);
    if r.scope != MemoryScope && phase.todo == [] && !phase.lastPage && IsPage(like, w.records, r, phase.cursor, PageLimit(r), page) && page != [] {
      var hasMore := |page| > PAGE_SIZE;
      var batch := if hasMore then page[..PAGE_SIZE] else page;
      forall id | id in w.begun[job] && id in w.records && Wanted(like, r, id, w.records[id])
        ensures id in batch || (id > batch[|batch| - 1] && !(r.scope == SpaceScope && !hasMore))
      {
        assert id > phase.cursor;
        PageCovers(page, id, batch);
      }
    }
  }

  /** An id on an ascending page is in its first part or above it. */
  lemma PageCovers(page: seq<RecordId>, id: RecordId, batch: seq<RecordId>)
    requires batch != [] && batch <= page && forall i, j | 0 <= i < j < |page| :: page[i] < page[j]
    ensures id in page ==> id in batch || id > batch[|batch| - 1]
    ensures batch[|batch| - 1] <= page[|page| - 1]
  {
    if id in page {
      var k :| 0 <= k < |page| && page[k] == id;
      assert k < |batch| ==> batch[k] == id;
      assert batch[|batch| - 1] == page[|batch| - 1];
    }
  }

  lemma DeletePhaseHolds(like: Like, w: World, job: JobId)
    requires IsWorking(w, job) && PhaseHolds(like, w, job)
    ensures PhaseHolds(like, DeleteStep(w, job), job)
  {
    var now := DeleteStep(w, job);
    if |now.deletions| > |w.deletions| {
      assert now.deletions[..|now.deletions| - 1] == w.deletions;
    }
    var phase := w.phases[job];
    assert phase.todo != [] ==> phase.todo == [phase.todo[0]] + phase.todo[1..];
  }

  lemma OldDeletionHolds(now: World, w: World, actor: JobId, d: Deletion)
    requires Frame(now, w, actor) && DeletionHolds(w, d)
    ensures DeletionHolds(now, d)
  {
    StartedBeforeExtends(now.audit, w.audit, d.job, d.auditLength, d.auditLength);
  }

  lemma NewDeletionHolds(like: Like, w: World, job: JobId)
    requires StoreHolds(w) && IsWorking(w, job) && PhaseHolds(like, w, job)
    ensures StoreHolds(DeleteStep(w, job))
  {
    var now := DeleteStep(w, job);
    DeleteFrames(w, job);
    forall i | 0 <= i < |now.deletions|
      ensures DeletionHolds(now, now.deletions[i])
    {
      if i < |w.deletions| {
        OldDeletionHolds(now, w, job, w.deletions[i]);
      }
    }
    forall i, j | 0 <= i < j < |now.deletions|
      ensures now.deletions[i].id != now.deletions[j].id
    {
      assert DeletionHolds(w, w.deletions[i]);
    }
  }

  lemma StoreKept(like: Like, w: World, step: Step)
    requires Inv(like, w)
    ensures StoreHolds(Apply(like, w, step))
  {
    var now := Apply(like, w, step);
    if step.DeleteNext? && IsWorking(w, step.job) {
      assert PhaseHolds(like, w, step.job);
      NewDeletionHolds(like, w, step.job);
    } else {
      StepFrames(like, w, step);
      NoNewDeletions(like, w, step);
      forall i | 0 <= i < |w.deletions|
        ensures DeletionHolds(now, w.deletions[i])
      {
        OldDeletionHolds(now, w, Actor(w, step), w.deletions[i]);
      }
    }
  }

  lemma NoNewDeletions(like: Like, w: World, step: Step)
    requires !(step.DeleteNext? && IsWorking(w, step.job)) && w.records.Keys <= w.used
    ensures Apply(like, w, step).deletions == w.deletions
    ensures Apply(like, w, step).records.Keys <= Apply(like, w, step).used
  {
    if OfRequest(w, step) {
      assert RequestStep(like, w, step).deletions == w.deletions && RequestStep(like, w, step).records == w.records;
    }
  }

  lemma PhasesKept(like: Like, w: World, step: Step)
    requires Inv(like, w)
    ensures PhasesHold(like, Apply(like, w, step))
  {
    var now, actor := Apply(like, w, step), Actor(w, step);
    StepFrames(like, w, step);
    forall job | job in now.phases
      ensures PhaseHolds(like, now, job)
    {
      if job == actor {
        ActorPhaseHolds(like, w, step);
      } else {
        assert PhaseHolds(like, w, job);
        OtherPhasesHold(like, now, w, actor, job);
      }
    }
  }

  lemma RowKept(like: Like, w: World, step: Step, now: World, i: nat)
    requires Inv(like, w) && i < |w.audit| && i < |now.audit| && now == Apply(like, w, step)
    ensures RowHolds(like, now, now.audit[i], i)
  {
    var actor := Actor(w, step);
    assert RowHolds(like, w, w.audit[i], i);
    if actor in w.phases || actor !in w.accepted {
      StepFrames(like, w, step);
      OldRowsHold(like, now, w, actor, i);
    } else {
      IdleChangesNothing(like, w, step);
    }
  }

  /** A step of a request that has already ended does nothing. */
  lemma IdleChangesNothing(like: Like, w: World, step: Step)
    requires Actor(w, step) !in w.phases && Actor(w, step) in w.accepted && JobsHold(w)
    ensures Apply(like, w, step) == w
  {
    assert step.Crash? ==> w.phases - {step.job} == w.phases;
  }

  lemma RowsFromParts(like: Like, now: World, n: nat)
    requires |now.audit| <= n + 1
    requires forall i | 0 <= i < n && i < |now.audit| :: RowHolds(like, now, now.audit[i], i)
    requires n < |now.audit| ==> RowHolds(like, now, now.audit[n], n)
    ensures RowsHold(like, now)
  {
  }

  lemma RowsKept(like: Like, w: World, step: Step, now: World)
    requires Inv(like, w) && now == Apply(like, w, step)
    ensures RowsHold(like, now)
  {
    UniqueKept(like, w, step);
    forall i | 0 <= i < |w.audit| && i < |now.audit|
      ensures RowHolds(like, now, now.audit[i], i)
    {
      RowKept(like, w, step, now, i);
    }
    if |w.audit| < |now.audit| {
      NewRowHolds(like, w, step);
    }
    RowsFromParts(like, now, |w.audit|);
  }

  lemma StepKeeps(like: Like, w: World, step: Step)
    requires Inv(like, w)
    ensures Inv(like, Apply(like, w, step))
  {
    UniqueKept(like, w, step);
    JobsKept(like, w, step);
    StoreKept(like, w, step);
    PhasesKept(like, w, step);
    RowsKept(like, w, step, Apply(like, w, step));
  }

  lemma {:induction false} EveryRunKeeps(like: Like, steps: seq<Step>)
    ensures Inv(like, Run(like, EMPTY, steps))
    decreases |steps|
  {
    if steps != [] {
      EveryRunKeeps(like, steps[..|steps| - 1]);
      StepKeeps(like, Run(like, EMPTY, steps[..|steps| - 1]), steps[|steps| - 1]);
    }
  }

  // ----- What this says about every run -----

  /** Every deletion has its request's start row before it, and only well-shaped requests delete. */
  lemma DeletionsFollowTheirStart(like: Like, steps: seq<Step>, i: nat)
    requires i < |Run(like, EMPTY, steps).deletions|
    ensures
      var w := Run(like, EMPTY, steps);
      var d := w.deletions[i];
      && StartedBefore(w.audit, d.job, d.auditLength) && d.auditLength <= |w.audit|
      && d.job in w.accepted && WellShaped(w.accepted[d.job])
  {
    EveryRunKeeps(like, steps);
    assert DeletionHolds(Run(like, EMPTY, steps), Run(like, EMPTY, steps).deletions[i]);
  }

  /** One job has at most one terminal row and at most one start row, the start row comes first, and
      the count reported is the number of records the job deleted, none of them twice. */
  lemma OneTerminalRow(like: Like, steps: seq<Step>, i: nat, j: nat)
    requires
      var audit := Run(like, EMPTY, steps).audit;
      i < |audit| && j < |audit| && audit[i].resource == ForgetJob
    ensures
      var w := Run(like, EMPTY, steps);
      var row, other := w.audit[i], w.audit[j];
      && (other.resource == ForgetJob && other.job == row.job ==> i == j)
      && (other.resource == ForgetProgress && other.job == row.job ==> j < i)
      && StartedBefore(w.audit, row.job, i) && row.deletedCount == CountBy(w.deletions, row.job)
  {
    EveryRunKeeps(like, steps);
    var w := Run(like, EMPTY, steps);
    assert RowHolds(like, w, w.audit[i], i) && RowHolds(like, w, w.audit[j], j);
    var k :| 0 <= k < i && w.audit[k] == AuditRow(StartKey(w.audit[i].job), ForgetProgress, w.audit[i].job, 0);
  }

  /** After its terminal row a request has left none of the records it was to delete and that were
      stored when its deletions began: of a space, user or query request every matching record,
      soft-deleted ones included; of a memory request every record of its space that it names and that
      stayed live. */
  lemma CompletedRequestIsComplete(like: Like, steps: seq<Step>, i: nat, id: RecordId)
    requires
      var w := Run(like, EMPTY, steps);
      && i < |w.audit| && w.audit[i].resource == ForgetJob
      && w.audit[i].job in w.begun && id in w.begun[w.audit[i].job]
    ensures
      var w := Run(like, EMPTY, steps);
      && w.audit[i].job in w.accepted
      && (id in w.records ==> !Wanted(like, w.accepted[w.audit[i].job], id, w.records[id]))
  {
    EveryRunKeeps(like, steps);
    var w := Run(like, EMPTY, steps);
    assert RowHolds(like, w, w.audit[i], i);
  }

  lemma {:induction false} ReadFindsExactly(audit: seq<AuditRow>, job: JobId)
    ensures ReadJob(audit, job).Some? <==> exists i | 0 <= i < |audit| :: audit[i].uuid == JobKey(job) && audit[i].resource == ForgetJob
    ensures ReadJob(audit, job).Some? ==> ReadJob(audit, job).value in audit
    ensures ReadJob(audit, job).Some? ==> ReadJob(audit, job).value.uuid == JobKey(job) && ReadJob(audit, job).value.resource == ForgetJob
  {
    if audit != [] && !(audit[0].uuid == JobKey(job) && audit[0].resource == ForgetJob) {
      ReadFindsExactly(audit[1..], job);
      if i :| 0 <= i < |audit| && audit[i].uuid == JobKey(job) && audit[i].resource == ForgetJob {
        assert audit[1..][i - 1] == audit[i];
      }
      if i :| 0 <= i < |audit| - 1 && audit[1..][i].uuid == JobKey(job) && audit[1..][i].resource == ForgetJob {
        assert audit[i + 1] == audit[1..][i];
      }
    }
  }

  /** Reading a job by its id finds its terminal row exactly when it has one, and no read by any id
      ever sees a progress row, whatever its resource filter. */
  lemma ReadsNeverSeeProgress(like: Like, steps: seq<Step>, job: JobId, i: nat)
    ensures
      var w := Run(like, EMPTY, steps);
      && (ReadJob(w.audit, job).Some? <==> exists k | 0 <= k < |w.audit| :: w.audit[k].resource == ForgetJob && w.audit[k].job == job)
      && (ReadJob(w.audit, job).Some? ==> ReadJob(w.audit, job).value.job == job && ReadJob(w.audit, job).value.deletedCount == CountBy(w.deletions, job))
      && (i < |w.audit| && w.audit[i].resource == ForgetProgress ==> w.audit[i].uuid != JobKey(job))
  {
    EveryRunKeeps(like, steps);
    var w := Run(like, EMPTY, steps);
    ReadFindsExactly(w.audit, job);
    forall k | 0 <= k < |w.audit| && w.audit[k].resource == ForgetJob
      ensures w.audit[k].uuid == JobKey(job) <==> w.audit[k].job == job
      ensures w.audit[k].deletedCount == CountBy(w.deletions, w.audit[k].job)
    {
      assert RowHolds(like, w, w.audit[k], k);
      KeysAreDistinct(w.audit[k].job, job);
    }
    if i < |w.audit| && w.audit[i].resource == ForgetProgress {
      assert RowHolds(like, w, w.audit[i], i);
      KeysAreDistinct(job, w.audit[i].job);
    }
  }

  /** A malformed request is never accepted, so it never has a row or a deletion. */
  lemma {:induction false} MalformedLeavesNothing(like: Like, steps: seq<Step>, bad: Request, more: seq<Step>)
    requires !WellShaped(bad)
    ensures
      var job, w := Run(like, EMPTY, steps).nextJob, Run(like, Run(like, EMPTY, steps + [Submit(bad)]), more);
      && job !in w.accepted && job < w.nextJob && Inv(like, w)
      && (forall i | 0 <= i < |w.audit| && !w.audit[i].resource.OtherResource? :: w.audit[i].job != job)
      && (forall i | 0 <= i < |w.deletions| :: w.deletions[i].job != job)
    decreases |more|
  {
    var job, middle := Run(like, EMPTY, steps).nextJob, Run(like, EMPTY, steps + [Submit(bad)]);
    EveryRunKeeps(like, steps);
    EveryRunKeeps(like, steps + [Submit(bad)]);
    assert (steps + [Submit(bad)])[..|steps|] == steps;
    var w := Run(like, middle, more);
    if more != [] {
      var before := Run(like, middle, more[..|more| - 1]);
      MalformedLeavesNothing(like, steps, bad, more[..|more| - 1]);
      StepKeeps(like, before, more[|more| - 1]);
      NeverAcceptedLater(like, before, more[|more| - 1], job);
    }
    RowsNeedAcceptance(like, w, job);
  }

  lemma NeverAcceptedLater(like: Like, w: World, step: Step, job: JobId)
    requires JobsHold(w) && job < w.nextJob && job !in w.accepted
    ensures job !in Apply(like, w, step).accepted && job < Apply(like, w, step).nextJob
  {
    if OfRequest(w, step) {
      RequestAcceptsNobody(like, w, step);
    }
  }

  lemma RequestAcceptsNobody(like: Like, w: World, step: Step)
    requires OfRequest(w, step)
    ensures RequestStep(like, w, step).accepted == w.accepted && RequestStep(like, w, step).nextJob == w.nextJob
  {
  }

  lemma RowsNeedAcceptance(like: Like, w: World, job: JobId)
    requires Inv(like, w) && job !in w.accepted
    ensures forall i | 0 <= i < |w.audit| && !w.audit[i].resource.OtherResource? :: w.audit[i].job != job
    ensures forall i | 0 <= i < |w.deletions| :: w.deletions[i].job != job
  {
    forall i | 0 <= i < |w.audit| && !w.audit[i].resource.OtherResource?
      ensures w.audit[i].job != job
    {
      assert RowHolds(like, w, w.audit[i], i);
    }
    forall i | 0 <= i < |w.deletions|
      ensures w.deletions[i].job != job
    {
      assert DeletionHolds(w, w.deletions[i]);
    }
  }

  lemma DeleteBalances(w: World, job: JobId)
    requires IsWorking(w, job)
    ensures
      var now := DeleteStep(w, job);
      now.used == w.used && |now.records| + |now.deletions| == |w.records| + |w.deletions|
  {
    var now := DeleteStep(w, job);
    if now.records != w.records {
      var id := NextDeletion(w.accepted[job], w.phases[job]).value.0;
      assert now.records.Keys == w.records.Keys - {id};
      assert |now.records| == |now.records.Keys| && |w.records| == |w.records.Keys|;
    }
  }

  /** Every record ever stored is still stored or was deleted by exactly one request: the drop in
      stored records is the sum of the counts. */
  lemma {:induction false} NothingVanishesUncounted(like: Like, steps: seq<Step>)
    ensures var w := Run(like, EMPTY, steps); |w.used| == |w.records| + |w.deletions|
    decreases |steps|
  {
    if steps != [] {
      var w, step := Run(like, EMPTY, steps[..|steps| - 1]), steps[|steps| - 1];
      NothingVanishesUncounted(like, steps[..|steps| - 1]);
      EveryRunKeeps(like, steps[..|steps| - 1]);
      StepBalances(like, w, step);
    }
  }

  lemma StepBalances(like: Like, w: World, step: Step)
    requires w.records.Keys <= w.used
    ensures
      var now := Apply(like, w, step);
      |now.used| - |w.used| == |now.records| + |now.deletions| - (|w.records| + |w.deletions|)
  {
    if step.DeleteNext? && IsWorking(w, step.job) {
      DeleteBalances(w, step.job);
    } else if step.AddRecord? || step.SoftDelete? {
      TableBalances(like, w, step);
    } else {
      NoNewDeletions(like, w, step);
      OnlyDeletionsTouchRecords(like, w, step);
    }
  }

  lemma OnlyDeletionsTouchRecords(like: Like, w: World, step: Step)
    requires !step.AddRecord? && !step.SoftDelete? && !(step.DeleteNext? && IsWorking(w, step.job))
    ensures Apply(like, w, step).records == w.records && Apply(like, w, step).used == w.used
  {
    if OfRequest(w, step) {
      assert RequestStep(like, w, step).records == w.records && RequestStep(like, w, step).used == w.used;
    }
  }

  lemma TableBalances(like: Like, w: World, step: Step)
    requires step.AddRecord? || step.SoftDelete?
    requires w.records.Keys <= w.used
    ensures
      var now := Apply(like, w, step);
      |now.used| - |w.used| == |now.records| - |w.records| && now.deletions == w.deletions
  {
    match step
    case AddRecord(id, record) => SizeOfUpdate(w.records, id, record);
    case SoftDelete(id) =>
      if id in w.records {
        SizeOfUpdate(w.records, id, w.records[id].(softDeleted := true));
      }
  }

  lemma SizeOfUpdate(records: map<RecordId, Record>, id: RecordId, record: Record)
    ensures |records[id := record]| == |records| + (if id in records then 0 else 1)
  {
    var now := records[id := record];
    assert now.Keys == records.Keys + {id};
    assert |now| == |now.Keys| && |records| == |records.Keys|;
  }
}
