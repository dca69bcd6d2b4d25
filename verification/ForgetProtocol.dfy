/**
 Forget requests as a write-ahead protocol: a start row in the append-only audit log, then the access
 check and the deletions one store call at a time, then one terminal row under the job's own id.
 Requests interleave with each other and with other writers, and any of them can crash between any
 two of its steps.
 */
module ForgetProtocol {

  import opened Wrappers
  import SerdeInt64
  import Text

  type JobId = nat
  type RecordId = nat

  const MAX_MEMORY_IDS: nat := 200
  const PAGE_SIZE: nat := 200

  /** Space ids are signed in the store. */
  const SPACE_ID_LIMIT: nat := 0x8000_0000_0000_0000

  // ----- Requests -----

  datatype ScopeName = MemoryScope | SpaceScope | UserScope | QueryScope | UnknownScope

  datatype Request = Request(scope: ScopeName, memoryIds: Option<seq<RecordId>>, space: Option<nat>, query: Option<string>, actor: Option<nat>)

  datatype ShapeError = MemoryIdsRequired | MemoryIdsEmpty | TooManyMemoryIds | SpaceRequired | QueryRequired | QueryBlank | BadScope

  function ShapeErrorOf(r: Request): Option<ShapeError> {
    match r.scope
    case MemoryScope =>
      if r.memoryIds.None? then Some(MemoryIdsRequired)
      else if r.memoryIds.value == [] then Some(MemoryIdsEmpty)
      else if |r.memoryIds.value| > MAX_MEMORY_IDS then Some(TooManyMemoryIds)
      else if r.space.None? then Some(SpaceRequired)
      else None
    case SpaceScope => if r.space.None? then Some(SpaceRequired) else None
    case UserScope => None
    case QueryScope =>
      if r.space.None? then Some(SpaceRequired)
      else if r.query.None? then Some(QueryRequired)
      else if Text.Trim(r.query.value) == "" then Some(QueryBlank)
      else None
    case UnknownScope => Some(BadScope)
  }

  predicate WellShaped(r: Request) {
    ShapeErrorOf(r).None?
  }

  // ----- Records and the audit log -----

  datatype Record = Record(space: nat, user: Option<nat>, text: string, softDeleted: bool)

  /** Whether a text is like a query, as the store compares them. */
  type Like = (string, string) -> bool

  datatype Resource = ForgetProgress | ForgetJob | OtherResource(name: string)

  datatype AuditRow = AuditRow(uuid: string, resource: Resource, job: JobId, deletedCount: nat)

  function JobKey(job: JobId): string {
    SerdeInt64.Printed(job)
  }

  function StartKey(job: JobId): string {
    SerdeInt64.Printed(job) + ":start"
  }

  lemma KeysAreDistinct(a: JobId, b: JobId)
    ensures JobKey(a) == JobKey(b) <==> a == b
    ensures StartKey(a) == StartKey(b) <==> a == b
    ensures JobKey(a) != StartKey(b)
  {
    SerdeInt64.PrintedDenotesItself(a);
    SerdeInt64.PrintedDenotesItself(b);
    var s, t := SerdeInt64.Printed(a), SerdeInt64.Printed(b);
    assert StartKey(b)[|t|] == ':';
    assert JobKey(a) == StartKey(b) ==> SerdeInt64.IsDigit(s[|t|]);
    if StartKey(a) == StartKey(b) {
      assert s == StartKey(a)[..|StartKey(a)| - 6] && t == StartKey(b)[..|StartKey(b)| - 6];
    }
  }

  predicate HasUuid(audit: seq<AuditRow>, uuid: string) {
    exists i | 0 <= i < |audit| :: audit[i].uuid == uuid
  }

  /** The id-keyed read of a job. */
  function ReadJob(audit: seq<AuditRow>, job: JobId): Option<AuditRow> {
    if audit == [] then None
    else if audit[0].uuid == JobKey(job) && audit[0].resource == ForgetJob then Some(audit[0])
    else ReadJob(audit[1..], job)
  }

  // ----- The protocol -----

  /** `todo` holds the ids still to handle; a sweep reads them page by page above `cursor`, the
      memory scope has them from the request and looks each up before deleting it. */
  datatype Phase =
    | Accepted
    | Started
    | Working(cursor: int, todo: seq<RecordId>, found: Option<RecordId>, lastPage: bool, count: nat)
    | Swept(count: nat)

  /** One physical deletion: which job, which record, and how long the audit log then was. */
  datatype Deletion = Deletion(job: JobId, id: RecordId, auditLength: nat)

  /** `used`, `accepted`, `begun` and `deletions` are the history: every record id ever stored, the
      accepted requests, the ids present when a job's deletions began, and the deletions. */
  datatype World = World(
    records: map<RecordId, Record>,
    audit: seq<AuditRow>,
    phases: map<JobId, Phase>,
    nextJob: JobId,
    used: set<RecordId>,
    accepted: map<JobId, Request>,
    begun: map<JobId, set<RecordId>>,
    deletions: seq<Deletion>)

  datatype Step =
    | Submit(request: Request)
    | WriteStart(job: JobId, fault: Fault)
    | Authorize(job: JobId, allowed: bool)
    | ReadPage(job: JobId, page: seq<RecordId>)
    | LookUp(job: JobId)
    | DeleteNext(job: JobId)
    | FinishMemories(job: JobId)
    | WriteTerminal(job: JobId, fault: Fault)
    | Crash(job: JobId)
    | AppendOther(uuid: string, name: string)
    | AddRecord(id: RecordId, record: Record)
    | SoftDelete(id: RecordId)

  /** The records a sweep is after, soft-deleted ones included. */
  predicate Matches(like: Like, r: Request, record: Record) {
    match r.scope
    case SpaceScope => r.space == Some(record.space)
    case UserScope => r.actor.Some? && record.user == r.actor && (r.space.Some? ==> r.space == Some(record.space))
    case QueryScope => r.space == Some(record.space) && r.query.Some? && like(r.query.value, record.text)
    case _ => false
  }

  /** What a request is to delete: for the memory scope the live records of its space that it names. */
  predicate Wanted(like: Like, r: Request, id: RecordId, record: Record) {
    if r.scope == MemoryScope
    then r.memoryIds.Some? && id in r.memoryIds.value && r.space == Some(record.space) && !record.softDeleted
    else Matches(like, r, record)
  }

  /** A page in ascending order: the first `limit` matching ids above the cursor, or all of them. */
  predicate IsPage(like: Like, records: map<RecordId, Record>, r: Request, cursor: int, limit: nat, page: seq<RecordId>) {
    && |page| <= limit
    && (forall i, j | 0 <= i < j < |page| :: page[i] < page[j])
    && (forall id | id in page :: id in records && id > cursor && Matches(like, r, records[id]))
    && (forall id | id in records && id > cursor && Matches(like, r, records[id]) ::
          id in page || (|page| == limit && page != [] && id > page[|page| - 1]))
  }

  predicate IsWorking(w: World, job: JobId) {
    job in w.phases && job in w.accepted && w.phases[job].Working?
  }

  function WithPhase(w: World, job: JobId, phase: Phase): World {
    w.(phases := w.phases[job := phase])
  }

  function Gone(w: World, job: JobId): World {
    w.(phases := w.phases - {job})
  }

  /** An append to the log: refused when the uuid is taken; a fault can hide a commit. */
  function Append(audit: seq<AuditRow>, row: AuditRow, fault: Fault): (bool, seq<AuditRow>) {
    if fault == FailsBeforeCommit || HasUuid(audit, row.uuid) then (false, audit)
    else (fault == NoFault, audit + [row])
  }

  function SubmitStep(w: World, request: Request): World {
    var job := w.nextJob;
    if WellShaped(request)
    then w.(nextJob := job + 1, phases := w.phases[job := Accepted], accepted := w.accepted[job := request])
    else w.(nextJob := job + 1)
  }

  function StartStep(w: World, job: JobId, fault: Fault): World {
    var (ok, audit) := Append(w.audit, AuditRow(StartKey(job), ForgetProgress, job, 0), fault);
    if ok then WithPhase(w.(audit := audit), job, Started) else Gone(w.(audit := audit), job)
  }

  /** What the shape check leaves to be refused after the start row, in every state of the store: a
      request without an actor, which the user scope refuses itself and the access check of the other
      scopes always refuses, and a space id the store cannot hold. */
  predicate Refusable(r: Request) {
    r.actor.None? || (r.space.Some? && r.space.value >= SPACE_ID_LIMIT)
  }

  /** Write access for the three scopes that name a space; the decision is free for a request with an
      actor. The user scope needs an actor only. */
  function AuthorizeStep(w: World, job: JobId, allowed: bool): World
    requires job in w.accepted
  {
    var r := w.accepted[job];
    if Refusable(r) || (r.scope != UserScope && !allowed) then Gone(w, job)
    else
      var todo := if r.scope == MemoryScope && r.memoryIds.Some? then r.memoryIds.value else [];
      WithPhase(w.(begun := w.begun[job := w.records.Keys]), job, Working(-1, todo, None, false, 0))
  }

  function PageLimit(r: Request): nat {
    if r.scope == SpaceScope then PAGE_SIZE + 1 else PAGE_SIZE
  }

  /** An empty page ends the sweep. The space sweep reads one row more than a page, and stops after a
      page without that row; the other sweeps read until nothing is left. */
  function PageStep(like: Like, w: World, job: JobId, page: seq<RecordId>): World
    requires IsWorking(w, job)
  {
    var r, phase := w.accepted[job], w.phases[job];
    if r.scope == MemoryScope || phase.todo != [] then w
    else if phase.lastPage then WithPhase(w, job, Swept(phase.count))
    else if !IsPage(like, w.records, r, phase.cursor, PageLimit(r), page) then w
    else if page == [] then WithPhase(w, job, Swept(phase.count))
    else
      var hasMore := |page| > PAGE_SIZE;
      var batch := if hasMore then page[..PAGE_SIZE] else page;
      WithPhase(w, job, phase.(todo := batch, cursor := batch[|batch| - 1], lastPage := r.scope == SpaceScope && !hasMore))
  }

  /** The memory scope skips an id that is absent or soft-deleted in its space. */
  function LookUpStep(w: World, job: JobId): World
    requires IsWorking(w, job)
  {
    var r, phase := w.accepted[job], w.phases[job];
    if r.scope != MemoryScope || phase.todo == [] || phase.found.Some? then w
    else
      var id := phase.todo[0];
      var live := id in w.records && r.space == Some(w.records[id].space) && !w.records[id].softDeleted;
      WithPhase(w, job, phase.(todo := phase.todo[1..], found := if live then Some(id) else None))
  }

  /** The id a deletion call is about to handle, and the phase after it. */
  function NextDeletion(r: Request, phase: Phase): Option<(RecordId, Phase)>
    requires phase.Working?
  {
    if r.scope == MemoryScope then
      if phase.found.Some? then Some((phase.found.value, phase.(found := None))) else None
    else if phase.todo != [] then Some((phase.todo[0], phase.(todo := phase.todo[1..])))
    else None
  }

  /** The physical deletion finds the row whatever its status, and nothing when it is gone. */
  function DeleteStep(w: World, job: JobId): World
    requires IsWorking(w, job)
  {
    match NextDeletion(w.accepted[job], w.phases[job])
    case None => w
    case Some((id, phase)) =>
      if id in w.records && (w.accepted[job].scope == MemoryScope ==> w.accepted[job].space == Some(w.records[id].space))
      then
        WithPhase(
          w.(records := w.records - {id}, deletions := w.deletions + [Deletion(job, id, |w.audit|)]),
          job, phase.(count := phase.count + 1))
      else WithPhase(w, job, phase)
  }

  function TerminalStep(w: World, job: JobId, fault: Fault): World
    requires job in w.phases && w.phases[job].Swept?
  {
    Gone(w.(audit := Append(w.audit, AuditRow(JobKey(job), ForgetJob, job, w.phases[job].count), fault).1), job)
  }

  /** Once its ids are used up, a request of the memory scope is swept. */
  function FinishStep(w: World, job: JobId): World
    requires IsWorking(w, job)
  {
    var phase := w.phases[job];
    if w.accepted[job].scope == MemoryScope && phase.todo == [] && phase.found.None?
    then WithPhase(w, job, Swept(phase.count)) else w
  }

  /** One step of a running request; steps that do not fit its phase change nothing. */
  function RequestStep(like: Like, w: World, step: Step): World
    requires step.WriteStart? || step.Authorize? || step.ReadPage? || step.LookUp? || step.DeleteNext? || step.FinishMemories? || step.WriteTerminal?
    requires step.job in w.phases && step.job in w.accepted
  {
    match step
    case WriteStart(job, fault) => if w.phases[job].Accepted? then StartStep(w, job, fault) else w
    case Authorize(job, allowed) => if w.phases[job].Started? then AuthorizeStep(w, job, allowed) else w
    case ReadPage(job, page) => if w.phases[job].Working? then PageStep(like, w, job, page) else w
    case LookUp(job) => if w.phases[job].Working? then LookUpStep(w, job) else w
    case DeleteNext(job) => if w.phases[job].Working? then DeleteStep(w, job) else w
    case FinishMemories(job) => if w.phases[job].Working? then FinishStep(w, job) else w
    case WriteTerminal(job, fault) => if w.phases[job].Swept? then TerminalStep(w, job, fault) else w
  }

  function Apply(like: Like, w: World, step: Step): World {
    match step
    case Submit(request) => SubmitStep(w, request)
    case Crash(job) => Gone(w, job)
    case AppendOther(uuid, name) => w.(audit := Append(w.audit, AuditRow(uuid, OtherResource(name), 0, 0), NoFault).1)
    case AddRecord(id, record) => if id in w.used then w else w.(records := w.records[id := record], used := w.used + {id})
    case SoftDelete(id) =>
      if id in w.records then w.(records := w.records[id := w.records[id].(softDeleted := true)]) else w
    case _ => if step.job in w.phases && step.job in w.accepted then RequestStep(like, w, step) else w
  }

  function Run(like: Like, w: World, steps: seq<Step>): World
    decreases |steps|
  {
    if steps == [] then w else Apply(like, Run(like, w, steps[..|steps| - 1]), steps[|steps| - 1])
  }

  const EMPTY: World := World(map[], [], map[], 0, {}, map[], map[], [])
}
