/**
 Which accepted forget requests can still be completed. A request whose start row is written ends with
 a terminal row or stays at "running" for ever; here it is decided which, over all continuations.
 */
module ForgetProgress {

  import opened Wrappers
  import opened ForgetProtocol
  import opened ForgetSafety

  ghost predicate HasTerminalRow(w: World, job: JobId) {
    exists i | 0 <= i < |w.audit| :: w.audit[i].resource == ForgetJob && w.audit[i].job == job
  }

  // ----- Continuations -----

  lemma {:induction false} RunAppend(like: Like, w: World, first: seq<Step>, second: seq<Step>)
    ensures Run(like, w, first + second) == Run(like, Run(like, w, first), second)
    decreases |second|
  {
    if second == [] {
      assert first + second == first;
    } else {
      var init := second[..|second| - 1];
      assert (first + second)[..|first + second| - 1] == first + init;
      RunAppend(like, w, first, init);
    }
  }

  lemma RunFirst(like: Like, w: World, step: Step, rest: seq<Step>)
    ensures Run(like, w, [step] + rest) == Run(like, Apply(like, w, step), rest)
    ensures Run(like, w, [step]) == Apply(like, w, step)
  {
    RunAppend(like, w, [step], rest);
    assert [step][..0] == [];
  }

  /** A continuation keeps the invariant, every audit row and every accepted request. */
  lemma {:induction false} Continues(like: Like, w: World, more: seq<Step>)
    requires Inv(like, w)
    ensures
      var later := Run(like, w, more);
      && Inv(like, later) && w.audit <= later.audit
      && forall job | job in w.accepted :: job in later.accepted && later.accepted[job] == w.accepted[job]
    decreases |more|
  {
    if more != [] {
      var before := Run(like, w, more[..|more| - 1]);
      Continues(like, w, more[..|more| - 1]);
      StepKeeps(like, before, more[|more| - 1]);
      StepFrames(like, before, more[|more| - 1]);
    }
  }

  // ----- Requests that validation refuses after the start row -----

  ghost predicate RefusableNeverBegins(w: World) {
    forall job | job in w.accepted && Refusable(w.accepted[job]) :: job !in w.begun
  }

  lemma StepKeepsRefusable(like: Like, w: World, step: Step)
    requires Inv(like, w) && RefusableNeverBegins(w)
    ensures RefusableNeverBegins(Apply(like, w, step))
  {
    if OfRequest(w, step) {
      OnlyAuthorizeBegins(like, w, step);
      StepFrames(like, w, step);
    } else {
      OthersBeginNothing(like, w, step);
    }
  }

  lemma OthersBeginNothing(like: Like, w: World, step: Step)
    requires !OfRequest(w, step)
    ensures Apply(like, w, step).begun == w.begun
    ensures forall job | job in Apply(like, w, step).accepted ::
      job == w.nextJob || (job in w.accepted && Apply(like, w, step).accepted[job] == w.accepted[job])
  {
  }

  lemma OnlyAuthorizeBegins(like: Like, w: World, step: Step)
    requires OfRequest(w, step)
    ensures RequestStep(like, w, step).accepted == w.accepted
    ensures Refusable(w.accepted[step.job]) ==> RequestStep(like, w, step).begun == w.begun
  {
    RequestAcceptsNobody(like, w, step);
  }

  lemma {:induction false} NeverBegins(like: Like, steps: seq<Step>)
    ensures RefusableNeverBegins(Run(like, EMPTY, steps))
    decreases |steps|
  {
    if steps != [] {
      NeverBegins(like, steps[..|steps| - 1]);
      EveryRunKeeps(like, steps[..|steps| - 1]);
      StepKeepsRefusable(like, Run(like, EMPTY, steps[..|steps| - 1]), steps[|steps| - 1]);
    }
  }

  /** In every run a job whose accepted request is refusable has deleted nothing, has no terminal row,
      and reads as absent. */
  lemma RefusableLeavesNoTerminalRow(like: Like, steps: seq<Step>, job: JobId)
    requires job in Run(like, EMPTY, steps).accepted && Refusable(Run(like, EMPTY, steps).accepted[job])
    ensures
      var w := Run(like, EMPTY, steps);
      && !HasTerminalRow(w, job) && ReadJob(w.audit, job).None?
      && forall i | 0 <= i < |w.deletions| :: w.deletions[i].job != job
  {
    NeverBegins(like, steps);
    EveryRunKeeps(like, steps);
    ReadsNeverSeeProgress(like, steps, job, 0);
    var w := Run(like, EMPTY, steps);
    forall i | 0 <= i < |w.deletions|
      ensures w.deletions[i].job != job
    {
      assert DeletionHolds(w, w.deletions[i]);
    }
    forall i | 0 <= i < |w.audit| && w.audit[i].resource == ForgetJob
      ensures w.audit[i].job != job
    {
      assert RowHolds(like, w, w.audit[i], i);
    }
  }

  // ----- Pages exist -----

  lemma {:induction false} Least(ids: set<RecordId>) returns (least: RecordId)
    requires ids != {}
    ensures least in ids && forall id | id in ids :: least <= id
    decreases ids
  {
    least :| least in ids;
    if ids != {least} {
      var other := Least(ids - {least});
      assert ids == (ids - {least}) + {least};
      least := if other < least then other else least;
    }
  }

  /** The first ids of a set, in ascending order. */
  lemma {:induction false} FirstIds(ids: set<RecordId>, limit: nat) returns (page: seq<RecordId>)
    requires limit > 0
    ensures |page| <= limit && (page == [] <==> ids == {})
    ensures forall i, j | 0 <= i < j < |page| :: page[i] < page[j]
    ensures forall id | id in page :: id in ids
    ensures forall id | id in ids :: id in page || (|page| == limit && id > page[|page| - 1])
    decreases limit
  {
    if ids == {} {
      page := [];
    } else {
      var least := Least(ids);
      if limit == 1 || ids == {least} {
        page := [least];
      } else {
        var rest := FirstIds(ids - {least}, limit - 1);
        page := [least] + rest;
        forall j | 0 <= j < |rest|
          ensures least < rest[j]
        {
          assert rest[j] in rest && rest[j] in ids - {least};
        }
        assert rest[|rest| - 1] == page[|page| - 1];
      }
    }
  }

  /** The records a sweep has not read yet. */
  function Above(like: Like, w: World, job: JobId, cursor: int): set<RecordId>
    requires job in w.accepted
  {
    set id | id in w.records && id > cursor && Matches(like, w.accepted[job], w.records[id])
  }

  lemma NextPage(like: Like, w: World, job: JobId, cursor: int) returns (page: seq<RecordId>)
    requires job in w.accepted
    ensures IsPage(like, w.records, w.accepted[job], cursor, PageLimit(w.accepted[job]), page)
    ensures page == [] <==> Above(like, w, job, cursor) == {}
    ensures |page| <= PAGE_SIZE + 1 && forall id | id in page :: id in Above(like, w, job, cursor)
  {
    page := FirstIds(Above(like, w, job, cursor), PageLimit(w.accepted[job]));
  }

  // ----- From the start row to the end of the deletions -----

  /** One deletion of a sweep: the next id is done and nothing new is above the cursor. */
  lemma DeleteAdvances(like: Like, w: World, job: JobId)
    requires IsWorking(w, job) && w.accepted[job].scope != MemoryScope && w.phases[job].todo != []
    ensures
      var now, phase := Apply(like, w, DeleteNext(job)), w.phases[job];
      && IsWorking(now, job) && now.accepted == w.accepted && now.audit == w.audit
      && now.phases[job].todo == phase.todo[1..] && now.phases[job].cursor == phase.cursor && now.phases[job].lastPage == phase.lastPage
      && Above(like, now, job, phase.cursor) <= Above(like, w, job, phase.cursor)
  {
    assert Apply(like, w, DeleteNext(job)) == DeleteStep(w, job);
  }

  /** One page: the sweep is over, or the cursor has passed at least one record. */
  lemma PageAdvances(like: Like, w: World, job: JobId, page: seq<RecordId>)
    requires IsWorking(w, job) && w.accepted[job].scope != MemoryScope
    requires w.phases[job].todo == [] && !w.phases[job].lastPage
    requires IsPage(like, w.records, w.accepted[job], w.phases[job].cursor, PageLimit(w.accepted[job]), page)
    ensures
      var now := Apply(like, w, ReadPage(job, page));
      && job in now.phases && now.accepted == w.accepted && now.audit == w.audit && now.records == w.records
      && (page == [] ==> now.phases[job].Swept?)
      && (page != [] ==> IsWorking(now, job) && now.phases[job].cursor >= page[0])
  {
    assert Apply(like, w, ReadPage(job, page)) == PageStep(like, w, job, page);
    if page != [] {
      var batch := if |page| > PAGE_SIZE then page[..PAGE_SIZE] else page;
      assert batch[|batch| - 1] == page[|batch| - 1] && page[|batch| - 1] >= page[0];
    }
  }

  lemma SmallerAbove(like: Like, now: World, w: World, job: JobId, cursor: int, before: int, first: RecordId)
    requires job in w.accepted && now.accepted == w.accepted && now.records == w.records
    requires first in Above(like, w, job, before) && cursor >= first
    ensures |Above(like, now, job, cursor)| < |Above(like, w, job, before)|
  {
    var less, more := Above(like, now, job, cursor), Above(like, w, job, before);
    assert less <= more - {first};
    SubsetSize(less, more - {first});
  }

  lemma SubsetSize(a: set<RecordId>, b: set<RecordId>)
    requires a <= b
    ensures |a| <= |b|
  {
    assert b == a + (b - a);
  }

  ghost predicate EndsSwept(like: Like, w: World, job: JobId, more: seq<Step>) {
    var later := Run(like, w, more);
    job in later.phases && job in later.accepted && later.phases[job].Swept? && later.audit == w.audit
  }

  lemma EndsSweptAfter(like: Like, w: World, job: JobId, step: Step, rest: seq<Step>)
    requires EndsSwept(like, Apply(like, w, step), job, rest) && Apply(like, w, step).audit == w.audit
    ensures EndsSwept(like, w, job, [step] + rest)
  {
    RunFirst(like, w, step, rest);
  }

  lemma {:induction false} FinishSweep(like: Like, w: World, job: JobId) returns (more: seq<Step>)
    requires IsWorking(w, job) && w.accepted[job].scope != MemoryScope
    ensures EndsSwept(like, w, job, more)
    decreases |Above(like, w, job, w.phases[job].cursor)|, |w.phases[job].todo|
  {
    var phase := w.phases[job];
    if phase.todo != [] {
      var now := Apply(like, w, DeleteNext(job));
      DeleteAdvances(like, w, job);
      SubsetSize(Above(like, now, job, phase.cursor), Above(like, w, job, phase.cursor));
      var rest := FinishSweep(like, now, job);
      EndsSweptAfter(like, w, job, DeleteNext(job), rest);
      more := [DeleteNext(job)] + rest;
    } else if phase.lastPage {
      RunFirst(like, w, ReadPage(job, []), []);
      more := [ReadPage(job, [])];
    } else {
      var page := NextPage(like, w, job, phase.cursor);
      var now := Apply(like, w, ReadPage(job, page));
      PageAdvances(like, w, job, page);
      var rest: seq<Step> := [];
      if page != [] {
        SmallerAbove(like, now, w, job, now.phases[job].cursor, phase.cursor, page[0]);
        rest := FinishSweep(like, now, job);
      }
      EndsSweptAfter(like, w, job, ReadPage(job, page), rest);
      more := [ReadPage(job, page)] + rest;
    }
  }

  lemma {:induction false} FinishIds(like: Like, w: World, job: JobId) returns (more: seq<Step>)
    requires IsWorking(w, job) && w.accepted[job].scope == MemoryScope
    ensures EndsSwept(like, w, job, more)
    decreases |w.phases[job].todo|, if w.phases[job].found.Some? then 1 else 0
  {
    var phase := w.phases[job];
    var step :=
      if phase.found.Some? then DeleteNext(job) else if phase.todo != [] then LookUp(job) else FinishMemories(job);
    var now := Apply(like, w, step);
    MemoryStep(like, w, job, step);
    var rest: seq<Step> := [];
    if !now.phases[job].Swept? {
      rest := FinishIds(like, now, job);
    }
    EndsSweptAfter(like, w, job, step, rest);
    more := [step] + rest;
  }

  lemma MemoryStep(like: Like, w: World, job: JobId, step: Step)
    requires IsWorking(w, job) && w.accepted[job].scope == MemoryScope
    requires step == if w.phases[job].found.Some? then DeleteNext(job) else if w.phases[job].todo != [] then LookUp(job) else FinishMemories(job)
    ensures
      var now, phase := Apply(like, w, step), w.phases[job];
      && job in now.phases && now.accepted == w.accepted && now.audit == w.audit
      && match step
         case DeleteNext(_) => IsWorking(now, job) && now.phases[job].todo == phase.todo && now.phases[job].found.None?
         case LookUp(_) => IsWorking(now, job) && now.phases[job].todo == phase.todo[1..]
         case _ => now.phases[job].Swept?
  {
    if w.phases[job].found.Some? {
      assert Apply(like, w, step) == DeleteStep(w, job);
    } else if w.phases[job].todo != [] {
      assert Apply(like, w, step) == LookUpStep(w, job);
    } else {
      assert Apply(like, w, step) == FinishStep(w, job);
    }
  }

  /** From its start row a request that is not refusable can be completed, as long as no other writer
      has taken its job's uuid in the log. */
  lemma CanComplete(like: Like, w: World, job: JobId) returns (more: seq<Step>)
    requires job in w.phases && job in w.accepted && w.phases[job] == Started
    requires !Refusable(w.accepted[job]) && !HasUuid(w.audit, JobKey(job))
    ensures HasTerminalRow(Run(like, w, more), job)
  {
    var working := Apply(like, w, Authorize(job, true));
    assert working == AuthorizeStep(w, job, true);
    var rest: seq<Step>;
    if w.accepted[job].scope == MemoryScope {
      rest := FinishIds(like, working, job);
    } else {
      rest := FinishSweep(like, working, job);
    }
    EndsSweptAfter(like, w, job, Authorize(job, true), rest);
    var swept := Run(like, w, [Authorize(job, true)] + rest);
    WritesTerminalRow(like, swept, job);
    RunAppend(like, w, [Authorize(job, true)] + rest, [WriteTerminal(job, NoFault)]);
    RunFirst(like, swept, WriteTerminal(job, NoFault), []);
    more := [Authorize(job, true)] + rest + [WriteTerminal(job, NoFault)];
  }

  lemma WritesTerminalRow(like: Like, w: World, job: JobId)
    requires job in w.phases && job in w.accepted && w.phases[job].Swept? && !HasUuid(w.audit, JobKey(job))
    ensures HasTerminalRow(Apply(like, w, WriteTerminal(job, NoFault)), job)
  {
    var now := Apply(like, w, WriteTerminal(job, NoFault));
    assert now == TerminalStep(w, job, NoFault);
    assert now.audit[|w.audit|] == AuditRow(JobKey(job), ForgetJob, job, w.phases[job].count);
  }

  // ----- Exactly which requests are stranded -----

  /** A row of another writer under the uuid of a running job keeps the job's terminal row out. */
  lemma TakenUuidStrands(like: Like, steps: seq<Step>, job: JobId, more: seq<Step>)
    requires
      var w := Run(like, EMPTY, steps);
      job in w.phases && HasUuid(w.audit, JobKey(job))
    ensures !HasTerminalRow(Run(like, Run(like, EMPTY, steps), more), job)
  {
    var w := Run(like, EMPTY, steps);
    EveryRunKeeps(like, steps);
    Continues(like, w, more);
    var later := Run(like, w, more);
    var i :| 0 <= i < |w.audit| && w.audit[i].uuid == JobKey(job);
    assert RowHolds(like, w, w.audit[i], i) && later.audit[i] == w.audit[i];
    KeysAreDistinct(w.audit[i].job, job);
    KeysAreDistinct(job, w.audit[i].job);
    forall k | 0 <= k < |later.audit| && later.audit[k].resource == ForgetJob
      ensures later.audit[k].job != job
    {
      assert RowHolds(like, later, later.audit[k], k);
      assert later.audit[k].uuid == JobKey(job) ==> k == i;
    }
  }

  /** A request whose start row is written can still get its terminal row, in some continuation of the
      run, exactly when validation does not refuse it after the start row and no other writer has a row
      under the job's uuid. Every other one stays at "running" whatever happens. */
  lemma StrandedExactly(like: Like, steps: seq<Step>, job: JobId)
    requires job in Run(like, EMPTY, steps).phases && Run(like, EMPTY, steps).phases[job] == Started
    ensures job in Run(like, EMPTY, steps).accepted
    ensures
      var w := Run(like, EMPTY, steps);
      (exists more :: HasTerminalRow(Run(like, w, more), job))
      <==> !Refusable(w.accepted[job]) && !HasUuid(w.audit, JobKey(job))
  {
    EveryRunKeeps(like, steps);
    var w := Run(like, EMPTY, steps);
    assert PhaseHolds(like, w, job);
    if more :| HasTerminalRow(Run(like, w, more), job) {
      RunAppend(like, EMPTY, steps, more);
      Continues(like, w, more);
      if Refusable(w.accepted[job]) {
        RefusableLeavesNoTerminalRow(like, steps + more, job);
      }
      if HasUuid(w.audit, JobKey(job)) {
        TakenUuidStrands(like, steps, job, more);
      }
    }
    if !Refusable(w.accepted[job]) && !HasUuid(w.audit, JobKey(job)) {
      var more := CanComplete(like, w, job);
    }
  }

  /** The shape check does not look at the actor: every well-shaped request is as well shaped without
      one. After the start row of such a request no continuation gives its job a terminal row or lets it
      delete anything. */
  lemma RequestWithoutActorIsStranded(like: Like, request: Request, more: seq<Step>)
    requires WellShaped(request)
    ensures
      var r := request.(actor := None);
      var started := Run(like, EMPTY, [Submit(r), WriteStart(0, NoFault)]);
      var w := Run(like, started, more);
      && WellShaped(r) && started.audit == [AuditRow(StartKey(0), ForgetProgress, 0, 0)] && started.phases == map[0 := Started]
      && started.audit <= w.audit && !HasTerminalRow(w, 0) && ReadJob(w.audit, 0).None?
      && forall i | 0 <= i < |w.deletions| :: w.deletions[i].job != 0
  {
    var r := request.(actor := None);
    var steps := [Submit(r), WriteStart(0, NoFault)];
    StartOfFirst(like, r);
    EveryRunKeeps(like, steps);
    Continues(like, Run(like, EMPTY, steps), more);
    RunAppend(like, EMPTY, steps, more);
    RefusableLeavesNoTerminalRow(like, steps + more, 0);
  }

  lemma StartOfFirst(like: Like, r: Request)
    requires WellShaped(r)
    ensures
      var started := Run(like, EMPTY, [Submit(r), WriteStart(0, NoFault)]);
      && started.audit == [AuditRow(StartKey(0), ForgetProgress, 0, 0)] && started.phases == map[0 := Started]
      && started.accepted == map[0 := r]
  {
    RunFirst(like, EMPTY, Submit(r), [WriteStart(0, NoFault)]);
    RunFirst(like, Apply(like, EMPTY, Submit(r)), WriteStart(0, NoFault), []);
    assert [Submit(r), WriteStart(0, NoFault)] == [Submit(r)] + [WriteStart(0, NoFault)];
  }
}
