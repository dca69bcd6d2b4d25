/** Forget requests delete nothing but what they ask for, in every run. */
module ForgetScope {

  import opened Wrappers
  import opened ForgetProtocol
  import opened ForgetSafety
  import Text

  /** What a sweeping request asks for. */
  ghost predicate AskedFor(like: Like, r: Request, record: Record) {
    && (r.scope.SpaceScope? || r.scope.UserScope? || r.scope.QueryScope?)
    && (r.scope.SpaceScope? || r.scope.QueryScope? || r.space.Some? ==> r.space == Some(record.space))
    && (r.scope.UserScope? ==> r.actor.Some? && record.user == r.actor)
    && (r.scope.QueryScope? ==> r.query.Some? && like(r.query.value, record.text))
  }

  /** The ids a request has before it: of a sweep, records it asked for; of the memory scope, ids it names. */
  ghost predicate Aimed(like: Like, w: World, r: Request, phase: Phase)
    requires phase.Working?
  {
    if r.scope.MemoryScope? then
      && (forall id | id in phase.todo :: r.memoryIds.Some? && id in r.memoryIds.value)
      && (phase.found.Some? ==> r.memoryIds.Some? && phase.found.value in r.memoryIds.value)
    else
      forall id | id in phase.todo :: id in w.used && (id in w.records ==> AskedFor(like, r, w.records[id]))
  }

  ghost predicate AllAimed(like: Like, w: World) {
    forall job | job in w.phases && job in w.accepted && w.phases[job].Working? :: Aimed(like, w, w.accepted[job], w.phases[job])
  }

  lemma PageIsAimed(like: Like, w: World, job: JobId, page: seq<RecordId>)
    requires StoreHolds(w) && IsWorking(w, job) && Aimed(like, w, w.accepted[job], w.phases[job])
    ensures
      var now := PageStep(like, w, job, page);
      now.phases[job].Working? ==> Aimed(like, now, w.accepted[job], now.phases[job])
  {
  }

  lemma LookUpIsAimed(like: Like, w: World, job: JobId)
    requires IsWorking(w, job) && Aimed(like, w, w.accepted[job], w.phases[job])
    ensures
      var now := LookUpStep(w, job);
      now.phases[job].Working? && Aimed(like, now, w.accepted[job], now.phases[job])
  {
    var todo := w.phases[job].todo;
    assert forall id | todo != [] && id in todo[1..] :: id in todo;
    assert todo != [] ==> todo[0] in todo;
  }

  lemma DeleteIsAimed(like: Like, w: World, job: JobId)
    requires IsWorking(w, job) && Aimed(like, w, w.accepted[job], w.phases[job])
    ensures
      var now := DeleteStep(w, job);
      now.phases[job].Working? && Aimed(like, now, w.accepted[job], now.phases[job])
  {
  }

  lemma AuthorizedIsAimed(like: Like, w: World, job: JobId, allowed: bool)
    requires job in w.accepted
    ensures
      var now := AuthorizeStep(w, job, allowed);
      job in now.phases && now.phases[job].Working? && (job in w.phases ==> !w.phases[job].Working?) ==>
        Aimed(like, now, w.accepted[job], now.phases[job])
  {
  }

  lemma RequestIsAimed(like: Like, w: World, step: Step)
    requires StoreHolds(w) && AllAimed(like, w) && OfRequest(w, step)
    ensures
      var now, job := Apply(like, w, step), step.job;
      job in now.phases && now.phases[job].Working? ==> Aimed(like, now, w.accepted[job], now.phases[job])
  {
    match step
    case ReadPage(job, page) =>
      if w.phases[job].Working? {
        PageIsAimed(like, w, job, page);
      }
    case LookUp(job) =>
      if w.phases[job].Working? {
        LookUpIsAimed(like, w, job);
      }
    case DeleteNext(job) =>
      if w.phases[job].Working? {
        DeleteIsAimed(like, w, job);
      }
    case Authorize(job, allowed) =>
      if w.phases[job].Started? {
        AuthorizedIsAimed(like, w, job, allowed);
      }
    case FinishMemories(job) =>
      if w.phases[job].Working? {
        FinishIsAimed(like, w, job);
      }
    case WriteStart(job, fault) => NotWorkingYet(like, w, step);
    case WriteTerminal(job, fault) => NotWorkingYet(like, w, step);
  }

  lemma FinishIsAimed(like: Like, w: World, job: JobId)
    requires IsWorking(w, job) && Aimed(like, w, w.accepted[job], w.phases[job])
    ensures
      var now := FinishStep(w, job);
      now.phases[job].Working? ==> Aimed(like, now, w.accepted[job], now.phases[job])
  {
  }

  lemma NotWorkingYet(like: Like, w: World, step: Step)
    requires OfRequest(w, step) && (step.WriteStart? || step.WriteTerminal?)
    ensures
      var now, job := RequestStep(like, w, step), step.job;
      now == w || (job in now.phases ==> !now.phases[job].Working?)
  {
  }

  lemma OtherStaysAimed(like: Like, now: World, w: World, actor: JobId, job: JobId)
    requires Frame(now, w, actor) && job in w.phases && job in w.accepted && w.phases[job].Working?
    requires Aimed(like, w, w.accepted[job], w.phases[job])
    ensures Aimed(like, now, w.accepted[job], w.phases[job])
  {
  }

  lemma StepKeepsAim(like: Like, w: World, step: Step)
    requires Inv(like, w) && AllAimed(like, w)
    ensures AllAimed(like, Apply(like, w, step))
  {
    var now := Apply(like, w, step);
    StepFrames(like, w, step);
    forall job | job in now.phases && job in now.accepted && now.phases[job].Working?
      ensures Aimed(like, now, now.accepted[job], now.phases[job])
    {
      if OfRequest(w, step) && step.job == job {
        RequestIsAimed(like, w, step);
      } else {
        OthersKeepTheirPhase(like, now, w, step, job);
        OtherStaysAimed(like, now, w, Actor(w, step), job);
      }
    }
  }

  lemma OthersKeepTheirPhase(like: Like, now: World, w: World, step: Step, job: JobId)
    requires JobsHold(w) && PhasesHold(like, w) && !(OfRequest(w, step) && step.job == job)
    requires now == Apply(like, w, step) && job in now.phases && now.phases[job].Working?
    ensures job in w.phases && job in w.accepted && now.phases[job] == w.phases[job]
    ensures job in now.accepted && now.accepted[job] == w.accepted[job]
  {
    StepFrames(like, w, step);
    if job == Actor(w, step) {
      StepsOutsideLeaveNoWork(like, w, step);
    }
  }

  /** A step that is not one of a running request leaves its actor without work in progress. */
  lemma StepsOutsideLeaveNoWork(like: Like, w: World, step: Step)
    requires JobsHold(w) && !OfRequest(w, step)
    ensures
      var now, actor := Apply(like, w, step), Actor(w, step);
      actor in now.phases && now.phases[actor].Working? ==> false
  {
    assert w.nextJob !in w.accepted && w.nextJob !in w.phases;
  }

  lemma {:induction false} EveryRunIsAimed(like: Like, steps: seq<Step>)
    ensures AllAimed(like, Run(like, EMPTY, steps))
    decreases |steps|
  {
    if steps != [] {
      var init := steps[..|steps| - 1];
      EveryRunIsAimed(like, init);
      EveryRunKeeps(like, init);
      StepKeepsAim(like, Run(like, EMPTY, init), steps[|steps| - 1]);
    }
  }

  // ----- The look-ups of the memory scope -----

  /** At the `n`-th step the job looked the record up, and it was then a live one of the request's space. */
  ghost predicate SeenLive(like: Like, steps: seq<Step>, n: nat, job: JobId, id: RecordId)
    requires n < |steps|
  {
    && steps[n] == LookUp(job)
    && var w := Run(like, EMPTY, steps[..n]);
       && job in w.accepted && id in w.records
       && w.accepted[job].space == Some(w.records[id].space) && !w.records[id].softDeleted
  }

  lemma SeenLiveExtends(like: Like, init: seq<Step>, last: Step, n: nat, job: JobId, id: RecordId)
    requires n < |init| && SeenLive(like, init, n, job, id)
    ensures SeenLive(like, init + [last], n, job, id)
  {
    assert (init + [last])[..n] == init[..n];
  }

  ghost predicate HasFound(w: World, job: JobId, id: RecordId) {
    IsWorking(w, job) && w.phases[job].found == Some(id)
  }

  lemma FoundStep(like: Like, w: World, step: Step, job: JobId, id: RecordId)
    requires Inv(like, w) && HasFound(Apply(like, w, step), job, id) && !HasFound(w, job, id)
    ensures step == LookUp(job) && job in w.accepted && id in w.records
    ensures w.accepted[job].space == Some(w.records[id].space) && !w.records[id].softDeleted
  {
    if OfRequest(w, step) && step.job == job {
      OnlyLookUpFinds(like, w, step, id);
    } else {
      OthersKeepTheirPhase(like, Apply(like, w, step), w, step, job);
    }
  }

  lemma OnlyLookUpFinds(like: Like, w: World, step: Step, id: RecordId)
    requires OfRequest(w, step) && HasFound(RequestStep(like, w, step), step.job, id) && !HasFound(w, step.job, id)
    ensures step.LookUp? && id in w.records
    ensures w.accepted[step.job].space == Some(w.records[id].space) && !w.records[id].softDeleted
  {
  }

  lemma {:induction false} FoundWasLive(like: Like, steps: seq<Step>, job: JobId, id: RecordId) returns (n: nat)
    requires HasFound(Run(like, EMPTY, steps), job, id)
    ensures n < |steps| && SeenLive(like, steps, n, job, id)
    decreases |steps|
  {
    var init, last := steps[..|steps| - 1], steps[|steps| - 1];
    assert steps == init + [last];
    if HasFound(Run(like, EMPTY, init), job, id) {
      n := FoundWasLive(like, init, job, id);
      SeenLiveExtends(like, init, last, n, job, id);
    } else {
      n := |init|;
      EveryRunKeeps(like, init);
      FoundStep(like, Run(like, EMPTY, init), last, job, id);
    }
  }

  // ----- What a deletion may remove -----

  /** A record disappears only by a deletion of a job that has it next. */
  lemma RemovalIsADeletion(like: Like, w: World, step: Step, id: RecordId)
    requires id in w.records && id !in Apply(like, w, step).records
    ensures step.DeleteNext? && IsWorking(w, step.job)
    ensures
      var r, phase := w.accepted[step.job], w.phases[step.job];
      if r.scope.MemoryScope? then phase.found == Some(id) && r.space == Some(w.records[id].space)
      else phase.todo != [] && phase.todo[0] == id
    ensures Apply(like, w, step).records == w.records - {id}
  {
  }

  /** Whatever interleaves: a step that removes a record is a deletion of an accepted request, removes
      that record only, and the record is what the request asked for. Of the space scope, a record of the
      space; of the user scope, a record of the actor, and of the space if one is given; of the query
      scope, a record of the space whose text is like the query; of the memory scope, a named record of
      the space, which was live when the job looked it up. */
  lemma OnlyAskedForIsDeleted(like: Like, steps: seq<Step>, step: Step, id: RecordId)
    requires id in Run(like, EMPTY, steps).records && id !in Apply(like, Run(like, EMPTY, steps), step).records
    ensures
      var w := Run(like, EMPTY, steps);
      && step.DeleteNext? && step.job in w.accepted && Apply(like, w, step).records == w.records - {id}
      && var r, record := w.accepted[step.job], w.records[id];
      match r.scope
      case SpaceScope => r.space == Some(record.space)
      case UserScope => r.actor.Some? && record.user == Some(r.actor.value) && (r.space.Some? ==> record.space == r.space.value)
      case QueryScope => r.space == Some(record.space) && r.query.Some? && like(r.query.value, record.text)
      case MemoryScope =>
        && r.space == Some(record.space) && r.memoryIds.Some? && id in r.memoryIds.value
        && exists n | 0 <= n < |steps| :: SeenLive(like, steps, n, step.job, id)
      case UnknownScope => false
  {
    var w := Run(like, EMPTY, steps);
    EveryRunIsAimed(like, steps);
    RemovalIsADeletion(like, w, step, id);
    var phase := w.phases[step.job];
    assert Aimed(like, w, w.accepted[step.job], phase);
    if w.accepted[step.job].scope.MemoryScope? {
      var n := FoundWasLive(like, steps, step.job, id);
    } else {
      assert id in phase.todo;
    }
  }

  // ----- Who may delete -----

  /** At the `n`-th step the request was let through: a user request needs no decision. */
  ghost predicate LetThrough(steps: seq<Step>, n: nat, job: JobId, r: Request)
    requires n < |steps|
  {
    steps[n].Authorize? && steps[n].job == job && (steps[n].allowed || r.scope.UserScope?)
  }

  ghost predicate MayStore(r: Request) {
    r.actor.Some? && (r.space.Some? ==> r.space.value < 0x8000_0000_0000_0000)
  }

  lemma BegunStep(like: Like, w: World, step: Step, job: JobId)
    requires Inv(like, w) && job in Apply(like, w, step).begun && job !in w.begun
    ensures step.Authorize? && step.job == job && job in w.accepted
    ensures MayStore(w.accepted[job]) && (step.allowed || w.accepted[job].scope.UserScope?)
  {
    if OfRequest(w, step) {
      RequestBegins(like, w, step, job);
    } else {
      OthersBeginNothing(like, w, step);
    }
  }

  lemma RequestBegins(like: Like, w: World, step: Step, job: JobId)
    requires OfRequest(w, step) && job in RequestStep(like, w, step).begun && job !in w.begun
    ensures step.Authorize? && step.job == job && MayStore(w.accepted[job])
    ensures step.allowed || w.accepted[job].scope.UserScope?
  {
  }

  lemma OthersBeginNothing(like: Like, w: World, step: Step)
    requires !OfRequest(w, step)
    ensures Apply(like, w, step).begun == w.begun
  {
  }

  lemma {:induction false} BegunWasLetThrough(like: Like, steps: seq<Step>, job: JobId) returns (n: nat)
    requires job in Run(like, EMPTY, steps).begun
    ensures job in Run(like, EMPTY, steps).accepted
    ensures MayStore(Run(like, EMPTY, steps).accepted[job])
    ensures n < |steps| && LetThrough(steps, n, job, Run(like, EMPTY, steps).accepted[job])
    decreases |steps|
  {
    var init, last := steps[..|steps| - 1], steps[|steps| - 1];
    var before := Run(like, EMPTY, init);
    EveryRunKeeps(like, init);
    AcceptedStays(like, before, last, job);
    if job in before.begun {
      n := BegunWasLetThrough(like, init, job);
    } else {
      n := |init|;
      BegunStep(like, before, last, job);
    }
  }

  lemma AcceptedStays(like: Like, w: World, step: Step, job: JobId)
    requires Inv(like, w)
    ensures job in w.accepted ==> job in Apply(like, w, step).accepted && Apply(like, w, step).accepted[job] == w.accepted[job]
  {
    StepFrames(like, w, step);
  }

  /** In every run each deletion is of a request that has an actor and a space id the store can hold, and
      that was let through before: by its access decision, or as a user request. */
  lemma DeletionsAreLetThrough(like: Like, steps: seq<Step>, i: nat) returns (n: nat)
    requires i < |Run(like, EMPTY, steps).deletions|
    ensures
      var w := Run(like, EMPTY, steps);
      var job := w.deletions[i].job;
      && job in w.accepted && MayStore(w.accepted[job])
      && n < |steps| && LetThrough(steps, n, job, w.accepted[job])
  {
    var w := Run(like, EMPTY, steps);
    EveryRunKeeps(like, steps);
    assert DeletionHolds(w, w.deletions[i]);
    n := BegunWasLetThrough(like, steps, w.deletions[i].job);
  }

  /** A refused request is over: it keeps its start row and deletes nothing. */
  lemma RefusalEnds(like: Like, w: World, job: JobId)
    requires job in w.phases && job in w.accepted && w.phases[job].Started? && !w.accepted[job].scope.UserScope?
    ensures Apply(like, w, Authorize(job, false)) == w.(phases := w.phases - {job})
  {
  }

  // ----- Shapes and pages -----

  /** The requests the shape check lets through. */
  lemma WellShapedExactly(r: Request)
    ensures WellShaped(r) <==>
      match r.scope
      case MemoryScope => r.memoryIds.Some? && 1 <= |r.memoryIds.value| <= 200 && r.space.Some?
      case SpaceScope => r.space.Some?
      case UserScope => true
      case QueryScope => r.space.Some? && r.query.Some? && Text.Trim(r.query.value) != []
      case UnknownScope => false
    ensures !WellShaped(r) ==> ShapeErrorOf(r) == Some(
      match r.scope
      case MemoryScope =>
        if r.memoryIds.None? then MemoryIdsRequired
        else if r.memoryIds.value == [] then MemoryIdsEmpty
        else if |r.memoryIds.value| > 200 then TooManyMemoryIds
        else SpaceRequired
      case SpaceScope => SpaceRequired
      case UserScope => BadScope
      case QueryScope => if r.space.None? then SpaceRequired else if r.query.None? then QueryRequired else QueryBlank
      case UnknownScope => BadScope)
  {
  }

  /** A page that gives work gives its first 200 ids, ascending, all of them above the old cursor, which
      moves to the last of them; so no sweep comes to an id twice. The space sweep knows its last page by
      the row past the 200 that it lacks. */
  lemma PagesGoUp(like: Like, w: World, job: JobId, page: seq<RecordId>)
    requires IsWorking(w, job) && w.phases[job].todo == [] && PageStep(like, w, job, page).phases[job].Working?
    ensures
      var before, after := w.phases[job], PageStep(like, w, job, page).phases[job];
      || after == before
      || (&& 1 <= |after.todo| && after.todo == (if |page| <= 200 then page else page[..200])
          && (after.lastPage <==> w.accepted[job].scope.SpaceScope? && |page| <= 200) && after.cursor == after.todo[|after.todo| - 1] && after.count == before.count
          && (forall i, j | 0 <= i < j < |after.todo| :: after.todo[i] < after.todo[j])
          && forall i | 0 <= i < |after.todo| :: before.cursor < after.todo[i])
  {
    var after := PageStep(like, w, job, page).phases[job];
    if after != w.phases[job] {
      assert forall i | 0 <= i < |page| :: page[i] in page;
      assert after.todo <= page;
    }
  }
}
