/**
 Get-or-create of the one mem0 space of a principal. A caller looks its space up, creates it when
 there is none, and looks again when the creation failed. Callers interleave at every store call,
 other spaces are created and spaces are deleted in between, and a creation can fail before or after
 its commit.
 */
module Mem0Space {

  import opened Wrappers

  type Owner = nat
  type CallerId = nat

  datatype Kind = Mem0 | OtherKind(name: string)

  /** A row of the space table. The unique index on owner and kind covers deleted rows as well. */
  datatype Space = Space(id: nat, owner: Owner, kind: Kind, deleted: bool)

  datatype Error = QuotaExceeded | UniqueConflict | StorageFailure

  /** A caller that found no space, or one whose creation failed. */
  datatype Phase = Looked(owner: Owner) | Failed(owner: Owner, error: Error)

  datatype Answer = Answer(owner: Owner, result: Result<nat, Error>)

  datatype World = World(rows: seq<Space>, nextId: nat, callers: map<CallerId, Phase>, answers: seq<Answer>)

  /** `ok` says whether a lookup is answered. Between the lookup and the creation a caller draws an id
      and resolves its quota, and gives up when either fails. */
  datatype Step =
    | Begin(caller: CallerId, owner: Owner, ok: bool)
    | GiveUp(caller: CallerId)
    | Create(caller: CallerId, maxSpaces: nat, fault: Fault)
    | LookAgain(caller: CallerId, ok: bool)
    | CreateOther(owner: Owner, name: string)
    | Delete(id: nat)

  // ----- The table -----

  predicate Holds(rows: seq<Space>, owner: Owner, kind: Kind) {
    exists i | 0 <= i < |rows| :: rows[i].owner == owner && rows[i].kind == kind
  }

  /** The lookup: the first row of the owner and kind that is not deleted. */
  function Find(rows: seq<Space>, owner: Owner, kind: Kind): Option<nat> {
    if rows == [] then None
    else if rows[0].owner == owner && rows[0].kind == kind && !rows[0].deleted then Some(rows[0].id)
    else Find(rows[1..], owner, kind)
  }

  function ActiveSpaces(rows: seq<Space>, owner: Owner): nat {
    if rows == [] then 0
    else
      var last := rows[|rows| - 1];
      ActiveSpaces(rows[..|rows| - 1], owner) + (if last.owner == owner && !last.deleted then 1 else 0)
  }

  /** The rows a quota counts: the owner's, of any kind, that are not deleted. */
  ghost function CountedRows(rows: seq<Space>, owner: Owner): set<nat> {
    set i | 0 <= i < |rows| && rows[i].owner == owner && !rows[i].deleted
  }

  lemma {:induction false} ActiveSpacesCount(rows: seq<Space>, owner: Owner)
    ensures ActiveSpaces(rows, owner) == |CountedRows(rows, owner)|
  {
    if rows == [] {
      assert CountedRows(rows, owner) == {};
    } else {
      var init, last := rows[..|rows| - 1], rows[|rows| - 1];
      ActiveSpacesCount(init, owner);
      if last.owner == owner && !last.deleted {
        assert CountedRows(rows, owner) == CountedRows(init, owner) + {|init|};
      } else {
        assert CountedRows(rows, owner) == CountedRows(init, owner);
      }
    }
  }

  function WithDeleted(rows: seq<Space>, id: nat): (r: seq<Space>)
    ensures |r| == |rows|
    ensures forall i | 0 <= i < |rows| :: r[i] == if rows[i].id == id then rows[i].(deleted := true) else rows[i]
  {
    seq(|rows|, i requires 0 <= i < |rows| => if rows[i].id == id then rows[i].(deleted := true) else rows[i])
  }

  /** The atomic creation: quota first, then the insert under the unique index. */
  function CreateSpace(rows: seq<Space>, id: nat, owner: Owner, kind: Kind, maxSpaces: nat): (Result<nat, Error>, seq<Space>) {
    if maxSpaces > 0 && ActiveSpaces(rows, owner) >= maxSpaces then (Err(QuotaExceeded), rows)
    else if Holds(rows, owner, kind) then (Err(UniqueConflict), rows)
    else (Ok(id), rows + [Space(id, owner, kind, false)])
  }

  // ----- Steps -----

  function Reply(w: World, caller: CallerId, owner: Owner, result: Result<nat, Error>): World {
    w.(callers := w.callers - {caller}, answers := w.answers + [Answer(owner, result)])
  }

  function CreateStep(w: World, c: CallerId, owner: Owner, maxSpaces: nat, fault: Fault): World {
    var (outcome, rows) := CreateSpace(w.rows, w.nextId, owner, Mem0, maxSpaces);
    var started := w.(nextId := w.nextId + 1);
    match fault
    case FailsBeforeCommit => started.(callers := w.callers[c := Failed(owner, StorageFailure)])
    case FailsAfterCommit => started.(rows := rows, callers := w.callers[c := Failed(owner, StorageFailure)])
    case NoFault =>
      match outcome
      case Ok(id) => Reply(started.(rows := rows), c, owner, Ok(id))
      case Err(QuotaExceeded) => Reply(started, c, owner, Err(QuotaExceeded))
      case Err(error) => started.(callers := w.callers[c := Failed(owner, error)])
  }

  function Apply(w: World, step: Step): World {
    match step
    case Begin(c, owner, ok) =>
      if c in w.callers then w
      else if !ok then Reply(w, c, owner, Err(StorageFailure))
      else
        (match Find(w.rows, owner, Mem0)
         case Some(id) => Reply(w, c, owner, Ok(id))
         case None => w.(callers := w.callers[c := Looked(owner)]))
    case Create(c, maxSpaces, fault) =>
      if c in w.callers && w.callers[c].Looked? then CreateStep(w, c, w.callers[c].owner, maxSpaces, fault) else w
    case GiveUp(c) =>
      if c in w.callers && w.callers[c].Looked? then Reply(w, c, w.callers[c].owner, Err(StorageFailure)) else w
    case LookAgain(c, ok) =>
      if c in w.callers && w.callers[c].Failed? then
        var owner := w.callers[c].owner;
        if !ok then Reply(w, c, owner, Err(StorageFailure))
        else (match Find(w.rows, owner, Mem0)
         case Some(id) => Reply(w, c, owner, Ok(id))
         case None => Reply(w, c, owner, Err(w.callers[c].error)))
      else w
    case CreateOther(owner, name) =>
      w.(rows := CreateSpace(w.rows, w.nextId, owner, OtherKind(name), 0).1, nextId := w.nextId + 1)
    case Delete(id) => w.(rows := WithDeleted(w.rows, id))
  }

  function Run(w: World, steps: seq<Step>): World {
    if steps == [] then w else Apply(Run(w, steps[..|steps| - 1]), steps[|steps| - 1])
  }

  const EMPTY: World := World([], 0, map[], [])

  // ----- What every run keeps -----

  ghost predicate UniqueIndex(rows: seq<Space>) {
    forall i, j | 0 <= i < j < |rows| :: rows[i].owner != rows[j].owner || rows[i].kind != rows[j].kind
  }

  ghost predicate FreshIds(rows: seq<Space>, nextId: nat) {
    && (forall i | 0 <= i < |rows| :: rows[i].id < nextId)
    && (forall i, j | 0 <= i < j < |rows| :: rows[i].id != rows[j].id)
  }

  ghost predicate IsMem0Space(rows: seq<Space>, owner: Owner, id: nat) {
    exists i | 0 <= i < |rows| :: rows[i].owner == owner && rows[i].kind == Mem0 && rows[i].id == id
  }

  ghost predicate Inv(w: World) {
    && UniqueIndex(w.rows) && FreshIds(w.rows, w.nextId)
    && (forall i | 0 <= i < |w.answers| && w.answers[i].result.Ok? ::
          IsMem0Space(w.rows, w.answers[i].owner, w.answers[i].result.value))
    && (forall c | c in w.callers && w.callers[c].Failed? && w.callers[c].error == UniqueConflict ::
          Holds(w.rows, w.callers[c].owner, Mem0))
  }

  /** Rows are only added and marked deleted. */
  ghost predicate Extends(after: seq<Space>, rows: seq<Space>) {
    && |rows| <= |after|
    && forall i | 0 <= i < |rows| :: after[i].(deleted := rows[i].deleted) == rows[i] && (rows[i].deleted ==> after[i].deleted)
  }

  lemma ExtendsKeeps(after: seq<Space>, rows: seq<Space>, owner: Owner, id: nat)
    requires Extends(after, rows)
    ensures IsMem0Space(rows, owner, id) ==> IsMem0Space(after, owner, id)
    ensures Holds(rows, owner, Mem0) ==> Holds(after, owner, Mem0)
  {
    if IsMem0Space(rows, owner, id) {
      var i :| 0 <= i < |rows| && rows[i].owner == owner && rows[i].kind == Mem0 && rows[i].id == id;
      assert after[i].owner == owner && after[i].kind == Mem0 && after[i].id == id;
    }
    if Holds(rows, owner, Mem0) {
      var i :| 0 <= i < |rows| && rows[i].owner == owner && rows[i].kind == Mem0;
      assert after[i].owner == owner && after[i].kind == Mem0;
    }
  }

  lemma {:induction false} FoundIsMem0(rows: seq<Space>, owner: Owner)
    ensures
      match Find(rows, owner, Mem0)
      case Some(id) => IsMem0Space(rows, owner, id)
      case None => forall i | 0 <= i < |rows| && rows[i].owner == owner && rows[i].kind == Mem0 :: rows[i].deleted
  {
    if rows != [] && !(rows[0].owner == owner && rows[0].kind == Mem0 && !rows[0].deleted) {
      FoundIsMem0(rows[1..], owner);
      if Find(rows, owner, Mem0).Some? {
        var id := Find(rows, owner, Mem0).value;
        var i :| 0 <= i < |rows| - 1 && rows[1..][i].owner == owner && rows[1..][i].kind == Mem0 && rows[1..][i].id == id;
        assert rows[i + 1].id == id;
      } else {
        assert forall i | 1 <= i < |rows| :: rows[i] == rows[1..][i - 1];
      }
    }
  }

  lemma CreateKeeps(rows: seq<Space>, id: nat, owner: Owner, kind: Kind, maxSpaces: nat)
    requires UniqueIndex(rows) && FreshIds(rows, id)
    ensures
      var (outcome, after) := CreateSpace(rows, id, owner, kind, maxSpaces);
      && UniqueIndex(after) && FreshIds(after, id + 1) && Extends(after, rows)
      && (outcome.Ok? && kind == Mem0 ==> IsMem0Space(after, owner, outcome.value))
      && (outcome == Err(UniqueConflict) ==> Holds(after, owner, kind))
  {
    var (outcome, after) := CreateSpace(rows, id, owner, kind, maxSpaces);
    if outcome.Ok? {
      assert after[|rows|] == Space(id, owner, kind, false);
      assert forall i | 0 <= i < |rows| :: after[i] == rows[i];
    }
  }

  lemma DeleteKeeps(rows: seq<Space>, id: nat, nextId: nat)
    requires UniqueIndex(rows) && FreshIds(rows, nextId)
    ensures UniqueIndex(WithDeleted(rows, id)) && FreshIds(WithDeleted(rows, id), nextId) && Extends(WithDeleted(rows, id), rows)
  {
  }

  lemma StepExtends(w: World, step: Step)
    requires Inv(w)
    ensures Extends(Apply(w, step).rows, w.rows)
    ensures UniqueIndex(Apply(w, step).rows) && FreshIds(Apply(w, step).rows, Apply(w, step).nextId)
  {
    match step
    case Create(c, maxSpaces, fault) =>
      if c in w.callers && w.callers[c].Looked? {
        var owner := w.callers[c].owner;
        CreateKeeps(w.rows, w.nextId, owner, Mem0, maxSpaces);
        RowsAfterCreate(w, c, owner, maxSpaces, fault);
      }
    case CreateOther(owner, name) => CreateKeeps(w.rows, w.nextId, owner, OtherKind(name), 0);
    case Delete(id) => DeleteKeeps(w.rows, id, w.nextId);
    case _ => assert Apply(w, step).rows == w.rows;
  }

  lemma RowsAfterCreate(w: World, c: CallerId, owner: Owner, maxSpaces: nat, fault: Fault)
    ensures
      var next := CreateStep(w, c, owner, maxSpaces, fault);
      next.nextId == w.nextId + 1 && (next.rows == w.rows || next.rows == CreateSpace(w.rows, w.nextId, owner, Mem0, maxSpaces).1)
  {
  }

  lemma StepKeepsAnswers(w: World, step: Step, i: nat)
    requires Inv(w) && i < |Apply(w, step).answers| && Apply(w, step).answers[i].result.Ok?
    ensures var next := Apply(w, step); IsMem0Space(next.rows, next.answers[i].owner, next.answers[i].result.value)
  {
    var next := Apply(w, step);
    StepExtends(w, step);
    if i < |w.answers| {
      assert next.answers[i] == w.answers[i];
      ExtendsKeeps(next.rows, w.rows, w.answers[i].owner, w.answers[i].result.value);
    } else if step.Create? {
      CreateKeeps(w.rows, w.nextId, w.callers[step.caller].owner, Mem0, step.maxSpaces);
    } else {
      FoundIsMem0(w.rows, if step.Begin? then step.owner else w.callers[step.caller].owner);
    }
  }

  lemma StepKeepsCallers(w: World, step: Step, c: CallerId)
    requires Inv(w) && c in Apply(w, step).callers
    requires Apply(w, step).callers[c].Failed? && Apply(w, step).callers[c].error == UniqueConflict
    ensures Holds(Apply(w, step).rows, Apply(w, step).callers[c].owner, Mem0)
  {
    var next := Apply(w, step);
    StepExtends(w, step);
    if c in w.callers && next.callers[c] == w.callers[c] {
      ExtendsKeeps(next.rows, w.rows, w.callers[c].owner, 0);
    }
  }

  lemma StepKeeps(w: World, step: Step)
    requires Inv(w)
    ensures Inv(Apply(w, step))
  {
    var next := Apply(w, step);
    StepExtends(w, step);
    forall i | 0 <= i < |next.answers| && next.answers[i].result.Ok?
      ensures IsMem0Space(next.rows, next.answers[i].owner, next.answers[i].result.value)
    {
      StepKeepsAnswers(w, step, i);
    }
    forall c | c in next.callers && next.callers[c].Failed? && next.callers[c].error == UniqueConflict
      ensures Holds(next.rows, next.callers[c].owner, Mem0)
    {
      StepKeepsCallers(w, step, c);
    }
  }

  lemma {:induction false} EveryRunKeeps(steps: seq<Step>)
    ensures Inv(Run(EMPTY, steps))
  {
    if steps != [] {
      EveryRunKeeps(steps[..|steps| - 1]);
      StepKeeps(Run(EMPTY, steps[..|steps| - 1]), steps[|steps| - 1]);
    }
  }

  /** However the callers interleave, one owner has at most one mem0 row, deleted rows counted, and
      all the owner's successful callers were given that row's id. */
  lemma OneSpaceOneId(steps: seq<Step>, owner: Owner)
    ensures
      var w := Run(EMPTY, steps);
      && (forall i, j | 0 <= i < |w.rows| && 0 <= j < |w.rows|
            && w.rows[i].owner == w.rows[j].owner == owner && w.rows[i].kind == w.rows[j].kind == Mem0 :: i == j)
      && (forall a, b | 0 <= a < |w.answers| && 0 <= b < |w.answers|
            && w.answers[a].owner == w.answers[b].owner == owner
            && w.answers[a].result.Ok? && w.answers[b].result.Ok? :: w.answers[a].result == w.answers[b].result)
  {
    EveryRunKeeps(steps);
    var w := Run(EMPTY, steps);
    forall a, b | 0 <= a < |w.answers| && 0 <= b < |w.answers|
      && w.answers[a].owner == w.answers[b].owner == owner
      && w.answers[a].result.Ok? && w.answers[b].result.Ok?
      ensures w.answers[a].result == w.answers[b].result
    {
      var i :| 0 <= i < |w.rows| && w.rows[i].owner == owner && w.rows[i].kind == Mem0 && w.rows[i].id == w.answers[a].result.value;
      var j :| 0 <= j < |w.rows| && w.rows[j].owner == owner && w.rows[j].kind == Mem0 && w.rows[j].id == w.answers[b].result.value;
      assert i == j;
    }
  }

  ghost predicate DeletedSpace(rows: seq<Space>, owner: Owner) {
    exists i | 0 <= i < |rows| :: rows[i].owner == owner && rows[i].kind == Mem0 && rows[i].deleted
  }

  /** A caller that lost the race on the unique index answers with the winner's id; the conflict
      itself reaches it exactly when the winner's row has been deleted. */
  lemma ConflictSurfacesIffDeleted(steps: seq<Step>, c: CallerId)
    requires
      var w := Run(EMPTY, steps);
      c in w.callers && w.callers[c].Failed? && w.callers[c].error == UniqueConflict
    ensures
      var w := Run(EMPTY, steps);
      var owner, next := w.callers[c].owner, Apply(w, LookAgain(c, true));
      var answer := next.answers[|w.answers|];
      && |next.answers| == |w.answers| + 1 && answer.owner == owner
      && (answer.result == Err(UniqueConflict) <==> DeletedSpace(w.rows, owner))
      && (answer.result.Ok? <==> !DeletedSpace(w.rows, owner))
      && (answer.result.Ok? ==> IsMem0Space(w.rows, owner, answer.result.value))
  {
    EveryRunKeeps(steps);
    var w := Run(EMPTY, steps);
    FoundExactly(w.rows, w.callers[c].owner);
  }

  lemma FoundExactly(rows: seq<Space>, owner: Owner)
    requires UniqueIndex(rows) && Holds(rows, owner, Mem0)
    ensures Find(rows, owner, Mem0).None? <==> DeletedSpace(rows, owner)
    ensures Find(rows, owner, Mem0).Some? ==> IsMem0Space(rows, owner, Find(rows, owner, Mem0).value)
  {
    FoundIsMem0(rows, owner);
    FoundIsLive(rows, owner);
    var i :| 0 <= i < |rows| && rows[i].owner == owner && rows[i].kind == Mem0;
    assert rows[i].deleted <==> DeletedSpace(rows, owner);
  }

  lemma {:induction false} FoundIsLive(rows: seq<Space>, owner: Owner)
    ensures Find(rows, owner, Mem0).Some? ==> exists i | 0 <= i < |rows| :: rows[i].owner == owner && rows[i].kind == Mem0 && !rows[i].deleted
  {
    if Find(rows, owner, Mem0).Some? {
      if rows[0].owner == owner && rows[0].kind == Mem0 && !rows[0].deleted {
        assert rows[0].owner == owner;
      } else {
        FoundIsLive(rows[1..], owner);
        var i :| 0 <= i < |rows| - 1 && rows[1..][i].owner == owner && rows[1..][i].kind == Mem0 && !rows[1..][i].deleted;
        assert rows[i + 1] == rows[1..][i];
      }
    }
  }

  /** What a caller's own creation does, without a fault: it is refused exactly when the owner's
      active spaces have reached a positive limit, loses exactly when the owner has a mem0 row under
      the limit, and is otherwise admitted. */
  lemma CreationOutcomes(steps: seq<Step>, c: CallerId, maxSpaces: nat)
    requires c in Run(EMPTY, steps).callers && Run(EMPTY, steps).callers[c].Looked?
    ensures
      var w := Run(EMPTY, steps);
      var owner, next := w.callers[c].owner, Apply(w, Create(c, maxSpaces, NoFault));
      var full := maxSpaces > 0 && |CountedRows(w.rows, owner)| >= maxSpaces;
      && (next.answers == w.answers + [Answer(owner, Err(QuotaExceeded))] <==> full)
      && ((next.callers == w.callers[c := Failed(owner, UniqueConflict)] && next.answers == w.answers) <==>
            !full && Holds(w.rows, owner, Mem0))
      && (IsMem0Space(next.rows, owner, w.nextId) <==> !full && !Holds(w.rows, owner, Mem0))
  {
    EveryRunKeeps(steps);
    var w := Run(EMPTY, steps);
    var owner := w.callers[c].owner;
    ActiveSpacesCount(w.rows, owner);
    CreateKeeps(w.rows, w.nextId, owner, Mem0, maxSpaces);
    assert !IsMem0Space(w.rows, owner, w.nextId);
    assert (w.answers + [Answer(owner, Ok(w.nextId))])[|w.answers|] != (w.answers + [Answer(owner, Err(QuotaExceeded))])[|w.answers|];
    assert |w.answers + [Answer(owner, Ok(w.nextId))]| != |w.answers|;
  }

  lemma RunByOne(steps: seq<Step>)
    requires steps != []
    ensures Run(EMPTY, steps) == Apply(Run(EMPTY, steps[..|steps| - 1]), steps[|steps| - 1])
  {
  }

  /** The quota is checked before the index, so the loser of a race at the limit is told that the
      quota is exceeded although the space it asked for exists. */
  lemma LoserMaySeeQuota()
    ensures
      var w := Run(EMPTY, [Begin(0, 5, true), Begin(1, 5, true), Create(0, 1, NoFault), Create(1, 1, NoFault)]);
      && w.answers == [Answer(5, Ok(0)), Answer(5, Err(QuotaExceeded))]
      && Find(w.rows, 5, Mem0) == Some(0)
  {
    var steps := [Begin(0, 5, true), Begin(1, 5, true), Create(0, 1, NoFault), Create(1, 1, NoFault)];
    RunByOne(steps[..1]);
    RunByOne(steps[..2]);
    RunByOne(steps[..3]);
    assert steps[..1][..0] == [] && steps[..2][..1] == steps[..1] && steps[..3][..2] == steps[..2] && steps[..4] == steps;
    var one, two, three := Run(EMPTY, steps[..1]), Run(EMPTY, steps[..2]), Run(EMPTY, steps[..3]);
    assert one == Apply(EMPTY, Begin(0, 5, true)) && one.callers == map[0 := Looked(5)];
    assert two == Apply(one, Begin(1, 5, true)) && two.callers == map[0 := Looked(5), 1 := Looked(5)];
    assert three == Apply(two, Create(0, 1, NoFault));
    assert three.rows == [Space(0, 5, Mem0, false)] && three.answers == [Answer(5, Ok(0))];
    assert three.rows[..0] == [] && ActiveSpaces(three.rows, 5) == 1;
  }

  // ----- Without deletions, limits and failures before a commit nobody fails -----

  predicate Benign(step: Step) {
    match step
    case Begin(_, _, ok) => ok
    case Create(_, maxSpaces, fault) => fault != FailsBeforeCommit && maxSpaces == 0
    case LookAgain(_, ok) => ok
    case CreateOther(_, _) => true
    case _ => false
  }

  ghost predicate NobodyFailed(w: World) {
    && (forall i | 0 <= i < |w.rows| :: !w.rows[i].deleted)
    && (forall i | 0 <= i < |w.answers| :: w.answers[i].result.Ok?)
    && (forall c | c in w.callers && w.callers[c].Failed? :: Holds(w.rows, w.callers[c].owner, Mem0))
  }

  lemma BenignStep(w: World, step: Step)
    requires Inv(w) && NobodyFailed(w) && Benign(step)
    ensures NobodyFailed(Apply(w, step))
  {
    match step
    case LookAgain(c, _) =>
      if c in w.callers && w.callers[c].Failed? {
        FoundExactly(w.rows, w.callers[c].owner);
      }
    case Create(c, _, fault) =>
      if c in w.callers && w.callers[c].Looked? {
        BenignCreation(w, c, fault);
      }
    case CreateOther(owner, name) => HolderStays(w.rows, w.nextId, owner, OtherKind(name));
    case _ =>
  }

  lemma HolderStays(rows: seq<Space>, id: nat, owner: Owner, kind: Kind)
    requires UniqueIndex(rows) && FreshIds(rows, id)
    ensures
      var after := CreateSpace(rows, id, owner, kind, 0).1;
      && (forall o | Holds(rows, o, Mem0) :: Holds(after, o, Mem0))
      && (kind == Mem0 ==> Holds(after, owner, Mem0))
  {
    CreateKeeps(rows, id, owner, kind, 0);
    var after := CreateSpace(rows, id, owner, kind, 0).1;
    forall o | Holds(rows, o, Mem0)
      ensures Holds(after, o, Mem0)
    {
      ExtendsKeeps(after, rows, o, 0);
    }
    if !Holds(rows, owner, kind) {
      assert after[|rows|] == Space(id, owner, kind, false);
    }
  }

  lemma BenignCreation(w: World, c: CallerId, fault: Fault)
    requires Inv(w) && NobodyFailed(w) && c in w.callers && w.callers[c].Looked? && fault != FailsBeforeCommit
    ensures NobodyFailed(CreateStep(w, c, w.callers[c].owner, 0, fault))
  {
    HolderStays(w.rows, w.nextId, w.callers[c].owner, Mem0);
  }

  /** However the callers interleave and whichever answers of a creation are lost after its commit,
      every caller that has answered has answered with its owner's one space. */
  lemma {:induction false} RacingCallersAllSucceed(steps: seq<Step>)
    requires forall i | 0 <= i < |steps| :: Benign(steps[i])
    ensures NobodyFailed(Run(EMPTY, steps))
  {
    if steps != [] {
      var init := steps[..|steps| - 1];
      RacingCallersAllSucceed(init);
      EveryRunKeeps(init);
      BenignStep(Run(EMPTY, init), steps[|steps| - 1]);
    }
  }

  // ----- The call itself -----

  /** What other requests do to the table. */
  datatype Change = Insert(owner: Owner, kind: Kind, maxSpaces: nat) | Remove(id: nat)

  class SpaceStore {
    var rows: seq<Space>
    var nextId: nat

    ghost predicate Valid()
      reads this
    {
      UniqueIndex(rows) && FreshIds(rows, nextId)
    }

    constructor ()
      ensures Valid() && rows == []
    {
      rows, nextId := [], 0;
    }

    method CreateAtomicWithQuota(owner: Owner, kind: Kind, maxSpaces: nat) returns (r: Result<nat, Error>)
      requires Valid()
      modifies this
      ensures Valid() && Extends(rows, old(rows))
      ensures (r, rows) == CreateSpace(old(rows), old(nextId), owner, kind, maxSpaces)
    {
      CreateKeeps(rows, nextId, owner, kind, maxSpaces);
      var id := nextId;
      nextId := nextId + 1;
      if maxSpaces > 0 && ActiveSpaces(rows, owner) >= maxSpaces {
        return Err(QuotaExceeded);
      }
      if Holds(rows, owner, kind) {
        return Err(UniqueConflict);
      }
      rows := rows + [Space(id, owner, kind, false)];
      return Ok(id);
    }

    method Interfere(changes: seq<Change>)
      requires Valid()
      modifies this
      ensures Valid() && Extends(rows, old(rows))
    {
      for i := 0 to |changes|
        invariant Valid() && Extends(rows, old(rows))
      {
        ghost var before := rows;
        match changes[i] {
          case Insert(owner, kind, maxSpaces) => var _ := CreateAtomicWithQuota(owner, kind, maxSpaces);
          case Remove(id) =>
            DeleteKeeps(rows, id, nextId);
            rows := WithDeleted(rows, id);
        }
        ExtendsIsTransitive(rows, before, old(rows));
      }
    }

    /** Look up, create, look again: with anything happening in between, the id returned is that of
        the owner's one mem0 row, the index conflict is reported only over a deleted row, and with
        every store call answered and without a limit the call fails in no other way. */
    method Mem0SpaceId(owner: Owner, maxSpaces: nat, lookupOk: bool, prepared: bool, fault: Fault, lookAgainOk: bool,
      afterLookup: seq<Change>, afterCreate: seq<Change>)
      returns (r: Result<nat, Error>)
      requires Valid()
      modifies this
      ensures Valid() && Extends(rows, old(rows))
      ensures r.Ok? ==> IsMem0Space(rows, owner, r.value)
      ensures r == Err(UniqueConflict) ==> DeletedSpace(rows, owner)
      ensures r == Err(QuotaExceeded) ==> maxSpaces > 0
      ensures r == Err(StorageFailure) ==> !lookupOk || !prepared || fault != NoFault || !lookAgainOk
    {
      if !lookupOk {
        return Err(StorageFailure);
      }
      FoundIsMem0(rows, owner);
      var existing := Find(rows, owner, Mem0);
      if existing.Some? {
        return Ok(existing.value);
      }
      if !prepared {
        return Err(StorageFailure);
      }
      Interfere(afterLookup);
      ghost var between := rows;
      if fault != FailsBeforeCommit {
        CreateKeeps(rows, nextId, owner, Mem0, maxSpaces);
        r := CreateAtomicWithQuota(owner, Mem0, maxSpaces);
        ExtendsIsTransitive(rows, between, old(rows));
      }
      if fault != NoFault {
        r := Err(StorageFailure);
      }
      if r.Ok? || r.error == QuotaExceeded {
        return r;
      }
      ghost var created := rows;
      Interfere(afterCreate);
      ExtendsIsTransitive(rows, created, old(rows));
      ExtendsKeeps(rows, created, owner, 0);
      if !lookAgainOk {
        return Err(StorageFailure);
      }
      FoundIsMem0(rows, owner);
      existing := Find(rows, owner, Mem0);
      if existing.Some? {
        return Ok(existing.value);
      }
      if r == Err(UniqueConflict) {
        FoundExactly(rows, owner);
      }
    }
  }

  lemma ExtendsIsTransitive(after: seq<Space>, between: seq<Space>, before: seq<Space>)
    requires Extends(after, between) && Extends(between, before)
    ensures Extends(after, before)
  {
    forall i | 0 <= i < |before|
      ensures after[i].(deleted := before[i].deleted) == before[i] && (before[i].deleted ==> after[i].deleted)
    {
      assert after[i].(deleted := between[i].deleted) == between[i];
      assert between[i].(deleted := before[i].deleted) == before[i];
    }
  }

  // ----- Every call is answered once -----

  predicate BeginsCall(w: World, step: Step) {
    step.Begin? && step.caller !in w.callers
  }

  /** The calls begun so far: a caller that has not been answered yet cannot begin another. */
  function CallsBegun(steps: seq<Step>): nat {
    if steps == [] then 0
    else
      var init := steps[..|steps| - 1];
      CallsBegun(init) + (if BeginsCall(Run(EMPTY, init), steps[|steps| - 1]) then 1 else 0)
  }

  lemma CallersAfterReply(callers: map<CallerId, Phase>, c: CallerId)
    ensures |callers - {c}| == |callers| - (if c in callers then 1 else 0)
  {
    var fewer := callers - {c};
    assert fewer.Keys == callers.Keys - {c};
    assert |fewer.Keys| == |fewer| && |callers.Keys| == |callers|;
  }

  lemma CallersAfterUpdate(callers: map<CallerId, Phase>, c: CallerId, phase: Phase)
    ensures |callers[c := phase]| == |callers| + (if c in callers then 0 else 1)
  {
    var more := callers[c := phase];
    assert more.Keys == callers.Keys + {c};
    assert |more.Keys| == |more| && |callers.Keys| == |callers|;
  }

  /** Nothing happened to the caller, or it was answered and is gone, or it is at work. */
  ghost predicate CallerMoved(next: World, w: World, c: CallerId, begins: bool) {
    || (!begins && next.callers == w.callers && |next.answers| == |w.answers|)
    || ((begins <==> c !in w.callers) && next.callers == w.callers - {c} && |next.answers| == |w.answers| + 1)
    || ((begins <==> c !in w.callers) && c in next.callers && next.callers == w.callers[c := next.callers[c]] && |next.answers| == |w.answers|)
  }

  lemma CallStep(w: World, step: Step)
    requires step.Begin? || step.GiveUp? || step.Create? || step.LookAgain?
    ensures CallerMoved(Apply(w, step), w, step.caller, BeginsCall(w, step))
  {
  }

  lemma OtherStep(w: World, step: Step)
    requires !(step.Begin? || step.GiveUp? || step.Create? || step.LookAgain?)
    ensures Apply(w, step).callers == w.callers && Apply(w, step).answers == w.answers
  {
  }

  lemma AnswerStep(w: World, step: Step)
    ensures
      var next := Apply(w, step);
      |next.answers| + |next.callers| == |w.answers| + |w.callers| + (if BeginsCall(w, step) then 1 else 0)
  {
    if step.Begin? || step.GiveUp? || step.Create? || step.LookAgain? {
      CallStep(w, step);
      var next, c := Apply(w, step), step.caller;
      CallersAfterReply(w.callers, c);
      if c in next.callers {
        CallersAfterUpdate(w.callers, c, next.callers[c]);
      }
    } else {
      OtherStep(w, step);
    }
  }

  /** In every run each call begun has been answered once or is still at work. */
  lemma {:induction false} EachCallIsAnsweredOnce(steps: seq<Step>)
    ensures |Run(EMPTY, steps).answers| + |Run(EMPTY, steps).callers| == CallsBegun(steps)
  {
    if steps != [] {
      var init := steps[..|steps| - 1];
      EachCallIsAnsweredOnce(init);
      AnswerStep(Run(EMPTY, init), steps[|steps| - 1]);
    }
  }

  /** A caller whose creation failed is answered by its second lookup only. */
  lemma FailedCallerLooksAgain(w: World, step: Step, c: CallerId)
    requires c in w.callers && w.callers[c].Failed? && !(step.LookAgain? && step.caller == c)
    ensures c in Apply(w, step).callers && Apply(w, step).callers[c] == w.callers[c]
  {
  }
}
