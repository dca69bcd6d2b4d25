/**
 Registration of mem0 entity scopes. The entity's uuid is a hash of a text built from the space, the
 kind and the reference, so a repeated registration finds the row of the first one; callers
 interleave at every store call. The hash is a parameter.
 */
module Mem0Entity {

  import opened Wrappers
  import SerdeInt64
  import Text

  type CallerId = nat
  type Hash = string -> string

  datatype Key = Key(space: nat, kind: string, name: string)

  // ----- The text that is hashed -----

  function PreImage(key: Key): string {
    "mem0/" + SerdeInt64.Printed(key.space) + ['/'] + key.kind + ['/'] + key.name
  }

  function Uuid(hash: Hash, key: Key): string {
    hash(PreImage(key))
  }

  predicate SlashFree(s: string) {
    forall i | 0 <= i < |s| :: s[i] != '/'
  }

  /** Equal texts with separator-free heads have equal heads and equal tails. */
  lemma HeadsAgree(a: string, b: string, s: string, t: string)
    requires SlashFree(a) && SlashFree(b) && a + ['/'] + s == b + ['/'] + t
    ensures a == b && s == t
  {
    Text.SplitHead(a, '/', s);
    Text.SplitHead(b, '/', t);
    assert ([a] + Text.Split(s, '/'))[0] == ([b] + Text.Split(t, '/'))[0];
    assert s == (a + ['/'] + s)[|a| + 1..] && t == (b + ['/'] + t)[|b| + 1..];
  }

  lemma PrintedIsSlashFree(n: nat)
    ensures SlashFree(SerdeInt64.Printed(n))
  {
    SerdeInt64.PrintedDenotesItself(n);
    var s := SerdeInt64.Printed(n);
    forall i | 0 <= i < |s|
      ensures s[i] != '/'
    {
      assert SerdeInt64.IsDigit(s[i]);
    }
  }

  lemma SamePrefix(p: string, a: string, b: string)
    requires p + a == p + b
    ensures a == b
  {
    assert a == (p + a)[|p|..] && b == (p + b)[|p|..];
  }

  /** For kinds without a slash, different scopes have different texts; references may hold slashes. */
  lemma PreImageIsInjective(x: Key, y: Key)
    requires SlashFree(x.kind) && SlashFree(y.kind) && PreImage(x) == PreImage(y)
    ensures x == y
  {
    var m, n := SerdeInt64.Printed(x.space), SerdeInt64.Printed(y.space);
    var s, t := x.kind + ['/'] + x.name, y.kind + ['/'] + y.name;
    var p := "mem0/";
    assert PreImage(x) == p + (m + ['/'] + s);
    assert PreImage(y) == p + (n + ['/'] + t);
    SamePrefix(p, m + ['/'] + s, n + ['/'] + t);
    PrintedIsSlashFree(x.space);
    PrintedIsSlashFree(y.space);
    HeadsAgree(m, n, s, t);
    HeadsAgree(x.kind, y.kind, x.name, y.name);
    SerdeInt64.PrintedDenotesItself(x.space);
    SerdeInt64.PrintedDenotesItself(y.space);
  }

  /** A slash in the kind lets two scopes share their text. */
  lemma SlashInKindCollides(space: nat, a: string, b: string, c: string)
    ensures
      var x, y := Key(space, a + ['/'] + b, c), Key(space, a, b + ['/'] + c);
      x != y && PreImage(x) == PreImage(y)
  {
    var x, y := Key(space, a + ['/'] + b, c), Key(space, a, b + ['/'] + c);
    assert x.kind + ['/'] + x.name == y.kind + ['/'] + y.name;
    var p := "mem0/" + SerdeInt64.Printed(space) + ['/'];
    assert PreImage(x) == p + (x.kind + ['/'] + x.name);
    assert PreImage(y) == p + (y.kind + ['/'] + y.name);
    assert |x.kind| != |y.kind|;
  }

  // ----- The entity table -----

  /** Two unique indexes cover every row, deleted or not: the uuid, and the key. */
  datatype Entity = Entity(uuid: string, key: Key, deleted: bool)

  datatype Error = UniqueConflict | StorageFailure

  /** The index that refused an insert: the uuid's, or else the key's, then held under another uuid. */
  datatype Refusal = ByUuid | ByName(holder: string)

  /** `renamesBefore` is the number of renames that had happened when the insert was refused. */
  datatype Phase =
    | Missing(key: Key)
    | Refused(key: Key, reason: Refusal, renamesBefore: nat)
    | Faulted(key: Key)

  /** `key` is absent for a blank reference. */
  datatype Answer = Answer(key: Option<Key>, result: Result<(), Error>)

  /** `renames` is the history of renames: the uuid of each renamed row and the key it gave up. */
  datatype World = World(rows: seq<Entity>, renames: seq<(string, Key)>, callers: map<CallerId, Phase>, answers: seq<Answer>)

  /** `ok` says whether the read is answered; other writers insert, rename and delete entities. */
  datatype Step =
    | Begin(caller: CallerId, space: nat, kind: string, reference: string, ok: bool)
    | Insert(caller: CallerId, fault: Fault)
    | LookAgain(caller: CallerId, ok: bool)
    | InsertOther(uuid: string, key: Key)
    | Rename(uuid: string, name: string)
    | Delete(uuid: string)

  predicate Present(rows: seq<Entity>, uuid: string) {
    exists i | 0 <= i < |rows| :: rows[i].uuid == uuid && !rows[i].deleted
  }

  predicate DeletedRow(rows: seq<Entity>, uuid: string) {
    exists i | 0 <= i < |rows| :: rows[i].uuid == uuid && rows[i].deleted
  }

  predicate HasUuid(rows: seq<Entity>, uuid: string) {
    exists i | 0 <= i < |rows| :: rows[i].uuid == uuid
  }

  predicate HasKey(rows: seq<Entity>, key: Key) {
    exists i | 0 <= i < |rows| :: rows[i].key == key
  }

  predicate Holds(rows: seq<Entity>, uuid: string, key: Key) {
    exists i | 0 <= i < |rows| :: rows[i].uuid == uuid && rows[i].key == key
  }

  /** The uuid of the row with a key. */
  function HolderOf(rows: seq<Entity>, key: Key): (uuid: string)
    requires HasKey(rows, key)
    ensures Holds(rows, uuid, key)
  {
    if rows[0].key == key then rows[0].uuid
    else
      assert HasKey(rows[1..], key) by {
        var i :| 0 <= i < |rows| && rows[i].key == key;
        assert rows[1..][i - 1] == rows[i];
      }
      var uuid := HolderOf(rows[1..], key);
      assert Holds(rows, uuid, key) by {
        var i :| 0 <= i < |rows| - 1 && rows[1..][i].uuid == uuid && rows[1..][i].key == key;
        assert rows[i + 1] == rows[1..][i];
      }
      uuid
  }

  /** The key of the live row with a uuid. */
  function LiveKey(rows: seq<Entity>, uuid: string): Option<Key> {
    if rows == [] then None
    else if rows[0].uuid == uuid && !rows[0].deleted then Some(rows[0].key)
    else LiveKey(rows[1..], uuid)
  }

  function Inserted(rows: seq<Entity>, uuid: string, key: Key): seq<Entity> {
    if HasUuid(rows, uuid) || HasKey(rows, key) then rows else rows + [Entity(uuid, key, false)]
  }

  function WithDeleted(rows: seq<Entity>, uuid: string): (r: seq<Entity>)
    ensures |r| == |rows|
    ensures forall i | 0 <= i < |rows| :: r[i] == if rows[i].uuid == uuid then rows[i].(deleted := true) else rows[i]
  {
    seq(|rows|, i requires 0 <= i < |rows| => if rows[i].uuid == uuid then rows[i].(deleted := true) else rows[i])
  }

  function WithKey(rows: seq<Entity>, uuid: string, key: Key): (r: seq<Entity>)
    ensures |r| == |rows|
    ensures forall i | 0 <= i < |rows| :: r[i] == if rows[i].uuid == uuid then rows[i].(key := key) else rows[i]
  {
    seq(|rows|, i requires 0 <= i < |rows| => if rows[i].uuid == uuid then rows[i].(key := key) else rows[i])
  }

  function Reply(w: World, c: CallerId, key: Option<Key>, result: Result<(), Error>): World {
    w.(callers := w.callers - {c}, answers := w.answers + [Answer(key, result)])
  }

  function BeginStep(hash: Hash, w: World, c: CallerId, key: Key, ok: bool): World {
    if key.name == "" then Reply(w, c, None, Ok(()))
    else if !ok then Reply(w, c, Some(key), Err(StorageFailure))
    else if Present(w.rows, Uuid(hash, key)) then Reply(w, c, Some(key), Ok(()))
    else w.(callers := w.callers[c := Missing(key)])
  }

  function InsertStep(hash: Hash, w: World, c: CallerId, key: Key, fault: Fault): World {
    var uuid := Uuid(hash, key);
    match fault
    case FailsBeforeCommit => w.(callers := w.callers[c := Faulted(key)])
    case FailsAfterCommit => w.(rows := Inserted(w.rows, uuid, key), callers := w.callers[c := Faulted(key)])
    case NoFault =>
      if HasUuid(w.rows, uuid) then w.(callers := w.callers[c := Refused(key, ByUuid, |w.renames|)])
      else if HasKey(w.rows, key) then w.(callers := w.callers[c := Refused(key, ByName(HolderOf(w.rows, key)), |w.renames|)])
      else Reply(w.(rows := Inserted(w.rows, uuid, key)), c, Some(key), Ok(()))
  }

  function LookAgainStep(hash: Hash, w: World, c: CallerId, ok: bool): World
    requires c in w.callers
  {
    var phase := w.callers[c];
    Reply(w, c, Some(phase.key),
      if !ok then Err(StorageFailure)
      else if Present(w.rows, Uuid(hash, phase.key)) then Ok(())
      else if phase.Refused? then Err(UniqueConflict)
      else Err(StorageFailure))
  }

  /** Only a live row is renamed, within its space and kind, and not onto a key that is taken. */
  function RenameStep(w: World, uuid: string, name: string): World {
    match LiveKey(w.rows, uuid)
    case None => w
    case Some(key) =>
      if HasKey(w.rows, key.(name := name)) then w
      else w.(rows := WithKey(w.rows, uuid, key.(name := name)), renames := w.renames + [(uuid, key)])
  }

  function Apply(hash: Hash, w: World, step: Step): World {
    match step
    case Begin(c, space, kind, reference, ok) =>
      if c in w.callers then w else BeginStep(hash, w, c, Key(space, kind, Text.Trim(reference)), ok)
    case Insert(c, fault) =>
      if c in w.callers && w.callers[c].Missing? then InsertStep(hash, w, c, w.callers[c].key, fault) else w
    case LookAgain(c, ok) =>
      if c in w.callers && !w.callers[c].Missing? then LookAgainStep(hash, w, c, ok) else w
    case InsertOther(uuid, key) => w.(rows := Inserted(w.rows, uuid, key))
    case Rename(uuid, name) => RenameStep(w, uuid, name)
    case Delete(uuid) => w.(rows := WithDeleted(w.rows, uuid))
  }

  function Run(hash: Hash, w: World, steps: seq<Step>): World
    decreases |steps|
  {
    if steps == [] then w else Apply(hash, Run(hash, w, steps[..|steps| - 1]), steps[|steps| - 1])
  }

  const EMPTY: World := World([], [], map[], [])

  // ----- What every run keeps -----

  ghost predicate UniqueIndexes(rows: seq<Entity>) {
    forall i, j | 0 <= i < j < |rows| :: rows[i].uuid != rows[j].uuid && rows[i].key != rows[j].key
  }

  ghost predicate AnswerHolds(hash: Hash, rows: seq<Entity>, answer: Answer) {
    answer.result.Ok? && answer.key.Some? ==> HasUuid(rows, Uuid(hash, answer.key.value))
  }

  /** The row gave up the key after the first `before` renames. */
  ghost predicate RenamedSince(renames: seq<(string, Key)>, before: nat, uuid: string, key: Key) {
    exists i | before <= i < |renames| :: renames[i] == (uuid, key)
  }

  /** The row that refused the insert is still there; when it refused it by its key it holds the key
      or has been renamed since. */
  ghost predicate RefusalHolds(hash: Hash, w: World, phase: Phase)
    requires phase.Refused?
  {
    match phase.reason
    case ByUuid => HasUuid(w.rows, Uuid(hash, phase.key))
    case ByName(holder) =>
      && holder != Uuid(hash, phase.key) && HasUuid(w.rows, holder)
      && (Holds(w.rows, holder, phase.key) || RenamedSince(w.renames, phase.renamesBefore, holder, phase.key))
  }

  ghost predicate CallerHolds(hash: Hash, w: World, phase: Phase) {
    phase.Refused? ==> phase.renamesBefore <= |w.renames| && RefusalHolds(hash, w, phase)
  }

  ghost predicate Inv(hash: Hash, w: World) {
    && UniqueIndexes(w.rows)
    && (forall i | 0 <= i < |w.answers| :: AnswerHolds(hash, w.rows, w.answers[i]))
    && (forall c | c in w.callers :: CallerHolds(hash, w, w.callers[c]))
  }

  /** Rows are never removed and keep their uuid; a row changes its key only by a recorded rename. */
  ghost predicate Extends(next: World, w: World) {
    && |w.rows| <= |next.rows| && w.renames <= next.renames
    && forall i | 0 <= i < |w.rows| ::
         && next.rows[i].uuid == w.rows[i].uuid
         && (next.rows[i].key == w.rows[i].key
             || (|next.renames| > |w.renames| && next.renames[|w.renames|] == (w.rows[i].uuid, w.rows[i].key)))
  }

  lemma ExtendsKeepsUuid(next: World, w: World, uuid: string)
    requires Extends(next, w) && HasUuid(w.rows, uuid)
    ensures HasUuid(next.rows, uuid)
  {
    var i :| 0 <= i < |w.rows| && w.rows[i].uuid == uuid;
    assert next.rows[i].uuid == uuid;
  }

  lemma ExtendsKeepsCaller(hash: Hash, next: World, w: World, phase: Phase)
    requires Extends(next, w) && CallerHolds(hash, w, phase)
    ensures CallerHolds(hash, next, phase)
  {
    if phase.Refused? {
      ExtendsKeepsUuid(next, w, if phase.reason.ByUuid? then Uuid(hash, phase.key) else phase.reason.holder);
      if phase.reason.ByName? {
        HolderKeepsOrRenames(next, w, phase.reason.holder, phase.key, phase.renamesBefore);
      }
    }
  }

  lemma HolderKeepsOrRenames(next: World, w: World, holder: string, key: Key, before: nat)
    requires Extends(next, w) && before <= |w.renames|
    requires Holds(w.rows, holder, key) || RenamedSince(w.renames, before, holder, key)
    ensures Holds(next.rows, holder, key) || RenamedSince(next.renames, before, holder, key)
  {
    if Holds(w.rows, holder, key) {
      var i :| 0 <= i < |w.rows| && w.rows[i].uuid == holder && w.rows[i].key == key;
      assert next.rows[i].uuid == holder;
      if next.rows[i].key != key {
        assert next.renames[|w.renames|] == (holder, key);
      }
    } else {
      var i :| before <= i < |w.renames| && w.renames[i] == (holder, key);
      assert next.renames[i] == (holder, key);
    }
  }

  lemma InsertKeeps(rows: seq<Entity>, uuid: string, key: Key)
    requires UniqueIndexes(rows)
    ensures
      var after := Inserted(rows, uuid, key);
      && UniqueIndexes(after) && rows <= after
      && (HasUuid(after, uuid) || HasKey(after, key))
      && (!HasUuid(rows, uuid) && !HasKey(rows, key) ==> Present(after, uuid) && HasKey(after, key))
  {
    var after := Inserted(rows, uuid, key);
    if !HasUuid(rows, uuid) && !HasKey(rows, key) {
      assert after[|rows|] == Entity(uuid, key, false);
    }
  }

  lemma {:induction false} LiveKeyMeans(rows: seq<Entity>, uuid: string)
    ensures match LiveKey(rows, uuid)
      case Some(key) => exists i | 0 <= i < |rows| :: rows[i] == Entity(uuid, key, false)
      case None => !Present(rows, uuid)
  {
    if rows != [] && !(rows[0].uuid == uuid && !rows[0].deleted) {
      LiveKeyMeans(rows[1..], uuid);
      if LiveKey(rows, uuid).Some? {
        var i :| 0 <= i < |rows| - 1 && rows[1..][i] == Entity(uuid, LiveKey(rows, uuid).value, false);
        assert rows[i + 1] == rows[1..][i];
      } else {
        forall i | 0 <= i < |rows| && rows[i].uuid == uuid
          ensures rows[i].deleted
        {
          assert i > 0 ==> rows[1..][i - 1] == rows[i];
        }
      }
    } else if rows != [] {
      assert rows[0] == Entity(uuid, LiveKey(rows, uuid).value, false);
    }
  }

  lemma RenameKeeps(w: World, uuid: string, name: string)
    requires UniqueIndexes(w.rows)
    ensures UniqueIndexes(RenameStep(w, uuid, name).rows) && Extends(RenameStep(w, uuid, name), w)
  {
    var next := RenameStep(w, uuid, name);
    LiveKeyMeans(w.rows, uuid);
    if next != w {
      var before := LiveKey(w.rows, uuid).value;
      var k :| 0 <= k < |w.rows| && w.rows[k] == Entity(uuid, before, false);
      assert forall i | 0 <= i < |w.rows| && i != k :: w.rows[i].uuid != uuid && w.rows[i].key != before.(name := name);
      assert forall i | 0 <= i < |w.rows| && i != k :: next.rows[i] == w.rows[i];
      assert next.rows[k] == w.rows[k].(key := before.(name := name));
    }
  }

  lemma PresentHasUuid(rows: seq<Entity>, uuid: string)
    ensures Present(rows, uuid) ==> HasUuid(rows, uuid)
  {
  }

  lemma StepExtends(hash: Hash, w: World, step: Step)
    requires UniqueIndexes(w.rows)
    ensures UniqueIndexes(Apply(hash, w, step).rows) && Extends(Apply(hash, w, step), w)
  {
    match step
    case Insert(c, fault) =>
      if c in w.callers && w.callers[c].Missing? {
        InsertKeeps(w.rows, Uuid(hash, w.callers[c].key), w.callers[c].key);
      }
    case InsertOther(uuid, key) => InsertKeeps(w.rows, uuid, key);
    case Rename(uuid, name) => RenameKeeps(w, uuid, name);
    case _ =>
  }

  lemma NewAnswerHolds(hash: Hash, w: World, step: Step)
    requires Inv(hash, w)
    ensures
      var next := Apply(hash, w, step);
      next.answers == w.answers
      || (|next.answers| == |w.answers| + 1 && next.answers[..|w.answers|] == w.answers
          && AnswerHolds(hash, next.rows, next.answers[|w.answers|]))
  {
    match step
    case Begin(_, space, kind, reference, _) => PresentHasUuid(w.rows, Uuid(hash, Key(space, kind, Text.Trim(reference))));
    case Insert(c, fault) =>
      if c in w.callers && w.callers[c].Missing? {
        var key := w.callers[c].key;
        InsertKeeps(w.rows, Uuid(hash, key), key);
        PresentHasUuid(Inserted(w.rows, Uuid(hash, key), key), Uuid(hash, key));
      }
    case LookAgain(c, _) =>
      if c in w.callers {
        PresentHasUuid(w.rows, Uuid(hash, w.callers[c].key));
      }
    case _ =>
  }

  /** An insert is refused only over a row that refuses it. */
  lemma NewRefusalHolds(hash: Hash, w: World, c: CallerId, fault: Fault)
    requires c in w.callers && w.callers[c].Missing?
    ensures
      var next := InsertStep(hash, w, c, w.callers[c].key, fault);
      c in next.callers ==> CallerHolds(hash, next, next.callers[c])
  {
    var key := w.callers[c].key;
    if !HasUuid(w.rows, Uuid(hash, key)) && HasKey(w.rows, key) {
      var i :| 0 <= i < |w.rows| && w.rows[i].uuid == HolderOf(w.rows, key) && w.rows[i].key == key;
      assert HasUuid(w.rows, HolderOf(w.rows, key));
    }
  }

  lemma NewCallerHolds(hash: Hash, w: World, step: Step, c: CallerId)
    requires Inv(hash, w) && c in Apply(hash, w, step).callers
    ensures CallerHolds(hash, Apply(hash, w, step), Apply(hash, w, step).callers[c])
  {
    StepExtends(hash, w, step);
    if c in w.callers && Apply(hash, w, step).callers[c] == w.callers[c] {
      ExtendsKeepsCaller(hash, Apply(hash, w, step), w, w.callers[c]);
    } else if step.Insert? {
      NewRefusalHolds(hash, w, c, step.fault);
    }
  }

  lemma StepKeeps(hash: Hash, w: World, step: Step)
    requires Inv(hash, w)
    ensures Inv(hash, Apply(hash, w, step))
  {
    var next := Apply(hash, w, step);
    StepExtends(hash, w, step);
    NewAnswerHolds(hash, w, step);
    forall i | 0 <= i < |next.answers|
      ensures AnswerHolds(hash, next.rows, next.answers[i])
    {
      if i < |w.answers| {
        var answer := w.answers[i];
        assert next.answers[i] == answer && AnswerHolds(hash, w.rows, answer);
        if answer.result.Ok? && answer.key.Some? {
          ExtendsKeepsUuid(next, w, Uuid(hash, answer.key.value));
        }
      }
    }
    forall c | c in next.callers
      ensures CallerHolds(hash, next, next.callers[c])
    {
      NewCallerHolds(hash, w, step, c);
    }
  }

  lemma {:induction false} EveryRunKeeps(hash: Hash, steps: seq<Step>)
    ensures Inv(hash, Run(hash, EMPTY, steps))
    decreases |steps|
  {
    if steps != [] {
      EveryRunKeeps(hash, steps[..|steps| - 1]);
      StepKeeps(hash, Run(hash, EMPTY, steps[..|steps| - 1]), steps[|steps| - 1]);
    }
  }

  // ----- When a refused registration fails -----

  /** Why a refused caller finds nothing when it looks again: its own row was deleted; or it has no
      row, and the row that held its key still holds it or was renamed in between. */
  ghost predicate Cause(hash: Hash, w: World, phase: Phase)
    requires phase.Refused?
  {
    var uuid := Uuid(hash, phase.key);
    || DeletedRow(w.rows, uuid)
    || (&& phase.reason.ByName? && !HasUuid(w.rows, uuid)
        && (Holds(w.rows, phase.reason.holder, phase.key)
            || RenamedSince(w.renames, phase.renamesBefore, phase.reason.holder, phase.key)))
  }

  /** In every run, a caller whose insert was refused fails at the answered re-read exactly when no
      live row has its uuid, and exactly when one of the three causes is there. When the uuid index
      refused it, the only cause is that the row was deleted. */
  lemma ConflictSurfacesExactly(hash: Hash, steps: seq<Step>, c: CallerId)
    requires c in Run(hash, EMPTY, steps).callers && Run(hash, EMPTY, steps).callers[c].Refused?
    ensures
      var w := Run(hash, EMPTY, steps);
      var phase, next := w.callers[c], Apply(hash, w, LookAgain(c, true));
      var failed := next.answers == w.answers + [Answer(Some(phase.key), Err(UniqueConflict))];
      && (failed <==> !Present(w.rows, Uuid(hash, phase.key)))
      && (!failed <==> next.answers == w.answers + [Answer(Some(phase.key), Ok(()))])
      && (failed <==> Cause(hash, w, phase))
      && (phase.reason.ByUuid? ==> (failed <==> DeletedRow(w.rows, Uuid(hash, phase.key))))
  {
    EveryRunKeeps(hash, steps);
    var w := Run(hash, EMPTY, steps);
    var phase := w.callers[c];
    var uuid := Uuid(hash, phase.key);
    assert CallerHolds(hash, w, phase);
    LiveOrDeleted(w.rows, uuid);
    var failure, success := Answer(Some(phase.key), Err(UniqueConflict)), Answer(Some(phase.key), Ok(()));
    assert (w.answers + [failure])[|w.answers|] != (w.answers + [success])[|w.answers|];
  }

  lemma LiveOrDeleted(rows: seq<Entity>, uuid: string)
    requires UniqueIndexes(rows)
    ensures HasUuid(rows, uuid) <==> Present(rows, uuid) || DeletedRow(rows, uuid)
    ensures !(Present(rows, uuid) && DeletedRow(rows, uuid))
  {
    if HasUuid(rows, uuid) {
      var i :| 0 <= i < |rows| && rows[i].uuid == uuid;
      assert rows[i].deleted || !rows[i].deleted;
    }
    if DeletedRow(rows, uuid) {
      var j :| 0 <= j < |rows| && rows[j].uuid == uuid && rows[j].deleted;
      forall i | 0 <= i < |rows| && rows[i].uuid == uuid
        ensures rows[i].deleted
      {
        assert !(i < j) && !(j < i);
      }
    }
  }

  lemma RunByOne(hash: Hash, steps: seq<Step>)
    requires steps != []
    ensures Run(hash, EMPTY, steps) == Apply(hash, Run(hash, EMPTY, steps[..|steps| - 1]), steps[|steps| - 1])
  {
  }

  lemma OneRow(uuid: string, key: Key)
    ensures
      var rows := [Entity(uuid, key, false)];
      && (forall k :: HasKey(rows, k) <==> k == key) && (forall u :: HasUuid(rows, u) <==> u == uuid)
      && HolderOf(rows, key) == uuid && LiveKey(rows, uuid) == Some(key)
      && (forall k :: WithKey(rows, uuid, k) == [Entity(uuid, k, false)])
  {
    var rows := [Entity(uuid, key, false)];
    assert rows[0] == Entity(uuid, key, false);
  }

  function OneRowWorld(holder: string, key: Key, renames: seq<(string, Key)>, callers: map<CallerId, Phase>): World {
    World([Entity(holder, key, false)], renames, callers, [])
  }

  lemma RefusedByHolder(hash: Hash, holder: string, key: Key, c: CallerId)
    requires holder != Uuid(hash, key) && key.name != "" && Text.Trim(key.name) == key.name
    ensures
      var w := OneRowWorld(holder, key, [], map[]);
      var begun := Apply(hash, w, Begin(c, key.space, key.kind, key.name, true));
      && w == Apply(hash, EMPTY, InsertOther(holder, key))
      && Apply(hash, begun, Insert(c, NoFault)) == OneRowWorld(holder, key, [], map[c := Refused(key, ByName(holder), 0)])
  {
    OneRow(holder, key);
    PresentHasUuid([Entity(holder, key, false)], Uuid(hash, key));
    var begun := Apply(hash, OneRowWorld(holder, key, [], map[]), Begin(c, key.space, key.kind, key.name, true));
    assert begun == OneRowWorld(holder, key, [], map[c := Missing(key)]);
  }

  lemma RenamedAway(hash: Hash, holder: string, key: Key, name: string, callers: map<CallerId, Phase>)
    requires name != key.name
    ensures Apply(hash, OneRowWorld(holder, key, [], callers), Rename(holder, name))
         == OneRowWorld(holder, key.(name := name), [(holder, key)], callers)
  {
    OneRow(holder, key);
  }

  /** The third cause alone: the row that refused the name is renamed before the re-read, and the
      caller fails although its key and its uuid are both free. */
  lemma RenamedHolderStillConflicts(hash: Hash, holder: string, key: Key, name: string, c: CallerId)
    requires holder != Uuid(hash, key) && key.name != "" && Text.Trim(key.name) == key.name != name
    ensures
      var begun := Apply(hash, Apply(hash, EMPTY, InsertOther(holder, key)), Begin(c, key.space, key.kind, key.name, true));
      var renamed := Apply(hash, Apply(hash, begun, Insert(c, NoFault)), Rename(holder, name));
      var w := Apply(hash, renamed, LookAgain(c, true));
      && w.answers == [Answer(Some(key), Err(UniqueConflict))]
      && !HasUuid(w.rows, Uuid(hash, key)) && !HasKey(w.rows, key)
  {
    var callers := map[c := Refused(key, ByName(holder), 0)];
    RefusedByHolder(hash, holder, key, c);
    RenamedAway(hash, holder, key, name, callers);
    FailsUnderAnotherName(hash, holder, key, name, c);
  }

  lemma FailsUnderAnotherName(hash: Hash, holder: string, key: Key, name: string, c: CallerId)
    requires holder != Uuid(hash, key) && name != key.name
    ensures
      var renamed := OneRowWorld(holder, key.(name := name), [(holder, key)], map[c := Refused(key, ByName(holder), 0)]);
      var w := Apply(hash, renamed, LookAgain(c, true));
      && w.answers == [Answer(Some(key), Err(UniqueConflict))]
      && !HasUuid(w.rows, Uuid(hash, key)) && !HasKey(w.rows, key)
  {
    OneRow(holder, key.(name := name));
    PresentHasUuid([Entity(holder, key.(name := name), false)], Uuid(hash, key));
  }

  /** The lookup goes by uuid alone: a scope whose row was renamed is still answered as registered,
      although no row has its name any more. */
  lemma RenamedScopeIsNotMissed(hash: Hash, key: Key, name: string, c: CallerId)
    requires key.name != "" && Text.Trim(key.name) == key.name != name
    ensures
      var renamed := Apply(hash, OneRowWorld(Uuid(hash, key), key, [], map[]), Rename(Uuid(hash, key), name));
      var w := Apply(hash, renamed, Begin(c, key.space, key.kind, key.name, true));
      w.answers == [Answer(Some(key), Ok(()))] && !HasKey(w.rows, key)
  {
    RenamedAway(hash, Uuid(hash, key), key, name, map[]);
    OneRow(Uuid(hash, key), key.(name := name));
    var row := Entity(Uuid(hash, key), key.(name := name), false);
    assert [row][0] == row && Present([row], row.uuid);
  }

  // ----- Registrations alone -----

  predicate Registration(step: Step) {
    match step
    case Begin(_, _, kind, _, ok) => SlashFree(kind) && ok
    case Insert(_, fault) => fault != FailsBeforeCommit
    case LookAgain(_, ok) => ok
    case _ => false
  }

  ghost predicate Collisionless(hash: Hash) {
    forall a, b :: hash(a) == hash(b) ==> a == b
  }

  ghost predicate RowIsRegistered(hash: Hash, row: Entity) {
    !row.deleted && SlashFree(row.key.kind) && row.uuid == Uuid(hash, row.key)
  }

  ghost predicate Registered(hash: Hash, w: World) {
    && (forall i | 0 <= i < |w.rows| :: RowIsRegistered(hash, w.rows[i]))
    && (forall i | 0 <= i < |w.answers| :: w.answers[i].result.Ok? && (w.answers[i].key.Some? ==> HasKey(w.rows, w.answers[i].key.value)))
    && (forall c | c in w.callers :: SlashFree(w.callers[c].key.kind) && (!w.callers[c].Missing? ==> HasKey(w.rows, w.callers[c].key)))
  }

  /** Among registered rows a uuid belongs to one key, and a row is present exactly when its key is. */
  lemma UuidIsKey(hash: Hash, rows: seq<Entity>, key: Key)
    requires Collisionless(hash) && SlashFree(key.kind)
    requires forall i | 0 <= i < |rows| :: RowIsRegistered(hash, rows[i])
    ensures Present(rows, Uuid(hash, key)) <==> HasKey(rows, key)
    ensures HasUuid(rows, Uuid(hash, key)) <==> HasKey(rows, key)
  {
    if HasUuid(rows, Uuid(hash, key)) {
      var i :| 0 <= i < |rows| && rows[i].uuid == Uuid(hash, key);
      assert RowIsRegistered(hash, rows[i]);
      PreImageIsInjective(rows[i].key, key);
      assert rows[i].key == key;
    }
    if HasKey(rows, key) {
      var i :| 0 <= i < |rows| && rows[i].key == key;
      assert RowIsRegistered(hash, rows[i]);
      assert rows[i].uuid == Uuid(hash, key) && !rows[i].deleted;
    }
    PresentHasUuid(rows, Uuid(hash, key));
  }

  lemma HasKeyInMore(rows: seq<Entity>, row: Entity, key: Key)
    ensures HasKey(rows + [row], key) <==> HasKey(rows, key) || row.key == key
  {
    if HasKey(rows, key) {
      var i :| 0 <= i < |rows| && rows[i].key == key;
      assert (rows + [row])[i].key == key;
    }
    assert (rows + [row])[|rows|] == row;
  }

  lemma RegistrationStep(hash: Hash, w: World, step: Step)
    requires Collisionless(hash) && Registered(hash, w) && Registration(step)
    ensures Registered(hash, Apply(hash, w, step))
  {
    match step
    case Begin(c, space, kind, reference, _) => UuidIsKey(hash, w.rows, Key(space, kind, Text.Trim(reference)));
    case LookAgain(c, _) =>
      if c in w.callers {
        UuidIsKey(hash, w.rows, w.callers[c].key);
      }
    case Insert(c, fault) =>
      if c in w.callers && w.callers[c].Missing? {
        InsertRegisters(hash, w, c, fault);
      }
    case _ =>
  }

  lemma InsertRegisters(hash: Hash, w: World, c: CallerId, fault: Fault)
    requires Collisionless(hash) && Registered(hash, w) && c in w.callers && w.callers[c].Missing?
    requires fault != FailsBeforeCommit
    ensures Registered(hash, InsertStep(hash, w, c, w.callers[c].key, fault))
  {
    var key := w.callers[c].key;
    UuidIsKey(hash, w.rows, key);
    var row := Entity(Uuid(hash, key), key, false);
    forall other: Key
      ensures HasKey(w.rows + [row], other) <==> HasKey(w.rows, other) || other == key
    {
      HasKeyInMore(w.rows, row, other);
    }
  }

  /** When only registrations write the table, however they interleave and whichever answers are lost
      after their commit, none fails, every scope that was registered has a row of its own, and no
      scope has two. */
  lemma {:induction false} RegistrationIsIdempotent(hash: Hash, steps: seq<Step>)
    requires Collisionless(hash) && forall i | 0 <= i < |steps| :: Registration(steps[i])
    ensures Registered(hash, Run(hash, EMPTY, steps)) && UniqueIndexes(Run(hash, EMPTY, steps).rows)
    decreases |steps|
  {
    EveryRunKeeps(hash, steps);
    if steps != [] {
      var init := steps[..|steps| - 1];
      RegistrationIsIdempotent(hash, init);
      RegistrationStep(hash, Run(hash, EMPTY, init), steps[|steps| - 1]);
    }
  }

  // ----- Every call is answered once -----

  predicate BeginsCall(w: World, step: Step) {
    step.Begin? && step.caller !in w.callers
  }

  /** The calls begun so far: a caller that has not been answered yet cannot begin another. */
  function CallsBegun(hash: Hash, steps: seq<Step>): nat {
    if steps == [] then 0
    else
      var init := steps[..|steps| - 1];
      CallsBegun(hash, init) + (if BeginsCall(Run(hash, EMPTY, init), steps[|steps| - 1]) then 1 else 0)
  }

  lemma CallersAfterReply(callers: map<CallerId, Phase>, c: CallerId)
    ensures |callers - {c}| == |callers| - (if c in callers then 1 else 0)
  {
    var fewer := callers - {c};
    assert fewer.Keys == callers.Keys - {c};
    assert |fewer.Keys| == |fewer| && |callers.Keys| == |callers|;
  }

  lemma CallersAfterUpdate(callers: map<CallerId, Phase>, c: CallerId, phase: Phase)
    ensures |callers[c := phase]| == |callers| + (if c in callers then 0 else 1)
  {
    var more := callers[c := phase];
    assert more.Keys == callers.Keys + {c};
    assert |more.Keys| == |more| && |callers.Keys| == |callers|;
  }

  /** Nothing happened to the caller, or it was answered and is gone, or it is at work. */
  ghost predicate CallerMoved(next: World, w: World, c: CallerId, begins: bool) {
    || (!begins && next.callers == w.callers && |next.answers| == |w.answers|)
    || ((begins <==> c !in w.callers) && next.callers == w.callers - {c} && |next.answers| == |w.answers| + 1)
    || ((begins <==> c !in w.callers) && c in next.callers && next.callers == w.callers[c := next.callers[c]] && |next.answers| == |w.answers|)
  }

  lemma CallStep(hash: Hash, w: World, step: Step)
    requires step.Begin? || step.Insert? || step.LookAgain?
    ensures CallerMoved(Apply(hash, w, step), w, step.caller, BeginsCall(w, step))
  {
  }

  lemma OtherStep(hash: Hash, w: World, step: Step)
    requires !(step.Begin? || step.Insert? || step.LookAgain?)
    ensures Apply(hash, w, step).callers == w.callers && Apply(hash, w, step).answers == w.answers
  {
  }

  lemma AnswerStep(hash: Hash, w: World, step: Step)
    ensures
      var next := Apply(hash, w, step);
      |next.answers| + |next.callers| == |w.answers| + |w.callers| + (if BeginsCall(w, step) then 1 else 0)
  {
    if step.Begin? || step.Insert? || step.LookAgain? {
      CallStep(hash, w, step);
      var next, c := Apply(hash, w, step), step.caller;
      CallersAfterReply(w.callers, c);
      if c in next.callers {
        CallersAfterUpdate(w.callers, c, next.callers[c]);
      }
    } else {
      OtherStep(hash, w, step);
    }
  }

  /** In every run each call begun has been answered once or is still at work. */
  lemma {:induction false} EachCallIsAnsweredOnce(hash: Hash, steps: seq<Step>)
    ensures |Run(hash, EMPTY, steps).answers| + |Run(hash, EMPTY, steps).callers| == CallsBegun(hash, steps)
  {
    if steps != [] {
      var init := steps[..|steps| - 1];
      EachCallIsAnsweredOnce(hash, init);
      AnswerStep(hash, Run(hash, EMPTY, init), steps[|steps| - 1]);
    }
  }
}
