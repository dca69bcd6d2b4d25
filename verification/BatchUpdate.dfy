/**
 Updating memories one at a time and in one batched call. The batch reads every record first, plans
 each update from that copy, and then applies the plans chunk by chunk.
 */
module BatchUpdate {

  import opened Wrappers

  /** Row ids are signed in the store: a record with a larger id cannot be mapped to a response. */
  const ROW_ID_LIMIT: nat := 0x8000_0000_0000_0000

  datatype Json = Object(members: map<string, Json>) | Scalar(text: string)

  /** The metadata column: empty, text that is not JSON, or JSON. */
  datatype Metadata = NoMetadata | Unreadable(text: string) | Readable(json: Json)

  type Level = nat

  datatype Record = Record(text: string, subject: Option<string>, metadata: Metadata, sensitivity: Level, version: nat)

  datatype View = View(id: nat, text: string, subject: Option<string>, metadata: Option<Json>, sensitivity: Level, version: nat)

  datatype Patch = Patch(text: Option<string>, subject: Option<string>, metadata: Option<Json>)

  datatype Update = Update(id: nat, patch: Patch)

  datatype Error = NotFound | StorageFailure | UnsafeText | UnsafeSubject | MetadataNotObject

  /** What the caller may read and which texts are refused. */
  datatype Policy = Policy(visible: Level -> bool, safe: string -> bool)

  /** The records of one space that are not deleted, and the journal of mutations in order. */
  datatype Db = Db(records: map<nat, Record>, journal: seq<nat>)

  datatype Command = Command(id: nat, text: Option<string>, subject: Option<string>, metadata: Option<Json>)

  // ----- One record -----

  function JsonOf(metadata: Metadata): Option<Json> {
    if metadata.Readable? then Some(metadata.json) else None
  }

  function ViewOf(id: nat, r: Record): Result<View, Error> {
    if id < ROW_ID_LIMIT
    then Ok(View(id, r.text, r.subject, JsonOf(r.metadata), r.sensitivity, r.version))
    else Err(StorageFailure)
  }

  function UnsafePart(policy: Policy, patch: Patch): Option<Error> {
    if patch.text.Some? && !policy.safe(patch.text.value) then Some(UnsafeText)
    else if patch.subject.Some? && !policy.safe(patch.subject.value) then Some(UnsafeSubject)
    else None
  }

  /** Incoming keys win; a patch that is no object is refused; without a patch the stored metadata is
      written again. */
  function Merged(existing: Option<Json>, patch: Option<Json>): Result<Option<Json>, Error> {
    match patch
    case None => Ok(existing)
    case Some(Object(incoming)) =>
      if existing.Some? && existing.value.Object?
      then Ok(Some(Object(existing.value.members + incoming)))
      else Ok(Some(Object(incoming)))
    case Some(_) => Err(MetadataNotObject)
  }

  method MergedMetadata(existing: Option<Json>, patch: Option<Json>) returns (r: Result<Option<Json>, Error>)
    ensures r == Merged(existing, patch)
  {
    match patch {
      case None => return Ok(existing);
      case Some(Scalar(_)) => return Err(MetadataNotObject);
      case Some(Object(incoming)) =>
        if existing.None? || existing.value.Scalar? {
          return Ok(Some(Object(incoming)));
        }
        var current := existing.value.members;
        var left := incoming.Keys;
        while left != {}
          invariant left <= incoming.Keys
          invariant current == existing.value.members + map key | key in incoming && key !in left :: incoming[key]
          decreases |left|
        {
          var key :| key in left;
          current := current[key := incoming[key]];
          left := left - {key};
        }
        assert (map key | key in incoming && key !in left :: incoming[key]) == incoming;
        return Ok(Some(Object(current)));
    }
  }

  /** A written column replaces the stored one; an absent one keeps it. */
  function Written(r: Record, c: Command): Record {
    Record(
      if c.text.Some? then c.text.value else r.text,
      if c.subject.Some? then c.subject else r.subject,
      if c.metadata.Some? then Readable(c.metadata.value) else r.metadata,
      r.sensitivity,
      r.version + 1)
  }

  function Execute(db: Db, c: Command): (Result<View, Error>, Db) {
    if c.id in db.records then
      var r := Written(db.records[c.id], c);
      (ViewOf(c.id, r), Db(db.records[c.id := r], db.journal + [c.id]))
    else (Err(NotFound), db)
  }

  // ----- The single-record path -----

  /** Map, check visibility, check the texts, merge, write. */
  function Single(policy: Policy, db: Db, u: Update): (Result<View, Error>, Db) {
    if u.id !in db.records then (Err(NotFound), db)
    else
      var view := ViewOf(u.id, db.records[u.id]);
      if view.Err? then (Err(view.error), db)
      else if !policy.visible(view.value.sensitivity) then (Err(NotFound), db)
      else
        match UnsafePart(policy, u.patch)
        case Some(error) => (Err(error), db)
        case None =>
          match Merged(view.value.metadata, u.patch.metadata)
          case Err(error) => (Err(error), db)
          case Ok(metadata) => Execute(db, Command(u.id, u.patch.text, u.patch.subject, metadata))
  }

  // ----- What an update is to do -----

  /** Key by key: the incoming member where there is one, else the stored one. A patch without metadata
      leaves the column as it is, readable or not. */
  ghost predicate MergesInto(stored: Metadata, patch: Option<Json>, after: Metadata) {
    match patch
    case None => after == stored
    case Some(Scalar(_)) => false
    case Some(Object(incoming)) =>
      && after.Readable? && after.json.Object?
      && forall key ::
           if key in incoming then key in after.json.members && after.json.members[key] == incoming[key]
           else if stored.Readable? && stored.json.Object? && key in stored.json.members
           then key in after.json.members && after.json.members[key] == stored.json.members[key]
           else key !in after.json.members
  }

  ghost predicate Patched(before: Record, patch: Patch, after: Record) {
    && after.text == (if patch.text.Some? then patch.text.value else before.text)
    && after.subject == (if patch.subject.Some? then patch.subject else before.subject)
    && MergesInto(before.metadata, patch.metadata, after.metadata)
    && after.sensitivity == before.sensitivity && after.version == before.version + 1
  }

  ghost predicate Shows(view: View, id: nat, r: Record) {
    && view.id == id && view.text == r.text && view.subject == r.subject
    && view.metadata == (if r.metadata.Readable? then Some(r.metadata.json) else None)
    && view.sensitivity == r.sensitivity && view.version == r.version
  }

  /** One update by itself: refused without effect, for the first reason that applies, or the patch is
      written to its record and to no other, with one journal entry, and the answer shows it. */
  ghost predicate Updates(policy: Policy, before: Db, u: Update, answer: Result<View, Error>, after: Db) {
    if u.id !in before.records then answer == Err(NotFound) && after == before
    else if u.id >= 0x8000_0000_0000_0000 then answer == Err(StorageFailure) && after == before
    else if !policy.visible(before.records[u.id].sensitivity) then answer == Err(NotFound) && after == before
    else if u.patch.text.Some? && !policy.safe(u.patch.text.value) then answer == Err(UnsafeText) && after == before
    else if u.patch.subject.Some? && !policy.safe(u.patch.subject.value) then answer == Err(UnsafeSubject) && after == before
    else if u.patch.metadata.Some? && u.patch.metadata.value.Scalar? then answer == Err(MetadataNotObject) && after == before
    else
      && after.records.Keys == before.records.Keys
      && Patched(before.records[u.id], u.patch, after.records[u.id])
      && (forall id | id in before.records && id != u.id :: after.records[id] == before.records[id])
      && after.journal == before.journal + [u.id]
      && answer.Ok? && Shows(answer.value, u.id, after.records[u.id])
  }

  lemma SingleUpdates(policy: Policy, db: Db, u: Update)
    ensures Updates(policy, db, u, Single(policy, db, u).0, Single(policy, db, u).1)
  {
  }

  lemma SameMetadata(stored: Metadata, patch: Option<Json>, a: Metadata, b: Metadata)
    requires MergesInto(stored, patch, a) && MergesInto(stored, patch, b)
    ensures a == b
  {
    if patch.Some? {
      forall key
        ensures key in a.json.members <==> key in b.json.members
        ensures key in a.json.members ==> a.json.members[key] == b.json.members[key]
      {
      }
      assert a.json.members == b.json.members;
    }
  }

  /** What an update is to do is one thing only. */
  lemma UpdateIsDetermined(policy: Policy, db: Db, u: Update, answer: Result<View, Error>, after: Db)
    requires Updates(policy, db, u, answer, after)
    ensures (answer, after) == Single(policy, db, u)
  {
    var (single, db1) := Single(policy, db, u);
    SingleUpdates(policy, db, u);
    if answer.Ok? {
      SameMetadata(db.records[u.id].metadata, u.patch.metadata, after.records[u.id].metadata, db1.records[u.id].metadata);
      assert after.records[u.id] == db1.records[u.id];
      assert after.records == db1.records;
    }
  }

  // ----- The batched path -----

  /** The pre-read hands each loaded record out once: a later slot with the same id gets nothing. */
  function PreRead(db: Db, updates: seq<Update>, i: nat): Option<Record>
    requires i < |updates|
  {
    if updates[i].id in db.records && !Repeated(updates, i) then Some(db.records[updates[i].id]) else None
  }

  predicate Repeated(updates: seq<Update>, i: nat)
    requires i < |updates|
  {
    exists j | 0 <= j < i :: updates[j].id == updates[i].id
  }

  /** Check visibility, check the texts, map, merge. */
  function Prepared(policy: Policy, u: Update, r: Record): Result<Command, Error> {
    if !policy.visible(r.sensitivity) then Err(NotFound)
    else
      match UnsafePart(policy, u.patch)
      case Some(error) => Err(error)
      case None =>
        match ViewOf(u.id, r)
        case Err(error) => Err(error)
        case Ok(view) =>
          match Merged(view.metadata, u.patch.metadata)
          case Err(error) => Err(error)
          case Ok(metadata) => Ok(Command(u.id, u.patch.text, u.patch.subject, metadata))
  }

  function Planned(policy: Policy, db: Db, updates: seq<Update>, i: nat): Result<Command, Error>
    requires i < |updates|
  {
    match PreRead(db, updates, i)
    case None => Err(NotFound)
    case Some(r) => Prepared(policy, updates[i], r)
  }

  function ApplyPlan(db: Db, plan: Result<Command, Error>): (Result<View, Error>, Db) {
    match plan
    case Err(error) => (Err(error), db)
    case Ok(command) => Execute(db, command)
  }

  // ----- Whole calls, slot by slot -----

  datatype Outcome = Outcome(results: seq<Result<View, Error>>, db: Db)

  function Then(o: Outcome, step: (Result<View, Error>, Db)): Outcome {
    Outcome(o.results + [step.0], step.1)
  }

  /** Running the first `n` updates one after the other. */
  function Sequential(policy: Policy, db: Db, updates: seq<Update>, n: nat): (o: Outcome)
    requires n <= |updates|
    ensures |o.results| == n
  {
    if n == 0 then Outcome([], db)
    else
      var before := Sequential(policy, db, updates, n - 1);
      Then(before, Single(policy, before.db, updates[n - 1]))
  }

  /** Applying the first `n` plans, all made from the database before the call. */
  function Batched(policy: Policy, db: Db, updates: seq<Update>, n: nat): (o: Outcome)
    requires n <= |updates|
    ensures |o.results| == n
  {
    if n == 0 then Outcome([], db)
    else
      var before := Batched(policy, db, updates, n - 1);
      Then(before, ApplyPlan(before.db, Planned(policy, db, updates, n - 1)))
  }

  class MemoryStore {
    var records: map<nat, Record>
    var journal: seq<nat>

    function Contents(): Db
      reads this
    {
      Db(records, journal)
    }

    constructor (db: Db)
      ensures Contents() == db
    {
      records, journal := db.records, db.journal;
    }

    method UpdateAtomic(c: Command) returns (r: Result<View, Error>)
      modifies this
      ensures (r, Contents()) == Execute(old(Contents()), c)
      ensures c.id in old(records) ==>
        && c.id in records
        && records[c.id].text == (if c.text.Some? then c.text.value else old(records)[c.id].text)
        && records[c.id].subject == (if c.subject.Some? then c.subject else old(records)[c.id].subject)
        && records[c.id].metadata == (if c.metadata.Some? then Readable(c.metadata.value) else old(records)[c.id].metadata)
        && records[c.id].sensitivity == old(records)[c.id].sensitivity && records[c.id].version == old(records)[c.id].version + 1
    {
      if c.id !in records {
        return Err(NotFound);
      }
      var written := Written(records[c.id], c);
      records := records[c.id := written];
      journal := journal + [c.id];
      return ViewOf(c.id, written);
    }

    method UpdateMemory(policy: Policy, u: Update) returns (r: Result<View, Error>)
      modifies this
      ensures (r, Contents()) == Single(policy, old(Contents()), u)
      ensures Updates(policy, old(Contents()), u, r, Contents())
    {
      SingleUpdates(policy, Contents(), u);
      if u.id !in records {
        return Err(NotFound);
      }
      var existing := ViewOf(u.id, records[u.id]);
      if existing.Err? {
        return Err(existing.error);
      }
      if !policy.visible(existing.value.sensitivity) {
        return Err(NotFound);
      }
      if u.patch.text.Some? && !policy.safe(u.patch.text.value) {
        return Err(UnsafeText);
      }
      if u.patch.subject.Some? && !policy.safe(u.patch.subject.value) {
        return Err(UnsafeSubject);
      }
      var merged := MergedMetadata(existing.value.metadata, u.patch.metadata);
      if merged.Err? {
        return Err(merged.error);
      }
      r := UpdateAtomic(Command(u.id, u.patch.text, u.patch.subject, merged.value));
    }

    /** One record per slot, taken out of a map of the loaded ones. */
    method RetrieveBatch(updates: seq<Update>) returns (loaded: seq<Option<Record>>)
      ensures |loaded| == |updates|
      ensures forall i | 0 <= i < |updates| :: loaded[i] == PreRead(Contents(), updates, i)
    {
      var byId := map id | id in records && HasId(updates, id) :: records[id];
      loaded := [];
      for i := 0 to |updates|
        invariant |loaded| == i
        invariant forall k | 0 <= k < i :: loaded[k] == PreRead(Contents(), updates, k)
        invariant forall id :: id in byId <==> id in records && HasId(updates, id) && forall k | 0 <= k < i :: updates[k].id != id
        invariant forall id | id in byId :: byId[id] == records[id]
      {
        var id := updates[i].id;
        assert HasId(updates, id);
        if id in byId {
          loaded := loaded + [Some(byId[id])];
        } else {
          loaded := loaded + [None];
        }
        byId := byId - {id};
      }
    }

    method PreparePlans(policy: Policy, updates: seq<Update>) returns (plans: seq<Result<Command, Error>>)
      ensures |plans| == |updates|
      ensures forall i | 0 <= i < |updates| :: plans[i] == Planned(policy, Contents(), updates, i)
    {
      var loaded := RetrieveBatch(updates);
      plans := [];
      for i := 0 to |updates|
        invariant |plans| == i
        invariant forall k | 0 <= k < i :: plans[k] == Planned(policy, Contents(), updates, k)
      {
        match loaded[i] {
          case None => plans := plans + [Err(NotFound)];
          case Some(r) => plans := plans + [Prepared(policy, updates[i], r)];
        }
      }
    }

    method ApplyChunk(chunk: seq<Result<Command, Error>>, ghost policy: Policy, ghost db: Db, ghost updates: seq<Update>, ghost done: nat, before: seq<Result<View, Error>>)
      returns (results: seq<Result<View, Error>>)
      requires ArePlans(chunk, policy, db, updates, done)
      requires Outcome(before, Contents()) == Batched(policy, db, updates, done)
      modifies this
      ensures Outcome(results, Contents()) == Batched(policy, db, updates, done + |chunk|)
    {
      results := before;
      for i := 0 to |chunk|
        invariant Outcome(results, Contents()) == Batched(policy, db, updates, done + i)
      {
        ghost var previous := Outcome(results, Contents());
        match chunk[i] {
          case Err(error) => results := results + [Err(error)];
          case Ok(command) =>
            var r := UpdateAtomic(command);
            results := results + [r];
        }
        assert Outcome(results, Contents()) == Then(previous, ApplyPlan(previous.db, chunk[i]));
      }
    }

    /** The chunk size bounds the work of one pass and nothing else. */
    method UpdateMemoriesBatch(policy: Policy, updates: seq<Update>, chunk: nat) returns (results: seq<Result<View, Error>>)
      requires chunk > 0
      modifies this
      ensures Outcome(results, Contents()) == Batched(policy, old(Contents()), updates, |updates|)
    {
      var plans := PreparePlans(policy, updates);
      ghost var db := Contents();
      ghost var done := 0;
      results := [];
      while plans != []
        invariant done + |plans| == |updates| && ArePlans(plans, policy, db, updates, done)
        invariant Outcome(results, Contents()) == Batched(policy, db, updates, done)
        decreases |plans|
      {
        var chunkLen := if |plans| < chunk then |plans| else chunk;
        PlansSplit(plans, policy, db, updates, done, chunkLen);
        results := ApplyChunk(plans[..chunkLen], policy, db, updates, done, results);
        plans := plans[chunkLen..];
        done := done + chunkLen;
      }
    }
  }

  /** The plans of the slots from `done` on. */
  ghost predicate ArePlans(plans: seq<Result<Command, Error>>, policy: Policy, db: Db, updates: seq<Update>, done: nat) {
    && done + |plans| <= |updates|
    && forall k | 0 <= k < |plans| :: plans[k] == Planned(policy, db, updates, done + k)
  }

  lemma PlansSplit(plans: seq<Result<Command, Error>>, policy: Policy, db: Db, updates: seq<Update>, done: nat, n: nat)
    requires ArePlans(plans, policy, db, updates, done) && n <= |plans|
    ensures ArePlans(plans[..n], policy, db, updates, done) && ArePlans(plans[n..], policy, db, updates, done + n)
  {
    forall k | 0 <= k < |plans| - n
      ensures plans[n..][k] == Planned(policy, db, updates, done + n + k)
    {
      assert plans[n..][k] == plans[n + k];
      assert plans[n + k] == Planned(policy, db, updates, done + (n + k));
    }
  }

  predicate HasId(updates: seq<Update>, id: nat) {
    exists i | 0 <= i < |updates| :: updates[i].id == id
  }

  // ----- When the two agree -----

  /** The slots on which the two calls answer differently: the id is present and either an earlier
      slot has the same id and the single call does not hide the record, or the record cannot be
      mapped and the batch finds another error first. */
  predicate Differs(policy: Policy, db: Db, updates: seq<Update>, i: nat)
    requires i < |updates|
  {
    var u := updates[i];
    && u.id in db.records
    && var visible := policy.visible(db.records[u.id].sensitivity);
    if Repeated(updates, i) then u.id < ROW_ID_LIMIT ==> visible
    else u.id >= ROW_ID_LIMIT && (!visible || UnsafePart(policy, u.patch).Some?)
  }

  /** Updates keep the set of records and every record's visibility, and change no record before its
      first slot. */
  lemma {:induction false} SequentialKeeps(policy: Policy, db: Db, updates: seq<Update>, n: nat, id: nat)
    requires n <= |updates|
    ensures
      var now := Sequential(policy, db, updates, n).db;
      && (id in now.records <==> id in db.records)
      && (id in db.records ==> now.records[id].sensitivity == db.records[id].sensitivity)
      && (id in db.records && (forall j | 0 <= j < n :: updates[j].id != id) ==> now.records[id] == db.records[id])
    decreases n
  {
    if n > 0 {
      SequentialKeeps(policy, db, updates, n - 1, id);
    }
  }

  /** One slot: both calls answer the same, and from equal databases leave equal ones, exactly when
      the slot is not one on which they differ. */
  lemma SlotAgrees(policy: Policy, db: Db, updates: seq<Update>, i: nat)
    requires i < |updates|
    ensures
      var now := Sequential(policy, db, updates, i).db;
      var single, planned := Single(policy, now, updates[i]), ApplyPlan(now, Planned(policy, db, updates, i));
      if Differs(policy, db, updates, i)
      then Planned(policy, db, updates, i).Err? && single.0 != Err(Planned(policy, db, updates, i).error)
      else single == planned
  {
    SequentialKeeps(policy, db, updates, i, updates[i].id);
  }

  lemma {:induction false} AgreeUpTo(policy: Policy, db: Db, updates: seq<Update>, n: nat)
    requires n <= |updates| && forall i | 0 <= i < n :: !Differs(policy, db, updates, i)
    ensures Sequential(policy, db, updates, n) == Batched(policy, db, updates, n)
    decreases n
  {
    if n > 0 {
      AgreeUpTo(policy, db, updates, n - 1);
      SlotAgrees(policy, db, updates, n - 1);
    }
  }

  lemma {:induction false} ResultsStay(policy: Policy, db: Db, updates: seq<Update>, i: nat, n: nat)
    requires i < n <= |updates|
    ensures Sequential(policy, db, updates, n).results[i] == Single(policy, Sequential(policy, db, updates, i).db, updates[i]).0
    ensures Batched(policy, db, updates, n).results[i] == ApplyPlan(Batched(policy, db, updates, i).db, Planned(policy, db, updates, i)).0
    decreases n
  {
    if i < n - 1 {
      ResultsStay(policy, db, updates, i, n - 1);
    }
  }

  /** The batched call gives the results and the database of the single calls in order exactly when
      no slot is one on which they differ. */
  lemma BatchEqualsSequential(policy: Policy, db: Db, updates: seq<Update>)
    ensures Batched(policy, db, updates, |updates|) == Sequential(policy, db, updates, |updates|)
       <==> forall i | 0 <= i < |updates| :: !Differs(policy, db, updates, i)
  {
    if i :| 0 <= i < |updates| && Differs(policy, db, updates, i) {
      SlotAgrees(policy, db, updates, i);
      ResultsStay(policy, db, updates, i, |updates|);
    } else {
      AgreeUpTo(policy, db, updates, |updates|);
    }
  }

  /** For pairwise distinct, storable ids the two always agree. */
  lemma DistinctIdsAgree(policy: Policy, db: Db, updates: seq<Update>)
    requires forall i, j | 0 <= i < j < |updates| :: updates[i].id != updates[j].id
    requires forall i | 0 <= i < |updates| :: updates[i].id < ROW_ID_LIMIT
    ensures Batched(policy, db, updates, |updates|) == Sequential(policy, db, updates, |updates|)
  {
    BatchEqualsSequential(policy, db, updates);
  }

  /** Two patches of one visible record: one call after the other writes both, the batch reports the
      second as not found. */
  lemma RepeatedIdIsNotFound(policy: Policy, r: Record)
    requires policy.visible(r.sensitivity)
    ensures
      var noChange := Patch(None, None, None);
      var db, updates := Db(map[1 := r], []), [Update(1, noChange), Update(1, noChange)];
      && Batched(policy, db, updates, 2).results[1] == Err(NotFound)
      && Batched(policy, db, updates, 2).db.journal == [1]
      && Sequential(policy, db, updates, 2).results[1].Ok?
      && Sequential(policy, db, updates, 2).db.journal == [1, 1]
  {
    var noChange := Patch(None, None, None);
    var db, updates := Db(map[1 := r], []), [Update(1, noChange), Update(1, noChange)];
    assert updates[0].id == updates[1].id;
    assert Sequential(policy, db, updates, 1).db.journal == [1];
    assert Batched(policy, db, updates, 1).db.journal == [1];
    assert Planned(policy, db, updates, 1) == Err(NotFound);
  }

  /** Every slot that succeeds adds exactly one journal entry, for its own id and in slot order, and a
      slot that fails adds none. */
  lemma {:induction false} JournalMatchesResults(policy: Policy, db: Db, updates: seq<Update>, n: nat)
    requires n <= |updates|
    ensures
      var o := Batched(policy, db, updates, n);
      o.db.journal == db.journal + SucceededIds(o.results, updates, n)
    decreases n
  {
    if n > 0 {
      JournalMatchesResults(policy, db, updates, n - 1);
      SucceededIdsPrefix(Batched(policy, db, updates, n).results, Batched(policy, db, updates, n - 1).results, updates, n - 1);
    }
  }

  function SucceededIds(results: seq<Result<View, Error>>, updates: seq<Update>, n: nat): seq<nat>
    requires n <= |results| && n <= |updates|
  {
    if n == 0 then []
    else SucceededIds(results, updates, n - 1) + (if results[n - 1].Ok? then [updates[n - 1].id] else [])
  }

  lemma {:induction false} SucceededIdsPrefix(a: seq<Result<View, Error>>, b: seq<Result<View, Error>>, updates: seq<Update>, n: nat)
    requires n <= |updates| && n <= |b| && b <= a
    ensures SucceededIds(a, updates, n) == SucceededIds(b, updates, n)
    decreases n
  {
    if n > 0 {
      SucceededIdsPrefix(a, b, updates, n - 1);
    }
  }

  // ----- What a batch does -----

  /** The slot answers in the batch's own order of checks; a record is written by its first slot only. */
  ghost predicate BatchSlot(policy: Policy, before: Db, updates: seq<Update>, i: nat, answer: Result<View, Error>, after: Db)
    requires i < |updates|
  {
    var u := updates[i];
    if u.id !in before.records || (exists j | 0 <= j < i :: updates[j].id == u.id) then answer == Err(NotFound)
    else if !policy.visible(before.records[u.id].sensitivity) then answer == Err(NotFound)
    else if u.patch.text.Some? && !policy.safe(u.patch.text.value) then answer == Err(UnsafeText)
    else if u.patch.subject.Some? && !policy.safe(u.patch.subject.value) then answer == Err(UnsafeSubject)
    else if u.id >= 0x8000_0000_0000_0000 then answer == Err(StorageFailure)
    else if u.patch.metadata.Some? && u.patch.metadata.value.Scalar? then answer == Err(MetadataNotObject)
    else
      && u.id in after.records && Patched(before.records[u.id], u.patch, after.records[u.id])
      && answer.Ok? && Shows(answer.value, u.id, after.records[u.id])
  }

  lemma {:induction false} BatchLeaves(policy: Policy, db: Db, updates: seq<Update>, n: nat, id: nat)
    requires n <= |updates|
    requires forall i | 0 <= i < n && updates[i].id == id :: Planned(policy, db, updates, i).Err?
    ensures
      var now := Batched(policy, db, updates, n).db;
      (id in now.records <==> id in db.records) && (id in db.records ==> now.records[id] == db.records[id])
    decreases n
  {
    if n > 0 {
      BatchLeaves(policy, db, updates, n - 1, id);
    }
  }

  /** The plan of a slot is written when its turn comes, and no later slot touches the record again. */
  lemma {:induction false} BatchWrites(policy: Policy, db: Db, updates: seq<Update>, i: nat, n: nat)
    requires i < n <= |updates| && Planned(policy, db, updates, i).Ok?
    ensures
      var command, id := Planned(policy, db, updates, i).value, updates[i].id;
      var o := Batched(policy, db, updates, n);
      && id in db.records && id in o.db.records && o.db.records[id] == Written(db.records[id], command)
      && o.results[i] == ViewOf(id, Written(db.records[id], command))
    decreases n
  {
    if n == i + 1 {
      BatchLeaves(policy, db, updates, i, updates[i].id);
    } else {
      BatchWrites(policy, db, updates, i, n - 1);
      if updates[n - 1].id == updates[i].id {
        assert Repeated(updates, n - 1);
      }
    }
  }

  lemma PlanPatches(policy: Policy, db: Db, updates: seq<Update>, i: nat)
    requires i < |updates| && Planned(policy, db, updates, i).Ok?
    ensures
      var id, command := updates[i].id, Planned(policy, db, updates, i).value;
      && id in db.records && command.id == id && id < ROW_ID_LIMIT
      && Patched(db.records[id], updates[i].patch, Written(db.records[id], command))
  {
  }

  /** A batch writes the patch of every first slot that is not refused, whatever the other slots are. */
  lemma BatchSlotMeans(policy: Policy, db: Db, updates: seq<Update>, i: nat)
    requires i < |updates|
    ensures
      var o := Batched(policy, db, updates, |updates|);
      BatchSlot(policy, db, updates, i, o.results[i], o.db)
  {
    if Planned(policy, db, updates, i).Ok? {
      BatchWrites(policy, db, updates, i, |updates|);
      PlanPatches(policy, db, updates, i);
    } else {
      ResultsStay(policy, db, updates, i, |updates|);
    }
  }

  /** A record that no slot was answered with is as it was. */
  lemma BatchTouchesNothingElse(policy: Policy, db: Db, updates: seq<Update>, id: nat)
    requires forall i | 0 <= i < |updates| && updates[i].id == id :: Batched(policy, db, updates, |updates|).results[i].Err?
    ensures
      var after := Batched(policy, db, updates, |updates|).db;
      (id in after.records <==> id in db.records) && (id in db.records ==> after.records[id] == db.records[id])
  {
    forall i | 0 <= i < |updates| && updates[i].id == id
      ensures Planned(policy, db, updates, i).Err?
    {
      if Planned(policy, db, updates, i).Ok? {
        BatchWrites(policy, db, updates, i, |updates|);
        PlanPatches(policy, db, updates, i);
      }
    }
    BatchLeaves(policy, db, updates, |updates|, id);
  }
}
