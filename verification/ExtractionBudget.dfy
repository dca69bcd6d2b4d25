/**
 Extraction in deterministic mode: the byte-budgeted scan of the input events, and the candidates an
 attempt creates. An attempt on behalf of a learning job first removes the pending candidates of the
 job's earlier attempts; an attempt can stop at any store call.
 */
module ExtractionBudget {

  import opened Wrappers
  import Text
  import Utf8

  type EventId = nat
  type JobId = nat

  /** What the store has for an event id; the content is absent when it is no string. */
  datatype Payload = Payload(content: Option<string>)

  datatype Item = Item(event: EventId, text: string)

  datatype Error = NoEvents | TooManyEvents | NoContent | UnsafeContent | BadObservationDate | StoreFailure

  datatype Limits = Limits(maxEvents: nat, maxBytes: nat)

  /** Which texts are refused, and what is stored under an event id. */
  datatype Source = Source(stored: EventId -> Option<Payload>, safe: string -> bool)

  // ----- One event -----

  datatype Look = Missing | Malformed(error: Error) | Content(text: string)

  function Examine(source: Source, event: EventId): Look {
    match source.stored(event)
    case None => Missing
    case Some(Payload(None)) => Malformed(NoContent)
    case Some(Payload(Some(text))) =>
      if Text.Trim(text) == "" then Malformed(NoContent)
      else if !source.safe(text) then Malformed(UnsafeContent)
      else Content(text)
  }

  function Size(text: string): nat {
    |Utf8.Encode(text)|
  }

  // ----- The simple form: the first `n` events -----

  function KeptOf(source: Source, events: seq<EventId>, n: nat): seq<Item>
    requires n <= |events|
  {
    if n == 0 then []
    else
      var look := Examine(source, events[n - 1]);
      KeptOf(source, events, n - 1) + (if look.Content? then [Item(events[n - 1], look.text)] else [])
  }

  function MissingOf(source: Source, events: seq<EventId>, n: nat): nat
    requires n <= |events|
  {
    if n == 0 then 0
    else MissingOf(source, events, n - 1) + (if Examine(source, events[n - 1]).Missing? then 1 else 0)
  }

  function BytesOf(source: Source, events: seq<EventId>, n: nat): nat
    requires n <= |events|
  {
    if n == 0 then 0
    else
      var look := Examine(source, events[n - 1]);
      BytesOf(source, events, n - 1) + (if look.Content? then Size(look.text) else 0)
  }

  ghost predicate Clean(source: Source, events: seq<EventId>, n: nat)
    requires n <= |events|
  {
    forall i | 0 <= i < n :: !Examine(source, events[i]).Malformed?
  }

  /** The first `cut` events are well formed and fit the budget, and the next one does not fit. */
  ghost predicate IsCut(source: Source, events: seq<EventId>, budget: nat, cut: nat) {
    && cut <= |events| && Clean(source, events, cut) && BytesOf(source, events, cut) <= budget
    && (cut < |events| ==> Examine(source, events[cut]).Content? && BytesOf(source, events, cut + 1) > budget)
  }

  /** The event at `i` is malformed and the scan gets that far. */
  ghost predicate StopsAt(source: Source, events: seq<EventId>, budget: nat, i: nat, error: Error) {
    && i < |events| && Clean(source, events, i) && BytesOf(source, events, i) <= budget
    && Examine(source, events[i]) == Malformed(error)
  }

  datatype Scan = Scan(kept: seq<Item>, missing: nat, skipped: nat)

  function ScanOf(source: Source, events: seq<EventId>, cut: nat): Scan
    requires cut <= |events|
  {
    Scan(KeptOf(source, events, cut), MissingOf(source, events, cut), |events| - cut)
  }

  /** The prefix byte budget. Once an event does not fit, the rest is only counted. */
  method ScanEvents(source: Source, events: seq<EventId>, budget: nat) returns (r: Result<Scan, Error>)
    ensures r.Ok? ==> exists cut :: IsCut(source, events, budget, cut) && r.value == ScanOf(source, events, cut)
    ensures r.Err? ==> exists i :: StopsAt(source, events, budget, i, r.error)
  {
    var kept: seq<Item> := [];
    var missing: nat, skipped: nat, bytes: nat := 0, 0, 0;
    var exhausted := false;
    ghost var cut := 0;
    for i := 0 to |events|
      invariant cut <= i && (exhausted ==> cut < i && IsCut(source, events, budget, cut)) && (!exhausted ==> cut == i)
      invariant Clean(source, events, cut) && bytes == BytesOf(source, events, cut) <= budget
      invariant kept == KeptOf(source, events, cut) && missing == MissingOf(source, events, cut) && skipped == i - cut
    {
      if exhausted {
        skipped := skipped + 1;
        continue;
      }
      var payload := source.stored(events[i]);
      if payload.None? {
        missing := missing + 1;
        cut := cut + 1;
        continue;
      }
      var content := payload.value.content;
      if content.None? || Text.Trim(content.value) == "" {
        assert StopsAt(source, events, budget, i, NoContent);
        return Err(NoContent);
      }
      if !source.safe(content.value) {
        assert StopsAt(source, events, budget, i, UnsafeContent);
        return Err(UnsafeContent);
      }
      var size := Size(content.value);
      if bytes + size > budget {
        exhausted := true;
        skipped := skipped + 1;
        continue;
      }
      bytes := bytes + size;
      kept := kept + [Item(events[i], content.value)];
      cut := cut + 1;
    }
    assert IsCut(source, events, budget, cut);
    r := Ok(Scan(kept, missing, skipped));
  }

  // ----- What the scan means -----

  lemma {:induction false} BytesGrow(source: Source, events: seq<EventId>, m: nat, n: nat)
    requires m <= n <= |events|
    ensures BytesOf(source, events, m) <= BytesOf(source, events, n)
    decreases n
  {
    if m < n {
      BytesGrow(source, events, m, n - 1);
    }
  }

  /** Kept, missing and skipped events are all the events; no longer prefix fits the budget. */
  lemma {:induction false} CutIsMaximal(source: Source, events: seq<EventId>, budget: nat, cut: nat, longer: nat)
    requires IsCut(source, events, budget, cut)
    ensures |KeptOf(source, events, cut)| + MissingOf(source, events, cut) + (|events| - cut) == |events|
    ensures cut < longer <= |events| ==> BytesOf(source, events, longer) > budget
  {
    EveryEventCounted(source, events, cut);
    if cut < longer <= |events| {
      BytesGrow(source, events, cut + 1, longer);
    }
  }

  lemma {:induction false} EveryEventCounted(source: Source, events: seq<EventId>, n: nat)
    requires n <= |events| && Clean(source, events, n)
    ensures |KeptOf(source, events, n)| + MissingOf(source, events, n) == n
    decreases n
  {
    if n > 0 {
      EveryEventCounted(source, events, n - 1);
    }
  }

  /** The size of the first `n` texts together. */
  function SizeTo(items: seq<Item>, n: nat): nat
    requires n <= |items|
  {
    if n == 0 then 0 else SizeTo(items, n - 1) + Size(items[n - 1].text)
  }

  function TotalSize(items: seq<Item>): nat {
    SizeTo(items, |items|)
  }

  lemma {:induction false} SizeOfPrefix(items: seq<Item>, more: seq<Item>, n: nat)
    requires n <= |items| && items <= more
    ensures SizeTo(more, n) == SizeTo(items, n)
    decreases n
  {
    if n > 0 {
      SizeOfPrefix(items, more, n - 1);
    }
  }

  lemma TotalOfOneMore(items: seq<Item>, item: Item)
    ensures TotalSize(items + [item]) == TotalSize(items) + Size(item.text)
  {
    SizeOfPrefix(items, items + [item], |items|);
  }

  lemma {:induction false} KeptBytes(source: Source, events: seq<EventId>, n: nat)
    requires n <= |events|
    ensures TotalSize(KeptOf(source, events, n)) == BytesOf(source, events, n)
    decreases n
  {
    if n > 0 {
      KeptBytes(source, events, n - 1);
      KeptNext(source, events, n - 1);
      var look := Examine(source, events[n - 1]);
      if look.Content? {
        TotalOfOneMore(KeptOf(source, events, n - 1), Item(events[n - 1], look.text));
      }
    }
  }

  lemma KeptNext(source: Source, events: seq<EventId>, n: nat)
    requires n < |events|
    ensures
      var before, look := KeptOf(source, events, n), Examine(source, events[n]);
      KeptOf(source, events, n + 1) == if look.Content? then before + [Item(events[n], look.text)] else before
  {
    assert KeptOf(source, events, n) + [] == KeptOf(source, events, n);
  }

  /** The scan succeeds or stops, never both, at one place: its outcome is a function of the input. */
  lemma ScanIsDetermined(source: Source, events: seq<EventId>, budget: nat, a: nat, b: nat, error: Error)
    requires IsCut(source, events, budget, a)
    ensures IsCut(source, events, budget, b) ==> a == b
    ensures !StopsAt(source, events, budget, b, error)
  {
    if IsCut(source, events, budget, b) && a != b {
      var low, high := if a < b then a else b, if a < b then b else a;
      BytesGrow(source, events, low + 1, high);
    }
    if StopsAt(source, events, budget, b, error) {
      if a < b {
        BytesGrow(source, events, a + 1, b);
      }
    }
  }

  lemma StopIsUnique(source: Source, events: seq<EventId>, budget: nat, i: nat, j: nat, a: Error, b: Error)
    requires StopsAt(source, events, budget, i, a) && StopsAt(source, events, budget, j, b)
    ensures i == j && a == b
  {
  }

  // ----- What a request comes to -----

  datatype Request = Request(job: Option<JobId>, events: seq<EventId>, date: Option<string>)

  /** The outcome of the scan: the one cut, or the one place where it stops. */
  ghost function ScanResult(source: Source, events: seq<EventId>, budget: nat): Result<Scan, Error> {
    if exists cut :: IsCut(source, events, budget, cut)
    then var cut :| IsCut(source, events, budget, cut); Ok(ScanOf(source, events, cut))
    else if exists i, error :: StopsAt(source, events, budget, i, error)
    then var i, error :| StopsAt(source, events, budget, i, error); Err(error)
    else Err(NoEvents)
  }

  lemma ScanResultIsCut(source: Source, events: seq<EventId>, budget: nat, cut: nat)
    requires IsCut(source, events, budget, cut)
    ensures ScanResult(source, events, budget) == Ok(ScanOf(source, events, cut))
  {
    var other :| IsCut(source, events, budget, other) && ScanResult(source, events, budget) == Ok(ScanOf(source, events, other));
    ScanIsDetermined(source, events, budget, cut, other, NoContent);
  }

  lemma ScanResultIsStop(source: Source, events: seq<EventId>, budget: nat, i: nat, error: Error)
    requires StopsAt(source, events, budget, i, error)
    ensures ScanResult(source, events, budget) == Err(error)
  {
    forall cut | IsCut(source, events, budget, cut)
      ensures false
    {
      ScanIsDetermined(source, events, budget, cut, i, error);
    }
    var j, other :| StopsAt(source, events, budget, j, other) && ScanResult(source, events, budget) == Err(other);
    StopIsUnique(source, events, budget, i, j, error, other);
  }

  predicate DateIsFine(q: Request) {
    q.date.Some? ==> IsDate(q.date.value)
  }

  /** What a request comes to before any candidate is created. */
  ghost function Plan(source: Source, limits: Limits, q: Request): Result<Scan, Error> {
    if q.events == [] then Err(NoEvents)
    else if |q.events| > limits.maxEvents then Err(TooManyEvents)
    else
      var scan := ScanResult(source, q.events, limits.maxBytes);
      if scan.Ok? && !DateIsFine(q) then Err(BadObservationDate) else scan
  }

  /** A request is planned exactly when it has events, not too many, its scan comes to a cut, and its
      date is well formed; it then keeps the events of that cut. */
  lemma PlanIsExact(source: Source, limits: Limits, q: Request)
    ensures Plan(source, limits, q).Ok? <==>
      && q.events != [] && |q.events| <= limits.maxEvents && DateIsFine(q)
      && exists cut :: IsCut(source, q.events, limits.maxBytes, cut)
    ensures Plan(source, limits, q).Ok? ==>
      exists cut :: IsCut(source, q.events, limits.maxBytes, cut) && Plan(source, limits, q).value == ScanOf(source, q.events, cut)
  {
    if cut :| IsCut(source, q.events, limits.maxBytes, cut) {
      ScanResultIsCut(source, q.events, limits.maxBytes, cut);
    }
  }

  /** The answer when the store fails on the candidate after the first `failAt`. */
  function Reply(plan: Result<Scan, Error>, failAt: Option<nat>): Result<Scan, Error> {
    if plan.Ok? && failAt.Some? && failAt.value < |plan.value.kept| then Err(StoreFailure) else plan
  }

  // ----- Candidates -----

  datatype Candidate = Candidate(id: nat, job: Option<JobId>, item: Item, pending: bool)

  /** The candidates left after the cleanup of a job: its pending ones are gone. */
  function Cleaned(rows: seq<Candidate>, job: Option<JobId>): seq<Candidate> {
    if rows == [] || job.None? then rows
    else
      var last := rows[|rows| - 1];
      Cleaned(rows[..|rows| - 1], job) + (if last.job == job && last.pending then [] else [last])
  }

  function Created(job: Option<JobId>, items: seq<Item>, firstId: nat): (rows: seq<Candidate>)
    ensures |rows| == |items| && forall i | 0 <= i < |items| :: rows[i] == Candidate(firstId + i, job, items[i], true)
  {
    seq(|items|, i requires 0 <= i < |items| => Candidate(firstId + i, job, items[i], true))
  }

  /** The pending candidates of one job, or of the runs without a job, in order. */
  function PendingRows(rows: seq<Candidate>, job: Option<JobId>): seq<Candidate> {
    if rows == [] then []
    else
      var last := rows[|rows| - 1];
      PendingRows(rows[..|rows| - 1], job) + (if last.job == job && last.pending then [last] else [])
  }

  function ItemsOf(rows: seq<Candidate>): (items: seq<Item>)
    ensures |items| == |rows| && forall i | 0 <= i < |rows| :: items[i] == rows[i].item
  {
    seq(|rows|, i requires 0 <= i < |rows| => rows[i].item)
  }

  function PendingItems(rows: seq<Candidate>, job: Option<JobId>): seq<Item> {
    ItemsOf(PendingRows(rows, job))
  }

  lemma {:induction false} PendingAfterMore(rows: seq<Candidate>, more: seq<Candidate>, job: Option<JobId>)
    ensures PendingRows(rows + more, job) == PendingRows(rows, job) + PendingRows(more, job)
  {
    if more == [] {
      assert rows + more == rows;
    } else {
      var init, last := more[..|more| - 1], more[|more| - 1];
      PendingAfterMore(rows, init, job);
      PendingAfterOne(rows + init, last, job);
      Text.InitAndLast(more);
      Text.Associates(rows, init, [last]);
      Text.Associates(PendingRows(rows, job), PendingRows(init, job), if last.job == job && last.pending then [last] else []);
    }
  }

  lemma PendingAfterOne(rows: seq<Candidate>, last: Candidate, job: Option<JobId>)
    ensures PendingRows(rows + [last], job) == PendingRows(rows, job) + (if last.job == job && last.pending then [last] else [])
  {
    assert (rows + [last])[..|rows|] == rows;
  }

  lemma PendingItemsAfterMore(rows: seq<Candidate>, more: seq<Candidate>, job: Option<JobId>)
    ensures PendingItems(rows + more, job) == PendingItems(rows, job) + PendingItems(more, job)
  {
    PendingAfterMore(rows, more, job);
    assert ItemsOf(PendingRows(rows, job) + PendingRows(more, job)) == PendingItems(rows, job) + PendingItems(more, job);
  }

  lemma {:induction false} PendingOfCreated(job: Option<JobId>, items: seq<Item>, firstId: nat, other: Option<JobId>)
    ensures PendingRows(Created(job, items, firstId), other) == if job == other then Created(job, items, firstId) else []
    ensures PendingItems(Created(job, items, firstId), other) == if job == other then items else []
  {
    var rows := Created(job, items, firstId);
    if items != [] {
      var init := items[..|items| - 1];
      assert rows == Created(job, init, firstId) + [Candidate(firstId + |init|, job, items[|items| - 1], true)];
      PendingOfCreated(job, init, firstId, other);
    }
    assert ItemsOf(rows) == items;
  }

  /** The cleanup of a job leaves it nothing pending and leaves every other job's candidates. */
  lemma {:induction false} CleanupEmptiesOneJob(rows: seq<Candidate>, job: JobId, other: Option<JobId>)
    ensures PendingRows(Cleaned(rows, Some(job)), other) == if other == Some(job) then [] else PendingRows(rows, other)
  {
    if rows != [] {
      var init, last := rows[..|rows| - 1], rows[|rows| - 1];
      CleanupEmptiesOneJob(init, job, other);
      if last.job == Some(job) && last.pending {
        assert Cleaned(rows, Some(job)) == Cleaned(init, Some(job));
      } else {
        PendingAfterOne(Cleaned(init, Some(job)), last, other);
      }
    }
  }

  /** Reviewed candidates, and those of runs without a job, survive every cleanup. */
  lemma {:induction false} CleanupKeeps(rows: seq<Candidate>, job: Option<JobId>, c: Candidate)
    ensures c in Cleaned(rows, job) <==> c in rows && !(job.Some? && c.job == job && c.pending)
  {
    if rows != [] && job.Some? {
      CleanupKeeps(rows[..|rows| - 1], job, c);
      assert rows == rows[..|rows| - 1] + [rows[|rows| - 1]];
    }
  }

  // ----- Attempts -----

  datatype Table = Table(rows: seq<Candidate>, nextId: nat)

  /** What happens to the candidate table: attempts, of whose kept items the first `done` become
      candidates, and reviews. */
  datatype Action =
    | Attempt(job: Option<JobId>, kept: seq<Item>, done: nat)
    | Review(id: nat)

  function Reviewed(rows: seq<Candidate>, id: nat): (r: seq<Candidate>)
    ensures |r| == |rows| && forall i | 0 <= i < |rows| :: r[i] == if rows[i].id == id then rows[i].(pending := false) else rows[i]
  {
    seq(|rows|, i requires 0 <= i < |rows| => if rows[i].id == id then rows[i].(pending := false) else rows[i])
  }

  function FirstOf(items: seq<Item>, n: nat): seq<Item> {
    if n < |items| then items[..n] else items
  }

  function Perform(t: Table, action: Action): Table {
    match action
    case Attempt(job, kept, done) =>
      var created := FirstOf(kept, done);
      Table(Cleaned(t.rows, job) + Created(job, created, t.nextId), t.nextId + |created|)
    case Review(id) => Table(Reviewed(t.rows, id), t.nextId)
  }

  /** The attempt a request is: it keeps what its plan keeps, and stops where the store fails. */
  ghost function AttemptOf(source: Source, limits: Limits, q: Request, failAt: Option<nat>): Action {
    var plan := Plan(source, limits, q);
    var kept := if plan.Ok? then plan.value.kept else [];
    Attempt(q.job, kept, if failAt.Some? then failAt.value else |kept|)
  }

  class CandidateStore {
    var rows: seq<Candidate>
    var nextId: nat

    constructor ()
      ensures Contents() == Table([], 0)
    {
      rows, nextId := [], 0;
    }

    function Contents(): Table
      reads this
    {
      Table(rows, nextId)
    }

    method DeletePending(job: JobId)
      modifies this`rows
      ensures rows == Cleaned(old(rows), Some(job))
    {
      var kept: seq<Candidate> := [];
      assert rows[..0] == [];
      for i := 0 to |rows|
        invariant kept == Cleaned(rows[..i], Some(job))
      {
        assert rows[..i + 1][..i] == rows[..i];
        if !(rows[i].job == Some(job) && rows[i].pending) {
          kept := kept + [rows[i]];
        }
      }
      assert rows[..|rows|] == rows;
      rows := kept;
    }

    /** One candidate per kept event; the store may fail on the one after the first `failAt`. */
    method CreateAll(job: Option<JobId>, items: seq<Item>, failAt: Option<nat>) returns (all: bool)
      modifies this
      ensures all == (failAt.Some? ==> |items| <= failAt.value)
      ensures
        var created := FirstOf(items, if failAt.Some? then failAt.value else |items|);
        Contents() == Table(old(rows) + Created(job, created, old(nextId)), old(nextId) + |created|)
    {
      var created := 0;
      assert items[..0] == [];
      while created < |items|
        invariant created <= |items| && (failAt.Some? ==> created <= failAt.value)
        invariant nextId == old(nextId) + created && rows == old(rows) + Created(job, items[..created], old(nextId))
      {
        if failAt == Some(created) {
          return false;
        }
        ghost var before := Created(job, items[..created], old(nextId));
        rows := rows + [Candidate(nextId, job, items[created], true)];
        nextId := nextId + 1;
        created := created + 1;
        assert Created(job, items[..created], old(nextId)) == before + [Candidate(old(nextId) + created - 1, job, items[created - 1], true)];
      }
      assert items[..created] == items;
      return true;
    }

    /** One attempt: its answer and the table it leaves, in every case. Whatever the outcome, the job's
        pending candidates of earlier attempts are gone first. */
    method ExecuteExtraction(q: Request, source: Source, limits: Limits, failAt: Option<nat>) returns (r: Result<Scan, Error>)
      modifies this
      ensures r == Reply(Plan(source, limits, q), failAt)
      ensures Contents() == Perform(old(Contents()), AttemptOf(source, limits, q, failAt))
    {
      if q.job.Some? {
        DeletePending(q.job.value);
      }
      assert rows == Cleaned(old(rows), q.job) && rows + Created(q.job, [], old(nextId)) == rows;
      if q.events == [] {
        return Err(NoEvents);
      }
      if |q.events| > limits.maxEvents {
        return Err(TooManyEvents);
      }
      r := ScanEvents(source, q.events, limits.maxBytes);
      ScanOutcome(source, q.events, limits.maxBytes, r);
      if r.Err? {
        return;
      }
      if q.date.Some? && !IsDate(q.date.value) {
        return Err(BadObservationDate);
      }
      var all := CreateAll(q.job, r.value.kept, failAt);
      if !all {
        return Err(StoreFailure);
      }
    }
  }

  lemma ScanOutcome(source: Source, events: seq<EventId>, budget: nat, r: Result<Scan, Error>)
    requires r.Ok? ==> exists cut :: IsCut(source, events, budget, cut) && r.value == ScanOf(source, events, cut)
    requires r.Err? ==> exists i :: StopsAt(source, events, budget, i, r.error)
    ensures r == ScanResult(source, events, budget)
  {
    if r.Ok? {
      var cut :| IsCut(source, events, budget, cut) && r.value == ScanOf(source, events, cut);
      ScanResultIsCut(source, events, budget, cut);
    } else {
      var i :| StopsAt(source, events, budget, i, r.error);
      ScanResultIsStop(source, events, budget, i, r.error);
    }
  }

  /** Ten bytes after trimming, YYYY-MM-DD; the digits are not checked as a date. */
  predicate IsDate(date: string) {
    var bytes := Utf8.Encode(Text.Trim(date));
    && |bytes| == 10 && bytes[4] == 0x2D && bytes[7] == 0x2D
    && forall i | 0 <= i < 10 && i != 4 && i != 7 :: 0x30 <= bytes[i] <= 0x39
  }

  ghost predicate LooksLikeADate(text: string) {
    && |text| == 10 && text[4] == '-' && text[7] == '-'
    && forall i | 0 <= i < 10 && i != 4 && i != 7 :: '0' <= text[i] <= '9'
  }

  /** The byte check is one of characters: four digits, a dash, two digits, a dash, two digits. */
  lemma DateLooks(date: string)
    ensures IsDate(date) <==> LooksLikeADate(Text.Trim(date))
  {
    var text := Text.Trim(date);
    var bytes := Utf8.Encode(text);
    Utf8.AsciiBytes(text);
    if IsDate(date) {
      assert forall i | 0 <= i < |bytes| :: bytes[i] < 0x80;
      assert forall i | 0 <= i < 10 :: text[i] as int == bytes[i];
    }
    if LooksLikeADate(text) {
      assert Utf8.Ascii(text);
    }
  }

  // ----- Retries -----

  function History(t: Table, actions: seq<Action>): Table
    decreases |actions|
  {
    if actions == [] then t else Perform(History(t, actions[..|actions| - 1]), actions[|actions| - 1])
  }

  /** A request with the events and limits it met, or a review. */
  datatype Happening =
    | Asked(source: Source, limits: Limits, request: Request, failAt: Option<nat>)
    | Decided(id: nat)

  ghost function ActionOf(h: Happening): Action {
    match h
    case Asked(source, limits, q, failAt) => AttemptOf(source, limits, q, failAt)
    case Decided(id) => Review(id)
  }

  ghost function ActionsOf(happenings: seq<Happening>): (actions: seq<Action>)
    ensures |actions| == |happenings| && forall i | 0 <= i < |happenings| :: actions[i] == ActionOf(happenings[i])
  {
    seq(|happenings|, i requires 0 <= i < |happenings| => ActionOf(happenings[i]))
  }

  /** The table after requests of all jobs, whatever became of each, and reviews. */
  ghost function Replay(t: Table, happenings: seq<Happening>): Table {
    History(t, ActionsOf(happenings))
  }

  lemma ReplayStep(t: Table, happenings: seq<Happening>, h: Happening)
    ensures Replay(t, happenings + [h]) == Perform(Replay(t, happenings), ActionOf(h))
  {
    var actions := ActionsOf(happenings + [h]);
    assert actions[..|actions| - 1] == ActionsOf(happenings);
  }

  lemma PendingAfterAttempt(t: Table, job: JobId, kept: seq<Item>, done: nat, other: Option<JobId>)
    ensures
      var created := FirstOf(kept, done);
      && PendingRows(Perform(t, Attempt(Some(job), kept, done)).rows, other)
           == (if other == Some(job) then Created(other, created, t.nextId) else PendingRows(t.rows, other))
      && (other == Some(job) ==> PendingItems(Perform(t, Attempt(Some(job), kept, done)).rows, other) == created)
  {
    var left, created := Cleaned(t.rows, Some(job)), Created(Some(job), FirstOf(kept, done), t.nextId);
    PendingAfterMore(left, created, other);
    PendingOfCreated(Some(job), FirstOf(kept, done), t.nextId, other);
    CleanupEmptiesOneJob(t.rows, job, other);
    if other == Some(job) {
      assert PendingRows(left, other) + created == created;
    } else {
      assert PendingRows(left, other) + [] == PendingRows(left, other);
    }
  }

  /** After any happenings, a request of a job that succeeds leaves as the job's pending candidates
      exactly one per event of its cut, in order, and changes no other job's. */
  lemma RetryLeavesOnePerEvent(t: Table, happenings: seq<Happening>, source: Source, limits: Limits, q: Request, failAt: Option<nat>, other: Option<JobId>)
    requires q.job.Some? && Reply(Plan(source, limits, q), failAt).Ok?
    ensures
      var before, after := Replay(t, happenings), Replay(t, happenings + [Asked(source, limits, q, failAt)]);
      var kept := Reply(Plan(source, limits, q), failAt).value.kept;
      && PendingItems(after.rows, other) == (if other == q.job then kept else PendingItems(before.rows, other))
      && exists cut :: IsCut(source, q.events, limits.maxBytes, cut) && kept == KeptOf(source, q.events, cut)
  {
    ReplayStep(t, happenings, Asked(source, limits, q, failAt));
    PlanIsExact(source, limits, q);
    var kept := Plan(source, limits, q).value.kept;
    PendingAfterAttempt(Replay(t, happenings), q.job.value, kept, if failAt.Some? then failAt.value else |kept|, other);
  }

  /** The candidates that none of the happenings reviewed. */
  ghost function Unreviewed(rows: seq<Candidate>, happenings: seq<Happening>): seq<Candidate> {
    if rows == [] then []
    else
      var last := rows[|rows| - 1];
      Unreviewed(rows[..|rows| - 1], happenings) + (if Decided(last.id) in happenings then [] else [last])
  }

  lemma UnreviewedOfOneMore(rows: seq<Candidate>, last: Candidate, happenings: seq<Happening>)
    ensures Unreviewed(rows + [last], happenings)
         == if Decided(last.id) in happenings then Unreviewed(rows, happenings) else Unreviewed(rows, happenings) + [last]
  {
    assert (rows + [last])[..|rows|] == rows;
  }

  lemma {:induction false} UnreviewedStep(rows: seq<Candidate>, happenings: seq<Happening>, h: Happening)
    ensures Unreviewed(rows, happenings + [h]) == if h.Decided? then Unreviewed(Unreviewed(rows, happenings), [h]) else Unreviewed(rows, happenings)
  {
    if rows != [] {
      var init, last := rows[..|rows| - 1], rows[|rows| - 1];
      UnreviewedStep(init, happenings, h);
      Text.InitAndLast(rows);
      UnreviewedOfOneMore(init, last, happenings);
      UnreviewedOfOneMore(init, last, happenings + [h]);
      UnreviewedOfOneMore(Unreviewed(init, happenings), last, [h]);
    }
  }

  lemma {:induction false} NothingReviewed(rows: seq<Candidate>)
    ensures Unreviewed(rows, []) == rows
  {
    if rows != [] {
      NothingReviewed(rows[..|rows| - 1]);
    }
  }

  /** A review takes the reviewed candidate out of the pending ones of whichever job it has. */
  lemma {:induction false} ReviewTakesOne(rows: seq<Candidate>, id: nat, job: Option<JobId>)
    ensures PendingRows(Reviewed(rows, id), job) == Unreviewed(PendingRows(rows, job), [Decided(id)])
  {
    if rows != [] {
      var init, last := rows[..|rows| - 1], rows[|rows| - 1];
      ReviewTakesOne(init, id, job);
      assert Reviewed(rows, id)[..|init|] == Reviewed(init, id);
      if last.job == job && last.pending {
        UnreviewedOfOneMore(PendingRows(init, job), last, [Decided(id)]);
      } else {
        assert PendingRows(rows, job) == PendingRows(init, job);
      }
    }
  }

  /** Happenings without an attempt of the job leave its pending candidates, less the reviewed ones. */
  lemma {:induction false} PendingBetweenAttempts(t: Table, since: seq<Happening>, job: JobId)
    requires forall i | 0 <= i < |since| && since[i].Asked? :: since[i].request.job != Some(job)
    ensures PendingRows(Replay(t, since).rows, Some(job)) == Unreviewed(PendingRows(t.rows, Some(job)), since)
    decreases |since|
  {
    if since == [] {
      NothingReviewed(PendingRows(t.rows, Some(job)));
    } else {
      var init, last := since[..|since| - 1], since[|since| - 1];
      PendingBetweenAttempts(t, init, job);
      ReplayStep(t, init, last);
      assert since == init + [last];
      UnreviewedStep(PendingRows(t.rows, Some(job)), init, last);
      var now := Replay(t, init);
      match ActionOf(last)
      case Attempt(Some(j), kept, done) => PendingAfterAttempt(now, j, kept, done, Some(job));
      case Attempt(None, kept, done) => InlineRunsAccumulate(now, FirstOf(kept, done), Some(job));
      case Review(id) => ReviewTakesOne(now.rows, id, Some(job));
    }
  }

  /** However many attempts of however many jobs came before, refused, cut short or completed: the
      pending candidates of a job are those its last attempt created, less the ones reviewed since. */
  lemma PendingAreOfTheLastAttempt(t: Table, before: seq<Happening>, last: Happening, since: seq<Happening>, job: JobId)
    requires last.Asked? && last.request.job == Some(job)
    requires forall i | 0 <= i < |since| && since[i].Asked? :: since[i].request.job != Some(job)
    ensures
      var action := ActionOf(last);
      var created := Created(Some(job), FirstOf(action.kept, action.done), Replay(t, before).nextId);
      PendingRows(Replay(t, before + [last] + since).rows, Some(job)) == Unreviewed(created, since)
  {
    var action := ActionOf(last);
    ReplayInSteps(t, before + [last], since);
    ReplayStep(t, before, last);
    PendingAfterAttempt(Replay(t, before), job, action.kept, action.done, Some(job));
    PendingBetweenAttempts(Replay(t, before + [last]), since, job);
  }

  lemma ReplayInSteps(t: Table, first: seq<Happening>, second: seq<Happening>)
    ensures Replay(t, first + second) == Replay(Replay(t, first), second)
  {
    ActionsOfBoth(first, second);
    HistoryInSteps(t, ActionsOf(first), ActionsOf(second));
  }

  lemma ActionsOfBoth(first: seq<Happening>, second: seq<Happening>)
    ensures ActionsOf(first + second) == ActionsOf(first) + ActionsOf(second)
  {
  }

  lemma {:induction false} HistoryInSteps(t: Table, first: seq<Action>, second: seq<Action>)
    ensures History(t, first + second) == History(History(t, first), second)
    decreases |second|
  {
    if second == [] {
      assert first + second == first;
    } else {
      var init, last := second[..|second| - 1], second[|second| - 1];
      HistoryInSteps(t, first, init);
      HistoryStep(t, first + init, last);
      Text.InitAndLast(second);
      Text.Associates(first, init, [last]);
    }
  }

  lemma HistoryStep(t: Table, actions: seq<Action>, last: Action)
    ensures History(t, actions + [last]) == Perform(History(t, actions), last)
  {
    assert (actions + [last])[..|actions|] == actions;
  }

  /** A run without a job only adds: repeating it repeats its candidates. */
  lemma InlineRunsAccumulate(t: Table, kept: seq<Item>, job: Option<JobId>)
    ensures
      var after := Perform(t, Attempt(None, kept, |kept|));
      && t.rows <= after.rows
      && PendingItems(after.rows, job) == PendingItems(t.rows, job) + (if job == None then kept else [])
      && (job.Some? ==> PendingRows(after.rows, job) == PendingRows(t.rows, job))
  {
    PendingAfterMore(t.rows, Created(None, kept, t.nextId), job);
    PendingItemsAfterMore(t.rows, Created(None, kept, t.nextId), job);
    PendingOfCreated(None, kept, t.nextId, job);
  }

  /** A reviewed candidate is in every later state of the table. */
  lemma {:induction false} ReviewedForever(t: Table, actions: seq<Action>, c: Candidate)
    requires c in t.rows && !c.pending
    ensures c in History(t, actions).rows
    decreases |actions|
  {
    if actions != [] {
      var before := History(t, actions[..|actions| - 1]);
      ReviewedForever(t, actions[..|actions| - 1], c);
      match actions[|actions| - 1]
      case Attempt(job, kept, done) => CleanupKeeps(before.rows, job, c);
      case Review(id) =>
        var k :| 0 <= k < |before.rows| && before.rows[k] == c;
        assert Reviewed(before.rows, id)[k] == c;
    }
  }
}
