/**
 Keyset paging of the daily usage facts: the store reads `page + 1` rows above a (day, metric)
 position, the service wraps the last position of a full page in a signed token, and the client
 follows the tokens.
 */
module UsagePaging {
  import opened Wrappers
  import opened ListCursor
  import opened Text

  datatype UsageKey = UsageKey(day: string, metric: string)

  datatype UsageRow = UsageRow(key: UsageKey, delta: int)

  datatype UsageError = InvalidPageSize | InvalidCursor

  datatype UsagePage = UsagePage(items: seq<UsageRow>, info: PageInfo)

  /** Order of the unique index (tenant, day, metric) within one tenant. */
  predicate KeyLess(a: UsageKey, b: UsageKey) {
    Text.Less(a.day, b.day) || (a.day == b.day && Text.Less(a.metric, b.metric))
  }

  /** One tenant's table in index order; the unique index makes the order strict. */
  ghost predicate Ascending(table: seq<UsageRow>) {
    forall i, j | 0 <= i < j < |table| :: KeyLess(table[i].key, table[j].key)
  }

  lemma KeyOrder(a: UsageKey, b: UsageKey, c: UsageKey)
    ensures !KeyLess(a, a) && !(KeyLess(a, b) && KeyLess(b, a))
    ensures KeyLess(a, b) || KeyLess(b, a) || a == b
    ensures KeyLess(a, b) && KeyLess(b, c) ==> KeyLess(a, c)
  {
    Text.LessIsStrict(a.day, b.day);
    Text.LessIsStrict(a.metric, b.metric);
    Text.LessIsStrict(a.day, a.day);
    Text.LessIsStrict(a.metric, a.metric);
    if KeyLess(a, b) && KeyLess(b, c) {
      if Text.Less(a.day, b.day) && Text.Less(b.day, c.day) {
        Text.LessIsTransitive(a.day, b.day, c.day);
      } else if a.day == b.day && b.day == c.day {
        Text.LessIsTransitive(a.metric, b.metric, c.metric);
      }
    }
  }

  // ----- The position inside the token -----

  const SEPARATOR := '|'

  function UsageCursorKey(key: UsageKey): string {
    key.day + [SEPARATOR] + key.metric
  }

  /** Text before and after the first separator, if there is one. */
  function SplitOnce(raw: string): Option<(string, string)> {
    if raw == [] then None
    else if raw[0] == SEPARATOR then Some(([], raw[1..]))
    else match SplitOnce(raw[1..])
         case None => None
         case Some((head, tail)) => Some(([raw[0]] + head, tail))
  }

  lemma {:induction false} SplitOnceMeans(raw: string)
    ensures SplitOnce(raw).None? <==> SEPARATOR !in raw
    ensures SplitOnce(raw).Some? ==>
      var (head, tail) := SplitOnce(raw).value; SEPARATOR !in head && raw == head + [SEPARATOR] + tail
  {
    if raw != [] {
      SplitOnceMeans(raw[1..]);
      assert raw == [raw[0]] + raw[1..];
    }
  }

  lemma {:induction false} SplitOnceOf(head: string, tail: string)
    requires SEPARATOR !in head
    ensures SplitOnce(head + [SEPARATOR] + tail) == Some((head, tail))
  {
    var raw := head + [SEPARATOR] + tail;
    if head == [] {
      assert raw[1..] == tail;
    } else {
      assert raw[1..] == head[1..] + [SEPARATOR] + tail;
      SplitOnceOf(head[1..], tail);
      assert [head[0]] + head[1..] == head;
    }
  }

  function DecodeUsageCursor(hmac: Hmac, cursor: Option<string>): Result<Option<UsageKey>, CursorError> {
    match DecodeListCursor(hmac, cursor)
    case Err(error) => Err(error)
    case Ok(None) => Ok(None)
    case Ok(Some(raw)) =>
      match SplitOnce(raw)
      case None => Err(Malformed)
      case Some((day, metric)) => Ok(Some(UsageKey(day, metric)))
  }

  /** A position survives its token exactly when its day is free of the separator; the metric may
      contain it. */
  lemma UsageCursorRoundTrip(hmac: Hmac, key: UsageKey)
    ensures
      DecodeUsageCursor(hmac, Some(EncodeListCursor(hmac, UsageCursorKey(key)))) == Ok(Some(key))
      <==> SEPARATOR !in key.day
  {
    RoundTrip(hmac, UsageCursorKey(key));
    SplitOnceMeans(UsageCursorKey(key));
    if SEPARATOR !in key.day {
      SplitOnceOf(key.day, key.metric);
    }
  }

  // ----- One page -----

  /** The rows strictly above a position. */
  function RowsAfter(table: seq<UsageRow>, position: Option<UsageKey>): seq<UsageRow> {
    if table == [] then []
    else if position.None? || KeyLess(position.value, table[0].key) then [table[0]] + RowsAfter(table[1..], position)
    else RowsAfter(table[1..], position)
  }

  function ListUsageDaily(table: seq<UsageRow>, position: Option<UsageKey>, pageSize: nat): seq<UsageRow> {
    Take(RowsAfter(table, position), pageSize + 1)
  }

  function ListUsage(hmac: Hmac, table: seq<UsageRow>, cursor: Option<string>, pageSize: Option<int>): Result<UsagePage, UsageError> {
    match ValidatedPageSize(pageSize)
    case None => Err(InvalidPageSize)
    case Some(size) =>
      match DecodeUsageCursor(hmac, cursor)
      case Err(_) => Err(InvalidCursor)
      case Ok(position) => Ok(PageOf(hmac, ListUsageDaily(table, position, size), size))
  }

  /** A request is refused for its page size first, and for its cursor only if the size is legal. */
  lemma RefusedExactly(hmac: Hmac, table: seq<UsageRow>, cursor: Option<string>, pageSize: Option<int>)
    ensures
      var r, legal := ListUsage(hmac, table, cursor, pageSize), pageSize.None? || 1 <= pageSize.value <= 200;
      && (r == Err(InvalidPageSize) <==> !legal)
      && (r == Err(InvalidCursor) <==> legal && DecodeUsageCursor(hmac, cursor).Err?)
      && (r.Ok? <==> legal && DecodeUsageCursor(hmac, cursor).Ok?)
  {
  }

  /** The page made of the rows read, of which the last may only say that there is more. */
  function PageOf(hmac: Hmac, rows: seq<UsageRow>, size: nat): UsagePage {
    var hasMore := |rows| > size;
    var items := Take(rows, size);
    var nextKey := if hasMore && items != [] then Some(UsageCursorKey(items[|items| - 1].key)) else None;
    UsagePage(items, CursorPageInfo(hmac, size, hasMore, nextKey))
  }

  // ----- Following the tokens -----

  lemma {:induction false} RowsAfterAreRows(table: seq<UsageRow>, position: Option<UsageKey>, row: UsageRow)
    requires row in RowsAfter(table, position)
    ensures row in table
  {
    if row != table[0] {
      RowsAfterAreRows(table[1..], position, row);
    }
  }

  lemma {:induction false} RowsAfterKeepsOrder(table: seq<UsageRow>, position: Option<UsageKey>)
    requires Ascending(table)
    ensures Ascending(RowsAfter(table, position))
  {
    if table != [] {
      var all, rest := RowsAfter(table, position), RowsAfter(table[1..], position);
      RowsAfterKeepsOrder(table[1..], position);
      forall j | 0 <= j < |rest|
        ensures KeyLess(table[0].key, rest[j].key)
      {
        RowsAfterAreRows(table[1..], position, rest[j]);
      }
      assert all == rest || all == [table[0]] + rest;
    }
  }

  lemma {:induction false} AllRows(table: seq<UsageRow>)
    ensures RowsAfter(table, None) == table
  {
    if table != [] {
      AllRows(table[1..]);
    }
  }

  lemma {:induction false} AllAfter(table: seq<UsageRow>, position: UsageKey)
    requires forall row | row in table :: KeyLess(position, row.key)
    ensures RowsAfter(table, Some(position)) == table
  {
    if table != [] {
      AllAfter(table[1..], position);
    }
  }

  lemma {:induction false} NoneAfter(table: seq<UsageRow>, position: UsageKey)
    requires forall row | row in table :: !KeyLess(position, row.key)
    ensures RowsAfter(table, Some(position)) == []
  {
    if table != [] {
      NoneAfter(table[1..], position);
    }
  }

  lemma TailAfter(table: seq<UsageRow>, position: Option<UsageKey>)
    requires Ascending(table) && table != []
    requires position.None? || KeyLess(position.value, table[0].key)
    ensures RowsAfter(table[1..], position) == table[1..]
    ensures RowsAfter(table, Some(table[0].key)) == table[1..]
  {
    var first, rest := table[0], table[1..];
    assert forall row | row in rest :: KeyLess(first.key, row.key);
    KeyOrder(first.key, first.key, first.key);
    AllAfter(rest, first.key);
    if position.Some? {
      forall row | row in rest
        ensures KeyLess(position.value, row.key)
      {
        KeyOrder(position.value, first.key, row.key);
      }
      AllAfter(rest, position.value);
    } else {
      AllRows(rest);
    }
  }

  /** Above a later row the first row of the table does not come again. */
  lemma FirstIsBelow(table: seq<UsageRow>, row: UsageRow)
    requires Ascending(table) && table != [] && row in table[1..]
    ensures RowsAfter(table, Some(row.key)) == RowsAfter(table[1..], Some(row.key))
  {
    assert KeyLess(table[0].key, row.key);
    KeyOrder(table[0].key, row.key, table[0].key);
  }

  lemma {:induction false} ResumeInTable(table: seq<UsageRow>, i: nat)
    requires Ascending(table) && i < |table|
    ensures RowsAfter(table, Some(table[i].key)) == table[i + 1..]
  {
    if i == 0 {
      TailAfter(table, None);
    } else {
      FirstIsBelow(table, table[i]);
      ResumeInTable(table[1..], i - 1);
      assert table[1..][i - 1 + 1..] == table[i + 1..];
    }
  }

  /** Resuming above the i-th row of a result continues with the row after it. */
  lemma {:induction false} ResumeAfter(table: seq<UsageRow>, position: Option<UsageKey>, i: nat)
    requires Ascending(table) && i < |RowsAfter(table, position)|
    ensures RowsAfter(table, Some(RowsAfter(table, position)[i].key)) == RowsAfter(table, position)[i + 1..]
    decreases |table|
  {
    if position.None? || KeyLess(position.value, table[0].key) {
      TailAfter(table, position);
      assert RowsAfter(table, position) == table;
      ResumeInTable(table, i);
    } else {
      RowsAfterAreRows(table[1..], position, RowsAfter(table, position)[i]);
      FirstIsBelow(table, RowsAfter(table, position)[i]);
      ResumeAfter(table[1..], position, i);
    }
  }

  ghost predicate SeparatorFreeDays(table: seq<UsageRow>) {
    forall row | row in table :: SEPARATOR !in row.key.day
  }

  /** One row more than the page is enough to build it. */
  lemma PageOfRows(hmac: Hmac, all: seq<UsageRow>, size: nat)
    requires size > 0
    ensures
      var page := PageOf(hmac, Take(all, size + 1), size);
      && page.items == Take(all, size) && page.info.hasMore == (|all| > size)
      && page.info.nextCursor ==
           if |all| > size then Some(EncodeListCursor(hmac, UsageCursorKey(all[size - 1].key))) else None
  {
    TakeTwice(all, size);
  }

  lemma TokenResumes(hmac: Hmac, table: seq<UsageRow>, position: Option<UsageKey>, i: nat)
    requires Ascending(table) && SeparatorFreeDays(table) && i < |RowsAfter(table, position)|
    ensures
      var all := RowsAfter(table, position);
      var token := EncodeListCursor(hmac, UsageCursorKey(all[i].key));
      DecodeUsageCursor(hmac, Some(token)) == Ok(Some(all[i].key)) && RowsAfter(table, Some(all[i].key)) == all[i + 1..]
  {
    var all := RowsAfter(table, position);
    RowsAfterAreRows(table, position, all[i]);
    UsageCursorRoundTrip(hmac, all[i].key);
    ResumeAfter(table, position, i);
  }

  /** The rows a cursor still leads to. */
  function Rest(hmac: Hmac, table: seq<UsageRow>, cursor: Option<string>): seq<UsageRow> {
    var position := DecodeUsageCursor(hmac, cursor);
    if position.Ok? then RowsAfter(table, position.value) else []
  }

  /** A cursor decodes to the position that has `rows` above it. */
  ghost predicate LeadsTo(hmac: Hmac, table: seq<UsageRow>, cursor: Option<string>, rows: seq<UsageRow>) {
    DecodeUsageCursor(hmac, cursor).Ok? && RowsAfter(table, DecodeUsageCursor(hmac, cursor).value) == rows
  }

  /** The page holds the first `size` of `all`, and has a token, which leads to the others, exactly
      when there are others. */
  ghost predicate IsStretch(hmac: Hmac, table: seq<UsageRow>, page: UsagePage, all: seq<UsageRow>, size: nat) {
    && page.items == Take(all, size)
    && page.info.hasMore == (|all| > size)
    && (page.info.nextCursor.Some? <==> |all| > size)
    && (|all| > size ==> LeadsTo(hmac, table, page.info.nextCursor, all[size..]))
  }

  lemma StretchAt(hmac: Hmac, table: seq<UsageRow>, position: Option<UsageKey>, size: nat)
    requires Ascending(table) && SeparatorFreeDays(table) && size > 0
    ensures IsStretch(hmac, table, PageOf(hmac, ListUsageDaily(table, position, size), size), RowsAfter(table, position), size)
  {
    PageOfRows(hmac, RowsAfter(table, position), size);
    if |RowsAfter(table, position)| > size {
      TokenResumes(hmac, table, position, size - 1);
    }
  }

  /** One page is the next stretch of the rows above the position, and its token resumes exactly
      after it; there is a token exactly when rows are left. */
  lemma PageIsNextStretch(hmac: Hmac, table: seq<UsageRow>, cursor: Option<string>, pageSize: Option<int>)
    requires Ascending(table) && SeparatorFreeDays(table)
    requires ListUsage(hmac, table, cursor, pageSize).Ok?
    ensures IsStretch(hmac, table, ListUsage(hmac, table, cursor, pageSize).value, Rest(hmac, table, cursor), ValidatedPageSize(pageSize).value)
  {
    StretchAt(hmac, table, DecodeUsageCursor(hmac, cursor).value, ValidatedPageSize(pageSize).value);
  }

  lemma TakeTwice<T>(s: seq<T>, n: nat)
    ensures Take(Take(s, n + 1), n) == Take(s, n)
  {
  }

  /** What a client collects by following `nextCursor` until it is absent. */
  function Follow(hmac: Hmac, table: seq<UsageRow>, cursor: Option<string>, pageSize: Option<int>): Result<seq<UsageRow>, UsageError>
    requires Ascending(table) && SeparatorFreeDays(table)
    decreases
      var position := DecodeUsageCursor(hmac, cursor);
      if position.Ok? then |RowsAfter(table, position.value)| else 0
  {
    match ListUsage(hmac, table, cursor, pageSize)
    case Err(error) => Err(error)
    case Ok(page) =>
      if page.info.nextCursor.None? then Ok(page.items)
      else
        PageIsNextStretch(hmac, table, cursor, pageSize);
        match Follow(hmac, table, page.info.nextCursor, pageSize)
        case Err(error) => Err(error)
        case Ok(rest) => Ok(page.items + rest)
  }

  lemma FollowLastPage(hmac: Hmac, table: seq<UsageRow>, cursor: Option<string>, pageSize: Option<int>)
    requires Ascending(table) && SeparatorFreeDays(table)
    requires ListUsage(hmac, table, cursor, pageSize).Ok?
    requires |Rest(hmac, table, cursor)| <= ValidatedPageSize(pageSize).value
    ensures Follow(hmac, table, cursor, pageSize) == Ok(Rest(hmac, table, cursor))
  {
    PageIsNextStretch(hmac, table, cursor, pageSize);
  }

  /** A page with a next token leaves the rest to that token. */
  lemma NextTokenLeadsOn(hmac: Hmac, table: seq<UsageRow>, cursor: Option<string>, pageSize: Option<int>)
    requires Ascending(table) && SeparatorFreeDays(table)
    requires ListUsage(hmac, table, cursor, pageSize).Ok?
    requires |Rest(hmac, table, cursor)| > ValidatedPageSize(pageSize).value
    ensures
      var page := ListUsage(hmac, table, cursor, pageSize).value;
      var next := page.info.nextCursor;
      && next.Some? && DecodeUsageCursor(hmac, next).Ok?
      && page.items + Rest(hmac, table, next) == Rest(hmac, table, cursor)
      && |Rest(hmac, table, next)| < |Rest(hmac, table, cursor)|
  {
    PageIsNextStretch(hmac, table, cursor, pageSize);
    TakenAndRest(Rest(hmac, table, cursor), ValidatedPageSize(pageSize).value);
  }

  lemma TakenAndRest<T>(s: seq<T>, n: nat)
    requires 0 < n < |s|
    ensures Take(s, n) + s[n..] == s && |s[n..]| < |s|
  {
  }

  lemma FollowUnfolds(hmac: Hmac, table: seq<UsageRow>, cursor: Option<string>, pageSize: Option<int>, rest: seq<UsageRow>)
    requires Ascending(table) && SeparatorFreeDays(table) && ListUsage(hmac, table, cursor, pageSize).Ok?
    requires
      var next := ListUsage(hmac, table, cursor, pageSize).value.info.nextCursor;
      next.Some? && Follow(hmac, table, next, pageSize) == Ok(rest)
    ensures Follow(hmac, table, cursor, pageSize) == Ok(ListUsage(hmac, table, cursor, pageSize).value.items + rest)
  {
  }

  lemma {:induction false} FollowCollectsTheRest(hmac: Hmac, table: seq<UsageRow>, cursor: Option<string>, pageSize: Option<int>)
    requires Ascending(table) && SeparatorFreeDays(table)
    requires ValidatedPageSize(pageSize).Some? && DecodeUsageCursor(hmac, cursor).Ok?
    ensures Follow(hmac, table, cursor, pageSize) == Ok(Rest(hmac, table, cursor))
    decreases |Rest(hmac, table, cursor)|
  {
    if |Rest(hmac, table, cursor)| > ValidatedPageSize(pageSize).value {
      var next := ListUsage(hmac, table, cursor, pageSize).value.info.nextCursor;
      NextTokenLeadsOn(hmac, table, cursor, pageSize);
      FollowCollectsTheRest(hmac, table, next, pageSize);
      FollowUnfolds(hmac, table, cursor, pageSize, Rest(hmac, table, next));
    } else {
      FollowLastPage(hmac, table, cursor, pageSize);
    }
  }

  /** From the first page, for every legal page size, the client gets every row of the tenant
      exactly once and in ascending order: the result is the table itself. */
  lemma FollowVisitsEveryRowOnce(hmac: Hmac, table: seq<UsageRow>, pageSize: Option<int>)
    requires Ascending(table) && SeparatorFreeDays(table)
    requires pageSize.None? || 1 <= pageSize.value <= MAX_PAGE_SIZE
    ensures Follow(hmac, table, None, pageSize) == Ok(table)
  {
    FollowCollectsTheRest(hmac, table, None, pageSize);
    AllRows(table);
  }
}
