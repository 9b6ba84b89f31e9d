/** Cursor pagination over an in-memory collection: "resume after this key" against a
    collection that may change between pages. Cursors are the keys they encode. */
module CursorPagination {
  import opened Wrappers

  /** Primary sort column and unique tie-breaker. */
  datatype Key = Key(t: int, i: string)

  datatype Row = Row(key: Key, data: string)

  datatype Order = Asc | Desc

  datatype Page = Page(items: seq<Row>, nextCursor: Option<Key>, hasMore: bool, limit: nat)

  /** The comparison of ids the runtime's collation provides. */
  type Collation = (string, string) -> int

  const MIN_PAGE_SIZE: nat := 1
  const MAX_PAGE_SIZE: nat := 100

  function ClampLimit(limit: Option<int>, defaultLimit: nat): Result<nat, string> {
    match limit
    case None => Ok(defaultLimit)
    case Some(n) =>
      if n < MIN_PAGE_SIZE then Err("Limit must be greater than 0")
      else if n > MAX_PAGE_SIZE then Err("Limit cannot exceed 100")
      else Ok(n)
  }

  function CompareAsc(c: Collation, a: Key, b: Key): int {
    if a.t != b.t then a.t - b.t else c(a.i, b.i)
  }

  function CompareDesc(c: Collation, a: Key, b: Key): int {
    if a.t != b.t then b.t - a.t else c(a.i, b.i)
  }

  function Compare(c: Collation, order: Order, a: Key, b: Key): int {
    if order == Asc then CompareAsc(c, a, b) else CompareDesc(c, a, b)
  }

  predicate IsAfterCursor(c: Collation, item: Key, cursor: Key, order: Order) {
    if order == Asc then CompareAsc(c, item, cursor) > 0
    else if item.t != cursor.t then item.t < cursor.t
    else c(item.i, cursor.i) > 0
  }

  /** The runtime's sort is stable: a row goes behind those that compare equal to it. */
  function Insert(c: Collation, order: Order, sorted: seq<Row>, row: Row): seq<Row> {
    if sorted == [] then [row]
    else
      var last := sorted[|sorted| - 1];
      if Compare(c, order, row.key, last.key) < 0 then
        Insert(c, order, sorted[..|sorted| - 1], row) + [last]
      else sorted + [row]
  }

  function Sort(c: Collation, order: Order, rows: seq<Row>): seq<Row> {
    if rows == [] then []
    else Insert(c, order, Sort(c, order, rows[..|rows| - 1]), rows[|rows| - 1])
  }

  /** The index of the first row at or after `from` with exactly this key, or the length. */
  function FindKey(rows: seq<Row>, key: Key, from: nat): (i: nat)
    requires from <= |rows|
    ensures from <= i <= |rows|
    ensures i < |rows| ==> rows[i].key == key
    ensures forall k :: from <= k < i ==> rows[k].key != key
    decreases |rows| - from
  {
    if from == |rows| || rows[from].key == key then from else FindKey(rows, key, from + 1)
  }

  /** The index of the first row at or after `from` that sorts after the cursor. */
  function FindAfter(c: Collation, order: Order, rows: seq<Row>, key: Key, from: nat): (i: nat)
    requires from <= |rows|
    ensures from <= i <= |rows|
    ensures i < |rows| ==> IsAfterCursor(c, rows[i].key, key, order)
    ensures forall k :: from <= k < i ==> !IsAfterCursor(c, rows[k].key, key, order)
    decreases |rows| - from
  {
    if from == |rows| || IsAfterCursor(c, rows[from].key, key, order) then from
    else FindAfter(c, order, rows, key, from + 1)
  }

  function StartIndex(c: Collation, order: Order, sorted: seq<Row>, cursor: Option<Key>): (i: nat)
    ensures i <= |sorted|
  {
    match cursor
    case None => 0
    case Some(key) =>
      var exact := FindKey(sorted, key, 0);
      if exact < |sorted| then exact + 1 else FindAfter(c, order, sorted, key, 0)
  }

  /** Encoding a cursor fails on an empty id. */
  function BuildPage(overfetched: seq<Row>, limit: nat): Result<Page, string> {
    var hasMore := |overfetched| > limit;
    var items := if hasMore then overfetched[..limit] else overfetched;
    if hasMore && items != [] then
      var key := items[|items| - 1].key;
      if key.i == "" then Err("Cannot encode cursor: invalid key")
      else Ok(Page(items, Some(key), hasMore, limit))
    else Ok(Page(items, None, hasMore, limit))
  }

  function Paginate(c: Collation, order: Order, rows: seq<Row>, cursor: Option<Key>,
                    limit: Option<int>, defaultLimit: nat): Result<Page, string>
  {
    match ClampLimit(limit, defaultLimit)
    case Err(e) => Err(e)
    case Ok(n) =>
      var sorted := Sort(c, order, rows);
      var start := StartIndex(c, order, sorted, cursor);
      var end := if start + n + 1 <= |sorted| then start + n + 1 else |sorted|;
      BuildPage(sorted[start..end], n)
  }

  // ---------------------------------------------------------------------------------------
  // The order
  // ---------------------------------------------------------------------------------------

  /** The collation is a strict total order on ids. */
  ghost predicate IsOrder(c: Collation) {
    && (forall a, b :: c(a, b) == 0 <==> a == b)
    && (forall a, b :: c(a, b) < 0 <==> c(b, a) > 0)
    && (forall a, b, d :: c(a, b) < 0 && c(b, d) < 0 ==> c(a, d) < 0)
  }

  ghost predicate Before(c: Collation, order: Order, a: Key, b: Key) { Compare(c, order, a, b) < 0 }

  lemma OrderLaws(c: Collation, order: Order, a: Key, b: Key, d: Key)
    requires IsOrder(c)
    ensures Before(c, order, a, b) || a == b || Before(c, order, b, a)
    ensures !(Before(c, order, a, b) && Before(c, order, b, a)) && !Before(c, order, a, a)
    ensures Before(c, order, a, b) && Before(c, order, b, d) ==> Before(c, order, a, d)
    ensures IsAfterCursor(c, a, b, order) <==> Before(c, order, b, a)
  {
  }

  ghost predicate Distinct(rows: seq<Row>) {
    forall i, j :: 0 <= i < j < |rows| ==> rows[i].key != rows[j].key
  }

  ghost predicate Ordered(c: Collation, order: Order, rows: seq<Row>) {
    forall i, j :: 0 <= i < j < |rows| ==> Before(c, order, rows[i].key, rows[j].key)
  }

  lemma {:induction false} InsertAdds(c: Collation, order: Order, s: seq<Row>, row: Row)
    ensures multiset(Insert(c, order, s, row)) == multiset(s) + multiset{row}
  {
    if s != [] {
      var front, last := s[..|s| - 1], s[|s| - 1];
      assert s == front + [last];
      InsertAdds(c, order, front, row);
    }
  }

  lemma InsertHas(c: Collation, order: Order, s: seq<Row>, row: Row, r: Row)
    ensures r in Insert(c, order, s, row) <==> r in s || r == row
  {
    InsertAdds(c, order, s, row);
    assert r in multiset(Insert(c, order, s, row)) <==> r in multiset(s) || r == row;
  }

  lemma {:induction false} InsertKeeps(c: Collation, order: Order, s: seq<Row>, row: Row)
    requires IsOrder(c) && Ordered(c, order, s)
    requires forall k :: 0 <= k < |s| ==> s[k].key != row.key
    ensures Ordered(c, order, Insert(c, order, s, row))
  {
    hide IsOrder, Compare;
    if s != [] {
      var front, last := s[..|s| - 1], s[|s| - 1];
      OrderLaws(c, order, row.key, last.key, last.key);
      if Before(c, order, row.key, last.key) {
        InsertKeeps(c, order, front, row);
        var r := Insert(c, order, front, row);
        forall k | 0 <= k < |r| ensures Before(c, order, r[k].key, last.key) {
          InsertHas(c, order, front, row, r[k]);
        }
        assert Insert(c, order, s, row) == r + [last];
      } else {
        forall k | 0 <= k < |s| ensures Before(c, order, s[k].key, row.key) {
          OrderLaws(c, order, s[k].key, last.key, row.key);
        }
        assert Insert(c, order, s, row) == s + [row];
      }
    }
  }

  /** Sorting rows with distinct keys puts exactly those rows in strict order. */
  lemma {:induction false} SortSorts(c: Collation, order: Order, rows: seq<Row>)
    requires IsOrder(c) && Distinct(rows)
    ensures Ordered(c, order, Sort(c, order, rows))
    ensures multiset(Sort(c, order, rows)) == multiset(rows)
    ensures |Sort(c, order, rows)| == |rows|
  {
    if rows != [] {
      var front, last := rows[..|rows| - 1], rows[|rows| - 1];
      assert rows == front + [last];
      SortSorts(c, order, front);
      var s := Sort(c, order, front);
      forall k | 0 <= k < |s| ensures s[k].key != last.key {
        assert s[k] in multiset(s);
        assert s[k] in multiset(front);
      }
      InsertKeeps(c, order, s, last);
      InsertAdds(c, order, s, last);
    }
    assert |multiset(Sort(c, order, rows))| == |multiset(rows)|;
  }

  lemma SortHas(c: Collation, order: Order, rows: seq<Row>, r: Row)
    requires IsOrder(c) && Distinct(rows)
    ensures r in Sort(c, order, rows) <==> r in rows
  {
    SortSorts(c, order, rows);
    assert r in multiset(Sort(c, order, rows)) <==> r in multiset(rows);
  }

  // ---------------------------------------------------------------------------------------
  // One page
  // ---------------------------------------------------------------------------------------

  ghost predicate Past(c: Collation, order: Order, cursor: Option<Key>, key: Key) {
    cursor.None? || Before(c, order, cursor.value, key)
  }

  /** The start index splits the sorted rows at the cursor, whether or not its row exists. */
  lemma StartSplits(c: Collation, order: Order, s: seq<Row>, cursor: Option<Key>, k: nat)
    requires IsOrder(c) && Ordered(c, order, s) && k < |s|
    ensures k >= StartIndex(c, order, s, cursor) <==> Past(c, order, cursor, s[k].key)
  {
    hide IsOrder, Compare, IsAfterCursor;
    if cursor.Some? {
      var key, start := cursor.value, StartIndex(c, order, s, cursor);
      var exact := FindKey(s, key, 0);
      if exact < |s| {
        OrderLaws(c, order, s[k].key, key, key);
      } else {
        OrderLaws(c, order, s[k].key, key, key);
        if start < |s| {
          OrderLaws(c, order, key, s[start].key, s[k].key);
          OrderLaws(c, order, s[start].key, key, key);
        }
      }
    }
  }

  /** What is left to emit after a cursor. */
  ghost function Rest(c: Collation, order: Order, rows: seq<Row>, cursor: Option<Key>): seq<Row> {
    var s := Sort(c, order, rows);
    s[StartIndex(c, order, s, cursor)..]
  }

  lemma RestHas(c: Collation, order: Order, s: seq<Row>, cursor: Option<Key>, r: Row)
    requires IsOrder(c) && Ordered(c, order, s)
    ensures r in s[StartIndex(c, order, s, cursor)..] <==> r in s && Past(c, order, cursor, r.key)
  {
    hide IsOrder, Past, StartIndex, Before;
    var start := StartIndex(c, order, s, cursor);
    var rest := s[start..];
    if r in rest {
      var k :| 0 <= k < |rest| && rest[k] == r;
      StartSplits(c, order, s, cursor, start + k);
    }
    if r in s && Past(c, order, cursor, r.key) {
      var k :| 0 <= k < |s| && s[k] == r;
      StartSplits(c, order, s, cursor, k);
      assert rest[k - start] == r;
    }
  }

  /** The rest is everything strictly after the cursor, in order. */
  lemma RestIsEverythingAfter(c: Collation, order: Order, rows: seq<Row>, cursor: Option<Key>)
    requires IsOrder(c) && Distinct(rows)
    ensures Ordered(c, order, Rest(c, order, rows, cursor))
    ensures forall r :: r in Rest(c, order, rows, cursor) <==> r in rows && Past(c, order, cursor, r.key)
  {
    hide IsOrder, Past, StartIndex, Before;
    SortSorts(c, order, rows);
    var s := Sort(c, order, rows);
    var start := StartIndex(c, order, s, cursor);
    var rest := Rest(c, order, rows, cursor);
    forall r ensures r in rest <==> r in rows && Past(c, order, cursor, r.key) {
      SortHas(c, order, rows, r);
      RestHas(c, order, s, cursor, r);
    }
  }

  ghost predicate Wellformed(rows: seq<Row>) {
    Distinct(rows) && forall k :: 0 <= k < |rows| ==> rows[k].key.i != ""
  }

  predicate ValidLimit(limit: int) { MIN_PAGE_SIZE <= limit <= MAX_PAGE_SIZE }

  /** A page is the next `limit` rows of the rest; it has a cursor exactly when there is more,
      and that cursor is its last row's key. */
  lemma PageIsNextRows(c: Collation, order: Order, rows: seq<Row>, cursor: Option<Key>, limit: int, defaultLimit: nat)
    requires IsOrder(c) && Wellformed(rows) && ValidLimit(limit)
    ensures var rest := Rest(c, order, rows, cursor);
            var result := Paginate(c, order, rows, cursor, Some(limit), defaultLimit);
            && result.Ok?
            && result.value.hasMore == (|rest| > limit)
            && result.value.items == (if |rest| > limit then rest[..limit] else rest)
            && result.value.nextCursor == (if |rest| > limit then Some(rest[limit - 1].key) else None)
            && result.value.limit == limit
  {
    hide IsOrder, StartIndex, Sort, BuildPage;
    var s := Sort(c, order, rows);
    var start := StartIndex(c, order, s, cursor);
    var rest := Rest(c, order, rows, cursor);
    var end := if start + limit + 1 <= |s| then start + limit + 1 else |s|;
    assert s[start..end] == rest[..end - start];
    if |rest| > limit {
      SortHas(c, order, rows, rest[limit - 1]);
      assert rest[limit - 1] in s;
    }
    OverfetchIsCut(rest, end - start, limit);
  }

  /** From one row more than a page holds, the page and its cursor follow. */
  lemma OverfetchIsCut(rest: seq<Row>, fetched: nat, limit: nat)
    requires fetched <= |rest| && limit > 0 && fetched == if |rest| > limit then limit + 1 else |rest|
    requires |rest| > limit ==> rest[limit - 1].key.i != ""
    ensures BuildPage(rest[..fetched], limit)
            == Ok(Page(if |rest| > limit then rest[..limit] else rest,
                       if |rest| > limit then Some(rest[limit - 1].key) else None,
                       |rest| > limit, limit))
  {
    if |rest| > limit {
      assert rest[..fetched][..limit] == rest[..limit];
    } else {
      assert rest[..fetched] == rest;
    }
  }

  // ---------------------------------------------------------------------------------------
  // A whole walk over a changing collection
  // ---------------------------------------------------------------------------------------

  datatype Walked = Walked(emitted: seq<Row>, ended: bool)

  /** Follow nextCursor: request n sees the collection `snaps[n]` and asks for `limits[n]`. */
  function Walk(c: Collation, order: Order, snaps: seq<seq<Row>>, limits: seq<int>, cursor: Option<Key>): Walked
    requires |snaps| == |limits|
    decreases |snaps|
  {
    if snaps == [] then Walked([], false)
    else
      match Paginate(c, order, snaps[0], cursor, Some(limits[0]), 25)
      case Err(_) => Walked([], false)
      case Ok(page) =>
        if page.nextCursor.None? then Walked(page.items, true)
        else
          var rest := Walk(c, order, snaps[1..], limits[1..], page.nextCursor);
          Walked(page.items + rest.emitted, rest.ended)
  }

  ghost predicate GoodRequests(snaps: seq<seq<Row>>, limits: seq<int>) {
    && |snaps| == |limits|
    && (forall n :: 0 <= n < |snaps| ==> Wellformed(snaps[n]) && ValidLimit(limits[n]))
  }

  ghost predicate HasKey(rows: seq<Row>, key: Key) { exists r :: r in rows && r.key == key }

  lemma PageIsPast(c: Collation, order: Order, rows: seq<Row>, cursor: Option<Key>, limit: int)
    requires IsOrder(c) && Wellformed(rows) && ValidLimit(limit)
    ensures var result := Paginate(c, order, rows, cursor, Some(limit), 25);
            && result.Ok?
            && Ordered(c, order, result.value.items)
            && (forall r :: r in result.value.items ==> Past(c, order, cursor, r.key))
            && (result.value.nextCursor.Some? ==>
                  var items := result.value.items;
                  items != [] && result.value.nextCursor.value == items[|items| - 1].key)
  {
    hide IsOrder, Before, Paginate, Rest, Past;
    PageIsNextRows(c, order, rows, cursor, limit, 25);
    RestIsEverythingAfter(c, order, rows, cursor);
    var rest := Rest(c, order, rows, cursor);
    assert forall r :: r in Paginate(c, order, rows, cursor, Some(limit), 25).value.items ==> r in rest;
  }

  lemma {:induction false} WalkStaysPast(
    c: Collation, order: Order, snaps: seq<seq<Row>>, limits: seq<int>, cursor: Option<Key>)
    requires IsOrder(c) && GoodRequests(snaps, limits)
    ensures forall r :: r in Walk(c, order, snaps, limits, cursor).emitted ==> Past(c, order, cursor, r.key)
    ensures Ordered(c, order, Walk(c, order, snaps, limits, cursor).emitted)
    decreases |snaps|
  {
    hide IsOrder, Ordered, Paginate, Past, Wellformed, ValidLimit;
    if snaps == [] {
      NothingIsOrdered(c, order);
    } else {
      PageIsPast(c, order, snaps[0], cursor, limits[0]);
      var page := Paginate(c, order, snaps[0], cursor, Some(limits[0]), 25).value;
      if page.nextCursor.Some? {
        WalkStaysPast(c, order, snaps[1..], limits[1..], page.nextCursor);
        var later := Walk(c, order, snaps[1..], limits[1..], page.nextCursor).emitted;
        LaterPagesFollow(c, order, page.items, later, cursor);
      }
    }
  }

  lemma NothingIsOrdered(c: Collation, order: Order)
    ensures Ordered(c, order, [])
  {
  }

  /** A walk emits only rows that some request saw. */
  lemma {:induction false} WalkShowsRows(
    c: Collation, order: Order, snaps: seq<seq<Row>>, limits: seq<int>, cursor: Option<Key>, r: Row)
    requires IsOrder(c) && GoodRequests(snaps, limits) && r in Walk(c, order, snaps, limits, cursor).emitted
    ensures exists n :: 0 <= n < |snaps| && r in snaps[n]
    decreases |snaps|
  {
    hide IsOrder, Past, Paginate, Rest, Ordered;
    var rest := Rest(c, order, snaps[0], cursor);
    PageIsNextRows(c, order, snaps[0], cursor, limits[0], 25);
    RestIsEverythingAfter(c, order, snaps[0], cursor);
    var page := Paginate(c, order, snaps[0], cursor, Some(limits[0]), 25).value;
    if r in page.items {
      assert r in rest;
    } else {
      WalkShowsRows(c, order, snaps[1..], limits[1..], page.nextCursor, r);
      var n :| 0 <= n < |snaps[1..]| && r in snaps[1..][n];
      assert r in snaps[n + 1];
    }
  }

  /** Rows past the last key of a page can follow the page. */
  lemma LaterPagesFollow(c: Collation, order: Order, items: seq<Row>, later: seq<Row>, cursor: Option<Key>)
    requires IsOrder(c) && items != [] && Ordered(c, order, items) && Ordered(c, order, later)
    requires forall r :: r in items ==> Past(c, order, cursor, r.key)
    requires forall r :: r in later ==> Past(c, order, Some(items[|items| - 1].key), r.key)
    ensures Ordered(c, order, items + later)
    ensures forall r :: r in items + later ==> Past(c, order, cursor, r.key)
  {
    hide IsOrder, Compare;
    var last := items[|items| - 1];
    assert last in items;
    forall i, j | 0 <= i < |items| && 0 <= j < |later|
      ensures Before(c, order, items[i].key, later[j].key)
    {
      assert later[j] in later;
      OrderLaws(c, order, items[i].key, last.key, later[j].key);
    }
    forall r | r in later ensures Past(c, order, cursor, r.key) {
      if cursor.Some? { OrderLaws(c, order, cursor.value, last.key, r.key); }
    }
  }

  /** A walk that ends has emitted every key present throughout. */
  lemma {:induction false} WalkIsComplete(
    c: Collation, order: Order, snaps: seq<seq<Row>>, limits: seq<int>, cursor: Option<Key>, key: Key)
    requires IsOrder(c) && GoodRequests(snaps, limits)
    requires Walk(c, order, snaps, limits, cursor).ended
    requires forall n :: 0 <= n < |snaps| ==> HasKey(snaps[n], key)
    requires Past(c, order, cursor, key)
    ensures HasKey(Walk(c, order, snaps, limits, cursor).emitted, key)
    decreases |snaps|
  {
    hide IsOrder, Before, Paginate, Rest;
    var limit, rest := limits[0], Rest(c, order, snaps[0], cursor);
    PageIsNextRows(c, order, snaps[0], cursor, limit, 25);
    RestIsEverythingAfter(c, order, snaps[0], cursor);
    var page := Paginate(c, order, snaps[0], cursor, Some(limit), 25).value;
    var row :| row in snaps[0] && row.key == key;
    assert row in rest;
    if row !in page.items {
      var next := page.nextCursor;
      var k :| 0 <= k < |rest| && rest[k] == row;
      assert forall m :: 0 <= m < |page.items| ==> page.items[m] == rest[m] && page.items[m] in page.items;
      assert Before(c, order, rest[limit - 1].key, rest[k].key);
      forall n | 0 <= n < |snaps[1..]| ensures HasKey(snaps[1..][n], key) {
        assert snaps[1..][n] == snaps[n + 1];
      }
      WalkIsComplete(c, order, snaps[1..], limits[1..], next, key);
      var found :| found in Walk(c, order, snaps[1..], limits[1..], next).emitted && found.key == key;
      assert found in Walk(c, order, snaps, limits, cursor).emitted;
    } else {
      assert row in Walk(c, order, snaps, limits, cursor).emitted;
    }
  }

  /** Following nextCursor to the end, while rows come and go between requests and whatever the
      page sizes: the output is in strict sort order, so no key comes twice; it holds only rows
      seen in some request; and every key present in all requests comes exactly once. */
  lemma TraversalIsExact(c: Collation, order: Order, snaps: seq<seq<Row>>, limits: seq<int>)
    requires IsOrder(c) && GoodRequests(snaps, limits)
    requires Walk(c, order, snaps, limits, None).ended
    ensures var emitted := Walk(c, order, snaps, limits, None).emitted;
            && Ordered(c, order, emitted)
            && Distinct(emitted)
            && (forall r :: r in emitted ==> exists n :: 0 <= n < |snaps| && r in snaps[n])
            && (forall key :: (forall n :: 0 <= n < |snaps| ==> HasKey(snaps[n], key)) ==> HasKey(emitted, key))
  {
    hide IsOrder, Compare, Walk;
    WalkStaysPast(c, order, snaps, limits, None);
    var emitted := Walk(c, order, snaps, limits, None).emitted;
    forall i, j | 0 <= i < j < |emitted| ensures emitted[i].key != emitted[j].key {
      OrderLaws(c, order, emitted[i].key, emitted[j].key, emitted[j].key);
    }
    forall r | r in emitted ensures exists n :: 0 <= n < |snaps| && r in snaps[n] {
      WalkShowsRows(c, order, snaps, limits, None, r);
    }
    forall key | forall n :: 0 <= n < |snaps| ==> HasKey(snaps[n], key) ensures HasKey(emitted, key) {
      WalkIsComplete(c, order, snaps, limits, None, key);
    }
  }

  // ---------------------------------------------------------------------------------------
  // Which way the order goes, and when a request fails
  // ---------------------------------------------------------------------------------------

  /** Before means older first under asc and newer first under desc, and the smaller id first
      among equal times under both. */
  lemma BeforeMeans(c: Collation, order: Order, a: Key, b: Key)
    requires IsOrder(c)
    ensures Before(c, order, a, b)
            <==> || (order == Asc && a.t < b.t)
                 || (order == Desc && a.t > b.t)
                 || (a.t == b.t && c(a.i, b.i) < 0)
  {
  }

  /** Whatever changes between requests, what a walk emits goes forward in time under asc and
      back under desc, and by increasing id among equal times under both. */
  lemma TraversalGoesOneWay(c: Collation, order: Order, snaps: seq<seq<Row>>, limits: seq<int>, i: nat, j: nat)
    requires IsOrder(c) && GoodRequests(snaps, limits)
    requires i < j < |Walk(c, order, snaps, limits, None).emitted|
    ensures var emitted := Walk(c, order, snaps, limits, None).emitted;
            var a, b := emitted[i].key, emitted[j].key;
            && (order == Asc ==> a.t <= b.t)
            && (order == Desc ==> a.t >= b.t)
            && (a.t == b.t ==> c(a.i, b.i) < 0)
  {
    hide IsOrder, Walk, Before;
    WalkStaysPast(c, order, snaps, limits, None);
    var emitted := Walk(c, order, snaps, limits, None).emitted;
    BeforeMeans(c, order, emitted[i].key, emitted[j].key);
  }

  /** A page holds rows of the collection only, each later (asc) or earlier (desc) than the
      cursor, or of the same time with a greater id; and every such row is on the page, unless
      the page says that there is more. */
  lemma PageResumesAfterCursor(c: Collation, order: Order, rows: seq<Row>, cursor: Key, limit: int, r: Row)
    requires IsOrder(c) && Wellformed(rows) && ValidLimit(limit)
    ensures var result := Paginate(c, order, rows, Some(cursor), Some(limit), 25);
            && result.Ok?
            && (r in result.value.items ==>
                  && r in rows
                  && (order == Asc ==> r.key.t >= cursor.t)
                  && (order == Desc ==> r.key.t <= cursor.t)
                  && (r.key.t == cursor.t ==> c(r.key.i, cursor.i) > 0))
            && (r in rows && ((order == Asc && r.key.t > cursor.t) || (order == Desc && r.key.t < cursor.t)
                              || (r.key.t == cursor.t && c(r.key.i, cursor.i) > 0)) ==>
                  r in result.value.items || result.value.nextCursor.Some?)
  {
    hide IsOrder, Paginate, Rest, Before;
    var rest := Rest(c, order, rows, Some(cursor));
    PageIsNextRows(c, order, rows, Some(cursor), limit, 25);
    RestIsEverythingAfter(c, order, rows, Some(cursor));
    BeforeMeans(c, order, cursor, r.key);
    Mirrored(c, cursor.i, r.key.i);
  }

  lemma Mirrored(c: Collation, a: string, b: string)
    requires IsOrder(c)
    ensures c(a, b) < 0 <==> c(b, a) > 0
  {
  }

  /** A request fails exactly on a page size outside 1 to 100, or when a cursor is needed and the
      last row of the page has no id; without a page size the default is used unchecked. */
  lemma PaginateFailsIff(c: Collation, order: Order, rows: seq<Row>, cursor: Option<Key>, limit: Option<int>, d: nat)
    ensures var n := if limit.Some? then limit.value else d;
            var rest := Rest(c, order, rows, cursor);
            Paginate(c, order, rows, cursor, limit, d).Err?
            <==> || (limit.Some? && !(1 <= n <= 100))
                 || (0 < n < |rest| && rest[n - 1].key.i == "")
  {
    hide Sort, StartIndex, BuildPage;
    if limit.None? || 1 <= limit.value <= 100 {
      var n := if limit.Some? then limit.value else d;
      var s := Sort(c, order, rows);
      var start := StartIndex(c, order, s, cursor);
      var end := if start + n + 1 <= |s| then start + n + 1 else |s|;
      assert s[start..end] == s[start..][..end - start];
      BuildFailsIff(s[start..], end - start, n);
    }
  }

  lemma BuildFailsIff(rest: seq<Row>, fetched: nat, n: nat)
    requires fetched == if |rest| > n then n + 1 else |rest|
    ensures BuildPage(rest[..fetched], n).Err? <==> 0 < n < |rest| && rest[n - 1].key.i == ""
  {
    if |rest| > n {
      assert rest[..fetched][..n] == rest[..n];
    } else {
      assert rest[..fetched] == rest;
    }
  }

  // ---------------------------------------------------------------------------------------
  // An unchanged collection
  // ---------------------------------------------------------------------------------------

  lemma StartAfterRow(c: Collation, order: Order, s: seq<Row>, m: nat)
    requires IsOrder(c) && Ordered(c, order, s) && m < |s|
    ensures StartIndex(c, order, s, Some(s[m].key)) == m + 1
  {
    hide IsOrder, Compare;
    var exact := FindKey(s, s[m].key, 0);
    OrderLaws(c, order, s[exact].key, s[m].key, s[m].key);
  }

  lemma RestAfterPage(c: Collation, order: Order, rows: seq<Row>, cursor: Option<Key>, n: nat)
    requires IsOrder(c) && Distinct(rows) && 0 < n <= |Rest(c, order, rows, cursor)|
    ensures var rest := Rest(c, order, rows, cursor);
            Rest(c, order, rows, Some(rest[n - 1].key)) == rest[n..]
  {
    hide IsOrder, Before, StartIndex;
    SortSorts(c, order, rows);
    var s := Sort(c, order, rows);
    var start := StartIndex(c, order, s, cursor);
    StartAfterRow(c, order, s, start + n - 1);
  }

  /** An unchanged collection is emitted whole and in order, one page at a time, and the walk
      ends within one request per row (or one request, if there are none). */
  lemma {:induction false} StaticWalk(c: Collation, order: Order, rows: seq<Row>, limits: seq<int>, cursor: Option<Key>)
    requires IsOrder(c) && Wellformed(rows)
    requires forall n :: 0 <= n < |limits| ==> ValidLimit(limits[n])
    requires |limits| >= 1 && |limits| >= |Rest(c, order, rows, cursor)|
    ensures Walk(c, order, seq(|limits|, n => rows), limits, cursor) == Walked(Rest(c, order, rows, cursor), true)
    decreases |limits|
  {
    hide IsOrder, Paginate, Rest;
    var snaps := seq(|limits|, n => rows);
    var limit, rest := limits[0], Rest(c, order, rows, cursor);
    PageIsNextRows(c, order, rows, cursor, limit, 25);
    var page := Paginate(c, order, rows, cursor, Some(limit), 25).value;
    if |rest| > limit {
      RestAfterPage(c, order, rows, cursor, limit);
      StaticWalk(c, order, rows, limits[1..], page.nextCursor);
      assert snaps[1..] == seq(|limits[1..]|, n => rows);
      assert page.items + rest[limit..] == rest;
    }
  }
}
