/** Keyset pagination: the limits, the cursor text, the range behind a cursor, one page, and the walk over
    all pages.  A row is its id and the value of its sort field, which may be missing. */
module Keyset {
  import opened Wrappers

  datatype Direction = Asc | Desc

  datatype Row = Row(id: nat, key: Option<int>)

  /** A decoded cursor: the sort value and the id of the last row of a page. */
  datatype Cursor = Cursor(value: int, id: nat)

  datatype Error = TooDeep | CursorTooLong | InvalidCursor | SortFieldUnavailable

  // ---------- limits ----------

  datatype Pagination = Pagination(page: int, limit: int, skip: int)

  /** `positiveInt`: nothing stands for a value that is not a finite number. */
  function PositiveInt(value: Option<real>, fallback: int): int {
    if value.Some? && value.value > 0.0 then value.value.Floor else fallback
  }

  function CalculatePagination(
    page: Option<real>, limit: Option<real>, cursorGiven: bool, maxPageSize: int, maxSkip: int)
    : Result<Pagination, Error>
  {
    var p := Min(1_000_000, PositiveInt(page, 1));
    var l := Min(PositiveInt(limit, 20), maxPageSize);
    var skip := (p - 1) * l;
    if !cursorGiven && skip > maxSkip then Err(TooDeep) else Ok(Pagination(p, l, skip))
  }

  /** The limit lies between 1 and the page maximum, except that a requested limit between 0 and 1 gives 0. */
  lemma LimitBounds(page: Option<real>, limit: Option<real>, cursorGiven: bool, maxPageSize: int, maxSkip: int)
    requires maxPageSize >= 1
    ensures var r := CalculatePagination(page, limit, cursorGiven, maxPageSize, maxSkip);
            r.Ok? ==>
              0 <= r.value.limit <= maxPageSize &&
              (r.value.limit == 0 <==> limit.Some? && 0.0 < limit.value < 1.0)
  {
  }

  /** A requested limit of one half becomes 0. */
  lemma HalfLimitIsZero()
    ensures CalculatePagination(None, Some(0.5), true, 100, 1000) == Ok(Pagination(1, 0, 0))
  {
    assert 0.5.Floor == 0;
  }

  /** A requested number as it is used: a positive one is rounded down and bounded, any other is the fallback. */
  ghost predicate ReadAs(value: Option<real>, fallback: int, bound: int, used: int) {
    if value.None? || value.value <= 0.0 then used == (if fallback < bound then fallback else bound)
    else if value.value >= bound as real then used == bound
    else used as real <= value.value < used as real + 1.0
  }

  /** The page is the requested one, 1 without one, and never above a million; the limit is the requested one, 20
      without one, and never above the maximum; what is skipped are the full pages before.  Only a request without
      a cursor that skips more than allowed is refused. */
  lemma OffsetPages(page: Option<real>, limit: Option<real>, cursorGiven: bool, maxPageSize: int, maxSkip: int,
                    p: int, l: int)
    requires ReadAs(page, 1, 1_000_000, p) && ReadAs(limit, 20, maxPageSize, l)
    ensures CalculatePagination(page, limit, cursorGiven, maxPageSize, maxSkip) ==
            if !cursorGiven && (p - 1) * l > maxSkip then Err(TooDeep) else Ok(Pagination(p, l, (p - 1) * l))
  {
    ReadOnce(page, 1, 1_000_000, p);
    ReadOnce(limit, 20, maxPageSize, l);
  }

  lemma ReadOnce(value: Option<real>, fallback: int, bound: int, used: int)
    requires ReadAs(value, fallback, bound, used)
    ensures used == Min(bound, PositiveInt(value, fallback))
  {
    if value.Some? && 0.0 < value.value < bound as real {
      assert used == value.value.Floor;
    }
  }

  // ---------- the stable order ----------

  /** Ascending order by sort value, then id; a missing value comes first. */
  predicate Less(a: Row, b: Row) {
    match (a.key, b.key)
    case (None, None) => a.id < b.id
    case (None, Some(_)) => true
    case (Some(_), None) => false
    case (Some(x), Some(y)) => x < y || (x == y && a.id < b.id)
  }

  predicate Before(dir: Direction, a: Row, b: Row) {
    if dir == Asc then Less(a, b) else Less(b, a)
  }

  ghost predicate Increasing(dir: Direction, rows: seq<Row>) {
    forall i, j :: 0 <= i < j < |rows| ==> Before(dir, rows[i], rows[j])
  }

  ghost predicate IsFirst(dir: Direction, s: set<Row>, m: Row) {
    m in s && forall x :: x in s ==> x == m || Before(dir, m, x)
  }

  lemma {:induction false} FirstExists(dir: Direction, s: set<Row>)
    requires s != {}
    ensures exists m :: IsFirst(dir, s, m)
    decreases s
  {
    var x :| x in s;
    var others := s - {x};
    assert forall y :: y in s ==> y == x || y in others;
    if others == {} {
      assert IsFirst(dir, s, x);
    } else {
      FirstExists(dir, others);
      var m :| IsFirst(dir, others, m);
      assert IsFirst(dir, s, if Before(dir, x, m) then x else m);
    }
  }

  /** The collection in the stable order. */
  ghost function Sorted(dir: Direction, s: set<Row>): seq<Row>
    decreases s
  {
    if s == {} then []
    else
      FirstExists(dir, s);
      var m :| IsFirst(dir, s, m);
      [m] + Sorted(dir, s - {m})
  }

  lemma {:induction false} SortedIsSorted(dir: Direction, s: set<Row>)
    ensures Increasing(dir, Sorted(dir, s)) && Elements(Sorted(dir, s)) == s && |Sorted(dir, s)| == |s|
    decreases s
  {
    if s != {} {
      var rows := Sorted(dir, s);
      SortedIsSorted(dir, s - {rows[0]});
      var tail := Sorted(dir, s - {rows[0]});
      assert rows == [rows[0]] + tail;
      forall j | 0 <= j < |tail| ensures Before(dir, rows[0], tail[j]) {
        assert tail[j] in Elements(tail);
      }
      assert Elements(rows) == {rows[0]} + Elements(tail);
    }
  }

  /** There is only one way to list a set of rows in increasing order. */
  lemma {:induction false} SortedUnique(dir: Direction, a: seq<Row>, b: seq<Row>)
    requires Increasing(dir, a) && Increasing(dir, b) && Elements(a) == Elements(b)
    ensures a == b
    decreases |a|
  {
    assert a != [] ==> a[0] in Elements(a);
    assert b != [] ==> b[0] in Elements(b);
    if a != [] && b != [] {
      assert a[0] == b[0];
      TailElements(dir, a);
      TailElements(dir, b);
      SortedUnique(dir, a[1..], b[1..]);
    }
  }

  lemma TailElements(dir: Direction, a: seq<Row>)
    requires Increasing(dir, a) && a != []
    ensures Increasing(dir, a[1..]) && Elements(a[1..]) == Elements(a) - {a[0]}
  {
    forall x | x in Elements(a) - {a[0]} ensures x in Elements(a[1..]) {
      var i :| 0 <= i < |a| && a[i] == x;
      assert a[1..][i - 1] == x;
    }
  }

  // ---------- one page ----------

  /** The range behind a cursor.  A missing value matches neither comparison. */
  predicate InRange(dir: Direction, range: Option<Cursor>, row: Row) {
    match range
    case None => true
    case Some(c) => row.key.Some? && Before(dir, Row(c.id, Some(c.value)), row)
  }

  ghost function Matching(db: set<Row>, dir: Direction, range: Option<Cursor>): set<Row> {
    set r | r in db && InRange(dir, range, r)
  }

  /** The first `count` matching rows in the stable order. */
  ghost function Query(db: set<Row>, dir: Direction, range: Option<Cursor>, count: nat): seq<Row> {
    var rows := Sorted(dir, Matching(db, dir, range));
    if |rows| <= count then rows else rows[..count]
  }

  datatype Page = Page(rows: seq<Row>, next: Option<Cursor>)

  /** A page of the cursor mode, from the `limit + 1` rows the query asked for. */
  function FinalizeCursorPage(rows: seq<Row>, limit: nat): Result<Page, Error> {
    if |rows| <= limit then Ok(Page(rows, None))
    else if limit == 0 then Ok(Page([], None))
    else
      var last := rows[limit - 1];
      if last.key.None? then Err(SortFieldUnavailable)
      else Ok(Page(rows[..limit], Some(Cursor(last.key.value, last.id))))
  }

  ghost function FetchPage(db: set<Row>, dir: Direction, limit: nat, range: Option<Cursor>): Result<Page, Error> {
    FinalizeCursorPage(Query(db, dir, range, limit + 1), limit)
  }

  /** The matching rows of a page are those up to its last row; the next range holds those after it that
      have a sort value. */
  lemma PageSplits(db: set<Row>, dir: Direction, limit: nat, range: Option<Cursor>)
    requires FetchPage(db, dir, limit, range).Ok? && FetchPage(db, dir, limit, range).value.next.Some?
    ensures var page := FetchPage(db, dir, limit, range).value;
            var rows := Sorted(dir, Matching(db, dir, range));
            && 1 <= limit < |rows| && page.rows == rows[..limit]
            && rows[limit - 1].key.Some?
            && page.next == Some(Cursor(rows[limit - 1].key.value, rows[limit - 1].id))
            && Matching(db, dir, page.next) == set r | r in rows[limit..] && r.key.Some?
  {
    var rows := Sorted(dir, Matching(db, dir, range));
    SortedIsSorted(dir, Matching(db, dir, range));
    hide Matching, Sorted, InRange;
    assert |rows| > limit ==> rows[..limit + 1][..limit] == rows[..limit];
    NextRange(db, dir, range, rows, limit - 1);
  }

  lemma NextRange(db: set<Row>, dir: Direction, range: Option<Cursor>, rows: seq<Row>, i: nat)
    requires Increasing(dir, rows) && Elements(rows) == Matching(db, dir, range)
    requires i < |rows| && rows[i].key.Some?
    ensures Matching(db, dir, Some(Cursor(rows[i].key.value, rows[i].id))) == set r | r in rows[i + 1..] && r.key.Some?
  {
    hide Increasing, Less;
    var last := rows[i];
    assert Row(last.id, Some(last.key.value)) == last;
    assert last in Elements(rows);
    var next := Some(Cursor(last.key.value, last.id));
    forall r ensures r in Matching(db, dir, next) <==> r in rows[i + 1..] && r.key.Some? {
      AfterIndex(dir, rows, i, r);
      assert r in rows <==> r in Elements(rows);
      if r in db && InRange(dir, next, r) {
        StillInRange(dir, range, last, r);
      }
    }
  }

  lemma StillInRange(dir: Direction, range: Option<Cursor>, last: Row, r: Row)
    requires InRange(dir, range, last) && last.key.Some? && InRange(dir, Some(Cursor(last.key.value, last.id)), r)
    ensures InRange(dir, range, r)
  {
  }

  lemma AfterIndex(dir: Direction, rows: seq<Row>, i: nat, r: Row)
    requires Increasing(dir, rows) && i < |rows|
    ensures r in rows && Before(dir, rows[i], r) <==> r in rows[i + 1..]
  {
    if r in rows {
      var k :| 0 <= k < |rows| && rows[k] == r;
      if i < k {
        assert rows[i + 1..][k - i - 1] == r;
      }
    }
  }

  // ---------- the walk over a collection that stands still ----------

  lemma NextIsSmaller(db: set<Row>, dir: Direction, limit: nat, range: Option<Cursor>)
    requires FetchPage(db, dir, limit, range).Ok? && FetchPage(db, dir, limit, range).value.next.Some?
    ensures |Matching(db, dir, FetchPage(db, dir, limit, range).value.next)| < |Matching(db, dir, range)|
  {
    PageSplits(db, dir, limit, range);
    SortedIsSorted(dir, Matching(db, dir, range));
    hide Matching, FetchPage, Before, Sorted, Elements, Increasing;
    var rows := Sorted(dir, Matching(db, dir, range));
    RestWithoutFirst(dir, rows, limit);
    StrictSubsetSize(Matching(db, dir, FetchPage(db, dir, limit, range).value.next), Elements(rows), rows[0]);
  }

  lemma RestWithoutFirst(dir: Direction, rows: seq<Row>, limit: nat)
    requires Increasing(dir, rows) && 1 <= limit < |rows|
    ensures rows[0] in Elements(rows)
    ensures forall r :: r in rows[limit..] ==> r in Elements(rows) && r != rows[0]
  {
    forall k | 0 <= k < |rows[limit..]| ensures rows[limit..][k] != rows[0] {
      assert Before(dir, rows[0], rows[limit + k]);
    }
  }

  lemma StrictSubsetSize(small: set<Row>, large: set<Row>, extra: Row)
    requires small <= large && extra in large && extra !in small
    ensures |small| < |large|
  {
    SubsetSize(small, large - {extra});
  }

  /** All pages from a range on, joined. */
  ghost function Walk(db: set<Row>, dir: Direction, limit: nat, range: Option<Cursor>): Result<seq<Row>, Error>
    decreases |Matching(db, dir, range)|
  {
    match FetchPage(db, dir, limit, range)
    case Err(e) => Err(e)
    case Ok(page) =>
      if page.next.None? then Ok(page.rows)
      else
        NextIsSmaller(db, dir, limit, range);
        match Walk(db, dir, limit, page.next)
        case Err(e) => Err(e)
        case Ok(rows) => Ok(page.rows + rows)
  }

  ghost predicate HasValues(rows: set<Row>) {
    forall r :: r in rows ==> r.key.Some?
  }

  /** Where all rows after the page's last one have a sort value, the rows in the next range are those rows. */
  lemma RestInOrder(db: set<Row>, dir: Direction, limit: nat, range: Option<Cursor>)
    requires FetchPage(db, dir, limit, range).Ok? && FetchPage(db, dir, limit, range).value.next.Some?
    ensures var next := FetchPage(db, dir, limit, range).value.next;
            var rows := Sorted(dir, Matching(db, dir, range));
            limit < |rows| &&
            (Sorted(dir, Matching(db, dir, next)) == rows[limit..] <==> HasValues(Elements(rows[limit..])))
  {
    PageSplits(db, dir, limit, range);
    SortedIsSorted(dir, Matching(db, dir, range));
    var next := FetchPage(db, dir, limit, range).value.next;
    SortedIsSorted(dir, Matching(db, dir, next));
    hide FetchPage, Sorted, Before, Matching;
    var rest := Sorted(dir, Matching(db, dir, range))[limit..];
    if HasValues(Elements(rest)) {
      assert Elements(rest) == Matching(db, dir, next);
      SortedUnique(dir, Sorted(dir, Matching(db, dir, next)), rest);
    } else {
      assert Elements(rest) != Matching(db, dir, next);
    }
  }

  /** A first page that has everything, and one that does not. */
  lemma WalkOnePage(db: set<Row>, dir: Direction, limit: nat, range: Option<Cursor>)
    ensures var rows := Sorted(dir, Matching(db, dir, range));
            && (|rows| <= limit ==> Walk(db, dir, limit, range) == Ok(rows))
            && (|rows| > limit == 0 ==> Walk(db, dir, limit, range) == Ok([]))
            && (|rows| > limit > 0 && rows[limit - 1].key.None? ==> Walk(db, dir, limit, range).Err?)
  {
    hide Matching, Sorted;
  }

  lemma WalkFirstPage(db: set<Row>, dir: Direction, limit: nat, range: Option<Cursor>)
    requires 1 <= limit < |Sorted(dir, Matching(db, dir, range))|
    requires Sorted(dir, Matching(db, dir, range))[limit - 1].key.Some?
    ensures var page := FetchPage(db, dir, limit, range);
            page.Ok? && page.value.next.Some? && page.value.rows == Sorted(dir, Matching(db, dir, range))[..limit] &&
            |Matching(db, dir, page.value.next)| < |Matching(db, dir, range)| &&
            (Walk(db, dir, limit, page.value.next).Ok? ==>
              Walk(db, dir, limit, range) == Ok(page.value.rows + Walk(db, dir, limit, page.value.next).value))
  {
    hide Matching, Sorted;
    NextIsSmaller(db, dir, limit, range);
    PageSplits(db, dir, limit, range);
  }

  /** After a cursor every row has a sort value, and the walk returns them all in order. */
  lemma {:induction false} WalkAfterCursor(db: set<Row>, dir: Direction, limit: nat, range: Option<Cursor>)
    requires limit >= 1 && range.Some?
    ensures Walk(db, dir, limit, range) == Ok(Sorted(dir, Matching(db, dir, range)))
    decreases |Matching(db, dir, range)|
  {
    hide Walk, FetchPage, Sorted;
    var rows := Sorted(dir, Matching(db, dir, range));
    SortedIsSorted(dir, Matching(db, dir, range));
    WalkOnePage(db, dir, limit, range);
    assert forall r :: r in rows ==> r in Elements(rows);
    if |rows| > limit {
      assert rows[limit - 1] in rows;
      WalkFirstPage(db, dir, limit, range);
      var next := FetchPage(db, dir, limit, range).value.next;
      WalkAfterCursor(db, dir, limit, next);
      RestInOrder(db, dir, limit, range);
      assert rows == rows[..limit] + rows[limit..];
      assert forall r :: r in rows[limit..] ==> r in rows;
    }
  }

  ghost function Missing(db: set<Row>): set<Row> {
    set r | r in db && r.key.None?
  }

  /** Rows without a sort value: none, or fewer than a page and the order ascending. */
  ghost predicate WalkSafe(db: set<Row>, dir: Direction, limit: nat) {
    limit >= 1 && (Missing(db) == {} || (dir == Asc && |Missing(db)| < limit))
  }

  lemma {:induction false} ElementsSize(dir: Direction, rows: seq<Row>)
    requires Increasing(dir, rows)
    ensures |Elements(rows)| == |rows|
  {
    if rows != [] {
      ElementsSize(dir, rows[1..]);
      TailElements(dir, rows);
      assert rows[0] in Elements(rows);
    } else {
      assert Elements(rows) == {};
    }
  }

  /** Ascending, the rows without a value come first: the last row of the first page has a value exactly
      when fewer than a page lack one. */
  lemma MissingComeFirst(db: set<Row>, limit: nat)
    requires 1 <= limit <= |Sorted(Asc, db)|
    ensures Sorted(Asc, db)[limit - 1].key.Some? <==> |Missing(db)| < limit
  {
    var rows := Sorted(Asc, db);
    SortedIsSorted(Asc, db);
    hide Sorted;
    var page := rows[..limit];
    assert forall r :: r in rows <==> r in Elements(rows);
    if rows[limit - 1].key.Some? {
      var head := rows[..limit - 1];
      ElementsSize(Asc, head);
      forall r | r in Missing(db) ensures r in Elements(head) {
        var k :| 0 <= k < |rows| && rows[k] == r;
        assert k < limit - 1;
        assert head[k] == r;
      }
      SubsetSize(Missing(db), Elements(head));
    } else {
      ElementsSize(Asc, page);
      forall r | r in Elements(page) ensures r in Missing(db) {
        var k :| 0 <= k < limit && rows[k] == r;
      }
      SubsetSize(Elements(page), Missing(db));
    }
  }

  lemma ValuesAfterValue(rows: seq<Row>, i: nat)
    requires Increasing(Asc, rows) && i < |rows| && rows[i].key.Some?
    ensures HasValues(Elements(rows[i + 1..]))
  {
  }

  /** The walk from the start returns the whole collection in the stable order if and only if it fits one
      page, or every page makes progress and no row is hidden for want of a sort value. */
  lemma WalkCompleteIff(db: set<Row>, dir: Direction, limit: nat)
    ensures Walk(db, dir, limit, None) == Ok(Sorted(dir, db)) <==> |db| <= limit || WalkSafe(db, dir, limit)
  {
    hide Walk, Sorted, Before;
    assert Matching(db, dir, None) == db;
    SortedIsSorted(dir, db);
    WalkOnePage(db, dir, limit, None);
    var rows := Sorted(dir, db);
    assert forall r :: r in rows <==> r in Elements(rows);
    if |db| > limit >= 1 {
      if dir == Asc {
        MissingComeFirst(db, limit);
      }
      if rows[limit - 1].key.Some? {
        FirstPageThenRest(db, dir, limit);
        if dir == Asc {
          ValuesAfterValue(rows, limit - 1);
        } else {
          MissingAtEnd(db, rows, limit);
        }
      } else {
        assert rows[limit - 1] in Missing(db);
      }
    }
  }

  lemma MissingAtEnd(db: set<Row>, rows: seq<Row>, limit: nat)
    requires Increasing(Desc, rows) && Elements(rows) == db && 1 <= limit < |rows| && rows[limit - 1].key.Some?
    ensures HasValues(Elements(rows[limit..])) <==> Missing(db) == {}
  {
    forall r | r in Missing(db) ensures r in Elements(rows[limit..]) {
      assert r in Elements(rows);
      var k :| 0 <= k < |rows| && rows[k] == r;
      assert rows[limit..][k - limit] == r;
    }
    forall r | r in Elements(rows[limit..]) && r.key.None? ensures r in Missing(db) {
      assert r in Elements(rows);
    }
  }

  lemma FirstPageThenRest(db: set<Row>, dir: Direction, limit: nat)
    requires Matching(db, dir, None) == db && 1 <= limit < |Sorted(dir, db)|
    requires Sorted(dir, db)[limit - 1].key.Some?
    ensures var rows := Sorted(dir, db);
            Walk(db, dir, limit, None) == Ok(rows) <==> HasValues(Elements(rows[limit..]))
  {
    hide Walk, FetchPage, Sorted, Matching;
    var rows := Sorted(dir, db);
    WalkFirstPage(db, dir, limit, None);
    RestInOrder(db, dir, limit, None);
    var next := FetchPage(db, dir, limit, None).value.next;
    WalkAfterCursor(db, dir, limit, next);
    var rest := Sorted(dir, Matching(db, dir, next));
    assert (rows[..limit] + rest)[limit..] == rest;
    assert rows == rows[..limit] + rows[limit..];
  }

  /** Walks that miss rows: of two rows one of which has no sort value, descending or with a limit of 1, and of
      any row with a limit of 0. */
  lemma WalksThatFail()
    ensures var db := {Row(1, None), Row(2, Some(5))};
            && Walk(db, Desc, 1, None) != Ok(Sorted(Desc, db))
            && Walk(db, Asc, 1, None) != Ok(Sorted(Asc, db))
            && Walk(db, Asc, 0, None) != Ok(Sorted(Asc, db))
  {
    hide Walk, Sorted;
    var db := {Row(1, None), Row(2, Some(5))};
    assert Missing(db) == {Row(1, None)};
    WalkCompleteIff(db, Desc, 1);
    WalkCompleteIff(db, Asc, 1);
    WalkCompleteIff(db, Asc, 0);
  }

  // ---------- the walk while rows come and go ----------

  /** The walk that finds collection `dbs[i]` when it fetches page `i`; nothing unless it ends, without an
      error, with the last of them. */
  ghost function WalkThrough(dbs: seq<set<Row>>, dir: Direction, limit: nat, range: Option<Cursor>): Option<seq<Row>>
    decreases |dbs|
  {
    if dbs == [] then None
    else match FetchPage(dbs[0], dir, limit, range)
      case Err(_) => None
      case Ok(page) =>
        if page.next.None? then (if |dbs| == 1 then Some(page.rows) else None)
        else match WalkThrough(dbs[1..], dir, limit, page.next)
          case None => None
          case Some(rows) => Some(page.rows + rows)
  }

  ghost predicate Throughout(dbs: seq<set<Row>>, r: Row) {
    forall i :: 0 <= i < |dbs| ==> r in dbs[i]
  }

  ghost predicate Sometime(dbs: seq<set<Row>>, r: Row) {
    exists i :: 0 <= i < |dbs| && r in dbs[i]
  }

  /** What a walk from a range on returns: rows in that range, in order, each present at some page, and every
      row with a sort value that is present at every page. */
  ghost predicate Delivers(dbs: seq<set<Row>>, dir: Direction, range: Option<Cursor>, rows: seq<Row>) {
    && Increasing(dir, rows)
    && (forall r :: r in rows ==> InRange(dir, range, r) && Sometime(dbs, r))
    && (forall r :: Throughout(dbs, r) && r.key.Some? && InRange(dir, range, r) ==> r in rows)
  }

  lemma {:induction false} MovingWalkFrom(dbs: seq<set<Row>>, dir: Direction, limit: nat, range: Option<Cursor>)
    requires limit >= 1 && WalkThrough(dbs, dir, limit, range).Some?
    ensures Delivers(dbs, dir, range, WalkThrough(dbs, dir, limit, range).value)
    decreases |dbs|
  {
    hide Sorted, Before, Matching, InRange, FetchPage;
    var page := FetchPage(dbs[0], dir, limit, range).value;
    if page.next.None? {
      LastPageDelivers(dbs[0], dir, limit, range);
      assert dbs == [dbs[0]];
    } else {
      MovingWalkFrom(dbs[1..], dir, limit, page.next);
      PageThenRest(dbs, dir, limit, range, WalkThrough(dbs[1..], dir, limit, page.next).value);
    }
  }

  lemma LastPageDelivers(db: set<Row>, dir: Direction, limit: nat, range: Option<Cursor>)
    requires limit >= 1
    requires FetchPage(db, dir, limit, range).Ok? && FetchPage(db, dir, limit, range).value.next.None?
    ensures Delivers([db], dir, range, FetchPage(db, dir, limit, range).value.rows)
  {
    SortedIsSorted(dir, Matching(db, dir, range));
    hide Sorted, Before, InRange;
    var rows := Sorted(dir, Matching(db, dir, range));
    assert forall r :: r in rows <==> r in Elements(rows);
    assert [db][0] == db;
  }

  lemma PageThenRest(dbs: seq<set<Row>>, dir: Direction, limit: nat, range: Option<Cursor>, later: seq<Row>)
    requires |dbs| > 1 && FetchPage(dbs[0], dir, limit, range).Ok?
    requires FetchPage(dbs[0], dir, limit, range).value.next.Some?
    requires Delivers(dbs[1..], dir, FetchPage(dbs[0], dir, limit, range).value.next, later)
    ensures Delivers(dbs, dir, range, FetchPage(dbs[0], dir, limit, range).value.rows + later)
  {
    PageSplits(dbs[0], dir, limit, range);
    SortedIsSorted(dir, Matching(dbs[0], dir, range));
    hide Sorted, FetchPage, Less, Before, Matching, InRange;
    var rows := Sorted(dir, Matching(dbs[0], dir, range));
    PrefixJoins(dbs, dir, range, rows, limit, later);
    AllFound(dbs, dir, range, rows, limit, later);
  }

  /** The range that starts after row `i`. */
  function After(rows: seq<Row>, i: nat): Option<Cursor>
    requires i < |rows| && rows[i].key.Some?
  {
    Some(Cursor(rows[i].key.value, rows[i].id))
  }

  lemma PrefixJoins(
    dbs: seq<set<Row>>, dir: Direction, range: Option<Cursor>, rows: seq<Row>, limit: nat, later: seq<Row>)
    requires dbs != [] && Increasing(dir, rows) && Elements(rows) == Matching(dbs[0], dir, range)
    requires 1 <= limit <= |rows| && rows[limit - 1].key.Some?
    requires Delivers(dbs[1..], dir, After(rows, limit - 1), later)
    ensures Increasing(dir, rows[..limit] + later)
    ensures forall r :: r in rows[..limit] + later ==> InRange(dir, range, r) && Sometime(dbs, r)
  {
    hide Less, Before;
    var last := rows[limit - 1];
    assert Row(last.id, Some(last.key.value)) == last;
    assert last in Elements(rows);
    JoinIncreasing(dir, rows[..limit], later, last);
    forall r | r in rows[..limit] + later ensures InRange(dir, range, r) && Sometime(dbs, r) {
      if r in rows[..limit] {
        assert r in Elements(rows);
        assert r in dbs[0];
      } else {
        StillInRange(dir, range, last, r);
        var i :| 0 <= i < |dbs[1..]| && r in dbs[1..][i];
        assert r in dbs[i + 1];
      }
    }
  }

  lemma AllFound(
    dbs: seq<set<Row>>, dir: Direction, range: Option<Cursor>, rows: seq<Row>, limit: nat, later: seq<Row>)
    requires dbs != [] && Elements(rows) == Matching(dbs[0], dir, range)
    requires 1 <= limit <= |rows| && rows[limit - 1].key.Some?
    requires Matching(dbs[0], dir, After(rows, limit - 1)) == set r | r in rows[limit..] && r.key.Some?
    requires Delivers(dbs[1..], dir, After(rows, limit - 1), later)
    ensures forall r :: Throughout(dbs, r) && r.key.Some? && InRange(dir, range, r) ==> r in rows[..limit] + later
  {
    forall r | Throughout(dbs, r) && r.key.Some? && InRange(dir, range, r) ensures r in rows[..limit] + later {
      hide Increasing, Before;
      assert r in dbs[0];
      assert r in Elements(rows);
      var k :| 0 <= k < |rows| && rows[k] == r;
      if k < limit {
        assert rows[..limit][k] == r;
      } else {
        assert rows[limit..][k - limit] == r;
        assert r in Matching(dbs[0], dir, After(rows, limit - 1));
        assert Throughout(dbs[1..], r);
      }
    }
  }

  lemma JoinIncreasing(dir: Direction, a: seq<Row>, b: seq<Row>, last: Row)
    requires Increasing(dir, a) && Increasing(dir, b) && a != [] && a[|a| - 1] == last
    requires forall r :: r in b ==> Before(dir, last, r)
    ensures Increasing(dir, a + b)
  {
    var rows := a + b;
    forall i, j | 0 <= i < j < |rows| ensures Before(dir, rows[i], rows[j]) {
      if i < |a| <= j {
        assert rows[j] in b;
        assert Before(dir, last, rows[j]);
      }
    }
  }

  lemma {:induction false} OnceEach(dir: Direction, rows: seq<Row>, r: Row)
    requires Increasing(dir, rows)
    ensures multiset(rows)[r] == if r in rows then 1 else 0
  {
    if rows != [] {
      TailElements(dir, rows);
      OnceEach(dir, rows[1..], r);
      assert rows == [rows[0]] + rows[1..];
      assert rows[0] !in Elements(rows[1..]);
    }
  }

  /** With inserts and deletes between the pages, a walk that ends returns every row that keeps its sort value
      and is present throughout exactly once, no row twice, and no row that was never there. */
  lemma MovingWalk(dbs: seq<set<Row>>, dir: Direction, limit: nat, r: Row)
    requires limit >= 1 && WalkThrough(dbs, dir, limit, None).Some?
    ensures var rows := multiset(WalkThrough(dbs, dir, limit, None).value);
            && rows[r] <= 1
            && (Throughout(dbs, r) && r.key.Some? ==> rows[r] == 1)
            && (rows[r] == 1 ==> Sometime(dbs, r))
  {
    MovingWalkFrom(dbs, dir, limit, None);
    OnceEach(dir, WalkThrough(dbs, dir, limit, None).value, r);
  }

  /** The id keeps its sort value wherever it is present. */
  ghost predicate Steady(dbs: seq<set<Row>>, r: Row) {
    forall i, x :: 0 <= i < |dbs| && x in dbs[i] && x.id == r.id ==> x == r
  }

  /** An id that keeps its sort value comes at most once, and exactly once if it is present throughout. */
  lemma SteadyIdComesOnce(dbs: seq<set<Row>>, dir: Direction, limit: nat, r: Row)
    requires limit >= 1 && WalkThrough(dbs, dir, limit, None).Some? && Steady(dbs, r)
    ensures var rows := WalkThrough(dbs, dir, limit, None).value;
            && (forall i, j :: 0 <= i < j < |rows| ==> !(rows[i].id == r.id && rows[j].id == r.id))
            && (Throughout(dbs, r) && r.key.Some? ==> exists i :: 0 <= i < |rows| && rows[i].id == r.id)
  {
    MovingWalkFrom(dbs, dir, limit, None);
    var rows := WalkThrough(dbs, dir, limit, None).value;
    hide WalkThrough, InRange;
    forall i, j | 0 <= i < j < |rows| ensures !(rows[i].id == r.id && rows[j].id == r.id) {
      assert rows[i] in rows && rows[j] in rows && Before(dir, rows[i], rows[j]);
    }
    assert InRange(dir, None, r) by { EverywhereInRange(dir, r); }
    assert r in rows ==> exists i :: 0 <= i < |rows| && rows[i] == r;
  }

  lemma EverywhereInRange(dir: Direction, r: Row)
    ensures InRange(dir, None, r)
  {
  }

  lemma SortedOne(dir: Direction, r: Row)
    ensures Sorted(dir, {r}) == [r]
  {
    SortedIsSorted(dir, {r});
    hide Sorted;
    var rows := Sorted(dir, {r});
    assert rows[0] in Elements(rows);
  }

  lemma WalkOfTwo(a: set<Row>, b: set<Row>, dir: Direction, limit: nat, next: Option<Cursor>, p: seq<Row>, q: seq<Row>)
    requires FetchPage(a, dir, limit, None) == Ok(Page(p, next)) && next.Some?
    requires FetchPage(b, dir, limit, next) == Ok(Page(q, None))
    ensures WalkThrough([a, b], dir, limit, None) == Some(p + q)
  {
    hide FetchPage;
    assert [a, b][1..] == [b];
    assert WalkThrough([b], dir, limit, next) == Some(q);
  }

  /** An id whose sort value changes between two pages can come twice, once with each value. */
  lemma MovedRowComesTwice()
    ensures var dbs := [{Row(7, Some(1)), Row(8, Some(2))}, {Row(7, Some(5))}];
            WalkThrough(dbs, Asc, 1, None) == Some([Row(7, Some(1)), Row(7, Some(5))])
  {
    var first, second, moved := Row(7, Some(1)), Row(8, Some(2)), Row(7, Some(5));
    var next := Some(Cursor(1, 7));
    FirstOfTwo(first, second);
    SortedOne(Asc, moved);
    assert Matching({moved}, Asc, next) == {moved};
    hide Sorted, WalkThrough;
    WalkOfTwo({first, second}, {moved}, Asc, 1, next, [first], [moved]);
    assert [first] + [moved] == [first, moved];
  }

  lemma FirstOfTwo(a: Row, b: Row)
    requires Less(a, b) && a.key.Some?
    ensures FetchPage({a, b}, Asc, 1, None) == Ok(Page([a], Some(Cursor(a.key.value, a.id))))
  {
    assert Matching({a, b}, Asc, None) == {a, b};
    SortedIsSorted(Asc, {a, b});
    assert Elements([a, b]) == {a, b};
    SortedUnique(Asc, Sorted(Asc, {a, b}), [a, b]);
    hide Sorted;
    assert [a, b][..1] == [a];
  }

  // ---------- cursor text ----------

  /** The instants a JavaScript date can stand for. */
  type Time = ms: int | -8_640_000_000_000_000 <= ms <= 8_640_000_000_000_000

  /** A sort value as JavaScript has it, and as the JSON of a cursor has it.  A finite number is the decimal it is
      printed as, mantissa and exponent; NaN and the infinities have none, and JSON writes `null` for them. */
  datatype Value = Text(text: string) | Number(mantissa: int, exponent: int) | NotFinite | Date(ms: Time)

  datatype Payload = Payload(value: Value, id: string)

  /** The base64url and JSON libraries, numbers as text, the ISO date format and the date parser. */
  datatype Codec = Codec(
    toText: Payload -> string,
    fromText: string -> Option<Payload>,
    show: (int, int) -> string,
    toIso: Time -> string,
    fromIso: string -> Option<Time>)

  predicate Carried(value: Value) {
    value.Text? || value.Number?
  }

  /** What JSON text gives back for this payload: the payload with text or a finite number, and none without. */
  ghost predicate Reads(codec: Codec, p: Payload) {
    && (Carried(p.value) ==> codec.fromText(codec.toText(p)) == Some(p))
    && (p.value.NotFinite? ==> codec.fromText(codec.toText(p)).None?)
  }

  ghost predicate ReadsTime(codec: Codec, ms: Time) {
    codec.fromIso(codec.toIso(ms)) == Some(ms)
  }

  predicate IsHex(c: char) {
    '0' <= c <= '9' || 'a' <= c <= 'f' || 'A' <= c <= 'F'
  }

  predicate ValidObjectId(id: string) {
    |id| == 24 && forall i :: 0 <= i < |id| ==> IsHex(id[i])
  }

  function EncodeValue(codec: Codec, value: Value): Value {
    if value.Date? then Text(codec.toIso(value.ms)) else value
  }

  function EncodeKeysetCursor(codec: Codec, value: Value, id: string): Result<string, Error> {
    if !ValidObjectId(id) then Err(InvalidCursor) else Ok(codec.toText(Payload(EncodeValue(codec, value), id)))
  }

  function DecodeKeysetCursor(codec: Codec, cursor: string): Result<Option<Payload>, Error> {
    if cursor == "" then Ok(None)
    else if |cursor| > 1024 then Err(CursorTooLong)
    else match codec.fromText(cursor)
      case None => Err(InvalidCursor)
      case Some(p) => if !Carried(p.value) || !ValidObjectId(p.id) then Err(InvalidCursor) else Ok(Some(p))
  }

  function ParseDateCursorValue(codec: Codec, value: Value): Result<Value, Error> {
    if !Carried(value) then Err(InvalidCursor)
    else match codec.fromIso(if value.Text? then value.text else codec.show(value.mantissa, value.exponent))
      case None => Err(InvalidCursor)
      case Some(ms) => Ok(Date(ms))
  }

  /** Decoding undoes encoding exactly for the values JSON can carry whose text has at most 1024 characters.  Of the
      codec this asks for that one payload only. */
  lemma CursorRoundTripIff(codec: Codec, value: Value, id: string)
    requires ValidObjectId(id) && Reads(codec, Payload(EncodeValue(codec, value), id))
    ensures var text := EncodeKeysetCursor(codec, value, id).value;
            (DecodeKeysetCursor(codec, text) == Ok(Some(Payload(EncodeValue(codec, value), id)))) <==>
            (!value.NotFinite? && 0 < |text| <= 1024)
  {
    var p := Payload(EncodeValue(codec, value), id);
    assert codec.fromText(codec.toText(p)) == if value.NotFinite? then None else Some(p);
  }

  /** An id is accepted in a cursor when it has 24 hexadecimal digits. */
  predicate IsId(id: string) {
    |id| == 24 && forall i :: 0 <= i < |id| ==> id[i] in "0123456789abcdefABCDEF"
  }

  /** What a cursor gives back: nothing without one, and else the payload its text stands for, refused when the text
      is too long, stands for nothing, or for a value that is no text and no number, or for no proper id.  Only rows
      with a proper id get a cursor. */
  lemma DecodesTo(codec: Codec, cursor: string, p: Payload)
    ensures DecodeKeysetCursor(codec, cursor) == Ok(None) <==> cursor == ""
    ensures DecodeKeysetCursor(codec, cursor) == Ok(Some(p)) <==>
            0 < |cursor| <= 1024 && codec.fromText(cursor) == Some(p) &&
            (p.value.Text? || p.value.Number?) && IsId(p.id)
    ensures DecodeKeysetCursor(codec, cursor) == Err(CursorTooLong) <==> |cursor| > 1024
    ensures EncodeKeysetCursor(codec, p.value, p.id).Ok? <==> IsId(p.id)
  {
    IdRead(p.id);
  }

  lemma IdRead(id: string)
    ensures ValidObjectId(id) <==> IsId(id)
  {
    forall c: char ensures IsHex(c) <==> c in "0123456789abcdefABCDEF" {
      HexRead(c);
    }
    hide IsHex;
  }

  lemma HexRead(c: char)
    ensures IsHex(c) <==> c in "0123456789abcdefABCDEF"
  {
    var digits, lower, upper := "0123456789", "abcdef", "ABCDEF";
    assert "0123456789abcdefABCDEF" == digits + lower + upper;
    assert '0' <= c <= '9' ==> digits[c as int - '0' as int] == c;
    assert 'a' <= c <= 'f' ==> lower[c as int - 'a' as int] == c;
    assert 'A' <= c <= 'F' ==> upper[c as int - 'A' as int] == c;
  }

  /** A date comes back from its cursor as a date through the date parser, and as text without it. */
  lemma DateCursor(codec: Codec, ms: Time, id: string)
    requires ValidObjectId(id) && ReadsTime(codec, ms) && Reads(codec, Payload(Text(codec.toIso(ms)), id))
    ensures var text := EncodeKeysetCursor(codec, Date(ms), id).value;
            0 < |text| <= 1024 ==>
              var back := DecodeKeysetCursor(codec, text);
              && back.Ok? && back.value.Some? && back.value.value.value.Text?
              && ParseDateCursorValue(codec, back.value.value.value) == Ok(Date(ms))
  {
    CursorRoundTripIff(codec, Date(ms), id);
  }

  // ---------- a codec that keeps the law ----------

  /** `n` ones and a zero: the length of what follows, readable from the front. */
  function Unary(n: nat): string {
    seq(n, _ => '1') + "0"
  }

  function Signed(n: int): string {
    if n < 0 then "-" + Unary(-n) else "+" + Unary(n)
  }

  function PlainValue(value: Value): string {
    match value
    case Text(text) => "t" + (Unary(|text|) + text)
    case Number(mantissa, exponent) => "n" + (Signed(mantissa) + Signed(exponent))
    case _ => "x"
  }

  function PlainText(p: Payload): string {
    PlainValue(p.value) + p.id
  }

  predicate Writes(p: Payload, s: string) {
    Carried(p.value) && PlainText(p) == s
  }

  ghost function ReadPlain(s: string): Option<Payload> {
    if exists p: Payload :: Writes(p, s) then var p: Payload :| Writes(p, s); Some(p) else None
  }

  function PlainTime(ms: Time): string {
    Signed(ms)
  }

  ghost function ReadTime(s: string): Option<Time> {
    if exists ms: Time :: PlainTime(ms) == s then var ms: Time :| PlainTime(ms) == s; Some(ms) else None
  }

  lemma UnaryFront(a: nat, b: nat, s: string, t: string)
    requires Unary(a) + s == Unary(b) + t
    ensures a == b && s == t
  {
    var x, y := Unary(a) + s, Unary(b) + t;
    assert x[a] == '0' && y[b] == '0';
    assert forall i :: 0 <= i < a ==> x[i] == '1';
    assert forall i :: 0 <= i < b ==> y[i] == '1';
    assert s == x[a + 1..] && t == y[b + 1..];
  }

  function Size(a: int): nat {
    if a < 0 then -a else a
  }

  lemma SignedParts(a: int, s: string)
    ensures var x := Signed(a) + s; x[0] == (if a < 0 then '-' else '+') && x[1..] == Unary(Size(a)) + s
  {
    hide Unary;
    var sign := if a < 0 then "-" else "+";
    assert Signed(a) + s == sign + (Unary(Size(a)) + s);
  }

  lemma SignedFront(a: int, b: int, s: string, t: string)
    requires Signed(a) + s == Signed(b) + t
    ensures a == b && s == t
  {
    SignedParts(a, s);
    SignedParts(b, t);
    hide Signed, Unary;
    UnaryFront(Size(a), Size(b), s, t);
  }

  /** What follows the letter in front. */
  function Rest(p: Payload): string
    requires Carried(p.value)
  {
    match p.value
    case Text(text) => Unary(|text|) + (text + p.id)
    case Number(mantissa, exponent) => Signed(mantissa) + (Signed(exponent) + p.id)
  }

  lemma PlainParts(p: Payload)
    requires Carried(p.value)
    ensures PlainText(p) == [if p.value.Text? then 't' else 'n'] + Rest(p)
    ensures PlainText(p)[0] == (if p.value.Text? then 't' else 'n') && PlainText(p)[1..] == Rest(p)
  {
    hide Unary, Signed;
  }

  lemma TextParts(a: string, b: string, s: string, t: string)
    requires |a| == |b| && a + s == b + t
    ensures a == b && s == t
  {
    assert a == (a + s)[..|a|] && b == (b + t)[..|b|];
    assert s == (a + s)[|a|..] && t == (b + t)[|b|..];
  }

  lemma PlainInjective(p: Payload, q: Payload)
    requires Carried(p.value) && Carried(q.value) && PlainText(p) == PlainText(q)
    ensures p == q
  {
    PlainParts(p);
    PlainParts(q);
    hide Unary, Signed, PlainText;
    if p.value.Text? {
      var a, b := p.value.text, q.value.text;
      UnaryFront(|a|, |b|, a + p.id, b + q.id);
      TextParts(a, b, p.id, q.id);
    } else {
      SignedFront(p.value.mantissa, q.value.mantissa, Signed(p.value.exponent) + p.id, Signed(q.value.exponent) + q.id);
      SignedFront(p.value.exponent, q.value.exponent, p.id, q.id);
    }
  }

  ghost function PlainCodec(): Codec {
    Codec(PlainText, ReadPlain, (mantissa, exponent) => Signed(mantissa) + Signed(exponent), PlainTime, ReadTime)
  }

  /** The law can be kept: this codec keeps it for every payload and every date. */
  lemma PlainCodecLawful(p: Payload, ms: Time)
    ensures Reads(PlainCodec(), p) && ReadsTime(PlainCodec(), ms)
  {
    if Carried(p.value) {
      assert Writes(p, PlainText(p));
      var q := ReadPlain(PlainText(p)).value;
      PlainInjective(p, q);
    } else if p.value.NotFinite? {
      assert PlainText(p)[0] == 'x';
      forall q: Payload | Carried(q.value) ensures PlainText(q) != PlainText(p) {
        assert PlainText(q)[0] != 'x';
      }
    }
    var other := ReadTime(PlainTime(ms)).value;
    assert Signed(ms) + "" == Signed(ms) && Signed(other) + "" == Signed(other);
    SignedFront(ms, other, "", "");
  }

  /** A value of 1025 characters gives a cursor that is refused when it comes back. */
  lemma LongCursorRefused(id: string)
    requires ValidObjectId(id)
    ensures var value := Text(seq(1025, _ => 'a'));
            var text := EncodeKeysetCursor(PlainCodec(), value, id).value;
            DecodeKeysetCursor(PlainCodec(), text) == Err(CursorTooLong)
  {
    hide Unary;
    var value := Text(seq(1025, _ => 'a'));
    assert |PlainText(Payload(value, id))| >= |value.text|;
  }
}
