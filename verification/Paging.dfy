/** Keyset paging and the streamed export (business/domain/logbus/logbus.go,
    app/domain/logapp/export.go, and the query text of stores/logdb/logdb.go).

    A table is listed newest first: by timestamp, then id, both descending. A cursor
    is the position of the last row of a page; its base64 and JSON encoding is an
    injective pair and is left out. */
module Paging {
  import opened Basics

  type ProjectId = nat

  datatype Log = Log(id: nat, project: ProjectId, ts: int)

  datatype Cursor = Cursor(ts: int, id: nat)

  datatype Page = Page(logs: seq<Log>, next: Option<Cursor>)

  const EXPORT_PAGE_SIZE: nat := 1000
  const MAX_EXPORT_ROWS: nat := 100_000

  // ---------------------------------------------------------------------------
  // The store

  function CursorOf(l: Log): Cursor { Cursor(l.ts, l.id) }

  /** ts < :cursor_ts OR (ts = :cursor_ts AND id < :cursor_id). */
  predicate Below(l: Log, c: Cursor)
  {
    l.ts < c.ts || (l.ts == c.ts && l.id < c.id)
  }

  predicate Past(l: Log, cursor: Option<Cursor>)
  {
    cursor.Some? ==> Below(l, cursor.value)
  }

  /** ORDER BY ts DESC, id DESC over rows with distinct ids. */
  ghost predicate NewestFirst(rows: seq<Log>)
  {
    forall i, j :: 0 <= i < j < |rows| ==> Below(rows[j], CursorOf(rows[i]))
  }

  /** WHERE: the rows that satisfy a condition, in listing order. */
  function Where(rows: seq<Log>, condition: Log -> bool): seq<Log>
  {
    if rows == [] then []
    else if condition(rows[0]) then [rows[0]] + Where(rows[1..], condition)
    else Where(rows[1..], condition)
  }

  lemma {:induction false} WhereMembers(rows: seq<Log>, condition: Log -> bool)
    ensures forall l :: l in Where(rows, condition) <==> l in rows && condition(l)
    decreases |rows|
  {
    if rows != [] {
      WhereMembers(rows[1..], condition);
      assert rows == [rows[0]] + rows[1..];
    }
  }

  /** LIMIT. */
  function Limit(rows: seq<Log>, n: nat): (r: seq<Log>)
    ensures r <= rows && |r| == if |rows| < n then |rows| else n
  {
    if |rows| < n then rows else rows[..n]
  }

  function StoreQuery(rows: seq<Log>, limit: nat, cursor: Option<Cursor>): seq<Log>
  {
    Limit(Where(rows, l => Past(l, cursor)), limit)
  }

  /** One page. A full page carries a cursor, even when nothing follows it. */
  function Query(rows: seq<Log>, limit: nat, cursor: Option<Cursor>): Page
    requires limit > 0
  {
    var logs := StoreQuery(rows, limit, cursor);
    Page(logs, if |logs| == limit then Some(CursorOf(logs[|logs| - 1])) else None)
  }

  // ---------------------------------------------------------------------------
  // The export

  datatype ExportError = FetchFailed | WriteFailed | FlushFailed | ClientGone

  /** What the world does to an export: whether the k-th fetch, the write of the i-th
      row and the flush after the k-th page succeed, and whether the client is still
      there after the k-th page. */
  datatype World = World(fetchOk: nat -> bool, rowOk: nat -> bool, flushOk: nat -> bool, clientThere: nat -> bool)

  ghost predicate Undisturbed(w: World)
  {
    forall k :: w.fetchOk(k) && w.rowOk(k) && w.flushOk(k) && w.clientThere(k)
  }

  /** The optional lower cap of a request, as it was sent. */
  datatype Asked = Nothing | NotANumber | Rows(n: int)

  /** Never more than the maximum, and an error unless it is a positive number. */
  function ExportRowLimit(asked: Asked): Option<nat>
  {
    match asked
    case Nothing => Some(MAX_EXPORT_ROWS)
    case NotANumber => None
    case Rows(n) => if n <= 0 then None else Some(if n < MAX_EXPORT_ROWS then n else MAX_EXPORT_ROWS)
  }

  function Min(a: nat, b: nat): nat { if a < b then a else b }

  /** The rows of k full pages. */
  function PagesOf(k: nat, size: nat): nat
  {
    if k == 0 then 0 else PagesOf(k - 1, size) + size
  }

  /** A cursor stands before row `at` of the listing. */
  ghost predicate StandsAt(rows: seq<Log>, cursor: Option<Cursor>, at: nat)
  {
    at <= |rows| && Where(rows, l => Past(l, cursor)) == rows[at..]
  }

  /** A page holds the next rows, and its cursor stands right after them. */
  lemma {:induction false} NextPage(rows: seq<Log>, size: nat, cursor: Option<Cursor>, at: nat)
    requires NewestFirst(rows) && size > 0 && StandsAt(rows, cursor, at)
    ensures var page := Query(rows, size, cursor);
            && |page.logs| == Min(size, |rows| - at) && page.logs == rows[at..at + |page.logs|]
            && (page.next.Some? <==> |page.logs| == size)
            && (page.next.Some? ==> StandsAt(rows, page.next, at + size))
  {
    var page := Query(rows, size, cursor);
    assert page.logs == Limit(rows[at..], size);
    if |page.logs| == size {
      assert page.logs[size - 1] == rows[at + size - 1];
      RestAfterCursor(rows, at + size - 1);
    }
  }

  lemma {:induction false} PrefixGrows(rows: seq<Log>, at: nat, logs: seq<Log>, n: nat)
    requires at + |logs| <= |rows| && logs == rows[at..at + |logs|] && n <= |logs|
    ensures rows[..at] + logs[..n] == rows[..at + n]
  {
  }

  lemma {:induction false} PrefixUpToCap(rows: seq<Log>, n: nat, maxRows: nat)
    requires n <= Min(maxRows, |rows|)
    ensures rows[..n] <= rows && (n == Min(maxRows, |rows|) ==> rows[..n] == Limit(rows, maxRows))
  {
  }

  lemma {:induction false} StartsAtTop(rows: seq<Log>)
    ensures StandsAt(rows, None, 0)
  {
    WhereAll(rows, l => Past(l, None));
  }

  /** Writes the rows of one page, starting at row number `start`, until the cap. */
  method WriteRows(logs: seq<Log>, start: nat, maxRows: nat, w: World) returns (n: nat, failed: bool)
    requires start <= maxRows
    ensures n <= Min(|logs|, maxRows - start)
    ensures if failed then !w.rowOk(start + n) else n == Min(|logs|, maxRows - start)
  {
    n, failed := 0, false;
    while n < |logs|
      invariant n <= Min(|logs|, maxRows - start)
    {
      if start + n >= maxRows {
        return;
      }
      if !w.rowOk(start + n) {
        return n, true;
      }
      n := n + 1;
    }
  }

  /** One turn of the loop: fetch the page at the cursor, write its rows, and either
      stop or hand on the next cursor. */
  method ExportPage(rows: seq<Log>, pageSize: nat, maxRows: nat, w: World, cursor: Option<Cursor>, at: nat, turn: nat)
    returns (chunk: seq<Log>, next: Option<Cursor>, error: Option<ExportError>)
    requires NewestFirst(rows) && pageSize > 0 && StandsAt(rows, cursor, at) && at <= maxRows
    ensures |chunk| <= Min(pageSize, Min(maxRows, |rows|) - at) && chunk == rows[at..at + |chunk|]
    ensures Undisturbed(w) ==> error.None?
    ensures error.None? && next.None? ==> at + |chunk| == Min(maxRows, |rows|) < at + pageSize
    ensures error.None? && next.Some? ==> |chunk| == pageSize && StandsAt(rows, next, at + pageSize)
  {
    chunk, next, error := [], None, None;
    if !w.fetchOk(turn) {
      return chunk, next, Some(FetchFailed);
    }
    var page := Query(rows, pageSize, cursor);
    NextPage(rows, pageSize, cursor, at);

    var n, failed := WriteRows(page.logs, at, maxRows, w);
    chunk := page.logs[..n];
    if failed {
      return chunk, next, Some(WriteFailed);
    }
    if !w.flushOk(turn) {
      return chunk, next, Some(FlushFailed);
    }
    if n < |page.logs| || page.next.None? {
      return;
    }
    if !w.clientThere(turn) {
      return chunk, next, Some(ClientGone);
    }
    next := page.next;
  }

  /** Follows the cursor page by page and writes at most maxRows rows. Whatever goes
      wrong, what was written is a prefix of the listing; when nothing does, it is
      the whole listing up to the cap, and the number of pages fetched is known. */
  method WriteExport(rows: seq<Log>, pageSize: nat, maxRows: nat, w: World)
    returns (written: nat, out: seq<Log>, error: Option<ExportError>, fetches: nat)
    requires NewestFirst(rows) && pageSize > 0
    ensures written == |out| <= maxRows && out <= rows
    ensures error.None? ==> out == Limit(rows, maxRows)
    ensures error.None? ==>
              fetches > 0 && PagesOf(fetches - 1, pageSize) <= Min(maxRows, |rows|) < PagesOf(fetches, pageSize)
    ensures Undisturbed(w) ==> error.None?
  {
    written, out, error, fetches := 0, [], None, 0;
    var cursor: Option<Cursor> := None;
    StartsAtTop(rows);

    while true
      invariant written <= Min(maxRows, |rows|) && out == rows[..written]
      invariant written == PagesOf(fetches, pageSize)
      invariant StandsAt(rows, cursor, written)
      decreases |rows| - written
    {
      var chunk, next, failure := ExportPage(rows, pageSize, maxRows, w, cursor, written, fetches);
      PrefixGrows(rows, written, chunk, |chunk|);
      out := out + chunk;
      written := written + |chunk|;
      fetches := fetches + 1;
      if failure.Some? || next.None? {
        PrefixUpToCap(rows, written, maxRows);
        return written, out, failure, fetches;
      }
      cursor := next;
    }
  }

  datatype Reply =
    | BadLimit
    | QueryFailed
    | Streamed(out: seq<Log>, error: Option<ExportError>)

  /** An export request. A bad cap and a failing first page are still answered as errors;
      after that the rows are streamed, at most as many as were asked for and as there may
      be, and all of those unless something fails. */
  method StreamExport(asked: Asked, rows: seq<Log>, w: World) returns (r: Reply)
    requires NewestFirst(rows)
    ensures r.BadLimit? <==> asked.NotANumber? || (asked.Rows? && asked.n <= 0)
    ensures r.QueryFailed? <==> !r.BadLimit? && !w.fetchOk(0)
    ensures r.Streamed? ==>
              && r.out <= rows && |r.out| <= MAX_EXPORT_ROWS && (asked.Rows? ==> |r.out| <= asked.n)
              && (r.error.None? ==>
                    |r.out| == |rows| || |r.out| == MAX_EXPORT_ROWS || (asked.Rows? && |r.out| == asked.n))
    ensures Undisturbed(w) ==> r.BadLimit? || (r.Streamed? && r.error.None?)
  {
    var limit := ExportRowLimit(asked);
    if limit.None? {
      return BadLimit;
    }
    if !w.fetchOk(0) {
      return QueryFailed;
    }
    var written, out, error, fetches := WriteExport(rows, EXPORT_PAGE_SIZE, limit.value, w);
    return Streamed(out, error);
  }

  // ---------------------------------------------------------------------------
  // Facts about cursors

  lemma {:induction false} WhereAll(rows: seq<Log>, condition: Log -> bool)
    requires forall i :: 0 <= i < |rows| ==> condition(rows[i])
    ensures Where(rows, condition) == rows
    decreases |rows|
  {
    if rows != [] {
      WhereAll(rows[1..], condition);
      assert rows == [rows[0]] + rows[1..];
    }
  }

  lemma {:induction false} WhereAppend(a: seq<Log>, b: seq<Log>, condition: Log -> bool)
    ensures Where(a + b, condition) == Where(a, condition) + Where(b, condition)
    decreases |a|
  {
    if a == [] {
      assert a + b == b;
    } else {
      assert (a + b)[1..] == a[1..] + b;
      WhereAppend(a[1..], b, condition);
    }
  }

  lemma {:induction false} WhereNone(rows: seq<Log>, condition: Log -> bool)
    requires forall i :: 0 <= i < |rows| ==> !condition(rows[i])
    ensures Where(rows, condition) == []
    decreases |rows|
  {
    if rows != [] {
      WhereNone(rows[1..], condition);
    }
  }

  /** The cursor of a row selects exactly the rows after it. */
  lemma {:induction false} RestAfterCursor(rows: seq<Log>, i: nat)
    requires NewestFirst(rows) && i < |rows|
    ensures Where(rows, l => Past(l, Some(CursorOf(rows[i])))) == rows[i + 1..]
  {
    var past := l => Past(l, Some(CursorOf(rows[i])));
    assert rows == rows[..i + 1] + rows[i + 1..];
    WhereAppend(rows[..i + 1], rows[i + 1..], past);
    WhereNone(rows[..i + 1], past);
    WhereAll(rows[i + 1..], past);
  }

  lemma {:induction false} WhereKeepsOrder(rows: seq<Log>, condition: Log -> bool)
    requires NewestFirst(rows)
    ensures NewestFirst(Where(rows, condition))
    decreases |rows|
  {
    if rows != [] {
      WhereKeepsOrder(rows[1..], condition);
      WhereMembers(rows[1..], condition);
      var rest := Where(rows[1..], condition);
      forall l | l in rest
        ensures Below(l, CursorOf(rows[0]))
      {
        assert l in rows[1..];
        var k :| 0 <= k < |rows| - 1 && rows[1..][k] == l;
        assert l == rows[k + 1];
      }
      assert forall j :: 0 <= j < |rest| ==> rest[j] in rest;
    }
  }

  // ---------------------------------------------------------------------------
  // Reading several projects at once

  predicate InScope(l: Log, projects: set<ProjectId>, cursor: Option<Cursor>)
  {
    l.project in projects && Past(l, cursor)
  }

  /** The newest `limit` rows of one project: the inner query of the LATERAL join. */
  function Newest(rows: seq<Log>, project: ProjectId, limit: nat, cursor: Option<Cursor>): seq<Log>
  {
    Limit(Where(rows, l => InScope(l, {project}, cursor)), limit)
  }

  /** The LATERAL form: the newest of each project, listed together and cut again. */
  ghost function FanOut(rows: seq<Log>, projects: set<ProjectId>, limit: nat, cursor: Option<Cursor>): seq<Log>
  {
    Limit(Where(rows, (l: Log) => l.project in projects && l in Newest(rows, l.project, limit, cursor)), limit)
  }

  lemma {:induction false} AmongFirstOfFewer(rows: seq<Log>, all: Log -> bool, some: Log -> bool, n: nat, x: Log)
    requires forall l :: some(l) ==> all(l)
    requires x in Limit(Where(rows, all), n) && some(x)
    ensures x in Limit(Where(rows, some), n)
    decreases |rows|
  {
    if rows != [] && n > 0 {
      var r := rows[0];
      var a, s := Where(rows[1..], all), Where(rows[1..], some);
      if all(r) {
        assert Limit([r] + a, n) == [r] + Limit(a, n - 1);
        assert some(r) ==> Limit([r] + s, n) == [r] + Limit(s, n - 1);
        if x != r {
          AmongFirstOfFewer(rows[1..], all, some, n - 1, x);
          LimitGrows(s, n - 1, x);
        }
      } else {
        AmongFirstOfFewer(rows[1..], all, some, n, x);
      }
    }
  }

  lemma {:induction false} LimitGrows(rows: seq<Log>, n: nat, x: Log)
    requires x in Limit(rows, n)
    ensures x in Limit(rows, n + 1)
  {
    var k :| 0 <= k < |Limit(rows, n)| && Limit(rows, n)[k] == x;
    assert Limit(rows, n + 1)[k] == x;
  }

  /** Dropping rows that are not among the first n does not change the first n. */
  lemma {:induction false} FirstOfFewer(rows: seq<Log>, all: Log -> bool, some: Log -> bool, n: nat)
    requires forall l :: l in rows && some(l) ==> all(l)
    requires forall l :: l in Limit(Where(rows, all), n) ==> some(l)
    ensures Limit(Where(rows, some), n) == Limit(Where(rows, all), n)
    decreases |rows|
  {
    if rows != [] {
      var r := rows[0];
      var a, s := Where(rows[1..], all), Where(rows[1..], some);
      if n == 0 {
      } else if all(r) {
        assert Limit([r] + a, n) == [r] + Limit(a, n - 1);
        assert r in Limit([r] + a, n);
        assert forall l :: l in Limit(a, n - 1) ==> l in Limit([r] + a, n);
        assert Limit([r] + s, n) == [r] + Limit(s, n - 1);
        FirstOfFewer(rows[1..], all, some, n - 1);
      } else {
        FirstOfFewer(rows[1..], all, some, n);
      }
    }
  }

  /** Reading the newest rows of each project and merging them gives the same page as
      one query over all of the projects. */
  lemma {:induction false} FanOutIsExact(rows: seq<Log>, projects: set<ProjectId>, limit: nat, cursor: Option<Cursor>)
    ensures FanOut(rows, projects, limit, cursor) == Limit(Where(rows, l => InScope(l, projects, cursor)), limit)
  {
    var all := l => InScope(l, projects, cursor);
    var some := (l: Log) => l.project in projects && l in Newest(rows, l.project, limit, cursor);
    forall x | x in Limit(Where(rows, all), limit)
      ensures some(x)
    {
      var own := l => InScope(l, {x.project}, cursor);
      WhereMembers(rows, all);
      assert x in Where(rows, all);
      assert InScope(x, projects, cursor) && own(x);
      assert forall l :: own(l) ==> all(l);
      AmongFirstOfFewer(rows, all, own, limit, x);
    }
    forall x | x in rows && some(x)
      ensures all(x)
    {
      var own := l => InScope(l, {x.project}, cursor);
      WhereMembers(rows, own);
      assert x in Where(rows, own);
    }
    FirstOfFewer(rows, all, some, limit);
  }

  lemma {:induction false} WhereTwice(rows: seq<Log>, first: Log -> bool, second: Log -> bool)
    ensures Where(Where(rows, first), second) == Where(rows, l => first(l) && second(l))
    decreases |rows|
  {
    if rows != [] {
      WhereTwice(rows[1..], first, second);
    }
  }

  /** So every page of an organization-wide read is the page of its projects' own listing,
      and WriteExport over that listing is what an organization-wide export writes. */
  lemma {:induction false} FanOutPagesTheListing(rows: seq<Log>, projects: set<ProjectId>, limit: nat,
                                                 cursor: Option<Cursor>)
    requires NewestFirst(rows)
    ensures var listing := Where(rows, l => InScope(l, projects, None));
            NewestFirst(listing) && FanOut(rows, projects, limit, cursor) == StoreQuery(listing, limit, cursor)
  {
    var first := l => InScope(l, projects, None);
    var second := l => Past(l, cursor);
    var both := l => InScope(l, projects, cursor);
    WhereKeepsOrder(rows, first);
    FanOutIsExact(rows, projects, limit, cursor);
    WhereTwice(rows, first, second);
    SameCondition(rows, l => first(l) && second(l), both);
  }

  lemma {:induction false} SameCondition(rows: seq<Log>, a: Log -> bool, b: Log -> bool)
    requires forall l :: a(l) <==> b(l)
    ensures Where(rows, a) == Where(rows, b)
    decreases |rows|
  {
    if rows != [] {
      SameCondition(rows[1..], a, b);
    }
  }
}
