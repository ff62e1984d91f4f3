/** The message tables as the history queries see them: server/src/chat/messages.rs, server/src/p2p/messages.rs and
    server/src/dm/messages.rs number and page their rows in the same way. */
module MessageLog {
  import opened Wrappers

  const DEFAULT_LIMIT := 50
  const MAX_LIMIT := 100
  const I64_LIMIT := 0x8000_0000_0000_0000
  const U64_LIMIT := 0x1_0000_0000_0000_0000

  /** A channel or conversation id, and a user's public key in hex. */
  datatype LogId = LogId(text: string)
  datatype UserKey = UserKey(hex: string)

  /** The columns of messages and dm_messages that the queries use; rows are kept in insertion order. */
  datatype Row = Row(id: nat, log: LogId, sequence: int, deleted: bool, body: Body)

  datatype Body = Body(sender: UserKey, timestamp: int, content: Bytes, edited: bool)

  /** Row ids are drawn in increasing order. */
  ghost predicate IdsAscend(rows: seq<Row>, next: nat) {
    && (forall i, j :: 0 <= i < j < |rows| ==> rows[i].id < rows[j].id)
    && forall i :: 0 <= i < |rows| ==> rows[i].id < next
  }

  // ---- sequence numbers ----

  function Count(rows: seq<Row>, log: LogId): nat {
    if rows == [] then 0
    else Count(rows[..|rows| - 1], log) + if rows[|rows| - 1].log == log then 1 else 0
  }

  /** SELECT COALESCE(MAX(server_sequence), 0) ... WHERE channel_id = log */
  function MaxSequence(rows: seq<Row>, log: LogId): int {
    if rows == [] then 0
    else
      var before := MaxSequence(rows[..|rows| - 1], log);
      var last := rows[|rows| - 1];
      if last.log == log && last.sequence > before then last.sequence else before
  }

  /** Each row carries the number of rows its log had, and one. */
  predicate Numbered(rows: seq<Row>) {
    rows == [] ||
    (Numbered(rows[..|rows| - 1]) && rows[|rows| - 1].sequence == Count(rows[..|rows| - 1], rows[|rows| - 1].log) + 1)
  }

  function InLog(rows: seq<Row>, log: LogId): seq<Row> {
    if rows == [] then []
    else InLog(rows[..|rows| - 1], log) + if rows[|rows| - 1].log == log then [rows[|rows| - 1]] else []
  }

  /** In insertion order a log's rows carry exactly 1, 2, ..., n. */
  lemma {:induction false} LogIsOneToN(rows: seq<Row>, log: LogId)
    requires Numbered(rows)
    ensures |InLog(rows, log)| == Count(rows, log)
    ensures forall k :: 0 <= k < |InLog(rows, log)| ==> InLog(rows, log)[k].sequence == k + 1
  {
    if rows == [] {
    } else {
      LogIsOneToN(rows[..|rows| - 1], log);
    }
  }

  lemma {:induction false} MaxIsCount(rows: seq<Row>, log: LogId)
    requires Numbered(rows)
    ensures MaxSequence(rows, log) == Count(rows, log)
  {
    if rows == [] {
    } else {
      MaxIsCount(rows[..|rows| - 1], log);
    }
  }

  /** Inserting with the next sequence keeps the numbering. */
  lemma InsertKeepsNumbered(rows: seq<Row>, row: Row)
    requires Numbered(rows) && row.sequence == MaxSequence(rows, row.log) + 1
    ensures Numbered(rows + [row])
  {
    MaxIsCount(rows, row.log);
    assert (rows + [row])[..|rows|] == rows;
  }

  /** The same logs and numbers; contents and flags may differ. */
  ghost predicate SameNumbers(a: seq<Row>, b: seq<Row>) {
    |a| == |b| && forall k :: 0 <= k < |a| ==> a[k].log == b[k].log && a[k].sequence == b[k].sequence
  }

  lemma {:induction false} UpdateKeepsNumbered(a: seq<Row>, b: seq<Row>, log: LogId)
    requires SameNumbers(a, b)
    ensures Count(a, log) == Count(b, log)
    ensures Numbered(a) ==> Numbered(b)
  {
    if a == [] {
    } else {
      UpdateKeepsNumbered(a[..|a| - 1], b[..|b| - 1], log);
      UpdateKeepsNumbered(a[..|a| - 1], b[..|b| - 1], b[|b| - 1].log);
    }
  }

  /** ON DELETE CASCADE: the rows of one log disappear. */
  function WithoutLog(rows: seq<Row>, log: LogId): seq<Row> {
    if rows == [] then []
    else WithoutLog(rows[..|rows| - 1], log) + if rows[|rows| - 1].log == log then [] else [rows[|rows| - 1]]
  }

  lemma {:induction false} CascadeKeepsOthers(rows: seq<Row>, log: LogId, other: LogId)
    ensures other != log ==> InLog(WithoutLog(rows, log), other) == InLog(rows, other)
    ensures Count(WithoutLog(rows, log), other) == if other == log then 0 else Count(rows, other)
  {
    if rows == [] {
    } else {
      CascadeKeepsOthers(rows[..|rows| - 1], log, other);
      Snoc(WithoutLog(rows[..|rows| - 1], log), rows[|rows| - 1]);
      LastKept(rows, log);
    }
  }

  lemma LastKept(rows: seq<Row>, log: LogId)
    requires rows != []
    ensures var last := rows[|rows| - 1]; var rest := WithoutLog(rows[..|rows| - 1], log);
      WithoutLog(rows, log) == if last.log == log then rest else rest + [last]
  {
  }

  lemma NumberedSnoc(rows: seq<Row>, last: Row)
    ensures Numbered(rows + [last]) <==> Numbered(rows) && last.sequence == Count(rows, last.log) + 1
  {
    Snoc(rows, last);
  }

  lemma {:induction false} CascadeKeepsNumbered(rows: seq<Row>, log: LogId)
    requires Numbered(rows)
    ensures Numbered(WithoutLog(rows, log))
  {
    if rows == [] {
    } else {
      var last := rows[|rows| - 1];
      CascadeKeepsNumbered(rows[..|rows| - 1], log);
      CascadeKeepsOthers(rows[..|rows| - 1], log, last.log);
      NumberedSnoc(WithoutLog(rows[..|rows| - 1], log), last);
      LastKept(rows, log);
      hide WithoutLog, Count;
    }
  }

  lemma Snoc<T>(s: seq<T>, x: T)
    ensures (s + [x])[..|s|] == s && (s + [x])[|s|] == x && |s + [x]| == |s| + 1
  {
  }

  lemma {:induction false} SequenceBounds(rows: seq<Row>, r: Row)
    requires Numbered(rows) && r in rows
    ensures 1 <= r.sequence <= Count(rows, r.log) <= |rows|
  {
    var n := |rows| - 1;
    CountBound(rows, r.log);
    if r != rows[n] {
      assert r in rows[..n] by { Split(rows); }
      SequenceBounds(rows[..n], r);
    }
  }

  lemma Split<T>(s: seq<T>)
    requires s != []
    ensures s == s[..|s| - 1] + [s[|s| - 1]]
  {
  }

  lemma {:induction false} CountBound(rows: seq<Row>, log: LogId)
    ensures Count(rows, log) <= |rows|
  {
    if rows == [] {
    } else {
      CountBound(rows[..|rows| - 1], log);
    }
  }

  // ---- one page ----

  predicate Matches(r: Row, log: LogId, bound: int) { r.log == log && r.sequence < bound && !r.deleted }

  /** WHERE channel_id = log AND server_sequence < bound AND deleted = 0 ORDER BY server_sequence DESC */
  function Query(rows: seq<Row>, log: LogId, bound: int): seq<Row> {
    if rows == [] then []
    else
      var last := rows[|rows| - 1];
      (if Matches(last, log, bound) then [last] else []) + Query(rows[..|rows| - 1], log, bound)
  }

  ghost predicate Descending(page: seq<Row>) {
    forall i, j :: 0 <= i < j < |page| ==> page[i].sequence > page[j].sequence
  }

  /** What the query must return: exactly the matching rows, in strictly descending order. */
  lemma {:induction false} QueryIsDescending(rows: seq<Row>, log: LogId, bound: int)
    requires Numbered(rows)
    ensures Descending(Query(rows, log, bound))
    ensures forall r :: r in Query(rows, log, bound) <==> r in rows && Matches(r, log, bound)
    ensures forall r :: r in Query(rows, log, bound) <==>
      r in rows && r.log == log && r.sequence < bound && !r.deleted
    ensures forall r :: r in Query(rows, log, bound) ==> 1 <= r.sequence <= Count(rows, log)
  {
    if rows == [] {
    } else {
      var n := |rows| - 1;
      QueryIsDescending(rows[..n], log, bound);
      assert rows == rows[..n] + [rows[n]];
    }
  }

  function Take<T>(s: seq<T>, n: nat): seq<T> { if n < |s| then s[..n] else s }

  datatype Page = Page(messages: seq<Row>, hasMore: bool)

  function PageBelow(rows: seq<Row>, log: LogId, bound: int, limit: nat): Page {
    var fetched := Take(Query(rows, log, bound), limit + 1);
    Page(Take(fetched, limit), |fetched| > limit)
  }

  /** The cast of a u64 to an i64 */
  function AsI64(x: nat): int
    requires x < U64_LIMIT
  {
    if x < I64_LIMIT then x else x - U64_LIMIT
  }

  predicate IsCursor(before: Option<nat>) { before.Some? ==> before.value < U64_LIMIT }

  function EffectiveLimit(limit: Option<nat>): (l: nat) {
    var asked := if limit.Some? then limit.value else DEFAULT_LIMIT;
    if asked < MAX_LIMIT then asked else MAX_LIMIT
  }

  /** get_channel_messages and get_dm_messages */
  function GetPage(rows: seq<Row>, log: LogId, before: Option<nat>, limit: Option<nat>): Page
    requires IsCursor(before)
  {
    var cursor := if before.Some? then before.value else U64_LIMIT - 1;
    PageBelow(rows, log, AsI64(cursor), EffectiveLimit(limit))
  }

  /** A page is the newest matching rows in descending order, and has_more is true exactly when some were left out. */
  lemma PageIsTop(rows: seq<Row>, log: LogId, bound: int, limit: nat)
    requires Numbered(rows)
    ensures var page := PageBelow(rows, log, bound, limit); var all := Query(rows, log, bound);
      && page.messages == Take(all, limit) && Descending(page.messages)
      && (page.hasMore <==> |all| > limit)
      && (page.hasMore <==> exists r :: r in rows && Matches(r, log, bound) && r !in page.messages)
      && (forall r, m :: r in rows && Matches(r, log, bound) && r !in page.messages && m in page.messages ==>
            r.sequence < m.sequence)
  {
    var page := PageBelow(rows, log, bound, limit);
    var all := Query(rows, log, bound);
    QueryIsDescending(rows, log, bound);
    assert page.messages == Take(all, limit);
    if |all| > limit {
      var r := all[limit];
      assert r in all && r !in page.messages;
    }
  }

  /** The newest rows of the log below the bound, at most so many, newest first, and whether any were left out. */
  ghost predicate IsNewest(page: Page, rows: seq<Row>, log: LogId, bound: int, limit: nat) {
    && |page.messages| <= limit && Descending(page.messages)
    && (forall m :: m in page.messages ==> m in rows && Matches(m, log, bound))
    && (page.hasMore <==> exists r :: r in rows && Matches(r, log, bound) && r !in page.messages)
    && (forall r, m :: r in rows && Matches(r, log, bound) && r !in page.messages && m in page.messages ==>
          r.sequence < m.sequence)
    && (page.hasMore ==> |page.messages| == limit)
  }

  lemma NewestMeans(page: Page, rows: seq<Row>, log: LogId, bound: int, limit: nat)
    requires IsNewest(page, rows, log, bound, limit)
    ensures |page.messages| <= limit && (page.hasMore ==> |page.messages| == limit)
    ensures forall i, j :: 0 <= i < j < |page.messages| ==> page.messages[i].sequence > page.messages[j].sequence
    ensures forall m :: m in page.messages ==> m in rows && m.log == log && m.sequence < bound && !m.deleted
    ensures forall r, m :: r in rows && r.log == log && !r.deleted && r !in page.messages && m in page.messages ==>
      r.sequence < m.sequence || r.sequence >= bound
    ensures page.hasMore <==>
      exists r :: r in rows && r.log == log && r.sequence < bound && !r.deleted && r !in page.messages
  {
  }

  lemma PageIsNewest(rows: seq<Row>, log: LogId, before: Option<nat>, limit: Option<nat>)
    requires Numbered(rows) && IsCursor(before)
    ensures before.Some? && before.value < I64_LIMIT ==>
      IsNewest(GetPage(rows, log, before, limit), rows, log, before.value, EffectiveLimit(limit))
    ensures before.Some? && before.value < 0x8000_0000_0000_0000 ==>
      var page := GetPage(rows, log, before, limit);
      var asked := if limit.Some? then limit.value else 50;
      && |page.messages| <= asked && |page.messages| <= 100
      && (forall i, j :: 0 <= i < j < |page.messages| ==> page.messages[i].sequence > page.messages[j].sequence)
      && (forall m :: m in page.messages ==>
            m in rows && m.log == log && m.sequence < before.value && !m.deleted)
      && (forall r, m :: r in rows && r.log == log && !r.deleted && r !in page.messages && m in page.messages ==>
            r.sequence < m.sequence || r.sequence >= before.value)
      && (page.hasMore <==>
            exists r :: r in rows && r.log == log && r.sequence < before.value && !r.deleted && r !in page.messages)
      && (page.hasMore ==> |page.messages| == if asked < 100 then asked else 100)
    ensures before.None? || before.value >= I64_LIMIT ==> GetPage(rows, log, before, limit) == Page([], false)
  {
    if before.Some? && before.value < I64_LIMIT {
      PageBelowIsNewest(rows, log, before.value, EffectiveLimit(limit));
      NewestMeans(GetPage(rows, log, before, limit), rows, log, before.value, EffectiveLimit(limit));
      hide Query, Numbered, Count, IsNewest, Matches, Descending;
    } else {
      NothingBelowOne(rows, log, AsI64(if before.Some? then before.value else U64_LIMIT - 1));
      hide Numbered, Query;
    }
  }

  lemma TakeIsPart<T>(s: seq<T>, n: nat)
    ensures |Take(s, n)| <= n && (|s| > n ==> |Take(s, n)| == n)
    ensures forall x :: x in Take(s, n) ==> x in s
  {
  }

  lemma PageBelowIsNewest(rows: seq<Row>, log: LogId, bound: int, limit: nat)
    requires Numbered(rows)
    ensures IsNewest(PageBelow(rows, log, bound, limit), rows, log, bound, limit)
  {
    PageIsTop(rows, log, bound, limit);
    QueryIsDescending(rows, log, bound);
    TakeIsPart(Query(rows, log, bound), limit);
    hide Query, Numbered, Count, Descending, Matches, PageBelow, Take;
  }

  /** The page a caller means who asks for the rows below a cursor: the cursor is a u64, and leaving it out means the
      largest one. The query agrees unless the cast makes the cursor negative and there is something to miss. */
  lemma CursorIsHonoured(rows: seq<Row>, log: LogId, before: Option<nat>, limit: Option<nat>)
    requires Numbered(rows) && |rows| < I64_LIMIT - 1 && IsCursor(before)
    ensures var cursor := if before.Some? then before.value else U64_LIMIT - 1;
      GetPage(rows, log, before, limit) == PageBelow(rows, log, cursor, EffectiveLimit(limit))
      <==> cursor < I64_LIMIT || forall r :: r in rows && r.log == log ==> r.deleted
  {
    var cursor := if before.Some? then before.value else U64_LIMIT - 1;
    CastOf(cursor);
    if cursor >= I64_LIMIT {
      NothingBelowOne(rows, log, AsI64(cursor));
      EmptyPage(rows, log, AsI64(cursor), EffectiveLimit(limit));
      EmptyPage(rows, log, cursor, EffectiveLimit(limit));
      if r :| r in rows && r.log == log && !r.deleted {
        SequenceBounds(rows, r);
        QueryIsDescending(rows, log, cursor);
        assert Matches(r, log, cursor);
        hide Numbered, Query, AsI64, EffectiveLimit, Descending, Matches, Count, PageBelow;
        assert r in Query(rows, log, cursor);
      } else {
        QueryEmpty(rows, log, cursor);
        hide Numbered, Query, AsI64, EffectiveLimit, Matches, PageBelow;
      }
    }
  }

  lemma CastOf(x: nat)
    requires x < U64_LIMIT
    ensures AsI64(x) == x || (x >= I64_LIMIT && AsI64(x) < 0)
  {
  }

  lemma EmptyPage(rows: seq<Row>, log: LogId, bound: int, limit: nat)
    ensures Query(rows, log, bound) == [] <==> PageBelow(rows, log, bound, limit) == Page([], false)
  {
    hide Query;
  }

  lemma {:induction false} QueryEmpty(rows: seq<Row>, log: LogId, bound: int)
    requires forall r :: r in rows ==> !Matches(r, log, bound)
    ensures Query(rows, log, bound) == []
  {
    if rows == [] {
    } else {
      QueryEmpty(rows[..|rows| - 1], log, bound);
    }
  }

  lemma NothingBelowOne(rows: seq<Row>, log: LogId, bound: int)
    requires Numbered(rows) && bound <= 1
    ensures Query(rows, log, bound) == []
  {
    forall r | r in rows ensures !Matches(r, log, bound) {
      SequenceBounds(rows, r);
    }
    QueryEmpty(rows, log, bound);
  }

  /** So a request without a cursor gets an empty last page, whatever the channel holds. */
  lemma NoCursorNoHistory(rows: seq<Row>, log: LogId, limit: Option<nat>)
    requires Numbered(rows)
    ensures GetPage(rows, log, None, limit) == Page([], false)
  {
    NothingBelowOne(rows, log, -1);
    hide Query;
  }

  // ---- walking the history ----

  /** Every later page is a suffix of the query the walk began with. */
  lemma {:induction false} QueryBelowItsOwn(rows: seq<Row>, log: LogId, bound: int, k: nat)
    requires Numbered(rows) && k < |Query(rows, log, bound)|
    ensures Query(rows, log, Query(rows, log, bound)[k].sequence) == Query(rows, log, bound)[k + 1..]
  {
    var n := |rows| - 1;
    var all, older := Query(rows, log, bound), Query(rows[..n], log, bound);
    var last := rows[n];
    if Matches(last, log, bound) {
      assert all == [last] + older;
      if k == 0 {
        SameBelow(rows[..n], log, bound, last.sequence);
      } else {
        QueryIsDescending(rows, log, bound);
        assert all[k] == older[k - 1] && all[0] == last && all[k + 1..] == older[k..];
        QueryBelowItsOwn(rows[..n], log, bound, k - 1);
      }
    } else {
      QueryIsDescending(rows, log, bound);
      assert all == older && older[k] in all;
      QueryBelowItsOwn(rows[..n], log, bound, k);
    }
  }

  lemma {:induction false} SameBelow(rows: seq<Row>, log: LogId, a: int, b: int)
    requires Numbered(rows) && Count(rows, log) < a && Count(rows, log) < b
    ensures Query(rows, log, a) == Query(rows, log, b)
  {
    if rows == [] {
    } else {
      SameBelow(rows[..|rows| - 1], log, a, b);
    }
  }

  /** Asking for page after page, each below the last sequence of the one before. */
  function Walk(rows: seq<Row>, log: LogId, cursor: nat, limit: Option<nat>): seq<Row>
    requires Numbered(rows) && cursor < I64_LIMIT && limit != Some(0)
    decreases cursor
  {
    var page := GetPage(rows, log, Some(cursor), limit);
    if !page.hasMore then page.messages
    else page.messages + Walk(rows, log, NextCursor(rows, log, cursor, limit), limit)
  }

  function NextCursor(rows: seq<Row>, log: LogId, cursor: nat, limit: Option<nat>): (next: nat)
    requires Numbered(rows) && cursor < I64_LIMIT && limit != Some(0) && GetPage(rows, log, Some(cursor), limit).hasMore
    ensures next < cursor
    ensures var page := GetPage(rows, log, Some(cursor), limit);
      |page.messages| > 0 && next == page.messages[|page.messages| - 1].sequence
  {
    GetPageIs(rows, log, cursor, limit);
    QueryIsDescending(rows, log, cursor);
    hide Query, GetPage;
    assert Query(rows, log, cursor)[EffectiveLimit(limit) - 1] in Query(rows, log, cursor);
    var page := GetPage(rows, log, Some(cursor), limit);
    page.messages[|page.messages| - 1].sequence
  }

  /** What is still to come after a page that was not the last. */
  lemma RestBelow(rows: seq<Row>, log: LogId, cursor: nat, limit: Option<nat>)
    requires Numbered(rows) && cursor < I64_LIMIT && limit != Some(0) && GetPage(rows, log, Some(cursor), limit).hasMore
    ensures var all := Query(rows, log, cursor); var l := EffectiveLimit(limit);
      var next := NextCursor(rows, log, cursor, limit);
      && 0 < l < |all| && next == all[l - 1].sequence && next <= Count(rows, log)
      && GetPage(rows, log, Some(cursor), limit).messages == all[..l] && Query(rows, log, next) == all[l..]
  {
    GetPageIs(rows, log, cursor, limit);
    hide *;
    var l := EffectiveLimit(limit);
    QueryBelowItsOwn(rows, log, cursor, l - 1);
    FoundNumber(rows, log, cursor, l - 1);
  }

  lemma FoundNumber(rows: seq<Row>, log: LogId, bound: int, k: nat)
    requires Numbered(rows) && k < |Query(rows, log, bound)|
    ensures 1 <= Query(rows, log, bound)[k].sequence <= Count(rows, log) && Query(rows, log, bound)[k].sequence < bound
  {
    QueryIsDescending(rows, log, bound);
    hide Query, Numbered, Count, Descending;
    assert Query(rows, log, bound)[k] in Query(rows, log, bound);
  }

  /** The walk ends, and yields every live message below the first cursor once, newest first. */
  lemma {:induction false} WalkIsWhole(rows: seq<Row>, log: LogId, cursor: nat, limit: Option<nat>)
    requires Numbered(rows) && cursor < I64_LIMIT && limit != Some(0)
    ensures Walk(rows, log, cursor, limit) == Query(rows, log, cursor)
    decreases cursor
  {
    GetPageIs(rows, log, cursor, limit);
    if GetPage(rows, log, Some(cursor), limit).hasMore {
      RestBelow(rows, log, cursor, limit);
      WalkIsWhole(rows, log, NextCursor(rows, log, cursor, limit), limit);
      hide GetPage, Query, Numbered, NextCursor, EffectiveLimit, Count;
    } else {
      hide GetPage, Query, Numbered, NextCursor, EffectiveLimit, Count;
    }
  }

  lemma GetPageIs(rows: seq<Row>, log: LogId, cursor: nat, limit: Option<nat>)
    requires cursor < I64_LIMIT && limit != Some(0)
    ensures var page := GetPage(rows, log, Some(cursor), limit); var all := Query(rows, log, cursor);
      var l := EffectiveLimit(limit);
      && l > 0
      && (|all| <= l ==> page == Page(all, false))
      && (|all| > l ==> page == Page(all[..l], true))
      && (|all| > l ==> page.messages[l - 1] == all[l - 1] && all == all[..l] + all[l..])
  {
    hide Query;
  }

  /** With a limit of zero there is always more and never anything to move on with. */
  lemma ZeroLimitStalls(rows: seq<Row>, log: LogId, cursor: nat)
    requires Numbered(rows) && cursor < I64_LIMIT
    ensures GetPage(rows, log, Some(cursor), Some(0)).messages == []
    ensures GetPage(rows, log, Some(cursor), Some(0)).hasMore <==> exists r :: r in rows && Matches(r, log, cursor)
  {
    PageIsTop(rows, log, cursor, 0);
  }

  // ---- walking while others write ----

  /** Rows were appended, edited and soft-deleted. */
  ghost predicate Grows(a: seq<Row>, b: seq<Row>) {
    && |a| <= |b|
    && forall k :: 0 <= k < |a| ==>
         && a[k].log == b[k].log && a[k].sequence == b[k].sequence && a[k].id == b[k].id
         && (a[k].deleted ==> b[k].deleted)
  }

  ghost predicate IsLogHistory(tables: seq<seq<Row>>) {
    && (forall i :: 0 <= i < |tables| ==> Numbered(tables[i]))
    && forall i, j :: 0 <= i <= j < |tables| ==> Grows(tables[i], tables[j])
  }

  /** The walk, its k-th page taken from the k-th table. */
  ghost function Visited(tables: seq<seq<Row>>, log: LogId, cursor: nat, limit: Option<nat>): seq<Row>
    requires cursor < I64_LIMIT && limit != Some(0)
    requires forall i :: 0 <= i < |tables| ==> Numbered(tables[i])
  {
    if tables == [] then []
    else
      var page := GetPage(tables[0], log, Some(cursor), limit);
      if !page.hasMore then page.messages
      else page.messages + Visited(tables[1..], log, NextCursor(tables[0], log, cursor, limit), limit)
  }

  /** There were tables enough for the walk to see that there is no more. */
  ghost predicate Finished(tables: seq<seq<Row>>, log: LogId, cursor: nat, limit: Option<nat>)
    requires cursor < I64_LIMIT && limit != Some(0)
    requires forall i :: 0 <= i < |tables| ==> Numbered(tables[i])
  {
    && tables != []
    && (GetPage(tables[0], log, Some(cursor), limit).hasMore ==>
          Finished(tables[1..], log, NextCursor(tables[0], log, cursor, limit), limit))
  }

  /** The walk in terms of what the first query finds. */
  lemma VisitedIs(tables: seq<seq<Row>>, log: LogId, cursor: nat, limit: Option<nat>)
    returns (all: seq<Row>, l: nat, next: nat)
    requires cursor < I64_LIMIT && limit != Some(0) && tables != []
    requires forall i :: 0 <= i < |tables| ==> Numbered(tables[i])
    ensures all == Query(tables[0], log, cursor)
    ensures |all| <= l ==> Visited(tables, log, cursor, limit) == all
    ensures |all| > l ==>
      && 0 < l && next == all[l - 1].sequence && next < cursor && next <= Count(tables[0], log)
      && Query(tables[0], log, next) == all[l..]
      && Visited(tables, log, cursor, limit) == all[..l] + Visited(tables[1..], log, next, limit)
      && (Finished(tables, log, cursor, limit) ==> |tables| > 1 && Finished(tables[1..], log, next, limit))
  {
    all, l, next := Query(tables[0], log, cursor), EffectiveLimit(limit), 0;
    GetPageIs(tables[0], log, cursor, limit);
    if |all| > l {
      RestBelow(tables[0], log, cursor, limit);
      hide Query, GetPage, Numbered, EffectiveLimit, NextCursor, Count;
      next := NextCursor(tables[0], log, cursor, limit);
      if |tables| == 1 {
        assert !Finished([], log, next, limit) && tables[1..] == [];
      }
    } else {
      hide Query, GetPage, Numbered, EffectiveLimit, NextCursor, Count;
      assert all + [] == all;
    }
  }

  /** A walk has seen everything, at the latest, after one page for every number below its cursor. */
  lemma {:induction false} WalkEnds(tables: seq<seq<Row>>, log: LogId, cursor: nat, limit: Option<nat>)
    requires cursor < I64_LIMIT && limit != Some(0) && |tables| > cursor
    requires forall i :: 0 <= i < |tables| ==> Numbered(tables[i])
    ensures Finished(tables, log, cursor, limit)
    decreases cursor
  {
    hide GetPage, Numbered, EffectiveLimit;
    if GetPage(tables[0], log, Some(cursor), limit).hasMore {
      WalkEnds(tables[1..], log, NextCursor(tables[0], log, cursor, limit), limit);
    }
  }

  lemma DescendingJoin(a: seq<Row>, b: seq<Row>)
    requires Descending(a) && Descending(b) && a != []
    requires forall m :: m in b ==> m.sequence < a[|a| - 1].sequence
    ensures Descending(a + b)
  {
  }

  lemma DescendingPrefix(a: seq<Row>, n: nat)
    requires Descending(a) && n <= |a|
    ensures Descending(a[..n]) && Descending(a[n..])
  {
  }

  /** Nothing is seen twice, in any order but newest first, or from above the cursor. */
  lemma {:induction false} VisitedOnce(tables: seq<seq<Row>>, log: LogId, cursor: nat, limit: Option<nat>)
    requires cursor < I64_LIMIT && limit != Some(0)
    requires forall i :: 0 <= i < |tables| ==> Numbered(tables[i])
    ensures Descending(Visited(tables, log, cursor, limit))
    ensures forall m :: m in Visited(tables, log, cursor, limit) ==> m.sequence < cursor
  {
    hide *;
    if tables == [] {
      NothingVisited(log, cursor, limit);
    } else {
      var all, l, next := VisitedIs(tables, log, cursor, limit);
      FoundBelow(tables[0], log, cursor);
      if |all| > l {
        VisitedOnce(tables[1..], log, next, limit);
        DescendingPrefix(all, l);
        DescendingJoin(all[..l], Visited(tables[1..], log, next, limit));
        assert forall m :: m in all[..l] ==> m in all;
      }
    }
  }

  lemma FoundBelow(rows: seq<Row>, log: LogId, bound: int)
    requires Numbered(rows)
    ensures Descending(Query(rows, log, bound))
    ensures forall m :: m in Query(rows, log, bound) ==> m.sequence < bound
  {
    QueryIsDescending(rows, log, bound);
  }

  lemma NothingVisited(log: LogId, cursor: nat, limit: Option<nat>)
    requires cursor < I64_LIMIT && limit != Some(0)
    ensures Visited([], log, cursor, limit) == [] && Descending([])
  {
  }

  lemma AboveTheCut(all: seq<Row>, l: nat, r: Row)
    requires Descending(all) && 0 < l < |all| && r in all && r !in all[..l]
    ensures r.sequence < all[l - 1].sequence
  {
    assert all == all[..l] + all[l..];
    var k :| 0 <= k < |all| - l && all[l..][k] == r;
    assert all[l + k] == r;
  }

  /** For tables of one log alone: a message there at the first page, and not deleted before the last, is seen. */
  lemma {:induction false} VisitedAllOfOne(tables: seq<seq<Row>>, log: LogId, cursor: nat, limit: Option<nat>, k: nat)
    requires cursor < I64_LIMIT && limit != Some(0)
    requires tables != [] && IsLogHistory(tables) && Finished(tables, log, cursor, limit)
    requires k < |tables[0]| && Matches(tables[0][k], log, cursor)
    requires !tables[|tables| - 1][k].deleted
    ensures exists m :: m in Visited(tables, log, cursor, limit) && m.id == tables[0][k].id
  {
    hide *;
    var r := tables[0][k];
    HistoryIsNumbered(tables);
    var all, l, next := VisitedIs(tables, log, cursor, limit);
    QueryIsDescending(tables[0], log, cursor);
    assert r in all;
    if |all| > l && r !in all[..l] {
      AboveTheCut(all, l, r);
      LaterTables(tables, k);
      StillMatches(r, tables[1][k], log, cursor, next);
      VisitedAllOfOne(tables[1..], log, next, limit, k);
      var m :| m in Visited(tables[1..], log, next, limit) && m.id == tables[1][k].id;
      assert m in Visited(tables, log, cursor, limit);
    } else {
      assert r in Visited(tables, log, cursor, limit);
    }
  }

  lemma HistoryIsNumbered(tables: seq<seq<Row>>)
    requires IsLogHistory(tables)
    ensures forall i :: 0 <= i < |tables| ==> Numbered(tables[i])
  {
  }

  lemma StillMatches(r: Row, q: Row, log: LogId, bound: int, next: int)
    requires Matches(r, log, bound) && q.log == r.log && q.sequence == r.sequence < next && !q.deleted
    ensures Matches(q, log, next)
  {
  }

  lemma LaterTables(tables: seq<seq<Row>>, k: nat)
    requires IsLogHistory(tables) && |tables| > 1 && k < |tables[0]| && !tables[|tables| - 1][k].deleted
    ensures IsLogHistory(tables[1..])
    ensures k < |tables[1]| && tables[1][k].id == tables[0][k].id && tables[1][k].log == tables[0][k].log
    ensures tables[1][k].sequence == tables[0][k].sequence && !tables[1][k].deleted
    ensures |tables[1..]| == |tables| - 1 && !tables[1..][|tables| - 2][k].deleted
  {
    hide Numbered;
    assert Grows(tables[0], tables[1]) && Grows(tables[1], tables[|tables| - 1]);
  }

  function Sequences(rows: seq<Row>): (s: seq<int>)
    ensures |s| == |rows| && forall k :: 0 <= k < |s| ==> s[k] == rows[k].sequence
  {
    seq(|rows|, k requires 0 <= k < |rows| => rows[k].sequence)
  }

  /** Only new messages and edits in between. */
  ghost predicate NothingHidden(tables: seq<seq<Row>>) {
    forall i, j, k :: 0 <= i <= j < |tables| && 0 <= k < |tables[i]| && k < |tables[j]| ==>
      tables[i][k].deleted == tables[j][k].deleted
  }

  lemma {:induction false} QueryIgnoresNewRows(a: seq<Row>, b: seq<Row>, log: LogId, bound: int)
    requires Numbered(a) && Numbered(b) && Grows(a, b) && bound <= Count(a, log) + 1
    requires forall k :: 0 <= k < |a| ==> a[k].deleted == b[k].deleted
    ensures Sequences(Query(a, log, bound)) == Sequences(Query(b, log, bound))
    decreases |b|
  {
    if |b| > |a| {
      var n := |b| - 1;
      CountGrows(a, b[..n], log);
      QueryIgnoresNewRows(a, b[..n], log, bound);
      assert !Matches(b[n], log, bound);
      LastUnmatched(b, log, bound);
    } else {
      SameQuery(a, b, log, bound);
    }
  }

  lemma LastUnmatched(rows: seq<Row>, log: LogId, bound: int)
    requires rows != [] && !Matches(rows[|rows| - 1], log, bound)
    ensures Query(rows, log, bound) == Query(rows[..|rows| - 1], log, bound)
  {
  }

  lemma {:induction false} SameQuery(a: seq<Row>, b: seq<Row>, log: LogId, bound: int)
    requires |a| == |b| && forall k :: 0 <= k < |a| ==>
      a[k].log == b[k].log && a[k].sequence == b[k].sequence && a[k].deleted == b[k].deleted
    ensures Sequences(Query(a, log, bound)) == Sequences(Query(b, log, bound))
  {
    if a == [] {
    } else {
      var n := |a| - 1;
      SameQuery(a[..n], b[..n], log, bound);
      var p, q := Query(a, log, bound), Query(b, log, bound);
      var p', q' := Query(a[..n], log, bound), Query(b[..n], log, bound);
      forall k | 0 <= k < |p| ensures |p| == |q| && p[k].sequence == q[k].sequence {
        assert forall i :: 0 <= i < |p'| ==> Sequences(p')[i] == Sequences(q')[i];
      }
      assert |p| == |q|;
    }
  }

  lemma {:induction false} CountGrows(a: seq<Row>, b: seq<Row>, log: LogId)
    requires |a| <= |b| && forall k :: 0 <= k < |a| ==> a[k].log == b[k].log
    ensures Count(a, log) <= Count(b, log)
    decreases |b|
  {
    if |b| > |a| {
      CountGrows(a, b[..|b| - 1], log);
    } else if a != [] {
      CountGrows(a[..|a| - 1], b[..|b| - 1], log);
    }
  }

  /** For tables of one log alone: messages sent and edited meanwhile do not change what the walk yields. */
  lemma {:induction false} UndisturbedInOne(tables: seq<seq<Row>>, log: LogId, cursor: nat, limit: Option<nat>)
    requires cursor < I64_LIMIT && limit != Some(0) && tables != [] && IsLogHistory(tables) && NothingHidden(tables)
    requires Finished(tables, log, cursor, limit)
    ensures Sequences(Visited(tables, log, cursor, limit)) == Sequences(Query(tables[0], log, cursor))
  {
    hide *;
    HistoryIsNumbered(tables);
    var all, l, next := VisitedIs(tables, log, cursor, limit);
    if |all| > l {
      var rest := Visited(tables[1..], log, next, limit);
      FirstTwo(tables);
      UndisturbedInOne(tables[1..], log, next, limit);
      QueryIgnoresNewRows(tables[0], tables[1], log, next);
      JoinSequences(all[..l], rest, all[l..]);
      assert all == all[..l] + all[l..];
    }
  }

  lemma FirstTwo(tables: seq<seq<Row>>)
    requires IsLogHistory(tables) && NothingHidden(tables) && |tables| > 1
    ensures IsLogHistory(tables[1..]) && NothingHidden(tables[1..]) && Grows(tables[0], tables[1])
    ensures forall k :: 0 <= k < |tables[0]| ==> k < |tables[1]| && tables[0][k].deleted == tables[1][k].deleted
  {
    hide Numbered;
    assert Grows(tables[0], tables[1]);
  }

  lemma JoinSequences(a: seq<Row>, b: seq<Row>, c: seq<Row>)
    requires Sequences(b) == Sequences(c)
    ensures Sequences(a + b) == Sequences(a + c)
  {
    assert |b| == |c|;
    forall k | 0 <= k < |a + b| ensures (a + b)[k].sequence == (a + c)[k].sequence {
      if k >= |a| {
        assert Sequences(b)[k - |a|] == Sequences(c)[k - |a|];
      }
    }
  }

  // ---- other logs do not matter ----

  lemma {:induction false} InLogAlone(rows: seq<Row>, log: LogId)
    ensures InLog(InLog(rows, log), log) == InLog(rows, log)
    ensures Count(InLog(rows, log), log) == Count(rows, log)
    ensures Numbered(rows) ==> Numbered(InLog(rows, log))
  {
    if rows == [] {
    } else {
      var last, before := rows[|rows| - 1], rows[..|rows| - 1];
      InLogAlone(before, log);
      if last.log == log {
        assert InLog(rows, log) == InLog(before, log) + [last];
        Snoc(InLog(before, log), last);
        NumberedSnoc(InLog(before, log), last);
      } else {
        assert InLog(rows, log) == InLog(before, log);
      }
    }
  }

  lemma {:induction false} QueryAlone(rows: seq<Row>, log: LogId, bound: int)
    ensures Query(InLog(rows, log), log, bound) == Query(rows, log, bound)
  {
    if rows == [] {
    } else {
      var last, before := rows[|rows| - 1], rows[..|rows| - 1];
      QueryAlone(before, log, bound);
      if last.log == log {
        Snoc(InLog(before, log), last);
        assert InLog(rows, log) == InLog(before, log) + [last];
      } else {
        assert InLog(rows, log) == InLog(before, log);
      }
    }
  }

  lemma PageAlone(rows: seq<Row>, log: LogId, before: Option<nat>, limit: Option<nat>)
    requires IsCursor(before)
    ensures GetPage(InLog(rows, log), log, before, limit) == GetPage(rows, log, before, limit)
  {
    QueryAlone(rows, log, AsI64(if before.Some? then before.value else U64_LIMIT - 1));
    hide Query, InLog, AsI64, EffectiveLimit;
  }

  function Only(tables: seq<seq<Row>>, log: LogId): (t: seq<seq<Row>>)
    ensures |t| == |tables| && forall i :: 0 <= i < |t| ==> t[i] == InLog(tables[i], log)
  {
    seq(|tables|, i requires 0 <= i < |tables| => InLog(tables[i], log))
  }

  lemma OnlyNumbered(tables: seq<seq<Row>>, log: LogId)
    requires forall i :: 0 <= i < |tables| ==> Numbered(tables[i])
    ensures forall i :: 0 <= i < |tables| ==> Numbered(Only(tables, log)[i])
  {
    forall i | 0 <= i < |tables| ensures Numbered(Only(tables, log)[i]) {
      InLogAlone(tables[i], log);
    }
  }

  /** The walk never sees another log's rows. */
  lemma {:induction false} WalkAlone(tables: seq<seq<Row>>, log: LogId, cursor: nat, limit: Option<nat>)
    requires cursor < I64_LIMIT && limit != Some(0)
    requires forall i :: 0 <= i < |tables| ==> Numbered(tables[i]) && Numbered(Only(tables, log)[i])
    ensures Visited(Only(tables, log), log, cursor, limit) == Visited(tables, log, cursor, limit)
    ensures Finished(Only(tables, log), log, cursor, limit) <==> Finished(tables, log, cursor, limit)
  {
    hide Numbered, InLog, GetPage;
    if tables == [] {
    } else {
      PageAlone(tables[0], log, Some(cursor), limit);
      assert Only(tables, log)[1..] == Only(tables[1..], log);
      if GetPage(tables[0], log, Some(cursor), limit).hasMore {
        assert Only(tables[1..], log) == Only(tables, log)[1..];
        WalkAlone(tables[1..], log, NextCursor(tables[0], log, cursor, limit), limit);
      }
    }
  }

  /** The log's rows were appended to, edited and soft-deleted; anything may have happened to the rows of other logs. */
  ghost predicate Evolves(a: seq<Row>, b: seq<Row>, log: LogId) { Grows(InLog(a, log), InLog(b, log)) }

  ghost predicate IsHistory(tables: seq<seq<Row>>, log: LogId) {
    && (forall i :: 0 <= i < |tables| ==> Numbered(tables[i]))
    && forall i, j :: 0 <= i <= j < |tables| ==> Evolves(tables[i], tables[j], log)
  }

  lemma HistoryAlone(tables: seq<seq<Row>>, log: LogId, cursor: nat, limit: Option<nat>)
    requires cursor < I64_LIMIT && limit != Some(0) && IsHistory(tables, log)
    ensures IsLogHistory(Only(tables, log))
    ensures forall i :: 0 <= i < |tables| ==> Numbered(tables[i])
    ensures Visited(Only(tables, log), log, cursor, limit) == Visited(tables, log, cursor, limit)
    ensures Finished(Only(tables, log), log, cursor, limit) <==> Finished(tables, log, cursor, limit)
  {
    OnlyNumbered(tables, log);
    WalkAlone(tables, log, cursor, limit);
    hide Numbered, InLog, Visited, Finished, Grows;
    assert forall i, j :: 0 <= i <= j < |tables| ==> Evolves(tables[i], tables[j], log);
  }

  /** A message of the log that was there at the first page, and is not deleted before the last, is seen, whatever
      happens to other logs. */
  lemma VisitedAll(tables: seq<seq<Row>>, log: LogId, cursor: nat, limit: Option<nat>, k: nat)
    requires cursor < I64_LIMIT && limit != Some(0) && tables != [] && IsHistory(tables, log)
    requires Finished(tables, log, cursor, limit)
    requires k < |InLog(tables[0], log)| && Matches(InLog(tables[0], log)[k], log, cursor)
    requires k < |InLog(tables[|tables| - 1], log)| && !InLog(tables[|tables| - 1], log)[k].deleted
    ensures exists m :: m in Visited(tables, log, cursor, limit) && m.id == InLog(tables[0], log)[k].id
  {
    hide *;
    HistoryAlone(tables, log, cursor, limit);
    VisitedAllOfOne(Only(tables, log), log, cursor, limit, k);
  }

  /** Messages sent and edited while it goes on, without a deletion, do not change which messages the walk yields,
      whatever happens to other logs. */
  lemma WritersDoNotDisturb(tables: seq<seq<Row>>, log: LogId, cursor: nat, limit: Option<nat>)
    requires cursor < I64_LIMIT && limit != Some(0) && tables != [] && IsHistory(tables, log)
    requires forall i, j, k ::
      0 <= i <= j < |tables| && 0 <= k < |InLog(tables[i], log)| && k < |InLog(tables[j], log)| ==>
        InLog(tables[i], log)[k].deleted == InLog(tables[j], log)[k].deleted
    requires Finished(tables, log, cursor, limit)
    ensures Sequences(Visited(tables, log, cursor, limit)) == Sequences(Query(tables[0], log, cursor))
  {
    assert NothingHidden(Only(tables, log)) by {
      hide InLog;
    }
    hide Visited, Finished, Query, InLog, Numbered, NothingHidden, IsHistory;
    HistoryAlone(tables, log, cursor, limit);
    UndisturbedInOne(Only(tables, log), log, cursor, limit);
    QueryAlone(tables[0], log, cursor);
  }

  /** Rows that grow in place make every log grow. */
  lemma {:induction false} GrowthOfLogs(a: seq<Row>, b: seq<Row>, log: LogId)
    requires Grows(a, b)
    ensures Evolves(a, b, log) && (|a| == |b| ==> |InLog(a, log)| == |InLog(b, log)|)
    ensures (forall k :: 0 <= k < |a| ==> a[k].deleted == b[k].deleted) ==>
      forall k :: 0 <= k < |InLog(a, log)| ==> InLog(a, log)[k].deleted == InLog(b, log)[k].deleted
    decreases |b|
  {
    if b == [] {
    } else {
      var n := |b| - 1;
      if |a| < |b| {
        GrowthOfLogs(a, b[..n], log);
      } else {
        GrowthOfLogs(a[..n], b[..n], log);
      }
    }
  }
}
