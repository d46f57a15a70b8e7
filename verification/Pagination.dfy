/**
 An owner's list of intents, page by page
 (`list_by_owner` in src/app/repositories/trade_intent_core_repository.py).

 A page is fetched by a condition on the sort columns of the row the last page ended with.
 Following the cursors is proved to give the whole list in order, each row once.
 */
module Pagination {
  import opened Outcomes
  import opened TradingSession
  import opened Intents

  /** The columns the listing looks at. */
  datatype Row = Row(id: IntentId, owner: UserId, status: Status, tradingDate: Day, createdAt: Instant, updatedAt: Instant)

  /** An empty set of statuses asks for all of them. */
  datatype Query = Query(owner: UserId, statuses: set<Status>, date: Option<Day>)

  datatype Page = Page(rows: seq<Row>, next: Option<IntentId>)

  datatype ListError = InvalidCursor(id: IntentId)

  /** The rows in storage order, which means nothing; ids are a key. */
  ghost predicate Keyed(table: seq<Row>) {
    forall i, j :: 0 <= i < j < |table| ==> table[i].id != table[j].id
  }

  predicate TerminalOnly(q: Query) {
    q.statuses != {} && forall s :: s in q.statuses ==> !IsLive(s)
  }

  predicate Matches(q: Query, r: Row) {
    r.owner == q.owner && (q.statuses == {} || r.status in q.statuses) && (q.date.None? || r.tradingDate == q.date.value)
  }

  // ---------------------------------------------------------------- ORDER BY

  /** The sort columns, each with the sign that makes it ascend. */
  function SortKey(terminal: bool, r: Row): seq<int> {
    if terminal then [-r.updatedAt, r.id] else [r.tradingDate, -r.createdAt, r.id]
  }

  /** Lexicographic order of keys of one length. */
  predicate KeyBelow(a: seq<int>, b: seq<int>)
    requires |a| == |b|
    decreases |a|
  {
    a != [] && (a[0] < b[0] || (a[0] == b[0] && KeyBelow(a[1..], b[1..])))
  }

  predicate Precedes(terminal: bool, a: Row, b: Row) {
    KeyBelow(SortKey(terminal, a), SortKey(terminal, b))
  }

  function Insert(terminal: bool, r: Row, s: seq<Row>): seq<Row>
    decreases |s|
  {
    if s == [] || !Precedes(terminal, s[0], r) then [r] + s else [s[0]] + Insert(terminal, r, s[1..])
  }

  // ---------------------------------------------------------------- the query

  /** The condition on the sort columns that continues after the anchor row. */
  predicate Keyset(terminal: bool, anchor: Row, r: Row) {
    if terminal then
      r.updatedAt < anchor.updatedAt || (r.updatedAt == anchor.updatedAt && r.id > anchor.id)
    else
      || r.tradingDate > anchor.tradingDate
      || (r.tradingDate == anchor.tradingDate && r.createdAt < anchor.createdAt)
      || (r.tradingDate == anchor.tradingDate && r.createdAt == anchor.createdAt && r.id > anchor.id)
  }

  predicate Wanted(q: Query, anchor: Option<Row>, r: Row) {
    Matches(q, r) && (anchor.Some? ==> Keyset(TerminalOnly(q), anchor.value, r))
  }

  /** The rows the statement selects, ordered, before the limit. */
  function Selected(table: seq<Row>, q: Query, anchor: Option<Row>): seq<Row>
    decreases |table|
  {
    if table == [] then []
    else
      var rest := Selected(table[1..], q, anchor);
      if Wanted(q, anchor, table[0]) then Insert(TerminalOnly(q), table[0], rest) else rest
  }

  /** The anchor is looked up by id and owner alone; it need not match the filter. */
  function FindAnchor(table: seq<Row>, owner: UserId, id: IntentId): Option<Row>
    decreases |table|
  {
    if table == [] then None
    else if table[0].id == id && table[0].owner == owner then Some(table[0])
    else FindAnchor(table[1..], owner, id)
  }

  /** One row more than the page is fetched, to learn whether another page follows. */
  function Cut(rows: seq<Row>, size: nat): Page {
    var fetched := if |rows| > size + 1 then rows[..size + 1] else rows;
    var more := |fetched| > size;
    var page := if more then fetched[..size] else fetched;
    Page(page, if more && page != [] then Some(page[|page| - 1].id) else None)
  }

  function ListByOwner(table: seq<Row>, q: Query, cursor: Option<IntentId>, size: nat): Result<Page, ListError> {
    if cursor.None? then Ok(Cut(Selected(table, q, None), size))
    else
      var anchor := FindAnchor(table, q.owner, cursor.value);
      if anchor.None? then Err(InvalidCursor(cursor.value)) else Ok(Cut(Selected(table, q, anchor), size))
  }

  // ---------------------------------------------------------------- the order is strict and total

  lemma KeysetIsOrder(terminal: bool, a: Row, b: Row)
    ensures Keyset(terminal, a, b) <==> Precedes(terminal, a, b)
  {
    var x, y := SortKey(terminal, a), SortKey(terminal, b);
    assert KeyBelow(x, y) <==> x[0] < y[0] || (x[0] == y[0] && KeyBelow(x[1..], y[1..]));
    assert KeyBelow(x[1..], y[1..]) <==> x[1] < y[1] || (x[1] == y[1] && KeyBelow(x[1..][1..], y[1..][1..]));
    if !terminal {
      assert KeyBelow(x[1..][1..], y[1..][1..]) <==> x[2] < y[2] || (x[2] == y[2] && KeyBelow(x[1..][1..][1..], y[1..][1..][1..]));
    }
  }

  lemma PrecedesIsStrictOrder(terminal: bool, a: Row, b: Row, c: Row)
    ensures !Precedes(terminal, a, a)
    ensures Precedes(terminal, a, b) && Precedes(terminal, b, c) ==> Precedes(terminal, a, c)
    ensures a.id != b.id ==> Precedes(terminal, a, b) || Precedes(terminal, b, a)
  {
    KeysetIsOrder(terminal, a, a);
    KeysetIsOrder(terminal, a, b);
    KeysetIsOrder(terminal, b, a);
    KeysetIsOrder(terminal, b, c);
    KeysetIsOrder(terminal, a, c);
  }

  /** What a user asks for: of the owner, of any of the statuses, of the date, where given. */
  ghost predicate IsAskedFor(q: Query, r: Row) {
    && r.owner == q.owner && (q.statuses == {} || r.status in q.statuses)
    && (q.date.Some? ==> r.tradingDate == q.date.value)
  }

  /** A query for ended intents only shows the latest change first; any other goes by date, newest first within it. */
  ghost predicate ShownBefore(q: Query, a: Row, b: Row) {
    if q.statuses != {} && q.statuses <= {Triggered, Expired, Cancelled, CancelledByAccountDisabled} then
      a.updatedAt > b.updatedAt || (a.updatedAt == b.updatedAt && a.id < b.id)
    else
      || a.tradingDate < b.tradingDate
      || (a.tradingDate == b.tradingDate && a.createdAt > b.createdAt)
      || (a.tradingDate == b.tradingDate && a.createdAt == b.createdAt && a.id < b.id)
  }

  lemma TerminalExactly(q: Query)
    ensures TerminalOnly(q) <==> q.statuses != {} && q.statuses <= {Triggered, Expired, Cancelled, CancelledByAccountDisabled}
  {
    var ended := {Triggered, Expired, Cancelled, CancelledByAccountDisabled};
    assert forall s: Status :: s in ended <==> !IsLive(s);
  }

  lemma PrecedesExactly(q: Query, a: Row, b: Row)
    ensures Precedes(TerminalOnly(q), a, b) <==> ShownBefore(q, a, b)
    ensures Matches(q, a) <==> IsAskedFor(q, a)
  {
    hide TerminalOnly, Precedes;
    KeysetIsOrder(TerminalOnly(q), a, b);
    TerminalExactly(q);
  }

  ghost predicate InOrder(terminal: bool, s: seq<Row>) {
    forall i, j :: 0 <= i < j < |s| ==> Precedes(terminal, s[i], s[j])
  }

  lemma {:induction false} InsertKeepsOrder(terminal: bool, r: Row, s: seq<Row>)
    requires InOrder(terminal, s) && forall x :: x in s ==> x.id != r.id
    ensures InOrder(terminal, Insert(terminal, r, s))
    ensures forall x :: x in Insert(terminal, r, s) <==> x == r || x in s
    decreases |s|
  {
    hide Precedes;
    if s == [] {
    } else if !Precedes(terminal, s[0], r) {
      forall x | x in s
        ensures Precedes(terminal, r, x)
      {
        PrecedesIsStrictOrder(terminal, r, s[0], x);
      }
    } else {
      InsertKeepsOrder(terminal, r, s[1..]);
      assert s == [s[0]] + s[1..];
      var rest := Insert(terminal, r, s[1..]);
      forall x | x in rest
        ensures Precedes(terminal, s[0], x)
      {
        if x != r {
          var j :| 0 <= j < |s[1..]| && s[1..][j] == x;
          assert s[j + 1] == x;
        }
      }
    }
  }

  /** The list: in strict order, and holding exactly the wanted rows. */
  lemma {:induction false} SelectedIsExact(table: seq<Row>, q: Query, anchor: Option<Row>)
    requires Keyed(table)
    ensures InOrder(TerminalOnly(q), Selected(table, q, anchor))
    ensures forall r :: r in Selected(table, q, anchor) <==> r in table && Wanted(q, anchor, r)
    decreases |table|
  {
    hide Wanted, Precedes, TerminalOnly;
    if table != [] {
      SelectedIsExact(table[1..], q, anchor);
      assert table == [table[0]] + table[1..];
      if Wanted(q, anchor, table[0]) {
        InsertKeepsOrder(TerminalOnly(q), table[0], Selected(table[1..], q, anchor));
      }
    }
  }

  /** A strictly ordered list is determined by what it holds, so storage order does not matter. */
  lemma {:induction false} OrderedListsAgree(terminal: bool, s: seq<Row>, t: seq<Row>)
    requires InOrder(terminal, s) && InOrder(terminal, t) && forall r :: r in s <==> r in t
    ensures s == t
    decreases |s|
  {
    hide Precedes;
    assert t != [] ==> t[0] in s;
    if s != [] {
      assert s[0] in t && t[0] in s;
      assert s[0] == t[0] by {
        PrecedesIsStrictOrder(terminal, s[0], t[0], s[0]);
      }
      forall r
        ensures r in s[1..] <==> r in t[1..]
      {
        TailHolds(terminal, s, r);
        TailHolds(terminal, t, r);
      }
      OrderedListsAgree(terminal, s[1..], t[1..]);
      assert s == [s[0]] + s[1..] && t == [t[0]] + t[1..];
    }
  }

  lemma TailHolds(terminal: bool, s: seq<Row>, r: Row)
    requires InOrder(terminal, s) && s != []
    ensures r in s[1..] <==> r in s && r != s[0]
  {
    PrecedesIsStrictOrder(terminal, s[0], s[0], s[0]);
    assert s == [s[0]] + s[1..];
  }

  lemma StorageOrderIsInvisible(table: seq<Row>, other: seq<Row>, q: Query, anchor: Option<Row>)
    requires Keyed(table) && Keyed(other) && forall r :: r in table <==> r in other
    ensures Selected(table, q, anchor) == Selected(other, q, anchor)
  {
    hide Wanted, TerminalOnly, Precedes;
    SelectedIsExact(table, q, anchor);
    SelectedIsExact(other, q, anchor);
    OrderedListsAgree(TerminalOnly(q), Selected(table, q, anchor), Selected(other, q, anchor));
  }

  // ---------------------------------------------------------------- a cursor continues the list

  lemma {:induction false} FoundById(table: seq<Row>, owner: UserId, r: Row)
    requires Keyed(table) && r in table && r.owner == owner
    ensures FindAnchor(table, owner, r.id) == Some(r)
    decreases |table|
  {
    if table[0] != r {
      assert r in table[1..];
      FoundById(table[1..], owner, r);
    }
  }

  /** What follows the k-th row is what the keyset condition selects with that row as anchor. */
  lemma AnchorGivesSuffix(table: seq<Row>, q: Query, k: nat)
    requires Keyed(table) && 0 < k <= |Selected(table, q, None)|
    ensures var all := Selected(table, q, None); Selected(table, q, Some(all[k - 1])) == all[k..]
  {
    var terminal, all := TerminalOnly(q), Selected(table, q, None);
    var anchor := all[k - 1];
    SelectedIsExact(table, q, None);
    SelectedIsExact(table, q, Some(anchor));
    forall r
      ensures r in all[k..] <==> r in Selected(table, q, Some(anchor))
    {
      KeysetIsOrder(terminal, anchor, r);
      SuffixIsAfter(terminal, all, k, r);
    }
    OrderedListsAgree(terminal, Selected(table, q, Some(anchor)), all[k..]);
  }

  lemma SuffixIsAfter(terminal: bool, s: seq<Row>, k: nat, r: Row)
    requires InOrder(terminal, s) && 0 < k <= |s|
    ensures r in s[k..] <==> r in s && Precedes(terminal, s[k - 1], r)
  {
    hide Precedes;
    if r in s && Precedes(terminal, s[k - 1], r) {
      var i :| 0 <= i < |s| && s[i] == r;
      PrecedesIsStrictOrder(terminal, s[k - 1], r, s[k - 1]);
      assert i >= k;
      assert s[k..][i - k] == r;
    }
    if r in s[k..] {
      var i :| 0 <= i < |s[k..]| && s[k..][i] == r;
      assert s[k + i] == r;
    }
  }

  /** The page after the k-th row is the next stretch of the list, and points at its own last row. */
  lemma CursorContinuesList(table: seq<Row>, q: Query, k: nat, size: nat)
    requires Keyed(table) && size > 0 && 0 < k <= |Selected(table, q, None)|
    ensures var all := Selected(table, q, None);
            var end := if k + size < |all| then k + size else |all|;
            ListByOwner(table, q, Some(all[k - 1].id), size)
              == Ok(Page(all[k..end], if end < |all| then Some(all[end - 1].id) else None))
  {
    var all := Selected(table, q, None);
    SelectedIsExact(table, q, None);
    assert all[k - 1] in all;
    FoundById(table, q.owner, all[k - 1]);
    AnchorGivesSuffix(table, q, k);
    CutIsPrefix(all, k, size);
  }

  lemma CutIsPrefix(all: seq<Row>, k: nat, size: nat)
    requires size > 0 && k <= |all|
    ensures var end := if k + size < |all| then k + size else |all|;
            Cut(all[k..], size) == Page(all[k..end], if end < |all| then Some(all[end - 1].id) else None)
  {
    var rows := all[k..];
    if k + size < |all| {
      assert rows[..size + 1][..size] == all[k..k + size];
      if |rows| == size + 1 {
        assert rows[..size] == all[k..k + size];
      }
    }
  }

  lemma FirstPageStartsList(table: seq<Row>, q: Query, size: nat)
    requires size > 0
    ensures var all := Selected(table, q, None);
            var end := if size < |all| then size else |all|;
            ListByOwner(table, q, None, size) == Ok(Page(all[..end], if end < |all| then Some(all[end - 1].id) else None))
  {
    var all := Selected(table, q, None);
    CutIsPrefix(all, 0, size);
    assert all[0..] == all;
  }

  // ---------------------------------------------------------------- walking the pages

  ghost function PagesFor(n: nat, size: nat): nat
    requires size > 0
  {
    if n <= size then 1 else 1 + PagesFor(n - size, size)
  }

  /** Following the cursors over an unchanged table to the end; no page on the way is an error. */
  method WalkPages(table: seq<Row>, q: Query, size: nat) returns (rows: seq<Row>, pages: nat)
    requires Keyed(table) && size > 0
    ensures forall r :: r in rows <==> r in table && IsAskedFor(q, r)
    ensures forall i, j :: 0 <= i < j < |rows| ==> ShownBefore(q, rows[i], rows[j]) && rows[i].id != rows[j].id
    ensures pages == PagesFor(|rows|, size)
  {
    hide Selected, ListByOwner, Matches, TerminalOnly, Precedes, Keyed, IsAskedFor, ShownBefore;
    ghost var all := Selected(table, q, None);
    ghost var n := |all|;
    var cursor: Option<IntentId> := None;
    var done := false;
    rows, pages := [], 0;
    while !done
      invariant |rows| <= n && rows == all[..|rows|]
      invariant done ==> rows == all
      invariant !done ==> cursor == CursorAt(all, |rows|)
      invariant !done && rows != [] ==> |rows| < n
      invariant if done then pages == PagesFor(n, size) else pages + PagesFor(n - |rows|, size) == PagesFor(n, size)
      decreases if done then 0 else 1 + n - |rows|
    {
      ghost var k := |rows|;
      PageFrom(table, q, k, size);
      var answer := ListByOwner(table, q, cursor, size);
      ghost var end := EndOf(k, size, n);
      rows := rows + answer.value.rows;
      assert rows == all[..end];
      pages := pages + 1;
      cursor := answer.value.next;
      done := cursor.None?;
    }
    ListIsExact(table, q);
    OrderedHaveDistinctIds(TerminalOnly(q), table, rows);
    OrderIsShown(q, rows);
  }

  lemma OrderIsShown(q: Query, rows: seq<Row>)
    requires InOrder(TerminalOnly(q), rows)
    ensures forall i, j :: 0 <= i < j < |rows| ==> ShownBefore(q, rows[i], rows[j])
    ensures forall r :: Matches(q, r) <==> IsAskedFor(q, r)
  {
    hide TerminalOnly, Precedes, ShownBefore, Matches, IsAskedFor;
    forall i, j | 0 <= i < j < |rows|
      ensures ShownBefore(q, rows[i], rows[j])
    {
      PrecedesExactly(q, rows[i], rows[j]);
    }
    forall r
      ensures Matches(q, r) <==> IsAskedFor(q, r)
    {
      PrecedesExactly(q, r, r);
    }
  }

  /** A cursor is refused exactly when it names no row of the owner. */
  lemma CursorRefusedExactly(table: seq<Row>, q: Query, cursor: IntentId, size: nat)
    ensures ListByOwner(table, q, Some(cursor), size).Err? <==> !exists r :: r in table && r.id == cursor && r.owner == q.owner
  {
    hide Selected;
    AnchorFoundExactly(table, q.owner, cursor);
  }

  lemma {:induction false} AnchorFoundExactly(table: seq<Row>, owner: UserId, id: IntentId)
    ensures FindAnchor(table, owner, id).Some? <==> exists r :: r in table && r.id == id && r.owner == owner
    decreases |table|
  {
    if table != [] {
      AnchorFoundExactly(table[1..], owner, id);
      assert table == [table[0]] + table[1..];
    }
  }

  ghost function CursorAt(all: seq<Row>, k: nat): Option<IntentId>
    requires k <= |all|
  {
    if k == 0 then None else Some(all[k - 1].id)
  }

  ghost function EndOf(k: nat, size: nat, n: nat): nat {
    if k + size < n then k + size else n
  }

  lemma PageFrom(table: seq<Row>, q: Query, k: nat, size: nat)
    requires Keyed(table) && size > 0 && k <= |Selected(table, q, None)|
    ensures var all := Selected(table, q, None);
            var end := EndOf(k, size, |all|);
            ListByOwner(table, q, CursorAt(all, k), size)
              == Ok(Page(all[k..end], if end < |all| then CursorAt(all, end) else None))
  {
    hide Selected, ListByOwner, Keyed;
    if k > 0 {
      CursorContinuesList(table, q, k, size);
    } else {
      FirstPageStartsList(table, q, size);
    }
  }

  lemma ListIsExact(table: seq<Row>, q: Query)
    requires Keyed(table)
    ensures InOrder(TerminalOnly(q), Selected(table, q, None))
    ensures forall r :: r in Selected(table, q, None) <==> r in table && Matches(q, r)
  {
    hide Matches, TerminalOnly, Precedes;
    SelectedIsExact(table, q, None);
  }

  lemma OrderedHaveDistinctIds(terminal: bool, table: seq<Row>, s: seq<Row>)
    requires Keyed(table) && InOrder(terminal, s) && forall r :: r in s ==> r in table
    ensures forall i, j :: 0 <= i < j < |s| ==> s[i].id != s[j].id
  {
    hide Precedes;
    forall i, j | 0 <= i < j < |s|
      ensures s[i].id != s[j].id
    {
      PrecedesIsStrictOrder(terminal, s[i], s[j], s[i]);
      assert s[i] in table && s[j] in table;
      if s[i].id == s[j].id {
        SameIdSameRow(table, s[i], s[j]);
      }
    }
  }

  lemma SameIdSameRow(table: seq<Row>, a: Row, b: Row)
    requires Keyed(table) && a in table && b in table && a.id == b.id
    ensures a == b
  {
  }
}
