/** Keyset pagination of the trace list (internal/store/sqlite/query.go), with the handler that
    hands the cursor back (internal/api/traces.go). */
module Pagination {
  import opened Wrappers
  import opened Cursors
  import Order

  /** The two columns the order uses; the others ride along. */
  datatype Row = Row(tsStart: int, id: string, columns: map<string, string>)

  /** The rows that meet the caller's filters at one moment. Ids are the primary key. */
  type Matching = set<Row>

  predicate UniqueIds(rows: Matching) {
    forall a, b :: a in rows && b in rows && a.id == b.id ==> a == b
  }

  predicate KeyBefore(ts: int, id: string, r: Row) {
    r.tsStart < ts || (r.tsStart == ts && Order.Less(r.id, id))
  }

  /** ORDER BY ts_start DESC, id DESC. */
  predicate Before(a: Row, b: Row) {
    KeyBefore(a.tsStart, a.id, b)
  }

  lemma BeforeTransitive(a: Row, b: Row, c: Row)
    requires Before(a, b) && Before(b, c)
    ensures Before(a, c)
  {
    if a.tsStart == b.tsStart == c.tsStart { Order.Transitive(c.id, b.id, a.id); }
  }

  lemma BeforeTotal(a: Row, b: Row)
    ensures a.id != b.id ==> Before(a, b) || Before(b, a)
    ensures !(Before(a, b) && Before(b, a)) && !Before(a, a)
  {
    Order.Trichotomy(a.id, b.id);
    Order.Irreflexive(a.id);
  }

  predicate IsFirst(rows: Matching, f: Row) {
    f in rows && forall r :: r in rows && r != f ==> Before(f, r)
  }

  lemma {:induction false} FirstExists(rows: Matching)
    requires rows != {} && UniqueIds(rows)
    ensures exists f :: IsFirst(rows, f)
    decreases rows
  {
    var one :| one in rows;
    if rows == {one} {
      assert IsFirst(rows, one);
    } else {
      FirstExists(rows - {one});
      var best :| IsFirst(rows - {one}, best);
      BeforeTotal(one, best);
      if Before(one, best) {
        forall r | r in rows && r != one
          ensures Before(one, r)
        {
          if r != best { BeforeTransitive(one, best, r); }
        }
        assert IsFirst(rows, one);
      } else {
        assert IsFirst(rows, best);
      }
    }
  }

  lemma FirstUnique(rows: Matching, a: Row, b: Row)
    requires IsFirst(rows, a) && IsFirst(rows, b)
    ensures a == b
  {
    BeforeTotal(a, b);
  }

  /** The rows in query order. */
  ghost function Sorted(rows: Matching): (s: seq<Row>)
    requires UniqueIds(rows)
    ensures |s| == |rows|
    decreases rows
  {
    if rows == {} then []
    else
      FirstExists(rows);
      var f :| IsFirst(rows, f);
      [f] + Sorted(rows - {f})
  }

  lemma SortedStep(rows: Matching, f: Row)
    requires UniqueIds(rows) && IsFirst(rows, f)
    ensures Sorted(rows) == [f] + Sorted(rows - {f})
  {
    var g := Sorted(rows)[0];
    assert IsFirst(rows, g);
    FirstUnique(rows, f, g);
  }

  lemma SortedFirst(rows: Matching) returns (f: Row)
    requires UniqueIds(rows) && rows != {}
    ensures IsFirst(rows, f) && Sorted(rows) == [f] + Sorted(rows - {f})
  {
    FirstExists(rows);
    f :| IsFirst(rows, f);
    SortedStep(rows, f);
  }

  lemma {:induction false} SortedMeans(rows: Matching)
    requires UniqueIds(rows)
    ensures forall r :: r in Sorted(rows) <==> r in rows
    ensures forall i, j :: 0 <= i < j < |Sorted(rows)| ==> Before(Sorted(rows)[i], Sorted(rows)[j])
    decreases rows
  {
    if rows == {} {
      assert Sorted(rows) == [];
    } else {
      hide Sorted, Before;
      var f := SortedFirst(rows);
      SortedMeans(rows - {f});
      FrontFirst(rows, f, Sorted(rows - {f}));
    }
  }

  lemma FrontFirst(rows: Matching, f: Row, rest: seq<Row>)
    requires IsFirst(rows, f) && forall r :: r in rest <==> r in rows - {f}
    requires forall i, j :: 0 <= i < j < |rest| ==> Before(rest[i], rest[j])
    ensures var all := [f] + rest;
            && (forall r :: r in all <==> r in rows)
            && forall i, j :: 0 <= i < j < |all| ==> Before(all[i], all[j])
  {
    hide Before;
    forall j | 0 <= j < |rest|
      ensures Before(f, rest[j])
    {
      assert rest[j] in rest;
    }
  }

  // ----- One page -----

  /** List's result: the next-page fields are zero values when there is no next page. */
  datatype ListPage = ListPage(rows: seq<Row>, nextMs: int, nextID: string)

  function Limit(asked: int): (n: nat)
    ensures 1 <= n <= 500
  {
    if asked <= 0 then 100 else if asked > 500 then 500 else asked
  }

  /** A zero time with an empty id is no cursor. */
  predicate IsSet(c: Cursor) {
    c.tsMs > 0 || c.id != ""
  }

  function Remaining(rows: Matching, c: Cursor): Matching {
    if IsSet(c) then set r | r in rows && KeyBefore(c.tsMs, c.id, r) else rows
  }

  ghost function PageOf(rows: Matching, asked: int, c: Cursor): ListPage
    requires UniqueIds(rows)
  {
    var all, limit := Sorted(Remaining(rows, c)), Limit(asked);
    if |all| <= limit then ListPage(all, 0, "")
    else ListPage(all[..limit], all[limit - 1].tsStart, all[limit - 1].id)
  }

  /** SQLite's side of it: rows come out in query order, `fetch` at most. */
  method Query(rows: Matching, fetch: nat) returns (out: seq<Row>)
    requires UniqueIds(rows)
    ensures out == if |rows| <= fetch then Sorted(rows) else Sorted(rows)[..fetch]
  {
    hide Before, Sorted;
    out := [];
    var left := rows;
    while |out| < fetch && left != {}
      invariant left <= rows && |out| <= fetch && out + Sorted(left) == Sorted(rows)
      decreases left
    {
      FirstExists(left);
      var f :| IsFirst(left, f);
      SortedStep(left, f);
      assert out + ([f] + Sorted(left - {f})) == out + [f] + Sorted(left - {f});
      out, left := out + [f], left - {f};
    }
  }

  method List(rows: Matching, asked: int, c: Cursor) returns (page: ListPage)
    requires UniqueIds(rows)
    ensures page == PageOf(rows, asked, c)
    ensures var left, wanted := |Remaining(rows, c)|, if asked <= 0 then 100 else if asked <= 500 then asked else 500;
            |page.rows| == if left < wanted then left else wanted
    ensures forall i, j :: 0 <= i < j < |page.rows| ==>
      var a, b := page.rows[i], page.rows[j];
      a.tsStart > b.tsStart || (a.tsStart == b.tsStart && Order.Less(b.id, a.id))
  {
    hide Sorted, KeyBefore;
    var limit := asked;
    if limit <= 0 { limit := 100; }
    if limit > 500 { limit := 500; }
    var selected := rows;
    if c.tsMs > 0 || c.id != "" {
      selected := set r | r in rows && KeyBefore(c.tsMs, c.id, r);
    }
    var out := Query(selected, limit + 1);
    NewestFirst(selected);
    page := ListPage(out, 0, "");
    if |out| > limit {
      var last := out[limit - 1];
      page := ListPage(out[..limit], last.tsStart, last.id);
    }
  }

  lemma NewestFirst(rows: Matching)
    requires UniqueIds(rows)
    ensures forall i, j :: 0 <= i < j < |Sorted(rows)| ==>
      var a, b := Sorted(rows)[i], Sorted(rows)[j];
      a.tsStart > b.tsStart || (a.tsStart == b.tsStart && Order.Less(b.id, a.id))
  {
    hide Sorted;
    SortedMeans(rows);
  }

  /** The handler's next_cursor, decoded again from the next request. */
  function NextCursor(b64: Base64, page: ListPage): Option<Cursor> {
    if page.nextID == "" then None
    else DecodeCursor(b64, EncodeCursor(b64, Cursor(page.nextMs, page.nextID)))
  }

  // ----- Following the cursor -----

  predicate Storable(rows: Matching) {
    UniqueIds(rows) && forall r :: r in rows ==> IsInt64(r.tsStart)
  }

  /** All rows a client sees that asks page after page until no cursor comes back; the table
      may be a different one at every request. */
  ghost function Walk(b64: Base64, tables: seq<Matching>, asked: int, c: Cursor): seq<Row>
    requires forall t :: t in tables ==> Storable(t)
  {
    if tables == [] then []
    else
      assert Storable(tables[0]);
      var page := PageOf(tables[0], asked, c);
      var next := NextCursor(b64, page);
      page.rows + if next.None? then [] else Walk(b64, tables[1..], asked, next.value)
  }

  const NO_CURSOR := Cursor(0, "")

  lemma PageIsBelow(rows: Matching, asked: int, c: Cursor)
    requires Storable(rows)
    ensures var page := PageOf(rows, asked, c);
            && (forall i :: 0 <= i < |page.rows| ==> page.rows[i] in Remaining(rows, c))
            && Descending(page.rows)
            && (page.nextID != "" ==>
                 && page.rows != [] && IsInt64(page.nextMs)
                 && page.nextMs == page.rows[|page.rows| - 1].tsStart && page.nextID == page.rows[|page.rows| - 1].id)
  {
    hide Sorted;
    var all := Sorted(Remaining(rows, c));
    SortedMeans(Remaining(rows, c));
    assert forall i :: 0 <= i < |all| ==> all[i] in all;
  }

  predicate Descending(s: seq<Row>) {
    forall i, j :: 0 <= i < j < |s| ==> Before(s[i], s[j])
  }

  predicate AllBelow(ts: int, id: string, s: seq<Row>) {
    forall i :: 0 <= i < |s| ==> KeyBefore(ts, id, s[i])
  }

  lemma JoinDescending(a: seq<Row>, b: seq<Row>)
    requires Descending(a) && Descending(b)
    requires a != [] && AllBelow(a[|a| - 1].tsStart, a[|a| - 1].id, b)
    ensures Descending(a + b)
    ensures forall ts, id :: AllBelow(ts, id, a) ==> AllBelow(ts, id, a + b)
  {
    var last := a[|a| - 1];
    forall i, j | 0 <= i < |a| && 0 <= j < |b|
      ensures Before(a[i], b[j])
    {
      if i < |a| - 1 { BeforeTransitive(a[i], last, b[j]); }
    }
    forall ts, id | AllBelow(ts, id, a)
      ensures AllBelow(ts, id, a + b)
    {
      forall j | 0 <= j < |b|
        ensures KeyBefore(ts, id, b[j])
      {
        BeforeTransitive(Row(ts, id, map[]), last, b[j]);
      }
    }
  }

  /** Whatever is inserted or deleted between the pages, the walk only ever descends: no row
      comes twice. */
  lemma {:induction false} WalkDescends(b64: Base64, tables: seq<Matching>, asked: int, c: Cursor)
    requires Lawful(b64) && forall t :: t in tables ==> Storable(t)
    ensures Descending(Walk(b64, tables, asked, c))
    ensures IsSet(c) ==> AllBelow(c.tsMs, c.id, Walk(b64, tables, asked, c))
    decreases |tables|
  {
    hide PageOf, EncodeCursor, DecodeCursor;
    if tables != [] {
      assert tables[0] in tables;
      var page := PageOf(tables[0], asked, c);
      PageIsBelow(tables[0], asked, c);
      if page.nextID != "" {
        var next := Cursor(page.nextMs, page.nextID);
        CursorRoundTrip(b64, next);
        WalkDescends(b64, tables[1..], asked, next);
        JoinDescending(page.rows, Walk(b64, tables[1..], asked, next));
      } else {
        assert Walk(b64, tables, asked, c) == page.rows;
      }
    }
  }

  /** The client reached the end: some page came back with no row left behind it. */
  ghost predicate Finishes(b64: Base64, tables: seq<Matching>, asked: int, c: Cursor)
    requires forall t :: t in tables ==> Storable(t)
  {
    && tables != []
    && Storable(tables[0])
    && (|Remaining(tables[0], c)| <= Limit(asked)
        || (var next := NextCursor(b64, PageOf(tables[0], asked, c));
            next.Some? && Finishes(b64, tables[1..], asked, next.value)))
  }

  /** A walk that reaches the end shows every row that was there all along. */
  lemma {:induction false} NothingMissed(b64: Base64, tables: seq<Matching>, asked: int, c: Cursor, r: Row)
    requires Lawful(b64) && (forall t :: t in tables ==> Storable(t)) && Finishes(b64, tables, asked, c)
    requires forall t :: t in tables ==> r in t
    requires IsSet(c) ==> KeyBefore(c.tsMs, c.id, r)
    ensures r in Walk(b64, tables, asked, c)
    decreases |tables|
  {
    hide Sorted, EncodeCursor, DecodeCursor;
    assert tables[0] in tables;
    var all := Sorted(Remaining(tables[0], c));
    SortedMeans(Remaining(tables[0], c));
    var page := PageOf(tables[0], asked, c);
    if |Remaining(tables[0], c)| <= Limit(asked) {
      assert r in page.rows;
    } else if r !in page.rows {
      var next := Cursor(page.nextMs, page.nextID);
      PageIsBelow(tables[0], asked, c);
      CursorRoundTrip(b64, next);
      var i :| 0 <= i < |all| && all[i] == r;
      assert forall j :: 0 <= j < Limit(asked) ==> page.rows[j] == all[j];
      assert i >= Limit(asked);
      assert Before(all[Limit(asked) - 1], r);
      NothingMissed(b64, tables[1..], asked, next, r);
    }
  }

  // ----- A table that stays as it is -----

  /** What following the cursor shows of rows already in order: a page, then, unless the page
      was cut at a row with an empty id, the rest. */
  ghost function Shown(all: seq<Row>, limit: nat): seq<Row>
    requires limit > 0
    decreases |all|
  {
    if |all| <= limit then all
    else all[..limit] + if all[limit - 1].id == "" then [] else Shown(all[limit..], limit)
  }

  lemma {:induction false} SortedBelow(rows: Matching, n: nat)
    requires UniqueIds(rows) && 0 < n <= |rows|
    ensures var cut := Sorted(rows)[n - 1];
            Sorted(rows)[n..] == Sorted(set r | r in rows && Before(cut, r))
    decreases n
  {
    hide Sorted, Before;
    var f := SortedFirst(rows);
    var rest, cut := rows - {f}, Sorted(rows)[n - 1];
    BeforeTotal(f, f);
    if n == 1 {
      assert rest == set r | r in rows && Before(f, r);
    } else {
      SortedBelow(rest, n - 1);
      assert cut == Sorted(rest)[n - 2] && Sorted(rows)[n..] == Sorted(rest)[n - 1..];
      SortedMeans(rest);
      assert cut in Sorted(rest);
      BeforeTotal(f, cut);
      assert (set r | r in rest && Before(cut, r)) == set r | r in rows && Before(cut, r);
    }
  }

  ghost function Copies(rows: Matching, n: nat): seq<Matching> {
    seq(n, _ => rows)
  }

  lemma FirstCopy(b64: Base64, rows: Matching, n: nat, asked: int, c: Cursor)
    requires Storable(rows) && n > 0
    ensures var page := PageOf(rows, asked, c);
            var next := NextCursor(b64, page);
            Walk(b64, Copies(rows, n), asked, c)
            == page.rows + if next.None? then [] else Walk(b64, Copies(rows, n - 1), asked, next.value)
  {
    hide PageOf, NextCursor;
    assert Copies(rows, n)[0] == rows && Copies(rows, n)[1..] == Copies(rows, n - 1);
  }

  lemma {:induction false} StillWalk(b64: Base64, rows: Matching, n: nat, asked: int, c: Cursor)
    requires Lawful(b64) && Storable(rows) && n > |Remaining(rows, c)|
    ensures Walk(b64, Copies(rows, n), asked, c) == Shown(Sorted(Remaining(rows, c)), Limit(asked))
    decreases n
  {
    hide Sorted, EncodeCursor, DecodeCursor, Walk, Copies, Before, KeyBefore;
    var left, limit := Remaining(rows, c), Limit(asked);
    var page := PageOf(rows, asked, c);
    FirstCopy(b64, rows, n, asked, c);
    if |left| > limit && page.nextID != "" {
      var next := Cursor(page.nextMs, page.nextID);
      PageIsBelow(rows, asked, c);
      CursorRoundTrip(b64, next);
      SortedBelow(left, limit);
      var cut := Sorted(left)[limit - 1];
      RemainingBelow(rows, c, cut);
      assert |Sorted(left)[limit..]| == |left| - limit;
      StillWalk(b64, rows, n - 1, asked, next);
    }
  }

  lemma RemainingBelow(rows: Matching, c: Cursor, cut: Row)
    requires UniqueIds(rows) && cut in Remaining(rows, c) && cut.id != ""
    ensures Remaining(rows, Cursor(cut.tsStart, cut.id)) == set r | r in Remaining(rows, c) && Before(cut, r)
  {
    forall r | r in rows && Before(cut, r)
      ensures r in Remaining(rows, c)
    {
      if IsSet(c) { BeforeTransitive(Row(c.tsMs, c.id, map[]), cut, r); }
    }
  }

  /** The rows on the first `pages` full pages. */
  function RowsOn(pages: nat, limit: nat): nat {
    pages * limit
  }

  lemma OnePageMore(pages: nat, limit: nat)
    ensures RowsOn(pages + 1, limit) == RowsOn(pages, limit) + limit
    ensures RowsOn(1, limit) == limit && (pages > 0 ==> RowsOn(pages, limit) >= limit)
  {
  }

  /** Some page but the last ends at a row whose id is empty. */
  ghost predicate CutAtEmptyId(all: seq<Row>, limit: nat)
    requires limit > 0
  {
    exists k: nat :: k > 0 && 0 < RowsOn(k, limit) < |all| && all[RowsOn(k, limit) - 1].id == ""
  }

  lemma CutLater(all: seq<Row>, limit: nat)
    requires 0 < limit < |all| && all[limit - 1].id != ""
    ensures CutAtEmptyId(all, limit) <==> CutAtEmptyId(all[limit..], limit)
  {
    hide RowsOn;
    var rest := all[limit..];
    if CutAtEmptyId(rest, limit) {
      var k: nat :| k > 0 && 0 < RowsOn(k, limit) < |rest| && rest[RowsOn(k, limit) - 1].id == "";
      OnePageMore(k, limit);
      assert all[RowsOn(k + 1, limit) - 1] == rest[RowsOn(k, limit) - 1];
    }
    if CutAtEmptyId(all, limit) {
      var k: nat :| k > 0 && 0 < RowsOn(k, limit) < |all| && all[RowsOn(k, limit) - 1].id == "";
      OnePageMore(0, limit);
      OnePageMore(k - 1, limit);
      assert k != 1;
      assert all[RowsOn(k, limit) - 1] == rest[RowsOn(k - 1, limit) - 1];
    }
  }

  lemma {:induction false} ShowsAllIff(all: seq<Row>, limit: nat)
    requires limit > 0
    ensures Shown(all, limit) == all <==> !CutAtEmptyId(all, limit)
    ensures |Shown(all, limit)| <= |all|
    decreases |all|
  {
    hide RowsOn;
    if |all| <= limit {
      forall k: nat | k > 0
        ensures RowsOn(k, limit) >= limit
      {
        OnePageMore(k, limit);
      }
    } else if all[limit - 1].id == "" {
      OnePageMore(1, limit);
      assert CutAtEmptyId(all, limit);
    } else {
      var rest := all[limit..];
      ShowsAllIff(rest, limit);
      CutLater(all, limit);
      assert all == all[..limit] + rest;
      assert Shown(all, limit)[limit..] == Shown(rest, limit);
    }
  }

  /** From the first page on, a table that stays as it is is listed whole and in order exactly
      when no page but the last is cut at a row with an empty id (trace ids are never empty, so
      one such row is all there can be). */
  lemma WalkEnumeratesIff(b64: Base64, rows: Matching, n: nat, asked: int)
    requires Lawful(b64) && Storable(rows) && n > |rows|
    ensures Walk(b64, Copies(rows, n), asked, NO_CURSOR) == Sorted(rows)
       <==> !CutAtEmptyId(Sorted(rows), Limit(asked))
  {
    StillWalk(b64, rows, n, asked, NO_CURSOR);
    ShowsAllIff(Sorted(rows), Limit(asked));
  }

  /** Trace ids are never empty, so following the cursor lists a table that stays as it is: every
      row once, in descending order. */
  lemma WalkEnumerates(b64: Base64, rows: Matching, n: nat, asked: int)
    requires Lawful(b64) && Storable(rows) && n > |rows| && forall r :: r in rows ==> r.id != ""
    ensures var w := Walk(b64, Copies(rows, n), asked, NO_CURSOR);
            && (forall r :: r in w <==> r in rows) && |w| == |rows|
            && forall i, j :: 0 <= i < j < |w| ==> Before(w[i], w[j])
  {
    hide Walk, Sorted, Before, Shown;
    WalkEnumeratesIff(b64, rows, n, asked);
    SortedMeans(rows);
    var all := Sorted(rows);
    assert forall i :: 0 <= i < |all| ==> all[i] in all;
  }
}
