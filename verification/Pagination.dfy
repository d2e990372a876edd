/** `Pagination.paginate`: one page of a keyset walk, and walks over a table that other writers
    change between the pages. */
module Pagination {
  import opened Options
  import opened Keyset
  import opened Walks

  // ------------------------------------------------------------------ the database's answer

  function Select(table: seq<Row>, filter: seq<Clause>, maxima: Coalesced): (rows: seq<Row>)
    ensures forall r :: r in rows <==> r in table && Matches(filter, r, maxima)
  {
    if table == [] then []
    else
      (if Matches(filter, table[0], maxima) then [table[0]] else [])
      + Select(table[1..], filter, maxima)
  }

  function Insert(fields: seq<SortField>, row: Row, rows: seq<Row>): seq<Row> {
    if rows == [] || Before(fields, row, rows[0]) then [row] + rows
    else [rows[0]] + Insert(fields, row, rows[1..])
  }

  /** `ORDER BY`. The order is strict and total on rows with different ids, so every sorting
      algorithm gives this answer. */
  function OrderBy(fields: seq<SortField>, rows: seq<Row>): seq<Row> {
    if rows == [] then [] else Insert(fields, rows[0], OrderBy(fields, rows[1..]))
  }

  predicate Ordered(fields: seq<SortField>, rows: seq<Row>) {
    forall i, j | 0 <= i < j < |rows| :: Before(fields, rows[i], rows[j])
  }

  /** The id is the primary key. */
  predicate UniqueIds(table: seq<Row>) {
    forall i, j | 0 <= i < j < |table| :: table[i].id != table[j].id
  }

  predicate TableOk(table: seq<Row>, maxima: Coalesced) {
    UniqueIds(table) && forall r | r in table :: WellTyped(r, maxima)
  }

  /** The rows a page is cut from, in order. */
  function Listing(
      table: seq<Row>, fields: seq<SortField>, maxima: Coalesced, cursor: Option<Cursor>): seq<Row>
  {
    OrderBy(fields, Select(table, FilterOf(fields, maxima, cursor), maxima))
  }

  function FilterOf(fields: seq<SortField>, maxima: Coalesced, cursor: Option<Cursor>): seq<Clause> {
    match cursor
    case None => []
    case Some(c) => FilterTo(fields, maxima, c, |c|)
  }

  function Take(rows: seq<Row>, limit: nat): seq<Row> {
    if |rows| <= limit then rows else rows[..limit]
  }

  function PageOf(
      table: seq<Row>, fields: seq<SortField>, maxima: Coalesced, perPage: nat,
      cursor: Option<Cursor>): Fetched<Row, Cursor>
    requires perPage >= 1
  {
    Cut(row => CursorOf(fields, row), Listing(table, fields, maxima, cursor), perPage)
  }

  /** The sort fields of a query: its own ordering or the model's default, with the id last. */
  function SortFields(orderings: seq<SortField>, defaults: seq<SortField>): seq<SortField> {
    (if orderings != [] then orderings else defaults) + [SortField("id", Asc)]
  }

  /** Rows in the order a query asks for: its own when it has one, else the model's, and then by id. */
  predicate InOrder(orderings: seq<SortField>, defaults: seq<SortField>, rows: seq<Row>) {
    forall i, j | 0 <= i < j < |rows| ::
      if orderings != [] then Ahead(orderings, rows[i], rows[j]) else Ahead(defaults, rows[i], rows[j])
  }

  // ------------------------------------------------------------------ the class

  class Paginator {
    const cursor: Option<Cursor>
    const perPage: int
    var results: seq<Row>
    var nextCursor: Option<Cursor>
    var sortFields: seq<SortField>

    constructor (cursor: Option<Cursor>, perPage: int)
      ensures this.cursor == cursor
      ensures this.perPage >= 1 && (perPage >= 1 ==> this.perPage == perPage)
      ensures results == [] && nextCursor == None && sortFields == []
    {
      this.cursor := cursor;
      this.perPage := if perPage < 1 then 1 else perPage;
      results, nextCursor, sortFields := [], None, [];
    }

    /** Fetches one row more than a page, drops it and records the cursor of the last row kept. An
        empty cursor list stands for one that did not decode. */
    method Paginate(
        table: seq<Row>, orderings: seq<SortField>, defaults: seq<SortField>, maxima: Coalesced)
      requires perPage >= 1
      modifies this
      ensures sortFields == SortFields(orderings, defaults)
      ensures Fetched(results, nextCursor) == PageOf(table, sortFields, maxima, perPage, cursor)
      ensures UniqueIds(table) ==> InOrder(orderings, defaults, results)
    {
      sortFields := (if orderings != [] then orderings else defaults) + [SortField("id", Asc)];
      var filter: seq<Clause> := [];
      if cursor.Some? {
        filter := BuildFilter(sortFields, maxima, cursor.value);
      }
      results, nextCursor := FetchPage(OrderBy(sortFields, Select(table, filter, maxima)), sortFields, perPage);
      if UniqueIds(table) { PageInOrder(table, orderings, defaults, maxima, perPage, cursor); }
    }

    /** `limit(per_page + 1)` on the ordered query; an extra row is popped and leaves a cursor. */
    static method FetchPage(listing: seq<Row>, fields: seq<SortField>, perPage: nat)
      returns (results: seq<Row>, nextCursor: Option<Cursor>)
      requires perPage >= 1
      ensures Fetched(results, nextCursor) == Cut(row => CursorOf(fields, row), listing, perPage)
    {
      results, nextCursor := Take(listing, perPage + 1), None;
      if |results| > perPage {
        results := results[..|results| - 1];
        assert results == listing[..perPage];
        var values := CursorValues(fields, results[|results| - 1]);
        nextCursor := Some(values);
      }
    }

    /** The disjunction, clause by clause: each non-null cursor value compared in the direction of
        its sort field, under equality of all the values before it. */
    static method BuildFilter(fields: seq<SortField>, maxima: Coalesced, values: Cursor)
      returns (filter: seq<Clause>)
      ensures filter == FilterTo(fields, maxima, values, |values|)
    {
      filter := [];
      for i := 0 to |values|
        invariant filter == FilterTo(fields, maxima, values, i)
      {
        var (field, value) := values[i];
        if value.Val? {
          var order, coalesced := OrderOf(fields, field), field in maxima;
          var current: Clause := [
            if order == Asc then Greater(field, coalesced, value.n) else Less(field, coalesced, value.n)];
          for j := 0 to i
            invariant current == [Comparison(fields, maxima, field, value.n)] + Prefix(values, j)
          {
            current := current + [Equals(values[j].0, values[j].1)];
          }
          filter := filter + [current];
        }
      }
    }

    static method CursorValues(fields: seq<SortField>, last: Row) returns (values: Cursor)
      ensures values == CursorOf(fields, last)
    {
      values := [];
      for k := 0 to |fields|
        invariant |values| == k
        invariant forall m :: 0 <= m < k ==> values[m] == (fields[m].name, Get(last, fields[m].name))
      {
        values := values + [(fields[k].name, Get(last, fields[k].name))];
      }
    }
  }

  // ------------------------------------------------------------------ sorting

  lemma {:induction false} InsertSorted(fields: seq<SortField>, row: Row, rows: seq<Row>)
    requires EndsWithId(fields) && Ordered(fields, rows)
    requires forall r :: r in rows ==> r.id != row.id
    ensures Ordered(fields, Insert(fields, row, rows))
    ensures forall r :: r in Insert(fields, row, rows) <==> r == row || r in rows
  {
    if rows != [] {
      if Before(fields, row, rows[0]) {
        forall j | 1 <= j < |rows| ensures Before(fields, row, rows[j]) {
          BeforeTransitive(fields, row, rows[0], rows[j]);
        }
      } else {
        BeforeTotal(fields, row, rows[0]);
        InsertSorted(fields, row, rows[1..]);
        var rest := Insert(fields, row, rows[1..]);
        forall j | 0 <= j < |rest| ensures Before(fields, rows[0], rest[j]) {
          assert rest[j] in rest;
        }
      }
    }
  }

  lemma {:induction false} OrderBySorted(fields: seq<SortField>, rows: seq<Row>)
    requires EndsWithId(fields) && UniqueIds(rows)
    ensures Ordered(fields, OrderBy(fields, rows))
    ensures forall r :: r in OrderBy(fields, rows) <==> r in rows
  {
    if rows != [] {
      OrderBySorted(fields, rows[1..]);
      InsertSorted(fields, rows[0], OrderBy(fields, rows[1..]));
    }
  }

  lemma {:induction false} SelectUnique(table: seq<Row>, filter: seq<Clause>, maxima: Coalesced)
    requires UniqueIds(table)
    ensures UniqueIds(Select(table, filter, maxima))
  {
    if table != [] {
      SelectUnique(table[1..], filter, maxima);
      var rest := Select(table[1..], filter, maxima);
      forall j | 0 <= j < |rest| ensures rest[j].id != table[0].id {
        assert rest[j] in table[1..];
      }
    }
  }

  /** A listing is the matching rows of the table in strict sort order. */
  lemma ListingSound(
      table: seq<Row>, fields: seq<SortField>, maxima: Coalesced, cursor: Option<Cursor>)
    requires EndsWithId(fields) && UniqueIds(table)
    ensures Ordered(fields, Listing(table, fields, maxima, cursor))
    ensures forall r :: r in Listing(table, fields, maxima, cursor)
              <==> r in table && Matches(FilterOf(fields, maxima, cursor), r, maxima)
  {
    var filter := FilterOf(fields, maxima, cursor);
    SelectUnique(table, filter, maxima);
    OrderBySorted(fields, Select(table, filter, maxima));
  }

  lemma OrderedInOrder(orderings: seq<SortField>, defaults: seq<SortField>, rows: seq<Row>)
    ensures Ordered(SortFields(orderings, defaults), rows) <==> InOrder(orderings, defaults, rows)
  {
    var own := if orderings != [] then orderings else defaults;
    forall a, b ensures Before(SortFields(orderings, defaults), a, b) <==> Ahead(own, a, b) {
      BeforeAhead(own, a, b);
    }
  }

  lemma PageInOrder(
      table: seq<Row>, orderings: seq<SortField>, defaults: seq<SortField>, maxima: Coalesced, perPage: nat,
      cursor: Option<Cursor>)
    requires perPage >= 1 && UniqueIds(table)
    ensures InOrder(orderings, defaults, PageOf(table, SortFields(orderings, defaults), maxima, perPage, cursor).results)
  {
    var fields := SortFields(orderings, defaults);
    ListingSound(table, fields, maxima, cursor);
    OrderedInOrder(orderings, defaults, PageOf(table, fields, maxima, perPage, cursor).results);
  }

  lemma {:induction false} InsertLength(fields: seq<SortField>, row: Row, rows: seq<Row>)
    ensures |Insert(fields, row, rows)| == |rows| + 1
  {
    if rows != [] { InsertLength(fields, row, rows[1..]); }
  }

  lemma {:induction false} OrderByLength(fields: seq<SortField>, rows: seq<Row>)
    ensures |OrderBy(fields, rows)| == |rows|
  {
    if rows != [] {
      OrderByLength(fields, rows[1..]);
      InsertLength(fields, rows[0], OrderBy(fields, rows[1..]));
    }
  }

  lemma {:induction false} SelectAll(table: seq<Row>, maxima: Coalesced)
    ensures Select(table, [], maxima) == table
  {
    if table != [] { SelectAll(table[1..], maxima); }
  }

  // ------------------------------------------------------------------ page fetches as a walk

  /** The order, the hidden rows and the page size of a query. */
  function RuleOf(fields: seq<SortField>, maxima: Coalesced, perPage: nat): Rule<Row> {
    Rule(r => WellTyped(r, maxima), (a, b) => Before(fields, a, b),
         (a, b) => Hidden(fields, maxima, a, b), perPage)
  }

  lemma RuleLawful(fields: seq<SortField>, maxima: Coalesced, perPage: nat)
    requires perPage >= 1
    ensures Lawful(RuleOf(fields, maxima, perPage))
  {
    var q := RuleOf(fields, maxima, perPage);
    forall a, b, c ensures LawAt(q, a, b, c) {
      KeysetLaw(fields, maxima, perPage, a, b, c);
    }
  }

  lemma KeysetLaw(fields: seq<SortField>, maxima: Coalesced, perPage: nat, a: Row, b: Row, c: Row)
    ensures LawAt(RuleOf(fields, maxima, perPage), a, b, c)
  {
    FirstDiffSpec(fields, a, a);
    if Before(fields, a, b) && Before(fields, b, c) { BeforeTransitive(fields, a, b, c); }
    if WellTyped(a, maxima) && WellTyped(b, maxima) && WellTyped(c, maxima) {
      FirstDiffSpec(fields, a, b);
      if Keyset.Follows(fields, maxima, a, b) && Keyset.Follows(fields, maxima, b, c) {
        FollowsTransitive(fields, maxima, a, b, c);
      }
    }
  }

  /** The fetch of a query. `results` and `next_cursor` are what `Paginate` leaves. */
  function SourceOf(fields: seq<SortField>, maxima: Coalesced, perPage: nat): Source<Row, Cursor>
    requires perPage >= 1
  {
    Source(table => TableOk(table, maxima),
           (table, cursor) => PageOf(table, fields, maxima, perPage, cursor),
           row => CursorOf(fields, row))
  }

  function CursorFrom(fields: seq<SortField>, after: Option<Row>): Option<Cursor> {
    if after.None? then None else Some(CursorOf(fields, after.value))
  }

  lemma ListingFollows(
      fields: seq<SortField>, maxima: Coalesced, perPage: nat, table: seq<Row>, after: Option<Row>)
    requires EndsWithId(fields) && TableOk(table, maxima)
    requires after.Some? ==> WellTyped(after.value, maxima)
    ensures
      var listing := Listing(table, fields, maxima, CursorFrom(fields, after));
      var q := RuleOf(fields, maxima, perPage);
      && StrictlySorted(q, listing)
      && forall r :: r in listing <==> r in table && FollowsCursor(q, after, r)
  {
    ListingSound(table, fields, maxima, CursorFrom(fields, after));
    if after.Some? {
      forall r | r in table
        ensures Matches(FilterOf(fields, maxima, CursorFrom(fields, after)), r, maxima)
           <==> Keyset.Follows(fields, maxima, after.value, r)
      {
        FilterExact(fields, maxima, after.value, r);
      }
    }
  }

  /** A page fetch, from no cursor or from the cursor of a row, is the page the walk calls for. */
  lemma PageSound(
      fields: seq<SortField>, maxima: Coalesced, perPage: nat, table: seq<Row>, after: Option<Row>)
    requires perPage >= 1 && EndsWithId(fields) && TableOk(table, maxima)
    requires after.Some? ==> WellTyped(after.value, maxima)
    ensures
      var page := PageOf(table, fields, maxima, perPage, CursorFrom(fields, after));
      && PageSpec(RuleOf(fields, maxima, perPage), table, after, Shape(page))
      && (page.next.Some? ==>
            page.results != [] && page.next.value == CursorOf(fields, LastRow(Shape(page))))
  {
    RuleLawful(fields, maxima, perPage);
    ListingFollows(fields, maxima, perPage, table, after);
    var listing := Listing(table, fields, maxima, CursorFrom(fields, after));
    CutSound(RuleOf(fields, maxima, perPage), row => CursorOf(fields, row), table, after, listing);
  }

  /** The real fetch keeps the walk's laws. */
  lemma PaginateFaithful(fields: seq<SortField>, maxima: Coalesced, perPage: nat)
    requires perPage >= 1 && EndsWithId(fields)
    ensures Faithful(RuleOf(fields, maxima, perPage), SourceOf(fields, maxima, perPage))
  {
    var q, src := RuleOf(fields, maxima, perPage), SourceOf(fields, maxima, perPage);
    RuleLawful(fields, maxima, perPage);
    forall table, after ensures FetchLaw(q, src, table, after) {
      if src.valid(table) && (after.Some? ==> q.ok(after.value)) {
        PageSound(fields, maxima, perPage, table, after);
      }
    }
  }

  // ------------------------------------------------------------------ what the cursors guarantee

  /** The pages of a query fetched one after another, each from the cursor of the one before. */
  predicate Paged(
      orderings: seq<SortField>, defaults: seq<SortField>, maxima: Coalesced, perPage: nat,
      tables: seq<seq<Row>>, pages: seq<Fetched<Row, Cursor>>)
    requires perPage >= 1
  {
    Follow(SourceOf(SortFields(orderings, defaults), maxima, perPage), tables, pages)
  }

  /** Whatever other writers do between the fetches, the rows come back strictly in the order the query asks
      for, so no row with unchanged sort values comes back twice. */
  lemma NeverTwice(
      orderings: seq<SortField>, defaults: seq<SortField>, maxima: Coalesced, perPage: nat,
      tables: seq<seq<Row>>, pages: seq<Fetched<Row, Cursor>>)
    requires perPage >= 1 && Paged(orderings, defaults, maxima, perPage, tables, pages)
    ensures InOrder(orderings, defaults, AllResults(pages))
    ensures forall i, j :: 0 <= i < j < |AllResults(pages)| ==> AllResults(pages)[i] != AllResults(pages)[j]
  {
    var fields := SortFields(orderings, defaults);
    var q, src := RuleOf(fields, maxima, perPage), SourceOf(fields, maxima, perPage);
    PaginateFaithful(fields, maxima, perPage);
    FollowIsWalk(q, src, tables, pages);
    WalkSorted(q, tables, Shapes(pages));
    var rows := AllResults(pages);
    OrderedInOrder(orderings, defaults, rows);
    forall i, j | 0 <= i < j < |rows| ensures rows[i] != rows[j] {
      assert Before(fields, rows[i], rows[j]);
      FirstDiffSpec(fields, rows[i], rows[i]);
    }
  }

  /** The cursor of this page hides the row by a null rule. */
  predicate HiddenFrom(fields: seq<SortField>, maxima: Coalesced, page: Fetched<Row, Cursor>, row: Row) {
    page.next.Some? && page.results != [] && Hidden(fields, maxima, LastRow(Shape(page)), row)
  }

  /** A row that stays unchanged in the table for a whole finished walk is returned exactly when no
      cursor of the walk hides it by a null rule. */
  lemma StableRowReturned(
      fields: seq<SortField>, maxima: Coalesced, perPage: nat, tables: seq<seq<Row>>,
      pages: seq<Fetched<Row, Cursor>>, row: Row)
    requires perPage >= 1 && EndsWithId(fields)
    requires Follow(SourceOf(fields, maxima, perPage), tables, pages) && Ended(pages)
    requires forall m :: 0 <= m < |tables| ==> row in tables[m]
    ensures row in AllResults(pages)
       <==> forall m :: 0 <= m < |pages| ==> !HiddenFrom(fields, maxima, pages[m], row)
  {
    var q, shapes := RuleOf(fields, maxima, perPage), Shapes(pages);
    PaginateFaithful(fields, maxima, perPage);
    FollowIsWalk(q, SourceOf(fields, maxima, perPage), tables, pages);
    WalkStable(q, tables, shapes, row);
    forall m | 0 <= m < |pages|
      ensures HiddenFrom(fields, maxima, pages[m], row) <==> HiddenFromPage(q, shapes[m], row)
    {}
  }

  /** Over tables whose rows no null rule touches, such as non-null sort columns, every row that
      stays unchanged is returned. */
  lemma CleanRowReturned(
      fields: seq<SortField>, maxima: Coalesced, perPage: nat, tables: seq<seq<Row>>,
      pages: seq<Fetched<Row, Cursor>>, row: Row)
    requires perPage >= 1 && EndsWithId(fields)
    requires Follow(SourceOf(fields, maxima, perPage), tables, pages) && Ended(pages)
    requires forall m :: 0 <= m < |tables| ==> row in tables[m]
    requires forall m, r :: 0 <= m < |tables| && r in tables[m] ==> Clean(fields, maxima, r)
    ensures row in AllResults(pages)
  {
    var q, shapes := RuleOf(fields, maxima, perPage), Shapes(pages);
    PaginateFaithful(fields, maxima, perPage);
    FollowIsWalk(q, SourceOf(fields, maxima, perPage), tables, pages);
    forall m | 0 <= m < |pages| ensures !HiddenFromPage(q, shapes[m], row) {
      if shapes[m].rows != [] {
        var last := LastRow(shapes[m]);
        assert last in shapes[m].rows;
        RowOf(q, tables, shapes, m, last);
        CleanNeverHidden(fields, maxima, last, row);
      }
    }
    WalkStable(q, tables, shapes, row);
  }

  /** The whole table in sort order. */
  function Sorted(table: seq<Row>, fields: seq<SortField>, maxima: Coalesced): seq<Row> {
    Listing(table, fields, maxima, None)
  }

  lemma SortedLists(table: seq<Row>, fields: seq<SortField>, maxima: Coalesced, perPage: nat)
    requires EndsWithId(fields) && TableOk(table, maxima)
    ensures Lists(RuleOf(fields, maxima, perPage), Sorted(table, fields, maxima), table)
    ensures |Sorted(table, fields, maxima)| == |table|
  {
    ListingFollows(fields, maxima, perPage, table, None);
    SelectAll(table, maxima);
    OrderByLength(fields, table);
  }

  /** Over a table nobody changes, the pages concatenate to its rows in the order the query asks for, exactly
      when no row is hidden from the row that ends an earlier page. However that may be, at most `k` pages are
      read where `(k - 1) * perPage < n <= k * perPage`, or one when the table is empty; and that many when
      the whole table comes back. */
  lemma StillTablePages(
      orderings: seq<SortField>, defaults: seq<SortField>, maxima: Coalesced, perPage: nat,
      s: seq<Row>, table: seq<Row>, tables: seq<seq<Row>>, pages: seq<Fetched<Row, Cursor>>)
    requires perPage >= 1 && TableOk(table, maxima)
    requires InOrder(orderings, defaults, s) && forall r :: r in s <==> r in table
    requires Paged(orderings, defaults, maxima, perPage, tables, pages) && Ended(pages) && Still(tables, table)
    ensures AllResults(pages) == s
       <==> NoHiddenBoundary(RuleOf(SortFields(orderings, defaults), maxima, perPage), s)
    ensures |pages| == 1 || Start(|pages| - 1, perPage) < |s|
    ensures AllResults(pages) == s ==> |s| <= Start(|pages|, perPage)
  {
    var fields := SortFields(orderings, defaults);
    PaginateFaithful(fields, maxima, perPage);
    OrderedInOrder(orderings, defaults, s);
    StillFetches(RuleOf(fields, maxima, perPage), SourceOf(fields, maxima, perPage), table, s, tables, pages);
  }

  /** Clean rows meet the condition of `StillTablePages`. */
  lemma CleanTableNothingHidden(
      fields: seq<SortField>, maxima: Coalesced, perPage: nat, table: seq<Row>)
    requires perPage >= 1 && EndsWithId(fields) && TableOk(table, maxima)
    requires forall r :: r in table ==> Clean(fields, maxima, r)
    ensures NoHiddenBoundary(RuleOf(fields, maxima, perPage), Sorted(table, fields, maxima))
  {
    SortedLists(table, fields, maxima, perPage);
    var s := Sorted(table, fields, maxima);
    forall k: nat, i: nat | 1 <= k && Start(k, perPage) <= i < |s|
      ensures !Hidden(fields, maxima, s[Start(k, perPage) - 1], s[i])
    {
      var a, b := s[Start(k, perPage) - 1], s[i];
      assert a in s && b in s;
      CleanNeverHidden(fields, maxima, a, b);
    }
  }

  /** Following the cursors over a still table always comes to an end. */
  lemma CursorsEnd(fields: seq<SortField>, maxima: Coalesced, perPage: nat, table: seq<Row>)
    returns (tables: seq<seq<Row>>, pages: seq<Fetched<Row, Cursor>>)
    requires perPage >= 1 && EndsWithId(fields) && TableOk(table, maxima)
    ensures Follow(SourceOf(fields, maxima, perPage), tables, pages)
    ensures Still(tables, table) && Ended(pages)
  {
    PaginateFaithful(fields, maxima, perPage);
    SortedLists(table, fields, maxima, perPage);
    tables, pages := FollowEnds(
      RuleOf(fields, maxima, perPage), SourceOf(fields, maxima, perPage), table,
      Sorted(table, fields, maxima), [], []);
  }
}
