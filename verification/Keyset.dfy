/** The order a page query sorts by and the cursor filter of `Pagination.paginate`.

    A row carries its id and nullable sort columns. PostgreSQL sorts a null after every value in
    an ascending column and before every value in a descending one, which is the order obtained
    by treating a null as larger than every value. */
module Keyset {
  datatype Value = Null | Val(n: int)
  datatype Order = Asc | Desc
  datatype SortField = SortField(name: string, order: Order)
  datatype Row = Row(id: int, columns: map<string, Value>)

  /** The field values of the last row of a page, in sort order. */
  type Cursor = seq<(string, Value)>

  /** The nullable date and datetime columns, each with the value `Coalesce` puts for a null:
      the largest value of the column's type. */
  type Coalesced = map<string, int>

  function Get(row: Row, field: string): Value {
    if field == "id" then Val(row.id)
    else if field in row.columns then row.columns[field]
    else Null
  }

  // ------------------------------------------------------------------ the sort order

  predicate Smaller(a: Value, b: Value) {
    a.Val? && (b.Null? || a.n < b.n)
  }

  predicate Precedes(a: Value, b: Value, order: Order) {
    if order == Asc then Smaller(a, b) else Smaller(b, a)
  }

  /** The first sort field two rows differ in, or the number of fields. */
  function FirstDiff(fields: seq<SortField>, a: Row, b: Row): (i: nat)
    ensures i <= |fields|
  {
    if fields == [] || Get(a, fields[0].name) != Get(b, fields[0].name) then 0
    else 1 + FirstDiff(fields[1..], a, b)
  }

  lemma {:induction false} FirstDiffSpec(fields: seq<SortField>, a: Row, b: Row)
    ensures
      var i := FirstDiff(fields, a, b);
      && (forall k :: 0 <= k < i ==> Get(a, fields[k].name) == Get(b, fields[k].name))
      && (i < |fields| ==> Get(a, fields[i].name) != Get(b, fields[i].name))
  {
    if fields != [] && Get(a, fields[0].name) == Get(b, fields[0].name) {
      FirstDiffSpec(fields[1..], a, b);
    }
  }

  /** `ORDER BY fields`: `a` comes strictly before `b`. */
  predicate Before(fields: seq<SortField>, a: Row, b: Row) {
    var i := FirstDiff(fields, a, b);
    i < |fields| && Precedes(Get(a, fields[i].name), Get(b, fields[i].name), fields[i].order)
  }

  predicate AlikeTo(fields: seq<SortField>, a: Row, b: Row, n: nat)
    requires n <= |fields|
  {
    forall k | 0 <= k < n :: Get(a, fields[k].name) == Get(b, fields[k].name)
  }

  /** The rows first differ in field `i`, and `a` comes first there: it has the smaller value of an ascending
      field or the larger one of a descending field, a null being larger than every value. */
  predicate Decides(fields: seq<SortField>, a: Row, b: Row, i: nat)
    requires i < |fields|
  {
    AlikeTo(fields, a, b, i)
    && match (fields[i].order, Get(a, fields[i].name), Get(b, fields[i].name))
       case (Asc, Val(m), Val(n)) => m < n
       case (Asc, Val(_), Null) => true
       case (Desc, Val(m), Val(n)) => m > n
       case (Desc, Null, Val(_)) => true
       case _ => false
  }

  /** Rows sorted by some fields and then by id. */
  predicate Ahead(fields: seq<SortField>, a: Row, b: Row) {
    (exists i: nat | i < |fields| :: Decides(fields, a, b, i))
    || (AlikeTo(fields, a, b, |fields|) && a.id < b.id)
  }

  lemma DecidesFirst(fields: seq<SortField>, a: Row, b: Row, i: nat)
    requires i < |fields|
    ensures Decides(fields, a, b, i)
       <==> FirstDiff(fields, a, b) == i && Precedes(Get(a, fields[i].name), Get(b, fields[i].name), fields[i].order)
  {
    FirstDiffSpec(fields, a, b);
    var d := FirstDiff(fields, a, b);
    if d < i { assert Get(a, fields[d].name) != Get(b, fields[d].name); }
  }

  lemma AlikePrefix(fields: seq<SortField>, more: seq<SortField>, a: Row, b: Row, n: nat)
    requires n <= |fields|
    ensures AlikeTo(fields + more, a, b, n) <==> AlikeTo(fields, a, b, n)
  {
    var all := fields + more;
    forall k | 0 <= k < n ensures all[k] == fields[k] {}
  }

  /** With the id as the last field, the sort order is that of `Ahead`. */
  lemma BeforeAhead(fields: seq<SortField>, a: Row, b: Row)
    ensures Before(fields + [SortField("id", Asc)], a, b) <==> Ahead(fields, a, b)
  {
    var all, n := fields + [SortField("id", Asc)], |fields|;
    forall i: nat | i < n ensures Decides(all, a, b, i) <==> Decides(fields, a, b, i) {
      AlikePrefix(fields, [SortField("id", Asc)], a, b, i);
    }
    forall i: nat | i <= n { DecidesFirst(all, a, b, i); }
    AlikePrefix(fields, [SortField("id", Asc)], a, b, n);
    assert Decides(all, a, b, n) <==> AlikeTo(fields, a, b, n) && a.id < b.id;
    if Before(all, a, b) {
      var d := FirstDiff(all, a, b);
      assert Decides(all, a, b, d);
      if d < n { assert Decides(fields, a, b, d); }
    }
    if Ahead(fields, a, b) {
      if i: nat :| i < n && Decides(fields, a, b, i) {
        assert Decides(all, a, b, i);
      } else {
        assert Decides(all, a, b, n);
      }
    }
  }

  /** `paginate` always sorts by id last. */
  predicate EndsWithId(fields: seq<SortField>) {
    |fields| > 0 && fields[|fields| - 1] == SortField("id", Asc)
  }

  lemma FirstDiffBetween(fields: seq<SortField>, a: Row, b: Row, c: Row)
    requires Before(fields, a, b) && Before(fields, b, c)
    ensures FirstDiff(fields, a, c)
         == if FirstDiff(fields, a, b) <= FirstDiff(fields, b, c)
            then FirstDiff(fields, a, b) else FirstDiff(fields, b, c)
  {
    var i, j, k := FirstDiff(fields, a, b), FirstDiff(fields, b, c), FirstDiff(fields, a, c);
    var m := if i <= j then i else j;
    FirstDiffSpec(fields, a, b);
    FirstDiffSpec(fields, b, c);
    FirstDiffSpec(fields, a, c);
    assert Get(a, fields[m].name) != Get(c, fields[m].name);
  }

  lemma BeforeTransitive(fields: seq<SortField>, a: Row, b: Row, c: Row)
    requires Before(fields, a, b) && Before(fields, b, c)
    ensures Before(fields, a, c)
  {
    FirstDiffBetween(fields, a, b, c);
    FirstDiffSpec(fields, a, b);
    FirstDiffSpec(fields, b, c);
  }

  lemma BeforeTotal(fields: seq<SortField>, a: Row, b: Row)
    requires EndsWithId(fields) && a.id != b.id
    ensures Before(fields, a, b) != Before(fields, b, a)
  {
    var i, j := FirstDiff(fields, a, b), FirstDiff(fields, b, a);
    FirstDiffSpec(fields, a, b);
    FirstDiffSpec(fields, b, a);
    assert Get(a, fields[|fields| - 1].name) != Get(b, fields[|fields| - 1].name);
    assert Get(a, fields[i].name) != Get(b, fields[i].name);
    assert Get(a, fields[j].name) != Get(b, fields[j].name);
  }

  // ------------------------------------------------------------------ the cursor filter

  /** One condition of the filter; `coalesced` compares the annotated column. */
  datatype Condition =
    | Greater(field: string, coalesced: bool, bound: int)
    | Less(field: string, coalesced: bool, bound: int)
    | Equals(field: string, value: Value)

  /** The conjunction of a list of conditions. */
  type Clause = seq<Condition>

  /** The value a comparison reads, a null being replaced where the column is coalesced. */
  function Operand(row: Row, field: string, coalesced: bool, maxima: Coalesced): Value {
    var v := Get(row, field);
    if v.Null? && coalesced && field in maxima then Val(maxima[field]) else v
  }

  /** A comparison with a null is unknown, which selects nothing; equality with a null is the
      null test. */
  predicate Holds(c: Condition, row: Row, maxima: Coalesced) {
    match c
    case Greater(f, co, b) => var v := Operand(row, f, co, maxima); v.Val? && v.n > b
    case Less(f, co, b) => var v := Operand(row, f, co, maxima); v.Val? && v.n < b
    case Equals(f, v) => Get(row, f) == v
  }

  predicate ClauseHolds(clause: Clause, row: Row, maxima: Coalesced) {
    forall j | 0 <= j < |clause| :: Holds(clause[j], row, maxima)
  }

  /** A disjunction of clauses; the empty `Q()` restricts nothing. */
  predicate Matches(filter: seq<Clause>, row: Row, maxima: Coalesced) {
    filter == [] || exists k | 0 <= k < |filter| :: ClauseHolds(filter[k], row, maxima)
  }

  /** The order of the first sort field of that name, ascending when there is none. */
  function OrderOf(fields: seq<SortField>, name: string): Order {
    if fields == [] then Asc
    else if fields[0].name == name then fields[0].order
    else OrderOf(fields[1..], name)
  }

  function Comparison(fields: seq<SortField>, maxima: Coalesced, name: string, bound: int): Condition {
    if OrderOf(fields, name) == Asc then Greater(name, name in maxima, bound)
    else Less(name, name in maxima, bound)
  }

  /** The equalities that tie a clause to the first `n` cursor values. */
  function Prefix(cursor: Cursor, n: nat): (clause: Clause)
    requires n <= |cursor|
    ensures |clause| == n
    ensures forall j :: 0 <= j < n ==> clause[j] == Equals(cursor[j].0, cursor[j].1)
  {
    if n == 0 then []
    else Prefix(cursor, n - 1) + [Equals(cursor[n - 1].0, cursor[n - 1].1)]
  }

  function ClauseAt(fields: seq<SortField>, maxima: Coalesced, cursor: Cursor, i: nat): Clause
    requires i < |cursor| && cursor[i].1.Val?
  {
    [Comparison(fields, maxima, cursor[i].0, cursor[i].1.n)] + Prefix(cursor, i)
  }

  /** The clauses of the first `n` cursor values; a null value contributes none. */
  function FilterTo(fields: seq<SortField>, maxima: Coalesced, cursor: Cursor, n: nat): seq<Clause>
    requires n <= |cursor|
  {
    if n == 0 then []
    else if cursor[n - 1].1.Null? then FilterTo(fields, maxima, cursor, n - 1)
    else FilterTo(fields, maxima, cursor, n - 1) + [ClauseAt(fields, maxima, cursor, n - 1)]
  }

  function CursorOf(fields: seq<SortField>, row: Row): (cursor: Cursor)
    ensures |cursor| == |fields|
    ensures forall k :: 0 <= k < |fields| ==> cursor[k] == (fields[k].name, Get(row, fields[k].name))
  {
    if fields == [] then []
    else [(fields[0].name, Get(row, fields[0].name))] + CursorOf(fields[1..], row)
  }

  /** `row` passes the filter built from the cursor of `last`. */
  predicate Passes(fields: seq<SortField>, maxima: Coalesced, last: Row, row: Row) {
    Matches(FilterTo(fields, maxima, CursorOf(fields, last), |fields|), row, maxima)
  }

  /** No stored date exceeds the largest date of its type. */
  predicate WellTyped(row: Row, maxima: Coalesced) {
    forall f | f in maxima && Get(row, f).Val? :: Get(row, f).n <= maxima[f]
  }

  /** The rows after the cursor that the null rules lose: the first difference is in an ascending
      column where the row is null and the cursor is not, unless the coalesced maximum saves it,
      or in a descending column where the cursor is null. */
  predicate Hidden(fields: seq<SortField>, maxima: Coalesced, last: Row, row: Row) {
    var i := FirstDiff(fields, last, row);
    i < |fields| &&
    var name := fields[i].name;
    var c, r := Get(last, name), Get(row, name);
    if fields[i].order == Asc then
      c.Val? && r.Null? && !(name in maxima && c.n < maxima[name])
    else c.Null?
  }

  // ------------------------------------------------------------------ what the filter selects

  /** `row` is after `last` and no null rule hides it. */
  predicate Follows(fields: seq<SortField>, maxima: Coalesced, last: Row, row: Row) {
    Before(fields, last, row) && !Hidden(fields, maxima, last, row)
  }

  lemma {:induction false} OrderOfFirst(fields: seq<SortField>, i: nat)
    requires i < |fields|
    requires forall k :: 0 <= k < i ==> fields[k].name != fields[i].name
    ensures OrderOf(fields, fields[i].name) == fields[i].order
  {
    if i > 0 {
      assert fields[0].name != fields[i].name;
      OrderOfFirst(fields[1..], i - 1);
    }
  }

  lemma {:induction false} FilterClauses(
      fields: seq<SortField>, maxima: Coalesced, cursor: Cursor, n: nat, clause: Clause)
    requires n <= |cursor|
    ensures clause in FilterTo(fields, maxima, cursor, n)
       <==> exists i :: 0 <= i < n && cursor[i].1.Val? && clause == ClauseAt(fields, maxima, cursor, i)
  {
    if n > 0 {
      FilterClauses(fields, maxima, cursor, n - 1, clause);
      var shorter := FilterTo(fields, maxima, cursor, n - 1);
      if cursor[n - 1].1.Val? {
        assert FilterTo(fields, maxima, cursor, n) == shorter + [ClauseAt(fields, maxima, cursor, n - 1)];
      }
    }
  }

  lemma ClauseAtHolds(
      fields: seq<SortField>, maxima: Coalesced, cursor: Cursor, i: nat, row: Row)
    requires i < |cursor| && cursor[i].1.Val?
    ensures ClauseHolds(ClauseAt(fields, maxima, cursor, i), row, maxima)
       <==> Holds(Comparison(fields, maxima, cursor[i].0, cursor[i].1.n), row, maxima)
            && forall j :: 0 <= j < i ==> Get(row, cursor[j].0) == cursor[j].1
  {
    var clause := ClauseAt(fields, maxima, cursor, i);
    if ClauseHolds(clause, row, maxima) {
      assert Holds(clause[0], row, maxima);
      forall j | 0 <= j < i ensures Get(row, cursor[j].0) == cursor[j].1 {
        assert Holds(clause[j + 1], row, maxima);
      }
    }
  }

  /** Only the clause at the first difference can hold, and it holds exactly for the rows after
      the cursor that no null rule hides. */
  lemma ClauseSelects(fields: seq<SortField>, maxima: Coalesced, last: Row, row: Row, i: nat)
    requires i < |fields| && Get(last, fields[i].name).Val?
    requires WellTyped(last, maxima) && WellTyped(row, maxima)
    ensures ClauseHolds(ClauseAt(fields, maxima, CursorOf(fields, last), i), row, maxima)
       <==> i == FirstDiff(fields, last, row) && Before(fields, last, row)
            && !Hidden(fields, maxima, last, row)
  {
    var cursor := CursorOf(fields, last);
    var d := FirstDiff(fields, last, row);
    ClauseAtHolds(fields, maxima, cursor, i, row);
    FirstDiffSpec(fields, last, row);
    if i > d {
      assert Get(row, cursor[d].0) != cursor[d].1;
    } else if i == d {
      forall k | 0 <= k < i ensures fields[k].name != fields[i].name {
        assert Get(last, fields[k].name) == Get(row, fields[k].name);
      }
      OrderOfFirst(fields, i);
    }
  }

  /** The filter selects exactly the rows strictly after the cursor that no null rule hides. */
  lemma FilterExact(fields: seq<SortField>, maxima: Coalesced, last: Row, row: Row)
    requires EndsWithId(fields) && WellTyped(last, maxima) && WellTyped(row, maxima)
    ensures Passes(fields, maxima, last, row)
       <==> Follows(fields, maxima, last, row)
  {
    var cursor := CursorOf(fields, last);
    var filter := FilterTo(fields, maxima, cursor, |fields|);
    var id := |fields| - 1;
    FilterClauses(fields, maxima, cursor, |fields|, ClauseAt(fields, maxima, cursor, id));
    assert filter != [];
    var d := FirstDiff(fields, last, row);
    FirstDiffSpec(fields, last, row);
    if Before(fields, last, row) && !Hidden(fields, maxima, last, row) {
      var clause := ClauseAt(fields, maxima, cursor, d);
      ClauseSelects(fields, maxima, last, row, d);
      FilterClauses(fields, maxima, cursor, |fields|, clause);
    }
    if Matches(filter, row, maxima) {
      var k :| 0 <= k < |filter| && ClauseHolds(filter[k], row, maxima);
      FilterClauses(fields, maxima, cursor, |fields|, filter[k]);
      var i :| 0 <= i < |fields| && cursor[i].1.Val? && filter[k] == ClauseAt(fields, maxima, cursor, i);
      ClauseSelects(fields, maxima, last, row, i);
    }
  }

  /** Rows no null rule touches: a null only in an ascending coalesced column, and there no value
      equal to the maximum that stands for a null. */
  predicate Clean(fields: seq<SortField>, maxima: Coalesced, row: Row) {
    forall k | 0 <= k < |fields| ::
      var name := fields[k].name;
      var saved := fields[k].order == Asc && name in maxima;
      match Get(row, name)
      case Null => saved
      case Val(n) => saved ==> n < maxima[name]
  }

  lemma CleanNeverHidden(fields: seq<SortField>, maxima: Coalesced, last: Row, row: Row)
    requires Clean(fields, maxima, last) && Clean(fields, maxima, row)
    ensures !Hidden(fields, maxima, last, row)
  {
    var i := FirstDiff(fields, last, row);
    FirstDiffSpec(fields, last, row);
    assert i < |fields| ==> Get(last, fields[i].name) != Get(row, fields[i].name);
  }

  /** A row once hidden from a cursor follows no later cursor. */
  lemma FollowsTransitive(fields: seq<SortField>, maxima: Coalesced, a: Row, b: Row, c: Row)
    requires WellTyped(a, maxima) && WellTyped(b, maxima) && WellTyped(c, maxima)
    requires Follows(fields, maxima, a, b) && Follows(fields, maxima, b, c)
    ensures Follows(fields, maxima, a, c)
  {
    FirstDiffBetween(fields, a, b, c);
    BeforeTransitive(fields, a, b, c);
    FirstDiffSpec(fields, a, b);
    FirstDiffSpec(fields, b, c);
    FirstDiffSpec(fields, a, c);
    var i := FirstDiff(fields, a, c);
    assert Get(a, fields[i].name) == Get(b, fields[i].name)
        || Get(b, fields[i].name) == Get(c, fields[i].name)
        || FirstDiff(fields, a, b) == FirstDiff(fields, b, c);
  }

  /** The null rules do lose rows: an ascending nullable text column, cursor on a value, next row
      null. */
  lemma NullRowLost()
    ensures
      var fields := [SortField("title", Asc), SortField("id", Asc)];
      var last, row := Row(1, map["title" := Val(7)]), Row(2, map["title" := Null]);
      Before(fields, last, row) && !Passes(fields, map[], last, row)
  {
    var fields := [SortField("title", Asc), SortField("id", Asc)];
    var last, row := Row(1, map["title" := Val(7)]), Row(2, map["title" := Null]);
    assert FirstDiff(fields, last, row) == 0;
    FilterExact(fields, map[], last, row);
  }
}
