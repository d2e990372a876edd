/** Page walks over any strictly ordered rows: what following "the next `perPage` rows after the
    last one" returns while the table changes between the pages, and over a still table.

    A cursor may hide rows that come after it. Hiding is abstract here; `Keyset` says which rows the
    null rules of the real filter hide. */
module Walks {
  import opened Options

  /** The order of the rows, the rows a cursor hides, and the page size. */
  datatype Rule<!T> = Rule(ok: T -> bool, before: (T, T) -> bool, hides: (T, T) -> bool, perPage: nat) {
    /** `row` is after `last` and not hidden from it. */
    predicate Follows(last: T, row: T) {
      before(last, row) && !hides(last, row)
    }
  }

  /** The laws a rule keeps for the rows that can occur. */
  predicate LawAt<T>(q: Rule<T>, a: T, b: T, c: T) {
    q.ok(a) && q.ok(b) && q.ok(c) ==>
      && !q.before(a, a)
      && (q.before(a, b) && q.before(b, c) ==> q.before(a, c))
      && (q.hides(a, b) ==> q.before(a, b))
      && (q.Follows(a, b) && q.Follows(b, c) ==> q.Follows(a, c))
  }

  ghost predicate Lawful<T(!new)>(q: Rule<T>) {
    q.perPage >= 1 && forall a, b, c :: LawAt(q, a, b, c)
  }

  predicate StrictlySorted<T>(q: Rule<T>, rows: seq<T>) {
    forall i, j | 0 <= i < j < |rows| :: q.before(rows[i], rows[j])
  }

  predicate AllOk<T(==)>(q: Rule<T>, rows: seq<T>) {
    forall r | r in rows :: q.ok(r)
  }

  /** The rows of one page and whether it names a next one. */
  datatype Page<T> = Page(rows: seq<T>, more: bool)

  function LastRow<T>(page: Page<T>): T
    requires page.rows != []
  {
    page.rows[|page.rows| - 1]
  }

  predicate FollowsCursor<T>(q: Rule<T>, after: Option<T>, row: T) {
    after.Some? ==> q.Follows(after.value, row)
  }

  /** What a page is: the first rows, at most `perPage` in strict order, of those that follow the
      row `after`; a next page exactly when there are more. */
  predicate PageSpec<T(==)>(q: Rule<T>, table: seq<T>, after: Option<T>, page: Page<T>) {
    && StrictlySorted(q, page.rows) && |page.rows| <= q.perPage
    && (forall r | r in page.rows :: r in table && FollowsCursor(q, after, r))
    && (page.more ==> |page.rows| == q.perPage >= 1)
    && (forall r | r in table && FollowsCursor(q, after, r) ::
          r in page.rows || (page.more && q.before(LastRow(page), r)))
    && (page.more ==> exists r | r in table :: r !in page.rows && FollowsCursor(q, after, r))
  }

  /** The row page `k` of a walk continues after. */
  function AfterAt<T>(pages: seq<Page<T>>, k: nat): Option<T>
    requires k <= |pages|
  {
    if k == 0 || pages[k - 1].rows == [] then None else Some(LastRow(pages[k - 1]))
  }

  predicate LinkAt<T(==)>(q: Rule<T>, tables: seq<seq<T>>, pages: seq<Page<T>>, k: nat)
    requires k < |pages| == |tables|
  {
    && AllOk(q, tables[k])
    && PageSpec(q, tables[k], AfterAt(pages, k), pages[k])
    && (k + 1 < |pages| ==> pages[k].more)
  }

  /** Page `k` is read from `tables[k]`, whatever other writers made of the table by then. */
  predicate IsWalk<T(==)>(q: Rule<T>, tables: seq<seq<T>>, pages: seq<Page<T>>) {
    |tables| == |pages| && forall k | 0 <= k < |pages| :: LinkAt(q, tables, pages, k)
  }

  predicate Finished<T>(pages: seq<Page<T>>) {
    |pages| > 0 && !pages[|pages| - 1].more
  }

  /** Everything a walk returned, page after page. */
  function Returned<T>(pages: seq<Page<T>>): seq<T> {
    if pages == [] then [] else Returned(pages[..|pages| - 1]) + pages[|pages| - 1].rows
  }

  // ------------------------------------------------------------------ changing tables

  lemma LastOf<T(!new)>(q: Rule<T>, tables: seq<seq<T>>, pages: seq<Page<T>>, k: nat)
    requires IsWalk(q, tables, pages) && k < |pages| && (k + 1 < |pages| || pages[k].rows != [])
    ensures k + 1 < |pages| ==> q.perPage >= 1 && pages[k].more && |pages[k].rows| == q.perPage
    ensures pages[k].rows != [] && LastRow(pages[k]) in pages[k].rows && q.ok(LastRow(pages[k]))
    ensures forall r :: r in pages[k].rows ==> r == LastRow(pages[k]) || q.before(r, LastRow(pages[k]))
  {
    assert LinkAt(q, tables, pages, k);
    assert LastRow(pages[k]) in pages[k].rows;
  }

  lemma RowOf<T(!new)>(q: Rule<T>, tables: seq<seq<T>>, pages: seq<Page<T>>, k: nat, row: T)
    requires IsWalk(q, tables, pages) && k < |pages| && row in pages[k].rows
    ensures row in tables[k] && q.ok(row) && FollowsCursor(q, AfterAt(pages, k), row)
  {
    assert LinkAt(q, tables, pages, k);
  }

  /** A row of a later page follows the last row of every earlier page. */
  lemma {:induction false} LaterFollows<T(!new)>(
      q: Rule<T>, tables: seq<seq<T>>, pages: seq<Page<T>>, k: nat, m: nat, row: T)
    requires Lawful(q) && IsWalk(q, tables, pages) && k < m < |pages| && row in pages[m].rows
    ensures pages[k].more && pages[k].rows != [] && q.Follows(LastRow(pages[k]), row)
    decreases m - k
  {
    LastOf(q, tables, pages, k);
    RowOf(q, tables, pages, m, row);
    if k + 1 < m {
      LastOf(q, tables, pages, k + 1);
      LaterFollows(q, tables, pages, k + 1, m, row);
      RowOf(q, tables, pages, k + 1, LastRow(pages[k + 1]));
      assert LawAt(q, LastRow(pages[k]), LastRow(pages[k + 1]), row);
    }
  }

  lemma LaterAfter<T(!new)>(
      q: Rule<T>, tables: seq<seq<T>>, pages: seq<Page<T>>, k: nat, m: nat, early: T, late: T)
    requires Lawful(q) && IsWalk(q, tables, pages) && k < m < |pages|
    requires early in pages[k].rows && late in pages[m].rows
    ensures q.before(early, late)
  {
    LaterFollows(q, tables, pages, k, m, late);
    LastOf(q, tables, pages, k);
    RowOf(q, tables, pages, k, early);
    RowOf(q, tables, pages, m, late);
    assert LawAt(q, early, LastRow(pages[k]), late);
  }

  lemma {:induction false} ReturnedFrom<T(!new)>(pages: seq<Page<T>>, row: T)
    ensures row in Returned(pages) <==> exists k :: 0 <= k < |pages| && row in pages[k].rows
  {
    if pages != [] {
      var n := |pages| - 1;
      var init := pages[..n];
      assert pages == init + [pages[n]];
      ReturnedFrom(init, row);
      if row in Returned(init) {
        var k :| 0 <= k < n && row in init[k].rows;
        assert row in pages[k].rows;
      }
      forall k | 0 <= k < |pages| && row in pages[k].rows ensures row in Returned(pages) {
        if k < n { assert row in init[k].rows; }
      }
    }
  }

  lemma {:induction false} PrefixSorted<T(!new)>(
      q: Rule<T>, tables: seq<seq<T>>, pages: seq<Page<T>>, n: nat)
    requires Lawful(q) && IsWalk(q, tables, pages) && n <= |pages|
    ensures StrictlySorted(q, Returned(pages[..n]))
  {
    if n > 0 {
      PrefixSorted(q, tables, pages, n - 1);
      assert pages[..n][..n - 1] == pages[..n - 1];
      var early, page := Returned(pages[..n - 1]), pages[n - 1].rows;
      assert Returned(pages[..n]) == early + page;
      assert LinkAt(q, tables, pages, n - 1);
      forall i, j | 0 <= i < |early| && 0 <= j < |page| ensures q.before(early[i], page[j]) {
        ReturnedFrom(pages[..n - 1], early[i]);
        var k :| 0 <= k < n - 1 && early[i] in pages[..n - 1][k].rows;
        LaterAfter(q, tables, pages, k, n - 1, early[i], page[j]);
      }
    }
  }

  /** Whatever the other writers do, a walk returns its rows in strict order, so no row twice. */
  lemma WalkSorted<T(!new)>(q: Rule<T>, tables: seq<seq<T>>, pages: seq<Page<T>>)
    requires Lawful(q) && IsWalk(q, tables, pages)
    ensures StrictlySorted(q, Returned(pages))
  {
    PrefixSorted(q, tables, pages, |pages|);
    assert pages[..|pages|] == pages;
  }

  /** The cursor this page hands out hides the row. */
  predicate HiddenFromPage<T>(q: Rule<T>, page: Page<T>, row: T) {
    page.more && page.rows != [] && q.hides(LastRow(page), row)
  }

  /** A row present in every table is returned by page `k` at the latest, or comes after the last
      row of page `k`, if no cursor hides it. */
  lemma {:induction false} NotYetReturned<T(!new)>(
      q: Rule<T>, tables: seq<seq<T>>, pages: seq<Page<T>>, row: T, k: nat)
    requires IsWalk(q, tables, pages) && k < |pages|
    requires forall m :: 0 <= m < |tables| ==> row in tables[m]
    requires forall m :: 0 <= m < |pages| ==> !HiddenFromPage(q, pages[m], row)
    ensures (exists m :: 0 <= m <= k && row in pages[m].rows)
         || (pages[k].more && pages[k].rows != [] && q.before(LastRow(pages[k]), row))
  {
    assert row in tables[k] && LinkAt(q, tables, pages, k);
    if k > 0 {
      NotYetReturned(q, tables, pages, row, k - 1);
      LastOf(q, tables, pages, k - 1);
      assert !HiddenFromPage(q, pages[k - 1], row);
    }
  }

  /** A row a cursor of the walk hides is on no page. */
  lemma HiddenNotReturned<T(!new)>(
      q: Rule<T>, tables: seq<seq<T>>, pages: seq<Page<T>>, row: T, m: nat, k: nat)
    requires Lawful(q) && IsWalk(q, tables, pages) && m < |pages| && k < |pages|
    requires HiddenFromPage(q, pages[m], row)
    ensures row !in pages[k].rows
  {
    if row in pages[k].rows {
      var last := LastRow(pages[m]);
      LastOf(q, tables, pages, m);
      RowOf(q, tables, pages, k, row);
      assert LawAt(q, last, row, last);
      if m < k {
        LaterFollows(q, tables, pages, m, k, row);
      } else if k < m {
        LaterAfter(q, tables, pages, k, m, row, last);
      }
    }
  }

  /** A finished walk returns a row that stood unchanged in every table it read exactly when no
      cursor of the walk hides it. */
  lemma WalkStable<T(!new)>(q: Rule<T>, tables: seq<seq<T>>, pages: seq<Page<T>>, row: T)
    requires Lawful(q) && IsWalk(q, tables, pages) && Finished(pages)
    requires forall m :: 0 <= m < |tables| ==> row in tables[m]
    ensures row in Returned(pages)
       <==> forall m :: 0 <= m < |pages| ==> !HiddenFromPage(q, pages[m], row)
  {
    ReturnedFrom(pages, row);
    if forall m :: 0 <= m < |pages| ==> !HiddenFromPage(q, pages[m], row) {
      NotYetReturned(q, tables, pages, row, |pages| - 1);
    }
    if k :| 0 <= k < |pages| && row in pages[k].rows {
      forall m | 0 <= m < |pages| ensures !HiddenFromPage(q, pages[m], row) {
        if HiddenFromPage(q, pages[m], row) {
          HiddenNotReturned(q, tables, pages, row, m, k);
        }
      }
    }
  }

  // ------------------------------------------------------------------ a still table

  predicate Still<T(==)>(tables: seq<seq<T>>, table: seq<T>) {
    forall m | 0 <= m < |tables| :: tables[m] == table
  }

  /** `s` lists the rows of the table in order. */
  predicate Lists<T(==)>(q: Rule<T>, s: seq<T>, table: seq<T>) {
    StrictlySorted(q, s) && (forall r | r in s :: r in table) && (forall r | r in table :: r in s)
  }

  /** Where page `k` of a sorted table starts: `k * perPage`. */
  function Start(k: nat, perPage: nat): (b: nat)
    ensures k >= 1 && perPage >= 1 ==> b >= 1
  {
    if k == 0 then 0 else Start(k - 1, perPage) + perPage
  }

  lemma {:induction false} StartGrows(a: nat, b: nat, perPage: nat)
    requires a <= b
    ensures Start(a, perPage) <= Start(b, perPage)
  {
    if a < b { StartGrows(a, b - 1, perPage); }
  }

  lemma {:induction false} StartAtLeast(k: nat, perPage: nat)
    requires perPage >= 1
    ensures Start(k, perPage) >= k
  {
    if k > 0 { StartAtLeast(k - 1, perPage); }
  }

  function Least(a: nat, b: nat): nat {
    if a < b then a else b
  }

  /** No row is hidden from the row that ends an earlier page of the sorted table. */
  ghost predicate NoHiddenBoundary<T>(q: Rule<T>, s: seq<T>)
    requires q.perPage >= 1
  {
    forall k: nat, i: nat | 1 <= k && Start(k, q.perPage) <= i < |s| ::
      !q.hides(s[Start(k, q.perPage) - 1], s[i])
  }

  /** A strictly sorted part of a sorted sequence that everything left out comes after is a prefix
      of it. */
  lemma {:induction false} PrefixUnique<T(!new)>(q: Rule<T>, a: seq<T>, b: seq<T>)
    requires Lawful(q) && AllOk(q, b) && StrictlySorted(q, a) && StrictlySorted(q, b)
    requires forall r :: r in a ==> r in b
    requires forall r :: r in b ==> r in a || (a != [] && q.before(a[|a| - 1], r))
    ensures |a| <= |b| && a == b[..|a|]
  {
    if a != [] {
      SameHead(q, a, b);
      var last := a[|a| - 1];
      if |a| > 1 {
        forall r | r in b[1..] ensures r in a[1..] || q.before(last, r) {
          TailWithoutHead(q, b, r);
          assert r in a ==> r == a[0] || r in a[1..];
        }
        forall r | r in a[1..] ensures r in b[1..] {
          assert r in b;
          TailWithoutHead(q, a, r);
        }
        PrefixUnique(q, a[1..], b[1..]);
      }
    }
  }

  lemma TailWithoutHead<T(!new)>(q: Rule<T>, s: seq<T>, r: T)
    requires Lawful(q) && s != [] && StrictlySorted(q, s) && r in s[1..] && q.ok(r)
    ensures r in s && r != s[0]
  {
    var i :| 0 <= i < |s[1..]| && s[1..][i] == r;
    assert q.before(s[0], s[i + 1]);
    assert LawAt(q, r, r, r);
  }

  lemma SameHead<T(!new)>(q: Rule<T>, a: seq<T>, b: seq<T>)
    requires Lawful(q) && AllOk(q, b) && StrictlySorted(q, a) && StrictlySorted(q, b) && a != []
    requires forall r :: r in a ==> r in b
    requires forall r :: r in b ==> r in a || q.before(a[|a| - 1], r)
    ensures b != [] && b[0] == a[0]
  {
    var last := a[|a| - 1];
    assert a[0] in b && last in b;
    var j :| 0 <= j < |b| && b[j] == a[0];
    if j > 0 {
      assert q.before(b[0], a[0]);
      assert LawAt(q, last, b[0], a[0]);
      assert LawAt(q, last, a[0], last);
      assert b[0] in a;
      var i :| 0 <= i < |a| && a[i] == b[0];
      assert LawAt(q, a[0], a[i], a[0]);
    }
  }

  predicate IsSlice<T(==)>(q: Rule<T>, s: seq<T>, page: Page<T>, k: nat) {
    var lo, hi := Start(k, q.perPage), Start(k + 1, q.perPage);
    && lo <= |s| && lo <= hi && (k > 0 ==> lo < |s|)
    && page.rows == s[lo..Least(hi, |s|)]
    && (page.more <==> hi < |s|)
  }

  /** On a still table without hidden boundaries page `k` is the `k`-th slice of the sorted table,
      and it is the last one exactly when the table ends there. */
  lemma {:induction false} StillPage<T(!new)>(
      q: Rule<T>, table: seq<T>, tables: seq<seq<T>>, pages: seq<Page<T>>, s: seq<T>, k: nat)
    requires Lawful(q) && IsWalk(q, tables, pages) && k < |pages| && Still(tables, table)
    requires Lists(q, s, table) && NoHiddenBoundary(q, s)
    ensures IsSlice(q, s, pages[k], k)
  {
    if k > 0 {
      StillPage(q, table, tables, pages, s, k - 1);
      LastOf(q, tables, pages, k - 1);
      SliceEnd(q, s, pages, k);
    }
    assert LinkAt(q, tables, pages, k) && tables[k] == table;
    FollowsBoundary(q, s, k, AfterAt(pages, k));
    SliceAt(q, table, s, k, AfterAt(pages, k), pages[k]);
  }

  lemma SliceAt<T(!new)>(q: Rule<T>, table: seq<T>, s: seq<T>, k: nat, after: Option<T>, page: Page<T>)
    requires Lawful(q) && AllOk(q, table) && Lists(q, s, table)
    requires Start(k, q.perPage) <= |s| && (k > 0 ==> Start(k, q.perPage) < |s|)
    requires forall i :: 0 <= i < |s| ==> (FollowsCursor(q, after, s[i]) <==> Start(k, q.perPage) <= i)
    requires PageSpec(q, table, after, page)
    ensures IsSlice(q, s, page, k)
  {
    assert Start(k + 1, q.perPage) == Start(k, q.perPage) + q.perPage;
    SliceUnique(q, table, s, Start(k, q.perPage), after, page);
  }

  lemma SliceEnd<T(!new)>(q: Rule<T>, s: seq<T>, pages: seq<Page<T>>, k: nat)
    requires q.perPage >= 1 && 1 <= k < |pages|
    requires IsSlice(q, s, pages[k - 1], k - 1) && pages[k - 1].more
    ensures Start(k, q.perPage) < |s| && AfterAt(pages, k) == Some(s[Start(k, q.perPage) - 1])
  {
    assert Start(k, q.perPage) == Start(k - 1, q.perPage) + q.perPage;
  }

  lemma FollowsBoundary<T(!new)>(q: Rule<T>, s: seq<T>, k: nat, after: Option<T>)
    requires Lawful(q) && AllOk(q, s) && StrictlySorted(q, s) && NoHiddenBoundary(q, s)
    requires var lo := Start(k, q.perPage);
             lo <= |s| && after == if lo == 0 then None else Some(s[lo - 1])
    ensures forall i :: 0 <= i < |s| ==> (FollowsCursor(q, after, s[i]) <==> Start(k, q.perPage) <= i)
  {
    var lo := Start(k, q.perPage);
    forall i | 0 <= i < |s| && lo > 0 ensures FollowsCursor(q, after, s[i]) <==> lo <= i {
      assert s[i] in s && s[lo - 1] in s;
      assert LawAt(q, s[i], s[lo - 1], s[i]);
    }
  }

  lemma SliceUnique<T(!new)>(
      q: Rule<T>, table: seq<T>, s: seq<T>, lo: nat, after: Option<T>, page: Page<T>)
    requires Lawful(q) && AllOk(q, table) && Lists(q, s, table) && lo <= |s|
    requires forall i :: 0 <= i < |s| ==> (FollowsCursor(q, after, s[i]) <==> lo <= i)
    requires PageSpec(q, table, after, page)
    ensures
      var hi := lo + q.perPage;
      && page.rows == s[lo..Least(hi, |s|)]
      && (page.more <==> hi < |s|)
  {
    var rest := s[lo..];
    forall r ensures r in rest <==> r in table && FollowsCursor(q, after, r) {
      RestFollows(q, table, s, lo, after, r);
    }
    FirstRows(q, table, after, page, rest);
    assert rest[..Least(q.perPage, |rest|)] == s[lo..Least(lo + q.perPage, |s|)];
  }

  lemma FirstRows<T(!new)>(q: Rule<T>, table: seq<T>, after: Option<T>, page: Page<T>, rest: seq<T>)
    requires Lawful(q) && AllOk(q, table) && StrictlySorted(q, rest)
    requires forall r :: r in rest <==> r in table && FollowsCursor(q, after, r)
    requires PageSpec(q, table, after, page)
    ensures page.rows == rest[..Least(q.perPage, |rest|)]
    ensures page.more <==> q.perPage < |rest|
  {
    PrefixUnique(q, page.rows, rest);
    if |page.rows| < |rest| {
      LeftOut(q, page.rows, rest);
    } else {
      assert page.rows == rest;
    }
  }

  lemma RestFollows<T(!new)>(q: Rule<T>, table: seq<T>, s: seq<T>, lo: nat, after: Option<T>, r: T)
    requires Lists(q, s, table) && lo <= |s|
    requires forall i :: 0 <= i < |s| ==> (FollowsCursor(q, after, s[i]) <==> lo <= i)
    ensures r in s[lo..] <==> r in table && FollowsCursor(q, after, r)
  {
    if r in s[lo..] {
      var i :| 0 <= i < |s[lo..]| && s[lo..][i] == r;
      assert s[lo + i] == r;
    }
    if r in table && FollowsCursor(q, after, r) {
      assert r in s;
      var i :| 0 <= i < |s| && s[i] == r;
      assert s[lo..][i - lo] == r;
    }
  }

  lemma LeftOut<T(!new)>(q: Rule<T>, a: seq<T>, rest: seq<T>)
    requires Lawful(q) && AllOk(q, rest) && StrictlySorted(q, rest)
    requires |a| < |rest| && a == rest[..|a|]
    ensures rest[|a|] in rest && rest[|a|] !in a
  {
    var r := rest[|a|];
    forall i | 0 <= i < |a| ensures a[i] != r {
      assert q.before(rest[i], r);
      assert LawAt(q, r, r, r);
    }
  }

  lemma {:induction false} StillReturned<T(!new)>(
      q: Rule<T>, table: seq<T>, tables: seq<seq<T>>, pages: seq<Page<T>>, s: seq<T>, n: nat)
    requires Lawful(q) && IsWalk(q, tables, pages) && n <= |pages| && Still(tables, table)
    requires Lists(q, s, table) && NoHiddenBoundary(q, s)
    ensures Returned(pages[..n]) == s[..Least(Start(n, q.perPage), |s|)]
  {
    if n > 0 {
      StillReturned(q, table, tables, pages, s, n - 1);
      StillPage(q, table, tables, pages, s, n - 1);
      assert pages[..n][..n - 1] == pages[..n - 1];
      SliceMore(s, Start(n - 1, q.perPage), Start(n, q.perPage));
    }
  }

  lemma SliceMore<T>(s: seq<T>, lo: nat, hi: nat)
    requires lo <= |s| && lo <= hi
    ensures s[..lo] + s[lo..Least(hi, |s|)] == s[..Least(hi, |s|)]
  {}

  /** Every page with a successor is full, so the returned rows count the pages. */
  lemma {:induction false} FullPages<T(!new)>(
      q: Rule<T>, tables: seq<seq<T>>, pages: seq<Page<T>>, n: nat)
    requires IsWalk(q, tables, pages) && n < |pages|
    ensures |Returned(pages[..n])| == Start(n, q.perPage)
    ensures n > 0 ==>
              && pages[n - 1].rows != [] && Returned(pages[..n]) != []
              && Returned(pages[..n])[|Returned(pages[..n])| - 1] == LastRow(pages[n - 1])
  {
    if n > 0 {
      FullPages(q, tables, pages, n - 1);
      assert pages[..n][..n - 1] == pages[..n - 1];
      LastOf(q, tables, pages, n - 1);
    }
  }

  lemma {:induction false} ReturnedPrefix<T>(pages: seq<Page<T>>, n: nat)
    requires n <= |pages|
    ensures Returned(pages[..n]) <= Returned(pages)
  {
    if n < |pages| {
      ReturnedPrefix(pages[..|pages| - 1], n);
      assert pages[..|pages| - 1][..n] == pages[..n];
    } else {
      assert pages[..n] == pages;
    }
  }

  lemma NothingHidden<T(!new)>(
      q: Rule<T>, table: seq<T>, tables: seq<seq<T>>, pages: seq<Page<T>>, k: nat, i: nat)
    requires Lawful(q) && IsWalk(q, tables, pages) && Finished(pages) && Still(tables, table)
    requires 1 <= k && Start(k, q.perPage) <= i < |Returned(pages)|
    requires forall r :: r in Returned(pages) ==> r in table
    ensures !q.hides(Returned(pages)[Start(k, q.perPage) - 1], Returned(pages)[i])
  {
    var s, n := Returned(pages), |pages| - 1;
    FullPages(q, tables, pages, n);
    assert LinkAt(q, tables, pages, n);
    if k > n { StartGrows(n + 1, k, q.perPage); }
    FullPages(q, tables, pages, k);
    ReturnedPrefix(pages, k);
    LastOf(q, tables, pages, k - 1);
    assert s[Start(k, q.perPage) - 1] == LastRow(pages[k - 1]);
    assert s[i] in s;
    WalkStable(q, tables, pages, s[i]);
    assert !HiddenFromPage(q, pages[k - 1], s[i]);
  }

  /** Following the cursors over a still table gives back the whole table in order exactly when no
      row is hidden from the end of an earlier page. */
  lemma StillWalk<T(!new)>(
      q: Rule<T>, table: seq<T>, tables: seq<seq<T>>, pages: seq<Page<T>>, s: seq<T>)
    requires Lawful(q) && IsWalk(q, tables, pages) && Finished(pages) && Still(tables, table)
    requires Lists(q, s, table)
    ensures Returned(pages) == s <==> NoHiddenBoundary(q, s)
  {
    if NoHiddenBoundary(q, s) {
      StillReturned(q, table, tables, pages, s, |pages|);
      assert pages[..|pages|] == pages;
      StillPage(q, table, tables, pages, s, |pages| - 1);
    }
    if Returned(pages) == s {
      forall k: nat, i: nat | 1 <= k && Start(k, q.perPage) <= i < |s|
        ensures !q.hides(s[Start(k, q.perPage) - 1], s[i])
      {
        NothingHidden(q, table, tables, pages, k, i);
      }
    }
  }

  /** A walk over a still table, finished or not, reads at most `max(1, ceil(n / perPage))` pages;
      it reads exactly that many when it gives back the whole table. */
  lemma StillWalkLength<T(!new)>(
      q: Rule<T>, table: seq<T>, tables: seq<seq<T>>, pages: seq<Page<T>>, s: seq<T>)
    requires Lawful(q) && IsWalk(q, tables, pages) && Still(tables, table) && pages != []
    requires Lists(q, s, table)
    ensures |pages| == 1 || Start(|pages| - 1, q.perPage) < |s|
    ensures Returned(pages) == s ==> |s| <= Start(|pages|, q.perPage)
  {
    var n := |pages| - 1;
    FullPages(q, tables, pages, n);
    assert LinkAt(q, tables, pages, n) && tables[n] == table;
    if n > 0 {
      var r := MoreRows(q, table, tables, pages, n);
      PrefixSorted(q, tables, pages, n);
      SortedPart(q, Returned(pages[..n]) + [r], s);
    }
  }

  /** A page with a successor leaves a row after everything returned so far. */
  lemma MoreRows<T(!new)>(
      q: Rule<T>, table: seq<T>, tables: seq<seq<T>>, pages: seq<Page<T>>, n: nat) returns (r: T)
    requires Lawful(q) && IsWalk(q, tables, pages) && Still(tables, table) && 0 < n < |pages|
    ensures r in table
    ensures forall x :: x in Returned(pages[..n]) ==> x in table && q.before(x, r)
  {
    assert LinkAt(q, tables, pages, n - 1) && tables[n - 1] == table;
    LastOf(q, tables, pages, n - 1);
    var last := LastRow(pages[n - 1]);
    r :| r in table && r !in pages[n - 1].rows && FollowsCursor(q, AfterAt(pages, n - 1), r);
    assert q.before(last, r);
    forall x | x in Returned(pages[..n]) ensures x in table && q.before(x, r) {
      ReturnedFrom(pages[..n], x);
      var m :| 0 <= m < n && x in pages[..n][m].rows;
      RowOf(q, tables, pages, m, x);
      assert tables[m] == table;
      if m < n - 1 { LaterAfter(q, tables, pages, m, n - 1, x, last); }
      assert LawAt(q, x, last, r);
    }
  }

  lemma {:induction false} SortedPart<T(!new)>(q: Rule<T>, a: seq<T>, b: seq<T>)
    requires Lawful(q) && AllOk(q, b) && StrictlySorted(q, a) && StrictlySorted(q, b)
    requires forall r :: r in a ==> r in b
    ensures |a| <= |b|
  {
    if a != [] {
      assert a[0] in b;
      var j :| 0 <= j < |b| && b[j] == a[0];
      forall r | r in a[1..] ensures r in b[j + 1..] {
        var i :| 0 <= i < |a[1..]| && a[1..][i] == r;
        assert q.before(a[0], a[i + 1]) && r in b;
        var m :| 0 <= m < |b| && b[m] == r;
        assert LawAt(q, b[m], b[j], b[m]);
        assert b[j + 1..][m - j - 1] == r;
      }
      SortedPart(q, a[1..], b[j + 1..]);
    }
  }

  // ------------------------------------------------------------------ walks by cursor

  /** What one fetch returns: its rows and the cursor of the next page. */
  datatype Fetched<T, C> = Fetched(results: seq<T>, next: Option<C>)

  /** Where pages come from: the tables it accepts, the fetch, and the cursor of a row. */
  datatype Source<!T, !C> = Source(
    valid: seq<T> -> bool, fetch: (seq<T>, Option<C>) -> Fetched<T, C>, cursorOf: T -> C)

  /** The page without its cursor. */
  function Shape<T, C>(page: Fetched<T, C>): Page<T> {
    Page(page.results, page.next.Some?)
  }

  function Shapes<T, C>(pages: seq<Fetched<T, C>>): (shapes: seq<Page<T>>)
    ensures |shapes| == |pages|
    ensures forall k :: 0 <= k < |pages| ==> shapes[k] == Shape(pages[k])
  {
    seq(|pages|, k requires 0 <= k < |pages| => Shape(pages[k]))
  }

  function CursorAfter<T, C>(src: Source<T, C>, after: Option<T>): Option<C> {
    if after.None? then None else Some(src.cursorOf(after.value))
  }

  /** A fetch, from no cursor or from the cursor of a row, returns the page the rule calls for and
      names the cursor of its last row. */
  predicate FetchLaw<T(==), C(==)>(q: Rule<T>, src: Source<T, C>, table: seq<T>, after: Option<T>) {
    src.valid(table) && (after.Some? ==> q.ok(after.value)) ==>
      var page := src.fetch(table, CursorAfter(src, after));
      && AllOk(q, table) && PageSpec(q, table, after, Shape(page))
      && (page.next.Some? ==> page.results != [] && page.next.value == src.cursorOf(LastRow(Shape(page))))
  }

  ghost predicate Faithful<T(!new), C(!new)>(q: Rule<T>, src: Source<T, C>) {
    Lawful(q) && forall table, after :: FetchLaw(q, src, table, after)
  }

  /** The first `perPage` rows of a listing, with the cursor of the last of them if more follow. */
  function Cut<T, C>(cursorOf: T -> C, listing: seq<T>, perPage: nat): Fetched<T, C>
    requires perPage >= 1
  {
    if |listing| <= perPage then Fetched(listing, None)
    else Fetched(listing[..perPage], Some(cursorOf(listing[perPage - 1])))
  }

  /** Cutting the listing of the rows after a cursor gives the page the rule calls for. */
  lemma CutSound<T(!new), C>(
      q: Rule<T>, cursorOf: T -> C, table: seq<T>, after: Option<T>, listing: seq<T>)
    requires Lawful(q) && AllOk(q, table) && StrictlySorted(q, listing)
    requires forall r :: r in listing <==> r in table && FollowsCursor(q, after, r)
    ensures
      var page := Cut(cursorOf, listing, q.perPage);
      && PageSpec(q, table, after, Shape(page))
      && (page.next.Some? ==> page.results != [] && page.next.value == cursorOf(LastRow(Shape(page))))
  {
    var page := Shape(Cut(cursorOf, listing, q.perPage));
    forall r | r in listing ensures r in page.rows || (page.more && q.before(LastRow(page), r)) {
      var i :| 0 <= i < |listing| && listing[i] == r;
      if i < |page.rows| { assert page.rows[i] == r; }
    }
    if page.more { LeftOut(q, page.rows, listing); }
  }

  /** The cursor page `k` of a walk is fetched with. */
  function CursorAt<T, C>(pages: seq<Fetched<T, C>>, k: nat): Option<C>
    requires k <= |pages|
  {
    if k == 0 then None else pages[k - 1].next
  }

  predicate FetchedAt<T(==), C(==)>(
      src: Source<T, C>, tables: seq<seq<T>>, pages: seq<Fetched<T, C>>, k: nat)
    requires k < |pages| == |tables|
  {
    && src.valid(tables[k])
    && pages[k] == src.fetch(tables[k], CursorAt(pages, k))
    && (k + 1 < |pages| ==> pages[k].next.Some?)
  }

  /** Following the next cursor from the start; page `k` is fetched from `tables[k]`, whatever other
      writers made of the table by then. */
  predicate Follow<T(==), C(==)>(src: Source<T, C>, tables: seq<seq<T>>, pages: seq<Fetched<T, C>>) {
    |tables| == |pages| && forall k | 0 <= k < |pages| :: FetchedAt(src, tables, pages, k)
  }

  predicate Ended<T, C>(pages: seq<Fetched<T, C>>) {
    |pages| > 0 && pages[|pages| - 1].next.None?
  }

  /** Everything the fetches returned, page after page. */
  function AllResults<T, C>(pages: seq<Fetched<T, C>>): seq<T> {
    Returned(Shapes(pages))
  }

  lemma {:induction false} FetchLinks<T(!new), C(!new)>(
      q: Rule<T>, src: Source<T, C>, tables: seq<seq<T>>, pages: seq<Fetched<T, C>>, k: nat)
    requires Faithful(q, src) && Follow(src, tables, pages) && k < |pages|
    ensures LinkAt(q, tables, Shapes(pages), k)
    ensures pages[k].next.Some? ==>
              pages[k].results != [] && q.ok(LastRow(Shape(pages[k])))
              && pages[k].next.value == src.cursorOf(LastRow(Shape(pages[k])))
  {
    assert FetchedAt(src, tables, pages, k);
    if k > 0 {
      FetchLinks(q, src, tables, pages, k - 1);
      assert FetchedAt(src, tables, pages, k - 1);
    }
    assert FetchLaw(q, src, tables[k], AfterAt(Shapes(pages), k));
    if pages[k].next.Some? {
      assert LastRow(Shape(pages[k])) in Shape(pages[k]).rows;
    }
  }

  /** Cursor-following is a walk. */
  lemma FollowIsWalk<T(!new), C(!new)>(
      q: Rule<T>, src: Source<T, C>, tables: seq<seq<T>>, pages: seq<Fetched<T, C>>)
    requires Faithful(q, src) && Follow(src, tables, pages)
    ensures IsWalk(q, tables, Shapes(pages))
  {
    forall k | 0 <= k < |pages| ensures LinkAt(q, tables, Shapes(pages), k) {
      FetchLinks(q, src, tables, pages, k);
    }
  }

  /** Cursor-following over a still table: whole table iff nothing is hidden at a page boundary, and
      the number of fetches. */
  lemma StillFetches<T(!new), C(!new)>(
      q: Rule<T>, src: Source<T, C>, table: seq<T>, s: seq<T>,
      tables: seq<seq<T>>, pages: seq<Fetched<T, C>>)
    requires Faithful(q, src) && Follow(src, tables, pages) && Ended(pages) && Still(tables, table)
    requires Lists(q, s, table)
    ensures AllResults(pages) == s <==> NoHiddenBoundary(q, s)
    ensures |pages| == 1 || Start(|pages| - 1, q.perPage) < |s|
    ensures AllResults(pages) == s ==> |s| <= Start(|pages|, q.perPage)
  {
    FollowIsWalk(q, src, tables, pages);
    StillWalk(q, table, tables, Shapes(pages), s);
    StillWalkLength(q, table, tables, Shapes(pages), s);
  }

  /** Following the cursors over a still table always comes to an end. */
  lemma {:induction false} FollowEnds<T(!new), C(!new)>(
      q: Rule<T>, src: Source<T, C>, table: seq<T>, s: seq<T>,
      tables: seq<seq<T>>, pages: seq<Fetched<T, C>>)
    returns (more: seq<seq<T>>, ended: seq<Fetched<T, C>>)
    requires Faithful(q, src) && Follow(src, tables, pages) && Still(tables, table)
    requires src.valid(table) && Lists(q, s, table)
    ensures Follow(src, more, ended) && Still(more, table) && Ended(ended) && pages <= ended
    decreases |s| + 2 - |pages|
  {
    if Ended(pages) {
      more, ended := tables, pages;
    } else {
      if pages != [] {
        FollowIsWalk(q, src, tables, pages);
        StillWalkLength(q, table, tables, Shapes(pages), s);
        StartAtLeast(|pages| - 1, q.perPage);
      }
      var page := src.fetch(table, CursorAt(pages, |pages|));
      var tables', pages' := tables + [table], pages + [page];
      forall k | 0 <= k < |pages'| ensures FetchedAt(src, tables', pages', k) {
        assert CursorAt(pages', k) == CursorAt(pages, k);
        if k < |pages| { assert FetchedAt(src, tables, pages, k); }
      }
      more, ended := FollowEnds(q, src, table, s, tables', pages');
    }
  }
}
