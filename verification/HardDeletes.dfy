/** `HardDeleteUserJob._delete_user_workspaces`: the workspaces of a user deleted in batches. */
module HardDeletes {
  datatype Workspace = Workspace(id: nat, creator: nat)

  /** The rows of a user, or of all others. */
  function Of(rows: seq<Workspace>, creator: nat, mine: bool): seq<Workspace> {
    if rows == [] then []
    else
      var rest := Of(rows[1..], creator, mine);
      if (rows[0].creator == creator) == mine then [rows[0]] + rest else rest
  }

  /** The rows that stay when those ids are deleted. */
  function Without(rows: seq<Workspace>, ids: set<nat>): (r: seq<Workspace>)
    ensures |r| <= |rows|
  {
    if rows == [] then []
    else
      var rest := Without(rows[1..], ids);
      if rows[0].id in ids then rest else [rows[0]] + rest
  }

  function Ids(rows: seq<Workspace>): set<nat> {
    set w | w in rows :: w.id
  }

  predicate UniqueIds(rows: seq<Workspace>) {
    forall i, j | 0 <= i < j < |rows| :: rows[i].id != rows[j].id
  }

  lemma {:induction false} OfMember(rows: seq<Workspace>, creator: nat, mine: bool, w: Workspace)
    ensures w in Of(rows, creator, mine) <==> w in rows && (w.creator == creator) == mine
  {
    if rows != [] {
      OfMember(rows[1..], creator, mine, w);
      assert w in rows <==> w == rows[0] || w in rows[1..];
    }
  }

  lemma {:induction false} WithoutMember(rows: seq<Workspace>, ids: set<nat>, w: Workspace)
    ensures w in Without(rows, ids) <==> w in rows && w.id !in ids
  {
    if rows != [] {
      WithoutMember(rows[1..], ids, w);
      assert w in rows <==> w == rows[0] || w in rows[1..];
    }
  }

  lemma {:induction false} OfUnique(rows: seq<Workspace>, creator: nat, mine: bool)
    requires UniqueIds(rows)
    ensures UniqueIds(Of(rows, creator, mine))
  {
    if rows != [] {
      OfUnique(rows[1..], creator, mine);
      FirstUnique(rows, Of(rows[1..], creator, mine));
      forall w | w in Of(rows[1..], creator, mine) ensures w in rows[1..] {
        OfMember(rows[1..], creator, mine, w);
      }
    }
  }

  lemma {:induction false} WithoutUnique(rows: seq<Workspace>, ids: set<nat>)
    requires UniqueIds(rows)
    ensures UniqueIds(Without(rows, ids))
  {
    if rows != [] {
      WithoutUnique(rows[1..], ids);
      FirstUnique(rows, Without(rows[1..], ids));
      forall w | w in Without(rows[1..], ids) ensures w in rows[1..] { WithoutMember(rows[1..], ids, w); }
    }
  }

  lemma FirstUnique(rows: seq<Workspace>, rest: seq<Workspace>)
    requires rows != [] && UniqueIds(rows) && UniqueIds(rest)
    ensures (forall w | w in rest :: w in rows[1..]) ==> UniqueIds([rows[0]] + rest)
  {
    if forall w | w in rest :: w in rows[1..] {
      forall k | 0 <= k < |rest| ensures rest[k].id != rows[0].id {
        assert rest[k] in rows[1..];
        var i :| 0 <= i < |rows[1..]| && rows[1..][i] == rest[k];
        assert rows[i + 1] == rest[k];
      }
    }
  }

  lemma {:induction false} OfWithout(rows: seq<Workspace>, creator: nat, mine: bool, ids: set<nat>)
    ensures Of(Without(rows, ids), creator, mine) == Without(Of(rows, creator, mine), ids)
  {
    if rows != [] { OfWithout(rows[1..], creator, mine, ids); }
  }

  lemma {:induction false} WithoutNone(rows: seq<Workspace>, ids: set<nat>)
    requires forall i | 0 <= i < |rows| :: rows[i].id !in ids
    ensures Without(rows, ids) == rows
  {
    if rows != [] { WithoutNone(rows[1..], ids); }
  }

  lemma {:induction false} WithoutFront(rows: seq<Workspace>, k: nat, ids: set<nat>)
    requires k <= |rows| && forall i | 0 <= i < |rows| :: rows[i].id in ids <==> i < k
    ensures Without(rows, ids) == rows[k..]
  {
    if k == 0 {
      WithoutNone(rows, ids);
    } else {
      WithoutFront(rows[1..], k - 1, ids);
      assert rows[1..][k - 1..] == rows[k..];
    }
  }

  /** Deleting the front of a list leaves its rest. */
  lemma WithoutPrefix(rows: seq<Workspace>, k: nat)
    requires UniqueIds(rows) && k <= |rows|
    ensures Without(rows, Ids(rows[..k])) == rows[k..]
  {
    var front := rows[..k];
    forall i | 0 <= i < |rows| ensures rows[i].id in Ids(front) <==> i < k {
      if i < k { assert rows[i] in front; }
      if rows[i].id in Ids(front) {
        var w :| w in front && w.id == rows[i].id;
        var j :| 0 <= j < k && rows[j] == w;
        assert i == j;
      }
    }
    WithoutFront(rows, k, Ids(front));
  }

  /** Deleting the first rows of a user takes them from the front of the user's rows, and no row of another. */
  lemma BatchDeleted(rows: seq<Workspace>, creator: nat, k: nat)
    requires UniqueIds(rows) && k <= |Of(rows, creator, true)|
    ensures
      var mine := Of(rows, creator, true);
      var left := Without(rows, Ids(mine[..k]));
      UniqueIds(left) && Of(left, creator, true) == mine[k..]
      && Of(left, creator, false) == Of(rows, creator, false)
  {
    var mine, others := Of(rows, creator, true), Of(rows, creator, false);
    var ids := Ids(mine[..k]);
    OfUnique(rows, creator, true);
    WithoutPrefix(mine, k);
    OfWithout(rows, creator, true, ids);
    OfWithout(rows, creator, false, ids);
    WithoutUnique(rows, ids);
    forall i | 0 <= i < |others| ensures others[i].id !in ids {
      var w := others[i];
      OfMember(rows, creator, false, w);
      if w.id in ids {
        var v :| v in mine[..k] && v.id == w.id;
        OfMember(rows, creator, true, v);
        SameId(rows, v, w);
      }
    }
    WithoutNone(others, ids);
  }

  lemma SameId(rows: seq<Workspace>, v: Workspace, w: Workspace)
    requires UniqueIds(rows) && v in rows && w in rows && v.id == w.id
    ensures v == w
  {
    var i :| 0 <= i < |rows| && rows[i] == v;
    var j :| 0 <= j < |rows| && rows[j] == w;
    assert i == j;
  }

  lemma {:induction false} NoneLeft(rows: seq<Workspace>, creator: nat)
    requires Of(rows, creator, true) == []
    ensures Of(rows, creator, false) == rows
  {
    if rows != [] { NoneLeft(rows[1..], creator); }
  }

  class Table {
    var rows: seq<Workspace>

    constructor (rows: seq<Workspace>)
      ensures this.rows == rows
    {
      this.rows := rows;
    }

    /** The loop of one workspace type: the query starts at the front each time, and a batch size of zero
        finds nothing. */
    method DeleteOf(creator: nat, batchSize: nat) returns (total: nat)
      requires UniqueIds(rows)
      modifies this
      ensures if batchSize == 0 then rows == old(rows) && total == 0
              else rows == Of(old(rows), creator, false) && total == |Of(old(rows), creator, true)|
      ensures batchSize > 0 ==> forall w :: w in rows <==> w in old(rows) && w.creator != creator
    {
      total := 0;
      while true
        invariant UniqueIds(rows) && Of(rows, creator, false) == Of(old(rows), creator, false)
        invariant total <= |Of(old(rows), creator, true)| && (batchSize == 0 ==> rows == old(rows) && total == 0)
        invariant Of(rows, creator, true) == Of(old(rows), creator, true)[total..]
        decreases |Of(rows, creator, true)|
      {
        var mine := Of(rows, creator, true);
        var k := if batchSize < |mine| then batchSize else |mine|;
        var workspaces := mine[..k];
        if workspaces == [] { break; }
        BatchDeleted(rows, creator, k);
        rows := Without(rows, Ids(workspaces));
        total := total + |workspaces|;
      }
      if batchSize > 0 {
        NoneLeft(rows, creator);
        forall w ensures w in rows <==> w in old(rows) && w.creator != creator {
          OfMember(old(rows), creator, false, w);
        }
      }
    }
  }
}
