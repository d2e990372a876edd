/** `UpdateChatContentAccessJob`: a chain of jobs that updates the access of every content row of a chat, and
    what becomes of it when rows come and go between the jobs. */
module AccessUpdates {
  import opened Options
  import opened Sequences

  const CHAT_CONTENT_ACCESS_BATCH_SIZE := 200

  datatype Content = Content(id: nat, allowedUsers: set<nat>)
  datatype AccessAction = Add | Remove

  /** `add_user` or `remove_user` */
  function Changed(action: AccessAction, user: nat, c: Content): Content {
    c.(allowedUsers := if action.Add? then c.allowedUsers + {user} else c.allowedUsers - {user})
  }

  class Contents {
    /** The rows of the chat, ordered by id. */
    var rows: seq<Content>

    constructor (rows: seq<Content>)
      ensures this.rows == rows
    {
      this.rows := rows;
    }

    /** `perform`, and the offset of the job that continues the chain. */
    method Perform(action: AccessAction, user: nat, processed: nat) returns (next: Option<nat>)
      modifies this
      ensures |rows| == |old(rows)|
      ensures forall i | 0 <= i < |rows| ::
        rows[i] == if processed <= i < processed + CHAT_CONTENT_ACCESS_BATCH_SIZE
                   then Changed(action, user, old(rows)[i]) else old(rows)[i]
      ensures next == if processed + CHAT_CONTENT_ACCESS_BATCH_SIZE <= |rows|
                      then Some(processed + CHAT_CONTENT_ACCESS_BATCH_SIZE) else None
    {
      var n := 0;
      while n < CHAT_CONTENT_ACCESS_BATCH_SIZE && processed + n < |rows|
        invariant n <= CHAT_CONTENT_ACCESS_BATCH_SIZE && |rows| == |old(rows)|
        invariant n == 0 || processed + n <= |rows|
        invariant forall i | 0 <= i < |rows| ::
          rows[i] == if processed <= i < processed + n
                     then Changed(action, user, old(rows)[i]) else old(rows)[i]
      {
        rows := rows[processed + n := Changed(action, user, rows[processed + n])];
        n := n + 1;
      }
      next := if n == CHAT_CONTENT_ACCESS_BATCH_SIZE then Some(processed + n) else None;
    }

    /** The chain on a table that stays as it is: every row is updated, once. */
    method RunChain(action: AccessAction, user: nat) returns (jobs: nat)
      modifies this
      ensures |rows| == |old(rows)|
      ensures forall i | 0 <= i < |rows| ::
        rows[i].id == old(rows)[i].id
        && rows[i].allowedUsers
           == match action case Add => old(rows)[i].allowedUsers + {user} case Remove => old(rows)[i].allowedUsers - {user}
      ensures jobs == |rows| / CHAT_CONTENT_ACCESS_BATCH_SIZE + 1
    {
      var next: Option<nat> := Some(0);
      jobs := 0;
      while next.Some?
        invariant |rows| == |old(rows)|
        invariant next.Some? ==> next.value == jobs * CHAT_CONTENT_ACCESS_BATCH_SIZE <= |rows|
        invariant next.Some? ==> forall i | 0 <= i < |rows| ::
          rows[i] == if i < next.value then Changed(action, user, old(rows)[i]) else old(rows)[i]
        invariant next.None? ==>
          (forall i | 0 <= i < |rows| :: rows[i] == Changed(action, user, old(rows)[i]))
          && jobs == |rows| / CHAT_CONTENT_ACCESS_BATCH_SIZE + 1
        decreases if next.Some? then |rows| - next.value + 1 else 0
      {
        next := Perform(action, user, next.value);
        jobs := jobs + 1;
      }
    }
  }

  // ------------------------------------------------------------------ tables that change

  /** Each table is ordered by id, as the job's query asks for. */
  predicate Ordered(tables: seq<seq<nat>>) {
    forall i | 0 <= i < |tables| :: Increasing(tables[i])
  }

  /** The table as each job of the chain finds it: rows are only added. */
  predicate Growing(tables: seq<seq<nat>>) {
    Ordered(tables) && forall i | 0 <= i < |tables| - 1 :: Kept(tables[i], tables[i + 1])
  }

  /** Rows are only deleted. */
  predicate Shrinking(tables: seq<seq<nat>>) {
    Ordered(tables) && forall i | 0 <= i < |tables| - 1 :: Kept(tables[i + 1], tables[i])
  }

  predicate Kept(before: seq<nat>, after: seq<nat>) {
    forall id | id in before :: id in after
  }

  /** Every job but the last found a full batch. */
  predicate Chain(tables: seq<seq<nat>>) {
    tables != []
    && (forall i | 0 <= i < |tables| - 1 :: (i + 1) * CHAT_CONTENT_ACCESS_BATCH_SIZE <= |tables[i]|)
    && |tables[|tables| - 1]| < |tables| * CHAT_CONTENT_ACCESS_BATCH_SIZE
  }

  /** Where the row is in an ordered table. */
  function Position(table: seq<nat>, id: nat): (p: nat)
    requires id in table
    ensures p < |table| && table[p] == id
  {
    if table[0] == id then 0 else 1 + Position(table[1..], id)
  }

  /** The i-th job updates the row. */
  predicate Handles(tables: seq<seq<nat>>, i: nat, id: nat) {
    i < |tables|
    && exists p | 0 <= p < |tables[i]| ::
         tables[i][p] == id
         && i * CHAT_CONTENT_ACCESS_BATCH_SIZE <= p < (i + 1) * CHAT_CONTENT_ACCESS_BATCH_SIZE
  }

  predicate Handled(tables: seq<seq<nat>>, id: nat) {
    exists i | 0 <= i < |tables| :: Handles(tables, i, id)
  }

  predicate Stays(tables: seq<seq<nat>>, id: nat) {
    forall i | 0 <= i < |tables| :: id in tables[i]
  }

  /** After job i, which ended before the row, the row moves in front of where the next job starts. */
  predicate Slips(tables: seq<seq<nat>>, i: nat, id: nat)
    requires Stays(tables, id) && i < |tables| - 1
  {
    Position(tables[i + 1], id) < (i + 1) * CHAT_CONTENT_ACCESS_BATCH_SIZE <= Position(tables[i], id)
  }

  predicate NeverSlips(tables: seq<seq<nat>>, id: nat)
    requires Stays(tables, id)
  {
    forall i: nat | i < |tables| - 1 :: !Slips(tables, i, id)
  }

  /** In an ordered table a row is at one place only. */
  lemma HandlesAt(tables: seq<seq<nat>>, i: nat, id: nat)
    requires Ordered(tables) && i < |tables| && id in tables[i]
    ensures Handles(tables, i, id)
       <==> i * CHAT_CONTENT_ACCESS_BATCH_SIZE <= Position(tables[i], id) < (i + 1) * CHAT_CONTENT_ACCESS_BATCH_SIZE
  {
    var p := Position(tables[i], id);
    forall q | 0 <= q < |tables[i]| && tables[i][q] == id ensures q == p {
      assert Increasing(tables[i]);
    }
  }

  /** A row never moves towards the front of a table that grows. */
  lemma {:induction false} NoEarlier(a: seq<nat>, b: seq<nat>, i: nat, j: nat)
    requires Increasing(a) && Increasing(b) && forall id | id in a :: id in b
    requires i < |a| && j < |b| && a[i] == b[j]
    ensures i <= j
  {
    if i > 0 {
      assert a[i - 1] in b;
      var k :| 0 <= k < |b| && b[k] == a[i - 1];
      NoEarlier(a, b, i - 1, k);
      assert k < j;
    }
  }

  lemma {:induction false} HandledFrom(tables: seq<seq<nat>>, id: nat, i: nat)
    requires Ordered(tables) && Chain(tables) && Stays(tables, id) && NeverSlips(tables, id)
    requires i < |tables| && i * CHAT_CONTENT_ACCESS_BATCH_SIZE <= Position(tables[i], id)
    ensures Handled(tables, id)
    decreases |tables| - i
  {
    HandlesAt(tables, i, id);
    if Position(tables[i], id) >= (i + 1) * CHAT_CONTENT_ACCESS_BATCH_SIZE {
      assert |tables[|tables| - 1]| < |tables| * CHAT_CONTENT_ACCESS_BATCH_SIZE;
      assert !Slips(tables, i, id);
      HandledFrom(tables, id, i + 1);
    }
  }

  /** However rows come and go between the jobs, a row that stays is updated unless it slips in front of the
      next offset between two jobs. */
  lemma NeverSlipsHandled(tables: seq<seq<nat>>, id: nat)
    requires Ordered(tables) && Chain(tables) && Stays(tables, id) && NeverSlips(tables, id)
    ensures Handled(tables, id)
  {
    HandledFrom(tables, id, 0);
  }

  lemma {:induction false} GrowingStays(tables: seq<seq<nat>>, id: nat, i: nat)
    requires Growing(tables) && i < |tables| && id in tables[0]
    ensures id in tables[i]
  {
    if i > 0 {
      GrowingStays(tables, id, i - 1);
      assert Kept(tables[i - 1], tables[i - 1 + 1]);
    }
  }

  /** However rows are added between the jobs, every row that was there at first is updated. */
  lemma GrowingHandled(tables: seq<seq<nat>>, id: nat)
    requires Growing(tables) && Chain(tables) && id in tables[0]
    ensures Handled(tables, id)
  {
    forall i | 0 <= i < |tables| ensures id in tables[i] { GrowingStays(tables, id, i); }
    forall i: nat | i < |tables| - 1 ensures !Slips(tables, i, id) {
      assert Kept(tables[i], tables[i + 1]);
      NoEarlier(tables[i], tables[i + 1], Position(tables[i], id), Position(tables[i + 1], id));
    }
    NeverSlipsHandled(tables, id);
  }

  /** While rows are only deleted, a row that stays never moves back. */
  lemma {:induction false} ShrinkingForward(tables: seq<seq<nat>>, id: nat, i: nat, j: nat)
    requires Shrinking(tables) && Stays(tables, id) && i <= j < |tables|
    ensures Position(tables[j], id) <= Position(tables[i], id)
    decreases j - i
  {
    if i < j {
      ShrinkingForward(tables, id, i, j - 1);
      assert Kept(tables[j - 1 + 1], tables[j - 1]);
      NoEarlier(tables[j], tables[j - 1], Position(tables[j], id), Position(tables[j - 1], id));
    }
  }

  /** While rows are only deleted, a row that stays is updated exactly if it never slips. */
  lemma ShrinkingHandledIff(tables: seq<seq<nat>>, id: nat)
    requires Shrinking(tables) && Chain(tables) && Stays(tables, id)
    ensures Handled(tables, id) <==> NeverSlips(tables, id)
  {
    if NeverSlips(tables, id) {
      NeverSlipsHandled(tables, id);
    } else {
      var k: nat :| k < |tables| - 1 && Slips(tables, k, id);
      forall i | 0 <= i < |tables| ensures !Handles(tables, i, id) {
        HandlesAt(tables, i, id);
        if i <= k { ShrinkingForward(tables, id, i, k); } else { ShrinkingForward(tables, id, k + 1, i); }
      }
    }
  }

  /** A row deleted from the first batch before the second job makes the chain miss a row. */
  lemma DeletionMisses(table: seq<nat>, q: nat)
    requires Increasing(table) && q < CHAT_CONTENT_ACCESS_BATCH_SIZE < |table|
    ensures
      var after := table[..q] + table[q + 1..];
      var id := table[CHAT_CONTENT_ACCESS_BATCH_SIZE];
      id in after && !Handles([table, after], 0, id) && !Handles([table, after], 1, id)
  {
    var n := CHAT_CONTENT_ACCESS_BATCH_SIZE;
    var after := table[..q] + table[q + 1..];
    assert after[n - 1] == table[n];
    forall p | n <= p < |after| ensures after[p] != table[n] { assert after[p] == table[p + 1]; }
  }
}
