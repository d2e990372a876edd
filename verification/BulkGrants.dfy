/** `BulkGrantCollaboratorAccessJob`: a chain of jobs that grants a user access to every private resource of
    another, one batch at a time. */
module BulkGrants {
  import opened Options
  import opened Sequences

  type Resource = nat

  datatype User = User(id: nat, organization: nat)

  /** The running counters, and who has access already. */
  datatype Tally = Tally(granted: set<Resource>, added: nat, skipped: nat, failed: nat)

  /** The job with its pagination state; the users are looked up once per job. */
  datatype GrantJob = GrantJob(
    batchSize: nat, modelIndex: nat, offset: nat, added: nat, skipped: nat, failed: nat, processed: nat)

  /** One resource: it fails, or the target has access already, or is added. */
  function Granted(fails: Resource -> bool, t: Tally, r: Resource): Tally {
    if fails(r) then t.(failed := t.failed + 1)
    else if r in t.granted then t.(skipped := t.skipped + 1)
    else t.(granted := t.granted + {r}, added := t.added + 1)
  }

  /** One bulk pass over the resources. */
  function GrantedAll(fails: Resource -> bool, t: Tally, rs: seq<Resource>): Tally {
    if rs == [] then t else Granted(fails, GrantedAll(fails, t, rs[..|rs| - 1]), rs[|rs| - 1])
  }

  lemma GrantedSnoc(fails: Resource -> bool, t: Tally, rs: seq<Resource>, r: Resource)
    ensures GrantedAll(fails, t, rs + [r]) == Granted(fails, GrantedAll(fails, t, rs), r)
  {
    assert (rs + [r])[..|rs|] == rs;
  }

  /** The counters account for every resource, and exactly those that did not fail have access. */
  lemma {:induction false} PassAccounts(fails: Resource -> bool, t: Tally, rs: seq<Resource>)
    ensures
      var u := GrantedAll(fails, t, rs);
      && u.added + u.skipped + u.failed == t.added + t.skipped + t.failed + |rs|
      && (forall r :: r in u.granted <==> r in t.granted || (r in rs && !fails(r)))
      && t.added <= u.added
  {
    if rs != [] {
      PassAccounts(fails, t, rs[..|rs| - 1]);
      assert forall r :: r in rs <==> r in rs[..|rs| - 1] || r == rs[|rs| - 1];
    }
  }

  /** How many of the resources fail. */
  function Failing(fails: Resource -> bool, rs: seq<Resource>): nat {
    if rs == [] then 0 else Failing(fails, rs[..|rs| - 1]) + if fails(rs[|rs| - 1]) then 1 else 0
  }

  /** Each counter: the failed ones, those that gained access, and the rest. */
  lemma {:induction false} PassCounts(fails: Resource -> bool, t: Tally, rs: seq<Resource>)
    ensures
      var u := GrantedAll(fails, t, rs);
      && u.failed == t.failed + Failing(fails, rs) && t.granted <= u.granted
      && u.added == t.added + |u.granted| - |t.granted|
      && u.skipped == t.skipped + |rs| - Failing(fails, rs) - (|u.granted| - |t.granted|)
  {
    if rs != [] { PassCounts(fails, t, rs[..|rs| - 1]); }
  }

  /** A second pass adds nothing. */
  lemma {:induction false} PassIdempotent(fails: Resource -> bool, t: Tally, rs: seq<Resource>)
    requires forall r | r in rs :: fails(r) || r in t.granted
    ensures var u := GrantedAll(fails, t, rs); u.granted == t.granted && u.added == t.added
  {
    if rs != [] {
      assert rs[|rs| - 1] in rs;
      PassIdempotent(fails, t, rs[..|rs| - 1]);
    }
  }

  /** How many jobs the chain takes for the tables: every batch, one that finds nothing, and a last one. */
  function JobsFor(models: seq<seq<Resource>>, batch: nat): nat
    requires batch >= 1
  {
    if models == [] then 1
    else JobsFor(models[..|models| - 1], batch) + (|models[|models| - 1]| + batch - 1) / batch + 1
  }

  class Grants {
    const source: Option<User>
    const target: Option<User>
    const models: seq<seq<Resource>>
    const fails: Resource -> bool
    var granted: set<Resource>
    /** The resources in the order they were tried. */
    var tried: seq<Resource>

    constructor (
        source: Option<User>, target: Option<User>, models: seq<seq<Resource>>, fails: Resource -> bool,
        granted: set<Resource>)
      ensures this.source == source && this.target == target && this.models == models && this.fails == fails
      ensures this.granted == granted && tried == []
    {
      this.source, this.target, this.models, this.fails := source, target, models, fails;
      this.granted, tried := granted, [];
    }

    /** Both users are there, of one organization, and not the same. */
    predicate Allowed() {
      source.Some? && target.Some? && source.value.id != target.value.id
      && source.value.organization == target.value.organization
    }

    /** `_grant_one`; failing is an exception. */
    method GrantOne(r: Resource) returns (wasAdded: Option<bool>)
      modifies this
      ensures tried == old(tried) + [r]
      ensures wasAdded == if fails(r) then None else Some(r !in old(granted))
      ensures granted == if fails(r) then old(granted) else old(granted) + {r}
    {
      tried := tried + [r];
      if fails(r) { return None; }
      wasAdded := Some(r !in granted);
      granted := granted + {r};
    }

    /** The loop over one batch. */
    method GrantBatch(rs: seq<Resource>) returns (added: nat, skipped: nat, failed: nat)
      modifies this
      ensures tried == old(tried) + rs
      ensures Tally(granted, added, skipped, failed) == GrantedAll(fails, Tally(old(granted), 0, 0, 0), rs)
    {
      added, skipped, failed := 0, 0, 0;
      ghost var start := Tally(granted, 0, 0, 0);
      for i := 0 to |rs|
        invariant tried == old(tried) + rs[..i]
        invariant Tally(granted, added, skipped, failed) == GrantedAll(fails, start, rs[..i])
      {
        assert rs[..i + 1] == rs[..i] + [rs[i]];
        GrantedSnoc(fails, start, rs[..i], rs[i]);
        var wasAdded := GrantOne(rs[i]);
        match wasAdded
        case Some(true) => added := added + 1;
        case Some(false) => skipped := skipped + 1;
        case None => failed := failed + 1;
      }
      assert rs[..|rs|] == rs;
    }

    /** The resources the job's query gives. */
    function Batch(job: GrantJob): seq<Resource>
      requires job.modelIndex < |models|
    {
      var rows := models[job.modelIndex];
      var lo := if job.offset < |rows| then job.offset else |rows|;
      var hi := if lo + job.batchSize < |rows| then lo + job.batchSize else |rows|;
      rows[lo..hi]
    }

    /** `perform`: the job that continues the chain, if any. */
    method Perform(job: GrantJob) returns (next: Option<GrantJob>)
      modifies this
      ensures !Allowed() || job.modelIndex >= |models| ==>
        next == None && tried == old(tried) && granted == old(granted)
      ensures Allowed() && job.modelIndex < |models| ==>
        var batch := Batch(job);
        tried == old(tried) + batch
        && if batch == [] then
             granted == old(granted) && next == Some(job.(modelIndex := job.modelIndex + 1, offset := 0))
           else
             var t := GrantedAll(fails, Tally(old(granted), 0, 0, 0), batch);
             granted == t.granted
             && next == Some(job.(offset := job.offset + job.batchSize, added := job.added + t.added,
                                  skipped := job.skipped + t.skipped, failed := job.failed + t.failed,
                                  processed := job.processed + |batch|))
    {
      if source.None? || target.None? { return None; }
      if source.value.id == target.value.id { return None; }
      if source.value.organization != target.value.organization { return None; }
      if job.modelIndex >= |models| { return None; }
      var resources := Batch(job);
      if resources == [] {
        return Some(job.(modelIndex := job.modelIndex + 1, offset := 0));
      }
      var added, skipped, failed := GrantBatch(resources);
      next := Some(job.(offset := job.offset + job.batchSize, added := job.added + added,
                        skipped := job.skipped + skipped, failed := job.failed + failed,
                        processed := job.processed + |resources|));
    }

    /** The resources tried before the job. */
    ghost function Before(job: GrantJob): seq<Resource>
      requires job.modelIndex <= |models|
    {
      if job.modelIndex == |models| then Concat(models)
      else
        var rows := models[job.modelIndex];
        Concat(models[..job.modelIndex]) + rows[..if job.offset < |rows| then job.offset else |rows|]
    }

    /** The k-th batch of a table comes next, and the one before it was not past the end. */
    ghost predicate AtBatch(job: GrantJob, k: nat) {
      job.batchSize >= 1 && job.offset == k * job.batchSize && job.modelIndex <= |models|
      && (k > 0 ==> job.modelIndex < |models| && (k - 1) * job.batchSize < |models[job.modelIndex]|)
    }

    /** What one job does to the resources tried and to its place in the tables. */
    lemma BatchMoves(job: GrantJob, next: GrantJob, k: nat)
      requires AtBatch(job, k) && job.modelIndex < |models|
      requires var batch := Batch(job);
        next.batchSize == job.batchSize
        && if batch == [] then next.modelIndex == job.modelIndex + 1 && next.offset == 0
           else next.modelIndex == job.modelIndex && next.offset == job.offset + job.batchSize
      ensures next.modelIndex <= |models| && Before(next) == Before(job) + Batch(job)
      ensures AtBatch(next, if Batch(job) == [] then 0 else k + 1)
      ensures Batch(job) == [] ==> k == (|models[job.modelIndex]| + job.batchSize - 1) / job.batchSize
    {
      var i, rows, batch := job.modelIndex, models[job.modelIndex], Batch(job);
      if batch == [] {
        Ceiling(|rows|, job.batchSize, k);
        assert models[..i + 1] == models[..i] + [rows] && models[..|models|] == models;
        ConcatSnoc(models[..i], rows);
        assert rows[..|rows|] == rows;
        if next.modelIndex < |models| { assert models[next.modelIndex][..0] == []; }
      } else {
        assert (k + 1) * job.batchSize == k * job.batchSize + job.batchSize;
        var lo, hi := job.offset, if next.offset < |rows| then next.offset else |rows|;
        assert rows[..lo] + rows[lo..hi] == rows[..hi];
      }
    }

    /** How many resources of the table are left. */
    function Left(job: GrantJob): nat {
      if job.modelIndex < |models| && job.offset < |models[job.modelIndex]| then
        |models[job.modelIndex]| - job.offset
      else 0
    }

    /** The chain is about to run a job: `jobs` were run, and the pass is done up to it. */
    ghost predicate Reached(job: GrantJob, k: nat, jobs: nat, start: Tally)
      reads this
    {
      && AtBatch(job, k) && tried == Before(job) && job.processed == |tried|
      && Tally(granted, job.added, job.skipped, job.failed) == GrantedAll(fails, start, tried)
      && jobs == JobsFor(models[..job.modelIndex], job.batchSize) - 1 + k
    }

    /** One job of the chain. */
    method Advance(job: GrantJob, ghost k: nat, ghost jobs: nat, ghost start: Tally)
      returns (next: Option<GrantJob>, ghost k': nat)
      requires Allowed() && Reached(job, k, jobs, start)
      modifies this
      ensures next.None? ==>
        job.modelIndex == |models| && k == 0 && tried == old(tried) && granted == old(granted)
      ensures next.Some? ==>
        Reached(next.value, k', jobs + 1, start) && next.value.batchSize == job.batchSize
        && (next.value.modelIndex > job.modelIndex
            || (next.value.modelIndex == job.modelIndex && Left(next.value) < Left(job)))
    {
      next := Perform(job);
      k' := 0;
      if next.Some? {
        BatchMoves(job, next.value, k);
        PassContinues(fails, start, Before(job), Batch(job));
        if Batch(job) == [] {
          assert models[..job.modelIndex + 1][..job.modelIndex] == models[..job.modelIndex];
        } else {
          k' := k + 1;
        }
      }
    }

    /** The chain with a batch size of zero goes through the tables and tries nothing. */
    method RunEmptyChain() returns (last: GrantJob, jobs: nat)
      requires Allowed() && tried == []
      modifies this
      ensures tried == [] && granted == old(granted) && jobs == |models| + 1
      ensures last == GrantJob(0, |models|, 0, 0, 0, 0, 0)
    {
      last, jobs := GrantJob(0, 0, 0, 0, 0, 0, 0), 0;
      while true
        invariant tried == [] && granted == old(granted) && last.modelIndex == jobs <= |models|
        invariant last == GrantJob(0, jobs, 0, 0, 0, 0, 0)
        decreases |models| - jobs
      {
        var next := Perform(last);
        jobs := jobs + 1;
        if next.None? { return; }
        last := next.value;
      }
    }

    /** The chain from its first job, on tables that stay as they are: every resource is tried once and in
        order, and the counters of the last job are those of one bulk pass. */
    method RunChain(batchSize: nat) returns (last: GrantJob, jobs: nat)
      requires tried == []
      modifies this
      ensures source.None? || target.None? || source.value.id == target.value.id
              || source.value.organization != target.value.organization ==>
        tried == [] && granted == old(granted) && jobs == 1
      ensures source.Some? && target.Some? && source.value.id != target.value.id
              && source.value.organization == target.value.organization && batchSize == 0 ==>
        tried == [] && granted == old(granted) && last.processed == 0 && jobs == |models| + 1
      ensures source.Some? && target.Some? && source.value.id != target.value.id
              && source.value.organization == target.value.organization && batchSize >= 1 ==>
        && tried == Concat(models) && last.processed == |Concat(models)|
        && Tally(granted, last.added, last.skipped, last.failed)
           == GrantedAll(fails, Tally(old(granted), 0, 0, 0), Concat(models))
        && jobs == JobsFor(models, batchSize)
    {
      last, jobs := GrantJob(batchSize, 0, 0, 0, 0, 0, 0), 0;
      ghost var k, start := 0, Tally(granted, 0, 0, 0);
      assert models[..0] == [] && models[..|models|] == models;
      if !Allowed() {
        var next := Perform(last);
        return last, 1;
      }
      if batchSize == 0 {
        last, jobs := RunEmptyChain();
        return;
      }
      while true
        invariant Reached(last, k, jobs, start) && last.batchSize == batchSize
        decreases |models| - last.modelIndex, Left(last)
      {
        var next;
        next, k := Advance(last, k, jobs, start);
        jobs := jobs + 1;
        if next.None? { return; }
        last := next.value;
      }
    }
  }

  /** A pass may stop and go on with fresh counters that are added to the old ones. */
  lemma {:induction false} PassContinues(fails: Resource -> bool, t: Tally, a: seq<Resource>, b: seq<Resource>)
    ensures
      var u := GrantedAll(fails, t, a);
      var v := GrantedAll(fails, Tally(u.granted, 0, 0, 0), b);
      GrantedAll(fails, t, a + b)
      == Tally(v.granted, u.added + v.added, u.skipped + v.skipped, u.failed + v.failed)
  {
    if b == [] {
      assert a + b == a;
    } else {
      var n := |b| - 1;
      PassContinues(fails, t, a, b[..n]);
      assert a + b == (a + b[..n]) + [b[n]];
      GrantedSnoc(fails, t, a + b[..n], b[n]);
    }
  }

  lemma LargerProduct(q: nat, k: nat, b: nat)
    requires q > k
    ensures q * b >= k * b + b
  {
    assert q * b == k * b + (q - k) * b;
    assert (q - k) * b == b + (q - k - 1) * b;
  }

  lemma Ceiling(n: nat, b: nat, k: nat)
    requires b >= 1 && k * b >= n && (k == 0 || (k - 1) * b < n)
    ensures (n + b - 1) / b == k
  {
    var x, q := n + b - 1, (n + b - 1) / b;
    assert q * b <= x < q * b + b;
    if k > 0 { LargerProduct(k, k - 1, b); }
    if q < k { LargerProduct(k, q, b); }
    if q > k { LargerProduct(q, k, b); }
  }
}
