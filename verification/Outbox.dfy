/** `JobsOutbox` with the inline runner. Jobs enqueued while a scope is open wait in its pending list;
    leaving the scope, normally or by an exception, hands them to the runner in the order they were
    added. The inline runner runs a job at once, in a scope of its own, so enqueuing nests. */
module Outbox {
  /** A job and what its `perform` does: the actions it gets through, and whether it raises after
      them. `later` jobs have a future `perform_at`. */
  datatype Job = Job(id: nat, later: bool, actions: seq<Action>, raises: bool)

  /** `enqueue_job`, or an inner `async with JobsOutbox()` with its own actions. */
  datatype Action = Add(job: Job) | Scope(actions: seq<Action>)

  // ------------------------------------------------------------------ sizes

  ghost function JobWeight(job: Job): nat
    decreases job
  {
    1 + Weight(job.actions)
  }

  ghost function ActionWeight(action: Action): (w: nat)
    ensures w >= 1
    ensures action.Add? ==> JobWeight(action.job) < w
    ensures action.Scope? ==> Weight(action.actions) < w
    decreases action
  {
    match action
    case Add(job) => 1 + JobWeight(job)
    case Scope(inner) => 1 + Weight(inner)
  }

  ghost function Weight(actions: seq<Action>): nat
    decreases actions
  {
    if actions == [] then 0 else ActionWeight(actions[0]) + Weight(actions[1..])
  }

  ghost function JobsWeight(jobs: seq<Job>): nat {
    if jobs == [] then 0 else 1 + JobWeight(jobs[0]) + JobsWeight(jobs[1..])
  }

  lemma {:induction false} PendingWeight(actions: seq<Action>)
    ensures JobsWeight(Pending(actions)) <= Weight(actions)
  {
    if actions != [] { PendingWeight(actions[1..]); }
  }

  // ------------------------------------------------------------------ what a scope does

  /** The jobs a list of actions leaves pending in its own scope, in add order. */
  function Pending(actions: seq<Action>): seq<Job> {
    if actions == [] then []
    else if actions[0].Add? then [actions[0].job] + Pending(actions[1..])
    else Pending(actions[1..])
  }

  /** The records of the runner: every job handed to it, and how each ended. */
  datatype Log = Log(handed: seq<nat>, scheduled: seq<nat>, completed: seq<nat>, failed: seq<nat>) {
    function Then(next: Log): Log {
      Log(handed + next.handed, scheduled + next.scheduled, completed + next.completed,
          failed + next.failed)
    }
  }

  const NOTHING := Log([], [], [], [])

  /** What the inner scopes of a list of actions log while the actions run. */
  function ActionsLog(actions: seq<Action>): Log
    decreases Weight(actions), 1
  {
    if actions == [] then NOTHING
    else if actions[0].Add? then ActionsLog(actions[1..])
    else ScopeLog(actions[0].actions).Then(ActionsLog(actions[1..]))
  }

  /** What handing over a list of jobs logs. */
  function JobsLog(jobs: seq<Job>): Log
    decreases JobsWeight(jobs), 0
  {
    if jobs == [] then NOTHING else JobLog(jobs[0]).Then(JobsLog(jobs[1..]))
  }

  /** A whole scope: its actions, then its pending jobs. */
  function ScopeLog(actions: seq<Action>): Log
    decreases Weight(actions), 2
  {
    PendingWeight(actions);
    ActionsLog(actions).Then(JobsLog(Pending(actions)))
  }

  /** One job handed to the runner: the jobs of its own scope come before its own ending. */
  function JobLog(job: Job): Log
    decreases JobWeight(job), 3
  {
    if job.later then Log([job.id], [job.id], [], [])
    else
      var inner := ScopeLog(job.actions);
      Log([job.id] + inner.handed, inner.scheduled,
          if job.raises then inner.completed else inner.completed + [job.id],
          if job.raises then inner.failed + [job.id] else inner.failed)
  }

  // ------------------------------------------------------------------ the code

  class Runner {
    /** The context variable: the pending list of the innermost open scope. */
    var pending: seq<Job>
    ghost var handed: seq<nat>
    var scheduled: seq<nat>
    var completed: seq<nat>
    var failed: seq<nat>

    ghost function Logged(): Log
      reads this
    {
      Log(handed, scheduled, completed, failed)
    }

    constructor ()
      ensures pending == [] && Logged() == NOTHING
    {
      pending, handed, scheduled, completed, failed := [], [], [], [], [];
    }

    /** What `perform`, or the body of a scope, does. */
    method RunActions(actions: seq<Action>)
      modifies this
      ensures pending == old(pending) + Pending(actions)
      ensures Logged() == old(Logged()).Then(ActionsLog(actions))
      decreases Weight(actions), 1
    {
      if actions == [] {
        ThenNothing(Logged());
        return;
      }
      var rest := actions[1..];
      RunAction(actions[0]);
      RunActions(rest);
      FirstAction(actions, old(pending), old(Logged()));
    }

    method RunAction(a: Action)
      modifies this
      ensures pending == old(pending) + if a.Add? then [a.job] else []
      ensures Logged() == old(Logged()).Then(if a.Add? then NOTHING else ScopeLog(a.actions))
      decreases ActionWeight(a), 0
    {
      match a
      case Add(job) =>
        pending := pending + [job];
        ThenNothing(Logged());
      case Scope(inner) =>
        RunScope(inner);
    }

    /** `__aenter__` sets an empty list and keeps a token; `__aexit__` takes the list, resets the
        variable to the token and hands the jobs over one by one. */
    method RunScope(actions: seq<Action>)
      modifies this
      ensures pending == old(pending)
      ensures Logged() == old(Logged()).Then(ScopeLog(actions))
      decreases Weight(actions), 2
    {
      var token := pending;
      pending := [];
      RunActions(actions);
      var jobs := pending;
      assert jobs == Pending(actions);
      pending := token;
      PendingWeight(actions);
      HandOver(jobs);
      ThenAssociative(old(Logged()), ActionsLog(actions), JobsLog(Pending(actions)));
    }

    method HandOver(jobs: seq<Job>)
      modifies this
      ensures pending == old(pending)
      ensures Logged() == old(Logged()).Then(JobsLog(jobs))
      decreases JobsWeight(jobs), 0
    {
      for i := 0 to |jobs|
        invariant pending == old(pending)
        invariant Logged().Then(JobsLog(jobs[i..])) == old(Logged()).Then(JobsLog(jobs))
      {
        ghost var before, rest := Logged(), jobs[i..];
        JobInList(jobs, i);
        Enqueue(jobs[i]);
        assert rest[0] == jobs[i] && rest[1..] == jobs[i + 1..];
        ThenAssociative(before, JobLog(jobs[i]), JobsLog(rest[1..]));
      }
    }

    /** `InlineJobs.enqueue` around `Job.run`. */
    method Enqueue(job: Job)
      modifies this
      ensures pending == old(pending)
      ensures Logged() == old(Logged()).Then(JobLog(job))
      decreases JobWeight(job), 3
    {
      handed := handed + [job.id];
      if job.later {
        scheduled := scheduled + [job.id];
      } else {
        ghost var own := Logged();
        RunScope(job.actions);
        assert Logged() == own.Then(ScopeLog(job.actions));
        if job.raises { failed := failed + [job.id]; } else { completed := completed + [job.id]; }
      }
    }
  }

  lemma ThenAssociative(a: Log, b: Log, c: Log)
    ensures a.Then(b).Then(c) == a.Then(b.Then(c))
  {}

  lemma ThenNothing(a: Log)
    ensures a.Then(NOTHING) == a
  {}

  /** What a list of actions does is what its first one does and then the rest. */
  lemma FirstAction(actions: seq<Action>, jobs: seq<Job>, log: Log)
    requires actions != []
    ensures
      var a, rest := actions[0], actions[1..];
      && jobs + Pending(actions) == jobs + (if a.Add? then [a.job] else []) + Pending(rest)
      && log.Then(ActionsLog(actions))
         == log.Then(if a.Add? then NOTHING else ScopeLog(a.actions)).Then(ActionsLog(rest))
  {
    var a, rest := actions[0], actions[1..];
    if a.Add? {
      ThenNothing(log);
    } else {
      ThenAssociative(log, ScopeLog(a.actions), ActionsLog(rest));
    }
  }

  lemma {:induction false} JobInList(jobs: seq<Job>, i: nat)
    requires i < |jobs|
    ensures JobWeight(jobs[i]) < JobsWeight(jobs)
  {
    if i > 0 { JobInList(jobs[1..], i - 1); }
  }

  // ------------------------------------------------------------------ conservation

  /** Jobs by how they end: those for later, those that return, and those that raise. */
  datatype Reach = Reach(scheduled: multiset<nat>, completed: multiset<nat>, failed: multiset<nat>) {
    function Plus(other: Reach): Reach {
      Reach(scheduled + other.scheduled, completed + other.completed, failed + other.failed)
    }
  }

  const NOBODY := Reach(multiset{}, multiset{}, multiset{})

  /** Every job reached by a list of actions: those it adds, those its inner scopes add, and those
      the jobs that run at once add in turn, whether or not they raise afterwards. */
  function Reached(actions: seq<Action>): Reach
    decreases Weight(actions), 1
  {
    if actions == [] then NOBODY
    else
      var first := match actions[0] case Add(job) => ReachedBy(job) case Scope(inner) => Reached(inner);
      first.Plus(Reached(actions[1..]))
  }

  function ReachedBy(job: Job): Reach
    decreases JobWeight(job), 3
  {
    if job.later then Reach(multiset{job.id}, multiset{}, multiset{})
    else
      Reach(multiset{}, if job.raises then multiset{} else multiset{job.id},
            if job.raises then multiset{job.id} else multiset{}).Plus(Reached(job.actions))
  }

  function ReachedByAll(jobs: seq<Job>): Reach {
    if jobs == [] then NOBODY else ReachedBy(jobs[0]).Plus(ReachedByAll(jobs[1..]))
  }

  /** What the inner scopes of a list of actions reach. */
  function ReachedInside(actions: seq<Action>): Reach {
    if actions == [] then NOBODY
    else (if actions[0].Add? then NOBODY else Reached(actions[0].actions)).Plus(ReachedInside(actions[1..]))
  }

  lemma PlusMoves(a: Reach, b: Reach, c: Reach)
    ensures a.Plus(b.Plus(c)) == a.Plus(b).Plus(c) == b.Plus(a.Plus(c))
    ensures NOBODY.Plus(a) == a
  {}

  lemma {:induction false} ReachedSplit(actions: seq<Action>)
    ensures Reached(actions) == ReachedInside(actions).Plus(ReachedByAll(Pending(actions)))
  {
    if actions == [] {
      PlusMoves(NOBODY, NOBODY, NOBODY);
    } else {
      var rest := actions[1..];
      var inside, waiting := ReachedInside(rest), ReachedByAll(Pending(rest));
      ReachedSplit(rest);
      if actions[0].Add? {
        assert Pending(actions)[1..] == Pending(rest);
        PlusMoves(inside, ReachedBy(actions[0].job), waiting);
        PlusMoves(inside, waiting, NOBODY);
      } else {
        PlusMoves(Reached(actions[0].actions), inside, waiting);
      }
    }
  }

  /** A log that accounts for these jobs: each handed over once, and ended as it should. */
  predicate Accounts(log: Log, jobs: Reach) {
    && multiset(log.handed) == jobs.scheduled + jobs.completed + jobs.failed
    && multiset(log.scheduled) == jobs.scheduled && multiset(log.completed) == jobs.completed
    && multiset(log.failed) == jobs.failed
  }

  lemma AccountsThen(a: Log, b: Log, m: Reach, n: Reach)
    requires Accounts(a, m) && Accounts(b, n)
    ensures Accounts(a.Then(b), m.Plus(n))
  {
    assert multiset(a.handed + b.handed) == multiset(a.handed) + multiset(b.handed);
  }

  lemma {:induction false} ActionsAccount(actions: seq<Action>)
    ensures Accounts(ActionsLog(actions), ReachedInside(actions))
    decreases Weight(actions), 1
  {
    if actions != [] {
      ActionsAccount(actions[1..]);
      if actions[0].Scope? {
        ScopeAccounts(actions[0].actions);
        AccountsThen(ScopeLog(actions[0].actions), ActionsLog(actions[1..]),
                     Reached(actions[0].actions), ReachedInside(actions[1..]));
      } else {
        PlusMoves(ReachedInside(actions[1..]), NOBODY, NOBODY);
      }
    }
  }

  lemma {:induction false} JobsAccount(jobs: seq<Job>)
    ensures Accounts(JobsLog(jobs), ReachedByAll(jobs))
    decreases JobsWeight(jobs), 0
  {
    if jobs != [] {
      JobAccounts(jobs[0]);
      JobsAccount(jobs[1..]);
      AccountsThen(JobLog(jobs[0]), JobsLog(jobs[1..]), ReachedBy(jobs[0]), ReachedByAll(jobs[1..]));
    }
  }

  /** Every job a scope reaches is handed to the runner exactly once, and is scheduled if it is for later,
      failed if it raises, and completed otherwise. */
  lemma {:induction false} ScopeAccounts(actions: seq<Action>)
    ensures Accounts(ScopeLog(actions), Reached(actions))
    decreases Weight(actions), 2
  {
    PendingWeight(actions);
    ActionsAccount(actions);
    JobsAccount(Pending(actions));
    ReachedSplit(actions);
    AccountsThen(ActionsLog(actions), JobsLog(Pending(actions)),
                 ReachedInside(actions), ReachedByAll(Pending(actions)));
  }

  lemma {:induction false} JobAccounts(job: Job)
    ensures Accounts(JobLog(job), ReachedBy(job))
    decreases JobWeight(job), 3
  {
    if !job.later {
      ScopeAccounts(job.actions);
      RunAccounts(job.id, job.raises, ScopeLog(job.actions), Reached(job.actions));
    }
  }

  lemma RunAccounts(id: nat, raises: bool, inner: Log, reached: Reach)
    requires Accounts(inner, reached)
    ensures
      var own := Reach(multiset{}, if raises then multiset{} else multiset{id},
                       if raises then multiset{id} else multiset{});
      Accounts(Log([id] + inner.handed, inner.scheduled, if raises then inner.completed else inner.completed + [id],
                   if raises then inner.failed + [id] else inner.failed), own.Plus(reached))
  {
    OneMore(id, inner.handed);
    OneMore(id, inner.completed);
    OneMore(id, inner.failed);
  }

  lemma OneMore(id: nat, ids: seq<nat>)
    ensures multiset([id] + ids) == multiset{id} + multiset(ids) == multiset(ids + [id])
  {}

  // ------------------------------------------------------------------ order

  lemma {:induction false} JobsLogSplit(jobs: seq<Job>, n: nat)
    requires n <= |jobs|
    ensures JobsLog(jobs) == JobsLog(jobs[..n]).Then(JobsLog(jobs[n..]))
  {
    if n == 0 {
      assert jobs[0..] == jobs;
    } else {
      JobsLogSplit(jobs[1..], n - 1);
      assert jobs[1..][..n - 1] == jobs[..n][1..] && jobs[1..][n - 1..] == jobs[n..];
      ThenAssociative(JobLog(jobs[0]), JobsLog(jobs[..n][1..]), JobsLog(jobs[n..]));
    }
  }

  /** The jobs of a scope are handed over in add order after everything its actions caused: job `n`
      directly after everything the jobs before it caused, and before all that it causes itself. */
  lemma AddOrder(actions: seq<Action>, n: nat)
    requires n < |Pending(actions)|
    ensures
      var jobs := Pending(actions);
      var before := ActionsLog(actions).Then(JobsLog(jobs[..n])).handed;
      before + [jobs[n].id] <= ScopeLog(actions).handed
  {
    var jobs := Pending(actions);
    JobsLogSplit(jobs, n);
    assert jobs[n..][0] == jobs[n];
    var rest := JobsLog(jobs[n..]);
    assert JobLog(jobs[n]).handed[0] == jobs[n].id;
    assert rest == JobLog(jobs[n]).Then(JobsLog(jobs[n..][1..]));
    assert rest.handed != [] && rest.handed[0] == jobs[n].id;
    ThenAssociative(ActionsLog(actions), JobsLog(jobs[..n]), rest);
  }

  /** A job that ran is recorded after everything it caused: it is the last of its list by then. */
  lemma EndOrder(actions: seq<Action>, n: nat)
    requires n < |Pending(actions)| && !Pending(actions)[n].later
    ensures
      var job := Pending(actions)[n];
      var done := ActionsLog(actions).Then(JobsLog(Pending(actions)[..n])).Then(JobLog(job));
      var list, all := if job.raises then done.failed else done.completed,
                       if job.raises then ScopeLog(actions).failed else ScopeLog(actions).completed;
      list <= all && list != [] && list[|list| - 1] == job.id
  {
    var jobs := Pending(actions);
    JobsLogSplit(jobs, n);
    JobsLogSplit(jobs[n..], 1);
    assert jobs[n..][..1] == [jobs[n]];
    OneJob(jobs[n]);
    var a, b, c, d := ActionsLog(actions), JobsLog(jobs[..n]), JobLog(jobs[n]), JobsLog(jobs[n..][1..]);
    ThenAssociative(a, b, c.Then(d));
    ThenAssociative(a.Then(b), c, d);
  }

  lemma OneJob(job: Job)
    ensures JobsLog([job]) == JobLog(job)
  {
    assert [job][1..] == [];
    ThenNothing(JobLog(job));
  }
}
