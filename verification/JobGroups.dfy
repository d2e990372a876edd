/** A job group as a counted barrier: each job reports to the group once its attempt is over, and the
    report that brings the count to zero enqueues the callback unless a job has failed.

    Every step is one committed statement or transaction, so a run of the system is any sequence of
    steps; the steps of different jobs interleave freely. */
module JobGroups {
  import opened Options
  import opened Jobs

  type Id = nat

  /** Where the attempt at a job stands. A failed attempt saves the error first and reports to the
      group in a second transaction. A job terminated while it performs (it rescheduled itself) has
      reported before its attempt is over. */
  datatype Attempt = Waiting | Performing | TerminatedInside | FailureSaved | Over

  datatype Callback = Callback(jobType: Option<string>, details: map<string, string>) {
    /** The guard of `enqueue_callback`: no type, or empty details, and nothing is enqueued. */
    predicate Usable() {
      jobType.Some? && jobType.value != "" && details != map[]
    }
  }

  datatype Group = Group(
    total: nat, remaining: nat, callback: Callback,
    jobs: map<Id, JobRow>, attempts: map<Id, Attempt>, enqueued: nat)

  datatype Step =
    | Start(id: Id)
    | Succeed(id: Id)
    | SaveFailure(id: Id, message: string)
    | ReportFailure(id: Id)
    | Terminate(id: Id)
    | AddJob(parent: Id, child: Id)

  predicate NoneFailed(jobs: map<Id, JobRow>) {
    forall id | id in jobs :: jobs[id].error.None?
  }

  // ------------------------------------------------------------------ the steps

  /** `JobGroup.update_status`: a decrement that stops at zero, then the callback. */
  function Report(s: Group): Group {
    var left := if s.remaining > 0 then s.remaining - 1 else 0;
    s.(remaining := left,
       enqueued := if left == 0 && NoneFailed(s.jobs) && s.callback.Usable() then s.enqueued + 1
                   else s.enqueued)
  }

  function SetRow(s: Group, id: Id, row: JobRow, attempt: Attempt): Group {
    s.(jobs := s.jobs[id := row], attempts := s.attempts[id := attempt])
  }

  /** What the code lets happen: jobs are delivered again after a failed attempt, any job may be
      terminated at any time, and a performing job may add jobs. */
  predicate Enabled(s: Group, step: Step) {
    match step
    case Start(id) =>
      id in s.jobs && id in s.attempts && (s.attempts[id] == Waiting || s.attempts[id] == Over)
      && !s.jobs[id].IsCompleted()
    case Succeed(id) =>
      id in s.jobs && id in s.attempts
      && (s.attempts[id] == Performing || s.attempts[id] == TerminatedInside)
    case SaveFailure(id, _) =>
      id in s.jobs && id in s.attempts
      && (s.attempts[id] == Performing || s.attempts[id] == TerminatedInside)
    case ReportFailure(id) => id in s.jobs && id in s.attempts && s.attempts[id] == FailureSaved
    case Terminate(id) => id in s.jobs && id in s.attempts
    case AddJob(parent, child) =>
      parent in s.attempts && (s.attempts[parent] == Performing || s.attempts[parent] == TerminatedInside)
      && child !in s.jobs && child !in s.attempts
  }

  /** Each job is attempted once and reports once: no second delivery, no termination after a
      report, and a job terminated inside its attempt neither raises nor adds jobs afterwards. */
  predicate Once(s: Group, step: Step)
    requires Enabled(s, step)
  {
    match step
    case Start(id) => s.attempts[id] == Waiting
    case Succeed(_) => true
    case SaveFailure(id, _) => s.attempts[id] == Performing
    case ReportFailure(_) => true
    case Terminate(id) => s.attempts[id] == Waiting || s.attempts[id] == Performing
    case AddJob(parent, _) => s.attempts[parent] == Performing
  }

  /** Where the attempt stands after its job was terminated; a handler that saved the error still reports. */
  function AfterTermination(a: Attempt): Attempt {
    match a
    case Performing => TerminatedInside
    case TerminatedInside => TerminatedInside
    case FailureSaved => FailureSaved
    case _ => Over
  }

  function Apply(s: Group, step: Step): Group
    requires Enabled(s, step)
  {
    match step
    case Start(id) => SetRow(s, id, WithStatus(s.jobs[id], Started, None), Performing)
    case Succeed(id) =>
      if s.jobs[id].Status() == Started
      then Report(SetRow(s, id, WithStatus(s.jobs[id], Successful, None), Over))
      else SetRow(s, id, s.jobs[id], Over)
    case SaveFailure(id, message) =>
      SetRow(s, id, WithStatus(JobRow(true, false, false, None), Failed, Some(message)), FailureSaved)
    case ReportFailure(id) => Report(SetRow(s, id, s.jobs[id], Over))
    case Terminate(id) =>
      Report(SetRow(s, id, WithStatus(s.jobs[id], Terminated, None), AfterTermination(s.attempts[id])))
    case AddJob(_, child) =>
      SetRow(s, child, FRESH, Waiting).(total := s.total + 1, remaining := s.remaining + 1)
  }

  // ------------------------------------------------------------------ the store

  /** The rows of one group, changed in place by the statements of the code. */
  class GroupStore {
    var total: nat
    var remaining: nat
    const callback: Callback
    var jobs: map<Id, JobRow>
    var attempts: map<Id, Attempt>
    var enqueued: nat

    function View(): Group
      reads this
    {
      Group(total, remaining, callback, jobs, attempts, enqueued)
    }

    /** `enqueue_job_group`: the counters start at the number of definitions. */
    constructor (count: nat, callback: Callback)
      ensures View() == Initial(count, callback)
    {
      this.callback := callback;
      total, remaining, enqueued := count, count, 0;
      jobs, attempts := Filled(count, FRESH), Filled(count, Waiting);
    }

    method SetStatus(id: Id, status: Status, message: Option<string>)
      requires id in jobs
      modifies this`jobs
      ensures jobs == old(jobs)[id := WithStatus(old(jobs)[id], status, message)]
    {
      var row := jobs[id].(error := None);
      if status == Terminated { row := row.(terminated := true); }
      if status == Successful { row := row.(completed := true); }
      if status == Started { row := row.(started := true); }
      if status == Failed { row := row.(error := message); }
      jobs := jobs[id := row];
    }

    method UpdateStatus()
      modifies this`remaining, this`enqueued
      ensures View() == Report(old(View()))
      ensures remaining == if old(remaining) > 0 then old(remaining) - 1 else 0
      ensures enqueued
           == old(enqueued) + if remaining == 0 && (forall id | id in jobs :: jobs[id].error.None?)
                                 && callback.jobType.Some? && |callback.jobType.value| > 0 && |callback.details| > 0
                              then 1 else 0
    {
      if remaining > 0 { remaining := remaining - 1; }
      if remaining == 0 {
        var failed := false;
        var ids := jobs.Keys;
        while ids != {}
          invariant ids <= jobs.Keys
          invariant failed <==> exists id :: id in jobs.Keys - ids && jobs[id].error.Some?
          decreases |ids|
        {
          var id :| id in ids;
          if jobs[id].error.Some? { failed := true; }
          ids := ids - {id};
        }
        if !failed && callback.jobType.Some? && callback.jobType.value != "" && callback.details != map[] {
          enqueued := enqueued + 1;
        }
      }
    }

    method StartJob(id: Id)
      requires Enabled(View(), Start(id))
      modifies this`jobs, this`attempts
      ensures View() == Apply(old(View()), Start(id))
    {
      SetStatus(id, Started, None);
      attempts := attempts[id := Performing];
    }

    /** The transaction after `perform` returned. */
    method FinishJob(id: Id)
      requires Enabled(View(), Succeed(id))
      modifies this
      ensures View() == Apply(old(View()), Succeed(id))
      ensures id in jobs && (old(jobs)[id].Status() == Started ==> jobs[id].completed && jobs[id].Status() == Successful)
    {
      attempts := attempts[id := Over];
      if jobs[id].Status() == Started {
        SetStatus(id, Successful, None);
        UpdateStatus();
      } else {
        assert jobs == jobs[id := jobs[id]];
      }
    }

    /** The save of the instance the attempt started with, in the exception handler. */
    method SaveJobFailure(id: Id, message: string)
      requires Enabled(View(), SaveFailure(id, message))
      modifies this`jobs, this`attempts
      ensures View() == Apply(old(View()), SaveFailure(id, message))
    {
      jobs := jobs[id := JobRow(true, false, false, None)];
      SetStatus(id, Failed, Some(message));
      attempts := attempts[id := FailureSaved];
    }

    method ReportJobFailure(id: Id)
      requires Enabled(View(), ReportFailure(id))
      modifies this
      ensures View() == Apply(old(View()), ReportFailure(id))
    {
      attempts := attempts[id := Over];
      assert jobs == jobs[id := jobs[id]];
      UpdateStatus();
    }

    method TerminateJob(id: Id)
      requires Enabled(View(), Terminate(id))
      modifies this
      ensures View() == Apply(old(View()), Terminate(id))
    {
      attempts := attempts[id := AfterTermination(attempts[id])];
      SetStatus(id, Terminated, None);
      UpdateStatus();
    }

    /** `enqueue_job_in_group`, called by a performing job. */
    method AddToGroup(parent: Id, child: Id)
      requires Enabled(View(), AddJob(parent, child))
      modifies this
      ensures View() == Apply(old(View()), AddJob(parent, child))
    {
      total, remaining := total + 1, remaining + 1;
      jobs, attempts := jobs[child := FRESH], attempts[child := Waiting];
    }

    method TakeStep(step: Step)
      requires Enabled(View(), step)
      modifies this
      ensures View() == Apply(old(View()), step)
    {
      match step
      case Start(id) => StartJob(id);
      case Succeed(id) => FinishJob(id);
      case SaveFailure(id, message) => SaveJobFailure(id, message);
      case ReportFailure(id) => ReportJobFailure(id);
      case Terminate(id) => TerminateJob(id);
      case AddJob(parent, child) => AddToGroup(parent, child);
    }

    /** Any run of the group on its rows. */
    method RunSteps(steps: seq<Step>, ghost states: seq<Group>)
      requires IsFreeRun(states, steps) && View() == states[0]
      modifies this
      ensures View() == states[|steps|]
    {
      for i := 0 to |steps|
        invariant View() == states[i]
      {
        assert StepAt(states, steps, i);
        TakeStep(steps[i]);
      }
    }
  }

  // ------------------------------------------------------------------ runs

  /** The ids below `count`, each with the same value. */
  function Filled<T>(count: nat, value: T): (m: map<Id, T>)
    ensures |m| == count
    ensures forall id: nat :: id in m <==> id < count
    ensures forall id :: id in m ==> m[id] == value
  {
    if count == 0 then map[]
    else
      var m := Filled(count - 1, value);
      assert count - 1 !in m;
      assert m[count - 1 := value].Keys == m.Keys + {count - 1};
      m[count - 1 := value]
  }

  function Initial(count: nat, callback: Callback): Group {
    Group(count, count, callback, Filled(count, FRESH), Filled(count, Waiting), 0)
  }

  predicate StepAt(states: seq<Group>, steps: seq<Step>, i: nat) {
    i < |steps| && |states| == |steps| + 1
    && Enabled(states[i], steps[i]) && states[i + 1] == Apply(states[i], steps[i])
  }

  /** The states of a run of enabled steps: jobs may be delivered again after a failure, and terminated at
      any time. */
  predicate IsFreeRun(states: seq<Group>, steps: seq<Step>) {
    |states| == |steps| + 1 && forall i | 0 <= i < |steps| :: StepAt(states, steps, i)
  }

  /** The states of a run of enabled steps that keep to `Once`. */
  predicate IsRun(states: seq<Group>, steps: seq<Step>) {
    IsFreeRun(states, steps) && forall i | 0 <= i < |steps| :: StepAt(states, steps, i) && Once(states[i], steps[i])
  }

  /** The callback of a group stays the one it was made with. */
  lemma {:induction false} SameCallback(
      count: nat, callback: Callback, states: seq<Group>, steps: seq<Step>, n: nat)
    requires IsFreeRun(states, steps) && states[0] == Initial(count, callback) && n < |states|
    ensures states[n].callback == callback
  {
    if n > 0 {
      SameCallback(count, callback, states, steps, n - 1);
      assert StepAt(states, steps, n - 1);
    }
  }

  predicate Reported(a: Attempt) {
    a == TerminatedInside || a == Over
  }

  function Unreported(attempts: map<Id, Attempt>): set<Id> {
    set id | id in attempts && !Reported(attempts[id])
  }

  /** How the row of a job and its attempt go together. */
  predicate RowFits(row: JobRow, attempt: Attempt) {
    match attempt
    case Waiting => row == FRESH
    case Performing => row == JobRow(true, false, false, None)
    case TerminatedInside => row.Status() == Terminated && row.error.None?
    case FailureSaved => row.error.Some?
    case Over => true
  }

  /** What every step keeps: the counter counts the jobs that have not reported, and the callback
      is enqueued once, exactly when a non-empty group has reported in full without a failure. */
  predicate Inv(s: Group) {
    && s.jobs.Keys == s.attempts.Keys
    && (forall id | id in s.jobs :: RowFits(s.jobs[id], s.attempts[id]))
    && s.total == |s.jobs|
    && s.remaining == |Unreported(s.attempts)|
    && s.enqueued == if CallbackDue(s) then 1 else 0
  }

  predicate CallbackDue(s: Group) {
    s.callback.Usable() && s.jobs != map[] && Unreported(s.attempts) == {} && NoneFailed(s.jobs)
  }

  /** Reporting for a job whose attempt just ended. */
  lemma ReportCounts(s: Group, id: Id, row: JobRow, attempt: Attempt)
    requires Inv(s) && id in s.jobs && !Reported(s.attempts[id]) && Reported(attempt)
    requires RowFits(row, attempt)
    ensures Inv(Report(SetRow(s, id, row, attempt)))
  {
    var next := SetRow(s, id, row, attempt);
    assert Unreported(next.attempts) == Unreported(s.attempts) - {id};
    assert id in Unreported(s.attempts);
    assert next.jobs.Keys == s.jobs.Keys;
    assert id in next.jobs;
  }

  lemma TerminateKeepsInv(s: Group, id: Id)
    requires Inv(s) && id in s.jobs && (s.attempts[id] == Waiting || s.attempts[id] == Performing)
    ensures Inv(Apply(s, Terminate(id)))
  {
    assert RowFits(s.jobs[id], s.attempts[id]);
    ReportCounts(s, id, WithStatus(s.jobs[id], Terminated, None),
                 if s.attempts[id] == Performing then TerminatedInside else Over);
  }

  lemma SucceedKeepsInv(s: Group, id: Id)
    requires Inv(s) && id in s.jobs
    requires s.attempts[id] == Performing || s.attempts[id] == TerminatedInside
    ensures Inv(Apply(s, Succeed(id)))
  {
    assert RowFits(s.jobs[id], s.attempts[id]);
    if s.attempts[id] == Performing {
      ReportCounts(s, id, WithStatus(s.jobs[id], Successful, None), Over);
    } else {
      SameReports(s, id, s.jobs[id], Over);
    }
  }

  lemma OneMore(before: set<Id>, after: set<Id>, child: Id)
    requires child !in before && forall id: Id :: id in after <==> id == child || id in before
    ensures |after| == |before| + 1
  {
    assert after == before + {child};
  }

  lemma UnreportedMore(attempts: map<Id, Attempt>, child: Id)
    requires child !in attempts
    ensures |Unreported(attempts[child := Waiting])| == |Unreported(attempts)| + 1
  {
    var before, after := Unreported(attempts), Unreported(attempts[child := Waiting]);
    assert child !in before;
    OneMore(before, after, child);
  }

  lemma JobsMore(jobs: map<Id, JobRow>, child: Id)
    requires child !in jobs
    ensures |jobs[child := FRESH]| == |jobs| + 1
  {
    assert jobs[child := FRESH].Keys == jobs.Keys + {child};
  }

  /** A job added to a group that has not called back leaves the invariant. */
  lemma AddedFits(s: Group, t: Group, child: Id)
    requires Inv(s) && s.enqueued == 0 && child !in s.jobs
    requires t == SetRow(s, child, FRESH, Waiting).(total := s.total + 1, remaining := s.remaining + 1)
    ensures Inv(t)
  {
    UnreportedMore(s.attempts, child);
    JobsMore(s.jobs, child);
    assert child in Unreported(t.attempts);
    forall id | id in t.jobs ensures RowFits(t.jobs[id], t.attempts[id]) {
      if id != child { assert RowFits(s.jobs[id], s.attempts[id]); }
    }
  }

  lemma AddKeepsInv(s: Group, parent: Id, child: Id)
    requires Inv(s) && Enabled(s, AddJob(parent, child)) && s.attempts[parent] == Performing
    ensures Inv(Apply(s, AddJob(parent, child)))
  {
    assert parent in Unreported(s.attempts);
    AddedFits(s, Apply(s, AddJob(parent, child)), child);
  }

  /** Every step of every job keeps the invariant. */
  lemma StepKeepsInv(s: Group, step: Step)
    requires Inv(s) && Enabled(s, step) && Once(s, step)
    ensures Inv(Apply(s, step))
  {
    match step
    case Start(id) => SameReports(s, id, WithStatus(s.jobs[id], Started, None), Performing);
    case Succeed(id) => SucceedKeepsInv(s, id);
    case SaveFailure(id, message) =>
      SameReports(s, id, WithStatus(JobRow(true, false, false, None), Failed, Some(message)), FailureSaved);
    case ReportFailure(id) => ReportCounts(s, id, s.jobs[id], Over);
    case Terminate(id) => TerminateKeepsInv(s, id);
    case AddJob(parent, child) => AddKeepsInv(s, parent, child);
  }

  /** A step that moves a job without reporting, or within the reported ones, leaves the counters. */
  lemma SameReports(s: Group, id: Id, row: JobRow, attempt: Attempt)
    requires Inv(s) && id in s.jobs && RowFits(row, attempt)
    requires Reported(s.attempts[id]) <==> Reported(attempt)
    requires Reported(attempt) ==> row == s.jobs[id]
    ensures Inv(SetRow(s, id, row, attempt))
  {
    var next := SetRow(s, id, row, attempt);
    assert Unreported(next.attempts) == Unreported(s.attempts);
    assert next.jobs.Keys == s.jobs.Keys;
    if Reported(attempt) {
      assert next.jobs == s.jobs;
    } else {
      assert id in Unreported(s.attempts);
    }
  }

  lemma InitialInv(count: nat, callback: Callback)
    ensures Inv(Initial(count, callback))
  {
    var s := Initial(count, callback);
    assert Unreported(s.attempts) == s.attempts.Keys;
    assert s.attempts.Keys == s.jobs.Keys;
    if count > 0 { assert 0 in Unreported(s.attempts); }
  }

  /** In every interleaving, at every moment: `remaining_jobs` is the number of jobs that have not
      reported, and the callback has been enqueued once if the group is non-empty, all have reported
      and none failed, and otherwise not at all. */
  lemma {:induction false} Barrier(
      count: nat, callback: Callback, states: seq<Group>, steps: seq<Step>, n: nat)
    requires IsRun(states, steps) && states[0] == Initial(count, callback) && n < |states|
    ensures Inv(states[n])
  {
    if n == 0 {
      InitialInv(count, callback);
    } else {
      Barrier(count, callback, states, steps, n - 1);
      assert StepAt(states, steps, n - 1);
      StepKeepsInv(states[n - 1], steps[n - 1]);
    }
  }

  /** The callback comes with the last report and never before it: the step that enqueues it takes
      the counter from one to zero. */
  lemma CallbackWithLastReport(
      count: nat, callback: Callback, states: seq<Group>, steps: seq<Step>, n: nat)
    requires IsRun(states, steps) && states[0] == Initial(count, callback) && n < |steps|
    ensures states[n].enqueued <= states[n + 1].enqueued <= 1
    ensures states[n + 1].enqueued > states[n].enqueued ==>
              states[n].remaining == 1 && states[n + 1].remaining == 0
  {
    assert StepAt(states, steps, n);
    Barrier(count, callback, states, steps, n);
    Barrier(count, callback, states, steps, n + 1);
    if Unreported(states[n].attempts) == {} {
      NothingAfterLastReport(states[n], steps[n]);
    }
  }

  /** Once every job has reported, the only steps left end an attempt that was terminated inside,
      and they change no row and no counter. */
  lemma NothingAfterLastReport(s: Group, step: Step)
    requires Inv(s) && Enabled(s, step) && Once(s, step) && Unreported(s.attempts) == {}
    ensures Apply(s, step) == s.(attempts := Apply(s, step).attempts)
  {
    var id := if step.AddJob? then step.parent else step.id;
    assert id !in Unreported(s.attempts) && id in s.jobs;
    assert RowFits(s.jobs[id], s.attempts[id]) && s.jobs[id := s.jobs[id]] == s.jobs;
  }

  /** An empty group never calls back, whatever its callback: no step is possible. */
  lemma EmptyGroupSilent(callback: Callback, step: Step)
    ensures Initial(0, callback).enqueued == 0 && !Enabled(Initial(0, callback), step)
  {}
}
