/** The rows, the counter and the callback of a job group, told from the steps of a run alone. */
module GroupHistory {
  import opened Options
  import opened Jobs
  import opened JobGroups

  // ------------------------------------------------------------------ what the steps say

  /** The jobs that were added to the group. */
  function Added(steps: seq<Step>): set<Id> {
    if steps == [] then {}
    else
      var before, step := Added(steps[..|steps| - 1]), steps[|steps| - 1];
      if step.AddJob? then before + {step.child} else before
  }

  predicate Member(count: nat, steps: seq<Step>, id: Id) {
    id < count || id in Added(steps)
  }

  /** The jobs that a step ended: a success, the report of a failure, or a termination. */
  function Ended(steps: seq<Step>): set<Id> {
    if steps == [] then {}
    else
      var before, step := Ended(steps[..|steps| - 1]), steps[|steps| - 1];
      if step.Succeed? || step.ReportFailure? || step.Terminate? then before + {step.id} else before
  }

  /** The jobs that failed. */
  function Failed(steps: seq<Step>): set<Id> {
    if steps == [] then {}
    else
      var before, step := Failed(steps[..|steps| - 1]), steps[|steps| - 1];
      if step.SaveFailure? then before + {step.id} else before
  }

  /** The last of the steps that an attempt at the job takes. */
  function LastMove(steps: seq<Step>, id: Id): Option<Step> {
    if steps == [] then None
    else
      var step := steps[|steps| - 1];
      if !step.AddJob? && !step.Terminate? && step.id == id then Some(step)
      else LastMove(steps[..|steps| - 1], id)
  }

  /** The job was terminated, and its handler has saved no error since. */
  function Terminated(steps: seq<Step>, id: Id): bool {
    if steps == [] then false
    else
      match steps[|steps| - 1]
      case Terminate(i) => i == id || Terminated(steps[..|steps| - 1], id)
      case SaveFailure(i, _) => i != id && Terminated(steps[..|steps| - 1], id)
      case _ => Terminated(steps[..|steps| - 1], id)
  }

  /** A `perform` returned while the job was not terminated. */
  function Succeeded(steps: seq<Step>, id: Id): bool {
    if steps == [] then false
    else
      var before := steps[..|steps| - 1];
      Succeeded(before, id) || (steps[|steps| - 1] == Succeed(id) && !Terminated(before, id))
  }

  /** The error of the last failure, unless the job was started again or terminated since. */
  function LastError(steps: seq<Step>, id: Id): Option<string> {
    if steps == [] then None
    else
      match steps[|steps| - 1]
      case SaveFailure(i, message) => if i == id then Some(message) else LastError(steps[..|steps| - 1], id)
      case Start(i) => if i == id then None else LastError(steps[..|steps| - 1], id)
      case Terminate(i) => if i == id then None else LastError(steps[..|steps| - 1], id)
      case _ => LastError(steps[..|steps| - 1], id)
  }

  // ------------------------------------------------------------------ rows

  /** The row and the attempt of a job are what its steps say. */
  ghost predicate Told(s: Group, count: nat, steps: seq<Step>, id: Id) {
    && (id in s.jobs <==> Member(count, steps, id)) && (id in s.attempts <==> id in s.jobs)
    && (id in s.jobs ==>
          var row, a := s.jobs[id], s.attempts[id];
          && row.started == LastMove(steps, id).Some? && row.completed == Succeeded(steps, id)
          && row.terminated == Terminated(steps, id) && row.error == LastError(steps, id)
          && match LastMove(steps, id)
             case None => row.error.None? && a == if Terminated(steps, id) then Over else Waiting
             case Some(Start(_)) =>
               !row.completed && row.error.None? && a == if Terminated(steps, id) then TerminatedInside else Performing
             case Some(SaveFailure(_, _)) => !row.completed && a == FailureSaved
             case _ => a == Over)
    && (id !in s.jobs ==>
          LastMove(steps, id).None? && LastError(steps, id).None? && !Terminated(steps, id) && !Succeeded(steps, id))
  }

  lemma StepTold(s: Group, count: nat, steps: seq<Step>, step: Step, id: Id)
    requires Enabled(s, step) && Told(s, count, steps, id)
    ensures Told(Apply(s, step), count, steps + [step], id)
  {
    assert (steps + [step])[..|steps|] == steps;
  }

  /** In every run, with retries and terminations as they come, each row is what the steps of its job say. */
  lemma {:induction false} RowsTold(
      count: nat, callback: Callback, states: seq<Group>, steps: seq<Step>, n: nat, id: Id)
    requires IsFreeRun(states, steps) && states[0] == Initial(count, callback) && n < |states|
    ensures Told(states[n], count, steps[..n], id)
  {
    if n > 0 {
      RowsTold(count, callback, states, steps, n - 1, id);
      assert StepAt(states, steps, n - 1);
      assert steps[..n] == steps[..n - 1] + [steps[n - 1]];
      StepTold(states[n - 1], count, steps[..n - 1], steps[n - 1], id);
    }
  }

  /** So is its status: a termination counts more than a success, and that more than an error that is not empty. */
  lemma StatusTold(count: nat, callback: Callback, states: seq<Group>, steps: seq<Step>, n: nat, id: Id)
    requires IsFreeRun(states, steps) && states[0] == Initial(count, callback) && n < |states|
    requires Member(count, steps[..n], id)
    ensures id in states[n].jobs
    ensures var error := LastError(steps[..n], id);
      states[n].jobs[id].Status()
      == if Terminated(steps[..n], id) then Status.Terminated
         else if Succeeded(steps[..n], id) then Successful
         else if error.Some? && |error.value| > 0 then Status.Failed
         else if LastMove(steps[..n], id).Some? then Started
         else Enqueued
  {
    RowsTold(count, callback, states, steps, n, id);
  }

  /** What may happen next. */
  ghost predicate May(count: nat, steps: seq<Step>, step: Step) {
    match step
    case Start(id) =>
      Member(count, steps, id) && !Terminated(steps, id) && !Succeeded(steps, id)
      && LastMove(steps, id) != Some(Start(id)) && !(LastMove(steps, id).Some? && LastMove(steps, id).value.SaveFailure?)
    case Succeed(id) => LastMove(steps, id) == Some(Start(id))
    case SaveFailure(id, _) => LastMove(steps, id) == Some(Start(id))
    case ReportFailure(id) => LastMove(steps, id).Some? && LastMove(steps, id).value.SaveFailure?
    case Terminate(id) => Member(count, steps, id)
    case AddJob(parent, child) => LastMove(steps, parent) == Some(Start(parent)) && !Member(count, steps, child)
  }

  lemma {:induction false} LastMoveOwn(steps: seq<Step>, id: Id)
    ensures LastMove(steps, id).Some? ==>
      var step := LastMove(steps, id).value;
      !step.AddJob? && !step.Terminate? && step.id == id
  {
    if steps != [] { LastMoveOwn(steps[..|steps| - 1], id); }
  }

  /** A job that has not finished may be started, one that was started may succeed, fail or add jobs, and one
      that saved its error may report. */
  lemma MayIff(count: nat, callback: Callback, states: seq<Group>, steps: seq<Step>, n: nat, step: Step)
    requires IsFreeRun(states, steps) && states[0] == Initial(count, callback) && n < |states|
    ensures Enabled(states[n], step) <==> May(count, steps[..n], step)
  {
    var id := if step.AddJob? then step.parent else step.id;
    RowsTold(count, callback, states, steps, n, id);
    LastMoveOwn(steps[..n], id);
    if step.AddJob? { RowsTold(count, callback, states, steps, n, step.child); }
  }

  lemma {:induction false} SucceededStays(steps: seq<Step>, m: nat, n: nat, id: Id)
    requires m <= n <= |steps| && Succeeded(steps[..m], id)
    ensures Succeeded(steps[..n], id)
    decreases n
  {
    if m < n {
      SucceededStays(steps, m, n - 1, id);
      assert steps[..n][..n - 1] == steps[..n - 1];
    }
  }

  /** A job whose `perform` returned, and that was not terminated, is completed and never started again. */
  lemma SuccessKept(
      count: nat, callback: Callback, states: seq<Group>, steps: seq<Step>, n: nat, m: nat, id: Id)
    requires IsFreeRun(states, steps) && states[0] == Initial(count, callback) && n < m < |states|
    requires steps[n] == Succeed(id) && !Terminated(steps[..n], id)
    ensures id in states[m].jobs && states[m].jobs[id].completed && !Enabled(states[m], Start(id))
    ensures m < |steps| ==> steps[m] != Start(id)
  {
    assert steps[..n + 1][..n] == steps[..n] && StepAt(states, steps, n);
    SucceededStays(steps, n + 1, m, id);
    RowsTold(count, callback, states, steps, m, id);
    MayIff(count, callback, states, steps, m, Start(id));
    if m < |steps| { assert StepAt(states, steps, m); }
  }

  // ------------------------------------------------------------------ the barrier

  /** When each job reports once, it has reported exactly after a step that ends it. */
  ghost predicate ToldOnce(s: Group, count: nat, steps: seq<Step>, id: Id) {
    && (id in s.jobs <==> Member(count, steps, id)) && (id in s.attempts <==> id in s.jobs)
    && (id in s.jobs ==>
          && (Reported(s.attempts[id]) <==> id in Ended(steps))
          && (s.jobs[id].error.Some? <==> id in Failed(steps))
          && (id in Failed(steps) ==> s.attempts[id] == FailureSaved || s.attempts[id] == Over))
    && (id !in s.jobs ==> id !in Ended(steps) && id !in Failed(steps))
  }

  lemma StepToldOnce(s: Group, count: nat, steps: seq<Step>, step: Step, id: Id)
    requires Told(s, count, steps, id) && Enabled(s, step) && JobGroups.Once(s, step) && ToldOnce(s, count, steps, id)
    ensures ToldOnce(Apply(s, step), count, steps + [step], id)
  {
    assert (steps + [step])[..|steps|] == steps;
  }

  lemma {:induction false} RunToldOnce(
      count: nat, callback: Callback, states: seq<Group>, steps: seq<Step>, n: nat, id: Id)
    requires IsRun(states, steps) && states[0] == Initial(count, callback) && n < |states|
    ensures ToldOnce(states[n], count, steps[..n], id)
  {
    if n == 0 {
      StartToldOnce(count, callback, id);
      assert steps[..0] == [];
    } else {
      RunToldOnce(count, callback, states, steps, n - 1, id);
      RowsTold(count, callback, states, steps, n - 1, id);
      RunStep(states, steps, n - 1);
      assert steps[..n] == steps[..n - 1] + [steps[n - 1]];
      StepToldOnce(states[n - 1], count, steps[..n - 1], steps[n - 1], id);
    }
  }

  lemma StartToldOnce(count: nat, callback: Callback, id: Id)
    ensures ToldOnce(Initial(count, callback), count, [], id)
  {}

  lemma RunStep(states: seq<Group>, steps: seq<Step>, n: nat)
    requires IsRun(states, steps) && n < |steps|
    ensures Enabled(states[n], steps[n]) && JobGroups.Once(states[n], steps[n])
    ensures states[n + 1] == Apply(states[n], steps[n])
  {
    assert StepAt(states, steps, n);
  }

  /** The callback is due: the group has jobs, its callback a name and details, every job was ended by a step, and
      none failed. */
  ghost predicate Due(count: nat, jobType: Option<string>, details: map<string, string>, steps: seq<Step>) {
    && count > 0 && jobType.Some? && |jobType.value| > 0 && |details| > 0
    && forall id: Id | Member(count, steps, id) :: id in Ended(steps) && id !in Failed(steps)
  }

  /** In every run in which each job reports once, at every moment: the counter is the number of jobs that no step
      has ended, and the callback was enqueued exactly once if it is due, and else not at all. */
  lemma BarrierTold(
      count: nat, jobType: Option<string>, details: map<string, string>, states: seq<Group>, steps: seq<Step>,
      n: nat, waiting: set<Id>)
    requires IsRun(states, steps) && states[0] == Initial(count, Callback(jobType, details)) && n < |states|
    requires forall id: Id :: id in waiting <==> Member(count, steps[..n], id) && id !in Ended(steps[..n])
    ensures states[n].remaining == |waiting|
    ensures states[n].enqueued == if Due(count, jobType, details, steps[..n]) then 1 else 0
  {
    var callback, s := Callback(jobType, details), states[n];
    Barrier(count, callback, states, steps, n);
    SameCallback(count, callback, states, steps, n);
    forall id: Id ensures ToldOnce(s, count, steps[..n], id) {
      RunToldOnce(count, callback, states, steps, n, id);
    }
    if count == 0 {
      NoSteps(callback, states, steps);
      NoJobs(callback);
    } else {
      assert Member(count, steps[..n], 0) && ToldOnce(s, count, steps[..n], 0);
    }
    StateTold(s, count, jobType, details, steps[..n], waiting);
  }

  lemma NoJobs(callback: Callback)
    ensures Initial(0, callback).jobs == map[]
  {}

  lemma StateTold(
      s: Group, count: nat, jobType: Option<string>, details: map<string, string>, steps: seq<Step>, waiting: set<Id>)
    requires Inv(s) && s.callback == Callback(jobType, details) && (count == 0 <==> s.jobs == map[])
    requires forall id: Id :: ToldOnce(s, count, steps, id)
    requires forall id: Id :: id in waiting <==> Member(count, steps, id) && id !in Ended(steps)
    ensures s.remaining == |waiting| && s.enqueued == if Due(count, jobType, details, steps) then 1 else 0
  {
    forall id: Id ensures id in waiting <==> id in Unreported(s.attempts) { assert ToldOnce(s, count, steps, id); }
    assert waiting == Unreported(s.attempts);
    if count > 0 { DueTold(s, count, jobType, details, steps); }
  }

  lemma DueTold(s: Group, count: nat, jobType: Option<string>, details: map<string, string>, steps: seq<Step>)
    requires count > 0 && s.callback == Callback(jobType, details) && s.jobs != map[]
    requires forall id: Id :: ToldOnce(s, count, steps, id)
    ensures CallbackDue(s) <==> Due(count, jobType, details, steps)
  {
    assert |details| > 0 <==> details != map[];
    forall id: Id ensures id in s.jobs <==> Member(count, steps, id) { assert ToldOnce(s, count, steps, id); }
    if CallbackDue(s) {
      forall id: Id | Member(count, steps, id) ensures id in Ended(steps) && id !in Failed(steps) {
        assert ToldOnce(s, count, steps, id);
        assert id !in Unreported(s.attempts);
      }
    }
    if Due(count, jobType, details, steps) {
      forall id | id in s.attempts ensures Reported(s.attempts[id]) {
        assert ToldOnce(s, count, steps, id) && Member(count, steps, id);
      }
      assert Unreported(s.attempts) == {};
      forall id | id in s.jobs ensures s.jobs[id].error.None? {
        assert ToldOnce(s, count, steps, id) && Member(count, steps, id);
      }
    }
  }

  lemma NoSteps(callback: Callback, states: seq<Group>, steps: seq<Step>)
    requires IsFreeRun(states, steps) && states[0] == Initial(0, callback)
    ensures steps == []
  {
    if steps != [] {
      assert StepAt(states, steps, 0);
      EmptyGroupSilent(callback, steps[0]);
    }
  }
}
