/** A job group whose jobs are delivered again after a failure and terminated at any time: which steps keep its
    counter and callback right, and when the callback follows a job that failed. */
module GroupRetries {
  import opened Options
  import opened Jobs
  import opened JobGroups

  lemma SecondReportBreaks(s: Group, t: Group, id: Id)
    requires Inv(s) && id in s.jobs && s.remaining > 0
    requires t.attempts == s.attempts && t.jobs.Keys == s.jobs.Keys && t.remaining == s.remaining - 1
    ensures !Inv(t)
  {
    assert Unreported(t.attempts) == Unreported(s.attempts);
  }

  /** A step beyond `Once` that does no harm: a termination after the last report, or a job added by one that
      was terminated, as long as the callback was not enqueued. */
  predicate Harmless(s: Group, step: Step)
    requires Enabled(s, step)
  {
    match step
    case Terminate(id) => Reported(s.attempts[id]) && s.remaining == 0 && !CallbackDue(s)
    case AddJob(parent, _) => s.attempts[parent] == TerminatedInside && !CallbackDue(s)
    case _ => false
  }

  /** A step keeps the invariant exactly if it keeps to `Once` or is harmless. */
  lemma KeepsInvIff(s: Group, step: Step)
    requires Inv(s) && Enabled(s, step)
    ensures Inv(Apply(s, step)) <==> Once(s, step) || Harmless(s, step)
  {
    if Once(s, step) {
      StepKeepsInv(s, step);
    } else {
      match step
      case Start(id) => NewAttemptBreaks(s, id, WithStatus(s.jobs[id], Started, None), Performing);
      case SaveFailure(id, message) =>
        NewAttemptBreaks(s, id, WithStatus(JobRow(true, false, false, None), Failed, Some(message)), FailureSaved);
      case Terminate(id) => SecondTermination(s, id);
      case AddJob(parent, child) => LateChild(s, parent, child);
      case _ =>
    }
  }

  lemma NewAttemptBreaks(s: Group, id: Id, row: JobRow, attempt: Attempt)
    requires Inv(s) && id in s.jobs && Reported(s.attempts[id]) && !Reported(attempt)
    ensures !Inv(SetRow(s, id, row, attempt))
  {
    var t := SetRow(s, id, row, attempt);
    assert Unreported(t.attempts) == Unreported(s.attempts) + {id};
    assert id !in Unreported(s.attempts);
  }

  lemma SecondTermination(s: Group, id: Id)
    requires Inv(s) && id in s.jobs && Enabled(s, Terminate(id)) && !Once(s, Terminate(id))
    ensures Inv(Apply(s, Terminate(id))) <==> Harmless(s, Terminate(id))
  {
    var t := Apply(s, Terminate(id));
    assert AfterTermination(s.attempts[id]) == s.attempts[id];
    assert t.attempts == s.attempts && t.jobs.Keys == s.jobs.Keys;
    assert RowFits(s.jobs[id], s.attempts[id]);
    if s.remaining > 0 {
      SecondReportBreaks(s, t, id);
    } else {
      assert Unreported(s.attempts) == {} == Unreported(t.attempts);
      assert id !in Unreported(s.attempts);
      assert id in s.jobs && id in t.jobs;
    }
  }

  lemma LateChild(s: Group, parent: Id, child: Id)
    requires Inv(s) && Enabled(s, AddJob(parent, child)) && s.attempts[parent] == TerminatedInside
    ensures Inv(Apply(s, AddJob(parent, child))) <==> !CallbackDue(s)
  {
    var t := Apply(s, AddJob(parent, child));
    assert child in Unreported(t.attempts);
    assert !CallbackDue(t) && t.enqueued == s.enqueued;
    if s.enqueued == 0 { AddedFits(s, t, child); }
  }

  /** Terminating a failed job clears its error and reports once more: the callback is enqueued exactly if
      the counter is at most one, the callback is usable, and no other job has an error. */
  lemma FailedTerminationIff(s: Group, id: Id)
    requires Enabled(s, Terminate(id)) && s.jobs[id].error.Some?
    ensures Apply(s, Terminate(id)).enqueued > s.enqueued
       <==> s.remaining <= 1 && s.callback.Usable() && forall k | k in s.jobs && k != id :: s.jobs[k].error.None?
  {
    var t := Apply(s, Terminate(id));
    assert forall k | k in s.jobs && k != id :: t.jobs[k] == s.jobs[k];
  }

  /** The final retry of a failed job: the attempt reports, and the endpoint then terminates the job, which
      clears the error and reports again, so the callback comes although the job failed. */
  lemma FinalRetryCallsBack(callback: Callback, message: string)
    requires callback.Usable()
    ensures
      var a := Initial(1, callback);
      Enabled(a, Start(0))
      && var b := Apply(a, Start(0));
         Enabled(b, SaveFailure(0, message))
         && var c := Apply(b, SaveFailure(0, message));
            Enabled(c, ReportFailure(0))
            && var d := Apply(c, ReportFailure(0));
               Enabled(d, Terminate(0)) && d.jobs[0].error == Some(message)
               && d.remaining == 0 == d.enqueued && Apply(d, Terminate(0)).enqueued == 1
  {
    var a := Initial(1, callback);
    var c := Apply(Apply(a, Start(0)), SaveFailure(0, message));
    assert a.jobs.Keys == {0};
    assert 0 in c.jobs && c.jobs[0].error.Some?;
    var d := Apply(c, ReportFailure(0));
    FailedTerminationIff(d, 0);
  }

  /** The jobs whose last start, failure or termination was a failure. */
  function Failing(steps: seq<Step>): set<Id> {
    if steps == [] then {}
    else
      var before := Failing(steps[..|steps| - 1]);
      match steps[|steps| - 1]
      case SaveFailure(id, _) => before + {id}
      case Start(id) => before - {id}
      case Terminate(id) => before - {id}
      case _ => before
  }

  /** The jobs that failed at some time. */
  function EverFailed(steps: seq<Step>): set<Id> {
    if steps == [] then {}
    else
      var before := EverFailed(steps[..|steps| - 1]);
      if steps[|steps| - 1].SaveFailure? then before + {steps[|steps| - 1].id} else before
  }

  /** What holds in every run: how rows and attempts go together, and which jobs have an error. */
  ghost predicate FreeFits(s: Group, steps: seq<Step>, id: Id) {
    && (id in s.jobs <==> id in s.attempts)
    && (id in s.jobs ==>
          (s.attempts[id] == Performing ==> s.jobs[id] == JobRow(true, false, false, None))
          && (s.attempts[id] == TerminatedInside ==> s.jobs[id].Status() == Terminated))
    && (id in Failing(steps) <==> id in s.jobs && s.jobs[id].error.Some?)
  }

  lemma StepFreeFits(s: Group, steps: seq<Step>, step: Step, id: Id)
    requires Enabled(s, step) && FreeFits(s, steps, id)
    ensures FreeFits(Apply(s, step), steps + [step], id)
  {
    assert (steps + [step])[..|steps|] == steps;
  }

  lemma {:induction false} RunFreeFits(
      count: nat, callback: Callback, states: seq<Group>, steps: seq<Step>, n: nat, id: Id)
    requires IsFreeRun(states, steps) && states[0] == Initial(count, callback) && n < |states|
    ensures FreeFits(states[n], steps[..n], id)
  {
    if n > 0 {
      RunFreeFits(count, callback, states, steps, n - 1, id);
      assert StepAt(states, steps, n - 1);
      assert steps[..n] == steps[..n - 1] + [steps[n - 1]];
      StepFreeFits(states[n - 1], steps[..n - 1], steps[n - 1], id);
    }
  }

  /** The step reports to the group. */
  predicate Reports(s: Group, step: Step)
    requires Enabled(s, step)
  {
    match step
    case Succeed(id) => s.attempts[id] == Performing
    case ReportFailure(_) => true
    case Terminate(_) => true
    case _ => false
  }

  /** The report is the last one the counter waits for, and no job is failing once the step was taken. */
  predicate CallsBack(s: Group, steps: seq<Step>, step: Step)
    requires Enabled(s, step)
  {
    Reports(s, step) && s.remaining <= 1 && s.callback.Usable() && Failing(steps + [step]) == {}
  }

  lemma StepCallsBack(s: Group, steps: seq<Step>, step: Step)
    requires Enabled(s, step) && forall id :: FreeFits(s, steps, id)
    ensures Apply(s, step).enqueued == s.enqueued + if CallsBack(s, steps, step) then 1 else 0
  {
    var t := Apply(s, step);
    forall id ensures id in Failing(steps + [step]) <==> id in t.jobs && t.jobs[id].error.Some? {
      assert FreeFits(s, steps, id);
      StepFreeFits(s, steps, step, id);
    }
    if Reports(s, step) {
      assert NoneFailed(t.jobs) <==> Failing(steps + [step]) == {};
    }
    if step.Succeed? { assert FreeFits(s, steps, step.id); }
  }

  /** In every run, with retries and terminations as they come: a step enqueues the callback exactly if it
      reports, the counter is at most one, the callback is usable, and every job that ever failed was
      started or terminated since. */
  lemma FreeCallbackIff(count: nat, callback: Callback, states: seq<Group>, steps: seq<Step>, n: nat)
    requires IsFreeRun(states, steps) && states[0] == Initial(count, callback) && n < |steps|
    ensures StepAt(states, steps, n)
    ensures states[n + 1].enqueued == states[n].enqueued + if CallsBack(states[n], steps[..n], steps[n]) then 1 else 0
  {
    assert StepAt(states, steps, n);
    forall id ensures FreeFits(states[n], steps[..n], id) {
      RunFreeFits(count, callback, states, steps, n, id);
    }
    StepCallsBack(states[n], steps[..n], steps[n]);
  }

  lemma {:induction false} FailingFailed(steps: seq<Step>)
    ensures Failing(steps) <= EverFailed(steps)
  {
    if steps != [] { FailingFailed(steps[..|steps| - 1]); }
  }

  /** So the callback comes after a job failed exactly if that report is the last one awaited and each job that
      ever failed was started or terminated since, by this step at the latest. */
  lemma CallbackAfterFailureIff(
      count: nat, callback: Callback, states: seq<Group>, steps: seq<Step>, n: nat)
    requires IsFreeRun(states, steps) && states[0] == Initial(count, callback) && n < |steps|
    requires EverFailed(steps[..n]) != {}
    ensures StepAt(states, steps, n)
    ensures states[n + 1].enqueued > states[n].enqueued
       <==> Reports(states[n], steps[n]) && states[n].remaining <= 1 && callback.Usable()
            && EverFailed(steps[..n + 1]) !! Failing(steps[..n + 1])
  {
    FreeCallbackIff(count, callback, states, steps, n);
    assert steps[..n + 1] == steps[..n] + [steps[n]];
    SameCallback(count, callback, states, steps, n);
    FailingFailed(steps[..n + 1]);
  }
}
