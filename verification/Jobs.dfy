/** One background job: its row, one attempt at running it, and the endpoint Cloud Tasks calls until
    the job is done. Times are kept as "set or not". */
module Jobs {
  import opened Options

  datatype Status = Enqueued | Started | Successful | Failed | Terminated

  datatype JobRow = JobRow(started: bool, completed: bool, terminated: bool, error: Option<string>) {
    /** `Job.status`, with the scheduled and dead refinements of "enqueued" left together. An empty
        error message does not count as a failure here. */
    function Status(): Status {
      if terminated then Terminated
      else if completed then Successful
      else if error.Some? && error.value != "" then Failed
      else if started then Started
      else Enqueued
    }

    predicate IsCompleted() {
      Status() == Successful || Status() == Terminated
    }
  }

  const FRESH := JobRow(false, false, false, None)

  function WithStatus(row: JobRow, status: Status, error: Option<string>): JobRow {
    JobRow(row.started || status == Started, row.completed || status == Successful,
           row.terminated || status == Terminated, if status == Failed then error else None)
  }

  /** What `perform` does in one attempt: it may terminate its own row (by rescheduling the job),
      and then returns, raises, or dies with its process. */
  datatype Ending = Returns | Raises(message: string) | Dies
  datatype Outcome = Outcome(terminatesRow: bool, ending: Ending)

  /** What the endpoint answers; Cloud Tasks delivers a job again unless it was accepted. */
  datatype Response = Accepted | NotFound | ServerError | NoAnswer

  /** The row after `Job.run`. A raise saves the instance the attempt started with, so it undoes a
      termination made meanwhile. */
  function Ran(row: JobRow, outcome: Outcome): JobRow {
    var started := WithStatus(row, Started, None);
    var current := if outcome.terminatesRow then WithStatus(started, Terminated, None) else started;
    match outcome.ending
    case Returns => if current.Status() == Started then WithStatus(current, Successful, None) else current
    case Raises(message) => WithStatus(started, Failed, Some(message))
    case Dies => current
  }

  /** The endpoint on delivery number `count`: whether it ran the job, and the row it leaves. */
  function Delivered(row: JobRow, count: nat, limit: nat, outcome: Outcome): (bool, JobRow) {
    if row.IsCompleted() then (false, row)
    else if count == limit then
      var ran := Ran(row, outcome);
      (true, if outcome.ending.Dies? || ran.IsCompleted() then ran else WithStatus(ran, Terminated, None))
    else if count > limit then (false, WithStatus(row, Terminated, None))
    else (true, Ran(row, outcome))
  }

  class Job {
    var started: bool
    var completed: bool
    var terminated: bool
    var error: Option<string>

    function Row(): JobRow
      reads this
    {
      JobRow(started, completed, terminated, error)
    }

    constructor ()
      ensures Row() == FRESH
    {
      started, completed, terminated, error := false, false, false, None;
    }

    method SetStatus(status: Status, message: Option<string>)
      modifies this
      ensures Row() == WithStatus(old(Row()), status, message)
    {
      error := None;
      if status == Terminated { terminated := true; }
      if status == Successful { completed := true; }
      if status == Started { started := true; }
      if status == Failed { error := message; }
    }

    method Run(outcome: Outcome) returns (raised: bool)
      modifies this
      ensures Row() == Ran(old(Row()), outcome)
      ensures raised <==> outcome.ending.Raises?
    {
      SetStatus(Started, None);
      var instance := Row();
      if outcome.terminatesRow { SetStatus(Terminated, None); }
      raised := false;
      match outcome.ending {
        case Returns =>
          if Row().Status() == Started { SetStatus(Successful, None); }
        case Raises(message) =>
          started, completed, terminated := instance.started, instance.completed, instance.terminated;
          SetStatus(Failed, Some(message));
          raised := true;
        case Dies =>
      }
    }

    /** `perform_job_endpoint`, of the row with the id it was called with, if there is one. A job that was
        accepted is done, and one that is answered with an error is not. */
    static method Deliver(job: Job?, count: nat, limit: nat, outcome: Outcome)
      returns (performed: bool, response: Response)
      modifies job
      ensures job == null ==> !performed && response == NotFound
      ensures job != null ==>
        && (performed, job.Row()) == Delivered(old(job.Row()), count, limit, outcome)
        && response != NotFound && (response == NoAnswer <==> performed && outcome.ending.Dies?)
        && (response == Accepted ==> job.Row().IsCompleted())
        && (response == ServerError ==> !job.Row().IsCompleted())
    {
      if job == null { return false, NotFound; }
      performed, response := false, Accepted;
      if job.Row().IsCompleted() { return; }
      if count == limit {
        var _ := job.Run(outcome);
        performed := true;
        if outcome.ending.Dies? { return true, NoAnswer; }
        if !job.Row().IsCompleted() { job.SetStatus(Terminated, None); }
      } else if count > limit {
        job.SetStatus(Terminated, None);
      } else {
        var raised := job.Run(outcome);
        performed := true;
        response := if outcome.ending.Dies? then NoAnswer else if raised then ServerError else Accepted;
      }
    }
  }

  // ------------------------------------------------------------------ consecutive deliveries

  /** The row after deliveries 0, 1, 2, … with these outcomes. */
  function After(limit: nat, outcomes: seq<Outcome>): JobRow {
    if outcomes == [] then FRESH
    else
      var n := |outcomes| - 1;
      Delivered(After(limit, outcomes[..n]), n, limit, outcomes[n]).1
  }

  /** How often those deliveries ran the job. */
  function Performed(limit: nat, outcomes: seq<Outcome>): nat {
    if outcomes == [] then 0
    else
      var n := |outcomes| - 1;
      Performed(limit, outcomes[..n])
      + if Delivered(After(limit, outcomes[..n]), n, limit, outcomes[n]).0 then 1 else 0
  }

  /** Whatever the attempts do, the job runs at most `limit + 1` times, and never on a completed or
      terminated row. */
  lemma {:induction false} RetryBound(limit: nat, outcomes: seq<Outcome>)
    ensures Performed(limit, outcomes) <= if |outcomes| <= limit then |outcomes| else limit + 1
    ensures forall n :: 0 <= n < |outcomes| && After(limit, outcomes[..n]).IsCompleted() ==>
              After(limit, outcomes[..n + 1]) == After(limit, outcomes[..n])
              && Performed(limit, outcomes[..n + 1]) == Performed(limit, outcomes[..n])
  {
    if outcomes != [] {
      var n := |outcomes| - 1;
      RetryBound(limit, outcomes[..n]);
      forall k | 0 <= k < |outcomes| && After(limit, outcomes[..k]).IsCompleted()
        ensures After(limit, outcomes[..k + 1]) == After(limit, outcomes[..k])
        ensures Performed(limit, outcomes[..k + 1]) == Performed(limit, outcomes[..k])
      {
        assert outcomes[..k + 1][..k] == outcomes[..k];
      }
    }
  }

  /** The job is completed or terminated by the first delivery numbered `limit` or more whose process
      survives, and stays so. */
  lemma {:induction false} DoneByLimit(limit: nat, outcomes: seq<Outcome>)
    ensures After(limit, outcomes).IsCompleted()
         || forall n :: limit <= n < |outcomes| ==> n == limit && outcomes[n].ending.Dies?
  {
    if outcomes != [] {
      DoneByLimit(limit, outcomes[..|outcomes| - 1]);
    }
  }

  // ------------------------------------------------------------------ how a job ends

  /** Delivery number n ends the job: it returns, it was terminated and dies, it raises on the final retry, or it
      comes after that. */
  predicate Finishes(limit: nat, n: nat, o: Outcome) {
    n > limit || o.ending.Returns? || (o.ending.Dies? && o.terminatesRow) || (n == limit && o.ending.Raises?)
  }

  /** While no delivery has ended the job it is not done, every delivery performed it, and its error is that of the
      last one. */
  lemma {:induction false} NotFinished(limit: nat, outcomes: seq<Outcome>)
    requires forall k | 0 <= k < |outcomes| :: !Finishes(limit, k, outcomes[k])
    ensures !After(limit, outcomes).IsCompleted() && Performed(limit, outcomes) == |outcomes|
    ensures outcomes != [] ==>
      var last := outcomes[|outcomes| - 1].ending;
      After(limit, outcomes) == JobRow(true, false, false, if last.Raises? then Some(last.message) else None)
  {
    if outcomes != [] {
      var n := |outcomes| - 1;
      NotFinished(limit, outcomes[..n]);
      assert !Finishes(limit, n, outcomes[n]);
    }
  }

  /** The first delivery that ends the job decides: it is successful if that one performed it, returned and was not
      terminated meanwhile, and terminated otherwise; nothing performs it again. */
  lemma {:induction false} FirstDecides(limit: nat, outcomes: seq<Outcome>, n: nat)
    requires n < |outcomes| && Finishes(limit, n, outcomes[n])
    requires forall k | 0 <= k < n :: !Finishes(limit, k, outcomes[k])
    ensures
      After(limit, outcomes).Status()
      == if n <= limit && outcomes[n].ending.Returns? && !outcomes[n].terminatesRow then Successful else Terminated
    ensures Performed(limit, outcomes) == if n <= limit then n + 1 else n
  {
    var m := |outcomes| - 1;
    if n < m {
      FirstDecides(limit, outcomes[..m], n);
    } else {
      NotFinished(limit, outcomes[..m]);
      if m > 0 { assert outcomes[..m] != []; }
    }
  }
}
