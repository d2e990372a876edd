/** The transactions of scheduled sends on the tables: the endpoints, the fire job and the sweeper. */
module ScheduledDrafts {
  import opened Options
  import opened ScheduledSend

  const SCHEDULED_SEND_SWEEP_LIMIT := 500

  /** More transactions after a state. */
  function RunFrom(s: State, events: seq<Event>): State {
    if events == [] then s else Next(RunFrom(s, events[..|events| - 1]), events[|events| - 1])
  }

  /** The sweeper on the rows it found, one transaction each; others may come before the k-th of them. */
  function Swept(s: State, ids: seq<nat>, between: nat -> seq<Event>): State {
    if ids == [] then s
    else
      var n := |ids| - 1;
      Next(RunFrom(Swept(s, ids[..n], between), between(n)), SweepRow(ids[n]))
  }

  class Tables {
    var mails: map<nat, Mail>
    var made: nat
    var rows: map<nat, JobRow>
    var created: nat
    /** What was handed to the email client. */
    var handed: seq<Handed>

    constructor ()
      ensures View() == Run([])
    {
      mails, made, rows, created, handed := map[], 0, map[], 0, [];
    }

    function View(): State
      reads this
    {
      State(mails, made, rows, created, handed)
    }

    /** `start_draft`, and the conflict before it: a thread's draft is removed first when it is to be replaced. */
    method CreateDraft(thread: nat, owner: nat, replaced: Option<nat>) returns (ok: bool)
      modifies this
      ensures View() == Next(old(View()), Create(thread, owner, replaced))
      ensures ok <==> old(MayStart(View(), thread, replaced))
    {
      ok := if replaced.Some? then
              replaced.value in mails && !mails[replaced.value].sending && mails[replaced.value].thread == thread
            else !exists m | m in mails :: !mails[m].sending && mails[m].thread == thread;
      if ok {
        if replaced.Some? { mails := mails - {replaced.value}; }
        mails := mails[made := Mail(thread, owner, false, None, None)];
        made := made + 1;
      }
    }

    /** `enqueue_job` of a `ScheduledDraftSendJob`. */
    method EnqueueJob(args: Args, performAt: Option<nat>) returns (job: nat)
      modifies this`rows, this`created
      ensures job == old(created) && created == old(created) + 1
      ensures rows == old(rows)[job := JobRow(args, performAt, false)]
    {
      job := created;
      rows := rows[job := JobRow(args, performAt, false)];
      created := created + 1;
    }

    /** `api_email_drafts_schedule`, under the row lock; false is a conflict. */
    method ScheduleDraft(m: nat, user: nat, shouldArchive: bool, time: nat) returns (ok: bool)
      modifies this
      ensures View() == Next(old(View()), Schedule(m, user, shouldArchive, time))
      ensures ok <==> old(IsDraft(View(), m) && !IsScheduled(View(), m))
    {
      ok := m in mails && !mails[m].sending && mails[m].scheduledFor.None?;
      if ok {
        var job := EnqueueJob(Args(mails[m].thread, m, Some(user), shouldArchive), Some(time));
        mails := mails[m := mails[m].(scheduledFor := Some(time), jobId := Some(job))];
      }
    }

    /** `send_draft`, with `mark_draft_sending`. */
    method SendDraft(m: nat, sender: nat, shouldArchive: bool)
      requires IsDraft(View(), m)
      modifies this`mails, this`handed
      ensures View() == Sent(old(View()), m, sender, shouldArchive)
    {
      mails := mails[m := mails[m].(sending := true, scheduledFor := None, jobId := None)];
      handed := handed + [Handed(m, sender, shouldArchive)];
    }

    /** The immediate send, under the row lock. */
    method SendDraftNow(m: nat, user: nat, shouldArchive: bool) returns (ok: bool)
      modifies this
      ensures View() == Next(old(View()), SendNow(m, user, shouldArchive))
      ensures ok <==> old(IsDraft(View(), m) && !IsScheduled(View(), m))
    {
      ok := m in mails && !mails[m].sending && mails[m].scheduledFor.None?;
      if ok { SendDraft(m, user, shouldArchive); }
    }

    /** The transaction of `api_email_drafts_unschedule`, and the job to cancel after it. */
    method UnscheduleDraft(m: nat) returns (ok: bool, job: Option<nat>)
      modifies this
      ensures View() == Next(old(View()), Unschedule(m))
      ensures ok <==> old(IsScheduled(View(), m))
      ensures job == if ok then old(mails)[m].jobId else None
    {
      ok := m in mails && !mails[m].sending && mails[m].scheduledFor.Some?;
      job := None;
      if ok {
        job := mails[m].jobId;
        mails := mails[m := mails[m].(scheduledFor := None, jobId := None)];
      }
    }

    /** `cancel_job`: the row is terminated when the task is reached, which is best effort. */
    method CancelJob(job: Option<nat>, reached: bool)
      modifies this`rows
      ensures View() == if job.Some? && reached then Next(old(View()), End(job.value)) else old(View())
    {
      if job.Some? && reached && job.value in rows {
        rows := rows[job.value := rows[job.value].(ended := true)];
      }
    }

    /** The transaction of `api_email_drafts_delete`, of a message that was a draft when it was looked up; its
        job is cancelled after it. */
    method DeleteDraft(m: nat)
      modifies this
      ensures View() == Next(old(View()), Delete(m))
    {
      mails := mails - {m};
    }

    /** `ScheduledDraftSendJob.perform`; `draft` is the draft the thread gives. */
    method FireJob(job: nat, allowed: bool, draft: nat)
      modifies this
      ensures View() == Next(old(View()), Fire(job, allowed, draft))
    {
      if job !in rows || rows[job].ended { return; }
      var args := rows[job].args;
      if args.message !in mails { return; }
      var locked := mails[args.message];
      if locked.sending || locked.scheduledFor.None? { return; }
      var sender := if args.sender.Some? then args.sender.value else locked.owner;
      if !allowed { return; }
      if draft !in mails || mails[draft].sending || mails[draft].thread != args.thread { return; }
      SendDraft(draft, sender, args.shouldArchive);
    }

    /** `_rebuild_send_job` */
    method RebuildSendJob(m: nat) returns (args: Args)
      requires m in mails
      ensures args == Rebuilt(View(), m)
    {
      var mail := mails[m];
      if mail.jobId.Some? && mail.jobId.value in rows {
        return rows[mail.jobId.value].args;
      }
      args := Args(mail.thread, m, Some(mail.owner), false);
    }

    /** One row of the sweep: lock, check again, enqueue, point to the new job. */
    method SweepMail(m: nat)
      modifies this
      ensures View() == Next(old(View()), SweepRow(m))
    {
      if m !in mails || mails[m].sending || mails[m].scheduledFor.None? { return; }
      var args := RebuildSendJob(m);
      var job := EnqueueJob(args, None);
      mails := mails[m := mails[m].(jobId := Some(job))];
    }

    /** The query of the sweep: overdue mails, all of them unless the limit is reached. */
    method FindOverdue(cutoff: nat) returns (ids: seq<nat>)
      requires forall m | m in mails :: m < made
      ensures |ids| <= SCHEDULED_SEND_SWEEP_LIMIT
      ensures forall m | m in ids :: IsOverdue(View(), m, cutoff)
      ensures |ids| < SCHEDULED_SEND_SWEEP_LIMIT ==> forall m: nat | IsOverdue(View(), m, cutoff) :: m in ids
    {
      ids := [];
      var m := 0;
      while m < made && |ids| < SCHEDULED_SEND_SWEEP_LIMIT
        invariant m <= made && |ids| <= SCHEDULED_SEND_SWEEP_LIMIT
        invariant forall k | k in ids :: IsOverdue(View(), k, cutoff)
        invariant forall k: nat | k < m && IsOverdue(View(), k, cutoff) :: k in ids
      {
        if m in mails && !mails[m].sending && mails[m].scheduledFor.Some? && mails[m].scheduledFor.value <= cutoff {
          ids := ids + [m];
        }
        m := m + 1;
      }
    }

    /** `SweepOverdueScheduledDraftsJob.perform`, with the transactions that come between its rows. */
    method SweepOverdue(cutoff: nat, between: nat -> seq<Event>) returns (ids: seq<nat>)
      requires forall m | m in mails :: m < made
      modifies this
      ensures View() == Swept(old(View()), ids, between) && |ids| <= SCHEDULED_SEND_SWEEP_LIMIT
      ensures forall m | m in ids :: IsOverdue(old(View()), m, cutoff)
      ensures |ids| < SCHEDULED_SEND_SWEEP_LIMIT ==> forall m: nat | IsOverdue(old(View()), m, cutoff) :: m in ids
    {
      ids := FindOverdue(cutoff);
      for i := 0 to |ids|
        invariant View() == Swept(old(View()), ids[..i], between)
      {
        assert ids[..i + 1][..i] == ids[..i];
        TakeSteps(between(i));
        SweepMail(ids[i]);
      }
      assert ids[..|ids|] == ids;
    }

    method TakeSteps(events: seq<Event>)
      modifies this
      ensures View() == RunFrom(old(View()), events)
    {
      for i := 0 to |events|
        invariant View() == RunFrom(old(View()), events[..i])
      {
        assert events[..i + 1][..i] == events[..i];
        Step(events[i]);
      }
      assert events[..|events|] == events;
    }

    method Step(e: Event)
      modifies this
      ensures View() == Next(old(View()), e)
    {
      match e
      case Create(thread, owner, replaced) => var _ := CreateDraft(thread, owner, replaced);
      case Schedule(m, user, shouldArchive, time) => var _ := ScheduleDraft(m, user, shouldArchive, time);
      case SendNow(m, user, shouldArchive) => var _ := SendDraftNow(m, user, shouldArchive);
      case Unschedule(m) => var _, _ := UnscheduleDraft(m);
      case Delete(m) => DeleteDraft(m);
      case Fire(job, allowed, draft) => FireJob(job, allowed, draft);
      case SweepRow(m) => SweepMail(m);
      case End(job) => CancelJob(Some(job), true);
      case Purge(job) => rows := rows - {job};
      case Revert(m) =>
        if m in mails && mails[m].sending { mails := mails[m := mails[m].(sending := false)]; }
    }

    /** Any interleaving of transactions. */
    method RunEvents(events: seq<Event>)
      requires View() == Run([])
      modifies this
      ensures View() == Run(events)
    {
      for i := 0 to |events|
        invariant View() == Run(events[..i])
      {
        assert events[..i + 1][..i] == events[..i];
        Step(events[i]);
      }
      assert events[..|events|] == events;
    }
  }
}
