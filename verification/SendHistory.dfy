/** Scheduled sends told from the events of a run: who asked for what is handed over, and what each event does. */
module SendHistory {
  import opened Options
  import opened ScheduledSend

  // ------------------------------------------------------------------ where rows and mails come from

  /** The fields of the job were asked for by a schedule of its mail. */
  ghost predicate AskedBy(events: seq<Event>, row: JobRow, i: nat) {
    i < |events| && events[i].Schedule? && events[i].message == row.args.message
    && row.args.sender == Some(events[i].user) && row.args.shouldArchive == events[i].shouldArchive
    && (row.performAt.Some? ==> row.performAt == Some(events[i].time))
  }

  ghost predicate RowAsked(events: seq<Event>, s: State, j: nat) {
    j in s.rows ==> exists i: nat :: AskedBy(events, s.rows[j], i)
  }

  lemma AskedLater(events: seq<Event>, e: Event, row: JobRow, i: nat)
    requires AskedBy(events, row, i)
    ensures AskedBy(events + [e], row, i)
    ensures AskedBy(events + [e], row.(ended := true), i) && AskedBy(events + [e], row.(performAt := None), i)
  {
    assert (events + [e])[i] == events[i];
  }

  lemma OldRowAsked(events: seq<Event>, e: Event, s: State, j: nat)
    requires RowAsked(events, s, j) && j in s.rows && j in Next(s, e).rows
    requires Next(s, e).rows[j] == s.rows[j] || Next(s, e).rows[j] == s.rows[j].(ended := true)
    ensures RowAsked(events + [e], Next(s, e), j)
  {
    var i: nat :| AskedBy(events, s.rows[j], i);
    AskedLater(events, e, s.rows[j], i);
  }

  lemma SweptRowAsked(events: seq<Event>, s: State, requests: map<nat, Request>, m: nat)
    requires Fitting(s, requests) && Carrying(s, requests) && IsScheduled(s, m)
    requires forall j :: RowAsked(events, s, j)
    ensures RowAsked(events + [SweepRow(m)], Next(s, SweepRow(m)), s.created)
  {
    assert MailFits(s, requests, m) && HasRow(s, m);
    var j := s.mails[m].jobId.value;
    assert RowAsked(events, s, j);
    var i: nat :| AskedBy(events, s.rows[j], i);
    AskedLater(events, SweepRow(m), s.rows[j], i);
    assert AskedBy(events + [SweepRow(m)], JobRow(s.rows[j].args, None, false), i);
  }

  lemma NextRowAsked(events: seq<Event>, e: Event, s: State, requests: map<nat, Request>, j: nat)
    requires Fitting(s, requests) && Carrying(s, requests) && forall k :: RowAsked(events, s, k)
    ensures RowAsked(events + [e], Next(s, e), j)
  {
    var t := Next(s, e);
    assert RowFits(s, j) && RowAsked(events, s, j);
    if j in t.rows {
      if j in s.rows {
        OldRowAsked(events, e, s, j);
      } else if e.SweepRow? {
        SweptRowAsked(events, s, requests, e.message);
      } else {
        assert (events + [e])[|events|] == e;
        assert AskedBy(events + [e], t.rows[j], |events|);
      }
    }
  }

  /** While no referenced row is purged, every job carries what some schedule of its mail asked for. */
  lemma {:induction false} RowsAsked(events: seq<Event>, j: nat)
    requires KeepsRows(events)
    ensures RowAsked(events, Run(events), j)
  {
    if events != [] {
      var before := events[..|events| - 1];
      forall k ensures RowAsked(before, Run(before), k) { RowsAsked(before, k); }
      RunFits(before);
      RunCarries(before);
      NextRowAsked(before, events[|events| - 1], Run(before), Requests(before), j);
      assert events == before + [events[|events| - 1]];
    }
  }

  // ------------------------------------------------------------------ what is handed over

  ghost predicate SentNow(events: seq<Event>, h: Handed) {
    exists i :: 0 <= i < |events| && events[i] == SendNow(h.message, h.sender, h.shouldArchive)
  }

  /** An allowed fire for the mail, after a schedule with this sender and archive choice. */
  ghost predicate FiredFor(events: seq<Event>, h: Handed, i: nat, j: nat) {
    i < j < |events| && events[i].Schedule? && events[i].message == h.message
    && events[i].user == h.sender && events[i].shouldArchive == h.shouldArchive
    && events[j].Fire? && events[j].allowed && events[j].draft == h.message
  }

  ghost predicate HandedAsked(events: seq<Event>, h: Handed) {
    SentNow(events, h) || exists i: nat, j: nat :: FiredFor(events, h, i, j)
  }

  lemma HandedAskedLater(events: seq<Event>, e: Event, h: Handed)
    requires HandedAsked(events, h)
    ensures HandedAsked(events + [e], h)
  {
    var all := events + [e];
    if SentNow(events, h) {
      var i :| 0 <= i < |events| && events[i] == SendNow(h.message, h.sender, h.shouldArchive);
      assert all[i] == events[i];
    } else {
      var i: nat, j: nat :| FiredFor(events, h, i, j);
      assert all[i] == events[i] && all[j] == events[j];
      assert FiredFor(all, h, i, j);
    }
  }

  lemma FireAsked(events: seq<Event>, s: State, job: nat, draft: nat)
    requires OneDraft(s) && Fires(s, job, true, draft) && RowFits(s, job) && RowAsked(events, s, job)
    ensures
      var e := Fire(job, true, draft);
      |Next(s, e).handed| == |s.handed| + 1 && HandedAsked(events + [e], Next(s, e).handed[|s.handed|])
  {
    var e := Fire(job, true, draft);
    var i: nat :| AskedBy(events, s.rows[job], i);
    var all, h := events + [e], Next(s, e).handed[|s.handed|];
    assert IsDraft(s, s.rows[job].args.message) && IsDraft(s, draft);
    assert all[i] == events[i] && all[|events|] == e;
    assert FiredFor(all, h, i, |events|);
  }

  lemma NextHandedAsked(events: seq<Event>, e: Event, s: State, k: nat)
    requires OneDraft(s) && (forall j :: RowFits(s, j)) && forall j :: RowAsked(events, s, j)
    requires forall i | 0 <= i < |s.handed| :: HandedAsked(events, s.handed[i])
    requires k < |Next(s, e).handed|
    ensures HandedAsked(events + [e], Next(s, e).handed[k])
  {
    if k < |s.handed| {
      assert Next(s, e).handed[k] == s.handed[k];
      HandedAskedLater(events, e, s.handed[k]);
    } else if e.SendNow? {
      assert (events + [e])[|events|] == e;
    } else {
      assert e.Fire? && Fires(s, e.job, e.allowed, e.draft);
      assert RowFits(s, e.job) && RowAsked(events, s, e.job);
      FireAsked(events, s, e.job, e.draft);
    }
  }

  /** While no mail goes back from sending and no referenced row is purged: whatever is handed over was sent at once
      by someone with this choice, or scheduled so and then fired with permission. */
  lemma {:induction false} EveryHandOverAsked(events: seq<Event>, k: nat)
    requires NoReverts(events) && KeepsRows(events) && k < |Run(events).handed|
    ensures HandedAsked(events, Run(events).handed[k])
  {
    if events != [] {
      var before, e := events[..|events| - 1], events[|events| - 1];
      assert events == before + [e] && forall f | f in before :: f in events;
      var s := Run(before);
      forall i: nat | i < |s.handed| ensures HandedAsked(before, s.handed[i]) { EveryHandOverAsked(before, i); }
      forall j: nat ensures RowAsked(before, s, j) { RowsAsked(before, j); }
      RunFits(before);
      RunOneDraft(before);
      NextHandedAsked(before, e, s, k);
    }
  }

  // ------------------------------------------------------------------ what each event does

  /** An immediate send of a draft that is not scheduled hands it over with the sender and the choice given. */
  lemma SendNowSends(s: State, m: nat, user: nat, shouldArchive: bool)
    ensures
      var t := Next(s, SendNow(m, user, shouldArchive));
      if m in s.mails && !s.mails[m].sending && s.mails[m].scheduledFor.None? then
        m in t.mails && t.mails[m].sending && t.handed == s.handed + [Handed(m, user, shouldArchive)]
      else t == s
  {}

  /** A schedule of such a draft sets its time and points it to a new job for then. */
  lemma ScheduleSets(s: State, m: nat, user: nat, shouldArchive: bool, time: nat)
    ensures
      var t := Next(s, Schedule(m, user, shouldArchive, time));
      if m in s.mails && !s.mails[m].sending && s.mails[m].scheduledFor.None? then
        m in t.mails && !t.mails[m].sending && t.mails[m].scheduledFor == Some(time)
        && t.mails[m].jobId.Some? && t.mails[m].jobId.value == s.created
        && s.created in t.rows && t.rows[s.created].performAt == Some(time) && !t.rows[s.created].ended
        && t.rows[s.created].args == Args(s.mails[m].thread, m, Some(user), shouldArchive)
        && t.handed == s.handed
      else t == s
  {}

  /** A fire hands the thread's draft over if it is allowed, its job is there and has not ended, and the mail of the
      job is scheduled; otherwise it does nothing. */
  lemma FireSends(s: State, job: nat, allowed: bool, draft: nat)
    ensures
      var t := Next(s, Fire(job, allowed, draft));
      if allowed && job in s.rows && !s.rows[job].ended && s.rows[job].args.message in s.mails
         && !s.mails[s.rows[job].args.message].sending && s.mails[s.rows[job].args.message].scheduledFor.Some?
         && draft in s.mails && !s.mails[draft].sending && s.mails[draft].thread == s.rows[job].args.thread
      then
        var args := s.rows[job].args;
        var sender := if args.sender.Some? then args.sender.value else s.mails[args.message].owner;
        draft in t.mails && t.mails[draft].sending && t.mails[draft].scheduledFor.None?
        && t.handed == s.handed + [Handed(draft, sender, args.shouldArchive)]
      else t == s
  {}

  /** A row of the sweep points a scheduled mail to a new job that fires at once, with the fields of the job it
      pointed to, or a plain send of the owner when that is gone. */
  lemma SweepMakes(s: State, m: nat)
    ensures
      var t := Next(s, SweepRow(m));
      if m in s.mails && !s.mails[m].sending && s.mails[m].scheduledFor.Some? then
        var mail := s.mails[m];
        m in t.mails && t.mails[m] == mail.(jobId := Some(s.created)) && t.created == s.created + 1
        && s.created in t.rows && t.rows[s.created].performAt.None? && !t.rows[s.created].ended
        && t.rows[s.created].args
           == (if mail.jobId.Some? && mail.jobId.value in s.rows then s.rows[mail.jobId.value].args
               else Args(mail.thread, m, Some(mail.owner), false))
        && t.handed == s.handed
      else t == s
  {}

  /** Once a job has ended it is gone or has ended for good, so that no fire of it does anything. */
  lemma {:induction false} EndedStays(before: seq<Event>, after: seq<Event>, job: nat)
    requires job < Run(before).created
    ensures
      var s := Run(before + [End(job)] + after);
      job < s.created && (job !in s.rows || s.rows[job].ended)
  {
    var all := before + [End(job)] + after;
    if after == [] {
      assert all[..|before|] == before && all[|before|] == End(job) && |all| == |before| + 1;
    } else {
      var n := |after| - 1;
      assert all[..|all| - 1] == before + [End(job)] + after[..n] && all[|all| - 1] == after[n];
      EndedStays(before, after[..n], job);
    }
  }

  /** Once a mail was deleted it stays away. */
  lemma {:induction false} DeletedStays(before: seq<Event>, after: seq<Event>, m: nat)
    requires m < Run(before).made
    ensures var s := Run(before + [Delete(m)] + after); m < s.made && m !in s.mails
  {
    var all := before + [Delete(m)] + after;
    if after == [] {
      assert all[..|before|] == before && all[|before|] == Delete(m) && |all| == |before| + 1;
    } else {
      var n := |after| - 1;
      assert all[..|all| - 1] == before + [Delete(m)] + after[..n] && all[|all| - 1] == after[n];
      DeletedStays(before, after[..n], m);
    }
  }

  /** After an unschedule a mail is not handed over until it is scheduled or sent, whatever fires. */
  lemma UnscheduleHolds(before: seq<Event>, after: seq<Event>, m: nat)
    requires NoReverts(before + [Unschedule(m)] + after) && m < Run(before).made
    requires forall e | e in after :: !(e.Schedule? && e.message == m) && !(e.SendNow? && e.message == m)
    ensures
      var s := Run(before + [Unschedule(m)] + after);
      !IsScheduled(s, m) && HandedCount(s.handed, m) == HandedCount(Run(before).handed, m)
  {
    var first := before + [Unschedule(m)];
    assert first[..|before|] == before && first[|before|] == Unschedule(m);
    UnscheduledStays(first, after, m);
  }

  // ------------------------------------------------------------------ mails

  ghost predicate MadeBy(events: seq<Event>, mail: Mail, i: nat) {
    i < |events| && events[i].Create? && events[i].thread == mail.thread && events[i].owner == mail.owner
  }

  /** Every mail has the thread and the owner it was created with. */
  lemma {:induction false} MailsMade(events: seq<Event>, m: nat)
    requires m in Run(events).mails
    ensures exists i: nat :: MadeBy(events, Run(events).mails[m], i)
  {
    if events != [] {
      var before, e := events[..|events| - 1], events[|events| - 1];
      var mail := Run(events).mails[m];
      if m in Run(before).mails && Run(before).mails[m].thread == mail.thread && Run(before).mails[m].owner == mail.owner {
        MailsMade(before, m);
        var i: nat :| MadeBy(before, Run(before).mails[m], i);
        assert events[i] == before[i] && MadeBy(events, mail, i);
      } else {
        RunFits(before);
        assert MailFits(Run(before), Requests(before), m);
        assert e.Create? && MadeBy(events, mail, |before|);
      }
    }
  }

  /** A draft is started unless its thread has one, which must be the one it replaces. */
  lemma CreateStarts(s: State, thread: nat, owner: nat, replaced: Option<nat>)
    requires forall m | m in s.mails :: m < s.made
    ensures
      var t := Next(s, Create(thread, owner, replaced));
      if (if replaced.Some? then IsDraft(s, replaced.value) && s.mails[replaced.value].thread == thread
          else !exists m | m in s.mails :: !s.mails[m].sending && s.mails[m].thread == thread)
      then
        t.made == s.made + 1 && s.made in t.mails && t.mails[s.made] == Mail(thread, owner, false, None, None)
        && (forall m | m in s.mails :: m in t.mails <==> replaced != Some(m))
      else t == s
  {}
}
