/** Scheduled sends: drafts that are scheduled, unscheduled, fired by their jobs, swept and deleted, in any
    interleaving of transactions. */
module ScheduledSend {
  import opened Options

  /** A mail is a draft until it is sending. */
  datatype Mail = Mail(thread: nat, owner: nat, sending: bool, scheduledFor: Option<nat>, jobId: Option<nat>)

  /** The fields of a `ScheduledDraftSendJob`. */
  datatype Args = Args(thread: nat, message: nat, sender: Option<nat>, shouldArchive: bool)
  /** A job has ended when its row says completed or terminated. */
  datatype JobRow = JobRow(args: Args, performAt: Option<nat>, ended: bool)

  /** A mail handed to the email client, and the archive choice it was sent with. */
  datatype Handed = Handed(message: nat, sender: nat, shouldArchive: bool)

  /** The tables, the numbers given to mails and jobs so far, and what was handed over. */
  datatype State = State(mails: map<nat, Mail>, made: nat, rows: map<nat, JobRow>, created: nat, handed: seq<Handed>)

  /** One transaction. A job may end at any time, by being performed or by a cancel that reaches its task. A
      fire may come at any time and any number of times, lost tasks never come; the
      draft it finds on its thread is any draft there. A delete saw a draft before its transaction, without
      the lock, so it may meet a mail that is sending by then. */
  datatype Event =
    | Create(thread: nat, owner: nat, replaced: Option<nat>)
    | Schedule(message: nat, user: nat, shouldArchive: bool, time: nat)
    | SendNow(message: nat, user: nat, shouldArchive: bool)
    | Unschedule(message: nat)
    | Delete(message: nat)
    | Fire(job: nat, allowed: bool, draft: nat)
    | SweepRow(message: nat)
    | End(job: nat)
    | Purge(job: nat)
    | Revert(message: nat)

  predicate IsDraft(s: State, m: nat) {
    m in s.mails && !s.mails[m].sending
  }

  predicate IsScheduled(s: State, m: nat) {
    IsDraft(s, m) && s.mails[m].scheduledFor.Some?
  }

  /** A draft is started on a thread that has none, or in place of the one it has. */
  predicate MayStart(s: State, thread: nat, replaced: Option<nat>) {
    if replaced.Some? then IsDraft(s, replaced.value) && s.mails[replaced.value].thread == thread
    else forall m | m in s.mails :: s.mails[m].sending || s.mails[m].thread != thread
  }

  /** `send_draft`: the draft is marked sending, its schedule is cleared, and it is handed over. */
  function Sent(s: State, m: nat, sender: nat, shouldArchive: bool): State
    requires IsDraft(s, m)
  {
    s.(mails := s.mails[m := s.mails[m].(sending := true, scheduledFor := None, jobId := None)],
       handed := s.handed + [Handed(m, sender, shouldArchive)])
  }

  /** The mail whose thread a fire looks up, when it is still scheduled and may be sent. */
  predicate Fires(s: State, job: nat, allowed: bool, draft: nat) {
    job in s.rows && !s.rows[job].ended && allowed
    && var a := s.rows[job].args;
       IsScheduled(s, a.message) && IsDraft(s, draft) && s.mails[draft].thread == a.thread
  }

  function SenderOf(s: State, a: Args): nat
    requires a.message in s.mails
  {
    if a.sender.Some? then a.sender.value else s.mails[a.message].owner
  }

  /** `_rebuild_send_job`: the fields of the job that was meant to fire, or a plain send. */
  function Rebuilt(s: State, m: nat): Args
    requires m in s.mails
  {
    var j := s.mails[m].jobId;
    if j.Some? && j.value in s.rows then s.rows[j.value].args
    else Args(s.mails[m].thread, m, Some(s.mails[m].owner), false)
  }

  function Next(s: State, e: Event): State {
    match e
    case Create(thread, owner, replaced) =>
      if !MayStart(s, thread, replaced) then s
      else
        var others := if replaced.Some? then s.mails - {replaced.value} else s.mails;
        s.(mails := others[s.made := Mail(thread, owner, false, None, None)], made := s.made + 1)
    case Schedule(m, user, shouldArchive, time) =>
      if !IsDraft(s, m) || IsScheduled(s, m) then s
      else
        var args := Args(s.mails[m].thread, m, Some(user), shouldArchive);
        s.(rows := s.rows[s.created := JobRow(args, Some(time), false)],
           created := s.created + 1,
           mails := s.mails[m := s.mails[m].(scheduledFor := Some(time), jobId := Some(s.created))])
    case SendNow(m, user, shouldArchive) =>
      if !IsDraft(s, m) || IsScheduled(s, m) then s else Sent(s, m, user, shouldArchive)
    case Unschedule(m) =>
      if !IsScheduled(s, m) then s
      else s.(mails := s.mails[m := s.mails[m].(scheduledFor := None, jobId := None)])
    case Delete(m) => s.(mails := s.mails - {m})
    case Fire(job, allowed, draft) =>
      if !Fires(s, job, allowed, draft) then s
      else Sent(s, draft, SenderOf(s, s.rows[job].args), s.rows[job].args.shouldArchive)
    case SweepRow(m) =>
      if !IsScheduled(s, m) then s
      else
        s.(rows := s.rows[s.created := JobRow(Rebuilt(s, m), None, false)],
           created := s.created + 1,
           mails := s.mails[m := s.mails[m].(jobId := Some(s.created))])
    case End(job) => if job !in s.rows then s else s.(rows := s.rows[job := s.rows[job].(ended := true)])
    case Purge(job) => s.(rows := s.rows - {job})
    case Revert(m) =>
      if m !in s.mails || !s.mails[m].sending then s else s.(mails := s.mails[m := s.mails[m].(sending := false)])
  }

  function Run(events: seq<Event>): State {
    if events == [] then State(map[], 0, map[], 0, [])
    else Next(Run(events[..|events| - 1]), events[|events| - 1])
  }

  // ------------------------------------------------------------------ handed over once

  function HandedCount(handed: seq<Handed>, m: nat): nat {
    if handed == [] then 0
    else HandedCount(handed[..|handed| - 1], m) + if handed[|handed| - 1].message == m then 1 else 0
  }

  /** How often a mail went back from sending to a draft. */
  function Reverts(events: seq<Event>, m: nat): nat {
    if events == [] then 0
    else
      var before, e := events[..|events| - 1], events[|events| - 1];
      Reverts(before, m)
      + if e == Revert(m) && m in Run(before).mails && Run(before).mails[m].sending then 1 else 0
  }

  /** A mail was handed over once for each time it went back, and once more when it is sending; a mail that is
      gone, once more at the most. */
  ghost predicate Counted(s: State, reverts: nat, m: nat) {
    && (m in s.mails ==> m < s.made && HandedCount(s.handed, m) == reverts + if s.mails[m].sending then 1 else 0)
    && (m !in s.mails && m < s.made ==> HandedCount(s.handed, m) <= reverts + 1)
    && (m >= s.made ==> HandedCount(s.handed, m) == 0 && reverts == 0)
  }

  lemma HandedSnoc(handed: seq<Handed>, h: Handed, m: nat)
    ensures HandedCount(handed + [h], m) == HandedCount(handed, m) + if h.message == m then 1 else 0
  {
    assert (handed + [h])[..|handed|] == handed;
  }

  lemma SentCounted(s: State, reverts: nat, d: nat, sender: nat, shouldArchive: bool, m: nat)
    requires Counted(s, reverts, m) && IsDraft(s, d)
    ensures Counted(Sent(s, d, sender, shouldArchive), reverts, m)
  {
    HandedSnoc(s.handed, Handed(d, sender, shouldArchive), m);
  }

  lemma NextCounted(s: State, reverts: nat, e: Event, m: nat)
    requires Counted(s, reverts, m)
    ensures Counted(Next(s, e), reverts + if e == Revert(m) && m in s.mails && s.mails[m].sending then 1 else 0, m)
  {
    if e.SendNow? {
      if Next(s, e) != s { SentCounted(s, reverts, e.message, e.user, e.shouldArchive, m); }
    } else if e.Fire? {
      if Fires(s, e.job, e.allowed, e.draft) {
        var a := s.rows[e.job].args;
        SentCounted(s, reverts, e.draft, SenderOf(s, a), a.shouldArchive, m);
      }
    } else {
      OtherCounted(s, reverts, e, m);
    }
  }

  lemma OtherCounted(s: State, reverts: nat, e: Event, m: nat)
    requires Counted(s, reverts, m) && !e.SendNow? && !e.Fire?
    ensures Counted(Next(s, e), reverts + if e == Revert(m) && m in s.mails && s.mails[m].sending then 1 else 0, m)
  {
    assert Next(s, e).handed == s.handed;
  }

  lemma {:induction false} HandedExactly(events: seq<Event>, m: nat)
    ensures Counted(Run(events), Reverts(events, m), m)
  {
    if events != [] {
      var before := events[..|events| - 1];
      HandedExactly(before, m);
      NextCounted(Run(before), Reverts(before, m), events[|events| - 1], m);
    }
  }

  predicate NoReverts(events: seq<Event>) {
    forall e | e in events :: !e.Revert?
  }

  lemma {:induction false} NoRevertsCount(events: seq<Event>, m: nat)
    requires NoReverts(events)
    ensures Reverts(events, m) == 0
  {
    if events != [] {
      assert events[|events| - 1] in events;
      NoRevertsCount(events[..|events| - 1], m);
    }
  }

  /** When nothing moves a mail back from sending, every interleaving of fires, duplicate fires, sweeps,
      unschedules and deletes hands it over at most once. */
  lemma AtMostOnce(events: seq<Event>, m: nat)
    requires NoReverts(events)
    ensures HandedCount(Run(events).handed, m) <= 1
    ensures m in Run(events).mails ==> (HandedCount(Run(events).handed, m) == 1 <==> Run(events).mails[m].sending)
  {
    HandedExactly(events, m);
    NoRevertsCount(events, m);
  }

  // ------------------------------------------------------------------ what the jobs carry

  /** What was asked for when a mail was last scheduled, and the number of its first job. */
  datatype Request = Request(since: nat, sender: nat, shouldArchive: bool)

  function Requests(events: seq<Event>): map<nat, Request> {
    if events == [] then map[]
    else
      var before := events[..|events| - 1];
      Asked(Run(before), Requests(before), events[|events| - 1])
  }

  /** The job is of the schedule in force. */
  predicate IsCurrent(s: State, requests: map<nat, Request>, j: nat) {
    j in s.rows
    && var m := s.rows[j].args.message;
       IsScheduled(s, m) && m in requests && j >= requests[m].since
  }

  /** A job row names a mail and its thread, and no job of the mail is newer than the one it points to. */
  predicate RowFits(s: State, j: nat) {
    j in s.rows ==>
      var a := s.rows[j].args;
      && j < s.created && a.message < s.made
      && (a.message in s.mails ==> s.mails[a.message].thread == a.thread)
      && (IsScheduled(s, a.message) && s.mails[a.message].jobId.Some? ==> j <= s.mails[a.message].jobId.value)
  }

  /** A mail has a job exactly while it is scheduled, and that job was made by its schedule or a sweep. */
  predicate MailFits(s: State, requests: map<nat, Request>, m: nat) {
    m in s.mails ==>
      && m < s.made && (s.mails[m].jobId.Some? <==> s.mails[m].scheduledFor.Some?)
      && (s.mails[m].scheduledFor.Some? ==>
            !s.mails[m].sending && m in requests && requests[m].since <= s.mails[m].jobId.value < s.created
            && (s.mails[m].jobId.value in s.rows ==> s.rows[s.mails[m].jobId.value].args.message == m))
  }

  ghost predicate Fitting(s: State, requests: map<nat, Request>) {
    && (forall j :: RowFits(s, j)) && (forall m :: MailFits(s, requests, m))
    && (forall m | m in requests :: requests[m].since < s.created)
  }

  /** The requests after an event. */
  function Asked(s: State, requests: map<nat, Request>, e: Event): map<nat, Request> {
    if e.Schedule? && IsDraft(s, e.message) && !IsScheduled(s, e.message) then
      requests[e.message := Request(s.created, e.user, e.shouldArchive)]
    else requests
  }

  lemma NextRowFits(s: State, requests: map<nat, Request>, e: Event, j: nat)
    requires Fitting(s, requests)
    ensures RowFits(Next(s, e), j)
  {
    assert RowFits(s, j);
    if j in s.rows { assert MailFits(s, requests, s.rows[j].args.message); }
    if e.Schedule? || e.SweepRow? { assert MailFits(s, requests, e.message); }
    if e.SweepRow? && IsScheduled(s, e.message) {
      assert RowFits(s, s.mails[e.message].jobId.value);
    }
  }

  lemma NextMailFits(s: State, requests: map<nat, Request>, e: Event, m: nat)
    requires Fitting(s, requests)
    ensures MailFits(Next(s, e), Asked(s, requests, e), m)
  {
    assert MailFits(s, requests, m);
    if m in s.mails && s.mails[m].jobId.Some? { assert RowFits(s, s.mails[m].jobId.value); }
  }

  lemma NextFits(s: State, requests: map<nat, Request>, e: Event)
    requires Fitting(s, requests)
    ensures Fitting(Next(s, e), Asked(s, requests, e))
  {
    forall j: nat ensures RowFits(Next(s, e), j) { NextRowFits(s, requests, e, j); }
    forall m: nat ensures MailFits(Next(s, e), Asked(s, requests, e), m) { NextMailFits(s, requests, e, m); }
  }

  lemma {:induction false} RunFits(events: seq<Event>)
    ensures Fitting(Run(events), Requests(events))
  {
    if events != [] {
      RunFits(events[..|events| - 1]);
      NextFits(Run(events[..|events| - 1]), Requests(events[..|events| - 1]), events[|events| - 1]);
    }
  }

  /** Whatever happens, `scheduled_send_job_id` points to the newest job of a scheduled mail, and every job
      carries the mail's own thread. */
  lemma NewestJob(events: seq<Event>, j: nat)
    requires j in Run(events).rows && Run(events).rows[j].args.message in Run(events).mails
    ensures
      var s := Run(events);
      var a := s.rows[j].args;
      var mail := s.mails[a.message];
      a.thread == mail.thread
      && (mail.scheduledFor.Some? ==> mail.jobId.Some? && j <= mail.jobId.value)
  {
    RunFits(events);
    var s := Run(events);
    assert RowFits(s, j) && MailFits(s, Requests(events), s.rows[j].args.message);
  }

  /** No job row is purged while a scheduled mail points to it. */
  predicate KeepsRows(events: seq<Event>) {
    events == []
    || (KeepsRows(events[..|events| - 1])
        && var s, e := Run(events[..|events| - 1]), events[|events| - 1];
           e.Purge? ==> forall m | m in s.mails :: s.mails[m].jobId != Some(e.job))
  }

  /** A job of the schedule in force carries what was asked for. */
  predicate CarriesRequest(s: State, requests: map<nat, Request>, j: nat) {
    IsCurrent(s, requests, j) ==>
      var a := s.rows[j].args;
      a.sender == Some(requests[a.message].sender) && a.shouldArchive == requests[a.message].shouldArchive
  }

  predicate HasRow(s: State, m: nat) {
    IsScheduled(s, m) ==> s.mails[m].jobId.Some? && s.mails[m].jobId.value in s.rows
  }

  ghost predicate Carrying(s: State, requests: map<nat, Request>) {
    (forall j :: CarriesRequest(s, requests, j)) && (forall m :: HasRow(s, m))
  }

  lemma NextCarries(s: State, requests: map<nat, Request>, e: Event)
    requires Fitting(s, requests) && Carrying(s, requests)
    requires e.Purge? ==> forall m | m in s.mails :: s.mails[m].jobId != Some(e.job)
    ensures Carrying(Next(s, e), Asked(s, requests, e))
  {
    var t, after := Next(s, e), Asked(s, requests, e);
    forall m ensures HasRow(t, m) { assert HasRow(s, m) && MailFits(s, requests, m); }
    forall j ensures CarriesRequest(t, after, j) {
      assert CarriesRequest(s, requests, j) && RowFits(s, j);
      if e.Revert? { assert MailFits(s, requests, e.message); }
      if e.SweepRow? && IsScheduled(s, e.message) {
        assert MailFits(s, requests, e.message) && HasRow(s, e.message);
        assert CarriesRequest(s, requests, s.mails[e.message].jobId.value);
      }
    }
  }

  lemma {:induction false} RunCarries(events: seq<Event>)
    requires KeepsRows(events)
    ensures Carrying(Run(events), Requests(events))
  {
    if events != [] {
      var before := events[..|events| - 1];
      RunCarries(before);
      RunFits(before);
      NextCarries(Run(before), Requests(before), events[|events| - 1]);
    }
  }

  /** As long as no row that a scheduled mail points to is purged, every sweep rebuilds what was asked for. */
  lemma SweepKeepsRequest(events: seq<Event>, m: nat)
    requires KeepsRows(events) && IsScheduled(Run(events), m)
    ensures m in Requests(events)
    ensures
      var s, request := Run(events), Requests(events)[m];
      Rebuilt(s, m) == Args(s.mails[m].thread, m, Some(request.sender), request.shouldArchive)
  {
    RunFits(events);
    RunCarries(events);
    var s, requests := Run(events), Requests(events);
    assert MailFits(s, requests, m) && HasRow(s, m);
    var j := s.mails[m].jobId.value;
    assert RowFits(s, j) && CarriesRequest(s, requests, j);
  }

  /** When the row was purged, a sweep keeps what was asked for exactly when that was a plain send. */
  lemma PurgedSweepIff(events: seq<Event>, m: nat)
    requires KeepsRows(events) && IsScheduled(Run(events), m)
    ensures m in Requests(events) && Run(events).mails[m].jobId.Some?
    ensures
      var s, request := Run(events), Requests(events)[m];
      var purged := Next(s, Purge(s.mails[m].jobId.value));
      Rebuilt(purged, m) == Rebuilt(s, m) <==> request.sender == s.mails[m].owner && !request.shouldArchive
  {
    SweepKeepsRequest(events, m);
    RunFits(events);
    assert MailFits(Run(events), Requests(events), m);
  }

  // ------------------------------------------------------------------ what a fire sends

  ghost predicate OneDraft(s: State) {
    forall m, n | IsDraft(s, m) && IsDraft(s, n) && s.mails[m].thread == s.mails[n].thread :: m == n
  }

  lemma {:induction false} RunOneDraft(events: seq<Event>)
    requires NoReverts(events)
    ensures OneDraft(Run(events))
  {
    if events != [] {
      var before, e := events[..|events| - 1], events[|events| - 1];
      assert e in events;
      RunOneDraft(before);
      NextOneDraft(Run(before), e);
    }
  }

  lemma NextOneDraft(s: State, e: Event)
    requires OneDraft(s) && !e.Revert?
    ensures OneDraft(Next(s, e))
  {
    var t := Next(s, e);
    if !e.Create? {
      forall m | IsDraft(t, m) ensures IsDraft(s, m) && t.mails[m].thread == s.mails[m].thread {}
    }
  }

  /** A fire of the schedule in force hands over its own mail, with the sender and the archive choice that
      were asked for. */
  lemma FireSendsRequest(events: seq<Event>, job: nat, draft: nat)
    requires NoReverts(events) && KeepsRows(events)
    requires Fires(Run(events), job, true, draft) && IsCurrent(Run(events), Requests(events), job)
    ensures
      var s := Run(events);
      var m := s.rows[job].args.message;
      var request := Requests(events)[m];
      Next(s, Fire(job, true, draft)).handed == s.handed + [Handed(m, request.sender, request.shouldArchive)]
  {
    RunFits(events);
    RunCarries(events);
    RunOneDraft(events);
    CurrentFire(Run(events), Requests(events), job, draft);
  }

  lemma CurrentFire(s: State, requests: map<nat, Request>, job: nat, draft: nat)
    requires Fitting(s, requests) && Carrying(s, requests) && OneDraft(s)
    requires Fires(s, job, true, draft) && IsCurrent(s, requests, job)
    ensures
      var m := s.rows[job].args.message;
      Next(s, Fire(job, true, draft)).handed
      == s.handed + [Handed(m, requests[m].sender, requests[m].shouldArchive)]
  {
    assert CarriesRequest(s, requests, job) && RowFits(s, job);
    assert IsDraft(s, s.rows[job].args.message) && IsDraft(s, draft);
  }

  /** The request each job was made for: a schedule's own, and for a sweep the one in force. */
  function Noted(s: State, requests: map<nat, Request>, notes: map<nat, Request>, e: Event): map<nat, Request> {
    if e.Schedule? && IsDraft(s, e.message) && !IsScheduled(s, e.message) then
      notes[s.created := Request(s.created, e.user, e.shouldArchive)]
    else if e.SweepRow? && IsScheduled(s, e.message) && e.message in requests then
      notes[s.created := requests[e.message]]
    else notes
  }

  function Notes(events: seq<Event>): map<nat, Request> {
    if events == [] then map[]
    else
      var before := events[..|events| - 1];
      Noted(Run(before), Requests(before), Notes(before), events[|events| - 1])
  }

  /** A job carries the request it was made for. */
  predicate NoteFits(s: State, notes: map<nat, Request>, j: nat) {
    j in s.rows ==>
      j in notes && s.rows[j].args.sender == Some(notes[j].sender)
      && s.rows[j].args.shouldArchive == notes[j].shouldArchive
  }

  lemma NextNoted(s: State, requests: map<nat, Request>, notes: map<nat, Request>, e: Event, j: nat)
    requires Fitting(s, requests) && Carrying(s, requests) && NoteFits(s, notes, j)
    ensures NoteFits(Next(s, e), Noted(s, requests, notes, e), j)
  {
    assert RowFits(s, j);
    if e.SweepRow? && IsScheduled(s, e.message) {
      var m := e.message;
      assert MailFits(s, requests, m) && HasRow(s, m);
      var k := s.mails[m].jobId.value;
      assert RowFits(s, k) && CarriesRequest(s, requests, k);
    }
  }

  lemma {:induction false} RunNoted(events: seq<Event>, j: nat)
    requires KeepsRows(events)
    ensures NoteFits(Run(events), Notes(events), j)
  {
    if events != [] {
      var before := events[..|events| - 1];
      RunNoted(before, j);
      RunFits(before);
      RunCarries(before);
      NextNoted(Run(before), Requests(before), Notes(before), events[|events| - 1], j);
    }
  }

  /** A fire hands over what was asked for last exactly if the job was made for a request with the same sender
      and archive choice. */
  lemma FireSendsIff(events: seq<Event>, job: nat, draft: nat)
    requires NoReverts(events) && KeepsRows(events) && Fires(Run(events), job, true, draft)
    ensures
      var s := Run(events);
      var m := s.rows[job].args.message;
      m in Requests(events) && job in Notes(events)
      && var asked, own := Requests(events)[m], Notes(events)[job];
         Next(s, Fire(job, true, draft)).handed == s.handed + [Handed(m, asked.sender, asked.shouldArchive)]
         <==> own.sender == asked.sender && own.shouldArchive == asked.shouldArchive
  {
    RunFits(events);
    RunOneDraft(events);
    RunNoted(events, job);
    NotedFire(Run(events), Requests(events), Notes(events), job, draft);
  }

  lemma SameHanded(handed: seq<Handed>, a: Handed, b: Handed)
    ensures handed + [a] == handed + [b] <==> a == b
  {
    assert (handed + [a])[|handed|] == a && (handed + [b])[|handed|] == b;
  }

  lemma NotedFire(s: State, requests: map<nat, Request>, notes: map<nat, Request>, job: nat, draft: nat)
    requires Fitting(s, requests) && OneDraft(s) && NoteFits(s, notes, job) && Fires(s, job, true, draft)
    ensures
      var m := s.rows[job].args.message;
      m in requests && job in notes
      && var asked, own := requests[m], notes[job];
         Next(s, Fire(job, true, draft)).handed == s.handed + [Handed(m, asked.sender, asked.shouldArchive)]
         <==> own.sender == asked.sender && own.shouldArchive == asked.shouldArchive
  {
    var m := s.rows[job].args.message;
    assert RowFits(s, job) && MailFits(s, requests, m);
    assert IsDraft(s, m) && IsDraft(s, draft) && draft == m;
    var asked, own := requests[m], notes[job];
    SameHanded(s.handed, Handed(m, own.sender, own.shouldArchive), Handed(m, asked.sender, asked.shouldArchive));
  }

  /** A lost cancel: a job of an earlier schedule fires after the mail was scheduled again, and sends with
      the archive choice of the earlier one. */
  lemma StaleFire(s: State, m: nat, user: nat, early: nat, late: nat)
    requires IsDraft(s, m) && !IsScheduled(s, m)
    ensures
      var t := Next(Next(Next(s, Schedule(m, user, true, early)), Unschedule(m)), Schedule(m, user, false, late));
      IsScheduled(t, m) && t.mails[m].scheduledFor == Some(late)
      && Next(t, Fire(s.created, true, m)).handed == s.handed + [Handed(m, user, true)]
  {
    var a := Next(s, Schedule(m, user, true, early));
    var b := Next(a, Unschedule(m));
    var t := Next(b, Schedule(m, user, false, late));
    assert t.rows[s.created].args == Args(s.mails[m].thread, m, Some(user), true);
    assert Fires(t, s.created, true, m);
  }

  /** No cancel need be lost: a sweep points the mail to its own job, so the cancel that follows ends that one,
      and the job of the schedule fires later. */
  lemma StaleAfterSweep(s: State, m: nat, user: nat, early: nat, late: nat)
    requires IsDraft(s, m) && !IsScheduled(s, m)
    ensures
      var a := Next(Next(s, Schedule(m, user, true, early)), SweepRow(m));
      var b := Next(Next(a, Unschedule(m)), End(s.created + 1));
      var t := Next(b, Schedule(m, user, false, late));
      a.mails[m].jobId == Some(s.created + 1) && b.rows[s.created + 1].ended
      && Next(t, Fire(s.created, true, m)).handed == s.handed + [Handed(m, user, true)]
  {
    var scheduled := Next(s, Schedule(m, user, true, early));
    var a := Next(scheduled, SweepRow(m));
    var b := Next(Next(a, Unschedule(m)), End(s.created + 1));
    var t := Next(b, Schedule(m, user, false, late));
    assert t.rows[s.created] == JobRow(Args(s.mails[m].thread, m, Some(user), true), Some(early), false);
    assert Fires(t, s.created, true, m);
  }

  // ------------------------------------------------------------------ what the sweep finds overdue

  predicate IsOverdue(s: State, m: nat, cutoff: nat) {
    IsScheduled(s, m) && s.mails[m].scheduledFor.value <= cutoff
  }

  /** The sweep makes a job that fires at once for a mail that is not overdue. */
  predicate SweepsEarly(s: State, m: nat, cutoff: nat) {
    IsScheduled(s, m) && !IsOverdue(s, m, cutoff)
    && var t := Next(s, SweepRow(m));
       s.created in t.rows && t.rows[s.created].performAt == None && t.rows[s.created].args == Rebuilt(s, m)
  }

  /** The time of the last schedule that took effect on the mail in the second part of a run. */
  function LastSchedule(before: seq<Event>, after: seq<Event>, m: nat): Option<nat> {
    if after == [] then None
    else
      var s, e := Run(before + after[..|after| - 1]), after[|after| - 1];
      if e.Schedule? && e.message == m && IsDraft(s, m) && !IsScheduled(s, m) then Some(e.time)
      else LastSchedule(before, after[..|after| - 1], m)
  }

  /** The mail is scheduled for that time as long as it is scheduled, or as it was before. */
  predicate TimeFits(s: State, m: nat, last: Option<nat>, first: nat) {
    m < s.made
    && (IsScheduled(s, m) ==> s.mails[m].scheduledFor == Some(if last.Some? then last.value else first))
  }

  lemma NextTime(s: State, requests: map<nat, Request>, e: Event, m: nat, last: Option<nat>, first: nat)
    requires Fitting(s, requests) && TimeFits(s, m, last, first)
    ensures
      var next := if e.Schedule? && e.message == m && IsDraft(s, m) && !IsScheduled(s, m) then Some(e.time) else last;
      TimeFits(Next(s, e), m, next, first)
  {
    assert MailFits(s, requests, m);
  }

  lemma {:induction false} RunTime(before: seq<Event>, after: seq<Event>, m: nat)
    requires IsScheduled(Run(before), m)
    ensures TimeFits(Run(before + after), m, LastSchedule(before, after, m), Run(before).mails[m].scheduledFor.value)
  {
    if after == [] {
      assert before + after == before;
      RunFits(before);
      assert MailFits(Run(before), Requests(before), m);
    } else {
      var init, e, all := after[..|after| - 1], after[|after| - 1], before + after;
      assert all[..|all| - 1] == before + init && all[|all| - 1] == e;
      RunTime(before, init, m);
      RunFits(before + init);
      NextTime(Run(before + init), Requests(before + init), e, m, LastSchedule(before, init, m),
               Run(before).mails[m].scheduledFor.value);
    }
  }

  /** A mail that was overdue when the sweep looked for it gets a job that fires before its time exactly if it is
      scheduled when its row is locked, and the last schedule in between was for a time after the cutoff. */
  lemma SweepsEarlyIff(before: seq<Event>, after: seq<Event>, m: nat, cutoff: nat)
    requires IsOverdue(Run(before), m, cutoff)
    ensures
      var s, last := Run(before + after), LastSchedule(before, after, m);
      SweepsEarly(s, m, cutoff) <==> IsScheduled(s, m) && last.Some? && last.value > cutoff
  {
    RunTime(before, after, m);
  }

  /** The sweep does not look at the time again: a mail that was found overdue and was put off before its
      row was locked gets a job that fires at once. */
  lemma SweepForgetsTime(s: State, m: nat, user: nat, shouldArchive: bool, later: nat)
    requires IsScheduled(s, m)
    ensures
      var t := Next(Next(Next(s, Unschedule(m)), Schedule(m, user, shouldArchive, later)), SweepRow(m));
      t.mails[m].scheduledFor == Some(later)
      && t.mails[m].jobId == Some(s.created + 1) && t.rows[s.created + 1].performAt == None
  {
    var a := Next(s, Unschedule(m));
    var b := Next(a, Schedule(m, user, shouldArchive, later));
    assert IsDraft(a, m) && !IsScheduled(a, m) && IsScheduled(b, m) && b.created == s.created + 1;
  }

  /** A mail that is not scheduled is not handed over until it is scheduled or sent, whatever fires. */
  lemma {:induction false} UnscheduledStays(before: seq<Event>, after: seq<Event>, m: nat)
    requires NoReverts(before + after) && !IsScheduled(Run(before), m) && m < Run(before).made
    requires forall e | e in after :: !(e.Schedule? && e.message == m) && !(e.SendNow? && e.message == m)
    ensures !IsScheduled(Run(before + after), m) && m < Run(before + after).made
    ensures HandedCount(Run(before + after).handed, m) == HandedCount(Run(before).handed, m)
  {
    if after == [] {
      assert before + after == before;
    } else {
      var n := |after| - 1;
      var all, middle := before + after, before + after[..n];
      assert all[..|all| - 1] == middle && all[|all| - 1] == after[n] && after[n] in after;
      assert forall e | e in middle :: e in all;
      UnscheduledStays(before, after[..n], m);
      RunOneDraft(middle);
      RunFits(middle);
      UnscheduledStep(Run(middle), Requests(middle), after[n], m);
    }
  }

  lemma UnscheduledStep(s: State, requests: map<nat, Request>, e: Event, m: nat)
    requires OneDraft(s) && Fitting(s, requests) && !IsScheduled(s, m) && m < s.made
    requires !(e.Schedule? && e.message == m) && !(e.SendNow? && e.message == m) && !e.Revert?
    ensures !IsScheduled(Next(s, e), m) && Next(s, e).made >= s.made
    ensures HandedCount(Next(s, e).handed, m) == HandedCount(s.handed, m)
  {
    if e.SendNow? {
      if Next(s, e) != s { OtherSent(s, e.message, e.user, e.shouldArchive, m); }
    } else if e.Fire? {
      if Fires(s, e.job, e.allowed, e.draft) {
        var a := s.rows[e.job].args;
        assert RowFits(s, e.job) && IsDraft(s, a.message);
        assert e.draft == a.message;
        OtherSent(s, e.draft, SenderOf(s, a), a.shouldArchive, m);
      }
    } else {
      assert Next(s, e).handed == s.handed;
    }
  }

  lemma OtherSent(s: State, d: nat, sender: nat, shouldArchive: bool, m: nat)
    requires IsDraft(s, d) && d != m
    ensures HandedCount(Sent(s, d, sender, shouldArchive).handed, m) == HandedCount(s.handed, m)
  {
    HandedSnoc(s.handed, Handed(d, sender, shouldArchive), m);
  }
}
