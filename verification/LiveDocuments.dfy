/** The sessions of a live document: a listen loop over client messages, an observer that makes a task
    of each local change, and the topic that carries the broadcasts. */
module LiveDocuments {
  import opened Options
  import opened Replication
  import opened ReplicationHistory

  const REMOTE_ORIGIN := "remote-server"

  class SharedDocument {
    var document: set<Op>
    var syncQueue: seq<Message>
    /** The tasks that still have to broadcast an update, and those that still have to save one. */
    var broadcasting: multiset<Update>
    var saving: multiset<Update>
    /** What was sent to the clients. */
    var sent: seq<Message>

    constructor (document: set<Op>)
      ensures View() == Replica(document, [], multiset{}, multiset{}) && sent == []
    {
      this.document, syncQueue, broadcasting, saving, sent := document, [], multiset{}, multiset{}, [];
    }

    function View(): Replica
      reads this
    {
      Replica(document, syncQueue, broadcasting, saving)
    }

    method HandleSyncMessage(message: Message)
      modifies this`syncQueue
      ensures syncQueue == old(syncQueue) + [message]
    {
      syncQueue := syncQueue + [message];
    }

    /** `observe_document_change`: a change of a transaction with an origin makes no task. */
    method ObserveDocumentChange(update: Update, origin: Option<string>)
      modifies this`broadcasting
      ensures broadcasting == old(broadcasting) + if origin.Some? then multiset{} else multiset{update}
    {
      if origin.Some? { return; }
      broadcasting := broadcasting + multiset{update};
    }

    /** A transaction of the document, which tells its observer what it added. */
    method Transaction(update: Update, origin: Option<string>)
      modifies this`document, this`broadcasting
      ensures View() == Transacted(old(View()), update, origin.Some?)
    {
      var added := update - document;
      document := document + update;
      if added != {} { ObserveDocumentChange(added, origin); }
    }

    /** `_process_sync_message`, of the next message in the queue. */
    method ProcessSyncMessage()
      requires syncQueue != []
      modifies this
      ensures View() == Processed(old(View()))
      ensures sent == old(sent) + Replies(document, old(syncQueue[0]))
    {
      var message := syncQueue[0];
      syncQueue := syncQueue[1..];
      match message
      case SyncStep1(have) =>
        sent := sent + [SyncStep2(document - have)];
        sent := sent + [SyncStep1(document)];
      case SyncStep2(update) =>
        Transaction(update, None);
      case SyncUpdate(update) =>
        Transaction(update, None);
    }

    /** `_handle_server_sync_update` */
    method HandleServerSyncUpdate(update: Update)
      modifies this`document, this`broadcasting
      ensures View() == Transacted(old(View()), update, true)
    {
      Transaction(update, Some(REMOTE_ORIGIN));
    }
  }

  /** A topic: the sessions that listen to it, what is on its way to each, and the rows that were saved. */
  class Topic {
    const sessions: seq<SharedDocument>
    var inboxes: seq<multiset<Update>>
    var broadcasts: multiset<Update>
    var saved: multiset<Update>

    constructor (sessions: seq<SharedDocument>)
      ensures this.sessions == sessions
      ensures broadcasts == multiset{} == saved && inboxes == seq(|sessions|, _ => multiset{})
    {
      this.sessions := sessions;
      inboxes, broadcasts, saved := seq(|sessions|, _ => multiset{}), multiset{}, multiset{};
    }

    ghost predicate Distinct() {
      forall i, j | 0 <= i < j < |sessions| :: sessions[i] != sessions[j]
    }

    ghost predicate Shows(s: System)
      reads this, sessions
    {
      && inboxes == s.inboxes && broadcasts == s.broadcasts && saved == s.saved
      && |sessions| == |s.replicas|
      && forall i | 0 <= i < |sessions| :: sessions[i].View() == s.replicas[i]
    }

    /** `topic.broadcast`: every session that listens gets the update, the sender's too. */
    method Send(update: Update)
      modifies this`inboxes, this`broadcasts
      ensures inboxes == SendAll(old(inboxes), update) && broadcasts == old(broadcasts) + multiset{update}
    {
      for i := 0 to |inboxes|
        invariant |inboxes| == |old(inboxes)| && broadcasts == old(broadcasts)
        invariant forall k | 0 <= k < |inboxes| ::
          inboxes[k] == old(inboxes)[k] + if k < i then multiset{update} else multiset{}
      {
        inboxes := inboxes[i := inboxes[i] + multiset{update}];
      }
      broadcasts := broadcasts + multiset{update};
    }

    /** The first half of `handle_document_change`. */
    method BroadcastChange(session: SharedDocument, update: Update)
      requires update in session.broadcasting
      modifies this`inboxes, this`broadcasts, session`broadcasting, session`saving
      ensures inboxes == SendAll(old(inboxes), update) && broadcasts == old(broadcasts) + multiset{update}
      ensures session.broadcasting == old(session.broadcasting) - multiset{update}
      ensures session.saving == old(session.saving) + multiset{update}
    {
      Send(update);
      session.broadcasting := session.broadcasting - multiset{update};
      session.saving := session.saving + multiset{update};
    }

    /** The second half of `handle_document_change`. */
    method SaveChange(session: SharedDocument, update: Update)
      requires update in session.saving
      modifies this`saved, session`saving
      ensures saved == old(saved) + multiset{update}
      ensures session.saving == old(session.saving) - multiset{update}
    {
      saved := saved + multiset{update};
      session.saving := session.saving - multiset{update};
    }

    method StepSession(e: Event, ghost s: System)
      requires Distinct() && Shows(s) && Enabled(s, e) && (e.Arrive? || e.Process?)
      modifies sessions
      ensures Shows(Next(s, e))
    {
      var session := sessions[e.session];
      if e.Arrive? {
        session.HandleSyncMessage(e.message);
      } else {
        session.ProcessSyncMessage();
      }
    }

    method StepBroadcast(i: nat, update: Update, ghost s: System)
      requires Distinct() && Shows(s) && Enabled(s, Broadcast(i, update))
      modifies this, sessions
      ensures Shows(Next(s, Broadcast(i, update)))
    {
      BroadcastChange(sessions[i], update);
    }

    method StepSave(i: nat, update: Update, ghost s: System)
      requires Distinct() && Shows(s) && Enabled(s, Save(i, update))
      modifies this, sessions
      ensures Shows(Next(s, Save(i, update)))
    {
      SaveChange(sessions[i], update);
    }

    method StepDelivery(i: nat, update: Update, ghost s: System)
      requires Distinct() && Shows(s) && Enabled(s, Deliver(i, update))
      modifies this`inboxes, sessions
      ensures Shows(Next(s, Deliver(i, update)))
    {
      sessions[i].HandleServerSyncUpdate(update);
      inboxes := inboxes[i := inboxes[i] - multiset{update}];
    }

    method Step(e: Event, ghost s: System)
      requires Distinct() && Shows(s) && Enabled(s, e)
      modifies this, sessions
      ensures Shows(Next(s, e))
    {
      match e
      case Broadcast(i, update) => StepBroadcast(i, update, s);
      case Save(i, update) => StepSave(i, update, s);
      case Deliver(i, update) => StepDelivery(i, update, s);
      case _ => StepSession(e, s);
    }

    /** A run of the sessions, from documents that were loaded alike. */
    method RunEvents(base: set<Op>, events: seq<Event>)
      requires Distinct() && Shows(Start(base, |sessions|)) && Possible(base, |sessions|, events)
      modifies this, sessions
      ensures Shows(Run(base, |sessions|, events))
      ensures forall i | 0 <= i < |sessions| ::
        Rounds(events, i) <= |Arrived(events, i)|
        && sessions[i].syncQueue == Arrived(events, i)[Rounds(events, i)..]
    {
      forall i: nat | i < |sessions| { QueueHistory(base, |sessions|, events, i); }
      assert events[..|events|] == events;
      for i := 0 to |events|
        invariant Possible(base, |sessions|, events[..i]) && Shows(Run(base, |sessions|, events[..i]))
      {
        PossiblePrefix(base, |sessions|, events, i + 1);
        assert events[..i + 1][..i] == events[..i];
        Step(events[i], Run(base, |sessions|, events[..i]));
      }
    }
  }

  lemma {:induction false} PossiblePrefix(base: set<Op>, sessions: nat, events: seq<Event>, n: nat)
    requires Possible(base, sessions, events) && n <= |events|
    ensures Possible(base, sessions, events[..n])
  {
    if n < |events| {
      PossiblePrefix(base, sessions, events[..|events| - 1], n);
      assert events[..|events| - 1][..n] == events[..n];
    } else {
      assert events[..n] == events;
    }
  }
}
