/** What becomes of the messages of clients, told from the events of a run alone. */
module ReplicationHistory {
  import opened Replication

  /** The messages that arrived at a session, in order. */
  function Arrived(events: seq<Event>, i: nat): seq<Message> {
    if events == [] then []
    else
      var e := events[|events| - 1];
      Arrived(events[..|events| - 1], i) + if e.Arrive? && e.session == i then [e.message] else []
  }

  /** How many messages a session took. */
  function Rounds(events: seq<Event>, i: nat): nat {
    if events == [] then 0
    else Rounds(events[..|events| - 1], i) + if events[|events| - 1] == Process(i) then 1 else 0
  }

  lemma QueueStep(queue: seq<Message>, arrived: seq<Message>, n: nat, m: Message)
    requires n <= |arrived| && queue == arrived[n..]
    ensures queue + [m] == (arrived + [m])[n..]
    ensures queue != [] ==> n < |arrived| && queue[0] == arrived[n] && queue[1..] == arrived[n + 1..]
  {}

  /** The messages that arrived at a session are those it took and then those in its queue, in order. */
  lemma {:induction false} QueueHistory(base: set<Op>, sessions: nat, events: seq<Event>, i: nat)
    requires Possible(base, sessions, events) && i < sessions
    ensures |Run(base, sessions, events).replicas| == sessions
    ensures Rounds(events, i) <= |Arrived(events, i)|
    ensures Run(base, sessions, events).replicas[i].queue == Arrived(events, i)[Rounds(events, i)..]
  {
    RunSizes(base, sessions, events);
    if events != [] {
      var before, e := events[..|events| - 1], events[|events| - 1];
      QueueHistory(base, sessions, before, i);
      RunSizes(base, sessions, before);
      var queue := Run(base, sessions, before).replicas[i].queue;
      QueueStep(queue, Arrived(before, i), Rounds(before, i), if e.Arrive? then e.message else SyncStep1({}));
      assert Arrived(before, i) + [] == Arrived(before, i);
    }
  }

  // ------------------------------------------------------------------ the operations of the messages

  function Ops(m: Message): set<Op> {
    if m.SyncStep1? then {} else m.update
  }

  /** A message with the operation arrived at the session. */
  ghost predicate Sent(events: seq<Event>, i: nat, x: Op) {
    exists k | 0 <= k < |events| :: events[k].Arrive? && events[k].session == i && x in Ops(events[k].message)
  }

  ghost predicate Within(messages: seq<Message>, x: Op) {
    exists k | 0 <= k < |messages| :: x in Ops(messages[k])
  }

  lemma WithinSnoc(messages: seq<Message>, m: Message, x: Op)
    ensures Within(messages + [m], x) <==> Within(messages, x) || x in Ops(m)
  {
    var all := messages + [m];
    assert all[|messages|] == m;
    if Within(messages, x) {
      var k :| 0 <= k < |messages| && x in Ops(messages[k]);
      assert all[k] == messages[k];
    }
  }

  /** The session took a message with the operation. */
  ghost predicate Taken(events: seq<Event>, i: nat, x: Op) {
    Rounds(events, i) <= |Arrived(events, i)| && Within(Arrived(events, i)[..Rounds(events, i)], x)
  }

  lemma {:induction false} SentArrived(events: seq<Event>, i: nat, x: Op)
    ensures Sent(events, i, x) <==> Within(Arrived(events, i), x)
  {
    if events != [] {
      var before, e := events[..|events| - 1], events[|events| - 1];
      SentArrived(before, i, x);
      SentSnoc(before, e, i, x);
      assert events == before + [e];
      if e.Arrive? && e.session == i {
        WithinSnoc(Arrived(before, i), e.message, x);
      } else {
        assert Arrived(events, i) == Arrived(before, i);
      }
    }
  }

  lemma SentSnoc(events: seq<Event>, e: Event, i: nat, x: Op)
    ensures Sent(events + [e], i, x) <==> Sent(events, i, x) || (e.Arrive? && e.session == i && x in Ops(e.message))
  {
    var all := events + [e];
    assert all[|events|] == e;
    if Sent(events, i, x) {
      var k :| 0 <= k < |events| && events[k].Arrive? && events[k].session == i && x in Ops(events[k].message);
      assert all[k] == events[k];
    }
  }

  /** One event: what a session held it holds, and it holds what it took. */
  lemma DocumentStep(s: System, e: Event, i: nat, x: Op)
    requires Enabled(s, e) && i < |s.replicas|
    ensures x in s.replicas[i].document ==> x in Next(s, e).replicas[i].document
    ensures e == Process(i) && x in Ops(s.replicas[i].queue[0]) ==> x in Next(s, e).replicas[i].document
  {}

  lemma {:induction false} BaseHeld(base: set<Op>, sessions: nat, events: seq<Event>, i: nat, x: Op)
    requires Possible(base, sessions, events) && i < sessions && x in base
    ensures |Run(base, sessions, events).replicas| == sessions
    ensures x in Run(base, sessions, events).replicas[i].document
  {
    RunSizes(base, sessions, events);
    if events != [] {
      var before := events[..|events| - 1];
      BaseHeld(base, sessions, before, i, x);
      DocumentStep(Run(base, sessions, before), events[|events| - 1], i, x);
    }
  }

  lemma TakenMore(events: seq<Event>, i: nat, x: Op)
    requires events != [] && Rounds(events, i) <= |Arrived(events, i)|
    requires var before := events[..|events| - 1]; Rounds(before, i) <= |Arrived(before, i)|
    ensures
      var before, e := events[..|events| - 1], events[|events| - 1];
      Taken(events, i, x)
      <==> Taken(before, i, x)
           || (e == Process(i) && Rounds(before, i) < |Arrived(before, i)|
               && x in Ops(Arrived(before, i)[Rounds(before, i)]))
  {
    var before, e := events[..|events| - 1], events[|events| - 1];
    var arrived, n := Arrived(before, i), Rounds(before, i);
    if e == Process(i) {
      assert Arrived(events, i) == arrived;
      if n < |arrived| {
        WithinSnoc(arrived[..n], arrived[n], x);
        assert arrived[..n + 1] == arrived[..n] + [arrived[n]];
      }
    } else {
      assert Arrived(events, i)[..n] == arrived[..n];
    }
  }

  /** A session holds every operation of every message it took. */
  lemma {:induction false} TakenHeld(base: set<Op>, sessions: nat, events: seq<Event>, i: nat, x: Op)
    requires Possible(base, sessions, events) && i < sessions && Taken(events, i, x)
    ensures |Run(base, sessions, events).replicas| == sessions
    ensures x in Run(base, sessions, events).replicas[i].document
  {
    RunSizes(base, sessions, events);
    if events != [] {
      var before := events[..|events| - 1];
      QueueHistory(base, sessions, events, i);
      QueueHistory(base, sessions, before, i);
      TakenMore(events, i, x);
      if Taken(before, i, x) { TakenHeld(base, sessions, before, i, x); }
      DocumentStep(Run(base, sessions, before), events[|events| - 1], i, x);
    }
  }

  /** Some session took a message with the operation. */
  ghost predicate TakenSomewhere(events: seq<Event>, sessions: nat, x: Op) {
    exists i: nat | i < sessions :: Taken(events, i, x)
  }

  /** The changes are made of operations that clients sent, and not of those of the base. */
  lemma {:induction false} ChangesTaken(base: set<Op>, sessions: nat, events: seq<Event>, x: Op)
    requires Possible(base, sessions, events) && Covers(Changes(base, sessions, events), x)
    ensures TakenSomewhere(events, sessions, x) && x !in base
  {
    if events != [] {
      var before, e := events[..|events| - 1], events[|events| - 1];
      var s := Run(base, sessions, before);
      RunSizes(base, sessions, before);
      CoversSplit(Changes(base, sessions, before), Contributed(s, e), x);
      if Covers(Changes(base, sessions, before), x) {
        ChangesTaken(base, sessions, before, x);
        var i: nat :| i < sessions && Taken(before, i, x);
        QueueHistory(base, sessions, events, i);
        QueueHistory(base, sessions, before, i);
        TakenMore(events, i, x);
      } else {
        var i := e.session;
        ContributedCovers(s, e, x);
        QueueHistory(base, sessions, events, i);
        QueueHistory(base, sessions, before, i);
        TakenMore(events, i, x);
        assert Taken(events, i, x);
        if x in base { BaseHeld(base, sessions, before, i, x); }
      }
    }
  }

  /** Every message that arrived was taken. */
  predicate NoQueue(replicas: seq<Replica>) {
    forall i | 0 <= i < |replicas| :: replicas[i].queue == []
  }

  /** When every message was taken, a session holds all that its clients sent. */
  lemma SentHeld(base: set<Op>, sessions: nat, events: seq<Event>, i: nat, x: Op)
    requires Possible(base, sessions, events) && i < sessions && NoQueue(Run(base, sessions, events).replicas)
    ensures |Run(base, sessions, events).replicas| == sessions
    ensures Taken(events, i, x) <==> Sent(events, i, x)
    ensures Sent(events, i, x) ==> x in Run(base, sessions, events).replicas[i].document
  {
    QueueHistory(base, sessions, events, i);
    assert |Arrived(events, i)[Rounds(events, i)..]| == 0;
    assert Arrived(events, i)[..Rounds(events, i)] == Arrived(events, i);
    SentArrived(events, i, x);
    if Sent(events, i, x) { TakenHeld(base, sessions, events, i, x); }
  }

  /** Some client sent the operation. */
  ghost predicate SentSomewhere(events: seq<Event>, sessions: nat, x: Op) {
    exists i: nat | i < sessions :: Sent(events, i, x)
  }

  /** When every message was taken and nothing is in flight, every session holds the base and all that any client
      sent, and nothing else; what is not of the base was saved. */
  lemma AllSentEverywhere(base: set<Op>, sessions: nat, events: seq<Event>, j: nat, x: Op)
    requires Possible(base, sessions, events) && j < sessions
    requires Quiet(Run(base, sessions, events)) && NoQueue(Run(base, sessions, events).replicas)
    ensures |Run(base, sessions, events).replicas| == sessions
    ensures x in Run(base, sessions, events).replicas[j].document <==> x in base || SentSomewhere(events, sessions, x)
    ensures Covers(Run(base, sessions, events).saved, x) <==> x !in base && SentSomewhere(events, sessions, x)
  {
    QuietConverged(base, sessions, events, j);
    if Covers(Changes(base, sessions, events), x) {
      ChangesTaken(base, sessions, events, x);
      var i: nat :| i < sessions && Taken(events, i, x);
      SentHeld(base, sessions, events, i, x);
    }
    if i: nat :| i < sessions && Sent(events, i, x) {
      SentHeld(base, sessions, events, i, x);
      QuietEqual(base, sessions, events, i, j);
    }
    if x in base { BaseHeld(base, sessions, events, j, x); }
  }

  // ------------------------------------------------------------------ broadcasts, deliveries and saved rows

  function Broadcasts(events: seq<Event>, u: Update): nat {
    if events == [] then 0
    else
      var e := events[|events| - 1];
      Broadcasts(events[..|events| - 1], u) + if e.Broadcast? && e.update == u then 1 else 0
  }

  function Saves(events: seq<Event>, u: Update): nat {
    if events == [] then 0
    else
      var e := events[|events| - 1];
      Saves(events[..|events| - 1], u) + if e.Save? && e.update == u then 1 else 0
  }

  function Deliveries(events: seq<Event>, i: nat, u: Update): nat {
    if events == [] then 0
    else Deliveries(events[..|events| - 1], i, u) + if events[|events| - 1] == Deliver(i, u) then 1 else 0
  }

  lemma CountsStep(s: System, e: Event, i: nat, u: Update)
    requires Enabled(s, e) && i < |s.inboxes|
    ensures
      var t := Next(s, e);
      var made := if e.Broadcast? && e.update == u then 1 else 0;
      |t.inboxes| == |s.inboxes|
      && t.broadcasts[u] == s.broadcasts[u] + made
      && t.saved[u] == s.saved[u] + (if e.Save? && e.update == u then 1 else 0)
      && t.inboxes[i][u] == s.inboxes[i][u] + made - if e == Deliver(i, u) then 1 else 0
  {}

  /** Every session, the sender's too, has had each broadcast delivered or will have. */
  lemma {:induction false} EveryBroadcastReaches(
      base: set<Op>, sessions: nat, events: seq<Event>, i: nat, u: Update)
    requires Possible(base, sessions, events) && i < sessions
    ensures |Run(base, sessions, events).inboxes| == sessions
    ensures
      var s := Run(base, sessions, events);
      s.broadcasts[u] == Broadcasts(events, u) && s.saved[u] == Saves(events, u)
      && s.inboxes[i][u] == Broadcasts(events, u) - Deliveries(events, i, u)
  {
    RunSizes(base, sessions, events);
    if events != [] {
      var before := events[..|events| - 1];
      EveryBroadcastReaches(base, sessions, before, i, u);
      CountsStep(Run(base, sessions, before), events[|events| - 1], i, u);
    }
  }
}
