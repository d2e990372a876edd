/** The protocol between the sessions of a live document, on values. A document is the set of the
    operations it holds, and an update is a set of operations. */
module Replication {
  type Op = nat
  type Update = set<Op>

  datatype Message = SyncStep1(have: set<Op>) | SyncStep2(update: Update) | SyncUpdate(update: Update)

  /** A session: its document, the messages of its clients, and its tasks, those that still have to
      broadcast an update and those that still have to save it. */
  datatype Replica = Replica(
    document: set<Op>, queue: seq<Message>, broadcasting: multiset<Update>, saving: multiset<Update>)

  /** All sessions of a topic, the broadcasts on their way to each, those made, and the saved rows. */
  datatype System = System(
    replicas: seq<Replica>, inboxes: seq<multiset<Update>>, broadcasts: multiset<Update>, saved: multiset<Update>)

  /** What happens next: a client message arrives at a session, a session takes the next one, a task
      broadcasts or saves its update, or a broadcast reaches a session. */
  datatype Event =
    | Arrive(session: nat, message: Message)
    | Process(session: nat)
    | Broadcast(session: nat, update: Update)
    | Save(session: nat, update: Update)
    | Deliver(session: nat, update: Update)

  /** A transaction that integrates an update; the observer makes a task of what is new, unless the
      transaction has a remote origin. */
  function Transacted(r: Replica, update: Update, remote: bool): Replica {
    var added := update - r.document;
    r.(document := r.document + update,
       broadcasting := r.broadcasting + if added == {} || remote then multiset{} else multiset{added})
  }

  /** One round of the listen loop, when a message waits. */
  function Processed(r: Replica): Replica
    requires r.queue != []
  {
    var rest := r.(queue := r.queue[1..]);
    match r.queue[0]
    case SyncStep1(_) => rest
    case SyncStep2(update) => Transacted(rest, update, false)
    case SyncUpdate(update) => Transacted(rest, update, false)
  }

  predicate Enabled(s: System, e: Event) {
    e.session < |s.replicas| == |s.inboxes|
    && match e
       case Arrive(_, _) => true
       case Process(i) => s.replicas[i].queue != []
       case Broadcast(i, u) => u in s.replicas[i].broadcasting
       case Save(i, u) => u in s.replicas[i].saving
       case Deliver(i, u) => u in s.inboxes[i]
  }

  function SendAll(inboxes: seq<multiset<Update>>, u: Update): (r: seq<multiset<Update>>)
    ensures |r| == |inboxes|
    ensures forall i | 0 <= i < |inboxes| :: r[i] == inboxes[i] + multiset{u}
  {
    seq(|inboxes|, i requires 0 <= i < |inboxes| => inboxes[i] + multiset{u})
  }

  function Next(s: System, e: Event): System
    requires Enabled(s, e)
  {
    var i := e.session;
    var r := s.replicas[i];
    match e
    case Arrive(_, m) => s.(replicas := s.replicas[i := r.(queue := r.queue + [m])])
    case Process(_) => s.(replicas := s.replicas[i := Processed(r)])
    case Broadcast(_, u) =>
      s.(replicas := s.replicas[i := r.(broadcasting := r.broadcasting - multiset{u}, saving := r.saving + multiset{u})],
         inboxes := SendAll(s.inboxes, u), broadcasts := s.broadcasts + multiset{u})
    case Save(_, u) =>
      s.(replicas := s.replicas[i := r.(saving := r.saving - multiset{u})], saved := s.saved + multiset{u})
    case Deliver(_, u) =>
      s.(replicas := s.replicas[i := Transacted(r, u, true)],
         inboxes := s.inboxes[i := s.inboxes[i] - multiset{u}])
  }

  /** Every session starts from the same document, with nothing to do. */
  function Start(base: set<Op>, sessions: nat): System {
    System(seq(sessions, _ => Replica(base, [], multiset{}, multiset{})), seq(sessions, _ => multiset{}),
           multiset{}, multiset{})
  }

  predicate Possible(base: set<Op>, sessions: nat, events: seq<Event>)
    decreases |events|, 0
  {
    events == []
    || (Possible(base, sessions, events[..|events| - 1])
        && Enabled(Run(base, sessions, events[..|events| - 1]), events[|events| - 1]))
  }

  function Run(base: set<Op>, sessions: nat, events: seq<Event>): System
    requires Possible(base, sessions, events)
    decreases |events|, 1
  {
    if events == [] then Start(base, sessions)
    else Next(Run(base, sessions, events[..|events| - 1]), events[|events| - 1])
  }

  /** What an event adds to the document of a client's session, when that is not nothing. */
  function Contributed(s: System, e: Event): multiset<Update>
    requires Enabled(s, e)
  {
    if !e.Process? || s.replicas[e.session].queue[0].SyncStep1? then multiset{}
    else
      var added := s.replicas[e.session].queue[0].update - s.replicas[e.session].document;
      if added == {} then multiset{} else multiset{added}
  }

  /** The changes that clients made in a run. */
  function Changes(base: set<Op>, sessions: nat, events: seq<Event>): multiset<Update>
    requires Possible(base, sessions, events)
  {
    if events == [] then multiset{}
    else
      Changes(base, sessions, events[..|events| - 1])
      + Contributed(Run(base, sessions, events[..|events| - 1]), events[|events| - 1])
  }

  // ------------------------------------------------------------------ every change once

  /** How many tasks will broadcast the update. */
  function Broadcasting(replicas: seq<Replica>, u: Update): nat {
    if replicas == [] then 0
    else Broadcasting(replicas[..|replicas| - 1], u) + replicas[|replicas| - 1].broadcasting[u]
  }

  /** How many tasks will save the update. */
  function Saving(replicas: seq<Replica>, u: Update): nat {
    if replicas == [] then 0 else Saving(replicas[..|replicas| - 1], u) + replicas[|replicas| - 1].saving[u]
  }

  lemma {:induction false} TasksChange(replicas: seq<Replica>, i: nat, r: Replica, u: Update)
    requires i < |replicas|
    ensures Broadcasting(replicas[i := r], u)
         == Broadcasting(replicas, u) - replicas[i].broadcasting[u] + r.broadcasting[u]
    ensures Saving(replicas[i := r], u) == Saving(replicas, u) - replicas[i].saving[u] + r.saving[u]
  {
    var n := |replicas| - 1;
    var after := replicas[i := r];
    if i < n {
      TasksChange(replicas[..n], i, r, u);
      assert after[..n] == replicas[..n][i := r] && after[n] == replicas[n];
    } else {
      assert after[..n] == replicas[..n] && after[n] == r;
    }
  }

  /** A change is with a task that will broadcast it, or was broadcast; a broadcast is with a task that
      will save it, or was saved. */
  predicate OnceAt(s: System, changes: multiset<Update>, u: Update) {
    && changes[u] == Broadcasting(s.replicas, u) + s.broadcasts[u]
    && s.broadcasts[u] == Saving(s.replicas, u) + s.saved[u]
  }

  ghost predicate Once(s: System, changes: multiset<Update>) {
    forall u: Update :: OnceAt(s, changes, u)
  }

  lemma {:induction false} NothingAtStart(base: set<Op>, n: nat, u: Update)
    ensures Broadcasting(Start(base, n).replicas, u) == 0 == Saving(Start(base, n).replicas, u)
  {
    if n > 0 {
      NothingAtStart(base, n - 1, u);
      assert Start(base, n).replicas[..n - 1] == Start(base, n - 1).replicas;
    }
  }

  lemma NextOnce(s: System, changes: multiset<Update>, e: Event, u: Update)
    requires Enabled(s, e) && OnceAt(s, changes, u)
    ensures OnceAt(Next(s, e), changes + Contributed(s, e), u)
  {
    TasksChange(s.replicas, e.session, Next(s, e).replicas[e.session], u);
  }

  /** Each change a client made is broadcast once and saved once, and nothing else is: applying a broadcast
      makes no change. */
  lemma {:induction false} EveryChangeOnce(base: set<Op>, sessions: nat, events: seq<Event>)
    requires Possible(base, sessions, events)
    ensures Once(Run(base, sessions, events), Changes(base, sessions, events))
  {
    var s, changes := Run(base, sessions, events), Changes(base, sessions, events);
    if events == [] {
      forall u: Update ensures OnceAt(s, changes, u) { NothingAtStart(base, sessions, u); }
    } else {
      var before, e := events[..|events| - 1], events[|events| - 1];
      EveryChangeOnce(base, sessions, before);
      var s0, c0 := Run(base, sessions, before), Changes(base, sessions, before);
      forall u: Update ensures OnceAt(s, changes, u) {
        assert OnceAt(s0, c0, u);
        NextOnce(s0, c0, e, u);
      }
    }
  }

  // ------------------------------------------------------------------ convergence

  /** The operation is in one of the updates. */
  ghost predicate Covers(updates: multiset<Update>, x: Op) {
    exists u | u in updates :: x in u
  }

  ghost predicate Underway(replicas: seq<Replica>, x: Op) {
    exists i | 0 <= i < |replicas| :: Covers(replicas[i].broadcasting, x)
  }

  /** The operation is in the session's document, or on its way to it. */
  ghost predicate Reaches(s: System, i: nat, x: Op)
    requires i < |s.replicas| == |s.inboxes|
  {
    x in s.replicas[i].document || Covers(s.inboxes[i], x) || Underway(s.replicas, x)
  }

  lemma CoversSplit(a: multiset<Update>, b: multiset<Update>, x: Op)
    ensures Covers(a + b, x) <==> Covers(a, x) || Covers(b, x)
  {
    if Covers(a, x) { var u :| u in a && x in u; assert u in a + b; }
    if Covers(b, x) { var u :| u in b && x in u; assert u in a + b; }
  }

  lemma CoversOne(u: Update, x: Op)
    ensures Covers(multiset{u}, x) <==> x in u
  {
    assert u in multiset{u};
  }

  lemma CoversTake(a: multiset<Update>, u: Update, x: Op)
    requires u in a
    ensures Covers(a, x) <==> Covers(a - multiset{u}, x) || x in u
  {
    CoversSplit(a - multiset{u}, multiset{u}, x);
    CoversOne(u, x);
    assert a - multiset{u} + multiset{u} == a;
  }

  ghost predicate UnderwayElsewhere(replicas: seq<Replica>, i: nat, x: Op) {
    exists j | 0 <= j < |replicas| && j != i :: Covers(replicas[j].broadcasting, x)
  }

  lemma UnderwayChange(replicas: seq<Replica>, i: nat, r: Replica, x: Op)
    requires i < |replicas|
    ensures Underway(replicas[i := r], x) <==> Covers(r.broadcasting, x) || UnderwayElsewhere(replicas, i, x)
  {
    var after := replicas[i := r];
    if Underway(after, x) {
      var j :| 0 <= j < |after| && Covers(after[j].broadcasting, x);
      assert j != i ==> after[j] == replicas[j];
    }
    if Covers(r.broadcasting, x) { assert after[i] == r; }
    if UnderwayElsewhere(replicas, i, x) {
      var j :| 0 <= j < |replicas| && j != i && Covers(replicas[j].broadcasting, x);
      assert after[j] == replicas[j];
    }
  }

  /** The operations a session has or will have are those of the base and of the clients' changes. */
  ghost predicate Reached(s: System, base: set<Op>, changes: multiset<Update>, i: nat, x: Op) {
    i < |s.replicas| == |s.inboxes| ==> (Reaches(s, i, x) <==> x in base || Covers(changes, x))
  }

  lemma TransactedCovers(r: Replica, update: Update, remote: bool, x: Op)
    ensures
      var q := Transacted(r, update, remote);
      (x in q.document <==> x in r.document || x in update)
      && (Covers(q.broadcasting, x) <==> Covers(r.broadcasting, x) || (!remote && x in update && x !in r.document))
  {
    var added := update - r.document;
    CoversSplit(r.broadcasting, if added == {} || remote then multiset{} else multiset{added}, x);
    CoversOne(added, x);
  }

  lemma ContributedCovers(s: System, e: Event, x: Op)
    requires Enabled(s, e)
    ensures
      Covers(Contributed(s, e), x)
      <==> e.Process? && !s.replicas[e.session].queue[0].SyncStep1?
           && x in s.replicas[e.session].queue[0].update && x !in s.replicas[e.session].document
  {
    if e.Process? && !s.replicas[e.session].queue[0].SyncStep1? {
      CoversOne(s.replicas[e.session].queue[0].update - s.replicas[e.session].document, x);
    }
  }

  lemma NextReached(s: System, base: set<Op>, changes: multiset<Update>, e: Event, i: nat, x: Op)
    requires Enabled(s, e) && i < |s.replicas| && Reached(s, base, changes, i, x)
    ensures Reached(Next(s, e), base, changes + Contributed(s, e), i, x)
  {
    var j := e.session;
    var t, r := Next(s, e), s.replicas[j];
    assert s.replicas[j := r] == s.replicas;
    UnderwayChange(s.replicas, j, r, x);
    UnderwayChange(s.replicas, j, t.replicas[j], x);
    CoversSplit(changes, Contributed(s, e), x);
    ContributedCovers(s, e, x);
    match e
    case Process(_) =>
      if !r.queue[0].SyncStep1? {
        TransactedCovers(r.(queue := r.queue[1..]), r.queue[0].update, false, x);
      }
    case Broadcast(_, u) =>
      CoversTake(r.broadcasting, u, x);
      CoversSplit(s.inboxes[i], multiset{u}, x);
      CoversOne(u, x);
    case Deliver(_, u) =>
      TransactedCovers(r, u, true, x);
      CoversTake(s.inboxes[j], u, x);
    case _ =>
  }

  lemma {:induction false} RunSizes(base: set<Op>, sessions: nat, events: seq<Event>)
    requires Possible(base, sessions, events)
    ensures var s := Run(base, sessions, events); |s.replicas| == |s.inboxes| == sessions
  {
    if events != [] { RunSizes(base, sessions, events[..|events| - 1]); }
  }

  lemma {:induction false} AllReached(base: set<Op>, sessions: nat, events: seq<Event>, i: nat, x: Op)
    requires Possible(base, sessions, events) && i < sessions
    ensures Reached(Run(base, sessions, events), base, Changes(base, sessions, events), i, x)
  {
    if events != [] {
      var before := events[..|events| - 1];
      AllReached(base, sessions, before, i, x);
      RunSizes(base, sessions, before);
      NextReached(Run(base, sessions, before), base, Changes(base, sessions, before), events[|events| - 1], i, x);
    }
  }

  predicate NoTasks(replicas: seq<Replica>) {
    forall i | 0 <= i < |replicas| :: replicas[i].broadcasting == multiset{} == replicas[i].saving
  }

  predicate NoLetters(inboxes: seq<multiset<Update>>) {
    forall i | 0 <= i < |inboxes| :: inboxes[i] == multiset{}
  }

  /** No task has a broadcast to make or a row to save, and no broadcast is on its way. */
  predicate Quiet(s: System) {
    NoTasks(s.replicas) && NoLetters(s.inboxes)
  }

  lemma {:induction false} QuietTasks(replicas: seq<Replica>, u: Update)
    requires NoTasks(replicas)
    ensures Broadcasting(replicas, u) == 0 == Saving(replicas, u)
  {
    if replicas != [] { QuietTasks(replicas[..|replicas| - 1], u); }
  }

  /** When nothing is in flight, every change was saved exactly once, and every session holds the base
      and the saved updates, so all of them are equal. */
  lemma QuietConverged(base: set<Op>, sessions: nat, events: seq<Event>, i: nat)
    requires Possible(base, sessions, events) && i < sessions && Quiet(Run(base, sessions, events))
    ensures
      var s := Run(base, sessions, events);
      && |s.replicas| == sessions
      && s.saved == s.broadcasts == Changes(base, sessions, events)
      && (forall x :: x in s.replicas[i].document <==> x in base || Covers(s.saved, x))
  {
    var s, changes := Run(base, sessions, events), Changes(base, sessions, events);
    RunSizes(base, sessions, events);
    EveryChangeOnce(base, sessions, events);
    forall u: Update ensures s.saved[u] == s.broadcasts[u] == changes[u] {
      assert OnceAt(s, changes, u);
      QuietTasks(s.replicas, u);
    }
    assert s.saved == s.broadcasts == changes;
    forall x ensures x in s.replicas[i].document <==> x in base || Covers(s.saved, x) {
      AllReached(base, sessions, events, i, x);
    }
  }

  /** All sessions have the same document when nothing is in flight. */
  lemma QuietEqual(base: set<Op>, sessions: nat, events: seq<Event>, i: nat, j: nat)
    requires Possible(base, sessions, events) && i < sessions && j < sessions
    requires Quiet(Run(base, sessions, events))
    ensures
      var s := Run(base, sessions, events);
      |s.replicas| == sessions && s.replicas[i].document == s.replicas[j].document
  {
    QuietConverged(base, sessions, events, i);
    QuietConverged(base, sessions, events, j);
  }

  // ------------------------------------------------------------------ coming to rest

  /** How many broadcasts the tasks still have to make. */
  function Senders(replicas: seq<Replica>): nat {
    if replicas == [] then 0
    else Senders(replicas[..|replicas| - 1]) + |replicas[|replicas| - 1].broadcasting|
  }

  /** How many rows they still have to save. */
  function Savers(replicas: seq<Replica>): nat {
    if replicas == [] then 0 else Savers(replicas[..|replicas| - 1]) + |replicas[|replicas| - 1].saving|
  }

  function Letters(inboxes: seq<multiset<Update>>): nat {
    if inboxes == [] then 0 else Letters(inboxes[..|inboxes| - 1]) + |inboxes[|inboxes| - 1]|
  }

  /** The steps left: a broadcast is made, delivered to every session and saved. */
  function Load(s: System): nat {
    (|s.replicas| + 2) * Senders(s.replicas) + Savers(s.replicas) + Letters(s.inboxes)
  }

  lemma {:induction false} TasksStep(replicas: seq<Replica>, i: nat, r: Replica)
    requires i < |replicas|
    ensures Senders(replicas[i := r]) == Senders(replicas) - |replicas[i].broadcasting| + |r.broadcasting|
    ensures Savers(replicas[i := r]) == Savers(replicas) - |replicas[i].saving| + |r.saving|
  {
    var n := |replicas| - 1;
    var after := replicas[i := r];
    if i < n {
      TasksStep(replicas[..n], i, r);
      assert after[..n] == replicas[..n][i := r] && after[n] == replicas[n];
    } else {
      assert after[..n] == replicas[..n] && after[n] == r;
    }
  }

  lemma {:induction false} LettersTake(inboxes: seq<multiset<Update>>, i: nat, u: Update)
    requires i < |inboxes| && u in inboxes[i]
    ensures Letters(inboxes[i := inboxes[i] - multiset{u}]) == Letters(inboxes) - 1
  {
    var n := |inboxes| - 1;
    var after := inboxes[i := inboxes[i] - multiset{u}];
    if i < n {
      LettersTake(inboxes[..n], i, u);
      assert after[..n] == inboxes[..n][i := inboxes[i] - multiset{u}] && after[n] == inboxes[n];
    } else {
      assert after[..n] == inboxes[..n];
    }
  }

  lemma {:induction false} LettersSend(inboxes: seq<multiset<Update>>, u: Update)
    ensures Letters(SendAll(inboxes, u)) == Letters(inboxes) + |inboxes|
  {
    if inboxes != [] {
      var n := |inboxes| - 1;
      LettersSend(inboxes[..n], u);
      assert SendAll(inboxes, u)[..n] == SendAll(inboxes[..n], u);
    }
  }

  lemma OneSender(cost: nat, before: nat, after: nat)
    requires before == after + 1
    ensures cost * before == cost * after + cost
  {}

  lemma SenderChange(replicas: seq<Replica>, i: nat, r: Replica, u: Update)
    requires i < |replicas| && u in replicas[i].broadcasting
    requires r.broadcasting == replicas[i].broadcasting - multiset{u} && r.saving == replicas[i].saving + multiset{u}
    ensures Senders(replicas[i := r]) == Senders(replicas) - 1 && Savers(replicas[i := r]) == Savers(replicas) + 1
  {
    TasksStep(replicas, i, r);
  }

  lemma SaverChange(replicas: seq<Replica>, i: nat, r: Replica, u: Update)
    requires i < |replicas| && u in replicas[i].saving
    requires r.broadcasting == replicas[i].broadcasting && r.saving == replicas[i].saving - multiset{u}
    ensures Senders(replicas[i := r]) == Senders(replicas) && Savers(replicas[i := r]) == Savers(replicas) - 1
  {
    TasksStep(replicas, i, r);
  }

  lemma BroadcastLeft(s: System, i: nat, u: Update)
    requires Enabled(s, Broadcast(i, u))
    ensures Load(Next(s, Broadcast(i, u))) == Load(s) - 1
  {
    var t := Next(s, Broadcast(i, u));
    SenderChange(s.replicas, i, t.replicas[i], u);
    LettersSend(s.inboxes, u);
    OneSender(|s.replicas| + 2, Senders(s.replicas), Senders(t.replicas));
  }

  lemma SaveLeft(s: System, i: nat, u: Update)
    requires Enabled(s, Save(i, u))
    ensures Load(Next(s, Save(i, u))) == Load(s) - 1
  {
    SaverChange(s.replicas, i, Next(s, Save(i, u)).replicas[i], u);
  }

  lemma DeliverLeft(s: System, i: nat, u: Update)
    requires Enabled(s, Deliver(i, u))
    ensures Load(Next(s, Deliver(i, u))) == Load(s) - 1
  {
    var r := s.replicas[i];
    assert r.broadcasting + multiset{} == r.broadcasting;
    TasksStep(s.replicas, i, Transacted(r, u, true));
    LettersTake(s.inboxes, i, u);
  }

  /** Every step of a task and every delivery brings the system one step closer to rest; an echo would not. */
  lemma StepsLeft(s: System, e: Event)
    requires Enabled(s, e) && !e.Arrive? && !e.Process?
    ensures Load(Next(s, e)) == Load(s) - 1
  {
    match e
    case Broadcast(i, u) => BroadcastLeft(s, i, u);
    case Save(i, u) => SaveLeft(s, i, u);
    case Deliver(i, u) => DeliverLeft(s, i, u);
  }

  lemma {:induction false} NoTasksIff(replicas: seq<Replica>)
    ensures Senders(replicas) == 0 == Savers(replicas) <==> NoTasks(replicas)
  {
    if replicas != [] {
      var n := |replicas| - 1;
      NoTasksIff(replicas[..n]);
      assert forall i | 0 <= i < n :: replicas[..n][i] == replicas[i];
    }
  }

  lemma {:induction false} NoLettersIff(inboxes: seq<multiset<Update>>)
    ensures Letters(inboxes) == 0 <==> NoLetters(inboxes)
  {
    if inboxes != [] {
      var n := |inboxes| - 1;
      NoLettersIff(inboxes[..n]);
      assert forall i | 0 <= i < n :: inboxes[..n][i] == inboxes[i];
    }
  }

  lemma SumZero(cost: nat, x: nat, y: nat, z: nat)
    requires cost > 0
    ensures cost * x + y + z == 0 <==> x == 0 && y == 0 && z == 0
  {
    if x > 0 { OneSender(cost, x, x - 1); }
  }

  /** The system is at rest exactly when no step is left. */
  lemma RestIff(s: System)
    ensures Quiet(s) <==> Load(s) == 0
  {
    NoTasksIff(s.replicas);
    NoLettersIff(s.inboxes);
    SumZero(|s.replicas| + 2, Senders(s.replicas), Savers(s.replicas), Letters(s.inboxes));
  }

  /** Unless the system is at rest, some task or delivery can take a step. */
  lemma StepPossible(s: System) returns (e: Event)
    requires |s.replicas| == |s.inboxes| && !Quiet(s)
    ensures Enabled(s, e) && !e.Arrive? && !e.Process?
  {
    if i :| 0 <= i < |s.replicas| && s.replicas[i].broadcasting != multiset{} {
      var u :| u in s.replicas[i].broadcasting;
      e := Broadcast(i, u);
    } else if i :| 0 <= i < |s.replicas| && s.replicas[i].saving != multiset{} {
      var u :| u in s.replicas[i].saving;
      e := Save(i, u);
    } else {
      var i :| 0 <= i < |s.inboxes| && s.inboxes[i] != multiset{};
      var u :| u in s.inboxes[i];
      e := Deliver(i, u);
    }
  }

  // ------------------------------------------------------------------ the handshake with a client

  /** What a session sends back. */
  function Replies(document: set<Op>, m: Message): seq<Message> {
    if m.SyncStep1? then [SyncStep2(document - m.have), SyncStep1(document)] else []
  }

  /** A client answers the session's step 1 with what it lacks; after that both hold the same document. */
  lemma HandshakeMeets(r: Replica, client: set<Op>)
    requires r.queue != [] && r.queue[0] == SyncStep1(client)
    ensures
      var replies := Replies(r.document, r.queue[0]);
      |replies| == 2 && replies[0].SyncStep2? && replies[1].SyncStep1?
      && var mine := client + replies[0].update;
         var server := Processed(r).(queue := [SyncStep2(mine - replies[1].have)]);
         Processed(server).document == mine
         && (Processed(server).broadcasting == r.broadcasting <==> client <= r.document)
  {
    var replies := Replies(r.document, r.queue[0]);
    var mine := client + replies[0].update;
    assert mine - replies[1].have == client - r.document;
    var server := Processed(r).(queue := [SyncStep2(mine - replies[1].have)]);
    var added := (mine - replies[1].have) - server.document;
    assert added == client - r.document;
    if added != {} {
      assert (r.broadcasting + multiset{added})[added] == r.broadcasting[added] + 1;
    } else {
      assert r.broadcasting + multiset{} == r.broadcasting;
      forall x | x in client ensures x in r.document { assert x !in added; }
    }
    assert Processed(server).document == r.document + (client - r.document);
  }
}
