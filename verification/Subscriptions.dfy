/** The PostgreSQL subscription adapter: a command loop that keeps listeners on a connection and
    reconnects when the connection is lost. */
module Subscriptions {
  import opened Options

  /** A channel name and a callback; wrapped callbacks are numbered in the order they are created. */
  datatype Key = Key(channel: string, callback: nat)
  datatype Listener = Listener(channel: string, wrapper: nat)
  datatype Command = Subscribe(topic: string, callback: nat) | Unsubscribe(topic: string, callback: nat)

  type Wrappers = map<Key, nat>

  /** What the environment does next: a connection is refused, or given and lost at the n-th listener; the
      connection is lost while the loop waits; a command arrives, and the connection may be lost while
      it is handled; the queue is shut down, and the connection may be lost at the n-th listener removed. */
  datatype Event =
    | Refuse
    | Connect(failsAt: Option<nat>)
    | Lose
    | Receive(command: Command, fails: bool)
    | ShutDown(removalFailsAt: Option<nat>)

  /** The loop is reconnecting, waits for a command on a connection, or has ended. */
  datatype Link = Down | Waiting(live: bool, listeners: set<Listener>) | Stopped(live: bool, listeners: set<Listener>)

  /** Nothing is received from a queue once it was shut down. */
  datatype State = State(wrappers: Wrappers, created: nat, done: seq<Command>, closed: bool, link: Link)

  predicate Takes(s: State, e: Event) {
    e.Receive? && s.link.Waiting? && !s.closed
  }

  ghost function Items(wrappers: Wrappers): set<Listener> {
    set k | k in wrappers :: Listener(k.channel, wrappers[k])
  }

  function KeyOf(channelOf: string -> string, c: Command): Key {
    Key(channelOf(c.topic), c.callback)
  }

  /** One command on a connection. */
  ghost function Handled(channelOf: string -> string, s: State, c: Command, fails: bool): State
    requires s.link.Waiting?
  {
    var key := KeyOf(channelOf, c);
    match c
    case Subscribe(_, _) =>
      var next := s.(wrappers := s.wrappers[key := s.created], created := s.created + 1);
      if !s.link.live || fails then next.(link := Down)
      else
        next.(done := s.done + [c],
              link := Waiting(true, s.link.listeners + {Listener(key.channel, s.created)}))
    case Unsubscribe(_, _) =>
      if key !in s.wrappers then s.(done := s.done + [c])
      else
        var next := s.(wrappers := s.wrappers - {key});
        if !s.link.live then next.(done := s.done + [c])
        else if fails then next.(link := Down)
        else
          next.(done := s.done + [c],
                link := Waiting(true, s.link.listeners - {Listener(key.channel, s.wrappers[key])}))
  }

  /** The loop after one event; an event that cannot happen leaves it as it is. */
  ghost function Next(channelOf: string -> string, s: State, e: Event): State {
    match e
    case Refuse => s
    case Connect(failsAt) =>
      if !s.link.Down? || (failsAt.Some? && failsAt.value < |s.wrappers|) then s
      else s.(link := Waiting(true, Items(s.wrappers)))
    case Lose => if s.link.Waiting? then s.(link := Waiting(false, s.link.listeners)) else s
    case Receive(command, fails) => if Takes(s, e) then Handled(channelOf, s, command, fails) else s
    case ShutDown(failsAt) =>
      if !s.link.Waiting? then s
      else if !s.link.live then s.(closed := true, link := Stopped(false, s.link.listeners))
      else if failsAt.Some? && failsAt.value < |s.wrappers| then s.(closed := true, link := Down)
      else s.(closed := true, link := Stopped(true, s.link.listeners - Items(s.wrappers)))
  }

  ghost function Run(channelOf: string -> string, events: seq<Event>): State {
    if events == [] then State(map[], 0, [], false, Down)
    else Next(channelOf, Run(channelOf, events[..|events| - 1]), events[|events| - 1])
  }

  // ------------------------------------------------------------------ the adapter

  /** A connection of the pool: a call on a lost one raises, but removing a listener returns at once. */
  class Connection {
    var live: bool
    var listeners: set<Listener>

    constructor ()
      ensures live && listeners == {}
    {
      live, listeners := true, {};
    }

    method AddListener(channel: string, wrapper: nat, fails: bool) returns (raised: bool)
      modifies this
      ensures raised == (!old(live) || fails)
      ensures raised ==> !live
      ensures !raised ==> live && listeners == old(listeners) + {Listener(channel, wrapper)}
    {
      raised := !live || fails;
      if raised {
        live := false;
      } else {
        listeners := listeners + {Listener(channel, wrapper)};
      }
    }

    method RemoveListener(channel: string, wrapper: nat, fails: bool) returns (raised: bool)
      modifies this
      ensures raised == (old(live) && fails)
      ensures live == (old(live) && !fails)
      ensures listeners == if old(live) then old(listeners) - {Listener(channel, wrapper)} else old(listeners)
    {
      raised := false;
      if live {
        listeners := listeners - {Listener(channel, wrapper)};
        if fails { live, raised := false, true; }
      }
    }
  }

  class Adapter {
    const channelOf: string -> string
    var wrappers: Wrappers
    var created: nat
    var done: seq<Command>
    var closed: bool

    constructor (channelOf: string -> string)
      ensures wrappers == map[] && created == 0 && done == [] && !closed && this.channelOf == channelOf
    {
      this.channelOf, wrappers, created, done, closed := channelOf, map[], 0, [], false;
    }

    ghost predicate Shows(s: State)
      reads this
    {
      wrappers == s.wrappers && created == s.created && done == s.done && closed == s.closed
    }

    /** The loop that installs the listeners; the connection may be lost at the n-th. */
    method InstallListeners(connection: Connection, failsAt: Option<nat>) returns (raised: bool)
      requires connection.live && connection.listeners == {}
      modifies connection
      ensures raised == (failsAt.Some? && failsAt.value < |wrappers|)
      ensures !raised ==> connection.live && connection.listeners == Items(wrappers)
    {
      var left, n := wrappers.Keys, 0;
      ItemsEnds(wrappers);
      raised := false;
      while left != {}
        invariant left <= wrappers.Keys && |left| + n == |wrappers|
        invariant failsAt.Some? ==> failsAt.value >= n
        invariant !raised && connection.live && connection.listeners == Items(wrappers - left)
        decreases |left|
      {
        var k :| k in left;
        ItemsMore(wrappers, left, k);
        raised := connection.AddListener(k.channel, wrappers[k], failsAt == Some(n));
        if raised { return; }
        left, n := left - {k}, n + 1;
      }
    }

    /** A connection has lost the listeners that were taken, unless it was not live. */
    ghost predicate Left(connection: Connection, all: set<Listener>, gone: set<Listener>)
      reads connection
    {
      connection.listeners == if connection.live then all - gone else all
    }

    method RemoveOne(
        connection: Connection, l: Listener, fails: bool, ghost all: set<Listener>, ghost gone: set<Listener>)
      returns (raised: bool)
      requires Left(connection, all, gone)
      modifies connection
      ensures raised == (old(connection.live) && fails)
      ensures connection.live == (old(connection.live) && !raised)
      ensures !raised ==> Left(connection, all, gone + {l})
    {
      TakenMore(all, gone, l);
      raised := connection.RemoveListener(l.channel, l.wrapper, fails);
    }

    /** The loop that removes the listeners when the connection is given back; a live connection may be
        lost at the n-th, which raises. */
    method RemoveListeners(connection: Connection, failsAt: Option<nat>) returns (raised: bool)
      modifies connection
      ensures raised == (old(connection.live) && failsAt.Some? && failsAt.value < |wrappers|)
      ensures connection.live == (old(connection.live) && !raised)
      ensures !raised ==> Left(connection, old(connection.listeners), Items(wrappers))
    {
      var left, n := wrappers.Keys, 0;
      ghost var all, gone: set<Listener> := connection.listeners, {};
      ItemsEnds(wrappers);
      raised := false;
      while left != {}
        invariant left <= wrappers.Keys && |left| + n == |wrappers|
        invariant old(connection.live) && failsAt.Some? ==> failsAt.value >= n
        invariant !raised && connection.live == old(connection.live)
        invariant gone == Items(wrappers - left)
        invariant Left(connection, all, gone)
        decreases |left|
      {
        var k :| k in left;
        var l := Listener(k.channel, wrappers[k]);
        ItemsMore(wrappers, left, k);
        raised := RemoveOne(connection, l, failsAt == Some(n), all, gone);
        if raised { return; }
        left, n, gone := left - {k}, n + 1, gone + {l};
      }
    }

    /** `_process_command` */
    method ProcessCommand(connection: Connection, command: Command, fails: bool, ghost s: State)
      returns (raised: bool)
      requires Shows(s) && s.link == Waiting(connection.live, connection.listeners)
      modifies this, connection
      ensures Shows(Handled(channelOf, s, command, fails))
      ensures Handled(channelOf, s, command, fails).link
           == if raised then Down else Waiting(connection.live, connection.listeners)
    {
      var key := Key(channelOf(command.topic), command.callback);
      if command.Subscribe? {
        var wrapper := created;
        created := created + 1;
        wrappers := wrappers[key := wrapper];
        raised := connection.AddListener(key.channel, wrapper, fails);
      } else if key in wrappers {
        var wrapper := wrappers[key];
        wrappers := wrappers - {key};
        raised := connection.RemoveListener(key.channel, wrapper, fails);
      } else {
        raised := false;
      }
      if !raised { done := done + [command]; }
    }

    /** `_listen_loop`, driven by what happens to it. */
    method ListenLoop(events: seq<Event>) returns (connection: Connection?, stopped: bool)
      requires wrappers == map[] && created == 0 && done == [] && !closed
      modifies this
      ensures Shows(Run(channelOf, events))
      ensures Run(channelOf, events).link == LinkOf(connection, stopped)
    {
      connection, stopped := null, false;
      for i := 0 to |events|
        invariant Shows(Run(channelOf, events[..i]))
        invariant connection == null || fresh(connection)
        invariant Run(channelOf, events[..i]).link == LinkOf(connection, stopped)
      {
        assert events[..i + 1][..i] == events[..i];
        connection, stopped := Round(connection, stopped, events[i], Run(channelOf, events[..i]));
      }
      assert events[..|events|] == events;
    }

    ghost function LinkOf(connection: Connection?, stopped: bool): Link
      reads connection
    {
      if connection == null then Down
      else if stopped then Stopped(connection.live, connection.listeners)
      else Waiting(connection.live, connection.listeners)
    }

    /** One event of `_listen_loop`. */
    method Round(c: Connection?, over: bool, e: Event, ghost s: State)
      returns (connection: Connection?, stopped: bool)
      requires Shows(s) && s.link == LinkOf(c, over)
      modifies this, c
      ensures connection == null || connection == c || fresh(connection)
      ensures Shows(Next(channelOf, s, e)) && Next(channelOf, s, e).link == LinkOf(connection, stopped)
    {
      connection, stopped := c, over;
      match e
      case Refuse =>
      case Connect(failsAt) =>
        if c == null {
          connection := new Connection();
          var raised := InstallListeners(connection, failsAt);
          stopped := false;
          if raised {
            var again := RemoveListeners(connection, None);
            connection := null;
          }
        }
      case Lose =>
        if c != null && !over { c.live := false; }
      case Receive(command, fails) =>
        if c != null && !over && !closed {
          var raised := ProcessCommand(c, command, fails, s);
          if raised {
            var again := RemoveListeners(c, None);
            connection := null;
          }
        }
      case ShutDown(failsAt) =>
        if c != null && !over {
          closed := true;
          var raised := RemoveListeners(c, failsAt);
          if raised { connection := null; } else { stopped := true; }
        }
    }
  }

  lemma ItemsAdd(m: Wrappers, k: Key, w: nat)
    requires k !in m
    ensures Items(m[k := w]) == Items(m) + {Listener(k.channel, w)}
  {
    forall l | l in Items(m) ensures l in Items(m[k := w]) {
      var j :| j in m && l == Listener(j.channel, m[j]);
      assert m[k := w][j] == m[j];
    }
    assert m[k := w][k] == w;
  }

  lemma ItemsMore(m: Wrappers, left: set<Key>, k: Key)
    requires k in left && left <= m.Keys
    ensures Items(m - (left - {k})) == Items(m - left) + {Listener(k.channel, m[k])}
  {
    ItemsAdd(m - left, k, m[k]);
    assert m - (left - {k}) == (m - left)[k := m[k]];
  }

  lemma ItemsEnds(m: Wrappers)
    ensures Items(m - m.Keys) == {} && Items(m - {}) == Items(m)
  {
    assert m - m.Keys == map[] && m - {} == m;
  }

  lemma TakenMore(all: set<Listener>, gone: set<Listener>, l: Listener)
    ensures all - gone - {l} == all - (gone + {l})
  {}

  // ------------------------------------------------------------------ whole runs

  /** What one event makes of a set of active subscriptions. */
  function NextActive(channelOf: string -> string, s: State, e: Event, active: set<Key>): set<Key> {
    if !Takes(s, e) then active
    else if e.command.Subscribe? then active + {KeyOf(channelOf, e.command)}
    else active - {KeyOf(channelOf, e.command)}
  }

  /** A subscription is active from a subscribe command until an unsubscribe command for it. */
  ghost function Active(channelOf: string -> string, events: seq<Event>): set<Key> {
    if events == [] then {}
    else
      var before := events[..|events| - 1];
      NextActive(channelOf, Run(channelOf, before), events[|events| - 1], Active(channelOf, before))
  }

  /** Whether an active subscription was subscribed again, after one event. */
  predicate NextRepeated(channelOf: string -> string, s: State, e: Event, repeated: bool, active: set<Key>) {
    s.link.Waiting?
    && (repeated || (Takes(s, e) && e.command.Subscribe? && KeyOf(channelOf, e.command) in active))
  }

  /** On the connection in use, a subscribe command arrived for a subscription that was active. */
  ghost predicate Repeated(channelOf: string -> string, events: seq<Event>) {
    events != []
    && var before := events[..|events| - 1];
       NextRepeated(channelOf, Run(channelOf, before), events[|events| - 1],
                    Repeated(channelOf, before), Active(channelOf, before))
  }

  /** Wrapped callbacks are told apart, and the newest is the last created. */
  ghost predicate Numbered(s: State) {
    && (forall k | k in s.wrappers :: s.wrappers[k] < s.created)
    && (forall j, k | j in s.wrappers && k in s.wrappers && j != k :: s.wrappers[j] != s.wrappers[k])
    && (s.link.Waiting? ==> forall l | l in s.link.listeners :: l.wrapper < s.created)
  }

  lemma HandledNumbered(channelOf: string -> string, s: State, c: Command, fails: bool)
    requires Numbered(s) && s.link.Waiting?
    ensures Numbered(Handled(channelOf, s, c, fails))
  {}

  lemma ItemsNumbered(m: Wrappers, bound: nat)
    requires forall k | k in m :: m[k] < bound
    ensures forall l | l in Items(m) :: l.wrapper < bound
  {}

  lemma NextNumbered(channelOf: string -> string, s: State, e: Event)
    requires Numbered(s)
    ensures Numbered(Next(channelOf, s, e))
  {
    ItemsNumbered(s.wrappers, s.created);
    if Takes(s, e) { HandledNumbered(channelOf, s, e.command, e.fails); }
  }

  lemma {:induction false} RunNumbered(channelOf: string -> string, events: seq<Event>)
    ensures Numbered(Run(channelOf, events))
  {
    if events != [] {
      RunNumbered(channelOf, events[..|events| - 1]);
      NextNumbered(channelOf, Run(channelOf, events[..|events| - 1]), events[|events| - 1]);
    }
  }

  lemma NextWrappers(channelOf: string -> string, s: State, e: Event)
    ensures Next(channelOf, s, e).wrappers.Keys == NextActive(channelOf, s, e, s.wrappers.Keys)
  {}

  /** The dictionary holds exactly the active subscriptions. */
  lemma {:induction false} WrappersActive(channelOf: string -> string, events: seq<Event>)
    ensures Run(channelOf, events).wrappers.Keys == Active(channelOf, events)
  {
    if events != [] {
      var before, e := events[..|events| - 1], events[|events| - 1];
      WrappersActive(channelOf, before);
      NextWrappers(channelOf, Run(channelOf, before), e);
    }
  }

  // ------------------------------------------------------------------ commands that are marked done

  /** A command as it was received: whether the connection was live and the subscription active. */
  datatype Receipt = Receipt(command: Command, live: bool, active: bool, fails: bool)

  /** The caller of a lost command waits for it for ever. */
  predicate Lost(r: Receipt) {
    if r.command.Subscribe? then !r.live || r.fails else r.active && r.live && r.fails
  }

  ghost function Receipts(channelOf: string -> string, events: seq<Event>): seq<Receipt> {
    if events == [] then []
    else
      var before, e := events[..|events| - 1], events[|events| - 1];
      var s := Run(channelOf, before);
      Receipts(channelOf, before)
      + if Takes(s, e) then
          [Receipt(e.command, s.link.live, KeyOf(channelOf, e.command) in Active(channelOf, before), e.fails)]
        else []
  }

  /** The commands that were not lost, in the order they were received. */
  function Served(receipts: seq<Receipt>): seq<Command> {
    if receipts == [] then []
    else
      var last := receipts[|receipts| - 1];
      Served(receipts[..|receipts| - 1]) + if Lost(last) then [] else [last.command]
  }

  lemma ServedMore(receipts: seq<Receipt>, r: Receipt)
    ensures Served(receipts + [r]) == Served(receipts) + if Lost(r) then [] else [r.command]
  {
    assert (receipts + [r])[..|receipts|] == receipts;
  }

  lemma NextDone(channelOf: string -> string, s: State, e: Event, active: bool)
    requires Takes(s, e) && (active <==> KeyOf(channelOf, e.command) in s.wrappers)
    ensures
      Next(channelOf, s, e).done
      == s.done + if Lost(Receipt(e.command, s.link.live, active, e.fails)) then [] else [e.command]
  {
    assert s.done + [] == s.done;
  }

  /** In every run exactly the received commands that were not lost are marked done, in their order. */
  lemma {:induction false} DoneExactly(channelOf: string -> string, events: seq<Event>)
    ensures Run(channelOf, events).done == Served(Receipts(channelOf, events))
  {
    if events != [] {
      var before, e := events[..|events| - 1], events[|events| - 1];
      var s := Run(channelOf, before);
      DoneExactly(channelOf, before);
      if Takes(s, e) {
        WrappersActive(channelOf, before);
        var active := KeyOf(channelOf, e.command) in Active(channelOf, before);
        NextDone(channelOf, s, e, active);
        ServedMore(Receipts(channelOf, before), Receipt(e.command, s.link.live, active, e.fails));
      } else {
        NotTaken(channelOf, s, e);
        assert Receipts(channelOf, events) == Receipts(channelOf, before);
      }
    }
  }

  lemma NotTaken(channelOf: string -> string, s: State, e: Event)
    requires !Takes(s, e)
    ensures Next(channelOf, s, e).done == s.done
  {}

  /** A command is marked done exactly if it is an unsubscribe command with nothing to remove or no
      connection to remove it from, or its call on a live connection did not fail. */
  lemma MarkedIff(channelOf: string -> string, before: seq<Event>, c: Command, fails: bool)
    requires Takes(Run(channelOf, before), Receive(c, fails))
    ensures
      var s, key := Run(channelOf, before), KeyOf(channelOf, c);
      var after := Run(channelOf, before + [Receive(c, fails)]);
      if (c.Unsubscribe? && (key !in Active(channelOf, before) || !s.link.live)) || (s.link.live && !fails) then
        after.done == s.done + [c]
      else
        after.done == s.done && after.link.Down?
  {
    var events := before + [Receive(c, fails)];
    assert events[..|before|] == before;
    WrappersActive(channelOf, before);
  }

  /** What a live connection listens to: every active subscription, and more exactly when one of them
      was subscribed again. */
  ghost predicate Exact(s: State, repeated: bool) {
    s.link.Waiting? && s.link.live ==>
      Items(s.wrappers) <= s.link.listeners && (repeated <==> Items(s.wrappers) != s.link.listeners)
  }

  lemma ItemsOf(m: Wrappers, k: Key)
    requires k in m
    ensures Listener(k.channel, m[k]) in Items(m)
  {}

  lemma SubscribeExact(s: State, key: Key, repeated: bool)
    requires Numbered(s) && s.link.Waiting? && s.link.live && Exact(s, repeated)
    ensures
      var added := Listener(key.channel, s.created);
      Exact(s.(wrappers := s.wrappers[key := s.created], link := Waiting(true, s.link.listeners + {added})),
            repeated || key in s.wrappers)
  {
    var m, ls := s.wrappers, s.link.listeners;
    var added := Listener(key.channel, s.created);
    var rest := m - {key};
    assert rest[key := s.created] == m[key := s.created];
    ItemsAdd(rest, key, s.created);
    if key in m {
      var before := Listener(key.channel, m[key]);
      ItemsOf(m, key);
      assert before !in Items(rest) && before != added;
      ItemsAdd(rest, key, m[key]);
      assert rest[key := m[key]] == m;
    } else {
      assert rest == m && added !in Items(m) && added !in ls;
      assert Items(m) != ls ==> exists l :: l in ls && l !in Items(m);
    }
  }

  lemma UnsubscribeExact(s: State, key: Key, repeated: bool)
    requires Numbered(s) && s.link.Waiting? && s.link.live && Exact(s, repeated) && key in s.wrappers
    ensures
      var gone := Listener(key.channel, s.wrappers[key]);
      Exact(s.(wrappers := s.wrappers - {key}, link := Waiting(true, s.link.listeners - {gone})), repeated)
  {
    var m, rest := s.wrappers, s.wrappers - {key};
    var gone := Listener(key.channel, m[key]);
    ItemsAdd(rest, key, m[key]);
    assert rest[key := m[key]] == m && gone !in Items(rest);
    assert Items(m) != s.link.listeners ==> exists l :: l in s.link.listeners && l !in Items(m);
  }

  lemma ReceiveExact(channelOf: string -> string, s: State, e: Event, repeated: bool)
    requires Numbered(s) && Exact(s, repeated) && Takes(s, e)
    ensures Exact(Handled(channelOf, s, e.command, e.fails), NextRepeated(channelOf, s, e, repeated, s.wrappers.Keys))
  {
    var key := KeyOf(channelOf, e.command);
    if s.link.live && !e.fails {
      if e.command.Subscribe? {
        SubscribeExact(s, key, repeated);
      } else if key in s.wrappers {
        UnsubscribeExact(s, key, repeated);
      }
    }
  }

  lemma NextExact(channelOf: string -> string, s: State, e: Event, repeated: bool)
    requires Numbered(s) && Exact(s, repeated)
    ensures Exact(Next(channelOf, s, e), NextRepeated(channelOf, s, e, repeated, s.wrappers.Keys))
  {
    if Takes(s, e) { ReceiveExact(channelOf, s, e, repeated); }
  }

  /** Whenever the loop waits on a live connection, its listeners are those of the active subscriptions,
      and only those exactly when none was subscribed again while active. */
  lemma {:induction false} ListenersExact(channelOf: string -> string, events: seq<Event>)
    ensures Exact(Run(channelOf, events), Repeated(channelOf, events))
  {
    if events != [] {
      var before := events[..|events| - 1];
      ListenersExact(channelOf, before);
      RunNumbered(channelOf, before);
      WrappersActive(channelOf, before);
      NextExact(channelOf, Run(channelOf, before), events[|events| - 1], Repeated(channelOf, before));
    }
  }

  /** Shutting down on a live connection ends the loop unless a removal fails, and then leaves no listener
      on the connection exactly when none was subscribed again; otherwise the loop reconnects. */
  lemma ShutDownClean(channelOf: string -> string, before: seq<Event>, failsAt: Option<nat>)
    requires Run(channelOf, before).link.Waiting? && Run(channelOf, before).link.live
    ensures
      var s := Next(channelOf, Run(channelOf, before), ShutDown(failsAt));
      if failsAt.Some? && failsAt.value < |Active(channelOf, before)| then s.link.Down?
      else s.link.Stopped? && (s.link.listeners == {} <==> !Repeated(channelOf, before))
  {
    ListenersExact(channelOf, before);
    WrappersActive(channelOf, before);
    var s := Run(channelOf, before);
    assert |s.wrappers| == |s.wrappers.Keys|;
    var left := s.link.listeners - Items(s.wrappers);
    if left == {} {
      forall l | l in s.link.listeners ensures l in Items(s.wrappers) {
        assert l !in left;
      }
    }
  }

  /** How the loop moves from one event to the next: a connection that no listener loses brings it up; only a loss
      makes the connection dead; a lost command and a removal that fails on a live connection bring it down;
      any other shutdown ends it, and then nothing happens any more. */
  lemma LinkMoves(channelOf: string -> string, before: seq<Event>, e: Event)
    ensures
      var s, t, active := Run(channelOf, before), Run(channelOf, before + [e]), Active(channelOf, before);
      match s.link
      case Down =>
        if e.Connect? && (e.failsAt.None? || e.failsAt.value >= |active|) then t.link.Waiting? && t.link.live
        else t == s
      case Stopped(_, _) => t == s
      case Waiting(live, listeners) =>
        match e
        case Lose => t.link == Waiting(false, listeners)
        case Receive(c, fails) =>
          if s.closed then t == s
          else if Lost(Receipt(c, live, KeyOf(channelOf, c) in active, fails)) then t.link.Down?
          else t.link.Waiting? && t.link.live == live && (!live ==> t.link.listeners == listeners)
        case ShutDown(failsAt) =>
          t.closed
          && if !live then t.link == Stopped(false, listeners)
             else if failsAt.Some? && failsAt.value < |active| then t.link.Down?
             else t.link.Stopped? && t.link.live
        case _ => t == s
  {
    var events := before + [e];
    assert events[..|before|] == before;
    WrappersActive(channelOf, before);
    assert |Run(channelOf, before).wrappers| == |Run(channelOf, before).wrappers.Keys|;
  }

  /** A subscribe command that loses the connection is never marked done, yet its listener is there after
      the next connection is set up. */
  lemma LostSubscribeInstalled(channelOf: string -> string, s: State, c: Command)
    requires Takes(s, Receive(c, true)) && c.Subscribe?
    ensures
      var after := Next(channelOf, Next(channelOf, s, Receive(c, true)), Connect(None));
      after.done == s.done && after.link.Waiting?
      && Listener(channelOf(c.topic), s.created) in after.link.listeners
  {
    var after := Next(channelOf, Next(channelOf, s, Receive(c, true)), Connect(None));
    ItemsOf(after.wrappers, KeyOf(channelOf, c));
  }

  /** A subscription made twice with one callback has two listeners, and unsubscribing leaves one. */
  lemma RepeatedLeaks(channelOf: string -> string, s: State, topic: string, callback: nat)
    requires Numbered(s) && s.link.Waiting? && s.link.live && !s.closed
    requires Key(channelOf(topic), callback) !in s.wrappers
    ensures
      var c, u := Receive(Subscribe(topic, callback), false), Receive(Unsubscribe(topic, callback), false);
      var after := Next(channelOf, Next(channelOf, Next(channelOf, s, c), c), u);
      after.wrappers == s.wrappers
      && after.link == Waiting(true, s.link.listeners + {Listener(channelOf(topic), s.created)})
  {
    var c, u := Receive(Subscribe(topic, callback), false), Receive(Unsubscribe(topic, callback), false);
    var key := Key(channelOf(topic), callback);
    var first, second := Listener(key.channel, s.created), Listener(key.channel, s.created + 1);
    var once := Next(channelOf, s, c);
    var twice := Next(channelOf, once, c);
    assert twice.wrappers == s.wrappers[key := s.created + 1];
    assert twice.link == Waiting(true, s.link.listeners + {first} + {second});
    assert s.link.listeners + {first} + {second} - {second} == s.link.listeners + {first};
    assert Next(channelOf, twice, u).wrappers == s.wrappers;
  }
}
