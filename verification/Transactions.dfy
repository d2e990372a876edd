/** `transaction` and `after_commit`: callbacks wait in the list of the innermost transaction and run once it
    has committed; a callback may register more of them while the list is worked off. */
module Transactions {
  /** A callback and what it does when it runs, as far as it gets. */
  datatype Callback = Callback(id: nat, body: seq<Action>)

  /** `after_commit`; a transaction of its own, which may end with an exception that the surrounding code
      handles; or a block that joins the surrounding transaction by `using_db`. */
  datatype Action =
    | AfterCommit(callback: Callback)
    | Transaction(body: seq<Action>, raises: bool)
    | Joined(body: seq<Action>)

  // ------------------------------------------------------------------ sizes

  ghost function CallbackWeight(c: Callback): nat
    decreases c
  {
    1 + Weight(c.body)
  }

  ghost function ActionWeight(a: Action): (w: nat)
    ensures w >= 1
    ensures a.AfterCommit? ==> CallbackWeight(a.callback) < w
    ensures !a.AfterCommit? ==> Weight(a.body) < w
    decreases a
  {
    match a
    case AfterCommit(c) => 1 + CallbackWeight(c)
    case Transaction(body, _) => 1 + Weight(body)
    case Joined(body) => 1 + Weight(body)
  }

  ghost function Weight(actions: seq<Action>): nat
    decreases actions
  {
    if actions == [] then 0 else ActionWeight(actions[0]) + Weight(actions[1..])
  }

  ghost function QueueWeight(queue: seq<Callback>): nat {
    if queue == [] then 0 else CallbackWeight(queue[0]) + QueueWeight(queue[1..])
  }

  lemma {:induction false} QueueConcat(a: seq<Callback>, b: seq<Callback>)
    ensures QueueWeight(a + b) == QueueWeight(a) + QueueWeight(b)
  {
    if a == [] {
      assert a + b == b;
    } else {
      var ab, rest := a + b, a[1..];
      QueueConcat(rest, b);
      assert ab[0] == a[0] && ab[1..] == rest + b;
    }
  }

  lemma {:induction false} PendingWeight(actions: seq<Action>)
    ensures QueueWeight(Pending(actions)) <= Weight(actions)
    decreases Weight(actions)
  {
    if actions != [] {
      PendingWeight(actions[1..]);
      var first := actions[0];
      if first.Joined? { PendingWeight(first.body); }
      QueueConcat(PendingOf(first), Pending(actions[1..]));
      if first.AfterCommit? { assert [first.callback][1..] == []; }
    }
  }

  /** What is left of the list after one callback weighs less. */
  lemma QueueShrinks(queue: seq<Callback>)
    requires queue != []
    ensures QueueWeight(queue[1..] + Pending(queue[0].body)) < QueueWeight(queue)
  {
    QueueConcat(queue[1..], Pending(queue[0].body));
    PendingWeight(queue[0].body);
  }

  // ------------------------------------------------------------------ what a transaction does

  function PendingOf(a: Action): seq<Callback>
    decreases ActionWeight(a), 0
  {
    match a
    case AfterCommit(c) => [c]
    case Transaction(_, _) => []
    case Joined(body) => Pending(body)
  }

  /** The callbacks that actions within a transaction leave in its list. */
  function Pending(actions: seq<Action>): seq<Callback>
    decreases Weight(actions), 1
  {
    if actions == [] then [] else PendingOf(actions[0]) + Pending(actions[1..])
  }

  /** The callbacks that run while the actions do: those of transactions among them, and outside of
      transactions every one at once. */
  function ActionsLog(actions: seq<Action>, inTransaction: bool): seq<nat>
    decreases Weight(actions), 1
  {
    if actions == [] then [] else ActionLog(actions[0], inTransaction) + ActionsLog(actions[1..], inTransaction)
  }

  function ActionLog(a: Action, inTransaction: bool): seq<nat>
    decreases ActionWeight(a), 0
  {
    match a
    case AfterCommit(c) => if inTransaction then [] else [c.id] + ActionsLog(c.body, false)
    case Transaction(body, raises) => ScopeLog(body, raises)
    case Joined(body) => ActionsLog(body, inTransaction)
  }

  /** Working off the list, which grows at its end meanwhile. */
  function Drain(queue: seq<Callback>): seq<nat>
    decreases QueueWeight(queue), 0
  {
    if queue == [] then []
    else
      QueueShrinks(queue);
      [queue[0].id] + ActionsLog(queue[0].body, true) + Drain(queue[1..] + Pending(queue[0].body))
  }

  /** A whole transaction; when it raises its own callbacks are dropped. */
  function ScopeLog(body: seq<Action>, raises: bool): seq<nat>
    decreases Weight(body), 2
  {
    PendingWeight(body);
    ActionsLog(body, true) + if raises then [] else Drain(Pending(body))
  }

  // ------------------------------------------------------------------ the code

  class Context {
    /** The context variables. */
    var callbacks: seq<Callback>
    var inTransaction: bool
    /** The callbacks that ran. */
    ghost var ran: seq<nat>

    constructor ()
      ensures callbacks == [] && !inTransaction && ran == []
    {
      callbacks, inTransaction, ran := [], false, [];
    }

    method RunActions(actions: seq<Action>)
      modifies this
      ensures inTransaction == old(inTransaction)
      ensures callbacks == old(callbacks) + if inTransaction then Pending(actions) else []
      ensures ran == old(ran) + ActionsLog(actions, inTransaction)
      decreases Weight(actions), 1
    {
      if actions != [] {
        ghost var first, rest := actions[0], actions[1..];
        RunAction(actions[0]);
        RunActions(actions[1..]);
        Regroup(old(callbacks), PendingOf(first), Pending(rest));
        Regroup(old(ran), ActionLog(first, inTransaction), ActionsLog(rest, inTransaction));
      }
    }

    method RunAction(a: Action)
      modifies this
      ensures inTransaction == old(inTransaction)
      ensures callbacks == old(callbacks) + if inTransaction then PendingOf(a) else []
      ensures ran == old(ran) + ActionLog(a, inTransaction)
      decreases ActionWeight(a), 0
    {
      match a
      case AfterCommit(callback) => RegisterAfterCommit(callback);
      case Transaction(body, raises) => RunTransaction(body, raises);
      case Joined(body) => RunActions(body);
    }

    /** `after_commit` */
    method RegisterAfterCommit(callback: Callback)
      modifies this
      ensures inTransaction == old(inTransaction)
      ensures callbacks == old(callbacks) + if inTransaction then [callback] else []
      ensures ran == old(ran) + ActionLog(AfterCommit(callback), inTransaction)
      decreases CallbackWeight(callback), 3
    {
      if inTransaction {
        callbacks := callbacks + [callback];
      } else {
        ran := ran + [callback.id];
        RunActions(callback.body);
        Regroup(old(ran), [callback.id], ActionsLog(callback.body, false));
      }
    }

    /** `transaction` without `using_db`: new variables, the body, the callbacks if it did not raise, and the
        old variables again. */
    method RunTransaction(body: seq<Action>, raises: bool)
      modifies this
      ensures callbacks == old(callbacks) && inTransaction == old(inTransaction)
      ensures ran == old(ran) + ScopeLog(body, raises)
      decreases Weight(body), 2
    {
      var callbackToken, inTransactionToken := callbacks, inTransaction;
      callbacks, inTransaction := [], true;
      RunActions(body);
      assert callbacks == Pending(body);
      if !raises {
        PendingWeight(body);
        RunCallbacks();
        Regroup(old(ran), ActionsLog(body, true), Drain(Pending(body)));
      }
      callbacks, inTransaction := callbackToken, inTransactionToken;
    }

    /** One round of the loop over the list. */
    method RunCallback(i: nat)
      requires inTransaction && i < |callbacks|
      modifies this
      ensures inTransaction && i < |callbacks|
      ensures callbacks[i + 1..] == old(callbacks[i + 1..]) + Pending(old(callbacks[i].body))
      ensures ran == old(ran) + ([old(callbacks[i].id)] + ActionsLog(old(callbacks[i].body), true))
      decreases CallbackWeight(callbacks[i]), 0
    {
      var callback := callbacks[i];
      ran := ran + [callback.id];
      RunActions(callback.body);
      Regroup(old(ran), [callback.id], ActionsLog(callback.body, true));
    }

    /** The loop over the list, which the callbacks append to. */
    method RunCallbacks()
      requires inTransaction
      modifies this
      ensures inTransaction && ran == old(ran) + Drain(old(callbacks))
      decreases QueueWeight(callbacks), 1
    {
      var i := 0;
      ghost var log: seq<nat> := [];
      assert callbacks[0..] == callbacks;
      while i < |callbacks|
        invariant i <= |callbacks| && inTransaction
        invariant QueueWeight(callbacks[i..]) <= old(QueueWeight(callbacks))
        invariant ran == old(ran) + log && log + Drain(callbacks[i..]) == Drain(old(callbacks))
        decreases QueueWeight(callbacks[i..])
      {
        ghost var queue := callbacks[i..];
        ghost var first := [queue[0].id] + ActionsLog(queue[0].body, true);
        assert queue[0] == callbacks[i] && queue[1..] == callbacks[i + 1..];
        QueueShrinks(queue);
        RunCallback(i);
        i := i + 1;
        assert callbacks[i..] == queue[1..] + Pending(queue[0].body);
        Regroup(old(ran), log, first);
        Regroup(log, first, Drain(callbacks[i..]));
        log := log + first;
      }
      assert callbacks[i..] == [];
    }
  }

  lemma Regroup<T>(a: seq<T>, b: seq<T>, c: seq<T>)
    ensures a + b + c == a + (b + c)
  {}

  // ------------------------------------------------------------------ exactly once

  /** How often a callback is due: once for each time it is registered in a transaction that commits. */
  function Due(actions: seq<Action>, commits: bool, id: nat): nat
    decreases Weight(actions), 1
  {
    if actions == [] then 0 else DueOf(actions[0], commits, id) + Due(actions[1..], commits, id)
  }

  function DueOf(a: Action, commits: bool, id: nat): nat
    decreases ActionWeight(a), 0
  {
    match a
    case AfterCommit(c) => if commits then (if c.id == id then 1 else 0) + Due(c.body, true, id) else 0
    case Transaction(body, raises) => Due(body, !raises, id)
    case Joined(body) => Due(body, commits, id)
  }

  function DueAll(queue: seq<Callback>, id: nat): nat {
    if queue == [] then 0 else DueOf(AfterCommit(queue[0]), true, id) + DueAll(queue[1..], id)
  }

  lemma {:induction false} DueConcat(a: seq<Callback>, b: seq<Callback>, id: nat)
    ensures DueAll(a + b, id) == DueAll(a, id) + DueAll(b, id)
  {
    if a == [] {
      assert a + b == b;
    } else {
      var ab, c := a + b, a[1..];
      DueConcat(c, b, id);
      assert ab[0] == a[0] && ab[1..] == c + b;
    }
  }

  /** What is due in a transaction that commits is due anyway, or waits in its list. */
  lemma {:induction false} DueSplit(actions: seq<Action>, id: nat)
    ensures Due(actions, true, id) == Due(actions, false, id) + DueAll(Pending(actions), id)
    decreases Weight(actions), 1
  {
    if actions != [] {
      DueSplitOf(actions[0], id);
      DueSplit(actions[1..], id);
      DueConcat(PendingOf(actions[0]), Pending(actions[1..]), id);
    }
  }

  lemma {:induction false} DueSplitOf(a: Action, id: nat)
    ensures DueOf(a, true, id) == DueOf(a, false, id) + DueAll(PendingOf(a), id)
    decreases ActionWeight(a), 0
  {
    match a
    case AfterCommit(c) => assert [c][1..] == [];
    case Transaction(_, _) =>
    case Joined(body) => DueSplit(body, id);
  }

  /** How often a callback ran. */
  function Count(log: seq<nat>, id: nat): nat {
    multiset(log)[id]
  }

  lemma CountConcat(a: seq<nat>, b: seq<nat>, id: nat)
    ensures Count(a + b, id) == Count(a, id) + Count(b, id)
  {
    assert multiset(a + b) == multiset(a) + multiset(b);
  }

  /** A transaction runs each callback exactly as often as it is due: those of transactions that commit, and
      none of one that raises. */
  lemma {:induction false} ScopeRunsDue(body: seq<Action>, raises: bool, id: nat)
    ensures Count(ScopeLog(body, raises), id) == Due(body, !raises, id)
    decreases Weight(body), 2
  {
    PendingWeight(body);
    ActionsRunDue(body, id);
    if raises {
      assert ActionsLog(body, true) + [] == ActionsLog(body, true);
    } else {
      DrainRunsDue(Pending(body), id);
      DueSplit(body, id);
      CountConcat(ActionsLog(body, true), Drain(Pending(body)), id);
    }
  }

  lemma {:induction false} ActionsRunDue(actions: seq<Action>, id: nat)
    ensures Count(ActionsLog(actions, true), id) == Due(actions, false, id)
    decreases Weight(actions), 1
  {
    if actions != [] {
      ActionsRunDue(actions[1..], id);
      match actions[0] {
        case AfterCommit(_) =>
        case Transaction(body, raises) => ScopeRunsDue(body, raises, id);
        case Joined(body) => ActionsRunDue(body, id);
      }
      CountConcat(ActionLog(actions[0], true), ActionsLog(actions[1..], true), id);
    }
  }

  lemma {:induction false} DrainRunsDue(queue: seq<Callback>, id: nat)
    ensures Count(Drain(queue), id) == DueAll(queue, id)
    decreases QueueWeight(queue), 0
  {
    if queue != [] {
      var c, left := queue[0], queue[1..] + Pending(queue[0].body);
      QueueShrinks(queue);
      DrainRunsDue(left, id);
      ActionsRunDue(c.body, id);
      DueConcat(queue[1..], Pending(c.body), id);
      DueSplit(c.body, id);
      CountConcat([c.id], ActionsLog(c.body, true), id);
      CountConcat([c.id] + ActionsLog(c.body, true), Drain(left), id);
    }
  }

  /** Outside of transactions each callback runs as often as it is registered, unless in one that raises. */
  lemma {:induction false} OutsideRunsDue(actions: seq<Action>, id: nat)
    ensures Count(ActionsLog(actions, false), id) == Due(actions, true, id)
    decreases Weight(actions), 3
  {
    if actions != [] {
      OutsideRunsDue(actions[1..], id);
      match actions[0] {
        case AfterCommit(c) =>
          OutsideRunsDue(c.body, id);
          CountConcat([c.id], ActionsLog(c.body, false), id);
        case Transaction(body, raises) => ScopeRunsDue(body, raises, id);
        case Joined(body) => OutsideRunsDue(body, id);
      }
      CountConcat(ActionLog(actions[0], false), ActionsLog(actions[1..], false), id);
    }
  }

  // ------------------------------------------------------------------ order

  /** What the first n callbacks of a list log. */
  function LogOf(queue: seq<Callback>, n: nat): seq<nat>
    requires n <= |queue|
  {
    if n == 0 then [] else LogOf(queue, n - 1) + ([queue[n - 1].id] + ActionsLog(queue[n - 1].body, true))
  }

  /** What the first n callbacks of a list register. */
  function AddedBy(queue: seq<Callback>, n: nat): seq<Callback>
    requires n <= |queue|
  {
    if n == 0 then [] else AddedBy(queue, n - 1) + Pending(queue[n - 1].body)
  }

  /** The callbacks of a list run in the order they were registered, and those they register themselves
      after all of them. */
  lemma {:induction false} RegistrationOrder(queue: seq<Callback>, n: nat)
    requires n <= |queue|
    ensures Drain(queue) == LogOf(queue, n) + Drain(queue[n..] + AddedBy(queue, n))
  {
    if n == 0 {
      assert queue[0..] + [] == queue;
    } else {
      var c, rest, added := queue[n - 1], queue[n..], AddedBy(queue, n - 1);
      RegistrationOrder(queue, n - 1);
      assert queue[n - 1..] == [c] + rest;
      DrainFirst(c, rest + added);
      Regroup([c], rest, added);
      Regroup(rest, added, Pending(c.body));
      Regroup(LogOf(queue, n - 1), [c.id] + ActionsLog(c.body, true), Drain(rest + AddedBy(queue, n)));
    }
  }

  lemma DrainFirst(c: Callback, rest: seq<Callback>)
    ensures Drain([c] + rest) == [c.id] + ActionsLog(c.body, true) + Drain(rest + Pending(c.body))
  {
    assert ([c] + rest)[1..] == rest;
  }

  lemma {:induction false} ActionsLogSplit(actions: seq<Action>, inTransaction: bool, n: nat)
    requires n <= |actions|
    ensures
      ActionsLog(actions, inTransaction)
      == ActionsLog(actions[..n], inTransaction) + ActionsLog(actions[n..], inTransaction)
  {
    if n == 0 {
      assert actions[0..] == actions;
    } else {
      var rest := actions[1..];
      ActionsLogSplit(rest, inTransaction, n - 1);
      assert actions[..n][1..] == rest[..n - 1] && rest[n - 1..] == actions[n..];
      Regroup(ActionLog(actions[0], inTransaction), ActionsLog(rest[..n - 1], inTransaction),
              ActionsLog(actions[n..], inTransaction));
    }
  }

  /** Outside of a transaction a callback runs as soon as it is registered, before anything that comes later. */
  lemma OutsideAtOnce(actions: seq<Action>, n: nat)
    requires n < |actions| && actions[n].AfterCommit?
    ensures ActionsLog(actions[..n], false) + [actions[n].callback.id] <= ActionsLog(actions, false)
  {
    var c, rest := actions[n].callback, actions[n..];
    ActionsLogSplit(actions, false, n);
    assert rest[0] == actions[n];
    var log := ActionsLog(rest, false);
    assert log == [c.id] + ActionsLog(c.body, false) + ActionsLog(rest[1..], false);
    assert log[0] == c.id;
    assert ActionsLog(actions[..n], false) + [c.id] <= ActionsLog(actions[..n], false) + log;
  }

  /** A transaction of its own within one that raises has run its callbacks although the outer one is
      rolled back. */
  lemma InnerCommitsAlone(body: seq<Action>)
    ensures ScopeLog([Transaction(body, false)], true) == ScopeLog(body, false)
  {
    var outer := [Transaction(body, false)];
    assert outer[1..] == [];
    assert ActionsLog(outer, true) == ScopeLog(body, false) + [];
    assert ActionsLog(outer, true) + [] == ScopeLog(body, false);
  }
}
