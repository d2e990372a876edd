/** The session dictionary that knows whether it was modified, and the cookies of the session middleware. */
module Sessions {
  import opened Options

  const SESSION_COOKIE := "session"
  const MARKER_COOKIE := "logged_in"

  datatype Value = Null | Bool(b: bool) | Num(n: int) | Str(s: string)

  type Contents = map<string, Value>

  /** Whether the session is of a user: its `user_id` is there and true as a condition. */
  predicate LoggedIn(c: Contents) {
    "user_id" in c
    && match c["user_id"]
       case Null => false
       case Bool(b) => b
       case Num(n) => n != 0
       case Str(s) => s != ""
  }

  // ------------------------------------------------------------------ the dictionary

  /** What a request does to its session; the key of `PopItem` is the last one that was inserted. */
  datatype Action =
    | SetItem(key: string, value: Value)
    | DelItem(key: string)
    | Clear
    | Pop(key: string)
    | PopItem(key: string)
    | SetDefault(key: string, value: Value)
    | Update(other: Contents)
    | UnionInPlace(other: Contents)
    | MarkModified

  datatype Session = Session(contents: Contents, modified: bool)

  /** The session after an action; one that raises may still have marked it. */
  function Acted(s: Session, a: Action): Session {
    match a
    case SetItem(key, value) => Session(s.contents[key := value], true)
    case DelItem(key) => Session(s.contents - {key}, true)
    case Clear => Session(map[], s.modified || s.contents != map[])
    case Pop(key) => Session(s.contents - {key}, s.modified || key in s.contents)
    case PopItem(key) => Session(s.contents - {key}, true)
    case SetDefault(key, value) =>
      if key in s.contents then s else Session(s.contents[key := value], true)
    case Update(other) => Session(s.contents + other, true)
    case UnionInPlace(other) => s.(contents := s.contents + other)
    case MarkModified => s.(modified := true)
  }

  function ActedAll(s: Session, actions: seq<Action>): Session {
    if actions == [] then s else Acted(ActedAll(s, actions[..|actions| - 1]), actions[|actions| - 1])
  }

  class ModifiableSessionDict {
    var contents: Contents
    var modified: bool

    constructor (contents: Contents)
      ensures View() == Session(contents, false)
    {
      this.contents, modified := contents, false;
    }

    function View(): Session
      reads this
    {
      Session(contents, modified)
    }

    method SetItem(key: string, value: Value)
      modifies this
      ensures View() == Acted(old(View()), Action.SetItem(key, value))
    {
      modified := true;
      contents := contents[key := value];
    }

    /** `del session[key]`; false is a `KeyError`, raised after the session was marked. */
    method DelItem(key: string) returns (ok: bool)
      modifies this
      ensures View() == Acted(old(View()), Action.DelItem(key)) && ok == (key in old(contents))
    {
      modified := true;
      ok := key in contents;
      contents := contents - {key};
    }

    method Clear()
      modifies this
      ensures View() == Acted(old(View()), Action.Clear)
    {
      if contents != map[] { modified := true; }
      contents := map[];
    }

    /** `pop`; none is the default, or a `KeyError` without one. */
    method Pop(key: string) returns (value: Option<Value>)
      modifies this
      ensures View() == Acted(old(View()), Action.Pop(key))
      ensures value == if key in old(contents) then Some(old(contents)[key]) else None
    {
      value := None;
      if key in contents {
        modified := true;
        value := Some(contents[key]);
      }
      contents := contents - {key};
    }

    method PopItem(key: string) returns (ok: bool)
      modifies this
      ensures View() == Acted(old(View()), Action.PopItem(key)) && ok == (key in old(contents))
    {
      modified := true;
      ok := key in contents;
      contents := contents - {key};
    }

    method SetDefault(key: string, value: Value) returns (held: Value)
      modifies this
      ensures View() == Acted(old(View()), Action.SetDefault(key, value))
      ensures key in contents && held == contents[key]
    {
      if key !in contents {
        modified := true;
        contents := contents[key := value];
      }
      held := contents[key];
    }

    method Update(other: Contents)
      modifies this
      ensures View() == Acted(old(View()), Action.Update(other))
    {
      modified := true;
      contents := contents + other;
    }

    /** `|=`, which the class does not override. */
    method UnionInPlace(other: Contents)
      modifies this
      ensures View() == Acted(old(View()), Action.UnionInPlace(other))
    {
      contents := contents + other;
    }

    method MarkModified()
      modifies this
      ensures View() == Acted(old(View()), Action.MarkModified)
    {
      modified := true;
    }

    /** What the application does in one request. */
    method Act(actions: seq<Action>)
      modifies this
      ensures View() == ActedAll(old(View()), actions)
    {
      for i := 0 to |actions|
        invariant View() == ActedAll(old(View()), actions[..i])
      {
        assert actions[..i + 1][..i] == actions[..i];
        ActOnce(actions[i]);
      }
      assert actions[..|actions|] == actions;
    }

    method ActOnce(a: Action)
      modifies this
      ensures View() == Acted(old(View()), a)
    {
      match a
      case SetItem(key, value) => SetItem(key, value);
      case DelItem(key) => var _ := DelItem(key);
      case Clear => Clear();
      case Pop(key) => var _ := Pop(key);
      case PopItem(key) => var _ := PopItem(key);
      case SetDefault(key, value) => var _ := SetDefault(key, value);
      case Update(other) => Update(other);
      case UnionInPlace(other) => UnionInPlace(other);
      case MarkModified => MarkModified();
    }
  }

  /** The value of a key after some actions: what the last action that touches it makes of it. */
  function ValueAfter(initial: Contents, actions: seq<Action>, k: string): Option<Value> {
    if actions == [] then if k in initial then Some(initial[k]) else None
    else
      var before := ValueAfter(initial, actions[..|actions| - 1], k);
      match actions[|actions| - 1]
      case SetItem(key, value) => if key == k then Some(value) else before
      case DelItem(key) => if key == k then None else before
      case Clear => None
      case Pop(key) => if key == k then None else before
      case PopItem(key) => if key == k then None else before
      case SetDefault(key, value) => if key == k && before.None? then Some(value) else before
      case Update(other) => if k in other then Some(other[k]) else before
      case UnionInPlace(other) => if k in other then Some(other[k]) else before
      case MarkModified => before
  }

  /** A session holds under each key what the last action that touched it left there. */
  lemma {:induction false} ContentsTold(initial: Contents, actions: seq<Action>, k: string)
    ensures
      var c := ActedAll(Session(initial, false), actions).contents;
      (if k in c then Some(c[k]) else None) == ValueAfter(initial, actions, k)
  {
    if actions != [] { ContentsTold(initial, actions[..|actions| - 1], k); }
  }

  /** A session is of a user exactly if its `user_id` is there and not null, false, zero or empty. */
  lemma LoggedInIff(c: Contents)
    ensures LoggedIn(c) <==> "user_id" in c && c["user_id"] !in {Null, Bool(false), Num(0), Str("")}
  {}

  /** The actions that mark a session with these contents. */
  predicate Marks(c: Contents, a: Action) {
    match a
    case Clear => c != map[]
    case Pop(key) => key in c
    case SetDefault(key, _) => key !in c
    case UnionInPlace(_) => false
    case _ => true
  }

  /** Some action marks the session as it finds it. */
  predicate SomeMarks(initial: Contents, actions: seq<Action>) {
    actions != []
    && var before, a := actions[..|actions| - 1], actions[|actions| - 1];
       SomeMarks(initial, before) || Marks(ActedAll(Session(initial, false), before).contents, a)
  }

  function Union(a: Action): Contents {
    if a.UnionInPlace? then a.other else map[]
  }

  /** What all `|=` extend a session by, later ones over earlier ones. */
  function Unions(actions: seq<Action>): Contents {
    if actions == [] then map[]
    else Unions(actions[..|actions| - 1]) + Union(actions[|actions| - 1])
  }

  predicate AddsNothing(other: Contents, c: Contents) {
    forall k | k in other :: k in c && c[k] == other[k]
  }

  lemma SumSame(c: Contents, other: Contents)
    ensures c + other == c <==> AddsNothing(other, c)
  {
    forall k | k in other ensures (c + other)[k] == other[k] {}
    if AddsNothing(other, c) { assert c + other == c; }
  }

  lemma ActedOnce(s: Session, a: Action)
    ensures Acted(s, a).modified <==> s.modified || Marks(s.contents, a)
    ensures !Marks(s.contents, a) ==> Acted(s, a) == s.(contents := s.contents + Union(a))
  {
    assert s.contents + map[] == s.contents;
    match a
    case Pop(key) => if key !in s.contents { assert s.contents - {key} == s.contents; }
    case _ =>
  }

  lemma SumThree(a: Contents, b: Contents, c: Contents)
    ensures a + b + c == a + (b + c)
  {}

  /** A session is marked exactly if some action marks it; otherwise its contents were extended only. */
  lemma {:induction false} ActedMarks(initial: Contents, actions: seq<Action>)
    ensures
      var s := ActedAll(Session(initial, false), actions);
      (s.modified <==> SomeMarks(initial, actions))
      && (!s.modified ==> s.contents == initial + Unions(actions))
  {
    if actions == [] {
      assert initial + map[] == initial;
    } else {
      var before, a := actions[..|actions| - 1], actions[|actions| - 1];
      ActedMarks(initial, before);
      var s := ActedAll(Session(initial, false), before);
      ActedOnce(s, a);
      SumThree(initial, Unions(before), Union(a));
    }
  }

  /** A change is always marked, exactly if some action marks the session or what its `|=` extend it by was
      there from the start. */
  lemma ModifiedIff(initial: Contents, actions: seq<Action>)
    ensures
      var s := ActedAll(Session(initial, false), actions);
      (s.contents != initial ==> s.modified)
      <==> SomeMarks(initial, actions) || AddsNothing(Unions(actions), initial)
  {
    ActedMarks(initial, actions);
    SumSame(initial, Unions(actions));
  }

  lemma {:induction false} NoUnions(actions: seq<Action>)
    requires forall a | a in actions :: !a.UnionInPlace?
    ensures Unions(actions) == map[]
  {
    if actions != [] {
      assert actions[|actions| - 1] in actions;
      NoUnions(actions[..|actions| - 1]);
    }
  }

  /** Contents that differ from the initial ones were marked, unless the dictionary was extended by `|=`. */
  lemma ChangeMarked(initial: Contents, actions: seq<Action>)
    requires forall a | a in actions :: !a.UnionInPlace?
    ensures
      var s := ActedAll(Session(initial, false), actions);
      s.contents != initial ==> s.modified
  {
    NoUnions(actions);
    ModifiedIff(initial, actions);
  }

  /** A session extended by `|=` alone changes without a mark, exactly when the union adds something. */
  lemma UnionUnmarked(initial: Contents, other: Contents)
    ensures
      var s := ActedAll(Session(initial, false), [UnionInPlace(other)]);
      !s.modified && (s.contents != initial <==> exists k | k in other :: k !in initial || initial[k] != other[k])
  {
    var a := [UnionInPlace(other)];
    assert a[..0] == [] && ActedAll(Session(initial, false), a[..0]) == Session(initial, false);
    SumSame(initial, other);
  }

  // ------------------------------------------------------------------ the cookies

  datatype CookieValue = Signed(contents: Contents) | One

  /** A `Set-Cookie` header: a value, or an expiry. */
  datatype SetCookie = SetCookie(name: string, value: Option<CookieValue>)

  type Jar = map<string, CookieValue>

  function Stored(jar: Jar, cookies: seq<SetCookie>): Jar {
    if cookies == [] then jar
    else
      var c, before := cookies[|cookies| - 1], Stored(jar, cookies[..|cookies| - 1]);
      if c.value.Some? then before[c.name := c.value.value] else before - {c.name}
  }

  /** The session a request brings: none without a cookie, or when its signature is no longer accepted. */
  function Brought(jar: Jar, accepted: bool): Option<Contents> {
    if SESSION_COOKIE in jar && accepted && jar[SESSION_COOKIE].Signed? then Some(jar[SESSION_COOKIE].contents)
    else None
  }

  /** The headers of a response. */
  function Headers(initiallyEmpty: bool, s: Session): seq<SetCookie> {
    if s.contents != map[] && s.modified then
      [SetCookie(SESSION_COOKIE, Some(Signed(s.contents))),
       SetCookie(MARKER_COOKIE, if LoggedIn(s.contents) then Some(One) else None)]
    else if s.contents == map[] && !initiallyEmpty then
      [SetCookie(SESSION_COOKIE, None), SetCookie(MARKER_COOKIE, None)]
    else []
  }

  /** `__call__`: the session is read from the cookies, the application acts on it, and the response starts. */
  method Call(jar: Jar, accepted: bool, actions: seq<Action>) returns (headers: seq<SetCookie>)
    ensures var brought := Brought(jar, accepted);
      headers == Headers(
        brought.None?, ActedAll(Session(if brought.Some? then brought.value else map[], false), actions))
  {
    var initialSessionWasEmpty := true;
    var session: ModifiableSessionDict;
    var brought := Brought(jar, accepted);
    if brought.Some? {
      session := new ModifiableSessionDict(brought.value);
      initialSessionWasEmpty := false;
    } else {
      session := new ModifiableSessionDict(map[]);
    }
    session.Act(actions);
    headers := [];
    if session.contents != map[] && session.modified {
      headers := headers + [SetCookie(SESSION_COOKIE, Some(Signed(session.contents)))];
      if LoggedIn(session.contents) {
        headers := headers + [SetCookie(MARKER_COOKIE, Some(One))];
      } else {
        headers := headers + [SetCookie(MARKER_COOKIE, None)];
      }
    } else if session.contents == map[] && !initialSessionWasEmpty {
      headers := headers + [SetCookie(SESSION_COOKIE, None)];
      headers := headers + [SetCookie(MARKER_COOKIE, None)];
    }
  }

  // ------------------------------------------------------------------ whole runs

  /** A response to a request that was sent with an earlier jar, or the expiry of both cookies, which were set
      together. */
  datatype Event = Respond(sent: nat, accepted: bool, actions: seq<Action>) | Expire

  /** The jars of a run, the oldest first; requests may overlap, so a response may be to any earlier jar. */
  function Jars(events: seq<Event>): (jars: seq<Jar>)
    ensures |jars| == |events| + 1
  {
    if events == [] then [map[]]
    else
      var jars, e := Jars(events[..|events| - 1]), events[|events| - 1];
      var last := jars[|jars| - 1];
      jars + [match e
              case Expire => last - {SESSION_COOKIE, MARKER_COOKIE}
              case Respond(sent, accepted, actions) =>
                if sent >= |jars| then last
                else
                  var brought := Brought(jars[sent], accepted);
                  var initial := if brought.Some? then brought.value else map[];
                  Stored(last, Headers(brought.None?, ActedAll(Session(initial, false), actions)))]
  }

  /** The marker is there exactly when the session cookie holds the session of a user. */
  predicate Mirrored(jar: Jar) {
    && (MARKER_COOKIE in jar <==>
          SESSION_COOKIE in jar && jar[SESSION_COOKIE].Signed? && LoggedIn(jar[SESSION_COOKIE].contents))
    && (SESSION_COOKIE in jar ==> jar[SESSION_COOKIE].Signed? && jar[SESSION_COOKIE].contents != map[])
  }

  lemma StoredPair(jar: Jar, a: SetCookie, b: SetCookie)
    ensures
      var first := if a.value.Some? then jar[a.name := a.value.value] else jar - {a.name};
      Stored(jar, [a, b]) == if b.value.Some? then first[b.name := b.value.value] else first - {b.name}
  {
    assert [a, b][..1] == [a] && [a][..0] == [];
    assert Stored(jar, [a][..0]) == jar;
  }

  lemma HeadersMirror(jar: Jar, initiallyEmpty: bool, s: Session)
    requires Mirrored(jar)
    ensures Mirrored(Stored(jar, Headers(initiallyEmpty, s)))
  {
    var cookies := Headers(initiallyEmpty, s);
    if cookies != [] { StoredPair(jar, cookies[0], cookies[1]); }
  }

  /** From an empty jar, after every response and in every interleaving of requests, the marker mirrors the
      session cookie. */
  lemma {:induction false} MarkerMirrors(events: seq<Event>)
    ensures Mirrored(Jars(events)[|events|])
  {
    if events != [] {
      var before, e := events[..|events| - 1], events[|events| - 1];
      MarkerMirrors(before);
      var jars := Jars(before);
      if e.Respond? && e.sent < |jars| {
        var brought := Brought(jars[e.sent], e.accepted);
        var initial := if brought.Some? then brought.value else map[];
        HeadersMirror(jars[|before|], brought.None?, ActedAll(Session(initial, false), e.actions));
      }
    }
  }

  /** The contents of the session in a jar. */
  function Held(jar: Jar): Contents {
    if SESSION_COOKIE in jar && jar[SESSION_COOKIE].Signed? then jar[SESSION_COOKIE].contents else map[]
  }

  /** When requests do not overlap and signatures are accepted, the jar holds what the application left in the
      session, exactly if some action marked the session or its `|=` add nothing to what the jar held. */
  lemma SessionKept(jar: Jar, actions: seq<Action>)
    requires Mirrored(jar)
    ensures
      var s := ActedAll(Session(Held(jar), false), actions);
      var after := Stored(jar, Headers(Brought(jar, true).None?, s));
      Held(after) == s.contents <==> SomeMarks(Held(jar), actions) || AddsNothing(Unions(actions), Held(jar))
  {
    var s := ActedAll(Session(Held(jar), false), actions);
    ActedMarks(Held(jar), actions);
    SumSame(Held(jar), Unions(actions));
    HeldAfter(jar, s);
    if !s.modified && s.contents == map[] { EmptySum(Held(jar), Unions(actions)); }
  }

  lemma HeldAfter(jar: Jar, s: Session)
    requires Mirrored(jar)
    ensures
      Held(Stored(jar, Headers(Brought(jar, true).None?, s))) == s.contents
      <==> s.modified || s.contents == Held(jar) || s.contents == map[]
  {
    var cookies := Headers(Brought(jar, true).None?, s);
    if cookies != [] { StoredPair(jar, cookies[0], cookies[1]); }
  }

  lemma EmptySum(c: Contents, other: Contents)
    requires c + other == map[]
    ensures c == map[]
  {
    assert c.Keys <= (c + other).Keys == {};
  }
}
