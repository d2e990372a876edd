/** Topic names and the PostgreSQL channel names made of them. */
module Topics {
  import opened Options
  import opened Text

  const TOPIC_NAME_SEPARATOR := ':'

  datatype Topic = Topic(stream: string, params: map<string, string>)

  // ------------------------------------------------------------------ the order of keys

  predicate Less(a: string, b: string) {
    if b == "" then false
    else if a == "" then true
    else a[0] < b[0] || (a[0] == b[0] && Less(a[1..], b[1..]))
  }

  lemma {:induction false} LessTotal(a: string, b: string)
    ensures a == b || Less(a, b) || Less(b, a)
    ensures !(Less(a, b) && Less(b, a)) && !Less(a, a)
  {
    if a != "" && b != "" { LessTotal(a[1..], b[1..]); }
    if a != "" { LessTotal(a[1..], a[1..]); }
    if a != "" && b != "" && a[0] == b[0] && a[1..] == b[1..] {
      assert a == [a[0]] + a[1..] && b == [b[0]] + b[1..];
    }
  }

  lemma {:induction false} LessTransitive(a: string, b: string, c: string)
    requires Less(a, b) && Less(b, c)
    ensures Less(a, c)
  {
    if a != "" && a[0] == b[0] && b[0] == c[0] { LessTransitive(a[1..], b[1..], c[1..]); }
  }

  predicate IsLeast(keys: set<string>, k: string) {
    k in keys && forall j | j in keys :: j == k || Less(k, j)
  }

  lemma {:induction false} LeastExists(keys: set<string>)
    requires keys != {}
    ensures exists k :: IsLeast(keys, k)
  {
    var x :| x in keys;
    var rest := keys - {x};
    if rest == {} {
      assert keys == {x} && IsLeast(keys, x);
    } else {
      LeastExists(rest);
      var k :| IsLeast(rest, k);
      LessTotal(x, k);
      if Less(k, x) {
        assert IsLeast(keys, k);
      } else {
        forall j | j in keys ensures j == x || Less(x, j) {
          if j != x && j != k { LessTransitive(x, k, j); }
        }
        assert IsLeast(keys, x);
      }
    }
  }

  lemma LeastUnique(keys: set<string>)
    ensures forall a, b | IsLeast(keys, a) && IsLeast(keys, b) :: a == b
  {
    forall a, b | IsLeast(keys, a) && IsLeast(keys, b) ensures a == b { LessTotal(a, b); }
  }

  function LeastKey(keys: set<string>): (k: string)
    requires keys != {}
    ensures IsLeast(keys, k)
  {
    LeastExists(keys);
    LeastUnique(keys);
    var k :| IsLeast(keys, k);
    k
  }

  /** `sorted(params.items())`, each key before its value. */
  function SortedItems(params: map<string, string>): seq<string>
    decreases |params|
  {
    if params == map[] then []
    else
      var k := LeastKey(params.Keys);
      Removed(params, k);
      [k, params[k]] + SortedItems(params - {k})
  }

  lemma Removed(params: map<string, string>, k: string)
    requires k in params
    ensures |params - {k}| == |params| - 1
  {
    assert (params - {k}).Keys == params.Keys - {k};
  }

  /** The items are pairs of a key and its value, the keys in increasing order. */
  lemma {:induction false} ItemsSorted(params: map<string, string>, n: nat)
    requires n < |params|
    ensures 2 * n + 1 < |SortedItems(params)| == 2 * |params|
    ensures var items := SortedItems(params);
      items[2 * n] in params && items[2 * n + 1] == params[items[2 * n]]
      && (n > 0 ==> Less(items[2 * n - 2], items[2 * n]))
    decreases |params|
  {
    var k := LeastKey(params.Keys);
    var rest := params - {k};
    Removed(params, k);
    var items, below := SortedItems(params), SortedItems(rest);
    if rest == map[] {
      assert below == [] && |params| == 1;
    } else {
      ItemsSorted(rest, if n > 0 then n - 1 else 0);
      assert n > 0 ==> items[2 * n] == below[2 * n - 2] && items[2 * n + 1] == below[2 * n - 1];
      assert n > 1 ==> items[2 * n - 2] == below[2 * n - 4];
    }
  }

  /** The property `name`; a key, its value and the next key are all separated alike. */
  function Name(t: Topic): string {
    if t.params == map[] then t.stream
    else t.stream + [TOPIC_NAME_SEPARATOR] + Join(SortedItems(t.params), TOPIC_NAME_SEPARATOR)
  }

  // ------------------------------------------------------------------ reading a name

  /** `name.split(":", 1)` */
  function SplitOnce(name: string): (string, Option<string>) {
    if name == "" then ("", None)
    else if name[0] == TOPIC_NAME_SEPARATOR then ("", Some(name[1..]))
    else
      var rest := SplitOnce(name[1..]);
      ([name[0]] + rest.0, rest.1)
  }

  lemma {:induction false} SplitOnceSound(name: string)
    ensures
      var (head, tail) := SplitOnce(name);
      TOPIC_NAME_SEPARATOR !in head
      && name == if tail.Some? then head + [TOPIC_NAME_SEPARATOR] + tail.value else head
  {
    if name != "" && name[0] != TOPIC_NAME_SEPARATOR {
      SplitOnceSound(name[1..]);
      assert name == [name[0]] + name[1..];
    }
  }

  lemma {:induction false} SplitOnceAt(head: string, tail: Option<string>)
    requires TOPIC_NAME_SEPARATOR !in head
    ensures SplitOnce(if tail.Some? then head + [TOPIC_NAME_SEPARATOR] + tail.value else head) == (head, tail)
  {
    var name := if tail.Some? then head + [TOPIC_NAME_SEPARATOR] + tail.value else head;
    if head != "" {
      SplitOnceAt(head[1..], tail);
      assert head[0] in head && name[0] == head[0] && [head[0]] + head[1..] == head;
      assert name[1..] == if tail.Some? then head[1..] + [TOPIC_NAME_SEPARATOR] + tail.value else head[1..];
    } else if tail.Some? {
      assert name[1..] == tail.value;
    }
  }

  /** The first n pairs of the parts, a later pair replacing an earlier one. */
  function Pairs(parts: seq<string>, n: nat): map<string, string>
    requires 2 * n <= |parts|
  {
    if n == 0 then map[] else Pairs(parts, n - 1)[parts[2 * n - 2] := parts[2 * n - 1]]
  }

  /** A key has the value of the last pair with it. */
  lemma {:induction false} PairsTold(parts: seq<string>, n: nat, k: string)
    requires 2 * n <= |parts|
    ensures k in Pairs(parts, n) <==> exists i: nat :: i < n && parts[2 * i] == k
    ensures k in Pairs(parts, n) ==>
      exists i: nat :: i < n && LastPair(parts, n, i) && parts[2 * i] == k && Pairs(parts, n)[k] == parts[2 * i + 1]
  {
    if n > 0 {
      PairsTold(parts, n - 1, k);
      if parts[2 * n - 2] == k {
        assert parts[2 * (n - 1)] == k && LastPair(parts, n, n - 1);
      } else if k in Pairs(parts, n - 1) {
        var i: nat :|
          i < n - 1 && LastPair(parts, n - 1, i) && parts[2 * i] == k && Pairs(parts, n - 1)[k] == parts[2 * i + 1];
        assert LastPair(parts, n, i);
      }
      if i: nat :| i < n && parts[2 * i] == k { assert i == n - 1 || i < n - 1; }
    }
  }

  predicate LastPair(parts: seq<string>, n: nat, i: nat)
    requires 2 * n <= |parts| && i < n
  {
    forall j: nat | i < j < n :: parts[2 * j] != parts[2 * i]
  }

  /** The names of parameters that a call of the constructor would give twice. */
  predicate Clashes(params: map<string, string>) {
    "stream" in params || "self" in params
  }

  /** `from_name`; none is the error of a parameter given twice. */
  function Parsed(name: string): Option<Topic> {
    var (stream, rest) := SplitOnce(name);
    if rest.None? then Some(Topic(stream, map[]))
    else
      var parts := Split(rest.value, TOPIC_NAME_SEPARATOR);
      var params := Pairs(parts, |parts| / 2);
      if Clashes(params) then None else Some(Topic(stream, params))
  }

  method FromName(name: string) returns (t: Option<Topic>)
    ensures t == Parsed(name)
  {
    var (stream, rest) := SplitOnce(name);
    if rest.None? { return Some(Topic(stream, map[])); }
    var parts := Split(rest.value, TOPIC_NAME_SEPARATOR);
    var params: map<string, string>, i := map[], 0;
    while i < |parts|
      invariant i % 2 == 0 && i <= |parts| + 1
      invariant params == Pairs(parts, if i <= |parts| then i / 2 else |parts| / 2)
    {
      if i + 1 < |parts| { params := params[parts[i] := parts[i + 1]]; }
      i := i + 2;
    }
    t := if Clashes(params) then None else Some(Topic(stream, params));
  }

  /** A name without the separator is the stream; else what follows its first separator is split into pairs, a part
      without a partner is ignored, and a key named `stream` or `self` is an error. */
  lemma ParsedTold(stream: string, rest: string)
    requires TOPIC_NAME_SEPARATOR !in stream
    ensures Parsed(stream) == Some(Topic(stream, map[]))
    ensures
      var t, parts := Parsed(stream + [TOPIC_NAME_SEPARATOR] + rest), Split(rest, TOPIC_NAME_SEPARATOR);
      if exists i: nat :: i < |parts| / 2 && (parts[2 * i] == "stream" || parts[2 * i] == "self") then t.None?
      else t.Some? && t.value.stream == stream && t.value.params == Pairs(parts, |parts| / 2)
  {
    SplitOnceAt(stream, None);
    SplitOnceAt(stream, Some(rest));
    var parts := Split(rest, TOPIC_NAME_SEPARATOR);
    PairsTold(parts, |parts| / 2, "stream");
    PairsTold(parts, |parts| / 2, "self");
  }

  // ------------------------------------------------------------------ round trip

  predicate Bare(s: string) {
    TOPIC_NAME_SEPARATOR !in s
  }

  /** No part of the topic holds the separator. */
  predicate SeparatorFree(t: Topic) {
    Bare(t.stream) && forall k | k in t.params :: Bare(k) && Bare(t.params[k])
  }

  lemma {:induction false} PairsFirst(k: string, v: string, rest: seq<string>, n: nat)
    requires 2 * n <= |rest|
    ensures Pairs([k, v] + rest, n + 1) == map[k := v] + Pairs(rest, n)
  {
    var parts := [k, v] + rest;
    if n > 0 {
      PairsFirst(k, v, rest, n - 1);
      assert parts[2 * n] == rest[2 * n - 2] && parts[2 * n + 1] == rest[2 * n - 1];
    }
  }

  lemma AddBack(params: map<string, string>, k: string)
    requires k in params
    ensures map[k := params[k]] + (params - {k}) == params
  {}

  /** The items hold the parameters, each key before its value. */
  predicate Reads(items: seq<string>, params: map<string, string>) {
    |items| == 2 * |params| && Pairs(items, |params|) == params
  }

  lemma ReadsMore(params: map<string, string>, k: string, below: seq<string>, n: nat)
    requires k in params && |below| == 2 * n && Pairs(below, n) == params - {k}
    ensures Pairs([k, params[k]] + below, n + 1) == params
  {
    PairsFirst(k, params[k], below, n);
    AddBack(params, k);
  }

  /** Reading the sorted items gives the parameters back. */
  lemma {:induction false} ItemsRead(params: map<string, string>)
    ensures Reads(SortedItems(params), params)
    decreases |params|
  {
    if params != map[] {
      var k := LeastKey(params.Keys);
      Removed(params, k);
      ItemsRead(params - {k});
      ReadsMore(params, k, SortedItems(params - {k}), |params - {k}|);
    }
  }

  lemma {:induction false} ItemsBare(params: map<string, string>)
    requires forall k | k in params :: Bare(k) && Bare(params[k])
    ensures forall part | part in SortedItems(params) :: Bare(part)
    decreases |params|
  {
    if params != map[] {
      var k := LeastKey(params.Keys);
      Removed(params, k);
      ItemsBare(params - {k});
    }
  }

  lemma {:induction false} PairsBare(parts: seq<string>, n: nat)
    requires 2 * n <= |parts| && forall part | part in parts :: Bare(part)
    ensures forall k | k in Pairs(parts, n) :: Bare(k) && Bare(Pairs(parts, n)[k])
  {
    if n > 0 { PairsBare(parts, n - 1); }
  }

  /** A topic that was read from a name never holds the separator. */
  lemma ParsedBare(name: string)
    ensures Parsed(name).Some? ==> SeparatorFree(Parsed(name).value)
  {
    SplitOnceSound(name);
    var (stream, rest) := SplitOnce(name);
    if rest.Some? {
      var parts := Split(rest.value, TOPIC_NAME_SEPARATOR);
      PairsBare(parts, |parts| / 2);
    }
  }

  lemma ItemsParsed(stream: string, items: seq<string>, params: map<string, string>)
    requires Bare(stream) && items != [] && forall part | part in items :: Bare(part)
    requires params == Pairs(items, |items| / 2) && !Clashes(params)
    ensures Parsed(stream + [TOPIC_NAME_SEPARATOR] + Join(items, TOPIC_NAME_SEPARATOR)) == Some(Topic(stream, params))
  {
    SplitOnceAt(stream, Some(Join(items, TOPIC_NAME_SEPARATOR)));
    SplitJoin(items, TOPIC_NAME_SEPARATOR);
  }

  lemma ParamsParsed(t: Topic)
    requires SeparatorFree(t) && !Clashes(t.params) && t.params != map[]
    ensures Parsed(Name(t)) == Some(t)
  {
    ItemsRead(t.params);
    ItemsBare(t.params);
    assert |t.params| > 0;
    ItemsParsed(t.stream, SortedItems(t.params), t.params);
  }

  /** Reading a topic's name gives the topic back exactly when none of its parts holds the separator. */
  lemma RoundTripIff(t: Topic)
    requires !Clashes(t.params)
    ensures Parsed(Name(t)) == Some(t) <==> SeparatorFree(t)
  {
    ParsedBare(Name(t));
    if SeparatorFree(t) {
      if t.params == map[] { SplitOnceAt(t.stream, None); } else { ParamsParsed(t); }
    }
  }

  /** Topics without the separator have the same name only if they are the same. */
  lemma NamesDistinct(t: Topic, u: Topic)
    requires SeparatorFree(t) && SeparatorFree(u) && !Clashes(t.params) && !Clashes(u.params)
    ensures Name(t) == Name(u) <==> t == u
  {
    RoundTripIff(t);
    RoundTripIff(u);
  }

  /** With the separator in its stream, a topic has the name of another one. */
  lemma SeparatorConfuses()
    ensures Name(Topic("a:b:c", map[])) == Name(Topic("a", map["b" := "c"]))
  {
    var params := map["b" := "c"];
    assert "b" in params;
    var k := LeastKey(params.Keys);
    var rest := params - {k};
    assert k == "b" && rest == map[];
    assert SortedItems(params) == ["b", "c"] + SortedItems(rest);
  }

  // ------------------------------------------------------------------ channel names

  const POSTGRES_TOPIC_NAME_MAX_BYTES := 63
  const POSTGRES_TOPIC_NAME_HASH_LENGTH := 8

  predicate IsLower(c: char) {
    'a' <= c <= 'z'
  }

  predicate IsUpper(c: char) {
    'A' <= c <= 'Z'
  }

  /** A character that an identifier may hold. */
  predicate IsWord(c: char) {
    IsLower(c) || IsUpper(c) || IsDigit(c) || c == '_'
  }

  function ToLower(c: char): char {
    if IsUpper(c) then (c as int + 32) as char else c
  }

  /** Each other character becomes an underscore. */
  function Cleaned(s: string): (r: string)
    ensures |r| == |s|
    ensures forall i | 0 <= i < |s| :: r[i] == if IsWord(s[i]) then s[i] else '_'
  {
    seq(|s|, i requires 0 <= i < |s| => if IsWord(s[i]) then s[i] else '_')
  }

  function Lowered(s: string): (r: string)
    ensures |r| == |s|
    ensures forall i | 0 <= i < |s| :: r[i] == ToLower(s[i])
  {
    seq(|s|, i requires 0 <= i < |s| => ToLower(s[i]))
  }

  function HexDigit(d: nat): (c: char)
    requires d < 16
    ensures IsDigit(c) || 'a' <= c <= 'f'
  {
    if d < 10 then ('0' as int + d) as char else ('a' as int + d - 10) as char
  }

  /** The last `width` digits in base 16. */
  function Hex(n: nat, width: nat): (s: string)
    ensures |s| == width
    ensures forall c | c in s :: IsDigit(c) || 'a' <= c <= 'f'
  {
    if width == 0 then "" else Hex(n / 16, width - 1) + [HexDigit(n % 16)]
  }

  /** An identifier is not empty and does not start with a digit. */
  function Prefixed(s: string): string {
    if s == "" then "_" else if IsDigit(s[0]) then "_" + s else s
  }

  function Normal(name: string): string {
    Lowered(Prefixed(Cleaned(name)))
  }

  /** `create_postgres_topic_name`; all characters are one byte each, and `digest` stands for the leading
      digits of the hash. */
  function PostgresName(digest: string -> nat, name: string): string {
    var logical := Normal(name);
    if |logical| <= POSTGRES_TOPIC_NAME_MAX_BYTES then logical
    else
      logical[..POSTGRES_TOPIC_NAME_MAX_BYTES - POSTGRES_TOPIC_NAME_HASH_LENGTH - 1]
      + "_" + Hex(digest(logical), POSTGRES_TOPIC_NAME_HASH_LENGTH)
  }

  /** A lower-case identifier that PostgreSQL keeps as it is. */
  predicate IsChannelName(s: string) {
    && 1 <= |s| <= POSTGRES_TOPIC_NAME_MAX_BYTES && !IsDigit(s[0])
    && forall i | 0 <= i < |s| :: IsLower(s[i]) || IsDigit(s[i]) || s[i] == '_'
  }

  lemma LoweredValid(wide: string)
    requires wide != "" && !IsDigit(wide[0]) && forall i | 0 <= i < |wide| :: IsWord(wide[i])
    ensures
      var s := Lowered(wide);
      !IsDigit(s[0]) && forall i | 0 <= i < |s| :: IsLower(s[i]) || IsDigit(s[i]) || s[i] == '_'
  {}

  lemma HashedValid(logical: string, n: nat, hex: string)
    requires 0 < n <= |logical| && !IsDigit(logical[0]) && n + 1 + |hex| <= POSTGRES_TOPIC_NAME_MAX_BYTES
    requires forall i | 0 <= i < |logical| :: IsLower(logical[i]) || IsDigit(logical[i]) || logical[i] == '_'
    requires forall c | c in hex :: IsDigit(c) || 'a' <= c <= 'f'
    ensures IsChannelName(logical[..n] + "_" + hex)
  {
    var r := logical[..n] + "_" + hex;
    forall i | n < i < |r| ensures IsLower(r[i]) || IsDigit(r[i]) {
      assert r[i] == hex[i - n - 1] && r[i] in hex;
    }
  }

  lemma PostgresNameValid(digest: string -> nat, name: string)
    ensures IsChannelName(PostgresName(digest, name))
  {
    LoweredValid(Prefixed(Cleaned(name)));
    var logical := Normal(name);
    if |logical| > POSTGRES_TOPIC_NAME_MAX_BYTES {
      HashedValid(
        logical, POSTGRES_TOPIC_NAME_MAX_BYTES - POSTGRES_TOPIC_NAME_HASH_LENGTH - 1,
        Hex(digest(logical), POSTGRES_TOPIC_NAME_HASH_LENGTH));
    }
  }

  /** Exactly the valid channel names are their own channel names, so making one twice is making it once. */
  lemma PostgresNameFixed(digest: string -> nat, name: string)
    ensures PostgresName(digest, name) == name <==> IsChannelName(name)
    ensures PostgresName(digest, PostgresName(digest, name)) == PostgresName(digest, name)
  {
    PostgresNameValid(digest, name);
    if IsChannelName(name) { ValidKept(digest, name); }
    ValidKept(digest, PostgresName(digest, name));
  }

  lemma ValidKept(digest: string -> nat, name: string)
    requires IsChannelName(name)
    ensures PostgresName(digest, name) == name
  {
    assert Cleaned(name) == name && Lowered(name) == name;
  }

  // ------------------------------------------------------------------ shared channels

  /** A channel does not tell upper case from lower case, nor an underscore from what is replaced by one. */
  predicate Alike(c: char, d: char) {
    ToLower(c) == ToLower(d) || (Blank(c) && Blank(d))
  }

  predicate Blank(c: char) {
    c == '_' || !IsWord(c)
  }

  predicate SameLetters(s: string, t: string) {
    |s| == |t| && forall i | 0 <= i < |s| :: Alike(s[i], t[i])
  }

  lemma NormalLetter(s: string, t: string, i: nat)
    requires i < |s| && i < |t|
    ensures Lowered(Cleaned(s))[i] == Lowered(Cleaned(t))[i] <==> Alike(s[i], t[i])
  {}

  lemma SameNormal(s: string, t: string)
    ensures Lowered(Cleaned(s)) == Lowered(Cleaned(t)) <==> SameLetters(s, t)
  {
    var x, y := Lowered(Cleaned(s)), Lowered(Cleaned(t));
    if |s| == |t| {
      forall i | 0 <= i < |s| ensures x[i] == y[i] <==> Alike(s[i], t[i]) {
        NormalLetter(s, t, i);
      }
    } else {
      assert |x| != |y|;
    }
  }

  lemma PrefixedFirst(name: string)
    ensures Normal(name) == Lowered(Cleaned(Prefixed(name)))
  {
    assert Prefixed(Cleaned(name)) == Cleaned(Prefixed(name));
  }

  function Power16(n: nat): (p: nat)
    ensures p > 0
  {
    if n == 0 then 1 else 16 * Power16(n - 1)
  }

  lemma LastDigit(n: nat, p: nat)
    requires p > 0
    ensures n % (16 * p) == 16 * (n / 16 % p) + n % 16
  {
    var q, r := n / 16 / p, n / 16 % p;
    assert n == 16 * (p * q + r) + n % 16 == (16 * p) * q + (16 * r + n % 16);
    Remainder(n, 16 * p, q, 16 * r + n % 16);
  }

  lemma Remainder(n: nat, d: nat, q: nat, r: nat)
    requires r < d && n == d * q + r
    ensures n % d == r
  {
    Multiple(d, n / d - q);
    assert d * (n / d - q) == d * (n / d) - d * q == r - n % d;
  }

  lemma Multiple(d: int, k: int)
    requires d > 0
    ensures k >= 1 ==> d * k >= d
    ensures k <= -1 ==> d * k <= -d
    ensures k == 0 ==> d * k == 0
  {}

  /** The digits tell exactly the remainders apart. */
  lemma {:induction false} HexInjective(m: nat, n: nat, width: nat)
    ensures Hex(m, width) == Hex(n, width) <==> m % Power16(width) == n % Power16(width)
  {
    if width > 0 {
      var p := Power16(width - 1);
      var x, y := Hex(m / 16, width - 1), Hex(n / 16, width - 1);
      HexInjective(m / 16, n / 16, width - 1);
      LastDigit(m, p);
      LastDigit(n, p);
      assert (x + [HexDigit(m % 16)])[..width - 1] == x && (y + [HexDigit(n % 16)])[..width - 1] == y;
      assert (x + [HexDigit(m % 16)])[width - 1] == HexDigit(m % 16);
      assert (y + [HexDigit(n % 16)])[width - 1] == HexDigit(n % 16);
    }
  }

  predicate Fits(name: string) {
    |Prefixed(name)| <= POSTGRES_TOPIC_NAME_MAX_BYTES
  }

  /** What is left of a name that is too long, before its digest. */
  function Front(name: string): string
    requires !Fits(name)
  {
    Prefixed(name)[..POSTGRES_TOPIC_NAME_MAX_BYTES - POSTGRES_TOPIC_NAME_HASH_LENGTH - 1]
  }

  function Tail(digest: string -> nat, name: string): string {
    Hex(digest(Normal(name)), POSTGRES_TOPIC_NAME_HASH_LENGTH)
  }

  lemma LongName(digest: string -> nat, name: string)
    requires !Fits(name)
    ensures PostgresName(digest, name) == Lowered(Cleaned(Front(name))) + "_" + Tail(digest, name)
    ensures PostgresName(digest, name) == Lowered(Cleaned(Front(name) + "_" + Tail(digest, name)))
  {
    PrefixedFirst(name);
    var n := POSTGRES_TOPIC_NAME_MAX_BYTES - POSTGRES_TOPIC_NAME_HASH_LENGTH - 1;
    var front, tail := Front(name), Tail(digest, name);
    assert Normal(name)[..n] == Lowered(Cleaned(front));
    forall i | 0 <= i < |tail| ensures ToLower(tail[i]) == tail[i] && IsWord(tail[i]) {
      assert tail[i] in tail;
    }
    assert Lowered(Cleaned(front + "_" + tail)) == Lowered(Cleaned(front)) + "_" + tail;
  }

  /** Two names share a channel exactly when they have the same letters, a name that is too long being
      replaced by its front and the eight digits of its digest. */
  lemma ChannelSharedIff(digest: string -> nat, a: string, b: string)
    ensures
      PostgresName(digest, a) == PostgresName(digest, b)
      <==> (if Fits(a) && Fits(b) then SameLetters(Prefixed(a), Prefixed(b))
            else if Fits(a) then SameLetters(Prefixed(a), Front(b) + "_" + Tail(digest, b))
            else if Fits(b) then SameLetters(Front(a) + "_" + Tail(digest, a), Prefixed(b))
            else SameLetters(Front(a), Front(b))
                 && digest(Normal(a)) % 0x1_0000_0000 == digest(Normal(b)) % 0x1_0000_0000)
  {
    PrefixedFirst(a);
    PrefixedFirst(b);
    if !Fits(a) { LongName(digest, a); }
    if !Fits(b) { LongName(digest, b); }
    if Fits(a) && Fits(b) {
      SameNormal(Prefixed(a), Prefixed(b));
    } else if Fits(a) {
      SameNormal(Prefixed(a), Front(b) + "_" + Tail(digest, b));
    } else if Fits(b) {
      SameNormal(Front(a) + "_" + Tail(digest, a), Prefixed(b));
    } else {
      LongShared(digest, a, b);
    }
  }

  lemma LongShared(digest: string -> nat, a: string, b: string)
    requires !Fits(a) && !Fits(b)
    ensures
      PostgresName(digest, a) == PostgresName(digest, b)
      <==> SameLetters(Front(a), Front(b))
           && digest(Normal(a)) % 0x1_0000_0000 == digest(Normal(b)) % 0x1_0000_0000
  {
    LongName(digest, a);
    LongName(digest, b);
    SameNormal(Front(a), Front(b));
    SameDigits(digest(Normal(a)), digest(Normal(b)));
    Joined(Lowered(Cleaned(Front(a))), Tail(digest, a), Lowered(Cleaned(Front(b))), Tail(digest, b));
  }

  lemma SameDigits(m: nat, n: nat)
    ensures
      Hex(m, POSTGRES_TOPIC_NAME_HASH_LENGTH) == Hex(n, POSTGRES_TOPIC_NAME_HASH_LENGTH)
      <==> m % 0x1_0000_0000 == n % 0x1_0000_0000
  {
    HexInjective(m, n, POSTGRES_TOPIC_NAME_HASH_LENGTH);
    Power16Eight();
  }

  lemma Power16Eight()
    ensures Power16(POSTGRES_TOPIC_NAME_HASH_LENGTH) == 0x1_0000_0000
  {
    var p := Power16(4);
    assert Power16(2) == 256;
    assert p == 16 * (16 * Power16(2)) == 0x1_0000;
    assert Power16(6) == 16 * (16 * p) && Power16(8) == 16 * (16 * Power16(6));
  }

  lemma Joined(x: string, v: string, y: string, w: string)
    requires |x| == |y|
    ensures x + "_" + v == y + "_" + w <==> x == y && v == w
  {
    var s, t := x + "_" + v, y + "_" + w;
    assert s[..|x|] == x && s[|x| + 1..] == v && t[..|y|] == y && t[|y| + 1..] == w;
  }

  /** Two topics may share a channel: the separator and an underscore are cleaned alike. */
  lemma ChannelShared(digest: string -> nat)
    ensures PostgresName(digest, "a:b:c") == PostgresName(digest, "a_b_c") == "a_b_c"
  {
    ValidKept(digest, "a_b_c");
    assert Cleaned("a:b:c") == "a_b_c" == Cleaned("a_b_c");
  }
}
