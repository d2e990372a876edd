/** The first two stages of `IndexChatHistoryJob.build_adaptive_windows`: messages grouped by day, and
    thin days merged forward into buckets. */
module ChatBuckets {
  import opened Options
  import opened IsoDates
  import opened Sequences

  const MERGE_THRESHOLD := 5

  datatype Message = Message(id: nat, date: Date, time: nat)

  /** A run of days merged into one bucket. */
  datatype Bucket = Bucket(start: Date, end: Date, messages: seq<Message>)

  type Days = map<Date, seq<Message>>

  // ------------------------------------------------------------------ grouping

  /** The messages of one day, in their order. */
  function OnDate(messages: seq<Message>, d: Date): seq<Message> {
    if messages == [] then []
    else
      var n := |messages| - 1;
      OnDate(messages[..n], d) + if messages[n].date == d then [messages[n]] else []
  }

  function At(days: Days, d: Date): seq<Message> {
    if d in days then days[d] else []
  }

  /** Each day holds its messages in order, and only days with messages are there. */
  ghost predicate IsGrouping(messages: seq<Message>, days: Days) {
    && (forall d: Date :: At(days, d) == OnDate(messages, d))
    && (forall d | d in days :: days[d] != [])
  }

  method GroupByDate(messages: seq<Message>) returns (days: Days)
    ensures IsGrouping(messages, days)
  {
    days := map[];
    for i := 0 to |messages|
      invariant IsGrouping(messages[..i], days)
    {
      var m := messages[i];
      ghost var before := days;
      if m.date !in days { days := days[m.date := []]; }
      days := days[m.date := days[m.date] + [m]];
      assert messages[..i + 1][..i] == messages[..i];
      forall d: Date ensures At(days, d) == OnDate(messages[..i + 1], d) {
        assert At(before, d) == OnDate(messages[..i], d);
      }
    }
    assert messages[..|messages|] == messages;
  }

  // ------------------------------------------------------------------ sorting the days

  function InsertDate(dates: seq<Date>, d: Date): seq<Date> {
    if dates == [] || d < dates[0] then [d] + dates
    else [dates[0]] + InsertDate(dates[1..], d)
  }

  lemma {:induction false} InsertSound(dates: seq<Date>, d: Date)
    requires Increasing(dates) && d !in dates
    ensures Increasing(InsertDate(dates, d))
    ensures forall e :: e in InsertDate(dates, d) <==> e == d || e in dates
  {
    if dates != [] && !(d < dates[0]) {
      InsertSound(dates[1..], d);
      var rest := InsertDate(dates[1..], d);
      forall j | 0 <= j < |rest| ensures dates[0] < rest[j] {
        assert rest[j] in rest;
      }
    }
  }

  /** `sorted(days.keys())` */
  method SortedKeys(days: Days) returns (dates: seq<Date>)
    ensures Increasing(dates) && forall d :: d in dates <==> d in days
  {
    dates := [];
    var left := days.Keys;
    while left != {}
      invariant left <= days.Keys && Increasing(dates)
      invariant forall d :: d in dates <==> d in days && d !in left
      decreases |left|
    {
      var d :| d in left;
      InsertSound(dates, d);
      dates := InsertDate(dates, d);
      left := left - {d};
    }
  }

  // ------------------------------------------------------------------ merging

  /** One day and its messages. */
  datatype Day = Day(date: Date, messages: seq<Message>)

  function DaysOf(days: Days, dates: seq<Date>): (list: seq<Day>)
    requires forall d :: d in dates ==> d in days
    ensures |list| == |dates|
    ensures forall i :: 0 <= i < |dates| ==> list[i] == Day(dates[i], days[dates[i]])
  {
    seq(|dates|, i requires 0 <= i < |dates| => assert dates[i] in dates; Day(dates[i], days[dates[i]]))
  }

  /** The messages of a run of days. */
  function Flat(run: seq<Day>): seq<Message> {
    if run == [] then [] else Flat(run[..|run| - 1]) + run[|run| - 1].messages
  }

  /** The bucket of a run of days; runs are never empty. */
  function BucketOf(run: seq<Day>): Bucket {
    if run == [] then Bucket(0, 0, [])
    else Bucket(run[0].date, run[|run| - 1].date, Flat(run))
  }

  function BucketsOf(runs: seq<seq<Day>>): (buckets: seq<Bucket>)
    ensures |buckets| == |runs|
  {
    if runs == [] then []
    else BucketsOf(runs[..|runs| - 1]) + [BucketOf(runs[|runs| - 1])]
  }

  /** A run is closed when it is large enough and was not before its last day. */
  predicate Closed(run: seq<Day>) {
    run != [] && |Flat(run)| >= MERGE_THRESHOLD && |Flat(run[..|run| - 1])| < MERGE_THRESHOLD
  }

  /** A closed run followed by a thin rest of `tail` days. */
  predicate ClosedThenThin(run: seq<Day>, tail: nat) {
    tail < |run| && Closed(run[..|run| - tail]) && |Flat(run[|run| - tail..])| < MERGE_THRESHOLD
  }

  predicate LastRun(run: seq<Day>, tail: nat, alone: bool) {
    ClosedThenThin(run, tail) || (alone && run != [] && |Flat(run)| < MERGE_THRESHOLD)
  }

  /** What merging must give: the days in order, cut into runs that close as early as they can; a
      thin rest at the end, `tail` days, belongs to the last run, and a run under the threshold
      stands alone. */
  predicate IsMerge(list: seq<Day>, runs: seq<seq<Day>>, tail: nat) {
    && Concat(runs) == list
    && (forall k | 0 <= k < |runs| - 1 :: Closed(runs[k]))
    && (runs != [] ==> LastRun(runs[|runs| - 1], tail, |runs| == 1))
  }

  /** The state of the loop: the runs closed so far, and the days carried. */
  datatype Greedy = Greedy(runs: seq<seq<Day>>, rest: seq<Day>)

  predicate Sound(g: Greedy, list: seq<Day>) {
    && |Flat(g.rest)| < MERGE_THRESHOLD
    && (forall k | 0 <= k < |g.runs| :: Closed(g.runs[k]))
    && Concat(g.runs) + g.rest == list
  }

  function Push(g: Greedy, day: Day): Greedy {
    var run := g.rest + [day];
    if |Flat(run)| >= MERGE_THRESHOLD then Greedy(g.runs + [run], []) else Greedy(g.runs, run)
  }

  lemma FlatSnoc(run: seq<Day>, day: Day)
    ensures Flat(run + [day]) == Flat(run) + day.messages
  {
    assert (run + [day])[..|run|] == run;
  }

  lemma BucketsSnoc(runs: seq<seq<Day>>, run: seq<Day>)
    ensures BucketsOf(runs + [run]) == BucketsOf(runs) + [BucketOf(run)]
  {
    assert (runs + [run])[..|runs|] == runs;
  }

  lemma PushSound(g: Greedy, list: seq<Day>, day: Day)
    requires Sound(g, list)
    ensures Sound(Push(g, day), list + [day])
  {
    var run := g.rest + [day];
    assert run[..|run| - 1] == g.rest;
    ConcatSnoc(g.runs, run);
    assert Concat(g.runs) + run == list + [day];
  }

  /** A thin rest joins the last run; alone it stays a run however thin it is. */
  function Absorbed(g: Greedy): seq<seq<Day>> {
    if g.rest == [] then g.runs
    else if g.runs == [] then [g.rest]
    else g.runs[..|g.runs| - 1] + [g.runs[|g.runs| - 1] + g.rest]
  }

  lemma RunThenRest(run: seq<Day>, rest: seq<Day>)
    requires Closed(run) && |Flat(rest)| < MERGE_THRESHOLD
    ensures ClosedThenThin(run + rest, |rest|)
  {
    var last := run + rest;
    assert last[..|run|] == run && last[|run|..] == rest;
  }

  lemma AbsorbedConcat(g: Greedy)
    ensures Concat(Absorbed(g)) == Concat(g.runs) + g.rest
  {
    var runs := Absorbed(g);
    if g.rest != [] {
      if g.runs == [] {
        assert runs[..0] == [];
      } else {
        var n := |g.runs| - 1;
        assert runs[..n] == g.runs[..n];
        var head := Concat(g.runs[..n]);
        assert head + (g.runs[n] + g.rest) == head + g.runs[n] + g.rest;
      }
    }
  }

  lemma AbsorbedShape(g: Greedy)
    requires g.runs != []
    ensures |Absorbed(g)| == |g.runs|
    ensures forall k :: 0 <= k < |g.runs| - 1 ==> Absorbed(g)[k] == g.runs[k]
    ensures Absorbed(g)[|g.runs| - 1] == g.runs[|g.runs| - 1] + g.rest
  {}

  lemma AbsorbedIsMerge(g: Greedy, list: seq<Day>)
    requires Sound(g, list)
    ensures IsMerge(list, Absorbed(g), |g.rest|)
  {
    AbsorbedConcat(g);
    if g.runs != [] {
      AbsorbedShape(g);
      AbsorbedLast(g, list);
    }
  }

  lemma AbsorbedLast(g: Greedy, list: seq<Day>)
    requires Sound(g, list) && g.runs != []
    ensures LastRun(g.runs[|g.runs| - 1] + g.rest, |g.rest|, |g.runs| == 1)
  {
    assert Closed(g.runs[|g.runs| - 1]);
    RunThenRest(g.runs[|g.runs| - 1], g.rest);
  }

  lemma {:induction false} FlatConcat(a: seq<Day>, b: seq<Day>)
    ensures Flat(a + b) == Flat(a) + Flat(b)
  {
    if b == [] {
      assert a + b == a;
    } else {
      var n := |b| - 1;
      var ab, c := a + b, b[..n];
      FlatConcat(a, c);
      assert ab[..|ab| - 1] == a + c && ab[|ab| - 1] == b[n];
    }
  }

  /** Absorbing the rest extends the last bucket, or makes the only one. */
  lemma AbsorbBucket(g: Greedy, list: seq<Day>)
    requires Sound(g, list) && g.rest != []
    ensures list != []
    ensures
      var buckets, end, rest := BucketsOf(g.runs), list[|list| - 1].date, Flat(g.rest);
      BucketsOf(Absorbed(g))
      == if buckets == [] then [Bucket(g.rest[0].date, end, rest)]
         else
           var last := buckets[|buckets| - 1];
           buckets[..|buckets| - 1] + [Bucket(last.start, end, last.messages + rest)]
  {
    var n := |g.runs| - 1;
    if g.runs == [] {
      BucketsSnoc([], g.rest);
    } else {
      var init, run := g.runs[..n], g.runs[n];
      assert g.runs == init + [run];
      BucketsSnoc(init, run);
      BucketsSnoc(init, run + g.rest);
      FlatConcat(run, g.rest);
    }
  }

  /** What the loop variables hold for the runs closed so far and the days carried. */
  predicate Holding(
      g: Greedy, buckets: seq<Bucket>, carry: seq<Message>, carryStart: Option<Date>)
  {
    && buckets == BucketsOf(g.runs) && carry == Flat(g.rest) && (carry == [] <==> g.rest == [])
    && carryStart == if g.rest == [] then None else Some(g.rest[0].date)
  }

  /** One round of the loop of `_merge_thin_days`. */
  method AddDay(
      buckets: seq<Bucket>, carry: seq<Message>, carryStart: Option<Date>, day: Day, ghost g: Greedy)
    returns (buckets': seq<Bucket>, carry': seq<Message>, carryStart': Option<Date>)
    requires Holding(g, buckets, carry, carryStart) && day.messages != []
    ensures Holding(Push(g, day), buckets', carry', carryStart')
  {
    FlatSnoc(g.rest, day);
    BucketsSnoc(g.runs, g.rest + [day]);
    assert Flat(g.rest + [day]) == carry + day.messages;
    assert carry == [] ==> carry + day.messages == day.messages;
    buckets', carry', carryStart' := buckets, carry, carryStart;
    if carry != [] {
      carry' := carry + day.messages;
      if |carry'| >= MERGE_THRESHOLD && carryStart.Some? {
        buckets' := buckets + [Bucket(carryStart.value, day.date, carry')];
        carry', carryStart' := [], None;
      }
    } else if |day.messages| < MERGE_THRESHOLD {
      carry', carryStart' := day.messages, Some(day.date);
    } else {
      buckets' := buckets + [Bucket(day.date, day.date, day.messages)];
    }
  }

  /** The buckets of the days: `list` is the days in date order, `runs` is how they merge, and `tail` counts
      the thin days absorbed at the end. */
  ghost predicate Merges(days: Days, list: seq<Day>, runs: seq<seq<Day>>, tail: nat, buckets: seq<Bucket>) {
    ListsDays(days, list) && IsMerge(list, runs, tail) && buckets == BucketsOf(runs)
  }

  method MergeThinDays(days: Days) returns (buckets: seq<Bucket>)
    requires forall d :: d in days ==> days[d] != []
    ensures exists list, runs, tail :: Merges(days, list, runs, tail, buckets)
  {
    var dates := SortedKeys(days);
    ghost var list := DaysOf(days, dates);
    buckets := [];
    var carry: seq<Message>, carryStart: Option<Date> := [], None;
    ghost var g := Greedy([], []);
    for i := 0 to |dates|
      invariant Sound(g, list[..i]) && Holding(g, buckets, carry, carryStart)
    {
      assert dates[i] in dates && list[..i + 1] == list[..i] + [list[i]];
      buckets, carry, carryStart := AddDay(buckets, carry, carryStart, Day(dates[i], days[dates[i]]), g);
      PushSound(g, list[..i], list[i]);
      g := Push(g, list[i]);
    }
    assert list[..|dates|] == list;
    buckets := AddRest(buckets, carry, carryStart, dates, g, list);
    DaysListed(days, dates);
    assert Merges(days, list, Absorbed(g), |g.rest|, buckets);
  }

  /** The thin rest after the loop of `_merge_thin_days`. */
  method AddRest(
      buckets: seq<Bucket>, carry: seq<Message>, carryStart: Option<Date>, dates: seq<Date>,
      ghost g: Greedy, ghost list: seq<Day>)
    returns (merged: seq<Bucket>)
    requires Sound(g, list) && Holding(g, buckets, carry, carryStart)
    requires |dates| == |list| && forall i :: 0 <= i < |dates| ==> dates[i] == list[i].date
    ensures IsMerge(list, Absorbed(g), |g.rest|) && merged == BucketsOf(Absorbed(g))
  {
    AbsorbedIsMerge(g, list);
    merged := buckets;
    if carry != [] {
      AbsorbBucket(g, list);
      if buckets != [] {
        var last := buckets[|buckets| - 1];
        merged := buckets[..|buckets| - 1] + [Bucket(last.start, dates[|dates| - 1], last.messages + carry)];
      } else if carryStart.Some? {
        merged := buckets + [Bucket(carryStart.value, dates[|dates| - 1], carry)];
      }
    }
  }

  lemma DaysListed(days: Days, dates: seq<Date>)
    requires Increasing(dates) && forall d :: d in dates <==> d in days
    ensures ListsDays(days, DaysOf(days, dates))
  {
    var list := DaysOf(days, dates);
    forall d | d in days ensures exists i :: 0 <= i < |list| && list[i].date == d {
      assert d in dates;
      var i :| 0 <= i < |dates| && dates[i] == d;
      assert list[i].date == d;
    }
    forall i | 0 <= i < |list| ensures list[i].date in days && list[i].messages == days[list[i].date] {
      assert dates[i] in dates;
    }
  }

  /** The days of the dictionary in date order. */
  predicate ListsDays(days: Days, list: seq<Day>) {
    && (forall i, j | 0 <= i < j < |list| :: list[i].date < list[j].date)
    && (forall i | 0 <= i < |list| :: list[i].date in days && list[i].messages == days[list[i].date])
    && (forall d | d in days :: exists i | 0 <= i < |list| :: list[i].date == d)
  }
}
