/** The last stage of `IndexChatHistoryJob.build_adaptive_windows`, large buckets split into windows;
    the whole pipeline; and the source ids of its windows. */
module ChatWindows {
  import opened Options
  import opened IsoDates
  import opened Sequences
  import opened ChatBuckets
  import opened ChatOrder

  const SPLIT_THRESHOLD := 100
  const SPLIT_TARGET := 50

  datatype Moment = Moment(date: Date, time: nat)

  function CreatedAt(m: Message): Moment {
    Moment(m.date, m.time)
  }

  datatype Window = Window(
    messages: seq<Message>, start: Moment, end: Moment, mergedStart: Date, mergedEnd: Date,
    sequence: Option<nat>)

  // ------------------------------------------------------------------ splitting

  function Piece(bucket: Bucket, messages: seq<Message>, sequence: Option<nat>): Window
    requires messages != []
  {
    Window(messages, CreatedAt(messages[0]), CreatedAt(messages[|messages| - 1]), bucket.start, bucket.end, sequence)
  }

  function Min(a: nat, b: nat): nat {
    if a < b then a else b
  }

  /** How many messages the first k pieces of a split bucket hold. */
  function Upto(bucket: Bucket, k: nat): nat {
    Min(k * SPLIT_TARGET, |bucket.messages|)
  }

  function Pieces(bucket: Bucket): nat {
    (|bucket.messages| + SPLIT_TARGET - 1) / SPLIT_TARGET
  }

  function PieceAt(bucket: Bucket, k: nat): Window
    requires k < Pieces(bucket)
  {
    Piece(bucket, bucket.messages[Upto(bucket, k)..Upto(bucket, k + 1)], Some(k))
  }

  /** The windows of a bucket: pieces of the target size over the threshold, one window otherwise. */
  function WindowsOf(bucket: Bucket): (windows: seq<Window>)
    requires bucket.messages != []
  {
    if |bucket.messages| > SPLIT_THRESHOLD then
      seq(Pieces(bucket), k requires 0 <= k < Pieces(bucket) => PieceAt(bucket, k))
    else [Piece(bucket, bucket.messages, None)]
  }

  predicate Filled(buckets: seq<Bucket>) {
    forall b | b in buckets :: b.messages != []
  }

  function AllWindows(buckets: seq<Bucket>): seq<Window>
    requires Filled(buckets)
  {
    if buckets == [] then []
    else AllWindows(buckets[..|buckets| - 1]) + WindowsOf(buckets[|buckets| - 1])
  }

  method SplitBucket(bucket: Bucket) returns (windows: seq<Window>)
    requires bucket.messages != []
    ensures windows == WindowsOf(bucket)
    ensures |bucket.messages| <= 100 ==> |windows| == 1 && windows[0].messages == bucket.messages && windows[0].sequence.None?
    ensures |bucket.messages| > 100 ==> forall k | 0 <= k < |windows| ::
      windows[k].sequence == Some(k) && 50 * k < |bucket.messages|
      && windows[k].messages == bucket.messages[50 * k..Min(50 * k + 50, |bucket.messages|)]
  {
    windows := [];
    var n := |bucket.messages|;
    if n > SPLIT_THRESHOLD {
      var i := 0;
      while i < n
        invariant i == SPLIT_TARGET * |windows| && |windows| <= Pieces(bucket)
        invariant forall k | 0 <= k < |windows| :: windows[k] == PieceAt(bucket, k)
      {
        var chunk := bucket.messages[i..Min(i + SPLIT_TARGET, n)];
        assert i == Upto(bucket, |windows|) && Min(i + SPLIT_TARGET, n) == Upto(bucket, |windows| + 1);
        windows := windows + [Piece(bucket, chunk, Some(i / SPLIT_TARGET))];
        i := i + SPLIT_TARGET;
      }
    } else {
      windows := [Piece(bucket, bucket.messages, None)];
    }
  }

  method SplitLargeBuckets(buckets: seq<Bucket>) returns (windows: seq<Window>)
    requires Filled(buckets)
    ensures windows == AllWindows(buckets)
  {
    windows := [];
    for i := 0 to |buckets|
      invariant windows == AllWindows(buckets[..i])
    {
      assert buckets[..i + 1][..i] == buckets[..i];
      var more := SplitBucket(buckets[i]);
      windows := windows + more;
    }
    assert buckets[..|buckets|] == buckets;
  }

  /** The messages of the windows, one window after the other. */
  function Messages(windows: seq<Window>): seq<Message> {
    if windows == [] then []
    else Messages(windows[..|windows| - 1]) + windows[|windows| - 1].messages
  }

  lemma {:induction false} MessagesConcat(a: seq<Window>, b: seq<Window>)
    ensures Messages(a + b) == Messages(a) + Messages(b)
  {
    if b == [] {
      assert a + b == a;
    } else {
      var n := |b| - 1;
      var ab, c := a + b, b[..n];
      MessagesConcat(a, c);
      assert ab[..|ab| - 1] == a + c && ab[|ab| - 1] == b[n];
    }
  }

  lemma MessagesSnoc(windows: seq<Window>, w: Window)
    ensures Messages(windows + [w]) == Messages(windows) + w.messages
  {
    assert (windows + [w])[..|windows|] == windows;
  }

  lemma NextPiece(bucket: Bucket, k: nat)
    requires |bucket.messages| > SPLIT_THRESHOLD && k < Pieces(bucket)
    ensures WindowsOf(bucket)[..k + 1] == WindowsOf(bucket)[..k] + [PieceAt(bucket, k)]
    ensures bucket.messages[..Upto(bucket, k)] + PieceAt(bucket, k).messages == bucket.messages[..Upto(bucket, k + 1)]
  {
    var windows := WindowsOf(bucket);
    assert windows[k] == PieceAt(bucket, k) && windows[..k + 1] == windows[..k] + [windows[k]];
  }

  lemma {:induction false} PiecesCover(bucket: Bucket, k: nat)
    requires |bucket.messages| > SPLIT_THRESHOLD && k <= Pieces(bucket)
    ensures Messages(WindowsOf(bucket)[..k]) == bucket.messages[..Upto(bucket, k)]
  {
    if k > 0 {
      PiecesCover(bucket, k - 1);
      NextPiece(bucket, k - 1);
      MessagesSnoc(WindowsOf(bucket)[..k - 1], PieceAt(bucket, k - 1));
    }
  }

  /** The windows of a bucket hold its messages in order. */
  lemma BucketCovered(bucket: Bucket)
    requires bucket.messages != []
    ensures Messages(WindowsOf(bucket)) == bucket.messages
  {
    var windows := WindowsOf(bucket);
    if |bucket.messages| > SPLIT_THRESHOLD {
      PiecesCover(bucket, |windows|);
      assert windows[..|windows|] == windows && bucket.messages[..|bucket.messages|] == bucket.messages;
    } else {
      assert windows[..0] == [];
    }
  }

  /** A bucket over the threshold is cut into windows of exactly the target, but for the last;
      another bucket is one window. */
  lemma SplitSizes(bucket: Bucket, k: nat)
    requires bucket.messages != [] && k < |WindowsOf(bucket)|
    ensures
      var windows := WindowsOf(bucket);
      var size := |windows[k].messages|;
      if |bucket.messages| <= SPLIT_THRESHOLD then |windows| == 1 && size == |bucket.messages|
      else |windows| >= 3 && if k < |windows| - 1 then size == SPLIT_TARGET else 1 <= size <= SPLIT_TARGET
  {}

  // ------------------------------------------------------------------ ranges of the buckets

  predicate InRange(b: Bucket) {
    b.messages != [] && b.start <= b.end && forall m | m in b.messages :: b.start <= m.date <= b.end
  }

  /** Each bucket holds its messages' dates, and ends before the next one starts. */
  predicate Ranged(buckets: seq<Bucket>) {
    && (forall b | b in buckets :: InRange(b))
    && (forall k, l | 0 <= k < l < |buckets| :: buckets[k].end < buckets[l].start)
  }

  lemma {:induction false} RunsRanged(runs: seq<seq<Day>>)
    requires DayList(Concat(runs)) && forall run | run in runs :: run != []
    ensures Ranged(BucketsOf(runs)) && (Concat(runs) == [] <==> runs == [])
    ensures forall b | b in BucketsOf(runs) :: b.end <= Concat(runs)[|Concat(runs)| - 1].date
  {
    if runs != [] {
      var n := |runs| - 1;
      var init, run := runs[..n], runs[n];
      var before, all := Concat(init), Concat(runs);
      assert all == before + run && run in runs;
      DayListParts(before, run);
      forall r | r in init ensures r != [] { assert r in runs; }
      RunsRanged(init);
      FlatSorted(run);
      assert run[0] == all[|before|] && run[|run| - 1] == all[|all| - 1];
      assert run[0].date <= run[|run| - 1].date;
      if before != [] { assert before[|before| - 1] == all[|before| - 1]; }
    }
  }

  lemma {:induction false} BucketsMessages(runs: seq<seq<Day>>)
    requires Filled(BucketsOf(runs))
    ensures Messages(AllWindows(BucketsOf(runs))) == Flat(Concat(runs))
  {
    if runs != [] {
      var n := |runs| - 1;
      var buckets := BucketsOf(runs);
      assert buckets[..n] == BucketsOf(runs[..n]) && buckets[n] == BucketOf(runs[n]);
      assert buckets[n] in buckets;
      BucketsMessages(runs[..n]);
      MessagesConcat(AllWindows(buckets[..n]), WindowsOf(buckets[n]));
      BucketCovered(buckets[n]);
      FlatConcat(Concat(runs[..n]), runs[n]);
    }
  }

  // ------------------------------------------------------------------ the pipeline

  /** What `build_adaptive_windows` computes: `days` groups the messages, `list` is the days in order,
      `runs` is how they merge and `tail` counts the thin days absorbed at the end. */
  ghost predicate Pipeline(
      messages: seq<Message>, days: Days, list: seq<Day>, runs: seq<seq<Day>>, tail: nat, windows: seq<Window>)
  {
    && IsGrouping(messages, days) && ListsDays(days, list) && IsMerge(list, runs, tail)
    && Filled(BucketsOf(runs)) && windows == AllWindows(BucketsOf(runs))
  }

  lemma {:induction false} BucketOfRun(runs: seq<seq<Day>>, k: nat)
    requires k < |runs|
    ensures BucketsOf(runs)[k] == BucketOf(runs[k])
  {
    if k < |runs| - 1 { BucketOfRun(runs[..|runs| - 1], k); }
  }

  /** Every bucket has messages, and the threshold of them unless it is alone. */
  lemma MergedBucket(list: seq<Day>, runs: seq<seq<Day>>, tail: nat, k: nat)
    requires IsMerge(list, runs, tail) && DayList(list) && k < |runs|
    ensures
      var b := BucketsOf(runs)[k];
      b.messages != []
      && (|b.messages| >= MERGE_THRESHOLD || (|runs| == 1 && |b.messages| == |Flat(list)|))
  {
    BucketOfRun(runs, k);
    RunLarge(list, runs, tail, k);
    if |Flat(runs[k])| < MERGE_THRESHOLD {
      LonelyRun(list, runs);
      FlatSorted(list);
    }
  }

  lemma AllFilled(list: seq<Day>, runs: seq<seq<Day>>, tail: nat)
    requires IsMerge(list, runs, tail) && DayList(list)
    ensures Filled(BucketsOf(runs))
  {
    forall b | b in BucketsOf(runs) ensures b.messages != [] {
      var k :| 0 <= k < |runs| && BucketsOf(runs)[k] == b;
      MergedBucket(list, runs, tail, k);
    }
  }

  /** The windows of a run hold the messages sorted stably by date, so they concatenate to the input
      exactly when its dates were in order. */
  lemma WindowsCover(
      messages: seq<Message>, days: Days, list: seq<Day>, runs: seq<seq<Day>>, tail: nat, windows: seq<Window>)
    requires Pipeline(messages, days, list, runs, tail, windows)
    ensures Messages(windows) == StableSort(messages)
    ensures Messages(windows) == messages <==> DateSorted(messages)
  {
    DaysAreSorted(messages, days, list);
    BucketsMessages(runs);
    SortKeeps(messages);
  }

  /** The date ranges of the buckets are strictly increasing and disjoint, and hold their messages. */
  lemma BucketsRanged(
      messages: seq<Message>, days: Days, list: seq<Day>, runs: seq<seq<Day>>, tail: nat, windows: seq<Window>)
    requires Pipeline(messages, days, list, runs, tail, windows)
    ensures Ranged(BucketsOf(runs))
  {
    GroupedSorted(messages, days, list);
    forall run | run in runs ensures run != [] {
      var k :| 0 <= k < |runs| && runs[k] == run;
      RunLarge(list, runs, tail, k);
    }
    RunsRanged(runs);
  }

  /** The window was made of the bucket. */
  predicate Made(w: Window, b: Bucket) {
    && w.mergedStart == b.start && w.mergedEnd == b.end
    && w.messages != [] && w.start == CreatedAt(w.messages[0])
    && w.end == CreatedAt(w.messages[|w.messages| - 1])
    && forall m | m in w.messages :: m in b.messages
  }

  lemma BucketMade(b: Bucket, j: nat)
    requires b.messages != [] && j < |WindowsOf(b)|
    ensures Made(WindowsOf(b)[j], b)
  {
    SplitSizes(b, j);
  }

  /** The bucket a window was made of. */
  lemma {:induction false} BucketOfWindow(buckets: seq<Bucket>, i: nat) returns (k: nat, j: nat)
    requires Filled(buckets) && i < |AllWindows(buckets)|
    ensures k < |buckets| && buckets[k] in buckets && j < |WindowsOf(buckets[k])|
    ensures AllWindows(buckets)[i] == WindowsOf(buckets[k])[j] && Made(AllWindows(buckets)[i], buckets[k])
  {
    var n := |buckets| - 1;
    assert buckets[n] in buckets;
    var before := AllWindows(buckets[..n]);
    if i < |before| {
      k, j := BucketOfWindow(buckets[..n], i);
    } else {
      k, j := n, i - |before|;
      BucketMade(buckets[n], j);
    }
  }

  lemma LonelyBucket(buckets: seq<Bucket>)
    requires |buckets| == 1 && Filled(buckets)
    ensures AllWindows(buckets) == WindowsOf(buckets[0])
  {
    assert buckets[..0] == [];
    NothingBefore(WindowsOf(buckets[0]));
  }

  lemma NothingBefore(windows: seq<Window>)
    ensures [] + windows == windows
  {}

  /** The size a window has in a bucket that is large enough, or alone. */
  predicate SizeFits(w: Window, total: nat, count: nat) {
    var size := |w.messages|;
    if w.sequence.Some? then 1 <= size <= SPLIT_TARGET
    else
      MERGE_THRESHOLD <= size <= SPLIT_THRESHOLD
      || (1 <= size == total < MERGE_THRESHOLD && count == 1)
  }

  lemma WindowFits(b: Bucket, j: nat, total: nat, count: nat)
    requires b.messages != [] && j < |WindowsOf(b)|
    requires |b.messages| >= MERGE_THRESHOLD || (|b.messages| == total && |WindowsOf(b)| == count)
    ensures SizeFits(WindowsOf(b)[j], total, count)
  {
    SplitSizes(b, j);
  }

  /** Every window has 1 to 100 messages; one that was not split has at least 5, unless it is the only
      one of a shorter input, and one that was split has at most 50. */
  lemma WindowSizes(
      messages: seq<Message>, days: Days, list: seq<Day>, runs: seq<seq<Day>>, tail: nat, windows: seq<Window>,
      i: nat)
    requires Pipeline(messages, days, list, runs, tail, windows) && i < |windows|
    ensures SizeFits(windows[i], |messages|, |windows|)
  {
    var buckets := BucketsOf(runs);
    var k, j := BucketOfWindow(buckets, i);
    DaysAreSorted(messages, days, list);
    MergedBucket(list, runs, tail, k);
    SizeInBucket(buckets, k, j, |messages|);
  }

  lemma SizeInBucket(buckets: seq<Bucket>, k: nat, j: nat, total: nat)
    requires Filled(buckets) && k < |buckets| && buckets[k].messages != [] && j < |WindowsOf(buckets[k])|
    requires |buckets[k].messages| >= MERGE_THRESHOLD || (|buckets| == 1 && |buckets[k].messages| == total)
    ensures SizeFits(WindowsOf(buckets[k])[j], total, |AllWindows(buckets)|)
  {
    if |buckets| == 1 { LonelyBucket(buckets); }
    WindowFits(buckets[k], j, total, |AllWindows(buckets)|);
  }

  // ------------------------------------------------------------------ source ids

  function Numbered(sequence: Option<nat>): string {
    if sequence.Some? then "-" + Decimal(sequence.value) else ""
  }

  /** `ChatWindow.source_id` */
  function SourceId(w: Window, globalId: string): string {
    globalId + "#window-"
    + if w.mergedStart != w.mergedEnd then Iso(w.mergedStart) + "--" + Iso(w.mergedEnd) + Numbered(w.sequence)
      else Iso(w.start.date) + Numbered(w.sequence)
  }

  /** What follows the first date in the ids of a bucket's windows. */
  function Rest(b: Bucket): string {
    if b.start != b.end then "--" + Iso(b.end) else ""
  }

  lemma Regroup(a: string, b: string, c: string, d: string, e: string)
    ensures a + (b + c + d + e) == a + b + (c + d) + e
    ensures a + (b + e) == a + b + "" + e
  {}

  lemma IdOfBucket(w: Window, b: Bucket, globalId: string)
    requires Made(w, b) && InRange(b)
    ensures SourceId(w, globalId) == globalId + "#window-" + Iso(b.start) + Rest(b) + Numbered(w.sequence)
  {
    assert w.messages[0] in w.messages;
    Regroup(globalId + "#window-", Iso(b.start), "--", Iso(b.end), Numbered(w.sequence));
  }

  /** The four formats of the ids: one date or two, with a number or without. */
  lemma IdFormats(w: Window, b: Bucket, globalId: string)
    requires Made(w, b) && InRange(b)
    ensures SourceId(w, globalId)
         == globalId + "#window-" + Iso(b.start) + (if b.start == b.end then "" else "--" + Iso(b.end))
            + match w.sequence case None => "" case Some(q) => "-" + Decimal(q)
  {
    IdOfBucket(w, b, globalId);
  }

  /** An id names the first date of the bucket, and tells the pieces of a bucket apart. */
  lemma SameIdSameBucket(v: Window, a: Bucket, w: Window, b: Bucket, globalId: string)
    requires Made(v, a) && Made(w, b) && InRange(a) && InRange(b)
    ensures SourceId(v, globalId) == SourceId(w, globalId) ==>
      a.start == b.start && (a == b ==> Numbered(v.sequence) == Numbered(w.sequence))
  {
    IdOfBucket(v, a, globalId);
    IdOfBucket(w, b, globalId);
    var head := globalId + "#window-";
    var s, t := SourceId(v, globalId), SourceId(w, globalId);
    assert s[|head|..|head| + 10] == Iso(a.start) && t[|head|..|head| + 10] == Iso(b.start);
    var n := |head + Iso(a.start) + Rest(a)|;
    assert s[n..] == Numbered(v.sequence);
    if a == b { assert t[n..] == Numbered(w.sequence); }
    if s == t { IsoInjective(a.start, b.start); }
  }

  lemma NumberedInjective(a: Option<nat>, b: Option<nat>)
    requires Numbered(a) == Numbered(b)
    ensures a == b
  {
    if a.Some? && b.Some? {
      assert Numbered(a)[1..] == Decimal(a.value) && Numbered(b)[1..] == Decimal(b.value);
      DecimalInjective(a.value, b.value);
    }
  }

  /** The windows of one bucket have different ids. */
  lemma BucketIdsDistinct(b: Bucket, i: nat, j: nat, globalId: string)
    requires InRange(b) && i < |WindowsOf(b)| && j < |WindowsOf(b)|
    ensures SourceId(WindowsOf(b)[i], globalId) == SourceId(WindowsOf(b)[j], globalId) ==> i == j
  {
    var v, w := WindowsOf(b)[i], WindowsOf(b)[j];
    BucketMade(b, i);
    BucketMade(b, j);
    SameIdSameBucket(v, b, w, b, globalId);
    if Numbered(v.sequence) == Numbered(w.sequence) { NumberedInjective(v.sequence, w.sequence); }
  }

  lemma OtherBucketOtherId(v: Window, a: Bucket, w: Window, b: Bucket, globalId: string)
    requires Made(v, a) && Made(w, b) && InRange(a) && InRange(b) && a.start < b.start
    ensures SourceId(v, globalId) != SourceId(w, globalId)
  {
    SameIdSameBucket(v, a, w, b, globalId);
  }

  /** The buckets of a run without the last one. */
  lemma RangedInit(buckets: seq<Bucket>)
    requires Ranged(buckets) && Filled(buckets) && buckets != []
    ensures
      var init, last := buckets[..|buckets| - 1], buckets[|buckets| - 1];
      Ranged(init) && Filled(init) && InRange(last) && (forall b | b in init :: b.start < last.start)
  {
    var init, last := buckets[..|buckets| - 1], buckets[|buckets| - 1];
    assert last in buckets && forall b | b in init :: b in buckets;
    forall b | b in init ensures b.start < last.start {
      var k :| 0 <= k < |init| && init[k] == b;
      assert buckets[k].end < last.start && InRange(b);
    }
  }

  lemma EarlierBucketOtherId(init: seq<Bucket>, last: Bucket, i: nat, j: nat, globalId: string)
    requires Ranged(init) && Filled(init) && InRange(last) && forall b | b in init :: b.start < last.start
    requires i < |AllWindows(init)| && j < |WindowsOf(last)|
    ensures SourceId(AllWindows(init)[i], globalId) != SourceId(WindowsOf(last)[j], globalId)
  {
    var k, _ := BucketOfWindow(init, i);
    BucketMade(last, j);
    OtherBucketOtherId(AllWindows(init)[i], init[k], WindowsOf(last)[j], last, globalId);
  }

  predicate DistinctIds(windows: seq<Window>, globalId: string) {
    forall i, j | 0 <= i < j < |windows| :: SourceId(windows[i], globalId) != SourceId(windows[j], globalId)
  }

  lemma DistinctConcat(a: seq<Window>, b: seq<Window>, globalId: string)
    requires DistinctIds(a, globalId) && DistinctIds(b, globalId)
    requires forall i, j | 0 <= i < |a| && 0 <= j < |b| :: SourceId(a[i], globalId) != SourceId(b[j], globalId)
    ensures DistinctIds(a + b, globalId)
  {}

  lemma {:induction false} AllIdsDistinct(buckets: seq<Bucket>, globalId: string)
    requires Ranged(buckets) && Filled(buckets)
    ensures DistinctIds(AllWindows(buckets), globalId)
  {
    if buckets != [] {
      RangedInit(buckets);
      var init, last := buckets[..|buckets| - 1], buckets[|buckets| - 1];
      AllIdsDistinct(init, globalId);
      LastIdsDistinct(AllWindows(init), init, last, globalId);
    }
  }

  lemma LastIdsDistinct(before: seq<Window>, init: seq<Bucket>, last: Bucket, globalId: string)
    requires Ranged(init) && Filled(init) && InRange(last) && forall b | b in init :: b.start < last.start
    requires before == AllWindows(init) && DistinctIds(before, globalId)
    ensures DistinctIds(before + WindowsOf(last), globalId)
  {
    var after := WindowsOf(last);
    forall i, j | 0 <= i < j < |after| ensures SourceId(after[i], globalId) != SourceId(after[j], globalId) {
      BucketIdsDistinct(last, i, j, globalId);
    }
    forall i, j | 0 <= i < |before| && 0 <= j < |after|
      ensures SourceId(before[i], globalId) != SourceId(after[j], globalId)
    {
      EarlierBucketOtherId(init, last, i, j, globalId);
    }
    DistinctConcat(before, after, globalId);
  }

  /** The windows of a run have pairwise different source ids, whatever their formats. */
  lemma IdsDistinct(
      messages: seq<Message>, days: Days, list: seq<Day>, runs: seq<seq<Day>>, tail: nat, windows: seq<Window>,
      globalId: string)
    requires Pipeline(messages, days, list, runs, tail, windows)
    ensures DistinctIds(windows, globalId)
  {
    BucketsRanged(messages, days, list, runs, tail, windows);
    AllIdsDistinct(BucketsOf(runs), globalId);
  }

  // ------------------------------------------------------------------ ranges and numbers

  predicate SameRange(v: Window, w: Window) {
    v.mergedStart == w.mergedStart && v.mergedEnd == w.mergedEnd
  }

  /** The first window of its date range, and the last. */
  predicate Opens(windows: seq<Window>, i: nat)
    requires i < |windows|
  {
    i == 0 || !SameRange(windows[i - 1], windows[i])
  }

  predicate Closes(windows: seq<Window>, i: nat)
    requires i < |windows|
  {
    i == |windows| - 1 || !SameRange(windows[i], windows[i + 1])
  }

  /** A window carries the moments of its first and last message, and its range the dates of the first and the
      last message of all its windows. A range that is not split is one window without a number; the windows
      of a split one are numbered from 0, are three or more, and all but the last hold 50 messages. */
  predicate Placed(windows: seq<Window>, i: nat)
    requires i < |windows|
  {
    var w, n := windows[i], |windows[i].messages|;
    && n > 0 && w.start == Moment(w.messages[0].date, w.messages[0].time)
    && w.end == Moment(w.messages[n - 1].date, w.messages[n - 1].time)
    && (Opens(windows, i) ==> w.mergedStart == w.messages[0].date)
    && (Closes(windows, i) ==> w.mergedEnd == w.messages[n - 1].date)
    && match w.sequence
       case None => Opens(windows, i) && Closes(windows, i)
       case Some(q) =>
         (if Opens(windows, i) then q == 0 else q > 0 && windows[i - 1].sequence == Some(q - 1))
         && (if Closes(windows, i) then q >= 2 else n == 50)
  }

  /** A bucket runs from the date of its first message to that of its last. */
  predicate Dated(b: Bucket) {
    b.messages != [] && b.start == b.messages[0].date && b.end == b.messages[|b.messages| - 1].date
  }

  lemma {:induction false} FlatEnds(run: seq<Day>)
    requires DayList(run) && run != []
    ensures Flat(run) != [] && Flat(run)[0].date == run[0].date
    ensures Flat(run)[|Flat(run)| - 1].date == run[|run| - 1].date
  {
    var n := |run| - 1;
    var init, last := run[..n], run[n].messages;
    assert last != [] && last[|last| - 1] in last && last[0] in last;
    if n > 0 {
      FlatEnds(init);
    } else {
      assert Flat(init) == [];
    }
  }

  lemma RunDated(list: seq<Day>, runs: seq<seq<Day>>, tail: nat, k: nat)
    requires IsMerge(list, runs, tail) && DayList(list) && k < |runs|
    ensures Dated(BucketsOf(runs)[k])
  {
    BucketOfRun(runs, k);
    RunLarge(list, runs, tail, k);
    RunDays(runs, k);
    FlatEnds(runs[k]);
  }

  lemma {:induction false} RunDays(runs: seq<seq<Day>>, k: nat)
    requires DayList(Concat(runs)) && k < |runs|
    ensures DayList(runs[k])
    decreases |runs|
  {
    var n := |runs| - 1;
    DayListParts(Concat(runs[..n]), runs[n]);
    if k < n { RunDays(runs[..n], k); }
  }

  lemma BucketRange(b: Bucket, j: nat)
    requires b.messages != [] && j < |WindowsOf(b)|
    ensures WindowsOf(b)[j].mergedStart == b.start && WindowsOf(b)[j].mergedEnd == b.end
  {}

  lemma BucketPlaced(b: Bucket, j: nat)
    requires Dated(b) && j < |WindowsOf(b)|
    ensures Placed(WindowsOf(b), j)
  {
    var windows := WindowsOf(b);
    SplitSizes(b, j);
    BucketRange(b, j);
    if j > 0 { BucketRange(b, j - 1); }
    if j < |windows| - 1 { BucketRange(b, j + 1); }
    if |b.messages| > SPLIT_THRESHOLD { PiecePlaced(b, j); }
  }

  /** A piece holds the messages from 50 times its number on. */
  lemma PiecePlaced(b: Bucket, j: nat)
    requires |b.messages| > SPLIT_THRESHOLD && j < |WindowsOf(b)|
    ensures
      var w := WindowsOf(b)[j];
      w.sequence == Some(j) && w.messages != []
      && w.messages[0] == b.messages[50 * j] && w.start == Moment(w.messages[0].date, w.messages[0].time)
      && w.end == CreatedAt(w.messages[|w.messages| - 1])
      && (j == |WindowsOf(b)| - 1 ==> j >= 2 && w.messages[|w.messages| - 1] == b.messages[|b.messages| - 1])
  {
    var w := WindowsOf(b)[j];
    assert w == PieceAt(b, j) && Upto(b, j) == 50 * j;
    assert w.messages[0] == b.messages[Upto(b, j)];
    if j == Pieces(b) - 1 { assert Upto(b, j + 1) == |b.messages|; }
  }

  lemma PlacedConcat(a: seq<Window>, b: seq<Window>, i: nat)
    requires forall k | 0 <= k < |a| :: Placed(a, k)
    requires forall k | 0 <= k < |b| :: Placed(b, k)
    requires a != [] && b != [] ==> !SameRange(a[|a| - 1], b[0])
    requires i < |a| + |b|
    ensures Placed(a + b, i)
  {
    var all := a + b;
    if i < |a| {
      assert Placed(a, i) && all[i] == a[i];
      assert i > 0 ==> all[i - 1] == a[i - 1];
      assert i + 1 < |all| ==> all[i + 1] == if i + 1 < |a| then a[i + 1] else b[0];
    } else {
      var j := i - |a|;
      assert Placed(b, j) && all[i] == b[j];
      assert i > 0 ==> all[i - 1] == if j > 0 then b[j - 1] else a[|a| - 1];
      assert i + 1 < |all| ==> all[i + 1] == b[j + 1];
    }
  }

  lemma {:induction false} AllPlaced(buckets: seq<Bucket>, i: nat)
    requires Ranged(buckets) && Filled(buckets) && forall b | b in buckets :: Dated(b)
    requires i < |AllWindows(buckets)|
    ensures Placed(AllWindows(buckets), i)
    decreases |buckets|
  {
    RangedInit(buckets);
    var n := |buckets| - 1;
    var init, last := buckets[..n], buckets[n];
    assert last in buckets && forall b | b in init :: b in buckets;
    var before, after := AllWindows(init), WindowsOf(last);
    forall k | 0 <= k < |before| ensures Placed(before, k) { AllPlaced(init, k); }
    forall k | 0 <= k < |after| ensures Placed(after, k) { BucketPlaced(last, k); }
    if before != [] { OtherRange(init, last); }
    PlacedConcat(before, after, i);
  }

  /** The windows of the last bucket have another range than the one before them. */
  lemma OtherRange(init: seq<Bucket>, last: Bucket)
    requires Filled(init) && last.messages != [] && (forall b | b in init :: b.start < last.start)
    requires AllWindows(init) != []
    ensures WindowsOf(last) != []
    ensures !SameRange(AllWindows(init)[|AllWindows(init)| - 1], WindowsOf(last)[0])
  {
    var k, _ := BucketOfWindow(init, |AllWindows(init)| - 1);
    assert init[k] in init;
    BucketRange(last, 0);
  }

  /** Each window is where its numbers and dates say. */
  lemma WindowsPlaced(
      messages: seq<Message>, days: Days, list: seq<Day>, runs: seq<seq<Day>>, tail: nat, windows: seq<Window>,
      i: nat)
    requires Pipeline(messages, days, list, runs, tail, windows) && i < |windows|
    ensures Placed(windows, i)
  {
    GroupedSorted(messages, days, list);
    BucketsRanged(messages, days, list, runs, tail, windows);
    forall b | b in BucketsOf(runs) ensures Dated(b) {
      var k :| 0 <= k < |runs| && BucketsOf(runs)[k] == b;
      RunDated(list, runs, tail, k);
    }
    AllPlaced(BucketsOf(runs), i);
  }

  /** What the windows of a run guarantee. */
  ghost predicate Guaranteed(messages: seq<Message>, windows: seq<Window>) {
    && Messages(windows) == StableSort(messages)
    && (Messages(windows) == messages <==> DateSorted(messages))
    && (forall i | 0 <= i < |windows| :: SizeFits(windows[i], |messages|, |windows|) && Placed(windows, i))
    && (forall globalId: string :: DistinctIds(windows, globalId))
  }

  lemma PipelineGuarantees(
      messages: seq<Message>, days: Days, list: seq<Day>, runs: seq<seq<Day>>, tail: nat, windows: seq<Window>)
    requires Pipeline(messages, days, list, runs, tail, windows)
    ensures Guaranteed(messages, windows)
  {
    WindowsCover(messages, days, list, runs, tail, windows);
    forall i | 0 <= i < |windows| ensures SizeFits(windows[i], |messages|, |windows|) && Placed(windows, i) {
      WindowSizes(messages, days, list, runs, tail, windows, i);
      WindowsPlaced(messages, days, list, runs, tail, windows, i);
    }
    forall globalId: string ensures DistinctIds(windows, globalId) {
      IdsDistinct(messages, days, list, runs, tail, windows, globalId);
    }
  }

  lemma StagesGuarantee(
      messages: seq<Message>, days: Days, list: seq<Day>, runs: seq<seq<Day>>, tail: nat, buckets: seq<Bucket>)
    requires IsGrouping(messages, days) && Merges(days, list, runs, tail, buckets)
    ensures Filled(buckets) && IsResult(messages, AllWindows(buckets)) && Guaranteed(messages, AllWindows(buckets))
  {
    GroupedSorted(messages, days, list);
    AllFilled(list, runs, tail);
    assert Pipeline(messages, days, list, runs, tail, AllWindows(buckets));
    PipelineGuarantees(messages, days, list, runs, tail, AllWindows(buckets));
  }

  lemma NothingGuaranteed()
    ensures IsResult([], []) && Guaranteed([], [])
  {
    var days: Days := map[];
    assert Merges(days, [], [], 0, []);
    StagesGuarantee([], days, [], [], 0, []);
  }

  /** The windows are those of some pass through the stages; there is one only, by `MergeUnique`. */
  ghost predicate IsResult(messages: seq<Message>, windows: seq<Window>) {
    exists days, list, runs, tail :: Pipeline(messages, days, list, runs, tail, windows)
  }

  method BuildAdaptiveWindows(messages: seq<Message>) returns (windows: seq<Window>)
    ensures IsResult(messages, windows) && Guaranteed(messages, windows)
  {
    if messages == [] {
      NothingGuaranteed();
      return [];
    }
    var days := GroupByDate(messages);
    var buckets := MergeThinDays(days);
    ghost var list, runs, tail :| Merges(days, list, runs, tail, buckets);
    StagesGuarantee(messages, days, list, runs, tail, buckets);
    windows := SplitLargeBuckets(buckets);
  }
}
