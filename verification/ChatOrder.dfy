/** What the buckets hold: their sizes, and the messages of the days as the stable order by date. */
module ChatOrder {
  import opened IsoDates
  import opened Sequences
  import opened ChatBuckets

  // ------------------------------------------------------------------ buckets of a merge

  lemma {:induction false} FlatGrows(run: seq<Day>, n: nat)
    requires n <= |run|
    ensures |Flat(run[..n])| <= |Flat(run)|
  {
    FlatConcat(run[..n], run[n..]);
    assert run[..n] + run[n..] == run;
  }

  /** Every run but a lonely one holds the threshold. */
  lemma RunLarge(list: seq<Day>, runs: seq<seq<Day>>, tail: nat, k: nat)
    requires IsMerge(list, runs, tail) && k < |runs|
    ensures |Flat(runs[k])| >= MERGE_THRESHOLD || (|runs| == 1 && |Flat(list)| < MERGE_THRESHOLD)
    ensures runs[k] != []
  {
    if k == |runs| - 1 {
      var run := runs[k];
      if ClosedThenThin(run, tail) {
        FlatGrows(run, |run| - tail);
      } else {
        ConcatFirst(runs);
        assert runs[1..] == [] && Concat(runs[1..]) == [];
        assert list == run + [] == run;
      }
    }
  }

  lemma {:induction false} ConcatLarge(runs: seq<seq<Day>>)
    requires runs != [] && |Flat(runs[|runs| - 1])| >= MERGE_THRESHOLD
    ensures |Flat(Concat(runs))| >= MERGE_THRESHOLD
  {
    FlatConcat(Concat(runs[..|runs| - 1]), runs[|runs| - 1]);
  }

  /** Less than a closed run of the first days is under the threshold. */
  lemma ShorterThin(list: seq<Day>, m: nat, n: nat)
    requires m < n <= |list| && Closed(list[..n])
    ensures |Flat(list[..m])| < MERGE_THRESHOLD
  {
    var run := list[..n];
    FlatGrows(run[..n - 1], m);
    assert run[..n - 1][..m] == list[..m];
  }

  lemma ClosedUnique(list: seq<Day>, m: nat, n: nat)
    requires m <= |list| && n <= |list| && Closed(list[..m]) && Closed(list[..n])
    ensures m == n
  {
    if m < n { ShorterThin(list, m, n); }
    if n < m { ShorterThin(list, n, m); }
  }

  /** A merge of two runs or more starts with a closed run and leaves the threshold behind it. */
  lemma FirstOfMany(list: seq<Day>, runs: seq<seq<Day>>, tail: nat)
    requires IsMerge(list, runs, tail) && |runs| > 1
    ensures |runs[0]| <= |list| && list[..|runs[0]|] == runs[0] && Closed(list[..|runs[0]|])
    ensures list[|runs[0]|..] == Concat(runs[1..]) && |Flat(list[|runs[0]|..])| >= MERGE_THRESHOLD
    ensures IsMerge(list[|runs[0]|..], runs[1..], tail)
  {
    var rest := runs[1..];
    ConcatFirst(runs);
    RunLarge(list, runs, tail, |runs| - 1);
    assert rest[|rest| - 1] == runs[|runs| - 1] && Closed(runs[0]);
    ConcatLarge(rest);
  }

  /** What merges into two runs or more merges into nothing less. */
  lemma OneOrMany(list: seq<Day>, many: seq<seq<Day>>, tail: nat, other: seq<seq<Day>>, tail': nat)
    requires IsMerge(list, many, tail) && |many| > 1 && IsMerge(list, other, tail') && other != []
    ensures |other| > 1
  {
    FirstOfMany(list, many, tail);
    var k := |many[0]|;
    if |other| == 1 {
      LonelyRun(list, other);
      if ClosedThenThin(list, tail') { ClosedUnique(list, k, |list| - tail'); } else { FlatGrows(list, k); }
    }
  }

  /** No days merge into no runs. */
  lemma NoneOrSome(list: seq<Day>, runs: seq<seq<Day>>, tail: nat)
    requires IsMerge(list, runs, tail)
    ensures runs == [] <==> list == []
  {
    if runs != [] {
      ConcatFirst(runs);
      RunLarge(list, runs, tail, 0);
    }
  }

  lemma LonelyRun(list: seq<Day>, runs: seq<seq<Day>>)
    requires |runs| == 1 && Concat(runs) == list
    ensures runs[0] == list
  {
    assert runs[..0] == [] && Concat(runs[..0]) == [];
    assert [] + runs[0] == list;
  }

  /** There is one way only to merge the days. */
  lemma {:induction false} MergeUnique(
      list: seq<Day>, a: seq<seq<Day>>, tail: nat, b: seq<seq<Day>>, tail': nat)
    requires IsMerge(list, a, tail) && IsMerge(list, b, tail')
    ensures a == b
    decreases |a|
  {
    NoneOrSome(list, a, tail);
    NoneOrSome(list, b, tail');
    if |a| > 1 {
      OneOrMany(list, a, tail, b, tail');
      FirstOfMany(list, a, tail);
      FirstOfMany(list, b, tail');
      ClosedUnique(list, |a[0]|, |b[0]|);
      MergeUnique(list[|a[0]|..], a[1..], tail, b[1..], tail');
      assert a == [a[0]] + a[1..] && b == [b[0]] + b[1..];
    } else if |a| == 1 {
      if |b| > 1 { OneOrMany(list, b, tail', a, tail); }
      LonelyRun(list, a);
      LonelyRun(list, b);
    }
  }

  // ------------------------------------------------------------------ order of the messages

  predicate DateSorted(messages: seq<Message>) {
    forall i, j | 0 <= i < j < |messages| :: messages[i].date <= messages[j].date
  }

  /** `sorted` holds the same messages by day, those of one day in their order. */
  ghost predicate StablySorted(messages: seq<Message>, sorted: seq<Message>) {
    DateSorted(sorted) && forall d: Date :: SameOnDate(messages, sorted, d)
  }

  predicate SameOnDate(a: seq<Message>, b: seq<Message>, d: Date) {
    OnDate(a, d) == OnDate(b, d)
  }

  lemma {:induction false} OnDateConcat(a: seq<Message>, b: seq<Message>, d: Date)
    ensures OnDate(a + b, d) == OnDate(a, d) + OnDate(b, d)
  {
    if b == [] {
      assert a + b == a;
    } else {
      var n := |b| - 1;
      var ab, c := a + b, b[..n];
      OnDateConcat(a, c, d);
      assert ab[..|ab| - 1] == a + c && ab[|ab| - 1] == b[n];
    }
  }

  /** A message is in the day of its date, and a day holds messages of its date only. */
  lemma {:induction false} OnDateMember(messages: seq<Message>, d: Date, m: Message)
    ensures m in OnDate(messages, d) <==> m in messages && m.date == d
  {
    if messages != [] {
      var n := |messages| - 1;
      OnDateMember(messages[..n], d, m);
      assert messages == messages[..n] + [messages[n]];
    }
  }

  /** A day of a day's messages is that day, another day is empty. */
  lemma {:induction false} OnDateSame(messages: seq<Message>, d: Date, e: Date)
    requires forall m :: m in messages ==> m.date == d
    ensures OnDate(messages, e) == if d == e then messages else []
  {
    if messages != [] {
      var n := |messages| - 1;
      assert messages[n] in messages;
      OnDateSame(messages[..n], d, e);
      assert messages == messages[..n] + [messages[n]];
    }
  }

  lemma SameMember(a: seq<Message>, b: seq<Message>, m: Message)
    requires StablySorted(a, b)
    ensures m in a <==> m in b
  {
    assert SameOnDate(a, b, m.date);
    OnDateMember(a, m.date, m);
    OnDateMember(b, m.date, m);
  }

  lemma LastIsLatest(a: seq<Message>, m: Message)
    requires DateSorted(a) && m in a
    ensures m.date <= a[|a| - 1].date
  {
    var i :| 0 <= i < |a| && a[i] == m;
  }

  lemma LastOnDate(a: seq<Message>)
    requires a != []
    ensures
      var last := a[|a| - 1];
      var day := OnDate(a, last.date);
      day != [] && day[|day| - 1] == last
  {}

  /** The last messages of two stable orders of the same messages are the same. */
  lemma SameLast(a: seq<Message>, b: seq<Message>)
    requires a != [] && b != [] && DateSorted(a) && StablySorted(a, b)
    ensures a[|a| - 1] == b[|b| - 1]
  {
    var x, y := a[|a| - 1], b[|b| - 1];
    SameMember(a, b, x);
    SameMember(a, b, y);
    LastIsLatest(a, y);
    LastIsLatest(b, x);
    assert SameOnDate(a, b, x.date);
    LastOnDate(a);
    LastOnDate(b);
  }

  lemma Cancel<T>(a: seq<T>, b: seq<T>, c: seq<T>)
    requires a + c == b + c
    ensures a == b
  {
    assert a == (a + c)[..|a + c| - |c|] && b == (b + c)[..|b + c| - |c|];
  }

  lemma SameDayBefore(a: seq<Message>, b: seq<Message>, last: seq<Message>, d: Date)
    requires SameOnDate(a + last, b + last, d)
    ensures SameOnDate(a, b, d)
  {
    OnDateConcat(a, last, d);
    OnDateConcat(b, last, d);
    Cancel(OnDate(a, d), OnDate(b, d), OnDate(last, d));
  }

  lemma SortedBefore(a: seq<Message>, b: seq<Message>, last: seq<Message>)
    requires DateSorted(a + last) && StablySorted(a + last, b + last)
    ensures DateSorted(a) && StablySorted(a, b)
  {
    forall i, j | 0 <= i < j < |b| ensures b[i].date <= b[j].date {
      assert b[i] == (b + last)[i] && b[j] == (b + last)[j];
    }
    forall i, j | 0 <= i < j < |a| ensures a[i].date <= a[j].date {
      assert a[i] == (a + last)[i] && a[j] == (a + last)[j];
    }
    forall d: Date ensures SameOnDate(a, b, d) {
      SameDayBefore(a, b, last, d);
    }
  }

  /** There is one stable order by day only. */
  lemma {:induction false} SortedDetermined(a: seq<Message>, b: seq<Message>)
    requires DateSorted(a) && StablySorted(a, b)
    ensures a == b
  {
    if a == [] || b == [] {
      BothEmpty(a, b);
    } else {
      SameLast(a, b);
      var head, before, last := a[..|a| - 1], b[..|b| - 1], [a[|a| - 1]];
      assert a == head + last && b == before + last;
      SortedBefore(head, before, last);
      SortedDetermined(head, before);
    }
  }

  lemma BothEmpty(a: seq<Message>, b: seq<Message>)
    requires StablySorted(a, b) && (a == [] || b == [])
    ensures a == b
  {
    if a != [] { SameMember(a, b, a[0]); }
    if b != [] { SameMember(a, b, b[0]); }
  }

  predicate DayList(list: seq<Day>) {
    && (forall i, j | 0 <= i < j < |list| :: list[i].date < list[j].date)
    && (forall i | 0 <= i < |list| :: list[i].messages != [])
    && (forall i, m | 0 <= i < |list| && m in list[i].messages :: m.date == list[i].date)
  }

  /** The messages of a list of days lie between its ends and are in date order. */
  lemma {:induction false} FlatSorted(list: seq<Day>)
    requires DayList(list)
    ensures DateSorted(Flat(list)) && (Flat(list) == [] <==> list == [])
    ensures forall m :: m in Flat(list) ==> list[0].date <= m.date <= list[|list| - 1].date
  {
    if list != [] {
      var n := |list| - 1;
      FlatSorted(list[..n]);
      var head, last := Flat(list[..n]), list[n].messages;
      var all: seq<Message> := head + last;
      forall i, j | 0 <= i < j < |all| ensures all[i].date <= all[j].date
      {
        if i < |head| { assert head[i] in head; } else { assert last[i - |head|] in last; }
        if j >= |head| { assert last[j - |head|] in last; }
      }
    }
  }

  lemma FlatDaySnoc(init: seq<Day>, day: Day, d: Date)
    requires forall m :: m in day.messages ==> m.date == day.date
    ensures OnDate(Flat(init + [day]), d)
         == OnDate(Flat(init), d) + if day.date == d then day.messages else []
  {
    FlatSnoc(init, day);
    OnDateConcat(Flat(init), day.messages, d);
    OnDateSame(day.messages, day.date, d);
  }

  lemma DayListParts(a: seq<Day>, b: seq<Day>)
    requires DayList(a + b)
    ensures DayList(a) && DayList(b)
  {
    var all := a + b;
    assert forall i | 0 <= i < |a| :: a[i] == all[i];
    assert forall i | 0 <= i < |b| :: b[i] == all[|a| + i];
  }

  lemma {:induction false} FlatNoDay(list: seq<Day>, d: Date)
    requires DayList(list) && forall i | 0 <= i < |list| :: list[i].date != d
    ensures OnDate(Flat(list), d) == []
  {
    if list != [] {
      var init, last := list[..|list| - 1], list[|list| - 1];
      assert list == init + [last];
      DayListParts(init, [last]);
      FlatNoDay(init, d);
      FlatDaySnoc(init, last, d);
    }
  }

  /** A day of the messages of a list of days is that day of the list. */
  lemma {:induction false} FlatDay(list: seq<Day>, i: nat)
    requires DayList(list) && i < |list|
    ensures OnDate(Flat(list), list[i].date) == list[i].messages
  {
    var init, last, d := list[..|list| - 1], list[|list| - 1], list[i].date;
    assert list == init + [last];
    DayListParts(init, [last]);
    if i == |init| { FlatNoDay(init, d); } else { FlatDay(init, i); }
    FlatDaySnoc(init, last, d);
  }

  /** The days of the messages, in date order, hold the messages sorted stably by day. */
  lemma GroupedSorted(messages: seq<Message>, days: Days, list: seq<Day>)
    requires IsGrouping(messages, days) && ListsDays(days, list)
    ensures DayList(list) && StablySorted(messages, Flat(list))
  {
    forall i, m | 0 <= i < |list| && m in list[i].messages ensures m.date == list[i].date {
      assert At(days, list[i].date) == OnDate(messages, list[i].date);
      OnDateMember(messages, list[i].date, m);
    }
    FlatSorted(list);
    forall d: Date ensures SameOnDate(messages, Flat(list), d) {
      assert At(days, d) == OnDate(messages, d);
      if d in days {
        var i :| 0 <= i < |list| && list[i].date == d;
        FlatDay(list, i);
      } else {
        FlatNoDay(list, d);
      }
    }
  }

  /** A message goes behind those of its own and earlier dates. */
  function InsertMessage(sorted: seq<Message>, m: Message): (r: seq<Message>)
    ensures |r| == |sorted| + 1
  {
    if sorted == [] || sorted[|sorted| - 1].date <= m.date then sorted + [m]
    else InsertMessage(sorted[..|sorted| - 1], m) + [sorted[|sorted| - 1]]
  }

  /** The messages sorted stably by date. */
  function StableSort(messages: seq<Message>): (r: seq<Message>)
    ensures |r| == |messages|
  {
    if messages == [] then []
    else InsertMessage(StableSort(messages[..|messages| - 1]), messages[|messages| - 1])
  }

  /** Messages of different dates may be added in either order. */
  lemma SwapOnDate(init: seq<Message>, a: seq<Message>, m: Message, last: Message, d: Date)
    requires m.date != last.date && OnDate(a, d) == OnDate(init, d) + OnDate([m], d)
    ensures OnDate(a + [last], d) == OnDate(init + [last], d) + OnDate([m], d)
  {
    OnDateConcat(a, [last], d);
    OnDateConcat(init, [last], d);
    OnDateSame([m], m.date, d);
    OnDateSame([last], last.date, d);
    var x, y, z := OnDate(init, d), OnDate([m], d), OnDate([last], d);
    if y == [] { assert x + y == x && x + z + y == x + z; } else { assert z == [] && x + y + z == x + y; }
  }

  lemma {:induction false} InsertOnDate(sorted: seq<Message>, m: Message, d: Date)
    ensures OnDate(InsertMessage(sorted, m), d) == OnDate(sorted, d) + OnDate([m], d)
  {
    if sorted == [] || sorted[|sorted| - 1].date <= m.date {
      OnDateConcat(sorted, [m], d);
    } else {
      var init, last := sorted[..|sorted| - 1], sorted[|sorted| - 1];
      InsertOnDate(init, m, d);
      SwapOnDate(init, InsertMessage(init, m), m, last, d);
      assert init + [last] == sorted;
    }
  }

  lemma {:induction false} InsertSorted(sorted: seq<Message>, m: Message)
    requires DateSorted(sorted)
    ensures DateSorted(InsertMessage(sorted, m))
    ensures forall x :: x in InsertMessage(sorted, m) ==> x == m || x in sorted
  {
    if sorted != [] && sorted[|sorted| - 1].date > m.date {
      var init := sorted[..|sorted| - 1];
      InsertSorted(init, m);
      var r := InsertMessage(init, m);
      forall i | 0 <= i < |r| ensures r[i].date <= sorted[|sorted| - 1].date {
        assert r[i] in r;
      }
    }
  }

  lemma {:induction false} StableSortSound(messages: seq<Message>)
    ensures StablySorted(messages, StableSort(messages))
  {
    if messages != [] {
      var init, m := messages[..|messages| - 1], messages[|messages| - 1];
      StableSortSound(init);
      InsertSorted(StableSort(init), m);
      assert messages == init + [m];
      forall d: Date ensures SameOnDate(messages, StableSort(messages), d) {
        assert SameOnDate(init, StableSort(init), d);
        InsertOnDate(StableSort(init), m, d);
        OnDateConcat(init, [m], d);
      }
    }
  }

  /** The messages of the days are the messages sorted stably by date. */
  lemma DaysAreSorted(messages: seq<Message>, days: Days, list: seq<Day>)
    requires IsGrouping(messages, days) && ListsDays(days, list)
    ensures DayList(list) && Flat(list) == StableSort(messages)
  {
    GroupedSorted(messages, days, list);
    StableSortSound(messages);
    var sorted := StableSort(messages);
    forall d: Date ensures SameOnDate(sorted, Flat(list), d) {
      assert SameOnDate(messages, sorted, d) && SameOnDate(messages, Flat(list), d);
    }
    SortedDetermined(sorted, Flat(list));
  }

  /** Sorting changes nothing exactly when the dates are in order already. */
  lemma SortKeeps(messages: seq<Message>)
    ensures StableSort(messages) == messages <==> DateSorted(messages)
  {
    StableSortSound(messages);
    if DateSorted(messages) { SortedDetermined(messages, StableSort(messages)); }
  }
}
