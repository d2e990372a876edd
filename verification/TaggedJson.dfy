/** The JSON codec with tags for values JSON does not have, and the pagination cursor made with it. */
module TaggedJson {
  import opened Options
  import opened Base64

  datatype Kind = Uuid | DateTime | Date | Time

  /** Values that a set may hold; those of a kind are written as text. */
  datatype Scalar = Null | Bool(b: bool) | Num(n: int) | Str(s: string) | Written(kind: Kind, text: string)

  datatype Value = Scalar(scalar: Scalar) | SetOf(items: set<Scalar>) | List(values: seq<Value>) | Dict(entries: seq<Entry>)
  datatype Entry = Entry(key: string, value: Value)

  datatype Json = JNull | JBool(b: bool) | JNum(n: int) | JStr(s: string) | JList(values: seq<Json>) | JDict(members: seq<Member>)
  datatype Member = Member(key: string, json: Json)

  /** How the text of each kind is read: the text the value is written with, or an error. */
  type Reader = (Kind, string) -> Option<string>

  function TagOf(kind: Kind): string {
    match kind
    case Uuid => "__uuid__"
    case DateTime => "__datetime__"
    case Date => "__date__"
    case Time => "__time__"
  }

  const SET_TAG := "__set__"

  // ------------------------------------------------------------------ encoding

  function Tagged(tag: string, json: Json): Json {
    JDict([Member(tag, JBool(true)), Member("value", json)])
  }

  function EncodeScalar(s: Scalar): Json {
    match s
    case Null => JNull
    case Bool(b) => JBool(b)
    case Num(n) => JNum(n)
    case Str(t) => JStr(t)
    case Written(kind, text) => Tagged(TagOf(kind), JStr(text))
  }

  /** The elements of a set, in some order. */
  ghost function Listed(items: set<Scalar>): (list: seq<Scalar>)
    ensures forall x :: x in list <==> x in items
  {
    if items == {} then []
    else
      var x :| x in items;
      [x] + Listed(items - {x})
  }

  /** `Encoder` */
  ghost function Encode(v: Value): Json {
    match v
    case Scalar(s) => EncodeScalar(s)
    case SetOf(items) => Tagged(SET_TAG, JList(EncodeScalars(Listed(items))))
    case List(values) => JList(EncodeAll(values))
    case Dict(entries) => JDict(EncodeEntries(entries))
  }

  function EncodeScalars(list: seq<Scalar>): seq<Json> {
    if list == [] then [] else [EncodeScalar(list[0])] + EncodeScalars(list[1..])
  }

  ghost function EncodeAll(values: seq<Value>): seq<Json> {
    if values == [] then [] else [Encode(values[0])] + EncodeAll(values[1..])
  }

  ghost function EncodeEntries(entries: seq<Entry>): seq<Member> {
    if entries == [] then []
    else [Member(entries[0].key, Encode(entries[0].value))] + EncodeEntries(entries[1..])
  }

  /** How values that JSON does not have are written. */
  lemma WireFormat(text: string, items: set<Scalar>)
    ensures EncodeScalar(Written(Uuid, text)) == JDict([Member("__uuid__", JBool(true)), Member("value", JStr(text))])
    ensures EncodeScalar(Written(DateTime, text)) == JDict([Member("__datetime__", JBool(true)), Member("value", JStr(text))])
    ensures EncodeScalar(Written(Date, text)) == JDict([Member("__date__", JBool(true)), Member("value", JStr(text))])
    ensures EncodeScalar(Written(Time, text)) == JDict([Member("__time__", JBool(true)), Member("value", JStr(text))])
    ensures exists list: seq<Scalar> ::
      (forall x :: x in list <==> x in items)
      && Encode(SetOf(items)) == JDict([Member("__set__", JBool(true)), Member("value", JList(EncodeScalars(list)))])
  {
    var list := Listed(items);
    assert (forall x :: x in list <==> x in items)
      && Encode(SetOf(items)) == JDict([Member("__set__", JBool(true)), Member("value", JList(EncodeScalars(list)))]);
  }

  // ------------------------------------------------------------------ decoding

  predicate HasTrue(entries: seq<Entry>, tag: string) {
    exists i | 0 <= i < |entries| :: entries[i] == Entry(tag, Scalar(Bool(true)))
  }

  /** The value of a key. */
  function Lookup(entries: seq<Entry>, key: string): Option<Value> {
    if entries == [] then None
    else if entries[0].key == key then Some(entries[0].value)
    else Lookup(entries[1..], key)
  }

  /** A tag is matched when it is true and there is a value. */
  predicate Matches(entries: seq<Entry>, tag: string) {
    HasTrue(entries, tag) && Lookup(entries, "value").Some?
  }

  function ReadAs(read: Reader, kind: Kind, v: Value): Option<Value> {
    if v.Scalar? && v.scalar.Str? then
      var text := read(kind, v.scalar.s);
      if text.Some? then Some(Scalar(Written(kind, text.value))) else None
    else None
  }

  predicate AllScalars(values: seq<Value>) {
    forall i | 0 <= i < |values| :: values[i].Scalar?
  }

  function ReadSet(v: Value): Option<Value> {
    if v.List? && AllScalars(v.values) then Some(SetOf(set x | x in v.values :: x.scalar)) else None
  }

  /** `Decoder.object_hook`; none is an exception. */
  function Hook(read: Reader, entries: seq<Entry>): Option<Value> {
    var value := Lookup(entries, "value");
    if Matches(entries, TagOf(Uuid)) then ReadAs(read, Uuid, value.value)
    else if Matches(entries, TagOf(DateTime)) then ReadAs(read, DateTime, value.value)
    else if Matches(entries, TagOf(Date)) then ReadAs(read, Date, value.value)
    else if Matches(entries, TagOf(Time)) then ReadAs(read, Time, value.value)
    else if Matches(entries, SET_TAG) then ReadSet(value.value)
    else Some(Dict(entries))
  }

  /** `Decoder`: the hook is called on every object, the inner ones first. */
  function Decode(read: Reader, j: Json): Option<Value> {
    match j
    case JNull => Some(Scalar(Null))
    case JBool(b) => Some(Scalar(Bool(b)))
    case JNum(n) => Some(Scalar(Num(n)))
    case JStr(s) => Some(Scalar(Str(s)))
    case JList(values) =>
      var list := DecodeAll(read, values);
      if list.None? then None else Some(List(list.value))
    case JDict(members) =>
      var entries := DecodeMembers(read, members);
      if entries.None? then None else Hook(read, entries.value)
  }

  function DecodeAll(read: Reader, values: seq<Json>): Option<seq<Value>> {
    if values == [] then Some([])
    else
      var first, rest := Decode(read, values[0]), DecodeAll(read, values[1..]);
      if first.None? || rest.None? then None else Some([first.value] + rest.value)
  }

  function DecodeMembers(read: Reader, members: seq<Member>): Option<seq<Entry>> {
    if members == [] then Some([])
    else
      var first, rest := Decode(read, members[0].json), DecodeMembers(read, members[1..]);
      if first.None? || rest.None? then None
      else Some([Entry(members[0].key, first.value)] + rest.value)
  }

  // ------------------------------------------------------------------ round trip

  /** The texts of the value are those it is written with. */
  predicate WrittenWell(read: Reader, s: Scalar) {
    s.Written? ==> read(s.kind, s.text) == Some(s.text)
  }

  ghost predicate WellWritten(read: Reader, v: Value) {
    match v
    case Scalar(s) => WrittenWell(read, s)
    case SetOf(items) => forall s | s in items :: WrittenWell(read, s)
    case List(values) => forall x | x in values :: WellWritten(read, x)
    case Dict(entries) => forall e | e in entries :: WellWritten(read, e.value)
  }

  predicate TagMatched(entries: seq<Entry>) {
    || Matches(entries, TagOf(Uuid)) || Matches(entries, TagOf(DateTime)) || Matches(entries, TagOf(Date))
    || Matches(entries, TagOf(Time)) || Matches(entries, SET_TAG)
  }

  /** No dictionary in the value carries a reserved tag that is true beside a value. */
  ghost predicate Untagged(v: Value) {
    match v
    case Scalar(_) => true
    case SetOf(_) => true
    case List(values) => forall x | x in values :: Untagged(x)
    case Dict(entries) => !TagMatched(entries) && forall e | e in entries :: Untagged(e.value)
  }

  lemma TwoEntries(tag: string, v: Value, t: string)
    requires tag != "value" && t != "value"
    ensures
      var entries := [Entry(tag, Scalar(Bool(true))), Entry("value", v)];
      Lookup(entries, "value") == Some(v) && (HasTrue(entries, t) <==> t == tag)
  {
    var entries := [Entry(tag, Scalar(Bool(true))), Entry("value", v)];
    assert entries[0] == Entry(tag, Scalar(Bool(true))) && entries[1] == Entry("value", v);
    assert entries[1..] == [Entry("value", v)];
  }

  /** Only the tag's own case matches what was written with the tag. */
  lemma TaggedHook(tag: string, v: Value)
    requires tag != "value"
    ensures
      var entries := [Entry(tag, Scalar(Bool(true))), Entry("value", v)];
      Lookup(entries, "value") == Some(v)
      && (forall kind: Kind :: Matches(entries, TagOf(kind)) <==> TagOf(kind) == tag)
      && (Matches(entries, SET_TAG) <==> SET_TAG == tag)
  {
    TwoEntries(tag, v, SET_TAG);
    forall kind: Kind { TwoEntries(tag, v, TagOf(kind)); }
  }

  lemma TaggedMembers(read: Reader, tag: string, json: Json, v: Value)
    requires Decode(read, json) == Some(v)
    ensures DecodeMembers(read, [Member(tag, JBool(true)), Member("value", json)])
         == Some([Entry(tag, Scalar(Bool(true))), Entry("value", v)])
  {
    var last, all := [Member("value", json)], [Member(tag, JBool(true)), Member("value", json)];
    assert last[1..] == [] && DecodeMembers(read, last[1..]) == Some([]);
    assert [Entry("value", v)] + [] == [Entry("value", v)];
    assert DecodeMembers(read, last) == Some([Entry("value", v)]);
    assert all[1..] == last && Decode(read, all[0].json) == Some(Scalar(Bool(true)));
    assert [Entry(tag, Scalar(Bool(true)))] + [Entry("value", v)]
        == [Entry(tag, Scalar(Bool(true))), Entry("value", v)];
  }

  lemma ScalarDecodes(read: Reader, s: Scalar)
    requires WrittenWell(read, s)
    ensures Decode(read, EncodeScalar(s)) == Some(Scalar(s))
  {
    if s.Written? {
      TaggedMembers(read, TagOf(s.kind), JStr(s.text), Scalar(Str(s.text)));
      TaggedHook(TagOf(s.kind), Scalar(Str(s.text)));
    }
  }

  function Scalars(list: seq<Scalar>): (values: seq<Value>)
    ensures |values| == |list| && forall i | 0 <= i < |list| :: values[i] == Scalar(list[i])
  {
    seq(|list|, i requires 0 <= i < |list| => Scalar(list[i]))
  }

  lemma {:induction false} ScalarsDecode(read: Reader, list: seq<Scalar>)
    requires forall s | s in list :: WrittenWell(read, s)
    ensures DecodeAll(read, EncodeScalars(list)) == Some(Scalars(list))
  {
    if list != [] {
      assert list[0] in list && forall s | s in list[1..] :: s in list;
      ScalarDecodes(read, list[0]);
      ScalarsDecode(read, list[1..]);
      assert EncodeScalars(list)[1..] == EncodeScalars(list[1..]);
      assert [Scalar(list[0])] + Scalars(list[1..]) == Scalars(list);
    }
  }

  lemma SetDecodes(read: Reader, items: set<Scalar>)
    requires forall s | s in items :: WrittenWell(read, s)
    ensures Decode(read, Encode(SetOf(items))) == Some(SetOf(items))
  {
    var list := Listed(items);
    var v := List(Scalars(list));
    ScalarsDecode(read, list);
    TaggedMembers(read, SET_TAG, JList(EncodeScalars(list)), v);
    TaggedHook(SET_TAG, v);
    ListRead(list, items);
  }

  lemma ListRead(list: seq<Scalar>, items: set<Scalar>)
    requires forall x :: x in list <==> x in items
    ensures ReadSet(List(Scalars(list))) == Some(SetOf(items))
  {
    var values := Scalars(list);
    var found := set x | x in values :: x.scalar;
    forall x | x in items ensures x in found {
      var i :| 0 <= i < |list| && list[i] == x;
      assert values[i] in values;
    }
    assert found == items;
  }

  /** Decoding an encoded value gives it back exactly when no dictionary in it carries a reserved tag. */
  lemma {:induction false} RoundTripIff(read: Reader, v: Value)
    requires WellWritten(read, v)
    ensures Decode(read, Encode(v)) == Some(v) <==> Untagged(v)
    decreases v
  {
    match v
    case Scalar(s) => ScalarDecodes(read, s);
    case SetOf(items) => SetDecodes(read, items);
    case List(values) => RoundTripAll(read, values);
    case Dict(entries) =>
      RoundTripEntries(read, entries);
      var decoded := DecodeMembers(read, EncodeEntries(entries));
      if decoded.Some? { HookDict(read, decoded.value, entries); }
  }

  /** The hook gives a dictionary only when no tag is matched, and then the one it was given. */
  lemma HookDict(read: Reader, es: seq<Entry>, entries: seq<Entry>)
    ensures Hook(read, es) == Some(Dict(entries)) <==> es == entries && !TagMatched(es)
  {}

  lemma {:induction false} RoundTripAll(read: Reader, values: seq<Value>)
    requires forall x | x in values :: WellWritten(read, x)
    ensures DecodeAll(read, EncodeAll(values)) == Some(values) <==> forall x | x in values :: Untagged(x)
    decreases values
  {
    if values != [] {
      var first, rest := values[0], values[1..];
      assert values == [first] + rest;
      RoundTripIff(read, first);
      RoundTripAll(read, rest);
      assert EncodeAll(values)[1..] == EncodeAll(rest);
    }
  }

  lemma {:induction false} RoundTripEntries(read: Reader, entries: seq<Entry>)
    requires forall e | e in entries :: WellWritten(read, e.value)
    ensures DecodeMembers(read, EncodeEntries(entries)) == Some(entries)
       <==> forall e | e in entries :: Untagged(e.value)
    decreases entries
  {
    if entries != [] {
      var first, rest := entries[0], entries[1..];
      assert entries == [first] + rest;
      RoundTripIff(read, first.value);
      RoundTripEntries(read, rest);
      assert EncodeEntries(entries)[1..] == EncodeEntries(rest);
    }
  }

  // ------------------------------------------------------------------ the pagination cursor

  /** Printing and parsing JSON, which the cursor takes from the standard library. */
  ghost predicate Inverse(dumps: Json -> seq<Byte>, loads: seq<Byte> -> Option<Json>) {
    forall j :: loads(dumps(j)) == Some(j)
  }

  /** The pairs of a cursor, as a list of lists. */
  function Rows(values: seq<(string, Value)>): (rows: seq<Value>)
    ensures |rows| == |values|
    ensures forall i | 0 <= i < |values| :: rows[i] == List([Scalar(Str(values[i].0)), values[i].1])
  {
    seq(|values|, i requires 0 <= i < |values| => List([Scalar(Str(values[i].0)), values[i].1]))
  }

  /** `encode_cursor` */
  ghost function EncodeCursor(dumps: Json -> seq<Byte>, values: seq<(string, Value)>): string {
    Base64.Encode(dumps(Encode(List(Rows(values)))))
  }

  predicate IsPair(v: Value) {
    v.List? && |v.values| == 2 && v.values[0].Scalar? && v.values[0].scalar.Str?
  }

  /** The pairs of a list of lists; anything else is an error. */
  function Pairs(v: Value): Option<seq<(string, Value)>> {
    if v.List? && forall i | 0 <= i < |v.values| :: IsPair(v.values[i]) then
      Some(seq(|v.values|, i requires 0 <= i < |v.values| => (v.values[i].values[0].scalar.s, v.values[i].values[1])))
    else None
  }

  /** `decode_cursor`: padding is added when the length asks for it, and an error gives no pairs. */
  function DecodeCursor(read: Reader, loads: seq<Byte> -> Option<Json>, cursor: string): seq<(string, Value)> {
    var padded := if |cursor| % 4 != 0 then cursor + Padding(4 - |cursor| % 4) else cursor;
    var bytes := Base64.Decode(padded);
    if bytes.None? then []
    else
      var json := loads(bytes.value);
      if json.None? then []
      else
        var v := Decode(read, json.value);
        if v.None? then []
        else
          var pairs := Pairs(v.value);
          if pairs.None? then [] else pairs.value
  }

  lemma RowWritten(read: Reader, name: string, v: Value)
    ensures
      var row := List([Scalar(Str(name)), v]);
      IsPair(row) && (WellWritten(read, v) ==> WellWritten(read, row)) && (Untagged(row) <==> Untagged(v))
  {
    var row := List([Scalar(Str(name)), v]);
    assert row.values[1] in row.values;
    assert forall x | x in row.values :: x == row.values[0] || x == row.values[1];
  }

  lemma RowsWritten(read: Reader, values: seq<(string, Value)>)
    requires forall i | 0 <= i < |values| :: WellWritten(read, values[i].1)
    ensures WellWritten(read, List(Rows(values)))
    ensures Untagged(List(Rows(values))) <==> forall i | 0 <= i < |values| :: Untagged(values[i].1)
  {
    var rows := Rows(values);
    forall i | 0 <= i < |values|
      ensures rows[i] in rows && WellWritten(read, rows[i]) && (Untagged(rows[i]) <==> Untagged(values[i].1))
    {
      RowWritten(read, values[i].0, values[i].1);
    }
  }

  /** Only the rows of some pairs are read as those pairs. */
  lemma PairsIff(v: Value, values: seq<(string, Value)>)
    ensures Pairs(v) == Some(values) <==> v == List(Rows(values))
  {
    if v == List(Rows(values)) {
      assert Pairs(v).value == values;
    }
    if Pairs(v) == Some(values) {
      forall i | 0 <= i < |values| ensures v.values[i] == Rows(values)[i] {
        assert IsPair(v.values[i]) && values[i] == (v.values[i].values[0].scalar.s, v.values[i].values[1]);
        assert v.values[i].values == [v.values[i].values[0], v.values[i].values[1]];
      }
      assert v.values == Rows(values);
    }
  }

  /** A cursor gives its pairs back, also when padding was stripped from its end, exactly when no dictionary
      in them carries a reserved tag. */
  lemma CursorRoundTrip(
      read: Reader, dumps: Json -> seq<Byte>, loads: seq<Byte> -> Option<Json>, values: seq<(string, Value)>,
      stripped: nat)
    requires Inverse(dumps, loads)
    requires forall i | 0 <= i < |values| :: WellWritten(read, values[i].1)
    requires stripped <= Missing(|Symbols(dumps(Encode(List(Rows(values)))))|)
    ensures
      var cursor := EncodeCursor(dumps, values);
      stripped <= |cursor|
      && (DecodeCursor(read, loads, cursor[..|cursor| - stripped]) == values
          <==> forall i | 0 <= i < |values| :: Untagged(values[i].1))
  {
    var json := Encode(List(Rows(values)));
    var bytes := dumps(json);
    SymbolsShape(bytes);
    PaddingRestored(Symbols(bytes), stripped);
    EncodeDecodes(bytes);
    assert loads(dumps(json)) == Some(json);
    StrippedRead(read, loads, Base64.Encode(bytes), stripped, bytes, json);
    RowsWritten(read, values);
    RoundTripIff(read, List(Rows(values)));
    ReadIff(Decode(read, json), values);
  }

  /** What `decode_cursor` makes of a decoded value, or of an error. */
  function ReadPairs(v: Option<Value>): seq<(string, Value)> {
    if v.Some? && Pairs(v.value).Some? then Pairs(v.value).value else []
  }

  lemma ReadIff(v: Option<Value>, values: seq<(string, Value)>)
    ensures values != [] ==> (ReadPairs(v) == values <==> v == Some(List(Rows(values))))
    ensures v == Some(List(Rows(values))) ==> ReadPairs(v) == values
  {
    PairsIff(List(Rows(values)), values);
    if v.Some? { PairsIff(v.value, values); }
  }

  lemma StrippedRead(
      read: Reader, loads: seq<Byte> -> Option<Json>, text: string, stripped: nat, bytes: seq<Byte>, json: Json)
    requires stripped <= |text|
    requires var cut := text[..|text| - stripped]; cut + Padding(Missing(|cut|)) == text
    requires Base64.Decode(text) == Some(bytes) && loads(bytes) == Some(json)
    ensures DecodeCursor(read, loads, text[..|text| - stripped]) == ReadPairs(Decode(read, json))
  {
    PaddingAdded(text, stripped);
  }

  /** What `decode_cursor` adds is what is missing. */
  lemma PaddingAdded(text: string, stripped: nat)
    requires stripped <= |text|
    ensures
      var cut := text[..|text| - stripped];
      (if |cut| % 4 != 0 then cut + Padding(4 - |cut| % 4) else cut) == cut + Padding(Missing(|cut|))
  {
    var cut := text[..|text| - stripped];
    if |cut| % 4 == 0 { assert cut + Padding(0) == cut; }
  }
}
