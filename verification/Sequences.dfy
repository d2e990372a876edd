/** Concatenation of parts, and sequences that increase. */
module Sequences {
  predicate Increasing(s: seq<int>) {
    forall i, j | 0 <= i < j < |s| :: s[i] < s[j]
  }

  function Concat<T>(parts: seq<seq<T>>): seq<T> {
    if parts == [] then [] else Concat(parts[..|parts| - 1]) + parts[|parts| - 1]
  }

  lemma ConcatSnoc<T>(parts: seq<seq<T>>, part: seq<T>)
    ensures Concat(parts + [part]) == Concat(parts) + part
  {
    assert (parts + [part])[..|parts|] == parts;
  }

  lemma {:induction false} ConcatFirst<T>(parts: seq<seq<T>>)
    requires parts != []
    ensures Concat(parts) == parts[0] + Concat(parts[1..])
  {
    var n := |parts| - 1;
    if n > 0 {
      ConcatFirst(parts[..n]);
      var rest := parts[1..];
      assert rest[..n - 1] == parts[..n][1..];
    } else {
      assert parts[1..] == [];
    }
  }

  lemma {:induction false} InConcat<T>(parts: seq<seq<T>>, x: T)
    ensures x in Concat(parts) <==> exists k :: 0 <= k < |parts| && x in parts[k]
  {
    if parts != [] {
      var n := |parts| - 1;
      var init := parts[..n];
      assert parts == init + [parts[n]];
      ConcatSnoc(init, parts[n]);
      InConcat(init, x);
      if x in Concat(init) {
        var k :| 0 <= k < |init| && x in init[k];
        assert x in parts[k];
      }
      forall k | 0 <= k < |parts| && x in parts[k] ensures x in Concat(parts) {
        if k < n { assert x in init[k]; }
      }
    }
  }
}
