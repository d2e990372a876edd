/** Greedy chunking of objects and of tokens. */
module Chunking {
  import opened Sequences

  function Sum<T>(size: T -> nat, items: seq<T>): nat {
    if items == [] then 0 else Sum(size, items[..|items| - 1]) + size(items[|items| - 1])
  }

  /** A chunk over the target holds one item only. */
  predicate Fits<T>(size: T -> nat, target: int, chunk: seq<T>) {
    chunk != [] && (Sum(size, chunk) <= target || |chunk| == 1)
  }

  /** A partition of the items into chunks that fit. */
  ghost predicate Partition<T>(size: T -> nat, target: int, items: seq<T>, chunks: seq<seq<T>>) {
    Concat(chunks) == items && forall k | 0 <= k < |chunks| :: Fits(size, target, chunks[k])
  }

  /** The first item of the next chunk did not fit in this one. */
  predicate Full<T>(size: T -> nat, target: int, chunk: seq<T>, next: seq<T>) {
    next != [] && Sum(size, chunk) + size(next[0]) > target
  }

  ghost predicate Greedy<T>(size: T -> nat, target: int, items: seq<T>, chunks: seq<seq<T>>) {
    Partition(size, target, items, chunks)
    && forall k | 0 <= k < |chunks| - 1 :: Full(size, target, chunks[k], chunks[k + 1])
  }

  /** `chunk_objects` gives an empty chunk in front exactly when the first item is over the target. */
  function Lead<T>(size: T -> nat, target: int, items: seq<T>): seq<seq<T>> {
    if items != [] && size(items[0]) > target then [[]] else []
  }

  /** An item that still fits joins the last chunk. */
  lemma GreedyJoin<T>(size: T -> nat, target: int, items: seq<T>, chunks: seq<seq<T>>, chunk: seq<T>, x: T)
    requires Greedy(size, target, items, chunks + [chunk])
    requires Sum(size, chunk) + size(x) <= target
    ensures Greedy(size, target, items + [x], chunks + [chunk + [x]])
  {
    var before, after := chunks + [chunk], chunks + [chunk + [x]];
    ConcatSnoc(chunks, chunk);
    ConcatSnoc(chunks, chunk + [x]);
    assert Concat(chunks) + (chunk + [x]) == Concat(chunks) + chunk + [x];
    assert (chunk + [x])[..|chunk|] == chunk;
    forall k | 0 <= k < |after| ensures Fits(size, target, after[k]) {
      assert Fits(size, target, before[k]);
    }
    forall k | 0 <= k < |after| - 1 ensures Full(size, target, after[k], after[k + 1]) {
      assert Full(size, target, before[k], before[k + 1]) && Fits(size, target, before[k + 1]);
    }
  }

  /** An item that does not fit starts a chunk. */
  lemma GreedyStart<T>(size: T -> nat, target: int, items: seq<T>, chunks: seq<seq<T>>, x: T)
    requires Greedy(size, target, items, chunks)
    requires chunks != [] ==> Sum(size, chunks[|chunks| - 1]) + size(x) > target
    ensures Greedy(size, target, items + [x], chunks + [[x]])
  {
    var after := chunks + [[x]];
    ConcatSnoc(chunks, [x]);
    forall k | 0 <= k < |after| ensures Fits(size, target, after[k]) {
      if k < |chunks| { assert Fits(size, target, chunks[k]); }
    }
    forall k | 0 <= k < |after| - 1 ensures Full(size, target, after[k], after[k + 1]) {
      if k + 1 < |chunks| { assert Full(size, target, chunks[k], chunks[k + 1]); }
    }
  }

  /** The chunks so far with one more item, the last of them still growing. */
  function Added<T>(size: T -> nat, target: int, all: seq<seq<T>>, x: T): seq<seq<T>> {
    var n := |all| - 1;
    if all == [] || Sum(size, all[n]) + size(x) > target then all + [[x]]
    else all[..n] + [all[n] + [x]]
  }

  lemma AddedGreedy<T>(size: T -> nat, target: int, items: seq<T>, all: seq<seq<T>>, x: T)
    requires Greedy(size, target, items, all)
    ensures Greedy(size, target, items + [x], Added(size, target, all, x))
  {
    if all == [] || Sum(size, all[|all| - 1]) + size(x) > target {
      GreedyStart(size, target, items, all, x);
    } else {
      var init, last := all[..|all| - 1], all[|all| - 1];
      assert all == init + [last];
      GreedyJoin(size, target, items, init, last, x);
    }
  }

  /** What the loop of `chunk_objects` holds: the chunks yielded, and the one still growing. */
  ghost predicate Yielded<T>(lead: seq<seq<T>>, all: seq<seq<T>>, chunks: seq<seq<T>>, chunk: seq<T>) {
    if all == [] then chunks == [] && chunk == []
    else chunk == all[|all| - 1] && chunk != [] && chunks == lead + all[..|all| - 1]
  }

  /** One round: the chunk is yielded when the item does not fit, and the item joins or starts a chunk. */
  lemma YieldedNext<T>(
      size: T -> nat, target: int, lead: seq<seq<T>>, all: seq<seq<T>>, chunks: seq<seq<T>>, chunk: seq<T>, x: T)
    requires Yielded(lead, all, chunks, chunk) && (all == [] ==> lead == Lead(size, target, [x]))
    ensures
      var added := Added(size, target, all, x);
      if Sum(size, chunk) + size(x) > target then Yielded(lead, added, chunks + [chunk], [x])
      else Yielded(lead, added, chunks, chunk + [x])
  {
    if all != [] {
      var init, last := all[..|all| - 1], all[|all| - 1];
      assert lead + init + [last] == lead + all;
    } else {
      assert chunks + [chunk] == [[]] && lead + [] == lead;
    }
  }

  /** `chunk_objects`: the chunks in the order they are yielded. */
  method ChunkObjects<T>(chunkables: seq<T>, size: T -> nat, target: int)
    returns (chunks: seq<seq<T>>)
    ensures Lead(size, target, chunkables) <= chunks
    ensures Greedy(size, target, chunkables, chunks[|Lead(size, target, chunkables)|..])
  {
    chunks := [];
    ghost var body: seq<seq<T>> := [];
    var chunk, tokensInChunk := [], 0;
    ghost var lead := Lead(size, target, chunkables);
    for i := 0 to |chunkables|
      invariant tokensInChunk == Sum(size, chunk) && (i == 0 <==> body == [])
      invariant Greedy(size, target, chunkables[..i], body) && Yielded(lead, body, chunks, chunk)
    {
      var chunkable := chunkables[i];
      var tokens := size(chunkable);
      assert chunkables[..i + 1] == chunkables[..i] + [chunkable];
      AddedGreedy(size, target, chunkables[..i], body, chunkable);
      YieldedNext(size, target, lead, body, chunks, chunk, chunkable);
      if tokensInChunk + tokens > target {
        chunks := chunks + [chunk];
        chunk, tokensInChunk := [], 0;
      }
      assert (chunk + [chunkable])[..|chunk|] == chunk;
      chunk := chunk + [chunkable];
      tokensInChunk := tokensInChunk + tokens;
      body := Added(size, target, body, chunkable);
    }
    assert chunkables[..|chunkables|] == chunkables;
    if chunk != [] {
      chunks := chunks + [chunk];
    }
    assert chunkables == [] || chunks == lead + body;
    assert chunks[|lead|..] == body;
  }

  // ------------------------------------------------------------------ optimality

  lemma {:induction false} SumConcat<T>(size: T -> nat, a: seq<T>, b: seq<T>)
    ensures Sum(size, a + b) == Sum(size, a) + Sum(size, b)
  {
    if b == [] {
      assert a + b == a;
    } else {
      var n := |b| - 1;
      var ab, c := a + b, b[..n];
      SumConcat(size, a, c);
      assert ab[..|ab| - 1] == a + c && ab[|ab| - 1] == b[n];
    }
  }

  /** A stretch inside another one is no larger. */
  lemma SumWithin<T>(size: T -> nat, items: seq<T>, a: nat, b: nat, c: nat, d: nat)
    requires a <= b <= c <= d <= |items|
    ensures Sum(size, items[b..c]) <= Sum(size, items[a..d])
  {
    var ab, bc, cd := items[a..b], items[b..c], items[c..d];
    SumConcat(size, ab + bc, cd);
    SumConcat(size, ab, bc);
    assert items[a..d] == ab + bc + cd;
  }

  /** Where the first k chunks end. */
  function End<T>(chunks: seq<seq<T>>, k: nat): nat
    requires k <= |chunks|
  {
    |Concat(chunks[..k])|
  }

  lemma {:induction false} ChunkAt<T>(chunks: seq<seq<T>>, k: nat)
    requires k < |chunks|
    ensures End(chunks, k) + |chunks[k]| == End(chunks, k + 1) <= |Concat(chunks)|
    ensures Concat(chunks)[End(chunks, k)..End(chunks, k + 1)] == chunks[k]
    decreases |chunks|
  {
    var n := |chunks| - 1;
    var init := chunks[..n];
    assert chunks[..|chunks|] == chunks && chunks[..k + 1][..k] == chunks[..k];
    if k < n {
      ChunkAt(init, k);
      assert init[..k] == chunks[..k] && init[..k + 1] == chunks[..k + 1];
      assert Concat(chunks)[..|Concat(init)|] == Concat(init);
    }
  }

  /** The greedy chunks are never behind those of another partition. */
  lemma {:induction false} GreedyAhead<T>(
      size: T -> nat, target: int, items: seq<T>, greedy: seq<seq<T>>, other: seq<seq<T>>, k: nat)
    requires Greedy(size, target, items, greedy) && Partition(size, target, items, other)
    requires k <= |greedy| && k <= |other|
    ensures End(greedy, k) >= End(other, k)
  {
    if k > 0 {
      var j := k - 1;
      GreedyAhead(size, target, items, greedy, other, j);
      ChunkAt(greedy, j);
      ChunkAt(other, j);
      if End(greedy, k) < End(other, k) {
        NextWouldFit(size, target, items, greedy, other, j);
      }
    }
  }

  /** Were the greedy chunk behind, its next item would have fit. */
  lemma NextWouldFit<T>(
      size: T -> nat, target: int, items: seq<T>, greedy: seq<seq<T>>, other: seq<seq<T>>, j: nat)
    requires Greedy(size, target, items, greedy) && Partition(size, target, items, other)
    requires j < |greedy| && j < |other| && End(greedy, j) >= End(other, j)
    ensures End(greedy, j + 1) >= End(other, j + 1)
  {
    ChunkAt(greedy, j);
    ChunkAt(other, j);
    var a, b, c := End(greedy, j), End(greedy, j + 1), End(other, j + 1);
    assert Fits(size, target, other[j]);
    if b < c {
      LastEnds(greedy);
      assert j + 1 < |greedy|;
      ChunkAt(greedy, j + 1);
      assert Full(size, target, greedy[j], greedy[j + 1]) && Fits(size, target, greedy[j]);
      assert items[b] == greedy[j + 1][0];
      SumConcat(size, greedy[j], [items[b]]);
      assert items[a..b + 1] == greedy[j] + [items[b]];
      SumSingle(size, items[b]);
      SumWithin(size, items, End(other, j), a, b + 1, c);
    }
  }

  lemma SumSingle<T>(size: T -> nat, x: T)
    ensures Sum(size, [x]) == size(x)
  {
    assert Sum(size, [x][..0]) == 0;
  }

  lemma LastEnds<T>(chunks: seq<seq<T>>)
    ensures End(chunks, |chunks|) == |Concat(chunks)|
  {
    assert chunks[..|chunks|] == chunks;
  }

  /** No partition of the items into chunks that fit has fewer chunks than the greedy one. */
  lemma GreedyOptimal<T>(
      size: T -> nat, target: int, items: seq<T>, greedy: seq<seq<T>>, other: seq<seq<T>>)
    requires Greedy(size, target, items, greedy) && Partition(size, target, items, other)
    ensures |greedy| <= |other|
  {
    if |other| < |greedy| {
      var n := |other|;
      GreedyAhead(size, target, items, greedy, other, n);
      LastEnds(other);
      assert Fits(size, target, greedy[n]);
      ChunkAt(greedy, n);
    }
  }

  // ------------------------------------------------------------------ chunks within the target

  predicate Within<T>(size: T -> nat, target: int, chunk: seq<T>) {
    Sum(size, chunk) <= target
  }

  lemma {:induction false} ItemWithin<T>(size: T -> nat, chunk: seq<T>, x: T)
    requires x in chunk
    ensures size(x) <= Sum(size, chunk)
  {
    var init := chunk[..|chunk| - 1];
    assert chunk == init + [chunk[|chunk| - 1]];
    if x in init { ItemWithin(size, init, x); }
  }

  /** The docstring of `chunk_objects` promises chunks within the target: they all are, exactly if every
      item is. */
  lemma WithinIff<T>(size: T -> nat, target: int, items: seq<T>, body: seq<seq<T>>)
    requires Greedy(size, target, items, body)
    ensures
      (forall chunk | chunk in Lead(size, target, items) + body :: Within(size, target, chunk))
      <==> forall x | x in items :: size(x) <= target
  {
    var all := Lead(size, target, items) + body;
    if forall x | x in items :: size(x) <= target {
      assert items != [] ==> items[0] in items;
      forall chunk | chunk in all ensures Within(size, target, chunk) {
        var k :| 0 <= k < |body| && body[k] == chunk;
        assert Fits(size, target, body[k]);
        if |chunk| == 1 {
          InConcat(body, chunk[0]);
          SumSingle(size, chunk[0]);
          assert chunk == [chunk[0]];
        }
      }
    }
    if forall chunk | chunk in all :: Within(size, target, chunk) {
      forall x | x in items ensures size(x) <= target {
        InConcat(body, x);
        var k :| 0 <= k < |body| && x in body[k];
        assert body[k] in all;
        ItemWithin(size, body[k], x);
      }
    }
  }

  /** One item over the target gives an empty chunk and a chunk over the target. */
  lemma OversizedChunk<T>(size: T -> nat, target: int, x: T, body: seq<seq<T>>)
    requires size(x) > target && Greedy(size, target, [x], body)
    ensures Lead(size, target, [x]) + body == [[], [x]] && !Within(size, target, [x])
  {
    SumSingle(size, x);
    assert body != [];
    assert Fits(size, target, body[0]);
    ChunkAt(body, 0);
    if |body| > 1 {
      assert Fits(size, target, body[1]);
      ChunkAt(body, 1);
    } else {
      assert body == [] + [body[0]];
      ConcatSnoc([], body[0]);
    }
  }

  // ------------------------------------------------------------------ tokens

  function Decoded(decode: seq<int> -> string, chunks: seq<seq<int>>): (texts: seq<string>)
    ensures |texts| == |chunks|
  {
    seq(|chunks|, i requires 0 <= i < |chunks| => decode(chunks[i]))
  }

  function One(token: int): nat {
    1
  }

  /** `chunk_string`, on the tokens of the string. */
  method ChunkString(tokens: seq<int>, decode: seq<int> -> string, maxTokens: int)
    returns (texts: seq<string>)
    ensures exists body ::
      Greedy(One, maxTokens, tokens, body) && texts == Decoded(decode, Lead(One, maxTokens, tokens) + body)
  {
    texts := [];
    ghost var body: seq<seq<int>> := [];
    ghost var chunks: seq<seq<int>> := [];
    var currentChunk: seq<int>, currentSize := [], 0;
    ghost var lead := Lead(One, maxTokens, tokens);
    for i := 0 to |tokens|
      invariant currentSize == |currentChunk| && (i == 0 <==> body == [])
      invariant texts == Decoded(decode, chunks)
      invariant Greedy(One, maxTokens, tokens[..i], body) && Yielded(lead, body, chunks, currentChunk)
    {
      assert tokens[..i + 1] == tokens[..i] + [tokens[i]];
      AddedGreedy(One, maxTokens, tokens[..i], body, tokens[i]);
      YieldedNext(One, maxTokens, lead, body, chunks, currentChunk, tokens[i]);
      SumOfOnes(currentChunk);
      if currentSize + 1 > maxTokens {
        texts := texts + [decode(currentChunk)];
        chunks := chunks + [currentChunk];
        currentChunk, currentSize := [], 0;
      }
      currentChunk := currentChunk + [tokens[i]];
      currentSize := currentSize + 1;
      body := Added(One, maxTokens, body, tokens[i]);
    }
    assert tokens[..|tokens|] == tokens;
    if currentChunk != [] {
      texts := texts + [decode(currentChunk)];
      chunks := chunks + [currentChunk];
    }
    assert chunks == lead + body;
  }

  lemma {:induction false} SumOfOnes(tokens: seq<int>)
    ensures Sum(One, tokens) == |tokens|
  {
    if tokens != [] { SumOfOnes(tokens[..|tokens| - 1]); }
  }

  /** Every chunk of tokens but the last has exactly the maximum, or one token when the maximum is less. */
  lemma TokenChunks(maxTokens: int, tokens: seq<int>, body: seq<seq<int>>, k: nat)
    requires Greedy(One, maxTokens, tokens, body) && k < |body|
    ensures var full := if maxTokens >= 1 then maxTokens else 1;
      1 <= |body[k]| <= full && (k < |body| - 1 ==> |body[k]| == full)
  {
    SumOfOnes(body[k]);
    assert Fits(One, maxTokens, body[k]);
    if k < |body| - 1 { assert Full(One, maxTokens, body[k], body[k + 1]); }
  }
}
