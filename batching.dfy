/** The greedy batch planner shared by the PDF merger, the Word-document
    merger and the email batch writer, and the size-only pre-flight estimator
    that the orchestrator uses to reserve output slots. */
module Batching {

  /** The per-batch word limit of the downstream tool. */
  const MaxBatchWords: nat := 50000

  /** One item to pack: what it is, its byte size and its word count. */
  datatype Item<T> = Item(payload: T, bytes: nat, words: nat)

  function SumBytes<T>(b: seq<Item<T>>): nat {
    if |b| == 0 then 0 else SumBytes(b[..|b| - 1]) + b[|b| - 1].bytes
  }

  function SumWords<T>(b: seq<Item<T>>): nat {
    if |b| == 0 then 0 else SumWords(b[..|b| - 1]) + b[|b| - 1].words
  }

  /** Adding `it` to batch `b` would pass the byte cap or the word cap. */
  predicate Overflows<T>(cap: nat, b: seq<Item<T>>, it: Item<T>) {
    SumBytes(b) + it.bytes > cap || SumWords(b) + it.words > MaxBatchWords
  }

  /** A batch respects both caps, unless it is a single item. */
  predicate Fits<T>(cap: nat, b: seq<Item<T>>) {
    |b| <= 1 || (SumBytes(b) <= cap && SumWords(b) <= MaxBatchWords)
  }

  function Flatten<T>(bs: seq<seq<Item<T>>>): seq<Item<T>> {
    if |bs| == 0 then [] else Flatten(bs[..|bs| - 1]) + bs[|bs| - 1]
  }

  /** The packing loop's state: the batches closed so far, the running batch
      and its running byte and word totals. */
  datatype Packer<T> = Packer(
    closed: seq<seq<Item<T>>>,
    current: seq<Item<T>>,
    currentBytes: nat,
    currentWords: nat)

  /** The running batch is closed before `it` when it is non-empty and `it`
      would take it past either cap. */
  predicate Closes<T>(cap: nat, p: Packer<T>, it: Item<T>) {
    p.current != [] &&
    (p.currentBytes + it.bytes > cap || p.currentWords + it.words > MaxBatchWords)
  }

  /** One iteration of the packing loop: close the running batch when the
      item would pass a cap, then add the item. */
  function Step<T>(cap: nat, p: Packer<T>, it: Item<T>): Packer<T> {
    if Closes(cap, p, it)
    then Packer(p.closed + [p.current], [it], it.bytes, it.words)
    else Packer(p.closed, p.current + [it], p.currentBytes + it.bytes, p.currentWords + it.words)
  }

  /** The loop state after all of `items`. */
  function Pack<T>(cap: nat, items: seq<Item<T>>): Packer<T> {
    if |items| == 0 then Packer([], [], 0, 0)
    else Step(cap, Pack(cap, items[..|items| - 1]), items[|items| - 1])
  }

  /** The batches planned for `items`: the closed ones, then the running one
      if it is non-empty ("save remaining files"). */
  function Plan<T>(cap: nat, items: seq<Item<T>>): seq<seq<Item<T>>> {
    var p := Pack(cap, items);
    if p.current == [] then p.closed else p.closed + [p.current]
  }

  /** The packing loop of `merge_pdfs`, `merge_docx` and `_write_email_batches`. */
  method PlanBatches<T>(cap: nat, items: seq<Item<T>>) returns (batches: seq<seq<Item<T>>>)
    ensures batches == Plan(cap, items)
  {
    batches := [];
    var current: seq<Item<T>> := [];
    var currentBytes: nat, currentWords: nat := 0, 0;
    for i := 0 to |items|
      invariant Pack(cap, items[..i]) == Packer(batches, current, currentBytes, currentWords)
    {
      assert items[..i + 1][..i] == items[..i];
      var it := items[i];
      if current != [] && (currentBytes + it.bytes > cap || currentWords + it.words > MaxBatchWords) {
        batches := batches + [current];
        current, currentBytes, currentWords := [], 0, 0;
      }
      current := current + [it];
      currentBytes := currentBytes + it.bytes;
      currentWords := currentWords + it.words;
    }
    assert items[..|items|] == items;
    if current != [] {
      batches := batches + [current];
    }
  }

  // ---------------------------------------------------------------------------
  // What the plan guarantees

  /** Each batch was closed only because the first item of the next one would
      have passed a cap. */
  ghost predicate Greedy<T>(cap: nat, bs: seq<seq<Item<T>>>) {
    forall k :: 0 <= k < |bs| - 1 ==> ClosedBefore(cap, bs, k)
  }

  /** Batch `k + 1` is non-empty and its first item overflows batch `k`. */
  ghost predicate ClosedBefore<T>(cap: nat, bs: seq<seq<Item<T>>>, k: nat)
    requires k < |bs| - 1
  {
    bs[k + 1] != [] && Overflows(cap, bs[k], bs[k + 1][0])
  }

  ghost predicate AllNonEmptyFit<T>(cap: nat, bs: seq<seq<Item<T>>>) {
    forall k :: 0 <= k < |bs| ==> bs[k] != [] && Fits(cap, bs[k])
  }

  /** The invariant of the packing loop. */
  ghost predicate PackInvariant<T>(cap: nat, items: seq<Item<T>>, p: Packer<T>) {
    && Flatten(p.closed) + p.current == items
    && (|items| > 0 ==> p.current != [])
    && p.currentBytes == SumBytes(p.current)
    && p.currentWords == SumWords(p.current)
    && AllNonEmptyFit(cap, p.closed)
    && Fits(cap, p.current)
    && Greedy(cap, p.closed)
    && (|p.closed| > 0 ==> p.current != [] && Overflows(cap, p.closed[|p.closed| - 1], p.current[0]))
  }

  /** Appending a batch that the last one overflowed into keeps a chain greedy. */
  lemma GreedyAppend<T>(cap: nat, bs: seq<seq<Item<T>>>, b: seq<Item<T>>)
    requires Greedy(cap, bs) && b != []
    requires |bs| > 0 ==> Overflows(cap, bs[|bs| - 1], b[0])
    ensures Greedy(cap, bs + [b])
  {
    var cs := bs + [b];
    forall k | 0 <= k < |cs| - 1
      ensures ClosedBefore(cap, cs, k)
    {
      assert cs[k] == bs[k];
      if k < |bs| - 1 {
        assert cs[k + 1] == bs[k + 1] && ClosedBefore(cap, bs, k);
      } else {
        assert cs[k + 1] == b;
      }
    }
  }

  lemma AllNonEmptyFitAppend<T>(cap: nat, bs: seq<seq<Item<T>>>, b: seq<Item<T>>)
    requires AllNonEmptyFit(cap, bs) && b != [] && Fits(cap, b)
    ensures AllNonEmptyFit(cap, bs + [b])
  {
    assert forall k :: 0 <= k < |bs| ==> (bs + [b])[k] == bs[k];
  }

  lemma {:induction false} SumsAppend<T>(b: seq<Item<T>>, it: Item<T>)
    ensures SumBytes(b + [it]) == SumBytes(b) + it.bytes
    ensures SumWords(b + [it]) == SumWords(b) + it.words
  {
    assert (b + [it])[..|b|] == b;
  }

  /** The loop step that adds the item to the running batch keeps the invariant. */
  lemma StepExtendsKeeps<T>(cap: nat, items: seq<Item<T>>, p: Packer<T>, it: Item<T>)
    requires PackInvariant(cap, items, p)
    requires !(p.current != [] &&
               (p.currentBytes + it.bytes > cap || p.currentWords + it.words > MaxBatchWords))
    ensures PackInvariant(cap, items + [it], Step(cap, p, it))
  {
    SumsAppend(p.current, it);
    assert Flatten(p.closed) + (p.current + [it]) == items + [it];
    if p.current != [] {
      assert (p.current + [it])[0] == p.current[0];
    }
  }

  /** The loop step that closes the running batch keeps the invariant. */
  lemma StepClosesKeeps<T>(cap: nat, items: seq<Item<T>>, p: Packer<T>, it: Item<T>)
    requires PackInvariant(cap, items, p)
    requires p.current != []
    requires p.currentBytes + it.bytes > cap || p.currentWords + it.words > MaxBatchWords
    ensures PackInvariant(cap, items + [it], Step(cap, p, it))
  {
    var closed := p.closed + [p.current];
    assert Step(cap, p, it) == Packer(closed, [it], it.bytes, it.words);
    FlattenAppend(p.closed, p.current);
    assert Flatten(closed) + [it] == items + [it];
    SumsAppend([], it);
    assert [] + [it] == [it];
    GreedyAppend(cap, p.closed, p.current);
    AllNonEmptyFitAppend(cap, p.closed, p.current);
    assert closed[|closed| - 1] == p.current;
    assert Overflows(cap, p.current, it);
  }

  lemma FlattenAppend<T>(bs: seq<seq<Item<T>>>, b: seq<Item<T>>)
    ensures Flatten(bs + [b]) == Flatten(bs) + b
  {
    assert (bs + [b])[..|bs|] == bs;
  }

  lemma {:induction false} PackKeepsInvariant<T>(cap: nat, items: seq<Item<T>>)
    ensures PackInvariant(cap, items, Pack(cap, items))
  {
    if |items| > 0 {
      var prefix, it := items[..|items| - 1], items[|items| - 1];
      assert items == prefix + [it];
      PackKeepsInvariant(cap, prefix);
      var p := Pack(cap, prefix);
      if p.current != [] &&
         (p.currentBytes + it.bytes > cap || p.currentWords + it.words > MaxBatchWords) {
        StepClosesKeeps(cap, prefix, p, it);
      } else {
        StepExtendsKeeps(cap, prefix, p, it);
      }
    }
  }

  /** Concatenating the planned batches gives back the items, in order, and
      no batch is empty. */
  lemma PlanPartitions<T>(cap: nat, items: seq<Item<T>>)
    ensures Flatten(Plan(cap, items)) == items
    ensures forall k :: 0 <= k < |Plan(cap, items)| ==> Plan(cap, items)[k] != []
  {
    PlanFits(cap, items);
    var p := Pack(cap, items);
    if p.current != [] {
      assert (p.closed + [p.current])[..|p.closed|] == p.closed;
    }
  }

  lemma PlanFits<T>(cap: nat, items: seq<Item<T>>)
    ensures PackInvariant(cap, items, Pack(cap, items))
    ensures AllNonEmptyFit(cap, Plan(cap, items))
  {
    PackKeepsInvariant(cap, items);
    var p := Pack(cap, items);
    if p.current != [] {
      AllNonEmptyFitAppend(cap, p.closed, p.current);
    }
  }

  /** Every planned batch of two or more items stays within the byte cap and
      the word cap. */
  lemma PlanWithinCaps<T>(cap: nat, items: seq<Item<T>>)
    ensures forall k :: 0 <= k < |Plan(cap, items)| && |Plan(cap, items)[k]| >= 2 ==>
      SumBytes(Plan(cap, items)[k]) <= cap && SumWords(Plan(cap, items)[k]) <= MaxBatchWords
  {
    PlanFits(cap, items);
  }

  lemma {:induction false} ItemWithinSums<T>(b: seq<Item<T>>, j: nat)
    requires j < |b|
    ensures b[j].bytes <= SumBytes(b) && b[j].words <= SumWords(b)
  {
    if j < |b| - 1 {
      ItemWithinSums(b[..|b| - 1], j);
    }
  }

  /** An item that alone passes a cap is planned in a batch of its own. */
  lemma PlanOversizeAlone<T>(cap: nat, items: seq<Item<T>>, k: nat, j: nat)
    requires k < |Plan(cap, items)| && j < |Plan(cap, items)[k]|
    requires Plan(cap, items)[k][j].bytes > cap || Plan(cap, items)[k][j].words > MaxBatchWords
    ensures |Plan(cap, items)[k]| == 1
  {
    PlanPartitions(cap, items);
    PlanWithinCaps(cap, items);
    ItemWithinSums(Plan(cap, items)[k], j);
  }

  /** The plan is greedy: each batch was closed only because the first item of
      the next one would have passed a cap. */
  lemma PlanGreedy<T>(cap: nat, items: seq<Item<T>>)
    ensures Greedy(cap, Plan(cap, items))
  {
    PackKeepsInvariant(cap, items);
    var p := Pack(cap, items);
    if p.current != [] {
      GreedyAppend(cap, p.closed, p.current);
    }
  }

  /** With at least one item there is exactly one batch more than the loop closed. */
  lemma PlanLength<T>(cap: nat, items: seq<Item<T>>)
    ensures |items| == 0 ==> Plan(cap, items) == []
    ensures |items| > 0 ==> |Plan(cap, items)| == |Pack(cap, items).closed| + 1
  {
    PackKeepsInvariant(cap, items);
  }

  // ---------------------------------------------------------------------------
  // The pre-flight estimate (`estimate_batch_count`)

  /** The estimator's loop state: batches counted so far and the running size. */
  datatype Tally = Tally(batches: nat, running: nat)

  /** One estimator iteration. It tests the running size for truthiness, not
      the running batch for emptiness, and it never looks at word counts. */
  function TallyStep(cap: nat, t: Tally, size: nat): Tally {
    if t.running != 0 && t.running + size > cap then Tally(t.batches + 1, size)
    else Tally(t.batches, t.running + size)
  }

  function TallyOf(cap: nat, sizes: seq<nat>): Tally {
    if |sizes| == 0 then Tally(1, 0)
    else TallyStep(cap, TallyOf(cap, sizes[..|sizes| - 1]), sizes[|sizes| - 1])
  }

  /** The estimate for the given sizes: 0 for no files, else the batches counted. */
  function Estimate(cap: nat, sizes: seq<nat>): nat {
    if |sizes| == 0 then 0 else TallyOf(cap, sizes).batches
  }

  function BytesOf<T>(items: seq<Item<T>>): (sizes: seq<nat>)
    ensures |sizes| == |items| && forall i :: 0 <= i < |items| ==> sizes[i] == items[i].bytes
  {
    seq(|items|, i requires 0 <= i < |items| => items[i].bytes)
  }

  lemma {:induction false} TallyCountsFromOne(cap: nat, sizes: seq<nat>)
    ensures TallyOf(cap, sizes).batches >= 1
  {
    if |sizes| > 0 {
      TallyCountsFromOne(cap, sizes[..|sizes| - 1]);
    }
  }

  /** The estimate is 0 exactly for no files and at least 1 otherwise, and it
      never exceeds the number of files. */
  lemma EstimateBounds(cap: nat, sizes: seq<nat>)
    ensures Estimate(cap, sizes) == 0 <==> |sizes| == 0
    ensures Estimate(cap, sizes) <= |sizes|
  {
    TallyCountsFromOne(cap, sizes);
    TallyAtMostCount(cap, sizes);
  }

  lemma {:induction false} TallyAtMostCount(cap: nat, sizes: seq<nat>)
    ensures TallyOf(cap, sizes).batches <= |sizes| + (if TallyOf(cap, sizes).running == 0 then 1 else 0)
    ensures |sizes| > 0 ==> TallyOf(cap, sizes).batches <= |sizes|
  {
    if |sizes| > 0 {
      TallyAtMostCount(cap, sizes[..|sizes| - 1]);
    }
  }

  lemma {:induction false} BytesOfPrefix<T>(items: seq<Item<T>>, n: nat)
    requires 0 < n <= |items|
    ensures BytesOf(items[..n])[..n - 1] == BytesOf(items[..n - 1])
    ensures BytesOf(items[..n])[n - 1] == items[n - 1].bytes
  {
  }

  /** The estimator and the packing loop, run side by side: the estimator
      never counts more batches than the loop has opened, and while it counts
      as many, its running size is at most the loop's. */
  lemma {:induction false} EstimateTrailsPack<T>(cap: nat, items: seq<Item<T>>)
    ensures var t := TallyOf(cap, BytesOf(items));
      var p := Pack(cap, items);
      t.batches <= |p.closed| + 1 &&
      (t.batches == |p.closed| + 1 ==> t.running <= p.currentBytes && (t.running > 0 ==> p.current != []))
  {
    if |items| > 0 {
      var n := |items|;
      BytesOfPrefix(items, n);
      assert items[..n] == items;
      EstimateTrailsPack(cap, items[..n - 1]);
    }
  }

  /** The size-only estimate never exceeds the number of batches actually
      planned: where it differs, it under-reserves. */
  lemma EstimateAtMostPlan<T>(cap: nat, items: seq<Item<T>>)
    ensures Estimate(cap, BytesOf(items)) <= |Plan(cap, items)|
  {
    EstimateTrailsPack(cap, items);
    PlanLength(cap, items);
  }

  lemma {:induction false} EstimateTracksPack<T>(cap: nat, items: seq<Item<T>>)
    requires forall i :: 0 <= i < |items| ==> items[i].bytes > 0 && items[i].words == 0
    ensures var t := TallyOf(cap, BytesOf(items));
      var p := Pack(cap, items);
      t.batches == |p.closed| + 1 && t.running == p.currentBytes &&
      p.currentWords == 0 && (p.current != [] <==> p.currentBytes > 0)
  {
    if |items| > 0 {
      var n := |items|;
      BytesOfPrefix(items, n);
      assert items[..n] == items;
      EstimateTracksPack(cap, items[..n - 1]);
    }
  }

  /** When every size is positive and no item has words, the estimate is
      exactly the number of planned batches. */
  lemma EstimateMatchesPlan<T>(cap: nat, items: seq<Item<T>>)
    requires forall i :: 0 <= i < |items| ==> items[i].bytes > 0 && items[i].words == 0
    ensures Estimate(cap, BytesOf(items)) == |Plan(cap, items)|
  {
    EstimateTracksPack(cap, items);
    PlanLength(cap, items);
  }

  /** The word cap is invisible to the estimate: two small files of 30000
      words each are estimated as one batch but planned as two. */
  lemma EstimateMissesWordCap<T>(x: T, y: T)
    ensures var items := [Item(x, 1, 30000), Item(y, 2, 30000)];
      Estimate(1024, BytesOf(items)) == 1 && |Plan(1024, items)| == 2
  {
    var items := [Item(x, 1, 30000), Item(y, 2, 30000)];
    assert BytesOf(items) == [1, 2];
    assert TallyOf(1024, [1, 2]) == Tally(1, 3) by {
      assert [1, 2][..1] == [1] && [1][..0] == [];
    }
    assert Pack(1024, items) == Packer([[items[0]]], [items[1]], 2, 30000) by {
      assert items[..1] == [items[0]] && [items[0]][..0] == [];
      assert Pack(1024, items[..1]) == Packer([], [items[0]], 1, 30000);
    }
  }

  /** A zero-byte first file leaves the estimator's running size falsy, so the
      estimate misses the split the loop makes before an oversize file. */
  lemma EstimateMissesZeroSize<T>(x: T, y: T)
    ensures var items := [Item(x, 0, 0), Item(y, 11, 0)];
      Estimate(10, BytesOf(items)) == 1 && |Plan(10, items)| == 2
  {
    var items := [Item(x, 0, 0), Item(y, 11, 0)];
    assert BytesOf(items) == [0, 11];
    assert TallyOf(10, [0, 11]) == Tally(1, 11) by {
      assert [0, 11][..1] == [0] && [0][..0] == [];
    }
    assert Pack(10, items) == Packer([[items[0]]], [items[1]], 11, 0) by {
      assert items[..1] == [items[0]] && [items[0]][..0] == [];
      assert Pack(10, items[..1]) == Packer([], [items[0]], 0, 0);
    }
  }

  /** Three 700-byte files against a 1024-byte cap: three batches, and the
      estimate agrees. */
  lemma ThreeOversizePairs<T>(x: T, y: T, z: T)
    ensures var items := [Item(x, 700, 0), Item(y, 700, 0), Item(z, 700, 0)];
      Estimate(1024, BytesOf(items)) == 3 && |Plan(1024, items)| == 3
  {
    var items := [Item(x, 700, 0), Item(y, 700, 0), Item(z, 700, 0)];
    EstimateMatchesPlan(1024, items);
    assert BytesOf(items) == [700, 700, 700];
    assert TallyOf(1024, [700, 700, 700]) == Tally(3, 700) by {
      assert [700, 700, 700][..2] == [700, 700] && [700, 700][..1] == [700] && [700][..0] == [];
      assert TallyOf(1024, [700]) == Tally(1, 700);
      assert TallyOf(1024, [700, 700]) == Tally(2, 700);
    }
  }
}
