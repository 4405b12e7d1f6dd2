// Cutting a list of translation items into batches for one prompt each.
module TranslationBatches {
  import opened CodeUnits
  import opened Sequences

  const MAX_BATCH_ITEMS := 20

  datatype Item = Item(key: Text, text: Text)

  function EstimateBatchChars(items: seq<Item>): nat {
    if items == [] then 2
    else EstimateBatchChars(items[..|items| - 1]) + |items[|items| - 1].key| + |items[|items| - 1].text| + 8
  }

  // The count that the batcher keeps for the batch it is filling: it adds the estimate of every item on
  // its own, so each item brings its own fixed part.
  function RunningChars(items: seq<Item>): nat {
    if items == [] then 2
    else RunningChars(items[..|items| - 1]) + EstimateBatchChars([items[|items| - 1]])
  }

  // A batch is a single item, however long, or a few items within the budget.
  predicate IsBatch(batch: seq<Item>, budget: real) {
    |batch| == 1 || (2 <= |batch| <= MAX_BATCH_ITEMS && RunningChars(batch) as real <= budget)
  }

  // The items in order, cut into batches.
  predicate IsBatching(batches: seq<seq<Item>>, items: seq<Item>, budget: real) {
    Flatten(batches) == items && forall b | b in batches :: IsBatch(b, budget)
  }

  // The batch could not have taken the first item of the next one.
  predicate Full(batch: seq<Item>, next: seq<Item>, budget: real) {
    next != [] && !IsBatch(batch + [next[0]], budget)
  }

  predicate IsGreedy(batches: seq<seq<Item>>, budget: real) {
    |batches| >= 2 ==> Full(batches[0], batches[1], budget) && IsGreedy(batches[1..], budget)
  }

  // The batcher's state after it has taken some items.
  predicate Filling(batches: seq<seq<Item>>, current: seq<Item>, taken: seq<Item>, budget: real) {
    && Flatten(batches) + current == taken
    && (forall b | b in batches :: IsBatch(b, budget))
    && (if current == [] then batches == [] else IsBatch(current, budget) && IsGreedy(batches + [current], budget))
  }

  method BuildTranslationBatches(items: seq<Item>, budget: real) returns (batches: seq<seq<Item>>)
    requires budget > 0.0
    ensures IsBatching(batches, items, budget)
    ensures IsGreedy(batches, budget)
  {
    hide IsGreedy, Flatten, RunningChars, EstimateBatchChars;
    batches := [];
    var current: seq<Item> := [];
    var currentChars := 2;
    NothingTaken(budget);
    for i := 0 to |items|
      invariant Filling(batches, current, items[..i], budget)
      invariant currentChars == RunningChars(current)
    {
      var item := items[i];
      var itemChars := EstimateBatchChars([item]);
      var wouldOverflow := |current| > 0 && (currentChars + itemChars) as real > budget;
      var reachedMaxItems := |current| >= MAX_BATCH_ITEMS;
      RunningCharsSnoc(current, item);
      assert items[..i + 1] == items[..i] + [item];
      if wouldOverflow || reachedMaxItems {
        StartBatch(batches, current, items[..i], item, budget);
        batches := batches + [current];
        current := [];
        currentChars := 2;
        RunningCharsSnoc([], item);
        assert [] + [item] == [item];
      } else {
        GrowBatch(batches, current, items[..i], item, budget);
      }
      current := current + [item];
      currentChars := currentChars + itemChars;
    }
    assert items[..|items|] == items;
    if |current| > 0 {
      FlattenSnoc(batches, current);
      batches := batches + [current];
    } else {
      LastBatchEmpty(batches, current, items, budget);
    }
  }

  lemma NothingTaken(budget: real)
    ensures Filling([], [], [], budget) && RunningChars([]) == 2
  {
  }

  lemma RunningCharsSnoc(batch: seq<Item>, item: Item)
    ensures RunningChars(batch + [item]) == RunningChars(batch) + EstimateBatchChars([item])
    ensures RunningChars([]) == 2
  {
    assert (batch + [item])[..|batch|] == batch;
  }

  lemma GrowBatch(batches: seq<seq<Item>>, current: seq<Item>, taken: seq<Item>, item: Item, budget: real)
    requires Filling(batches, current, taken, budget) && (current == [] || IsBatch(current + [item], budget))
    ensures Filling(batches, current + [item], taken + [item], budget)
  {
    assert Flatten(batches) + (current + [item]) == Flatten(batches) + current + [item];
    if current == [] {
      assert current + [item] == [item] && batches + [[item]] == [[item]];
      assert IsGreedy([[item]], budget);
      assert IsBatch([item], budget);
    } else {
      KeepGreedy(batches, current, item, budget);
    }
    hide IsGreedy, IsBatch, Flatten;
  }

  lemma StartBatch(batches: seq<seq<Item>>, current: seq<Item>, taken: seq<Item>, item: Item, budget: real)
    requires Filling(batches, current, taken, budget) && current != [] && !IsBatch(current + [item], budget)
    ensures Filling(batches + [current], [item], taken + [item], budget)
  {
    KeepGreedy(batches, current, item, budget);
    FlattenSnoc(batches, current);
    hide IsGreedy, Flatten;
  }

  lemma LastBatchEmpty(batches: seq<seq<Item>>, current: seq<Item>, taken: seq<Item>, budget: real)
    requires Filling(batches, current, taken, budget) && current == []
    ensures batches == [] && taken == [] && IsGreedy(batches, budget) && Flatten(batches) == taken
  {
  }

  // Growing the last batch keeps the earlier ones full; a new one is started when it is full.
  lemma {:induction false} KeepGreedy(batches: seq<seq<Item>>, current: seq<Item>, item: Item, budget: real)
    requires current != [] && IsGreedy(batches + [current], budget)
    ensures IsGreedy(batches + [current + [item]], budget)
    ensures !IsBatch(current + [item], budget) ==> IsGreedy(batches + [current] + [[item]], budget)
  {
    if batches != [] {
      var rest := batches[1..];
      assert (batches + [current])[1..] == rest + [current];
      assert (batches + [current + [item]])[1..] == rest + [current + [item]];
      assert (batches + [current] + [[item]])[1..] == rest + [current] + [[item]];
      KeepGreedy(rest, current, item, budget);
    } else {
      assert (batches + [current] + [[item]])[1..] == [[item]];
    }
  }

  lemma {:induction false} RunningCharsGrow(items: seq<Item>, i: nat, j: nat)
    requires i <= j <= |items|
    ensures RunningChars(items[i..j]) <= RunningChars(items)
    decreases |items|, j - i
  {
    if j < |items| {
      assert items[..|items| - 1][i..j] == items[i..j];
      RunningCharsGrow(items[..|items| - 1], i, j);
    } else if i < j {
      RunningCharsGrow(items[..|items| - 1], i, j - 1);
      assert items[i..j][..j - i - 1] == items[..|items| - 1][i..j - 1];
    }
  }

  // Every non-empty stretch of a batch is a batch.
  lemma BatchIsHereditary(batch: seq<Item>, i: nat, j: nat, budget: real)
    requires IsBatch(batch, budget) && i < j <= |batch|
    ensures IsBatch(batch[i..j], budget)
  {
    RunningCharsGrow(batch, i, j);
  }

  // How many items the first k batches have consumed.
  function Consumed(batches: seq<seq<Item>>, k: nat): nat
    requires k <= |batches|
  {
    |Flatten(batches[..k])|
  }

  lemma ConsumedStep(batches: seq<seq<Item>>, k: nat)
    requires k < |batches|
    ensures Consumed(batches, k + 1) == Consumed(batches, k) + |batches[k]| <= |Flatten(batches)|
  {
    FlattenUpTo(batches, k);
    assert batches == batches[..k + 1] + batches[k + 1..];
    FlattenAppend(batches[..k + 1], batches[k + 1..]);
  }

  lemma ConsumedAll(batches: seq<seq<Item>>)
    ensures Consumed(batches, |batches|) == |Flatten(batches)| && Consumed(batches, 0) == 0
  {
    assert batches[..|batches|] == batches;
  }

  // The k-th batch lies where the batches before it end.
  lemma BatchPlace(batches: seq<seq<Item>>, k: nat)
    requires k < |batches|
    ensures var c := Consumed(batches, k);
            c + |batches[k]| <= |Flatten(batches)| && Flatten(batches)[c..c + |batches[k]|] == batches[k]
  {
    FlattenUpTo(batches, k);
    var front, back := Flatten(batches[..k]), Flatten(batches[k + 1..]);
    assert batches == batches[..k + 1] + batches[k + 1..];
    FlattenAppend(batches[..k + 1], batches[k + 1..]);
    hide Flatten;
    assert Flatten(batches) == front + batches[k] + back;
    assert (front + batches[k] + back)[|front|..|front| + |batches[k]|] == batches[k];
  }

  // The items from a to b would do as a batch.
  predicate IsBatchAt(items: seq<Item>, a: nat, b: nat, budget: real) {
    a <= b <= |items| && IsBatch(items[a..b], budget)
  }

  lemma {:induction false} GreedyAt(batches: seq<seq<Item>>, k: nat, budget: real)
    requires IsGreedy(batches, budget) && k + 1 < |batches|
    ensures Full(batches[k], batches[k + 1], budget)
  {
    hide Full;
    if k > 0 {
      GreedyAt(batches[1..], k - 1, budget);
    }
  }

  // A greedy batch and the item after it would not do as a batch.
  lemma NextItem(greedy: seq<seq<Item>>, k: nat, budget: real)
    requires IsGreedy(greedy, budget) && k + 1 < |greedy|
    ensures !IsBatchAt(Flatten(greedy), Consumed(greedy, k), Consumed(greedy, k) + |greedy[k]| + 1, budget)
  {
    GreedyAt(greedy, k, budget);
    BatchPlace(greedy, k);
    BatchPlace(greedy, k + 1);
    ConsumedStep(greedy, k);
    hide Flatten, IsBatch, Consumed, IsGreedy;
    StretchAndNext(Flatten(greedy), Consumed(greedy, k), greedy[k], greedy[k + 1]);
  }

  lemma StretchAndNext(items: seq<Item>, c: nat, g: seq<Item>, next: seq<Item>)
    requires next != [] && c + |g| + |next| <= |items|
    requires items[c..c + |g|] == g && items[c + |g|..c + |g| + |next|] == next
    ensures items[c..c + |g| + 1] == g + [next[0]]
  {
    assert items[c + |g|] == items[c + |g|..c + |g| + |next|][0];
    assert items[c..c + |g| + 1] == items[c..c + |g|] + [items[c + |g|]];
  }

  // Any stretch of a batch does as a batch.
  lemma Stretch(batches: seq<seq<Item>>, k: nat, a: nat, b: nat, budget: real)
    requires k < |batches| && IsBatch(batches[k], budget)
    requires Consumed(batches, k) <= a < b <= Consumed(batches, k) + |batches[k]|
    ensures IsBatchAt(Flatten(batches), a, b, budget)
  {
    BatchPlace(batches, k);
    hide Flatten, IsBatch, Consumed;
    var c, p, items := Consumed(batches, k), batches[k], Flatten(batches);
    BatchIsHereditary(p, a - c, b - c, budget);
    SliceOfSlice(items, c, c + |p|, a - c, b - c);
  }

  // Whoever starts a batch later or at the same place ends it later or at the same place.
  lemma OneBatchAhead(greedy: seq<seq<Item>>, other: seq<seq<Item>>, k: nat, budget: real)
    requires IsGreedy(greedy, budget) && Flatten(greedy) == Flatten(other)
    requires k < |greedy| && k < |other| && IsBatch(other[k], budget)
    requires Consumed(greedy, k) >= Consumed(other, k)
    ensures Consumed(greedy, k + 1) >= Consumed(other, k + 1)
  {
    hide Flatten, IsBatch, IsBatchAt, Consumed, IsGreedy;
    ConsumedStep(greedy, k);
    ConsumedStep(other, k);
    if k + 1 == |greedy| {
      ConsumedAll(greedy);
    } else {
      NextItem(greedy, k, budget);
      var c, g := Consumed(greedy, k), |greedy[k]|;
      if c + g < Consumed(other, k) + |other[k]| {
        Stretch(other, k, c, c + g + 1, budget);
      }
    }
  }

  // Greedy stays ahead: after any number of batches it has consumed at least as many items as any other
  // way of cutting the same items.
  lemma {:induction false} GreedyStaysAhead(greedy: seq<seq<Item>>, other: seq<seq<Item>>, k: nat, budget: real)
    requires IsGreedy(greedy, budget) && Flatten(greedy) == Flatten(other)
    requires forall b | b in other :: IsBatch(b, budget)
    requires k <= |greedy| && k <= |other|
    ensures Consumed(greedy, k) >= Consumed(other, k)
  {
    hide Flatten, IsBatch, Consumed, IsGreedy;
    if k == 0 {
      ConsumedAll(greedy);
      ConsumedAll(other);
    } else {
      GreedyStaysAhead(greedy, other, k - 1, budget);
      OneBatchAhead(greedy, other, k - 1, budget);
    }
  }

  // The greedy batches are as few as any.
  lemma GreedyIsOptimal(greedy: seq<seq<Item>>, other: seq<seq<Item>>, items: seq<Item>, budget: real)
    requires IsBatching(greedy, items, budget) && IsGreedy(greedy, budget)
    requires IsBatching(other, items, budget)
    ensures |greedy| <= |other|
  {
    if |other| < |greedy| {
      var k := |other|;
      assert |greedy[k]| >= 1 by {
        assert IsBatch(greedy[k], budget);
      }
      GreedyStaysAhead(greedy, other, k, budget);
      ConsumedAll(other);
      ConsumedStep(greedy, k);
    }
    hide Flatten, IsBatch, Consumed, IsGreedy;
  }

  // The batcher's count is never below the estimate of the whole batch: a batch of several items also
  // meets the budget by the estimate.
  lemma {:induction false} RunningCharsCoverEstimate(items: seq<Item>)
    ensures RunningChars(items) == EstimateBatchChars(items) + 2 * |items|
  {
    if items != [] {
      RunningCharsCoverEstimate(items[..|items| - 1]);
      var last := [items[|items| - 1]];
      assert last[..|last| - 1] == [];
      assert EstimateBatchChars(last) == 2 + |last[0].key| + |last[0].text| + 8;
    }
  }
}
