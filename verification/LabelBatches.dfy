// Fetching open issues page by page and handing them on in batches.
module LabelBatches {
  import opened Sequences
  import opened Wrappers

  const WORK_BATCH_SIZE := 500

  datatype Label = Bug | Enhancement | Support | Skill | Another(name: string)

  // An issue, with its labels as they were when its page was fetched.
  datatype Item = Item(number: nat, labels: set<Label>)

  datatype Batch = Batch(batchIndex: nat, items: seq<Item>, fetchedCount: nat)

  // The first `limit` items; no limit takes all.
  function Take(items: seq<Item>, limit: Option<nat>): seq<Item> {
    if limit.Some? && limit.value < |items| then items[..limit.value] else items
  }

  predicate Below(count: nat, limit: Option<nat>) {
    limit.Some? ==> count < limit.value
  }

  function Items(batches: seq<Batch>): seq<seq<Item>> {
    seq(|batches|, i requires 0 <= i < |batches| => batches[i].items)
  }

  // Full batches, numbered from one, each with the running count of items.
  ghost predicate AreFull(batches: seq<Batch>) {
    forall i | 0 <= i < |batches| ::
      && |batches[i].items| == WORK_BATCH_SIZE
      && batches[i].batchIndex == i + 1 && batches[i].fetchedCount == (i + 1) * WORK_BATCH_SIZE
  }

  // All batches are full but the last, which is not empty.
  ghost predicate AreBatches(batches: seq<Batch>, items: seq<Item>) {
    && Flatten(Items(batches)) == items
    && (batches == [] ||
        var init, last := batches[..|batches| - 1], batches[|batches| - 1];
        && AreFull(init)
        && 1 <= |last.items| <= WORK_BATCH_SIZE
        && last.batchIndex == |batches| && last.fetchedCount == |items|)
  }

  lemma ItemsSnoc(batches: seq<Batch>, batch: Batch)
    ensures Flatten(Items(batches + [batch])) == Flatten(Items(batches)) + batch.items
  {
    assert Items(batches + [batch]) == Items(batches) + [batch.items];
    FlattenSnoc(Items(batches), batch.items);
  }

  lemma {:induction false} FullCount(batches: seq<Batch>)
    requires AreFull(batches)
    ensures |Flatten(Items(batches))| == |batches| * WORK_BATCH_SIZE
  {
    if batches != [] {
      FullCount(batches[..|batches| - 1]);
      ItemsSnoc(batches[..|batches| - 1], batches[|batches| - 1]);
      assert batches == batches[..|batches| - 1] + [batches[|batches| - 1]];
    }
  }

  lemma FlattenGrows(pages: seq<seq<Item>>, p: nat)
    requires p <= |pages|
    ensures |Flatten(pages[..p])| <= |Flatten(pages)| && Flatten(pages)[..|Flatten(pages[..p])|] == Flatten(pages[..p])
  {
    assert pages == pages[..p] + pages[p..];
    FlattenAppend(pages[..p], pages[p..]);
  }

  // Full batches have been handed on and fewer items than fill another one are waiting.
  ghost predicate IsWaiting(batches: seq<Batch>, results: seq<Item>, seen: seq<Item>) {
    AreFull(batches) && |results| < WORK_BATCH_SIZE && Flatten(Items(batches)) + results == seen
  }

  lemma WaitStep(batches: seq<Batch>, results: seq<Item>, seen: seq<Item>, item: Item)
    requires IsWaiting(batches, results, seen)
    ensures var batch := Batch(|batches| + 1, results + [item], |seen| + 1);
            if |results| + 1 >= WORK_BATCH_SIZE then IsWaiting(batches + [batch], [], seen + [item])
            else IsWaiting(batches, results + [item], seen + [item])
  {
    hide Flatten;
    FullCount(batches);
    var batch := Batch(|batches| + 1, results + [item], |seen| + 1);
    ItemsSnoc(batches, batch);
    assert Flatten(Items(batches)) + (results + [item]) == seen + [item];
    assert Flatten(Items(batches + [batch])) + [] == Flatten(Items(batches)) + batch.items;
  }

  lemma WaitEnd(batches: seq<Batch>, results: seq<Item>, seen: seq<Item>)
    requires IsWaiting(batches, results, seen)
    ensures AreBatches(if results == [] then batches else batches + [Batch(|batches| + 1, results, |seen|)], seen)
  {
    hide Flatten;
    FullCount(batches);
    var batch := Batch(|batches| + 1, results, |seen|);
    ItemsSnoc(batches, batch);
    assert (batches + [batch])[..|batches|] == batches;
    if results == [] {
      assert Flatten(Items(batches)) + [] == Flatten(Items(batches));
      if batches != [] {
        assert batches[|batches| - 1].fetchedCount == |batches| * WORK_BATCH_SIZE;
        assert AreFull(batches[..|batches| - 1]);
      }
    }
  }

  lemma TakeMore(a: seq<Item>, b: seq<Item>, limit: Option<nat>)
    ensures Below(|Take(a, limit)|, limit) ==> Take(a, limit) == a
    ensures !Below(|a|, limit) ==> Take(a + b, limit) == Take(a, limit)
  {
  }

  // The nodes of one page, until the limit is reached.
  method TakePage(nodes: seq<Item>, limit: Option<nat>, batches: seq<Batch>, results: seq<Item>,
                  fetchedCount: nat, ghost seen: seq<Item>)
      returns (moreBatches: seq<Batch>, waiting: seq<Item>, count: nat)
    requires IsWaiting(batches, results, seen) && fetchedCount == |seen| && Below(fetchedCount, limit)
    ensures IsWaiting(moreBatches, waiting, Take(seen + nodes, limit)) && count == |Take(seen + nodes, limit)|
  {
    hide IsWaiting;
    moreBatches, waiting, count := batches, results, fetchedCount;
    assert Take(seen + nodes[..0], limit) == seen;
    for i := 0 to |nodes|
      invariant IsWaiting(moreBatches, waiting, Take(seen + nodes[..i], limit))
      invariant count == |Take(seen + nodes[..i], limit)|
    {
      assert seen + nodes == (seen + nodes[..i]) + nodes[i..];
      assert seen + nodes[..i + 1] == (seen + nodes[..i]) + [nodes[i]];
      if !Below(count, limit) {
        TakeMore(seen + nodes[..i], nodes[i..], limit);
        break;
      }
      TakeMore(seen + nodes[..i], [], limit);
      WaitStep(moreBatches, waiting, seen + nodes[..i], nodes[i]);
      waiting := waiting + [nodes[i]];
      count := count + 1;
      if |waiting| >= WORK_BATCH_SIZE {
        moreBatches := moreBatches + [Batch(|moreBatches| + 1, waiting, count)];
        waiting := [];
      }
    }
    assert nodes[..|nodes|] == nodes;
  }

  lemma NothingFetched(pages: seq<seq<Item>>)
    ensures Flatten(pages[..0]) == [] && IsWaiting([], [], [])
  {
  }

  lemma PagesLeft(pages: seq<seq<Item>>, p: nat, limit: Option<nat>)
    requires p <= |pages|
    ensures p < |pages| ==> Flatten(pages[..p + 1]) == Flatten(pages[..p]) + pages[p]
    ensures !Below(|Take(Flatten(pages[..p]), limit)|, limit) ==> Take(Flatten(pages[..p]), limit) == Take(Flatten(pages), limit)
    ensures Below(|Take(Flatten(pages[..p]), limit)|, limit) ==> Take(Flatten(pages[..p]), limit) == Flatten(pages[..p])
  {
    if p < |pages| {
      FlattenUpTo(pages, p);
    }
    FlattenGrows(pages, p);
  }

  // The pages are the responses in the order of the cursors; every one but the last has a next page.
  method FetchOpenLabelItemBatches(pages: seq<seq<Item>>, limit: Option<nat>) returns (batches: seq<Batch>)
    requires |pages| > 0
    ensures AreBatches(batches, Take(Flatten(pages), limit))
  {
    hide IsWaiting, Flatten, AreBatches, Take;
    batches := [];
    var results: seq<Item> := [];
    var fetchedCount, page := 0, 0;
    NothingFetched(pages);
    TakeNone(limit);
    while Below(fetchedCount, limit)
      invariant page < |pages|
      invariant IsWaiting(batches, results, Take(Flatten(pages[..page]), limit))
      invariant fetchedCount == |Take(Flatten(pages[..page]), limit)|
      decreases |pages| - page
    {
      PagesLeft(pages, page, limit);
      batches, results, fetchedCount :=
        TakePage(pages[page], limit, batches, results, fetchedCount, Flatten(pages[..page]));
      if page + 1 == |pages| {
        assert pages[..page + 1] == pages;
        break;
      }
      page := page + 1;
    }
    assert IsWaiting(batches, results, Take(Flatten(pages), limit)) && fetchedCount == |Take(Flatten(pages), limit)| by {
      PagesLeft(pages, page, limit);
    }
    WaitEnd(batches, results, Take(Flatten(pages), limit));
    if |results| > 0 {
      batches := batches + [Batch(|batches| + 1, results, fetchedCount)];
    }
  }

  lemma TakeNone(limit: Option<nat>)
    ensures Take([], limit) == []
  {
  }
}
