// The issue label worker: it classifies the issues of each batch, adds labels, and saves after each batch
// which issues it has processed. It may stop at any moment and be started again.
module LabelWorker {
  import opened LabelBatches

  datatype Category = BugReport | FeatureRequest {
    function Name(): Label {
      match this
      case BugReport => Bug
      case FeatureRequest => Enhancement
    }
  }

  datatype Classification = Classification(category: Category, isSupport: bool, isSkillOnly: bool)

  predicate HasCategory(labels: set<Label>) {
    Bug in labels || Enhancement in labels
  }

  // The labels to add, judged by the labels that came with the page.
  function ToAdd(labels: set<Label>, c: Classification): set<Label> {
    (if HasCategory(labels) then {} else {c.category.Name()})
    + (if c.isSupport && Support !in labels then {Support} else {})
    + (if c.isSkillOnly && Skill !in labels then {Skill} else {})
  }

  // Labels that the worker has added, by issue number.
  type Additions = map<nat, set<Label>>

  function Get(a: Additions, number: nat): set<Label> {
    if number in a then a[number] else {}
  }

  // `memory` is the set of processed issues that a running worker holds, `file` the one in the state file.
  // `handled` are the issues that have been labelled or needed no label. `earlier` are the additions made
  // by runs before the present one.
  datatype World = World(
    running: bool, memory: set<nat>, file: set<nat>, handled: set<nat>, added: Additions, earlier: Additions)

  const FRESH := World(false, {}, {}, {}, map[], map[])

  // A run starts, with or without a readable state file; or it works on a batch, as far as there are
  // classifications, and then saves its state or crashes before it does.
  datatype Event =
    | Start(readable: bool)
    | Work(batch: seq<Item>, outcomes: seq<Classification>, crashes: bool)

  function Pending(batch: seq<Item>, memory: set<nat>): seq<Item> {
    if batch == [] then []
    else
      var last := |batch| - 1;
      Pending(batch[..last], memory) + (if batch[last].number in memory then [] else [batch[last]])
  }

  function Handle(w: World, item: Item, c: Classification): World {
    w.(memory := w.memory + {item.number}, handled := w.handled + {item.number},
       added := w.added[item.number := Get(w.added, item.number) + ToAdd(item.labels, c)])
  }

  function HandleFirst(w: World, items: seq<Item>, outcomes: seq<Classification>, k: nat): World
    requires k <= |items| && k <= |outcomes|
  {
    if k == 0 then w else Handle(HandleFirst(w, items, outcomes, k - 1), items[k - 1], outcomes[k - 1])
  }

  // The labels of a page show at least what earlier runs added: nobody takes labels away again.
  ghost predicate SeesEarlierRuns(w: World, batch: seq<Item>) {
    forall item | item in batch :: Get(w.earlier, item.number) <= item.labels
  }

  ghost predicate Enabled(w: World, e: Event) {
    match e
    case Start(_) => true
    case Work(batch, outcomes, crashes) =>
      var pending := Pending(batch, w.memory);
      && w.running && |batch| <= WORK_BATCH_SIZE && SeesEarlierRuns(w, batch)
      && |outcomes| <= |pending| && (!crashes ==> |outcomes| == |pending|)
  }

  function After(w: World, e: Event): World {
    match e
    case Start(readable) =>
      var loaded := if readable then w.file else {};
      w.(running := true, memory := loaded, file := loaded, earlier := w.added)
    case Work(batch, outcomes, crashes) =>
      var pending := Pending(batch, w.memory);
      if |outcomes| > |pending| then w
      else
        var worked := HandleFirst(w, pending, outcomes, |outcomes|);
        if crashes then worked.(running := false)
        else if |pending| > 0 then worked.(file := worked.memory)
        else worked
  }

  // ---------- The work on one batch ----------

  lemma {:induction false} PendingMembers(batch: seq<Item>, memory: set<nat>, item: Item)
    ensures item in Pending(batch, memory) <==> item in batch && item.number !in memory
  {
    if batch != [] {
      var last := |batch| - 1;
      PendingMembers(batch[..last], memory, item);
      assert batch == batch[..last] + [batch[last]];
    }
  }

  // Handling only adds: to the memory and to the handled issues the numbers of the items, to the labels
  // of an issue those for its own items.
  lemma {:induction false} HandleFirstMeaning(w: World, items: seq<Item>, outcomes: seq<Classification>, k: nat, n: nat)
    requires k <= |items| && k <= |outcomes|
    ensures var worked := HandleFirst(w, items, outcomes, k);
            && worked.running == w.running && worked.file == w.file && worked.earlier == w.earlier
            && (n in worked.memory <==> n in w.memory || exists i :: 0 <= i < k && items[i].number == n)
            && (n in worked.handled <==> n in w.handled || exists i :: 0 <= i < k && items[i].number == n)
  {
    hide ToAdd, Get;
    if k > 0 {
      HandleFirstMeaning(w, items, outcomes, k - 1, n);
    }
  }

  lemma {:induction false} LabelsAfter(
      w: World, items: seq<Item>, outcomes: seq<Classification>, k: nat, n: nat, l: Label)
    requires k <= |items| && k <= |outcomes|
    ensures l in Get(HandleFirst(w, items, outcomes, k).added, n)
       <==> l in Get(w.added, n)
            || exists i :: 0 <= i < k && items[i].number == n && l in ToAdd(items[i].labels, outcomes[i])
  {
    hide ToAdd;
    if k > 0 {
      LabelsAfter(w, items, outcomes, k - 1, n, l);
    }
  }

  // The classification calls for the label, and the page did not show it: a category only where there was
  // none, "support" for support requests and "skill" for pure skill requests.
  predicate CallsFor(l: Label, labels: set<Label>, c: Classification) {
    match l
    case Bug => c.category == BugReport && Bug !in labels && Enhancement !in labels
    case Enhancement => c.category == FeatureRequest && Bug !in labels && Enhancement !in labels
    case Support => c.isSupport && Support !in labels
    case Skill => c.isSkillOnly && Skill !in labels
    case Another(_) => false
  }

  lemma ToAddMeaning(l: Label, labels: set<Label>, c: Classification)
    ensures l in ToAdd(labels, c) <==> CallsFor(l, labels, c)
  {
  }

  // Work on a batch adds to an issue exactly the labels that the classifications of its copies call for,
  // and none to an issue that was processed before.
  lemma WorkAddsExactly(w: World, batch: seq<Item>, outcomes: seq<Classification>, crashes: bool, n: nat, l: Label)
    requires |outcomes| <= |Pending(batch, w.memory)|
    ensures var after := After(w, Work(batch, outcomes, crashes));
            l in Get(after.added, n) <==>
              l in Get(w.added, n)
              || exists i | 0 <= i < |outcomes| ::
                   && Pending(batch, w.memory)[i].number == n
                   && CallsFor(l, Pending(batch, w.memory)[i].labels, outcomes[i])
    ensures n in w.memory ==>
              Get(After(w, Work(batch, outcomes, crashes)).added, n) == Get(w.added, n)
  {
    var pending := Pending(batch, w.memory);
    var after := After(w, Work(batch, outcomes, crashes));
    assert after.added == HandleFirst(w, pending, outcomes, |outcomes|).added;
    forall i | 0 <= i < |outcomes|
      ensures forall m :: m in ToAdd(pending[i].labels, outcomes[i]) <==> CallsFor(m, pending[i].labels, outcomes[i])
      ensures pending[i].number !in w.memory
    {
      forall m {
        ToAddMeaning(m, pending[i].labels, outcomes[i]);
      }
      PendingMembers(batch, w.memory, pending[i]);
    }
    LabelsAfter(w, pending, outcomes, |outcomes|, n, l);
    hide Get, ToAdd, CallsFor, HandleFirst, Pending, After;
    forall m ensures n in w.memory ==> (m in Get(after.added, n) <==> m in Get(w.added, n)) {
      LabelsAfter(w, pending, outcomes, |outcomes|, n, m);
    }
  }

  // ---------- What every run keeps ----------

  ghost predicate Invariant(w: World) {
    && w.file <= w.memory <= w.handled
    && (w.running ==> w.memory == w.file)
    && |w.memory - w.file| <= WORK_BATCH_SIZE
    && forall n | n !in w.memory :: w.running ==> Get(w.added, n) <= Get(w.earlier, n)
  }

  function Numbers(items: seq<Item>): (s: set<nat>)
    ensures |s| <= |items|
    ensures forall item | item in items :: item.number in s
  {
    if items == [] then {}
    else
      var last := |items| - 1;
      assert items == items[..last] + [items[last]];
      Numbers(items[..last]) + {items[last].number}
  }

  lemma SmallDifference(a: set<nat>, b: set<nat>, c: set<nat>)
    requires a - b <= c
    ensures |a - b| <= |c|
  {
    var d := a - b;
    assert c == d + (c - d);
    assert |c| == |d| + |c - d|;
  }

  lemma WorkGrows(w: World, batch: seq<Item>, outcomes: seq<Classification>)
    requires Invariant(w) && w.running && |batch| <= WORK_BATCH_SIZE && |outcomes| <= |Pending(batch, w.memory)|
    ensures var worked := HandleFirst(w, Pending(batch, w.memory), outcomes, |outcomes|);
            && w.memory <= worked.memory <= worked.handled && worked.file == w.file
            && worked.running && worked.earlier == w.earlier
            && |worked.memory - w.file| <= WORK_BATCH_SIZE
            && forall n | n !in worked.memory :: Get(worked.added, n) <= Get(worked.earlier, n)
  {
    hide ToAdd, Get, Pending, HandleFirst, Numbers;
    var pending := Pending(batch, w.memory);
    var worked := HandleFirst(w, pending, outcomes, |outcomes|);
    HandleFirstMeaning(w, pending, outcomes, |outcomes|, 0);
    forall n
      ensures n in w.memory ==> n in worked.memory
      ensures n in worked.memory ==> n in worked.handled
      ensures n in worked.memory - w.file ==> n in Numbers(batch)
    {
      HandleFirstMeaning(w, pending, outcomes, |outcomes|, n);
      forall i | 0 <= i < |outcomes| && pending[i].number == n ensures n in Numbers(batch) {
        PendingMembers(batch, w.memory, pending[i]);
      }
    }
    SmallDifference(worked.memory, w.file, Numbers(batch));
    forall n, l | n !in worked.memory && l in Get(worked.added, n) ensures l in Get(w.earlier, n) {
      HandleFirstMeaning(w, pending, outcomes, |outcomes|, n);
      LabelsAfter(w, pending, outcomes, |outcomes|, n, l);
    }
  }

  lemma StepKeepsInvariant(w: World, e: Event)
    requires Invariant(w) && Enabled(w, e)
    ensures Invariant(After(w, e))
  {
    hide HandleFirst, Pending, SeesEarlierRuns;
    match e
    case Start(_) =>
    case Work(batch, outcomes, crashes) =>
      WorkGrows(w, batch, outcomes);
      NothingPending(w, Pending(batch, w.memory), outcomes);
  }

  lemma NothingPending(w: World, pending: seq<Item>, outcomes: seq<Classification>)
    requires |outcomes| <= |pending|
    ensures |pending| == 0 ==> HandleFirst(w, pending, outcomes, |outcomes|) == w
  {
  }

  ghost function Final(events: seq<Event>): World {
    if events == [] then FRESH else After(Final(events[..|events| - 1]), events[|events| - 1])
  }

  ghost predicate CanHappen(events: seq<Event>) {
    events != [] ==>
      var init, last := events[..|events| - 1], events[|events| - 1];
      CanHappen(init) && Enabled(Final(init), last)
  }

  // Over any runs and crashes from an empty state: the state file names only issues that were handled, a
  // running worker between batches has saved everything it did, and a crash forgets at most one batch.
  lemma {:induction false} RunKeepsInvariant(events: seq<Event>)
    requires CanHappen(events)
    ensures Invariant(Final(events))
  {
    hide Enabled, After, Invariant;
    if events == [] {
      FreshIsFine();
    } else {
      RunKeepsInvariant(events[..|events| - 1]);
      StepKeepsInvariant(Final(events[..|events| - 1]), events[|events| - 1]);
    }
  }

  lemma FreshIsFine()
    ensures Invariant(FRESH)
  {
  }

  // ---------- Category labels ----------

  ghost predicate GotBoth(w: World, n: nat) {
    Bug in Get(w.added, n) && Enhancement in Get(w.added, n)
  }

  // The worker classifies two copies of the issue, both fetched without a category, in different ways.
  ghost predicate Conflict(pending: seq<Item>, outcomes: seq<Classification>, n: nat)
    requires |outcomes| <= |pending|
  {
    exists i, j :: 0 <= i < |outcomes| && 0 <= j < |outcomes|
      && pending[i].number == n && !HasCategory(pending[i].labels) && outcomes[i].category == BugReport
      && pending[j].number == n && !HasCategory(pending[j].labels) && outcomes[j].category == FeatureRequest
  }

  lemma CategoryToAdd(labels: set<Label>, c: Classification)
    ensures Bug in ToAdd(labels, c) <==> !HasCategory(labels) && c.category == BugReport
    ensures Enhancement in ToAdd(labels, c) <==> !HasCategory(labels) && c.category == FeatureRequest
  {
  }

  lemma NoCategoryTwice(w: World, batch: seq<Item>, outcomes: seq<Classification>, n: nat, i: nat)
    requires Invariant(w) && Enabled(w, Work(batch, outcomes, true)) && i < |outcomes|
    requires Pending(batch, w.memory)[i].number == n
    ensures Get(w.added, n) <= Pending(batch, w.memory)[i].labels
  {
    hide Pending, Get;
    var item := Pending(batch, w.memory)[i];
    PendingMembers(batch, w.memory, item);
    assert Get(w.added, n) <= Get(w.earlier, n);
  }

  // A batch gives an issue its second category label exactly when it holds conflicting copies of it.
  lemma BothExactlyOnConflict(w: World, batch: seq<Item>, outcomes: seq<Classification>, crashes: bool, n: nat)
    requires Invariant(w) && Enabled(w, Work(batch, outcomes, crashes)) && !GotBoth(w, n)
    ensures GotBoth(After(w, Work(batch, outcomes, crashes)), n)
       <==> Conflict(Pending(batch, w.memory), outcomes, n)
  {
    hide Pending, Get, HandleFirst, ToAdd, HasCategory, Invariant, SeesEarlierRuns;
    var pending := Pending(batch, w.memory);
    var worked := HandleFirst(w, pending, outcomes, |outcomes|);
    LabelsAfter(w, pending, outcomes, |outcomes|, n, Bug);
    LabelsAfter(w, pending, outcomes, |outcomes|, n, Enhancement);
    forall i | 0 <= i < |outcomes| && pending[i].number == n
      ensures Bug in ToAdd(pending[i].labels, outcomes[i])
         <==> !HasCategory(pending[i].labels) && outcomes[i].category == BugReport
      ensures Enhancement in ToAdd(pending[i].labels, outcomes[i])
         <==> !HasCategory(pending[i].labels) && outcomes[i].category == FeatureRequest
      ensures Bug in Get(w.added, n) || Enhancement in Get(w.added, n) ==> HasCategory(pending[i].labels)
    {
      CategoryToAdd(pending[i].labels, outcomes[i]);
      NoCategoryTwice(w, batch, outcomes, n, i);
      CategoryShown(Get(w.added, n), pending[i].labels);
    }
    assert After(w, Work(batch, outcomes, crashes)).added == worked.added;
  }

  lemma CategoryShown(added: set<Label>, labels: set<Label>)
    requires added <= labels
    ensures Bug in added || Enhancement in added ==> HasCategory(labels)
  {
  }

  ghost predicate HasNoCopies(e: Event) {
    e.Work? ==> forall i, j | 0 <= i < j < |e.batch| :: e.batch[i].number != e.batch[j].number
  }

  lemma {:induction false} PendingHasNoCopies(batch: seq<Item>, memory: set<nat>)
    requires forall i, j | 0 <= i < j < |batch| :: batch[i].number != batch[j].number
    ensures var p := Pending(batch, memory); forall i, j | 0 <= i < j < |p| :: p[i].number != p[j].number
  {
    if batch != [] {
      var last := |batch| - 1;
      PendingHasNoCopies(batch[..last], memory);
      var p := Pending(batch[..last], memory);
      forall i | 0 <= i < |p| ensures p[i].number != batch[last].number {
        PendingMembers(batch[..last], memory, p[i]);
      }
    }
  }

  // The k-th event of the run is work on a batch with conflicting copies of the issue.
  ghost predicate ConflictAt(events: seq<Event>, k: nat, n: nat)
    requires k < |events|
  {
    match events[k]
    case Start(_) => false
    case Work(batch, outcomes, _) =>
      var pending := Pending(batch, Final(events[..k]).memory);
      |outcomes| <= |pending| && Conflict(pending, outcomes, n)
  }

  lemma AddedGrows(w: World, e: Event, n: nat)
    ensures GotBoth(w, n) ==> GotBoth(After(w, e), n)
  {
    if e.Work? && |e.outcomes| <= |Pending(e.batch, w.memory)| {
      LabelsAfter(w, Pending(e.batch, w.memory), e.outcomes, |e.outcomes|, n, Bug);
      LabelsAfter(w, Pending(e.batch, w.memory), e.outcomes, |e.outcomes|, n, Enhancement);
    }
    hide Pending, HandleFirst, Get;
  }

  ghost predicate ConflictsNow(w: World, e: Event, n: nat) {
    match e
    case Start(_) => false
    case Work(batch, outcomes, _) =>
      |outcomes| <= |Pending(batch, w.memory)| && Conflict(Pending(batch, w.memory), outcomes, n)
  }

  lemma StepGivesBoth(w: World, e: Event, n: nat)
    requires Invariant(w) && Enabled(w, e)
    ensures GotBoth(After(w, e), n) <==> GotBoth(w, n) || ConflictsNow(w, e, n)
  {
    AddedGrows(w, e, n);
    if e.Work? && !GotBoth(w, n) {
      BothExactlyOnConflict(w, e.batch, e.outcomes, e.crashes, n);
    }
    hide Invariant, Conflict, Pending, HandleFirst, SeesEarlierRuns;
  }

  // Over any runs and crashes, an issue has received both categories exactly when some batch of the run
  // held conflicting copies of it.
  lemma {:induction false} BothExactlyOnSomeConflict(events: seq<Event>, n: nat)
    requires CanHappen(events)
    ensures GotBoth(Final(events), n) <==> exists k | 0 <= k < |events| :: ConflictAt(events, k, n)
  {
    hide Enabled, After, Invariant, GotBoth;
    if events == [] {
      NothingAdded(n);
    } else {
      var last := |events| - 1;
      var init := events[..last];
      BothExactlyOnSomeConflict(init, n);
      RunKeepsInvariant(init);
      StepGivesBoth(Final(init), events[last], n);
      hide Final, CanHappen, Conflict;
      assert ConflictAt(events, last, n) <==> ConflictsNow(Final(init), events[last], n);
      forall k | 0 <= k < last ensures ConflictAt(events, k, n) <==> ConflictAt(init, k, n) {
        assert init[..k] == events[..k] && init[k] == events[k];
      }
    }
  }

  // In particular, when no batch holds the same issue twice, no issue ever receives both categories.
  lemma NeverBoth(events: seq<Event>, n: nat)
    requires CanHappen(events) && forall e | e in events :: HasNoCopies(e)
    ensures !GotBoth(Final(events), n)
  {
    BothExactlyOnSomeConflict(events, n);
    hide GotBoth, Final, CanHappen;
    forall k | 0 <= k < |events| ensures !ConflictAt(events, k, n) {
      assert HasNoCopies(events[k]);
      if events[k].Work? {
        NoConflictWithoutCopies(events[k].batch, Final(events[..k]).memory, events[k].outcomes, n);
      }
    }
  }

  lemma NoConflictWithoutCopies(batch: seq<Item>, memory: set<nat>, outcomes: seq<Classification>, n: nat)
    requires forall i, j | 0 <= i < j < |batch| :: batch[i].number != batch[j].number
    ensures |outcomes| <= |Pending(batch, memory)| ==> !Conflict(Pending(batch, memory), outcomes, n)
  {
    PendingHasNoCopies(batch, memory);
    hide Pending, HasCategory;
  }

  lemma NothingAdded(n: nat)
    ensures !GotBoth(FRESH, n)
  {
  }

  // The same issue twice in one batch, with no category, classified once as a bug and once not: it gets
  // both labels. The page filter runs before the batch is processed, so the second copy is not dropped.
  lemma CopiesCanGetBoth(n: nat)
    ensures exists events :: CanHappen(events) && GotBoth(Final(events), n)
  {
    var w := After(FRESH, Start(true));
    var e := CopiesConflict(w, n);
    FreshIsFine();
    StartIsEnabled(FRESH);
    StepKeepsInvariant(FRESH, Start(true));
    StepGivesBoth(w, e, n);
    TwoSteps(e);
    hide Final, CanHappen, GotBoth, After, Enabled, ConflictsNow, Invariant;
    assert CanHappen([Start(true), e]) && GotBoth(Final([Start(true), e]), n);
  }

  lemma CopiesConflict(w: World, n: nat) returns (e: Event)
    requires w == FRESH.(running := true)
    ensures Enabled(w, e) && ConflictsNow(w, e, n)
  {
    var item := Item(n, {});
    var batch, outcomes := [item, item], [Classification(BugReport, false, false), Classification(FeatureRequest, false, false)];
    e := Work(batch, outcomes, false);
    CopiesPending(item, w);
    assert batch[0] == item && batch[1] == item;
    hide Pending;
    assert SeesEarlierRuns(w, batch);
    assert Conflict(batch, outcomes, n);
  }

  lemma StartIsEnabled(w: World)
    ensures Enabled(w, Start(true))
  {
  }

  lemma TwoSteps(e: Event)
    ensures var w := After(FRESH, Start(true));
            && Final([Start(true), e]) == After(w, e)
            && (Enabled(w, e) ==> CanHappen([Start(true), e]))
  {
    hide After, Enabled;
    var one, two := [Start(true)], [Start(true), e];
    assert one[..0] == [] && two[..1] == one;
    StartIsEnabled(FRESH);
    assert Final(one) == After(FRESH, Start(true));
    assert CanHappen(one);
  }

  lemma CopiesPending(item: Item, w: World)
    requires w.memory == {}
    ensures Pending([item, item], w.memory) == [item, item]
  {
    assert [item, item][..1] == [item];
    assert [item][..0] == [];
    assert Pending([item], w.memory) == [item];
  }

  // ---------- The worker ----------

  // Labels come from the classifier one at a time; when there are no more of them, the worker has crashed.
  class Worker {
    var issueState: set<nat>
    var saved: set<nat>
    var added: Additions
    ghost var world: World

    ghost predicate Matches()
      reads this
    {
      world.running && world.memory == issueState && world.file == saved && world.added == added
    }

    constructor (ghost w: World, stateFile: set<nat>, labelled: Additions)
      requires w.running && w.memory == stateFile == w.file && w.added == labelled
      ensures Matches() && world == w
    {
      issueState, saved, added, world := stateFile, stateFile, labelled, w;
    }

    method FilterPending(batch: seq<Item>) returns (pending: seq<Item>)
      ensures pending == Pending(batch, issueState)
    {
      pending := [];
      for i := 0 to |batch|
        invariant pending == Pending(batch[..i], issueState)
      {
        assert batch[..i + 1][..i] == batch[..i];
        if batch[i].number !in issueState {
          pending := pending + [batch[i]];
        }
      }
      assert batch[..|batch|] == batch;
    }

    method ProcessBatch(batch: seq<Item>, outcomes: seq<Classification>, crashes: bool) returns (alive: bool)
      requires Matches() && Enabled(world, Work(batch, outcomes, crashes))
      modifies this
      ensures world == After(old(world), Work(batch, outcomes, crashes)) && alive == !crashes
      ensures world.file == saved && world.added == added
      ensures alive ==> Matches()
    {
      hide Pending, ToAdd, SeesEarlierRuns;
      var pending := FilterPending(batch);
      ghost var before := world;
      for i := 0 to |outcomes|
        invariant Matches() && world == HandleFirst(before, pending, outcomes, i)
      {
        var item, c := pending[i], outcomes[i];
        var toAdd := ToAdd(item.labels, c);
        world := Handle(world, item, c);
        added := added[item.number := Get(added, item.number) + toAdd];
        issueState := issueState + {item.number};
      }
      if crashes {
        world := world.(running := false);
        return false;
      }
      if |pending| > 0 {
        saved := issueState;
        world := world.(file := world.memory);
      }
      return true;
    }
  }
}
