// The prompts of one successful translation, in order: which stretch of the items each of them is for.
module PromptOrder {
  import opened CodeUnits
  import opened Sequences
  import opened TranslationBatches
  import opened TranslateBatch

  datatype Asked = Asked(from: nat, to: nat)

  predicate InRange(items: seq<Item>, q: Asked) {
    q.from <= q.to <= |items|
  }

  // What prompt number j of the list led to, when the first one is number `at`.
  function AnswerTo(items: seq<Item>, provider: Provider, at: nat, t: seq<Asked>, j: nat): Attempt
    requires j < |t| && InRange(items, t[j])
  {
    AttemptOf(items[t[j].from..t[j].to], provider(at + j))
  }

  // The larger half comes first.
  predicate SplitsAt(q: Asked, cut: nat) {
    q.from < cut < q.to && (cut - q.from == q.to - cut || cut - q.from == q.to - cut + 1)
  }

  // The next prompt is for the other half of a stretch that timed out and whose first half ends here.
  ghost predicate IsOtherHalf(items: seq<Item>, provider: Provider, at: nat, t: seq<Asked>, j: nat)
    requires j + 1 < |t|
  {
    exists i | 0 <= i < j :: InRange(items, t[i]) && AnswerTo(items, provider, at, t, i).TimedOut?
                             && SplitsAt(t[i], t[j].to) && t[j + 1] == Asked(t[j].to, t[i].to)
  }

  // How prompt j leads to the next one. A rejected one is repeated once. After a timeout the first half
  // follows. After a translation the other half of a split stretch follows, until the end is reached.
  ghost predicate Leads(items: seq<Item>, provider: Provider, at: nat, t: seq<Asked>, j: nat, to: nat)
    requires j < |t|
  {
    && InRange(items, t[j])
    && match AnswerTo(items, provider, at, t, j)
       case Rejected => j + 1 < |t| && t[j + 1] == t[j] && (j > 0 ==> t[j - 1] != t[j])
       case TimedOut => j + 1 < |t| && t[j + 1].from == t[j].from && SplitsAt(t[j], t[j + 1].to)
       case Translated(_) =>
         if j + 1 == |t| then t[j].to == to else IsOtherHalf(items, provider, at, t, j)
  }

  ghost predicate AllLead(items: seq<Item>, provider: Provider, at: nat, t: seq<Asked>, to: nat) {
    forall j | 0 <= j < |t| :: Leads(items, provider, at, t, j, to)
  }

  // The stretches lie within the first one, and none is empty unless that is.
  predicate Within(t: seq<Asked>, lo: nat, hi: nat) {
    forall j | 0 <= j < |t| :: lo <= t[j].from <= t[j].to <= hi && (lo < hi ==> t[j].from < t[j].to)
  }

  lemma SameAnswer(items: seq<Item>, provider: Provider, at: nat, t: seq<Asked>, d: nat, big: seq<Asked>, j: nat)
    requires d + |t| <= |big| && big[d..d + |t|] == t && j < |t| && InRange(items, t[j])
    ensures big[d + j] == t[j] && AnswerTo(items, provider, at, big, d + j) == AnswerTo(items, provider, at + d, t, j)
  {
    hide AttemptOf;
    assert big[d..d + |t|][j] == big[d + j];
    assert at + d + j == at + (d + j);
  }

  lemma SameOtherHalf(
      items: seq<Item>, provider: Provider, at: nat, t: seq<Asked>, d: nat, big: seq<Asked>, j: nat)
    requires d + |t| <= |big| && big[d..d + |t|] == t && j + 1 < |t|
    requires IsOtherHalf(items, provider, at + d, t, j)
    ensures IsOtherHalf(items, provider, at, big, d + j)
  {
    hide AnswerTo, SplitsAt;
    var i :| 0 <= i < j && InRange(items, t[i]) && AnswerTo(items, provider, at + d, t, i).TimedOut?
             && SplitsAt(t[i], t[j].to) && t[j + 1] == Asked(t[j].to, t[i].to);
    SameAnswer(items, provider, at, t, d, big, i);
    assert big[d..d + |t|][j] == big[d + j] && big[d..d + |t|][j + 1] == big[d + j + 1];
    assert AnswerTo(items, provider, at, big, d + i).TimedOut?;
  }

  // A part of the list leads on as it does on its own.
  lemma Embedded(
      items: seq<Item>, provider: Provider, at: nat, t: seq<Asked>, d: nat, big: seq<Asked>, j: nat, to: nat, end: nat)
    requires d + |t| <= |big| && big[d..d + |t|] == t && j < |t| && Leads(items, provider, at + d, t, j, to)
    requires j + 1 < |t| || (d + |t| == |big| && to == end)
    requires j == 0 && d > 0 && AnswerTo(items, provider, at + d, t, 0).Rejected? ==> big[d - 1] != t[0]
    ensures Leads(items, provider, at, big, d + j, end)
  {
    hide AnswerTo, SplitsAt, IsOtherHalf;
    SameAnswer(items, provider, at, t, d, big, j);
    if j + 1 < |t| {
      assert big[d..d + |t|][j + 1] == big[d + j + 1];
    }
    if j > 0 {
      assert big[d..d + |t|][j - 1] == big[d + j - 1];
    }
    if AnswerTo(items, provider, at + d, t, j).Translated? && j + 1 < |t| {
      SameOtherHalf(items, provider, at, t, d, big, j);
    }
  }

  lemma AfterRejection(items: seq<Item>, provider: Provider, at: nat, rest: seq<Asked>, q: Asked)
    requires InRange(items, q) && AttemptOf(items[q.from..q.to], provider(at)).Rejected?
    requires rest != [] && rest[0] == q && AllLead(items, provider, at + 1, rest, q.to)
    requires !AnswerTo(items, provider, at + 1, rest, 0).Rejected?
    ensures AllLead(items, provider, at, [q] + rest, q.to)
  {
    var t := [q] + rest;
    hide AttemptOf, SplitsAt, IsOtherHalf;
    forall j | 0 <= j < |t| ensures Leads(items, provider, at, t, j, q.to) {
      if j == 0 {
        assert t[1] == rest[0];
      } else {
        hide AnswerTo, Leads;
        assert t[1..1 + |rest|] == rest;
        assert Leads(items, provider, at + 1, rest, j - 1, q.to);
        Embedded(items, provider, at, rest, 1, t, j - 1, q.to, q.to);
      }
    }
  }

  lemma Junction(
      items: seq<Item>, provider: Provider, at: nat, left: seq<Asked>, right: seq<Asked>, q: Asked, cut: nat)
    requires InRange(items, q) && AttemptOf(items[q.from..q.to], provider(at)).TimedOut? && SplitsAt(q, cut)
    requires left != [] && right != [] && right[0] == Asked(cut, q.to)
    requires Leads(items, provider, at + 1, left, |left| - 1, cut)
    ensures Leads(items, provider, at, [q] + left + right, |left|, q.to)
  {
    hide AttemptOf, SplitsAt;
    var t := [q] + left + right;
    var last := |left| - 1;
    assert t[1..1 + |left|] == left;
    SameAnswer(items, provider, at, left, 1, t, last);
    assert AnswerTo(items, provider, at, t, 0).TimedOut?;
    assert t[|left| + 1] == right[0] && t[0] == q;
    assert IsOtherHalf(items, provider, at, t, |left|);
  }

  lemma AfterTimeout(
      items: seq<Item>, provider: Provider, at: nat, left: seq<Asked>, right: seq<Asked>, q: Asked, cut: nat)
    requires InRange(items, q) && AttemptOf(items[q.from..q.to], provider(at)).TimedOut? && SplitsAt(q, cut)
    requires left != [] && left[0] == Asked(q.from, cut) && AllLead(items, provider, at + 1, left, cut)
    requires right != [] && right[0] == Asked(cut, q.to)
    requires AllLead(items, provider, at + 1 + |left|, right, q.to)
    requires left[|left| - 1].from < left[|left| - 1].to && left[|left| - 1].to <= cut
    ensures AllLead(items, provider, at, [q] + left + right, q.to)
  {
    var t := [q] + left + right;
    hide AttemptOf, IsOtherHalf;
    forall j | 0 <= j < |t| ensures Leads(items, provider, at, t, j, q.to) {
      if j == 0 {
        assert t[1] == left[0];
      } else if j < |left| {
        hide AnswerTo, Leads;
        assert t[1..1 + |left|] == left;
        assert Leads(items, provider, at + 1, left, j - 1, cut);
        Embedded(items, provider, at, left, 1, t, j - 1, cut, q.to);
      } else if j == |left| {
        assert Leads(items, provider, at + 1, left, |left| - 1, cut);
        Junction(items, provider, at, left, right, q, cut);
      } else {
        hide AnswerTo, Leads;
        var d := 1 + |left|;
        assert t[d..d + |right|] == right && t[d - 1] == left[|left| - 1];
        assert Leads(items, provider, at + d, right, j - d, q.to);
        Embedded(items, provider, at, right, d, t, j - d, q.to, q.to);
      }
    }
  }

  // The prompts of a translation that succeeds, from the first one to the last.
  lemma {:induction false} PromptsInOrder(
      items: seq<Item>, lo: nat, hi: nat, provider: Provider, at: nat, attempt: nat) returns (t: seq<Asked>)
    requires lo <= hi <= |items| && attempt < TRANSLATE_MAX_ATTEMPTS
    requires Translation(items[lo..hi], provider, at, attempt).0.Some?
    ensures |t| > 0 && Translation(items[lo..hi], provider, at, attempt).1 == at + |t|
    ensures t[0] == Asked(lo, hi) && AllLead(items, provider, at, t, hi) && Within(t, lo, hi)
    ensures attempt > 0 ==> !AttemptOf(items[lo..hi], provider(at)).Rejected?
    decreases hi - lo, TRANSLATE_MAX_ATTEMPTS - attempt
  {
    hide AttemptOf, AllLead, Within;
    var q := Asked(lo, hi);
    var these := items[lo..hi];
    match AttemptOf(these, provider(at))
    case Translated(m) =>
      t := [q];
      OnePrompt(items, provider, at, q);
    case Rejected =>
      var rest := PromptsInOrder(items, lo, hi, provider, at + 1, attempt + 1);
      AfterRejection(items, provider, at, rest, q);
      WithinOnce(q, rest);
      t := [q] + rest;
    case TimedOut =>
      var middle := Midpoint(|these|);
      var cut := lo + middle;
      assert these[..middle] == items[lo..cut] && these[middle..] == items[cut..hi];
      var after := Translation(these[..middle], provider, at + 1, 0).1;
      var left := PromptsInOrder(items, lo, cut, provider, at + 1, 0);
      var right := PromptsInOrder(items, cut, hi, provider, after, 0);
      WithinLast(left, lo, cut);
      AfterTimeout(items, provider, at, left, right, q, cut);
      WithinTwice(q, left, right, cut);
      t := [q] + left + right;
  }

  lemma OnePrompt(items: seq<Item>, provider: Provider, at: nat, q: Asked)
    requires InRange(items, q) && AttemptOf(items[q.from..q.to], provider(at)).Translated?
    ensures AllLead(items, provider, at, [q], q.to) && Within([q], q.from, q.to)
  {
    hide AttemptOf;
  }

  lemma WithinOnce(q: Asked, rest: seq<Asked>)
    requires q.from <= q.to && Within(rest, q.from, q.to)
    ensures Within([q] + rest, q.from, q.to)
  {
  }

  lemma WithinTwice(q: Asked, left: seq<Asked>, right: seq<Asked>, cut: nat)
    requires q.from < cut < q.to && Within(left, q.from, cut) && Within(right, cut, q.to)
    ensures Within([q] + left + right, q.from, q.to)
  {
  }

  lemma WithinLast(t: seq<Asked>, lo: nat, hi: nat)
    requires Within(t, lo, hi) && t != [] && lo < hi
    ensures t[|t| - 1].from < t[|t| - 1].to <= hi
  {
  }

  // A successful translation of all items asks for all of them first and goes on as described.
  lemma SuccessInOrder(items: seq<Item>, provider: Provider, at: nat) returns (t: seq<Asked>)
    requires Translation(items, provider, at, 0).0.Some?
    ensures |t| > 0 && Translation(items, provider, at, 0).1 == at + |t|
    ensures t[0] == Asked(0, |items|) && AllLead(items, provider, at, t, |items|)
  {
    hide AllLead;
    assert items[0..|items|] == items;
    t := PromptsInOrder(items, 0, |items|, provider, at, 0);
  }
}
