// Translating one batch: up to two prompts, and a split in two halves whenever a prompt times out.
module TranslateBatch {
  import opened CodeUnits
  import opened Placeholders
  import opened Sequences
  import opened TranslationBatches
  import opened Wrappers

  const TRANSLATE_MAX_ATTEMPTS := 2

  // What looking a key up in the parsed reply can give.
  datatype Json = Str(text: Text) | NotAString

  // How a prompt ends. An error may speak of a timeout whatever its cause, since only its text is looked
  // at; so the error that an unusable reply leads to comes with that answer, too. A reply that cannot be
  // parsed has no value.
  datatype Outcome =
    | PromptFailed(saysTimedOut: bool)
    | Replied(reply: Option<map<Text, Json>>, errorSaysTimedOut: bool)

  predicate IsBlank(t: Text) {
    Trim(t) == []
  }

  // The text of every key; the last item with a key counts.
  function SourceFlat(items: seq<Item>): map<Text, Text> {
    if items == [] then map[]
    else
      var n := |items| - 1;
      SourceFlat(items[..n])[items[n].key := items[n].text]
  }

  lemma {:induction false} SourceFlatKeys(items: seq<Item>, k: Text)
    ensures k in SourceFlat(items) <==> exists i | 0 <= i < |items| :: items[i].key == k
  {
    if items != [] {
      var n := |items| - 1;
      SourceFlatKeys(items[..n], k);
      assert forall i | 0 <= i < n :: items[i] == items[..n][i];
    }
  }

  predicate Usable(items: seq<Item>, reply: map<Text, Json>) {
    forall i | 0 <= i < |items| :: items[i].key in reply && reply[items[i].key].Str? && !IsBlank(reply[items[i].key].text)
  }

  predicate KeepsPlaceholders(sources: map<Text, Text>, m: map<Text, Text>) {
    m.Keys == sources.Keys
    && forall k | k in m :: !IsBlank(m[k]) && PlaceholderSet(m[k]) == PlaceholderSet(sources[k])
  }

  // Every key of the items has a translation that is not blank and has the placeholders of its source.
  predicate IsTranslation(items: seq<Item>, translated: map<Text, Text>) {
    KeepsPlaceholders(SourceFlat(items), translated)
  }

  function Translations(items: seq<Item>, reply: map<Text, Json>): map<Text, Text>
    requires Usable(items, reply)
  {
    assert forall k | k in SourceFlat(items) :: k in reply && reply[k].Str? by {
      forall k | k in SourceFlat(items) ensures k in reply && reply[k].Str? {
        SourceFlatKeys(items, k);
      }
    }
    map k | k in SourceFlat(items) :: reply[k].text
  }

  // parseTranslationBatchReply; None is an error.
  function Parsed(items: seq<Item>, reply: Option<map<Text, Json>>): (r: Option<map<Text, Text>>)
    ensures r.Some? ==> IsTranslation(items, r.value)
  {
    if reply.None? || !Usable(items, reply.value) then None
    else
      var translated := Translations(items, reply.value);
      assert forall k | k in translated :: !IsBlank(translated[k]) by {
        forall k | k in translated ensures !IsBlank(translated[k]) {
          SourceFlatKeys(items, k);
        }
      }
      if forall k | k in translated :: PlaceholderSet(translated[k]) == PlaceholderSet(SourceFlat(items)[k])
      then Some(translated) else None
  }

  method ParseTranslationBatchReply(items: seq<Item>, reply: Option<map<Text, Json>>)
      returns (r: Option<map<Text, Text>>)
    ensures r == Parsed(items, reply)
  {
    if reply.None? {
      return None;
    }
    var parsed := reply.value;
    var translated: map<Text, Text> := map[];
    for i := 0 to |items|
      invariant Usable(items[..i], parsed) && translated == Translations(items[..i], parsed)
    {
      var item := items[i];
      if item.key !in parsed || !parsed[item.key].Str? || IsBlank(parsed[item.key].text) {
        return None;
      }
      assert items[..i + 1][..i] == items[..i];
      translated := translated[item.key := parsed[item.key].text];
    }
    assert items[..|items|] == items;
    var sources := SourceFlat(items);
    if exists k | k in sources :: PlaceholderSet(sources[k]) != PlaceholderSet(translated[k]) {
      return None;
    }
    return Some(translated);
  }

  // ---------- What the parser accepts, and what it returns ----------

  // No later item has the same key.
  predicate IsLastWithKey(items: seq<Item>, i: nat)
    requires i < |items|
  {
    forall j | i < j < |items| :: items[j].key != items[i].key
  }

  lemma {:induction false} LastItemCounts(items: seq<Item>, i: nat)
    requires i < |items| && IsLastWithKey(items, i)
    ensures items[i].key in SourceFlat(items) && SourceFlat(items)[items[i].key] == items[i].text
  {
    var n := |items| - 1;
    if i < n {
      assert items[..n][i] == items[i];
      LastItemCounts(items[..n], i);
    }
  }

  lemma {:induction false} LastItem(items: seq<Item>, k: Text) returns (i: nat)
    requires k in SourceFlat(items)
    ensures i < |items| && items[i].key == k && IsLastWithKey(items, i)
  {
    var n := |items| - 1;
    if items[n].key == k {
      i := n;
    } else {
      i := LastItem(items[..n], k);
      assert items[..n][i] == items[i];
      forall j | i < j < |items| ensures items[j].key != items[i].key {
        assert j < n ==> items[..n][j] == items[j];
      }
    }
  }

  // Every item has a text in the reply that is not blank, and the placeholders of the last item of its key.
  predicate IsGoodReply(items: seq<Item>, reply: map<Text, Json>) {
    forall i | 0 <= i < |items| ::
      && items[i].key in reply && reply[items[i].key].Str? && !IsBlank(reply[items[i].key].text)
      && (IsLastWithKey(items, i) ==> PlaceholderSet(reply[items[i].key].text) == PlaceholderSet(items[i].text))
  }

  lemma SamePlaceholders(items: seq<Item>, reply: map<Text, Json>)
    requires Usable(items, reply)
    ensures IsGoodReply(items, reply) <==> forall k | k in SourceFlat(items) ::
              PlaceholderSet(Translations(items, reply)[k]) == PlaceholderSet(SourceFlat(items)[k])
  {
    hide PlaceholderSet, IsBlank, SourceFlat;
    if IsGoodReply(items, reply) {
      forall k | k in SourceFlat(items)
        ensures PlaceholderSet(Translations(items, reply)[k]) == PlaceholderSet(SourceFlat(items)[k])
      {
        var i := LastItem(items, k);
        LastItemCounts(items, i);
      }
    }
    if forall k | k in SourceFlat(items) ::
         PlaceholderSet(Translations(items, reply)[k]) == PlaceholderSet(SourceFlat(items)[k]) {
      forall i | 0 <= i < |items| && IsLastWithKey(items, i)
        ensures PlaceholderSet(reply[items[i].key].text) == PlaceholderSet(items[i].text)
      {
        LastItemCounts(items, i);
        assert Translations(items, reply)[items[i].key] == reply[items[i].key].text;
      }
    }
  }

  // The parser accepts exactly the good replies, and returns the reply's own text for every key.
  lemma ParsedExactly(items: seq<Item>, reply: Option<map<Text, Json>>)
    ensures Parsed(items, reply).Some? <==> reply.Some? && IsGoodReply(items, reply.value)
    ensures Parsed(items, reply).Some? ==>
              && (forall k :: k in Parsed(items, reply).value <==> exists i | 0 <= i < |items| :: items[i].key == k)
              && forall k | k in Parsed(items, reply).value ::
                   k in reply.value && reply.value[k] == Str(Parsed(items, reply).value[k])
  {
    if reply.Some? && Usable(items, reply.value) {
      SamePlaceholders(items, reply.value);
      forall k ensures k in SourceFlat(items) <==> exists i | 0 <= i < |items| :: items[i].key == k {
        SourceFlatKeys(items, k);
      }
    }
    hide PlaceholderSet, IsBlank, SourceFlat, KeepsPlaceholders;
  }

  // ---------- The retry loop ----------

  // The provider's outcomes in the order of the prompts.
  type Provider = nat -> Outcome

  // What one prompt leads to: a translation, or an error that does or does not speak of a timeout.
  datatype Attempt = Translated(translated: map<Text, Text>) | TimedOut | Rejected

  function AttemptOf(items: seq<Item>, o: Outcome): (a: Attempt)
    ensures a.Translated? ==> IsTranslation(items, a.translated)
  {
    match o
    case PromptFailed(saysTimedOut) => if saysTimedOut then TimedOut else Rejected
    case Replied(reply, saysTimedOut) =>
      match Parsed(items, reply)
      case Some(m) => Translated(m)
      case None => if saysTimedOut then TimedOut else Rejected
  }

  function Midpoint(n: nat): (m: nat)
    ensures m == n - m || m == n - m + 1
  {
    (n + 1) / 2
  }

  // The result of translating the items, the first prompt being number `at`, when `attempt` prompts have
  // already failed; and the number of the next prompt. None is an error.
  function Translation(items: seq<Item>, provider: Provider, at: nat, attempt: nat): (Option<map<Text, Text>>, nat)
    requires attempt <= TRANSLATE_MAX_ATTEMPTS
    decreases |items|, TRANSLATE_MAX_ATTEMPTS - attempt
  {
    if attempt == TRANSLATE_MAX_ATTEMPTS then (None, at)
    else
      match AttemptOf(items, provider(at))
      case Translated(m) => (Some(m), at + 1)
      case TimedOut =>
        if |items| <= 1 then (None, at + 1)
        else
          var middle := Midpoint(|items|);
          var (left, after) := Translation(items[..middle], provider, at + 1, 0);
          if left.None? then (None, after)
          else
            var (right, end) := Translation(items[middle..], provider, after, 0);
            if right.None? then (None, end) else (Some(left.value + right.value), end)
      case Rejected => Translation(items, provider, at + 1, attempt + 1)
  }

  method TranslateItems(items: seq<Item>, provider: Provider, at: nat)
      returns (r: Option<map<Text, Text>>, next: nat)
    ensures (r, next) == Translation(items, provider, at, 0)
    decreases |items|
  {
    next := at;
    for attempt := 0 to TRANSLATE_MAX_ATTEMPTS
      invariant Translation(items, provider, at, 0) == Translation(items, provider, next, attempt)
    {
      var outcome := provider(next);
      next := next + 1;
      var saysTimedOut;
      match outcome {
        case PromptFailed(says) => saysTimedOut := says;
        case Replied(reply, says) =>
          var translated := ParseTranslationBatchReply(items, reply);
          if translated.Some? {
            return translated, next;
          }
          saysTimedOut := says;
      }
      if saysTimedOut && |items| > 1 {
        var middle := Midpoint(|items|);
        var left;
        left, next := TranslateItems(items[..middle], provider, next);
        if left.None? {
          return None, next;
        }
        var right;
        right, next := TranslateItems(items[middle..], provider, next);
        if right.None? {
          return None, next;
        }
        return Some(left.value + right.value), next;
      }
      if saysTimedOut {
        return None, next;
      }
    }
    return None, next;
  }

  // At most 4n - 2 prompts for n items, whatever the provider does.
  lemma {:induction false} PromptsAreBounded(items: seq<Item>, provider: Provider, at: nat, attempt: nat)
    requires attempt <= TRANSLATE_MAX_ATTEMPTS
    ensures at <= Translation(items, provider, at, attempt).1
    ensures Translation(items, provider, at, attempt).1 - at
         <= if |items| == 0 then 2 - attempt else 4 * |items| - 2 - attempt
    decreases |items|, TRANSLATE_MAX_ATTEMPTS - attempt
  {
    if attempt < TRANSLATE_MAX_ATTEMPTS {
      match AttemptOf(items, provider(at))
      case Translated(_) =>
      case TimedOut =>
        if |items| > 1 {
          var middle := Midpoint(|items|);
          PromptsAreBounded(items[..middle], provider, at + 1, 0);
          PromptsAreBounded(items[middle..], provider, Translation(items[..middle], provider, at + 1, 0).1, 0);
        }
      case Rejected => PromptsAreBounded(items, provider, at + 1, attempt + 1);
    }
  }

  lemma {:induction false} SourceFlatAppend(a: seq<Item>, b: seq<Item>)
    ensures SourceFlat(a + b) == SourceFlat(a) + SourceFlat(b)
    decreases |b|
  {
    if b == [] {
      assert a + b == a;
    } else {
      var n := |b| - 1;
      SourceFlatAppend(a, b[..n]);
      assert (a + b)[..|a| + n] == a + b[..n];
      assert SourceFlat(a + b) == SourceFlat(a + b[..n])[b[n].key := b[n].text];
    }
  }

  lemma MergeKeepsPlaceholders(a: map<Text, Text>, b: map<Text, Text>, left: map<Text, Text>, right: map<Text, Text>)
    requires KeepsPlaceholders(a, left) && KeepsPlaceholders(b, right)
    ensures KeepsPlaceholders(a + b, left + right)
  {
    hide PlaceholderSet, IsBlank;
  }

  lemma MergeTranslations(items: seq<Item>, middle: nat, left: map<Text, Text>, right: map<Text, Text>)
    requires middle <= |items|
    requires IsTranslation(items[..middle], left) && IsTranslation(items[middle..], right)
    ensures IsTranslation(items, left + right)
  {
    hide SourceFlat, KeepsPlaceholders;
    SourceFlatAppend(items[..middle], items[middle..]);
    assert items[..middle] + items[middle..] == items;
    MergeKeepsPlaceholders(SourceFlat(items[..middle]), SourceFlat(items[middle..]), left, right);
  }

  // When the batch is translated, however often it was split, the map has exactly the items' keys, no
  // blank value, and the placeholders of the sources.
  lemma {:induction false} ResultIsTranslation(items: seq<Item>, provider: Provider, at: nat, attempt: nat)
    requires attempt <= TRANSLATE_MAX_ATTEMPTS
    requires Translation(items, provider, at, attempt).0.Some?
    ensures IsTranslation(items, Translation(items, provider, at, attempt).0.value)
    decreases |items|, TRANSLATE_MAX_ATTEMPTS - attempt
  {
    match AttemptOf(items, provider(at))
    case Translated(m) =>
    case TimedOut =>
      var middle := Midpoint(|items|);
      var (left, after) := Translation(items[..middle], provider, at + 1, 0);
      var (right, end) := Translation(items[middle..], provider, after, 0);
      ResultIsTranslation(items[..middle], provider, at + 1, 0);
      ResultIsTranslation(items[middle..], provider, after, 0);
      MergeTranslations(items, middle, left.value, right.value);
    case Rejected => ResultIsTranslation(items, provider, at + 1, attempt + 1);
  }

  // The provider's answer to prompt number j gives the text for the key.
  predicate Gave(provider: Provider, j: nat, key: Text, text: Text) {
    && provider(j).Replied? && provider(j).reply.Some?
    && key in provider(j).reply.value && provider(j).reply.value[key] == Str(text)
  }

  // Every text of the result was given by the provider for its key, in answer to one of the prompts.
  lemma {:induction false} TextsAreTheProviders(
      items: seq<Item>, provider: Provider, at: nat, attempt: nat, key: Text)
    requires attempt <= TRANSLATE_MAX_ATTEMPTS
    requires Translation(items, provider, at, attempt).0.Some?
    requires key in Translation(items, provider, at, attempt).0.value
    ensures var (m, next) := Translation(items, provider, at, attempt);
            exists j: nat | at <= j < next :: Gave(provider, j, key, m.value[key])
    decreases |items|, TRANSLATE_MAX_ATTEMPTS - attempt
  {
    match AttemptOf(items, provider(at))
    case Translated(m) =>
      ParsedExactly(items, provider(at).reply);
      assert Gave(provider, at, key, m[key]);
    case TimedOut =>
      var middle := Midpoint(|items|);
      var (left, after) := Translation(items[..middle], provider, at + 1, 0);
      var (right, end) := Translation(items[middle..], provider, after, 0);
      PromptsAreBounded(items[..middle], provider, at + 1, 0);
      PromptsAreBounded(items[middle..], provider, after, 0);
      hide AttemptOf, Gave;
      if key in right.value {
        TextsAreTheProviders(items[middle..], provider, after, 0, key);
      } else {
        TextsAreTheProviders(items[..middle], provider, at + 1, 0, key);
      }
    case Rejected =>
      hide AttemptOf, Gave;
      TextsAreTheProviders(items, provider, at + 1, attempt + 1, key);
  }

  // Translating these items gave up at the prompt before number `next`: a single item timed out, or two
  // attempts in a row were rejected.
  predicate GaveUp(items: seq<Item>, provider: Provider, next: nat) {
    next > 0 &&
    match AttemptOf(items, provider(next - 1))
    case Translated(_) => false
    case TimedOut => |items| <= 1
    case Rejected => next > 1 && AttemptOf(items, provider(next - 2)).Rejected?
  }

  ghost predicate SomeStretchGaveUp(items: seq<Item>, provider: Provider, next: nat) {
    exists a, b | 0 <= a <= b <= |items| :: GaveUp(items[a..b], provider, next)
  }

  lemma StretchOfStretch(items: seq<Item>, from: nat, to: nat, provider: Provider, next: nat)
    requires from <= to <= |items| && SomeStretchGaveUp(items[from..to], provider, next)
    ensures SomeStretchGaveUp(items, provider, next)
  {
    hide GaveUp;
    var a, b :| 0 <= a <= b <= to - from && GaveUp(items[from..to][a..b], provider, next);
    SliceOfSlice(items, from, to, a, b);
    assert GaveUp(items[from + a..from + b], provider, next);
  }

  lemma WholeGaveUp(items: seq<Item>, provider: Provider, next: nat)
    requires GaveUp(items, provider, next)
    ensures SomeStretchGaveUp(items, provider, next)
  {
    hide GaveUp;
    assert items[0..|items|] == items;
  }

  // Without a result, the last prompt was one at which some stretch of the items was given up.
  lemma {:induction false} FailureMeaning(items: seq<Item>, provider: Provider, at: nat, attempt: nat)
    requires attempt < TRANSLATE_MAX_ATTEMPTS && Translation(items, provider, at, attempt).0.None?
    requires attempt > 0 ==> at > 0 && AttemptOf(items, provider(at - 1)).Rejected?
    ensures SomeStretchGaveUp(items, provider, Translation(items, provider, at, attempt).1)
    decreases |items|, TRANSLATE_MAX_ATTEMPTS - attempt
  {
    hide SomeStretchGaveUp, GaveUp;
    match AttemptOf(items, provider(at))
    case Translated(_) =>
    case TimedOut =>
      if |items| <= 1 {
        GivesUpNow(items, provider, at);
      } else {
        var middle := Midpoint(|items|);
        var (left, after) := Translation(items[..middle], provider, at + 1, 0);
        assert items[0..middle] == items[..middle] && items[middle..|items|] == items[middle..];
        if left.None? {
          FailureMeaning(items[..middle], provider, at + 1, 0);
          StretchOfStretch(items, 0, middle, provider, after);
        } else {
          FailureMeaning(items[middle..], provider, after, 0);
          StretchOfStretch(items, middle, |items|, provider, Translation(items[middle..], provider, after, 0).1);
        }
      }
    case Rejected =>
      if attempt + 1 < TRANSLATE_MAX_ATTEMPTS {
        FailureMeaning(items, provider, at + 1, attempt + 1);
      } else {
        GivesUpNow(items, provider, at);
      }
  }

  lemma GivesUpNow(items: seq<Item>, provider: Provider, at: nat)
    requires var a := AttemptOf(items, provider(at));
             || (a.Rejected? && at > 0 && AttemptOf(items, provider(at - 1)).Rejected?)
             || (a.TimedOut? && |items| <= 1)
    ensures SomeStretchGaveUp(items, provider, at + 1)
  {
    WholeGaveUp(items, provider, at + 1);
  }

  // When no key is repeated, every single item has its own placeholders.
  lemma DistinctKeysKeepPlaceholders(items: seq<Item>, m: map<Text, Text>, i: nat)
    requires IsTranslation(items, m) && i < |items|
    requires forall j, k | 0 <= j < k < |items| :: items[j].key != items[k].key
    ensures items[i].key in m && PlaceholderSet(m[items[i].key]) == PlaceholderSet(items[i].text)
  {
    SourceOfDistinct(items, i);
  }

  lemma {:induction false} SourceOfDistinct(items: seq<Item>, i: nat)
    requires i < |items|
    requires forall j, k | 0 <= j < k < |items| :: items[j].key != items[k].key
    ensures items[i].key in SourceFlat(items) && SourceFlat(items)[items[i].key] == items[i].text
  {
    var n := |items| - 1;
    if i < n {
      assert items[..n][i] == items[i];
      SourceOfDistinct(items[..n], i);
    }
  }

  // ---------- The bound is reached ----------

  // A reply that repeats the source of its one item.
  function Echo(item: Item): Outcome {
    Replied(Some(map[item.key := Str(item.text)]), false)
  }

  // The outcomes that cost the most prompts and still end in a translation.
  function Worst(items: seq<Item>): seq<Outcome>
    requires |items| >= 1
    decreases |items|
  {
    if |items| == 1 then [PromptFailed(false), Echo(items[0])]
    else
      var middle := Midpoint(|items|);
      [PromptFailed(false), PromptFailed(true)] + Worst(items[..middle]) + Worst(items[middle..])
  }

  ghost predicate Gives(provider: Provider, at: nat, outcomes: seq<Outcome>) {
    forall j | 0 <= j < |outcomes| :: provider(at + j) == outcomes[j]
  }

  lemma GivesSplit(provider: Provider, at: nat, a: seq<Outcome>, b: seq<Outcome>)
    requires Gives(provider, at, a + b)
    ensures Gives(provider, at, a) && Gives(provider, at + |a|, b)
  {
    forall j | 0 <= j < |a| ensures provider(at + j) == a[j] {
      assert (a + b)[j] == a[j];
    }
    forall j | 0 <= j < |b| ensures provider(at + |a| + j) == b[j] {
      assert provider(at + (|a| + j)) == (a + b)[|a| + j];
    }
  }

  lemma EchoIsTranslated(item: Item)
    requires !IsBlank(item.text)
    ensures AttemptOf([item], Echo(item)).Translated?
  {
    var reply := map[item.key := Str(item.text)];
    assert [item][..0] == [];
    assert SourceFlat([item]) == map[item.key := item.text];
    assert Usable([item], reply);
  }

  lemma EchoAfterFailure(items: seq<Item>, provider: Provider, at: nat)
    requires |items| == 1 && !IsBlank(items[0].text)
    requires provider(at) == PromptFailed(false) && provider(at + 1) == Echo(items[0])
    ensures Translation(items, provider, at, 0).0.Some? && Translation(items, provider, at, 0).1 == at + 2
  {
    assert items == [items[0]];
    EchoIsTranslated(items[0]);
    hide Echo, IsBlank;
    assert AttemptOf(items, provider(at + 1)).Translated?;
    assert AttemptOf(items, provider(at)) == Rejected;
    hide AttemptOf;
    assert Translation(items, provider, at, 0) == Translation(items, provider, at + 1, 1);
  }

  lemma SplitAfterFailure(items: seq<Item>, provider: Provider, at: nat, after: nat, end: nat)
    requires |items| > 1 && provider(at) == PromptFailed(false) && provider(at + 1) == PromptFailed(true)
    requires var left := Translation(items[..Midpoint(|items|)], provider, at + 2, 0); left.0.Some? && left.1 == after
    requires var right := Translation(items[Midpoint(|items|)..], provider, after, 0); right.0.Some? && right.1 == end
    ensures Translation(items, provider, at, 0).0.Some? && Translation(items, provider, at, 0).1 == end
  {
    assert AttemptOf(items, provider(at)) == Rejected;
    assert AttemptOf(items, provider(at + 1)) == TimedOut;
    hide AttemptOf;
    assert Translation(items, provider, at, 0) == Translation(items, provider, at + 1, 1);
  }

  lemma {:induction false} WorstCase(items: seq<Item>, provider: Provider, at: nat)
    requires |items| >= 1 && forall i | 0 <= i < |items| :: !IsBlank(items[i].text)
    requires Gives(provider, at, Worst(items))
    ensures |Worst(items)| == 4 * |items| - 2
    ensures Translation(items, provider, at, 0).0.Some?
    ensures Translation(items, provider, at, 0).1 == at + 4 * |items| - 2
    decreases |items|
  {
    hide Translation, Echo, IsBlank;
    assert provider(at + 0) == Worst(items)[0] && provider(at + 1) == Worst(items)[1];
    if |items| == 1 {
      EchoAfterFailure(items, provider, at);
    } else {
      var middle := Midpoint(|items|);
      var a, b := Worst(items[..middle]), Worst(items[middle..]);
      assert Worst(items) == [PromptFailed(false), PromptFailed(true)] + a + b;
      hide Worst, Gives;
      GivesSplit(provider, at, [PromptFailed(false), PromptFailed(true)] + a, b);
      GivesSplit(provider, at, [PromptFailed(false), PromptFailed(true)], a);
      WorstCase(items[..middle], provider, at + 2);
      WorstCase(items[middle..], provider, at + 2 + |a|);
      SplitAfterFailure(items, provider, at, at + 2 + |a|, at + 2 + |a| + |b|);
    }
  }
}
