// Building the iOS string catalog from the native inventory, the translation artifacts and the
// catalog that is already there.
module IosCatalog {
  import opened CodeUnits
  import opened Wrappers
  import opened Selection
  import opened SortedTexts

  const EN: Text := [101, 110]
  const NEW: Text := [110, 101, 119]
  const TRANSLATED: Text := [116, 114, 97, 110, 115, 108, 97, 116, 101, 100]

  datatype StringUnit = StringUnit(state: Option<Text>, value: Option<Text>)

  // By locale, and by catalog key. An absent object of the JSON file is an absent key here.
  type Localizations = map<Text, StringUnit>
  type Strings = map<Text, Localizations>

  datatype NativeEntry = NativeEntry(id: Text, source: Text, surface: Text, path: Text, kind: Text)
  datatype ArtifactEntry = ArtifactEntry(id: Text, source: Text, translated: Text)
  datatype Artifact = Artifact(locale: Text, entries: seq<ArtifactEntry>)

  // Which inventory entries the catalog lists, and how a text is written in it. Both are rules about
  // patterns; nothing below depends on what they say.
  datatype Rules = Rules(lists: NativeEntry -> bool, catalogValue: Text -> Text)

  datatype Contradiction = Contradiction(locale: Text, source: Text, translations: seq<Text>)

  // The keys are in the order in which the builder adds them.
  datatype Catalog = Catalog(keys: seq<Text>, strings: Strings)

  datatype Build = Build(catalog: Catalog, contradictions: seq<Contradiction>)

  // An inventory entry of the catalog, under its catalog key.
  datatype Listed = Listed(id: Text, source: Text)

  function ListedEntries(rules: Rules, entries: seq<NativeEntry>): seq<Listed> {
    if entries == [] then []
    else
      var e := entries[|entries| - 1];
      ListedEntries(rules, entries[..|entries| - 1])
      + (if rules.lists(e) then [Listed(e.id, rules.catalogValue(e.source))] else [])
  }

  function SourceList(listed: seq<Listed>): seq<Text> {
    seq(|listed|, i requires 0 <= i < |listed| => listed[i].source)
  }

  function Sources(listed: seq<Listed>): seq<Text> {
    SortDistinct(SourceList(listed))
  }

  // The translations that an artifact has for a catalog key, under one of the ids listed for the key.
  function ArtifactCandidates(
      rules: Rules, listed: seq<Listed>, entries: seq<ArtifactEntry>, source: Text): seq<Text>
  {
    if entries == [] then []
    else
      var e := entries[|entries| - 1];
      ArtifactCandidates(rules, listed, entries[..|entries| - 1], source)
      + (if rules.catalogValue(e.source) == source && Listed(e.id, source) in listed
         then [rules.catalogValue(e.translated)] else [])
  }

  // The last artifact of a locale wins.
  function Candidates(
      rules: Rules, listed: seq<Listed>, artifacts: seq<Artifact>, locale: Text, source: Text): seq<Text>
  {
    if artifacts == [] then []
    else
      var last := |artifacts| - 1;
      if artifacts[last].locale == locale then ArtifactCandidates(rules, listed, artifacts[last].entries, source)
      else Candidates(rules, listed, artifacts[..last], locale, source)
  }

  predicate IsShipped(unit: StringUnit) {
    unit.value.Some? && unit.value.value != [] && unit.state == Some(TRANSLATED)
  }

  function UnitOf(existing: Option<StringUnit>, locale: Text, source: Text, candidates: seq<Text>): StringUnit {
    if existing.Some? && IsShipped(existing.value) then existing.value
    else if locale == EN then StringUnit(Some(TRANSLATED), Some(source))
    else
      var value := Chosen(source, candidates);
      StringUnit(Some(if value == source then NEW else TRANSLATED), Some(value))
  }

  function Lookup(strings: Strings, source: Text, locale: Text): Option<StringUnit> {
    if source in strings && locale in strings[source] then Some(strings[source][locale]) else None
  }

  datatype Input = Input(rules: Rules, entries: seq<NativeEntry>, artifacts: seq<Artifact>, locales: seq<Text>) {
    function Listing(): seq<Listed> {
      ListedEntries(rules, entries)
    }

    function Keys(): seq<Text> {
      Sources(Listing())
    }

    function For(locale: Text, source: Text): seq<Text> {
      Candidates(rules, Listing(), artifacts, locale, source)
    }
  }

  function LocalizationsOf(existing: Strings, inp: Input, source: Text): Localizations {
    map locale | locale in inp.locales ::
      UnitOf(Lookup(existing, source, locale), locale, source, inp.For(locale, source))
  }

  function StringsOf(existing: Strings, inp: Input): Strings {
    map source | source in inp.Keys() :: LocalizationsOf(existing, inp, source)
  }

  // The contradictions of one source, in locale order.
  function SourceContradictions(inp: Input, locales: seq<Text>, source: Text): seq<Contradiction> {
    if locales == [] then []
    else
      var locale := locales[|locales| - 1];
      var distinct := SortDistinct(inp.For(locale, source));
      SourceContradictions(inp, locales[..|locales| - 1], source)
      + (if |distinct| > 1 then [Contradiction(locale, source, distinct)] else [])
  }

  function Contradictions(inp: Input, sources: seq<Text>): seq<Contradiction> {
    if sources == [] then []
    else
      Contradictions(inp, sources[..|sources| - 1])
      + SourceContradictions(inp, inp.locales, sources[|sources| - 1])
  }

  // The report comparator: by source, then by locale.
  predicate Comes(a: Contradiction, b: Contradiction) {
    Less(a.source, b.source) || (a.source == b.source && Less(a.locale, b.locale))
  }

  function Place(sorted: seq<Contradiction>, c: Contradiction): (r: seq<Contradiction>)
    ensures multiset(r) == multiset(sorted) + multiset{c}
  {
    if sorted == [] then [c]
    else
      assert sorted == [sorted[0]] + sorted[1..];
      if Comes(sorted[0], c) then [sorted[0]] + Place(sorted[1..], c)
      else [c] + sorted
  }

  function Report(found: seq<Contradiction>): (r: seq<Contradiction>)
    ensures multiset(r) == multiset(found)
  {
    if found == [] then []
    else
      assert found == [found[0]] + found[1..];
      Place(Report(found[1..]), found[0])
  }

  // The catalog and the report that the builder makes.
  function Built(existing: Strings, inp: Input): Build {
    Build(Catalog(inp.Keys(), StringsOf(existing, inp)), Report(Contradictions(inp, inp.Keys())))
  }

  lemma UnitIsFixed(existing: Option<StringUnit>, locale: Text, source: Text, candidates: seq<Text>)
    ensures var unit := UnitOf(existing, locale, source, candidates);
            UnitOf(Some(unit), locale, source, candidates) == unit
  {
    hide Chosen;
  }

  lemma LookupBuilt(existing: Strings, inp: Input, source: Text, locale: Text)
    requires source in inp.Keys() && locale in inp.locales
    ensures Lookup(StringsOf(existing, inp), source, locale)
         == Some(UnitOf(Lookup(existing, source, locale), locale, source, inp.For(locale, source)))
  {
    hide UnitOf, Lookup;
    assert LocalizationsOf(existing, inp, source)[locale]
        == UnitOf(Lookup(existing, source, locale), locale, source, inp.For(locale, source));
    LookupIs(StringsOf(existing, inp), source, locale);
  }

  lemma LookupIs(strings: Strings, source: Text, locale: Text)
    requires source in strings && locale in strings[source]
    ensures Lookup(strings, source, locale) == Some(strings[source][locale])
  {
  }

  lemma LocalizationsAreFixed(existing: Strings, inp: Input, source: Text)
    requires source in inp.Keys()
    ensures LocalizationsOf(StringsOf(existing, inp), inp, source) == LocalizationsOf(existing, inp, source)
  {
    hide UnitOf, Lookup, StringsOf;
    forall locale | locale in inp.locales
      ensures UnitOf(Lookup(StringsOf(existing, inp), source, locale), locale, source, inp.For(locale, source))
           == UnitOf(Lookup(existing, source, locale), locale, source, inp.For(locale, source))
    {
      LookupBuilt(existing, inp, source, locale);
      UnitIsFixed(Lookup(existing, source, locale), locale, source, inp.For(locale, source));
    }
  }

  // Building again from the built catalog changes neither the catalog nor the report.
  lemma BuildIsFixedPoint(existing: Strings, inp: Input)
    ensures Built(Built(existing, inp).catalog.strings, inp) == Built(existing, inp)
  {
    hide LocalizationsOf, Report, Contradictions;
    var built := StringsOf(existing, inp);
    forall source | source in inp.Keys()
      ensures LocalizationsOf(built, inp, source) == LocalizationsOf(existing, inp, source)
    {
      LocalizationsAreFixed(existing, inp, source);
    }
    assert StringsOf(built, inp) == built;
  }

  lemma {:induction false} ListingHas(rules: Rules, entries: seq<NativeEntry>, source: Text)
    ensures (exists l :: l in ListedEntries(rules, entries) && l.source == source)
       <==> (exists e :: e in entries && rules.lists(e) && rules.catalogValue(e.source) == source)
  {
    if entries != [] {
      var last := |entries| - 1;
      ListingHas(rules, entries[..last], source);
      var e := entries[last];
      assert entries == entries[..last] + [e];
      var before := ListedEntries(rules, entries[..last]);
      if rules.lists(e) {
        var l := Listed(e.id, rules.catalogValue(e.source));
        assert ListedEntries(rules, entries) == before + [l];
        assert forall x :: x in before + [l] <==> x in before || x == l;
      } else {
        assert ListedEntries(rules, entries) == before;
      }
    }
  }

  lemma {:induction false} ListingHasPair(rules: Rules, entries: seq<NativeEntry>, id: Text, source: Text)
    ensures Listed(id, source) in ListedEntries(rules, entries)
       <==> exists x :: x in entries && rules.lists(x) && x.id == id && rules.catalogValue(x.source) == source
  {
    if entries != [] {
      var last := |entries| - 1;
      ListingHasPair(rules, entries[..last], id, source);
      assert entries == entries[..last] + [entries[last]];
    }
  }

  // ---------- What the candidates are ----------

  // The artifact entry translates the source, under the id of a listed inventory entry for that source.
  ghost predicate Translates(inp: Input, e: ArtifactEntry, source: Text) {
    && inp.rules.catalogValue(e.source) == source
    && exists x :: x in inp.entries && inp.rules.lists(x) && x.id == e.id && inp.rules.catalogValue(x.source) == source
  }

  ghost predicate IsLastFor(artifacts: seq<Artifact>, locale: Text, a: nat) {
    && a < |artifacts| && artifacts[a].locale == locale
    && forall b | a < b < |artifacts| :: artifacts[b].locale != locale
  }

  ghost predicate TranslatesTo(inp: Input, e: ArtifactEntry, source: Text, v: Text) {
    Translates(inp, e, source) && inp.rules.catalogValue(e.translated) == v
  }

  // The first n entries that translate the source to v.
  ghost function TranslatingTo(inp: Input, entries: seq<ArtifactEntry>, n: nat, source: Text, v: Text): set<nat>
    requires n <= |entries|
  {
    set k: nat | k < n && TranslatesTo(inp, entries[k], source, v)
  }

  lemma {:induction false} CandidatesOfArtifact(
      inp: Input, entries: seq<ArtifactEntry>, n: nat, source: Text, v: Text)
    requires n <= |entries|
    ensures multiset(ArtifactCandidates(inp.rules, inp.Listing(), entries[..n], source))[v]
         == |TranslatingTo(inp, entries, n, source, v)|
    decreases n
  {
    if n == 0 {
      assert TranslatingTo(inp, entries, 0, source, v) == {};
    } else {
      CandidatesOfArtifact(inp, entries, n - 1, source, v);
      assert entries[..n][..n - 1] == entries[..n - 1];
      ListingHasPair(inp.rules, inp.entries, entries[n - 1].id, source);
      OneMoreTranslating(inp, entries, n, source, v);
      hide ListedEntries, TranslatingTo;
    }
  }

  lemma OneMoreTranslating(inp: Input, entries: seq<ArtifactEntry>, n: nat, source: Text, v: Text)
    requires 0 < n <= |entries|
    ensures |TranslatingTo(inp, entries, n, source, v)|
         == |TranslatingTo(inp, entries, n - 1, source, v)|
            + if TranslatesTo(inp, entries[n - 1], source, v) then 1 else 0
  {
    hide TranslatesTo;
    var before, now := TranslatingTo(inp, entries, n - 1, source, v), TranslatingTo(inp, entries, n, source, v);
    assert n - 1 !in before;
    if TranslatesTo(inp, entries[n - 1], source, v) {
      assert now == before + {n - 1};
    } else {
      assert now == before;
    }
  }

  lemma {:induction false} CandidatesOfLast(
      rules: Rules, listed: seq<Listed>, artifacts: seq<Artifact>, locale: Text, source: Text, a: nat)
    ensures IsLastFor(artifacts, locale, a) ==>
              Candidates(rules, listed, artifacts, locale, source)
              == ArtifactCandidates(rules, listed, artifacts[a].entries, source)
    ensures (forall b | 0 <= b < |artifacts| :: artifacts[b].locale != locale) ==>
              Candidates(rules, listed, artifacts, locale, source) == []
  {
    hide ArtifactCandidates;
    if artifacts != [] {
      var last := |artifacts| - 1;
      CandidatesOfLast(rules, listed, artifacts[..last], locale, source, a);
      assert IsLastFor(artifacts, locale, a) && a < last ==> IsLastFor(artifacts[..last], locale, a);
    }
  }

  // A text is a candidate as often as the last artifact of the locale has an entry that translates the
  // source to it.
  lemma CandidatesAreCounted(inp: Input, locale: Text, source: Text, v: Text, a: nat)
    requires IsLastFor(inp.artifacts, locale, a)
    ensures multiset(inp.For(locale, source))[v]
         == |TranslatingTo(inp, inp.artifacts[a].entries, |inp.artifacts[a].entries|, source, v)|
  {
    var entries := inp.artifacts[a].entries;
    CandidatesOfLast(inp.rules, inp.Listing(), inp.artifacts, locale, source, a);
    CandidatesOfArtifact(inp, entries, |entries|, source, v);
    assert entries[..|entries|] == entries;
    hide ListedEntries, Candidates, ArtifactCandidates, TranslatingTo;
  }

  lemma {:induction false} LastFor(artifacts: seq<Artifact>, locale: Text) returns (a: nat)
    requires exists b | 0 <= b < |artifacts| :: artifacts[b].locale == locale
    ensures IsLastFor(artifacts, locale, a)
  {
    var last := |artifacts| - 1;
    if artifacts[last].locale == locale {
      a := last;
    } else {
      var b :| 0 <= b < |artifacts| && artifacts[b].locale == locale;
      assert artifacts[..last][b].locale == locale;
      a := LastFor(artifacts[..last], locale);
      assert artifacts[..last][a] == artifacts[a];
      assert forall c | a < c < last :: artifacts[..last][c] == artifacts[c];
    }
  }

  // Which texts are candidates: those that the last artifact of the locale gives for the source, under an
  // id that the inventory lists for the source.
  lemma CandidateMeaning(inp: Input, locale: Text, source: Text, v: Text)
    ensures v in inp.For(locale, source)
       <==> exists a: nat, e :: IsLastFor(inp.artifacts, locale, a) && e in inp.artifacts[a].entries
                           && Translates(inp, e, source) && v == inp.rules.catalogValue(e.translated)
  {
    hide Translates;
    if exists b | 0 <= b < |inp.artifacts| :: inp.artifacts[b].locale == locale {
      var a := LastFor(inp.artifacts, locale);
      CandidatesAreCounted(inp, locale, source, v, a);
      TranslatingMembers(inp, inp.artifacts[a].entries, source, v);
      assert v in inp.For(locale, source) <==> v in multiset(inp.For(locale, source));
      hide ListedEntries, Candidates, TranslatingTo;
      assert forall b: nat :: IsLastFor(inp.artifacts, locale, b) ==> b == a;
    } else {
      CandidatesOfLast(inp.rules, inp.Listing(), inp.artifacts, locale, source, 0);
    }
  }

  lemma TranslatingMembers(inp: Input, entries: seq<ArtifactEntry>, source: Text, v: Text)
    ensures |TranslatingTo(inp, entries, |entries|, source, v)| > 0
       <==> exists e :: e in entries && Translates(inp, e, source) && v == inp.rules.catalogValue(e.translated)
  {
    hide Translates;
    var those := TranslatingTo(inp, entries, |entries|, source, v);
    if |those| > 0 {
      var k :| k in those;
      assert entries[k] in entries;
    }
    if e :| e in entries && Translates(inp, e, source) && v == inp.rules.catalogValue(e.translated) {
      var k :| 0 <= k < |entries| && entries[k] == e;
      assert k in those;
    }
  }

  lemma KeysHave(listed: seq<Listed>, source: Text)
    ensures source in Sources(listed) <==> exists l :: l in listed && l.source == source
  {
    var list := SourceList(listed);
    if source in list {
      var i :| 0 <= i < |list| && list[i] == source;
      assert listed[i] in listed;
    }
    if l :| l in listed && l.source == source {
      var i :| 0 <= i < |listed| && listed[i] == l;
      assert list[i] == source;
    }
  }

  // The catalog has, in increasing order, exactly the keys of the listed entries, and each of them has
  // exactly the required locales.
  lemma CatalogIsComplete(existing: Strings, inp: Input, source: Text)
    ensures var catalog := Built(existing, inp).catalog;
            && Increasing(catalog.keys)
            && (source in catalog.keys <==> source in catalog.strings)
            && (source in catalog.keys <==>
                exists e :: e in inp.entries && inp.rules.lists(e) && inp.rules.catalogValue(e.source) == source)
            && (source in catalog.strings ==>
                forall locale :: locale in catalog.strings[source] <==> locale in inp.locales)
  {
    hide SortDistinct, ListedEntries, UnitOf, Lookup, Report, Contradictions;
    SortDistinctIncreases(SourceList(inp.Listing()));
    KeysHave(inp.Listing(), source);
    ListingHas(inp.rules, inp.entries, source);
  }

  // What each unit of the built catalog holds. A shipped translation is never replaced; a unit is
  // marked new only where no candidate differs from the source.
  lemma UnitMeaning(existing: Strings, inp: Input, source: Text, locale: Text)
    requires source in inp.Keys() && locale in inp.locales
    ensures var before := Lookup(existing, source, locale);
            var after := Lookup(Built(existing, inp).catalog.strings, source, locale);
            var candidates := inp.For(locale, source);
            && after.Some? && after.value.value.Some?
            && (before.Some? && IsShipped(before.value) ==> after == before)
            && (!(before.Some? && IsShipped(before.value)) ==>
                && (locale == EN ==> after.value == StringUnit(Some(TRANSLATED), Some(source)))
                && (locale != EN && candidates != [] ==> IsChoice(source, candidates, after.value.value.value))
                && (locale != EN && candidates == [] ==> after.value.value.value == source)
                && (after.value.state == Some(NEW) <==>
                    locale != EN && forall c | c in candidates :: c == source))
  {
    hide StringsOf, Choice, IsChoice, Report, Contradictions, Lookup;
    LookupBuilt(existing, inp, source, locale);
    var candidates := inp.For(locale, source);
    if candidates != [] {
      var value := Choice(source, candidates);
      ChoiceMeaning(source, candidates, value);
      ChoiceIsSource(source, candidates, value);
    }
  }

  lemma ChoiceIsSource(source: Text, candidates: seq<Text>, value: Text)
    requires IsChoice(source, candidates, value)
    ensures value == source <==> forall c | c in candidates :: c == source
  {
    hide RanksBefore;
  }

  // The report.

  lemma ComesIsOrder(a: Contradiction, b: Contradiction, c: Contradiction)
    ensures !(Comes(a, b) && Comes(b, a))
    ensures Comes(a, b) && Comes(b, c) ==> Comes(a, c)
    ensures a.source != b.source || a.locale != b.locale ==> Comes(a, b) || Comes(b, a)
  {
    LessTotal(a.source, b.source);
    LessTotal(a.locale, b.locale);
    if Less(a.source, b.source) && Less(b.source, c.source) {
      LessTransitive(a.source, b.source, c.source);
    }
    if Less(a.locale, b.locale) && Less(b.locale, c.locale) {
      LessTransitive(a.locale, b.locale, c.locale);
    }
  }

  // No member comes after a later one.
  predicate InOrder(s: seq<Contradiction>) {
    s != [] ==> (forall x | x in s[1..] :: !Comes(x, s[0])) && InOrder(s[1..])
  }

  lemma PlaceMembers(sorted: seq<Contradiction>, c: Contradiction, x: Contradiction)
    ensures x in Place(sorted, c) <==> x in sorted || x == c
  {
    assert x in Place(sorted, c) <==> x in multiset(Place(sorted, c));
    assert x in sorted <==> x in multiset(sorted);
  }

  lemma {:induction false} PlaceKeepsOrder(sorted: seq<Contradiction>, c: Contradiction)
    requires InOrder(sorted)
    ensures InOrder(Place(sorted, c))
  {
    hide Comes;
    if sorted != [] {
      var head, rest := sorted[0], sorted[1..];
      if Comes(head, c) {
        PlaceKeepsOrder(rest, c);
        assert ([head] + Place(rest, c))[1..] == Place(rest, c);
        forall x | x in Place(rest, c) ensures !Comes(x, head) {
          PlaceMembers(rest, c, x);
          ComesIsOrder(head, c, head);
        }
      } else {
        assert ([c] + sorted)[1..] == sorted;
        forall x | x in sorted ensures !Comes(x, c) {
          NotBefore(head, x, c);
        }
      }
    }
  }

  lemma NotBefore(head: Contradiction, x: Contradiction, c: Contradiction)
    requires !Comes(x, head) || x == head
    requires !Comes(head, c)
    ensures !Comes(x, c)
  {
    ComesIsOrder(x, head, c);
    ComesIsOrder(head, x, c);
    ComesIsOrder(x, c, head);
  }

  lemma {:induction false} ReportInOrder(found: seq<Contradiction>)
    ensures InOrder(Report(found))
  {
    if found != [] {
      ReportInOrder(found[1..]);
      PlaceKeepsOrder(Report(found[1..]), found[0]);
    }
  }

  lemma {:induction false} SourceContradictionsAre(
      inp: Input, locales: seq<Text>, source: Text, c: Contradiction)
    ensures c in SourceContradictions(inp, locales, source)
       <==> c.locale in locales && c.source == source
            && c.translations == SortDistinct(inp.For(c.locale, source)) && |c.translations| > 1
  {
    if locales != [] {
      var last := |locales| - 1;
      SourceContradictionsAre(inp, locales[..last], source, c);
      assert locales == locales[..last] + [locales[last]];
    }
  }

  lemma {:induction false} ContradictionsAre(inp: Input, sources: seq<Text>, c: Contradiction)
    ensures c in Contradictions(inp, sources)
       <==> c.source in sources && c in SourceContradictions(inp, inp.locales, c.source)
  {
    hide SourceContradictions, SortDistinct;
    if sources != [] {
      var last := |sources| - 1;
      ContradictionsAre(inp, sources[..last], c);
      SourceContradictionsAre(inp, inp.locales, sources[last], c);
      SourceContradictionsAre(inp, inp.locales, c.source, c);
      assert sources == sources[..last] + [sources[last]];
    }
  }

  lemma DistinctValues(values: seq<Text>)
    ensures |SortDistinct(values)| > 1 <==> exists a, b :: a in values && b in values && a != b
  {
    var sorted := SortDistinct(values);
    SortDistinctIncreases(values);
    if |sorted| > 1 {
      assert sorted[1] in sorted[1..];
      LessTotal(sorted[0], sorted[1]);
      assert sorted[0] in values && sorted[1] in values;
    }
    if a, b :| a in values && b in values && a != b {
      assert a in sorted && b in sorted;
    }
  }

  // The report names a key and a locale exactly when the artifacts give at least two different
  // translations there, and then it lists them all once each in increasing order.
  lemma ReportMeaning(existing: Strings, inp: Input, c: Contradiction)
    ensures var report := Built(existing, inp).contradictions;
            && InOrder(report)
            && (c in report <==>
                && c.source in inp.Keys() && c.locale in inp.locales
                && (exists a, b :: a in inp.For(c.locale, c.source) && b in inp.For(c.locale, c.source) && a != b)
                && Increasing(c.translations)
                && forall t :: t in c.translations <==> t in inp.For(c.locale, c.source))
  {
    hide SortDistinct, Report, StringsOf, Contradictions, Candidates, InOrder, Increasing;
    var found := Contradictions(inp, inp.Keys());
    var values := inp.For(c.locale, c.source);
    ReportInOrder(found);
    assert c in Report(found) <==> c in multiset(Report(found));
    assert c in found <==> c in multiset(found);
    ContradictionsAre(inp, inp.Keys(), c);
    SourceContradictionsAre(inp, inp.locales, c.source, c);
    DistinctValues(values);
    SortDistinctIncreases(values);
    if Increasing(c.translations) && forall t :: t in c.translations <==> t in values {
      IncreasingIsUnique(c.translations, SortDistinct(values));
    }
  }

  // The builder.

  predicate HasId(ids: map<Text, set<Text>>, source: Text, id: Text) {
    source in ids && id in ids[source]
  }

  method AppleIdsBySource(listed: seq<Listed>) returns (ids: map<Text, set<Text>>)
    ensures forall source, id :: HasId(ids, source, id) <==> Listed(id, source) in listed
    ensures forall source :: source in ids <==> source in Sources(listed)
  {
    hide SortDistinct;
    ids := map[];
    for i := 0 to |listed|
      invariant forall source, id :: HasId(ids, source, id) <==> Listed(id, source) in listed[..i]
      invariant forall source :: source in ids <==> source in SourceList(listed)[..i]
    {
      var l := listed[i];
      var known := if l.source in ids then ids[l.source] else {};
      ids := ids[l.source := known + {l.id}];
      assert listed[..i + 1] == listed[..i] + [l];
      assert SourceList(listed)[..i + 1] == SourceList(listed)[..i] + [l.source];
    }
    assert listed[..|listed|] == listed;
    assert SourceList(listed)[..|listed|] == SourceList(listed);
  }

  function ValuesIn(bySource: map<Text, seq<Text>>, source: Text): seq<Text> {
    if source in bySource then bySource[source] else []
  }

  ghost predicate HoldsCandidates(
      bySource: map<Text, seq<Text>>, rules: Rules, listed: seq<Listed>, entries: seq<ArtifactEntry>)
  {
    forall source :: ValuesIn(bySource, source) == ArtifactCandidates(rules, listed, entries, source)
  }

  predicate IsWanted(rules: Rules, listed: seq<Listed>, e: ArtifactEntry) {
    Listed(e.id, rules.catalogValue(e.source)) in listed
  }

  lemma OneMoreEntry(
      bySource: map<Text, seq<Text>>, rules: Rules, listed: seq<Listed>, entries: seq<ArtifactEntry>, e: ArtifactEntry)
    requires HoldsCandidates(bySource, rules, listed, entries)
    ensures var source := rules.catalogValue(e.source);
            var values := ValuesIn(bySource, source) + [rules.catalogValue(e.translated)];
            HoldsCandidates(if IsWanted(rules, listed, e) then bySource[source := values] else bySource,
                            rules, listed, entries + [e])
  {
    assert (entries + [e])[..|entries|] == entries;
    forall source
      ensures ArtifactCandidates(rules, listed, entries + [e], source)
           == ArtifactCandidates(rules, listed, entries, source)
              + (if rules.catalogValue(e.source) == source && IsWanted(rules, listed, e)
                 then [rules.catalogValue(e.translated)] else [])
    {
    }
    hide ArtifactCandidates;
  }

  method CollectTranslations(
      rules: Rules, listed: seq<Listed>, sources: seq<Text>, ids: map<Text, set<Text>>, entries: seq<ArtifactEntry>)
    returns (bySource: map<Text, seq<Text>>)
    requires forall source, id :: HasId(ids, source, id) <==> Listed(id, source) in listed
    requires forall source :: source in ids <==> source in sources
    ensures HoldsCandidates(bySource, rules, listed, entries)
  {
    hide ArtifactCandidates, HoldsCandidates;
    bySource := map[];
    NoEntries(rules, listed);
    assert entries[..0] == [];
    for i := 0 to |entries|
      invariant HoldsCandidates(bySource, rules, listed, entries[..i])
    {
      var entry := entries[i];
      OneMoreEntry(bySource, rules, listed, entries[..i], entry);
      assert entries[..i + 1] == entries[..i] + [entry];
      var source := rules.catalogValue(entry.source);
      assert HasId(ids, source, entry.id) <==> IsWanted(rules, listed, entry);
      if source !in sources {
        continue;
      }
      if source in ids && entry.id !in ids[source] {
        continue;
      }
      var values := if source in bySource then bySource[source] else [];
      bySource := bySource[source := values + [rules.catalogValue(entry.translated)]];
    }
    assert entries[..|entries|] == entries;
  }

  lemma NoEntries(rules: Rules, listed: seq<Listed>)
    ensures HoldsCandidates(map[], rules, listed, [])
  {
  }

  function ValuesFor(byLocale: map<Text, map<Text, seq<Text>>>, locale: Text, source: Text): seq<Text> {
    if locale in byLocale then ValuesIn(byLocale[locale], source) else []
  }

  method TranslationsByLocale(
      rules: Rules, listed: seq<Listed>, sources: seq<Text>, ids: map<Text, set<Text>>, artifacts: seq<Artifact>)
    returns (byLocale: map<Text, map<Text, seq<Text>>>)
    requires forall source, id :: HasId(ids, source, id) <==> Listed(id, source) in listed
    requires forall source :: source in ids <==> source in sources
    ensures forall locale, source ::
              ValuesFor(byLocale, locale, source) == Candidates(rules, listed, artifacts, locale, source)
  {
    hide ArtifactCandidates, ValuesIn;
    byLocale := map[];
    for i := 0 to |artifacts|
      invariant forall locale, source ::
        ValuesFor(byLocale, locale, source) == Candidates(rules, listed, artifacts[..i], locale, source)
    {
      assert artifacts[..i + 1][..i] == artifacts[..i];
      var bySource := CollectTranslations(rules, listed, sources, ids, artifacts[i].entries);
      byLocale := byLocale[artifacts[i].locale := bySource];
    }
    assert artifacts[..|artifacts|] == artifacts;
  }

  method BuildUnit(existing: Option<StringUnit>, locale: Text, source: Text, candidates: seq<Text>)
    returns (unit: StringUnit)
    ensures unit == UnitOf(existing, locale, source, candidates)
  {
    if existing.Some? && existing.value.value.Some? && existing.value.value.value != []
       && existing.value.state == Some(TRANSLATED) {
      return existing.value;
    }
    if locale == EN {
      return StringUnit(Some(TRANSLATED), Some(source));
    }
    var value := ChooseTranslation(source, candidates);
    unit := StringUnit(Some(if value == source then NEW else TRANSLATED), Some(value));
  }

  ghost predicate HoldsUnits(
      localizations: Localizations, existing: Strings, inp: Input, locales: seq<Text>, source: Text)
  {
    localizations == map locale | locale in locales ::
                       UnitOf(Lookup(existing, source, locale), locale, source, inp.For(locale, source))
  }

  lemma OneMoreUnit(
      before: Localizations, existing: Strings, inp: Input, locales: seq<Text>, locale: Text, source: Text,
      unit: StringUnit)
    requires HoldsUnits(before, existing, inp, locales, source)
    requires unit == UnitOf(Lookup(existing, source, locale), locale, source, inp.For(locale, source))
    ensures HoldsUnits(before[locale := unit], existing, inp, locales + [locale], source)
  {
    hide UnitOf, Lookup;
    assert forall l :: l in locales + [locale] <==> l in locales || l == locale;
  }

  method LocalizeSource(
      existing: Strings, inp: Input, byLocale: map<Text, map<Text, seq<Text>>>, source: Text)
    returns (localizations: Localizations, found: seq<Contradiction>)
    requires forall locale :: ValuesFor(byLocale, locale, source) == inp.For(locale, source)
    ensures localizations == LocalizationsOf(existing, inp, source)
    ensures found == SourceContradictions(inp, inp.locales, source)
  {
    hide SortDistinct, UnitOf, Lookup, HoldsUnits, ValuesFor;
    localizations, found := map[], [];
    NoUnits(existing, inp, source);
    for i := 0 to |inp.locales|
      invariant HoldsUnits(localizations, existing, inp, inp.locales[..i], source)
      invariant found == SourceContradictions(inp, inp.locales[..i], source)
    {
      var locale := inp.locales[i];
      assert inp.locales[..i + 1][..i] == inp.locales[..i];
      var candidates := ValuesFor(byLocale, locale, source);
      var distinct := SortDistinct(candidates);
      if |distinct| > 1 {
        found := found + [Contradiction(locale, source, distinct)];
      }
      var unit := BuildUnit(Lookup(existing, source, locale), locale, source, candidates);
      OneMoreUnit(localizations, existing, inp, inp.locales[..i], locale, source, unit);
      assert inp.locales[..i + 1] == inp.locales[..i] + [locale];
      localizations := localizations[locale := unit];
    }
    assert inp.locales[..|inp.locales|] == inp.locales;
    AllUnits(localizations, existing, inp, source);
  }

  lemma NoUnits(existing: Strings, inp: Input, source: Text)
    ensures HoldsUnits(map[], existing, inp, inp.locales[..0], source)
  {
  }

  lemma AllUnits(localizations: Localizations, existing: Strings, inp: Input, source: Text)
    requires HoldsUnits(localizations, existing, inp, inp.locales, source)
    ensures localizations == LocalizationsOf(existing, inp, source)
  {
    hide UnitOf, Lookup;
  }

  method BuildIosCatalog(existing: Strings, inp: Input) returns (build: Build)
    ensures build == Built(existing, inp)
  {
    hide SortDistinct, LocalizationsOf, SourceContradictions, Report;
    var listed := ListedEntries(inp.rules, inp.entries);
    var sources := Sources(listed);
    var ids := AppleIdsBySource(listed);
    var byLocale := TranslationsByLocale(inp.rules, listed, sources, ids, inp.artifacts);
    var strings: Strings, found := map[], [];
    for i := 0 to |sources|
      invariant strings == map source | source in sources[..i] :: LocalizationsOf(existing, inp, source)
      invariant found == Contradictions(inp, sources[..i])
    {
      var source := sources[i];
      assert sources[..i + 1][..i] == sources[..i];
      assert sources[..i + 1] == sources[..i] + [source];
      var localizations, more := LocalizeSource(existing, inp, byLocale, source);
      found := found + more;
      strings := strings[source := localizations];
    }
    assert sources[..|sources|] == sources;
    build := Build(Catalog(sources, strings), Report(found));
  }
}
