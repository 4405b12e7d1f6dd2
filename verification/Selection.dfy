// Choosing one translation among several candidates for the same source text. The Android and the
// Apple scripts each have a selector of their own; both turn out to compute the same choice.
module Selection {
  import opened CodeUnits
  import opened Wrappers
  import opened Occurrences

  // r is a most frequent candidate other than the source, the smallest one on ties; it is the source
  // only when no other candidate exists.
  ghost predicate IsChoice(source: Text, values: seq<Text>, r: Text) {
    && r in values
    && (r == source ==> forall v | v in values :: v == source)
    && forall v | v in values && v != source && v != r :: RanksBefore(values, r, v)
  }

  // More frequent, or as frequent and smaller by code units.
  predicate RanksBefore(values: seq<Text>, a: Text, b: Text) {
    Count(values, a) > Count(values, b) || (Count(values, a) == Count(values, b) && Less(a, b))
  }

  lemma RankIsOrder(values: seq<Text>, a: Text, b: Text, c: Text)
    ensures !(RanksBefore(values, a, b) && RanksBefore(values, b, a))
    ensures a != b ==> RanksBefore(values, a, b) || RanksBefore(values, b, a)
    ensures RanksBefore(values, a, b) && RanksBefore(values, b, c) ==> RanksBefore(values, a, c)
  {
    hide Count;
    LessTotal(a, b);
    if Less(a, b) && Less(b, c) {
      LessTransitive(a, b, c);
    }
  }

  // The choice is determined by the candidates.
  lemma ChoiceIsUnique(source: Text, values: seq<Text>, a: Text, b: Text)
    requires IsChoice(source, values, a) && IsChoice(source, values, b)
    ensures a == b
  {
    hide RanksBefore, Less, Count;
    RankIsOrder(values, a, b, a);
  }

  // The better of two candidates, as the Apple comparator ranks them.
  predicate Beats(source: Text, values: seq<Text>, a: Text, b: Text) {
    if (a == source) != (b == source) then b == source else RanksBefore(values, a, b)
  }

  function Best(source: Text, values: seq<Text>, among: seq<Text>): Text
    requires among != []
  {
    if |among| == 1 then among[0]
    else
      var rest := Best(source, values, among[1..]);
      if Beats(source, values, among[0], rest) then among[0] else rest
  }

  function Choice(source: Text, values: seq<Text>): Text
    requires values != []
  {
    Best(source, values, values)
  }

  lemma BeatsIsOrder(source: Text, values: seq<Text>, a: Text, b: Text, c: Text)
    ensures a != b ==> Beats(source, values, a, b) || Beats(source, values, b, a)
    ensures Beats(source, values, a, b) && Beats(source, values, b, c) ==> Beats(source, values, a, c)
  {
    hide RanksBefore;
    RankIsOrder(values, a, b, c);
  }

  lemma {:induction false} BestBeats(source: Text, values: seq<Text>, among: seq<Text>)
    requires among != []
    ensures var r := Best(source, values, among);
            r in among && forall v | v in among && v != r :: Beats(source, values, r, v)
  {
    hide Beats;
    if |among| > 1 {
      BestBeats(source, values, among[1..]);
      var rest := Best(source, values, among[1..]);
      var r := Best(source, values, among);
      BeatsIsOrder(source, values, among[0], rest, rest);
      forall v | v in among && v != r ensures Beats(source, values, r, v) {
        BeatsIsOrder(source, values, among[0], rest, v);
        assert v == among[0] || v in among[1..];
      }
    }
  }

  lemma BestIsChoice(source: Text, values: seq<Text>, r: Text)
    requires r in values && forall v | v in values && v != r :: Beats(source, values, r, v)
    ensures IsChoice(source, values, r)
  {
  }

  // What the Android and the Apple selector are to return. They differ on an empty list only.
  function Selected(source: Text, values: seq<Text>): Text {
    if values == [] then [] else Choice(source, values)
  }

  function Chosen(source: Text, values: seq<Text>): Text {
    if values == [] then source else Choice(source, values)
  }

  // Every non-empty list of candidates has exactly one choice, and it depends only on which
  // candidates there are and how often each occurs.
  lemma ChoiceMeaning(source: Text, values: seq<Text>, r: Text)
    requires values != []
    ensures IsChoice(source, values, r) <==> r == Choice(source, values)
  {
    hide Best, Beats;
    BestBeats(source, values, values);
    BestIsChoice(source, values, Choice(source, values));
    if IsChoice(source, values, r) {
      ChoiceIsUnique(source, values, r, Choice(source, values));
    }
  }

  lemma ChoiceIgnoresOrder(source: Text, values: seq<Text>, others: seq<Text>)
    requires values != [] && multiset(values) == multiset(others)
    ensures others != [] && Choice(source, values) == Choice(source, others)
  {
    hide Choice, Count, Less;
    assert values[0] in multiset(values);
    var r := Choice(source, values);
    ChoiceMeaning(source, values, r);
    forall v ensures (v in values <==> v in others) && Count(values, v) == Count(others, v) {
      CountIsMultiplicity(values, v);
      CountIsMultiplicity(others, v);
      assert v in multiset(values) <==> v in values;
      assert v in multiset(others) <==> v in others;
    }
    assert IsChoice(source, others, r);
    ChoiceMeaning(source, others, r);
  }

  // The first entry of a count table sorted by a comparator. `penalized` is the text that the Apple
  // comparator puts last; the Android one has none.
  predicate Precedes(penalized: Option<Text>, counts: map<Text, nat>, a: Text, b: Text)
    requires a in counts && b in counts
  {
    if (Some(a) == penalized) != (Some(b) == penalized) then Some(b) == penalized
    else counts[a] > counts[b] || (counts[a] == counts[b] && Less(a, b))
  }

  lemma PrecedesIsOrder(penalized: Option<Text>, counts: map<Text, nat>, a: Text, b: Text, c: Text)
    requires a in counts && b in counts && c in counts
    ensures a != b ==> Precedes(penalized, counts, a, b) || Precedes(penalized, counts, b, a)
    ensures Precedes(penalized, counts, a, b) && Precedes(penalized, counts, b, c) ==> Precedes(penalized, counts, a, c)
  {
    LessTotal(a, b);
    if Less(a, b) && Less(b, c) {
      LessTransitive(a, b, c);
    }
  }

  method FirstOfSorted(penalized: Option<Text>, counts: map<Text, nat>) returns (first: Option<Text>)
    ensures first.None? <==> counts == map[]
    ensures first.Some? ==> first.value in counts
    ensures first.Some? ==>
              forall v | v in counts && v != first.value :: Precedes(penalized, counts, first.value, v)
  {
    hide Precedes;
    var entries := counts.Keys;
    first := None;
    while entries != {}
      invariant entries <= counts.Keys
      invariant first.None? <==> entries == counts.Keys
      invariant first.Some? ==> first.value in counts && first.value !in entries
      invariant first.Some? ==> forall v | v in counts && v !in entries && v != first.value ::
                                   Precedes(penalized, counts, first.value, v)
      decreases entries
    {
      var entry :| entry in entries;
      ghost var before := first;
      if first.None? || Precedes(penalized, counts, entry, first.value) {
        first := Some(entry);
      }
      forall v | v in counts && (v !in entries || v == entry) && v != first.value
        ensures Precedes(penalized, counts, first.value, v)
      {
        if before.Some? {
          PrecedesIsOrder(penalized, counts, before.value, entry, entry);
          PrecedesIsOrder(penalized, counts, first.value, before.value, v);
        }
      }
      entries := entries - {entry};
    }
  }

  // The candidates that differ from the source.
  function Translated(source: Text, values: seq<Text>): seq<Text> {
    if values == [] then []
    else
      var last := |values| - 1;
      Translated(source, values[..last]) + (if values[last] != source then [values[last]] else [])
  }

  lemma {:induction false} TranslatedCounts(source: Text, values: seq<Text>, v: Text)
    ensures Count(Translated(source, values), v) == if v == source then 0 else Count(values, v)
  {
    if values != [] {
      var last := |values| - 1;
      TranslatedCounts(source, values[..last], v);
      var before, now := Translated(source, values[..last]), Translated(source, values);
      if values[last] != source {
        assert now[..|now| - 1] == before;
      } else {
        assert now == before;
      }
    }
  }

  lemma TranslatedMembers(source: Text, values: seq<Text>, v: Text)
    ensures v in Translated(source, values) <==> v in values && v != source
  {
    TranslatedCounts(source, values, v);
    PositiveCount(values, v);
    PositiveCount(Translated(source, values), v);
  }

  method FilterTranslated(source: Text, values: seq<Text>) returns (translated: seq<Text>)
    ensures translated == Translated(source, values)
  {
    translated := [];
    for i := 0 to |values|
      invariant translated == Translated(source, values[..i])
    {
      assert values[..i + 1][..i] == values[..i];
      if values[i] != source {
        translated := translated + [values[i]];
      }
    }
    assert values[..|values|] == values;
  }

  lemma AndroidFirstIsChoice(source: Text, values: seq<Text>, candidates: seq<Text>, first: Text)
    requires candidates == if Translated(source, values) != [] then Translated(source, values) else values
    requires first in Counts(candidates)
    requires forall v | v in candidates && v != first :: Precedes(None, Counts(candidates), first, v)
    ensures IsChoice(source, values, first)
  {
    hide Count, Less, Translated;
    forall v
      ensures v in Translated(source, values) <==> v in values && v != source
      ensures Count(Translated(source, values), v) == if v == source then 0 else Count(values, v)
    {
      TranslatedMembers(source, values, v);
      TranslatedCounts(source, values, v);
    }
    forall v | v in values && v != source && v != first ensures RanksBefore(values, first, v) {
      assert v in Translated(source, values);
      assert Precedes(None, Counts(candidates), first, v);
    }
  }

  // The Android selector: the candidates that differ from the source, or all of them when none does.
  method SelectDeterministicTranslation(source: Text, values: seq<Text>) returns (r: Text)
    ensures r == Selected(source, values)
  {
    hide Choice, Precedes, IsChoice;
    var translated := FilterTranslated(source, values);
    var candidates := if |translated| > 0 then translated else values;
    var counts := TokenCounts(candidates);
    var first := FirstOfSorted(None, counts);
    r := if first.Some? then first.value else [];
    if candidates != [] {
      assert candidates[0] in counts;
      AndroidFirstIsChoice(source, values, candidates, r);
      ChoiceMeaning(source, values, r);
    }
  }

  lemma AppleFirstIsChoice(source: Text, values: seq<Text>, first: Text)
    requires first in Counts(values)
    requires forall v | v in values && v != first :: Precedes(Some(source), Counts(values), first, v)
    ensures IsChoice(source, values, first)
  {
    hide Count, Less;
    forall v | v in values && v != first ensures Beats(source, values, first, v) {
      assert Precedes(Some(source), Counts(values), first, v);
    }
    BestIsChoice(source, values, first);
  }

  // The Apple selector: all candidates, with the source ranked last.
  method ChooseTranslation(source: Text, translations: seq<Text>) returns (r: Text)
    ensures r == Chosen(source, translations)
  {
    hide Choice, Precedes, IsChoice;
    var counts := TokenCounts(translations);
    var first := FirstOfSorted(Some(source), counts);
    r := if first.Some? then first.value else source;
    if translations != [] {
      assert translations[0] in counts;
      AppleFirstIsChoice(source, translations, r);
      ChoiceMeaning(source, translations, r);
    }
  }

  // The selectors agree except on an empty list, unless the source is itself empty.
  lemma SelectorsAgree(source: Text, values: seq<Text>)
    ensures Selected(source, values) == Chosen(source, values) <==> values != [] || source == []
  {
  }

  // The guard that throws "kept the source despite a translated candidate" never fires.
  lemma TranslationIsNeverDropped(source: Text, values: seq<Text>)
    ensures !(Selected(source, values) == source && exists v :: v in values && v != source)
  {
    if values != [] {
      ChoiceMeaning(source, values, Choice(source, values));
    }
  }
}
