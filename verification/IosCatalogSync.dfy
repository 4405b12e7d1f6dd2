// The commands around the catalog builder: write the generated files, or check that they are up to date.
module IosCatalogSync {
  import opened CodeUnits
  import opened Wrappers
  import opened IosCatalog
  import opened Selection

  // The text forms of the two files. Reading a catalog can fail.
  datatype Codec = Codec(
    parse: Text -> Option<Strings>,
    serialize: Catalog -> Text,
    serializeReport: seq<Contradiction> -> Text)
  {
    // Reading back a catalog that was written gives its strings.
    ghost predicate ReadsBack() {
      forall catalog: Catalog | HasItsKeys(catalog) :: parse(serialize(catalog)) == Some(catalog.strings)
    }
  }

  ghost predicate HasItsKeys(catalog: Catalog) {
    forall key :: key in catalog.keys <==> key in catalog.strings
  }

  datatype Disk = Disk(catalog: Text, report: Option<Text>)

  datatype SyncError = Unreadable | StaleCatalog | StaleReport

  function Synced(codec: Codec, inp: Input, disk: Disk, write: bool): (Result<Build, SyncError>, Disk) {
    var existing := codec.parse(disk.catalog);
    if existing.None? then (Err(Unreadable), disk)
    else
      var build := Built(existing.value, inp);
      var expected := Disk(codec.serialize(build.catalog), Some(codec.serializeReport(build.contradictions)));
      if write then (Ok(build), expected)
      else if disk.catalog != expected.catalog then (Err(StaleCatalog), disk)
      else if disk.report != expected.report then (Err(StaleReport), disk)
      else (Ok(build), disk)
  }

  class Files {
    var catalog: Text
    var report: Option<Text>

    function OnDisk(): Disk
      reads this
    {
      Disk(catalog, report)
    }

    method SyncIosCatalog(codec: Codec, inp: Input, write: bool) returns (r: Result<Build, SyncError>)
      modifies this
      ensures (r, OnDisk()) == Synced(codec, inp, old(OnDisk()), write)
    {
      hide Built;
      var existing := codec.parse(catalog);
      if existing.None? {
        return Err(Unreadable);
      }
      var build := BuildIosCatalog(existing.value, inp);
      var expected := codec.serialize(build.catalog);
      if catalog != expected {
        if !write {
          return Err(StaleCatalog);
        }
        catalog := expected;
      }
      var expectedReport := codec.serializeReport(build.contradictions);
      if report != Some(expectedReport) {
        if !write {
          return Err(StaleReport);
        }
        report := Some(expectedReport);
      }
      return Ok(build);
    }
  }

  lemma BuiltHasItsKeys(existing: Strings, inp: Input)
    ensures HasItsKeys(Built(existing, inp).catalog)
  {
    hide Report, Contradictions, LocalizationsOf;
  }

  // After a write, a check passes and another write changes nothing.
  lemma CheckAfterWritePasses(codec: Codec, inp: Input, disk: Disk)
    requires codec.ReadsBack() && Synced(codec, inp, disk, true).0.Ok?
    ensures var (r, written) := Synced(codec, inp, disk, true);
            Synced(codec, inp, written, false) == (r, written) == Synced(codec, inp, written, true)
  {
    hide Built, HasItsKeys;
    var existing := codec.parse(disk.catalog).value;
    BuiltHasItsKeys(existing, inp);
    BuildIsFixedPoint(existing, inp);
  }

  // A check passes exactly when a write would change neither file.
  lemma CheckPassesWhenWriteIsIdle(codec: Codec, inp: Input, disk: Disk)
    ensures Synced(codec, inp, disk, false).0.Ok?
       <==> Synced(codec, inp, disk, true).0.Ok? && Synced(codec, inp, disk, true).1 == disk
    ensures Synced(codec, inp, disk, false).1 == disk
  {
    hide Built;
  }

  // A write keeps every shipped translation that the file had for a key of the new catalog, and the file
  // then holds the build that is returned.
  lemma WriteKeepsShipped(codec: Codec, inp: Input, disk: Disk, source: Text, locale: Text)
    requires codec.ReadsBack() && Synced(codec, inp, disk, true).0.Ok?
    ensures var (r, written) := Synced(codec, inp, disk, true);
            && codec.parse(disk.catalog).Some? && codec.parse(written.catalog) == Some(r.value.catalog.strings)
            && written.report == Some(codec.serializeReport(r.value.contradictions))
    ensures var unit := Lookup(codec.parse(disk.catalog).value, source, locale);
            var after := codec.parse(Synced(codec, inp, disk, true).1.catalog);
            unit.Some? && IsShipped(unit.value) && source in inp.Keys() && locale in inp.locales ==>
              after.Some? && Lookup(after.value, source, locale) == unit
  {
    var existing := codec.parse(disk.catalog).value;
    BuiltHasItsKeys(existing, inp);
    if source in inp.Keys() && locale in inp.locales {
      UnitMeaning(existing, inp, source, locale);
    }
    hide Built, HasItsKeys, Lookup, IsShipped, IsChoice;
  }

  // The localized Info.plist entries.

  datatype InfoPlistTranslation = InfoPlistTranslation(source: Option<Text>, value: Text)

  predicate IsTranslation(source: Text, candidate: Text) {
    Trim(candidate) != [] && Trim(candidate) != Trim(source)
  }

  function TranslatedCandidates(source: Text, candidates: seq<Text>): seq<Text> {
    if candidates == [] then []
    else
      var last := |candidates| - 1;
      TranslatedCandidates(source, candidates[..last])
      + (if IsTranslation(source, candidates[last]) then [candidates[last]] else [])
  }

  function SelectInfoPlistTranslation(
      source: Text, candidates: seq<Text>, existing: Option<InfoPlistTranslation>): Text
  {
    var translated := TranslatedCandidates(source, candidates);
    if |translated| > 0 then Chosen(source, translated)
    else if existing.Some? && existing.value.source == Some(source) && Trim(existing.value.value) != []
    then existing.value.value
    else source
  }

  lemma {:induction false} TranslatedCandidatesAre(source: Text, candidates: seq<Text>, v: Text)
    ensures v in TranslatedCandidates(source, candidates) <==> v in candidates && IsTranslation(source, v)
  {
    hide IsTranslation;
    if candidates != [] {
      var last := |candidates| - 1;
      TranslatedCandidatesAre(source, candidates[..last], v);
      assert candidates == candidates[..last] + [candidates[last]];
    }
  }

  // Any candidate that is not blank and differs from the source by more than surrounding space prevents
  // falling back to the source, and nothing blank is ever selected for a source that is not blank.
  // Selecting again with the written line as the existing one gives the same value.
  lemma InfoPlistSelection(source: Text, candidates: seq<Text>, existing: Option<InfoPlistTranslation>)
    ensures var v := SelectInfoPlistTranslation(source, candidates, existing);
            && ((exists c :: c in candidates && IsTranslation(source, c)) ==>
                v in candidates && IsTranslation(source, v))
            && (Trim(v) == [] ==> v == source)
            && SelectInfoPlistTranslation(source, candidates, Some(InfoPlistTranslation(Some(source), v))) == v
  {
    hide Trim, Choice, IsChoice;
    var translated := TranslatedCandidates(source, candidates);
    if |translated| > 0 {
      var v := Choice(source, translated);
      ChoiceMeaning(source, translated, v);
      ChoiceIsCandidate(source, translated, v);
      TranslatedCandidatesAre(source, candidates, v);
    }
    forall c | c in candidates && IsTranslation(source, c) ensures |translated| > 0 {
      TranslatedCandidatesAre(source, candidates, c);
    }
  }

  // Without a usable candidate, the value of an existing line for the same source stays unless it is blank;
  // otherwise the source is used.
  lemma InfoPlistFallback(source: Text, candidates: seq<Text>, existing: Option<InfoPlistTranslation>)
    requires forall c | c in candidates :: !IsTranslation(source, c)
    ensures var v := SelectInfoPlistTranslation(source, candidates, existing);
            if exists value :: existing == Some(InfoPlistTranslation(Some(source), value)) && Trim(value) != []
            then existing == Some(InfoPlistTranslation(Some(source), v)) else v == source
  {
    hide Trim, IsTranslation;
    var translated := TranslatedCandidates(source, candidates);
    if translated != [] {
      TranslatedCandidatesAre(source, candidates, translated[0]);
    }
    if existing.Some? {
      assert existing == Some(InfoPlistTranslation(existing.value.source, existing.value.value));
    }
  }

  lemma ChoiceIsCandidate(source: Text, candidates: seq<Text>, v: Text)
    requires IsChoice(source, candidates, v)
    ensures v in candidates
  {
  }
}
