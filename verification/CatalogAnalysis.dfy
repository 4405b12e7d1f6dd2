// Comparing the locale catalogs of the control UI with the English source catalog.
module CatalogAnalysis {
  import opened CodeUnits
  import opened Wrappers
  import opened Placeholders

  // A flat catalog: its entries in insertion order, each key once.
  datatype Entry = Entry(key: Text, value: Text)
  type Flat = seq<Entry>

  datatype Locale = Locale(name: Text, flat: Flat)

  datatype Problem =
    | OrphanKeys(locale: Text, keys: seq<Text>)
    | NotInSourceOrder(locale: Text)
    | PlaceholdersDiffer(locale: Text, key: Text)

  function Keys(flat: Flat): seq<Text> {
    seq(|flat|, i requires 0 <= i < |flat| => flat[i].key)
  }

  predicate Distinct(s: seq<Text>) {
    s != [] ==> s[0] !in s[1..] && Distinct(s[1..])
  }

  predicate IsCatalog(flat: Flat) {
    Distinct(Keys(flat))
  }

  function Get(flat: Flat, key: Text): (r: Option<Text>)
    ensures r.Some? <==> key in Keys(flat)
    ensures r.Some? ==> Entry(key, r.value) in flat
  {
    if flat == [] then None
    else if flat[0].key == key then (assert Keys(flat)[0] == key; Some(flat[0].value))
    else
      assert Keys(flat) == [flat[0].key] + Keys(flat[1..]);
      Get(flat[1..], key)
  }

  // The members of s that are (or are not) in `others`, in order.
  function Filter(s: seq<Text>, others: seq<Text>, present: bool): seq<Text> {
    if s == [] then []
    else (if (s[0] in others) == present then [s[0]] else []) + Filter(s[1..], others, present)
  }

  predicate IsSubsequence(a: seq<Text>, b: seq<Text>) {
    a == [] || (b != [] && ((a[0] == b[0] && IsSubsequence(a[1..], b[1..])) || IsSubsequence(a, b[1..])))
  }

  // ---------- Key order ----------

  lemma {:induction false} FilterMembers(s: seq<Text>, others: seq<Text>, present: bool, t: Text)
    ensures t in Filter(s, others, present) <==> t in s && (t in others) == present
  {
    if s != [] {
      FilterMembers(s[1..], others, present, t);
      assert s == [s[0]] + s[1..];
    }
  }

  lemma {:induction false} FilterAll(s: seq<Text>, others: seq<Text>)
    requires forall t | t in s :: t in others
    ensures Filter(s, others, true) == s && Filter(s, others, false) == []
  {
    if s != [] {
      FilterAll(s[1..], others);
      assert s == [s[0]] + s[1..];
    }
  }

  lemma {:induction false} FilterIsSubsequence(s: seq<Text>, others: seq<Text>)
    ensures IsSubsequence(Filter(s, others, true), s)
  {
    if s != [] {
      FilterIsSubsequence(s[1..], others);
      var rest := Filter(s[1..], others, true);
      assert ([s[0]] + rest)[1..] == rest;
      assert [] + rest == rest;
    }
  }

  lemma {:induction false} FilterSame(s: seq<Text>, a: seq<Text>, b: seq<Text>)
    requires forall t | t in s :: t in a <==> t in b
    ensures Filter(s, a, true) == Filter(s, b, true)
  {
    if s != [] {
      assert s[0] in s;
      FilterSame(s[1..], a, b);
    }
  }

  lemma {:induction false} SubsequenceMembers(a: seq<Text>, b: seq<Text>, t: Text)
    requires IsSubsequence(a, b) && t in a
    ensures t in b
  {
    if a[0] == b[0] && IsSubsequence(a[1..], b[1..]) {
      assert a == [a[0]] + a[1..];
      if t != a[0] {
        SubsequenceMembers(a[1..], b[1..], t);
      }
    } else {
      SubsequenceMembers(a, b[1..], t);
    }
  }

  lemma {:induction false} SubsequenceIsFilter(a: seq<Text>, b: seq<Text>)
    requires IsSubsequence(a, b) && Distinct(b)
    ensures Filter(b, a, true) == a
  {
    if b != [] {
      var rest := b[1..];
      if a != [] && a[0] == b[0] && IsSubsequence(a[1..], rest) {
        SubsequenceIsFilter(a[1..], rest);
        assert a == [a[0]] + a[1..];
        FilterSame(rest, a, a[1..]);
      } else {
        SubsequenceIsFilter(a, rest);
        forall t | t in a ensures t in rest {
          SubsequenceMembers(a, rest, t);
        }
      }
    }
  }

  // No orphans and the same order: the keys of the locale are a subsequence of the source keys.
  lemma OrderMeaning(sourceKeys: seq<Text>, localeKeys: seq<Text>)
    requires Distinct(sourceKeys)
    ensures IsSubsequence(localeKeys, sourceKeys)
       <==> Filter(localeKeys, sourceKeys, false) == []
            && Filter(localeKeys, sourceKeys, true) == Filter(sourceKeys, localeKeys, true)
  {
    hide Filter, IsSubsequence;
    forall t {
      FilterMembers(localeKeys, sourceKeys, false, t);
    }
    if IsSubsequence(localeKeys, sourceKeys) {
      forall t | t in localeKeys ensures t in sourceKeys {
        SubsequenceMembers(localeKeys, sourceKeys, t);
      }
      SubsequenceIsFilter(localeKeys, sourceKeys);
      FilterAll(localeKeys, sourceKeys);
    } else if Filter(localeKeys, sourceKeys, false) == [] {
      FilterAll(localeKeys, sourceKeys);
      FilterIsSubsequence(sourceKeys, localeKeys);
    }
  }

  // ---------- Problems ----------

  predicate SamePlaceholders(source: Flat, locale: Flat, key: Text) {
    var a, b := Get(source, key), Get(locale, key);
    a.Some? && b.Some? ==> PlaceholderSet(a.value) == PlaceholderSet(b.value)
  }

  // The keys among the first n of the source whose placeholders differ.
  function Differing(source: Flat, locale: Locale, n: nat): seq<Problem>
    requires n <= |source|
  {
    if n == 0 then []
    else
      var key := source[n - 1].key;
      Differing(source, locale, n - 1)
      + (if SamePlaceholders(source, locale.flat, key) then [] else [PlaceholdersDiffer(locale.name, key)])
  }

  function KeyProblems(source: Flat, locale: Locale): seq<Problem> {
    var sourceKeys, localeKeys := Keys(source), Keys(locale.flat);
    var orphans := Filter(localeKeys, sourceKeys, false);
    (if |orphans| > 0 then [OrphanKeys(locale.name, orphans)] else [])
    + (if Filter(localeKeys, sourceKeys, true) != Filter(sourceKeys, localeKeys, true)
       then [NotInSourceOrder(locale.name)] else [])
  }

  function Problems(source: Flat, locales: seq<Locale>): seq<Problem> {
    if locales == [] then []
    else
      var locale := locales[|locales| - 1];
      Problems(source, locales[..|locales| - 1]) + KeyProblems(source, locale) + Differing(source, locale, |source|)
  }

  // The keys of the locale are a subsequence of the source keys, and shared keys have the same placeholders.
  ghost predicate Agrees(source: Flat, locale: Locale) {
    && IsSubsequence(Keys(locale.flat), Keys(source))
    && forall key | key in Keys(source) && key in Keys(locale.flat) ::
         PlaceholderSet(Get(source, key).value) == PlaceholderSet(Get(locale.flat, key).value)
  }

  lemma {:induction false} DifferingIsEmpty(source: Flat, locale: Locale, n: nat)
    requires n <= |source|
    ensures Differing(source, locale, n) == [] <==>
              forall i | 0 <= i < n :: SamePlaceholders(source, locale.flat, source[i].key)
  {
    hide SamePlaceholders;
    if n > 0 {
      DifferingIsEmpty(source, locale, n - 1);
    }
  }

  lemma LocaleProblems(source: Flat, locale: Locale)
    requires IsCatalog(source)
    ensures KeyProblems(source, locale) == [] && Differing(source, locale, |source|) == [] <==> Agrees(source, locale)
  {
    hide Filter, IsSubsequence, Distinct, Get, PlaceholderSet, Differing;
    OrderMeaning(Keys(source), Keys(locale.flat));
    DifferingIsEmpty(source, locale, |source|);
    assert forall i | 0 <= i < |source| :: Keys(source)[i] == source[i].key;
    if forall i | 0 <= i < |source| :: SamePlaceholders(source, locale.flat, source[i].key) {
      forall key | key in Keys(source) ensures SamePlaceholders(source, locale.flat, key) {
        var i :| 0 <= i < |Keys(source)| && Keys(source)[i] == key;
        assert SamePlaceholders(source, locale.flat, source[i].key);
      }
    }
  }

  // Nothing is reported exactly when every locale agrees with the source.
  lemma {:induction false} NoProblems(source: Flat, locales: seq<Locale>)
    requires IsCatalog(source)
    ensures Problems(source, locales) == [] <==> forall l | l in locales :: Agrees(source, l)
  {
    hide Agrees, KeyProblems, Differing;
    if locales != [] {
      var last := |locales| - 1;
      NoProblems(source, locales[..last]);
      LocaleProblems(source, locales[last]);
      assert locales == locales[..last] + [locales[last]];
    }
  }

  lemma {:induction false} OrphansAreSubsequence(s: seq<Text>, others: seq<Text>)
    ensures IsSubsequence(Filter(s, others, false), s)
  {
    if s != [] {
      OrphansAreSubsequence(s[1..], others);
      var rest := Filter(s[1..], others, false);
      assert ([s[0]] + rest)[1..] == rest;
      assert [] + rest == rest;
    }
  }

  // The shared keys come in the order of the source exactly when the two filtered lists are the same.
  lemma SharedOrder(sourceKeys: seq<Text>, localeKeys: seq<Text>)
    requires Distinct(sourceKeys)
    ensures Filter(localeKeys, sourceKeys, true) == Filter(sourceKeys, localeKeys, true)
       <==> IsSubsequence(Filter(localeKeys, sourceKeys, true), sourceKeys)
  {
    FilterIsSubsequence(sourceKeys, localeKeys);
    var shared := Filter(localeKeys, sourceKeys, true);
    if IsSubsequence(shared, sourceKeys) {
      SubsequenceIsFilter(shared, sourceKeys);
      forall t | t in sourceKeys ensures t in shared <==> t in localeKeys {
        FilterMembers(localeKeys, sourceKeys, true, t);
      }
      FilterSame(sourceKeys, shared, localeKeys);
    }
    hide Filter, IsSubsequence, Distinct;
  }

  // The keys of t are those of s that are (or are not) in `others`.
  ghost predicate HasExactly(t: seq<Text>, s: seq<Text>, others: seq<Text>, present: bool) {
    forall k :: k in t <==> k in s && (k in others) == present
  }

  // Such a list in the order of s is the filtered one.
  lemma FilteredIs(t: seq<Text>, s: seq<Text>, others: seq<Text>, present: bool)
    requires Distinct(s)
    ensures IsSubsequence(t, s) && HasExactly(t, s, others, present) <==> t == Filter(s, others, present)
  {
    var f := Filter(s, others, present);
    forall k ensures k in f <==> k in s && (k in others) == present {
      FilterMembers(s, others, present, k);
    }
    if present {
      FilterIsSubsequence(s, others);
    } else {
      OrphansAreSubsequence(s, others);
    }
    hide Filter, IsSubsequence, Distinct;
    SubsequenceIsFilter(f, s);
    if IsSubsequence(t, s) && HasExactly(t, s, others, present) {
      SubsequenceIsFilter(t, s);
      FilterSame(s, t, f);
    }
  }

  lemma {:induction false} GetIs(flat: Flat, e: Entry)
    requires IsCatalog(flat) && e in flat
    ensures Get(flat, e.key) == Some(e.value)
  {
    var rest := flat[1..];
    assert Keys(flat)[1..] == Keys(rest) && Keys(flat)[0] == flat[0].key;
    if e != flat[0] {
      assert e in rest;
      var i :| 0 <= i < |rest| && rest[i] == e;
      assert Keys(rest)[i] == e.key;
      GetIs(rest, e);
    }
  }

  // What a problem says of the locale it names.
  ghost predicate Concerns(source: Flat, l: Locale, p: Problem) {
    var sourceKeys, localeKeys := Keys(source), Keys(l.flat);
    p.locale == l.name &&
    match p
    case OrphanKeys(_, keys) =>
      // all keys that the source does not have, in the order of the locale
      keys != [] && IsSubsequence(keys, localeKeys) && HasExactly(keys, localeKeys, sourceKeys, false)
    case NotInSourceOrder(_) =>
      // the shared keys, in the order of the locale, are not in the order of the source
      forall shared | IsSubsequence(shared, localeKeys) && HasExactly(shared, localeKeys, sourceKeys, true) ::
        !IsSubsequence(shared, sourceKeys)
    case PlaceholdersDiffer(_, key) =>
      exists a, b :: a in source && b in l.flat && a.key == key == b.key && PlaceholderSet(a.value) != PlaceholderSet(b.value)
  }

  lemma {:induction false} DifferingAre(source: Flat, locale: Locale, n: nat, p: Problem)
    requires n <= |source|
    ensures p in Differing(source, locale, n) <==> exists i | 0 <= i < n ::
              p == PlaceholdersDiffer(locale.name, source[i].key) && !SamePlaceholders(source, locale.flat, source[i].key)
  {
    hide SamePlaceholders;
    if n > 0 {
      DifferingAre(source, locale, n - 1, p);
    }
  }

  lemma DifferingMeaning(source: Flat, l: Locale, p: Problem)
    requires IsCatalog(source) && IsCatalog(l.flat) && p.PlaceholdersDiffer?
    ensures p in Differing(source, l, |source|) <==> Concerns(source, l, p)
  {
    DifferingAre(source, l, |source|, p);
    hide Differing, PlaceholderSet, IsCatalog, Get, Keys;
    if p in Differing(source, l, |source|) {
      var i :| 0 <= i < |source| && p == PlaceholdersDiffer(l.name, source[i].key)
               && !SamePlaceholders(source, l.flat, source[i].key);
      var key := source[i].key;
      var a, b := Get(source, key), Get(l.flat, key);
      assert Entry(key, a.value) in source && Entry(key, b.value) in l.flat;
    }
    if p.locale == l.name {
      if a, b :| a in source && b in l.flat && a.key == p.key == b.key && PlaceholderSet(a.value) != PlaceholderSet(b.value) {
        GetIs(source, a);
        GetIs(l.flat, b);
        var i :| 0 <= i < |source| && source[i] == a;
      }
    }
  }

  lemma KeyProblemsMeaning(source: Flat, l: Locale, p: Problem)
    requires IsCatalog(source) && IsCatalog(l.flat) && !p.PlaceholdersDiffer?
    ensures p in KeyProblems(source, l) <==> Concerns(source, l, p)
  {
    var sourceKeys, localeKeys := Keys(source), Keys(l.flat);
    SharedOrder(sourceKeys, localeKeys);
    if p.OrphanKeys? {
      FilteredIs(p.keys, localeKeys, sourceKeys, false);
    }
    var shared := Filter(localeKeys, sourceKeys, true);
    FilteredIs(shared, localeKeys, sourceKeys, true);
    forall t | IsSubsequence(t, localeKeys) && HasExactly(t, localeKeys, sourceKeys, true) ensures t == shared {
      FilteredIs(t, localeKeys, sourceKeys, true);
    }
    hide Filter, IsSubsequence, Distinct, HasExactly, Keys;
  }

  lemma ProblemsOfLocale(source: Flat, l: Locale, p: Problem)
    requires IsCatalog(source) && IsCatalog(l.flat)
    ensures p in KeyProblems(source, l) + Differing(source, l, |source|) <==> Concerns(source, l, p)
  {
    if p.PlaceholdersDiffer? {
      DifferingMeaning(source, l, p);
      NoKeyProblem(source, l, p);
    } else {
      KeyProblemsMeaning(source, l, p);
      DifferingAre(source, l, |source|, p);
    }
    hide Differing, KeyProblems, Concerns, IsCatalog;
  }

  lemma NoKeyProblem(source: Flat, l: Locale, p: Problem)
    requires p.PlaceholdersDiffer?
    ensures p !in KeyProblems(source, l)
  {
    hide Filter, Keys;
  }

  // A problem is reported exactly when it concerns one of the locales.
  lemma {:induction false} ProblemsMeaning(source: Flat, locales: seq<Locale>, p: Problem)
    requires IsCatalog(source) && forall l | l in locales :: IsCatalog(l.flat)
    ensures p in Problems(source, locales) <==> exists l :: l in locales && Concerns(source, l, p)
  {
    hide KeyProblems, Differing, Concerns, IsCatalog;
    if locales != [] {
      var last := |locales| - 1;
      ProblemsMeaning(source, locales[..last], p);
      ProblemsOfLocale(source, locales[last], p);
      assert locales == locales[..last] + [locales[last]];
      assert Problems(source, locales)
          == Problems(source, locales[..last]) + (KeyProblems(source, locales[last]) + Differing(source, locales[last], |source|));
    }
  }

  // ---------- Fallbacks ----------

  // The locales without the key, in order.
  function Missing(locales: seq<Locale>, key: Text): seq<Text> {
    if locales == [] then []
    else
      var locale := locales[|locales| - 1];
      Missing(locales[..|locales| - 1], key) + (if Get(locale.flat, key).None? then [locale.name] else [])
  }

  function Fallbacks(source: Flat, locales: seq<Locale>): map<Text, seq<Text>> {
    map key | key in Keys(source) && Missing(locales, key) != [] :: Missing(locales, key)
  }

  lemma {:induction false} MissingNames(locales: seq<Locale>, key: Text, name: Text)
    ensures name in Missing(locales, key) <==> exists l :: l in locales && l.name == name && key !in Keys(l.flat)
  {
    hide Get, Keys;
    if locales != [] {
      var last := |locales| - 1;
      MissingNames(locales[..last], key, name);
      assert locales == locales[..last] + [locales[last]];
      assert forall l :: l in locales <==> l in locales[..last] || l == locales[last];
    }
  }

  // The fallbacks are exactly the pairs of a source key and a locale without it.
  lemma FallbackMeaning(source: Flat, locales: seq<Locale>, key: Text, name: Text)
    ensures (key in Fallbacks(source, locales) && name in Fallbacks(source, locales)[key])
       <==> key in Keys(source) && exists l :: l in locales && l.name == name && key !in Keys(l.flat)
  {
    hide Missing, Keys;
    MissingNames(locales, key, name);
  }

  // How many fallbacks there are for the first n source keys.
  function FallbackCount(source: Flat, fallbacks: map<Text, seq<Text>>, n: nat): nat
    requires n <= |source|
  {
    if n == 0 then 0
    else
      var key := source[n - 1].key;
      FallbackCount(source, fallbacks, n - 1) + (if key in fallbacks then |fallbacks[key]| else 0)
  }

  // How many of the first n source keys a locale has, and all locales together.
  function Present(source: Flat, flat: Flat, n: nat): nat
    requires n <= |source|
  {
    if n == 0 then 0
    else Present(source, flat, n - 1) + (if source[n - 1].key in Keys(flat) then 1 else 0)
  }

  function AllPresent(source: Flat, locales: seq<Locale>): nat {
    if locales == [] then 0
    else AllPresent(source, locales[..|locales| - 1]) + Present(source, locales[|locales| - 1].flat, |source|)
  }

  lemma LookupFallback(source: Flat, locales: seq<Locale>, i: nat)
    requires i < |source|
    ensures var key, fallbacks := source[i].key, Fallbacks(source, locales);
            (if key in fallbacks then |fallbacks[key]| else 0) == |Missing(locales, key)|
  {
    hide Missing;
    assert Keys(source)[i] == source[i].key;
  }

  lemma {:induction false} OneMoreLocale(source: Flat, locales: seq<Locale>, n: nat)
    requires locales != [] && n <= |source|
    ensures FallbackCount(source, Fallbacks(source, locales), n) + Present(source, locales[|locales| - 1].flat, n)
         == FallbackCount(source, Fallbacks(source, locales[..|locales| - 1]), n) + n
  {
    hide Fallbacks, Get, Keys;
    if n > 0 {
      OneMoreLocale(source, locales, n - 1);
      LookupFallback(source, locales, n - 1);
      LookupFallback(source, locales[..|locales| - 1], n - 1);
    }
  }

  lemma {:induction false} NoLocales(source: Flat, n: nat)
    requires n <= |source|
    ensures FallbackCount(source, Fallbacks(source, []), n) == 0
  {
    if n > 0 {
      NoLocales(source, n - 1);
    }
  }

  // Every pair of a source key and a locale is either a fallback or present.
  lemma {:induction false} FallbacksAndPresentKeys(source: Flat, locales: seq<Locale>)
    ensures FallbackCount(source, Fallbacks(source, locales), |source|) + AllPresent(source, locales)
         == |source| * |locales|
  {
    hide Fallbacks, Present;
    if locales == [] {
      NoLocales(source, |source|);
    } else {
      FallbacksAndPresentKeys(source, locales[..|locales| - 1]);
      OneMoreLocale(source, locales, |source|);
      assert |source| * |locales| == |source| * (|locales| - 1) + |source|;
    }
  }

  // ---------- The analysis ----------

  function Gathered(fallbacks: map<Text, seq<Text>>, key: Text): seq<Text> {
    if key in fallbacks then fallbacks[key] else []
  }

  ghost predicate GathersAll(source: Flat, locales: seq<Locale>, fallbacks: map<Text, seq<Text>>) {
    && (forall key | key in fallbacks :: key in Keys(source) && fallbacks[key] != [])
    && forall key | key in Keys(source) :: Gathered(fallbacks, key) == Missing(locales, key)
  }

  // What is gathered for one key: its missing locales, and one more locale if it is missing there and the
  // key is among the `done` ones.
  ghost predicate GathersKey(
      locales: seq<Locale>, locale: Locale, done: seq<Text>, fallbacks: map<Text, seq<Text>>, key: Text)
  {
    Gathered(fallbacks, key) == Missing(locales, key)
      + (if key in done && Get(locale.flat, key).None? then [locale.name] else [])
  }

  // The fallbacks of `locales`, and of one more locale as far as the first n source keys.
  ghost predicate Gathers(
      source: Flat, locales: seq<Locale>, locale: Locale, n: nat, fallbacks: map<Text, seq<Text>>)
    requires n <= |source|
  {
    && (forall key | key in fallbacks :: key in Keys(source) && fallbacks[key] != [])
    && forall key | key in Keys(source) :: GathersKey(locales, locale, Keys(source)[..n], fallbacks, key)
  }

  function WithFallback(fallbacks: map<Text, seq<Text>>, key: Text, locale: Locale): map<Text, seq<Text>> {
    if Get(locale.flat, key).None? then fallbacks[key := Gathered(fallbacks, key) + [locale.name]] else fallbacks
  }

  lemma GatherNewKey(
      locales: seq<Locale>, locale: Locale, done: seq<Text>, fallbacks: map<Text, seq<Text>>, key: Text)
    requires key !in done && GathersKey(locales, locale, done, fallbacks, key)
    ensures GathersKey(locales, locale, done + [key], WithFallback(fallbacks, key, locale), key)
  {
    hide Missing, Get;
    assert (done + [key])[|done|] == key;
    assert Missing(locales, key) + [] == Missing(locales, key);
  }

  lemma GatherOtherKey(
      locales: seq<Locale>, locale: Locale, done: seq<Text>, fallbacks: map<Text, seq<Text>>, key: Text, other: Text)
    requires other != key && GathersKey(locales, locale, done, fallbacks, other)
    ensures GathersKey(locales, locale, done + [key], WithFallback(fallbacks, key, locale), other)
  {
    hide Missing, Get;
    assert other in done + [key] <==> other in done;
  }

  lemma GatherStep(source: Flat, locales: seq<Locale>, locale: Locale, n: nat, fallbacks: map<Text, seq<Text>>)
    requires n < |source| && IsCatalog(source) && Gathers(source, locales, locale, n, fallbacks)
    ensures Gathers(source, locales, locale, n + 1, WithFallback(fallbacks, source[n].key, locale))
  {
    var keys, key := Keys(source), source[n].key;
    assert keys[n] == key && keys[..n + 1] == keys[..n] + [key];
    DistinctAt(keys, n);
    hide GathersKey, Get, Keys, IsCatalog;
    forall other | other in keys
      ensures GathersKey(locales, locale, keys[..n + 1], WithFallback(fallbacks, key, locale), other)
    {
      if other == key {
        GatherNewKey(locales, locale, keys[..n], fallbacks, key);
      } else {
        GatherOtherKey(locales, locale, keys[..n], fallbacks, key, other);
      }
    }
  }

  lemma {:induction false} DistinctAt(s: seq<Text>, n: nat)
    requires n < |s| && Distinct(s)
    ensures s[n] !in s[..n]
  {
    if n > 0 {
      DistinctAt(s[1..], n - 1);
      assert s[..n] == [s[0]] + s[1..][..n - 1];
      assert s[n] == s[1..][n - 1];
    }
  }

  lemma GatherStart(source: Flat, locales: seq<Locale>, locale: Locale, fallbacks: map<Text, seq<Text>>)
    requires GathersAll(source, locales, fallbacks)
    ensures Gathers(source, locales, locale, 0, fallbacks)
  {
    hide Get, Missing, Gathered;
  }

  lemma GatherEnd(source: Flat, locales: seq<Locale>, i: nat, fallbacks: map<Text, seq<Text>>)
    requires i < |locales| && Gathers(source, locales[..i], locales[i], |source|, fallbacks)
    ensures GathersAll(source, locales[..i + 1], fallbacks)
  {
    hide Get, Keys, Gathered;
    var longer := locales[..i + 1];
    assert longer[..i] == locales[..i] && longer[i] == locales[i];
    KeysLength(source);
    assert Keys(source)[..|source|] == Keys(source);
  }

  lemma KeysLength(flat: Flat)
    ensures |Keys(flat)| == |flat|
  {
  }

  lemma GatheredAll(source: Flat, locales: seq<Locale>, fallbacks: map<Text, seq<Text>>)
    requires GathersAll(source, locales, fallbacks)
    ensures fallbacks == Fallbacks(source, locales)
  {
    hide Missing, Keys;
    forall key ensures key in fallbacks <==> key in Fallbacks(source, locales) {
      assert key in Keys(source) ==> Gathered(fallbacks, key) == Missing(locales, key);
    }
    forall key | key in fallbacks ensures fallbacks[key] == Fallbacks(source, locales)[key] {
      assert Gathered(fallbacks, key) == Missing(locales, key);
    }
  }

  // The locales are given in the order in which the script sorts them.
  method AnalyzeControlUiCatalogs(source: Flat, locales: seq<Locale>)
      returns (problems: seq<Problem>, fallbacks: map<Text, seq<Text>>)
    requires IsCatalog(source)
    ensures problems == Problems(source, locales)
    ensures fallbacks == Fallbacks(source, locales)
    ensures problems == [] <==> forall l | l in locales :: Agrees(source, l)
  {
    hide Gathers, GathersAll, Filter, Missing, Agrees, SamePlaceholders, Distinct, Fallbacks;
    problems, fallbacks := [], map[];
    NothingGathered(source);
    var sourceKeys := Keys(source);
    for i := 0 to |locales|
      invariant problems == Problems(source, locales[..i])
      invariant GathersAll(source, locales[..i], fallbacks)
    {
      var locale := locales[i];
      assert locales[..i + 1][..i] == locales[..i];
      var localeKeys := Keys(locale.flat);
      var orphanKeys := Filter(localeKeys, sourceKeys, false);
      ghost var before := problems;
      if |orphanKeys| > 0 {
        problems := problems + [OrphanKeys(locale.name, orphanKeys)];
      }
      var expectedPresentOrder := Filter(sourceKeys, localeKeys, true);
      var actualPresentOrder := Filter(localeKeys, sourceKeys, true);
      if actualPresentOrder != expectedPresentOrder {
        problems := problems + [NotInSourceOrder(locale.name)];
      }
      assert problems == before + KeyProblems(source, locale);
      GatherStart(source, locales[..i], locale, fallbacks);
      problems, fallbacks := CheckKeys(source, locales[..i], locale, problems, fallbacks);
      GatherEnd(source, locales, i, fallbacks);
    }
    assert locales[..|locales|] == locales;
    NoProblems(source, locales);
    GatheredAll(source, locales, fallbacks);
  }

  lemma NothingGathered(source: Flat)
    ensures GathersAll(source, [], map[])
  {
  }

  // The inner loop: missing keys become fallbacks, present ones are compared.
  method CheckKeys(source: Flat, ghost locales: seq<Locale>, locale: Locale, problems: seq<Problem>,
                   fallbacks: map<Text, seq<Text>>)
      returns (found: seq<Problem>, fallbackLocalesByKey: map<Text, seq<Text>>)
    requires IsCatalog(source) && Gathers(source, locales, locale, 0, fallbacks)
    ensures found == problems + Differing(source, locale, |source|)
    ensures Gathers(source, locales, locale, |source|, fallbackLocalesByKey)
  {
    hide Gathers, IsCatalog, PlaceholderSet, Get;
    found, fallbackLocalesByKey := problems, fallbacks;
    for n := 0 to |source|
      invariant found == problems + Differing(source, locale, n)
      invariant Gathers(source, locales, locale, n, fallbackLocalesByKey)
    {
      var key := source[n].key;
      KeyIsThere(source, n);
      GatherStep(source, locales, locale, n, fallbackLocalesByKey);
      var translated := Get(locale.flat, key);
      if translated.None? {
        var names := if key in fallbackLocalesByKey then fallbackLocalesByKey[key] else [];
        fallbackLocalesByKey := fallbackLocalesByKey[key := names + [locale.name]];
        continue;
      }
      var sourcePlaceholders := PlaceholderSet(Get(source, key).value);
      var translatedPlaceholders := PlaceholderSet(translated.value);
      if sourcePlaceholders != translatedPlaceholders {
        found := found + [PlaceholdersDiffer(locale.name, key)];
      }
    }
  }

  lemma KeyIsThere(source: Flat, n: nat)
    requires n < |source|
    ensures Get(source, source[n].key).Some?
  {
    assert Keys(source)[n] == source[n].key;
  }
}
