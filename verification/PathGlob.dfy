// Dotted path patterns, the classification of config paths by the first matching pattern, and the
// counts of the coverage report.
module PathGlob {
  import opened CodeUnits
  import opened Wrappers
  import opened Occurrences
  import opened Sequences
  import opened Splitting

  type Parts = seq<Text>

  const STAR: CodeUnit := 42
  const ANY_PART: Text := [STAR]
  const ANY_RUN: Text := [STAR, STAR]

  // What the matcher computes.
  predicate MatchesParts(pattern: Parts, value: Parts)
    decreases |pattern|
  {
    if pattern == [] then value == []
    else
      var head, tail := pattern[0], pattern[1..];
      if head == ANY_RUN then
        tail == [] || exists i | 0 <= i <= |value| :: MatchesParts(tail, value[i..])
      else if value == [] then false
      else if head != ANY_PART && head != value[0] then false
      else MatchesParts(tail, value[1..])
  }

  method MatchParts(pattern: Parts, value: Parts) returns (matches: bool)
    ensures matches == MatchesParts(pattern, value)
    decreases |pattern|
  {
    if |pattern| == 0 {
      return |value| == 0;
    }
    var head, tail := pattern[0], pattern[1..];
    if head == ANY_RUN {
      if |tail| == 0 {
        return true;
      }
      for i := 0 to |value| + 1
        invariant forall j | 0 <= j < i :: !MatchesParts(tail, value[j..])
      {
        var rest := MatchParts(tail, value[i..]);
        if rest {
          return true;
        }
      }
      return false;
    }
    if |value| == 0 {
      return false;
    }
    if head != ANY_PART && head != value[0] {
      return false;
    }
    matches := MatchParts(tail, value[1..]);
  }

  // What a pattern means: the value can be cut into consecutive pieces, one per part of the pattern.

  predicate Fits(part: Text, piece: Parts) {
    part == ANY_RUN || (|piece| == 1 && (part == ANY_PART || part == piece[0]))
  }

  ghost predicate IsCut(pattern: Parts, value: Parts, pieces: seq<Parts>) {
    && |pieces| == |pattern|
    && Flatten(pieces) == value
    && forall i | 0 <= i < |pattern| :: Fits(pattern[i], pieces[i])
  }

  ghost predicate CanCut(pattern: Parts, value: Parts) {
    exists pieces :: IsCut(pattern, value, pieces)
  }

  lemma CutCons(pattern: Parts, value: Parts, i: nat, pieces: seq<Parts>)
    requires pattern != [] && i <= |value|
    requires Fits(pattern[0], value[..i]) && IsCut(pattern[1..], value[i..], pieces)
    ensures IsCut(pattern, value, [value[..i]] + pieces)
  {
    hide Fits;
    var all := [value[..i]] + pieces;
    assert all[1..] == pieces;
    assert value[..i] + value[i..] == value;
    forall j | 0 <= j < |pattern| ensures Fits(pattern[j], all[j]) {
      if j > 0 {
        assert pattern[j] == pattern[1..][j - 1] && all[j] == pieces[j - 1];
      }
    }
  }

  lemma CutUncons(pattern: Parts, value: Parts, pieces: seq<Parts>)
    requires pattern != [] && IsCut(pattern, value, pieces)
    ensures var i := |pieces[0]|;
            && i <= |value| && pieces[0] == value[..i] && Fits(pattern[0], value[..i])
            && IsCut(pattern[1..], value[i..], pieces[1..])
  {
    hide Fits;
    var i := |pieces[0]|;
    assert value[..i] == pieces[0] && value[i..] == Flatten(pieces[1..]);
  }

  lemma {:induction false} MatchGivesCut(pattern: Parts, value: Parts) returns (pieces: seq<Parts>)
    requires MatchesParts(pattern, value)
    ensures IsCut(pattern, value, pieces)
    decreases |pattern|
  {
    if pattern == [] {
      return [];
    }
    var i: nat;
    if pattern[0] == ANY_RUN && |pattern| == 1 {
      i := |value|;
      pieces := [];
    } else {
      if pattern[0] == ANY_RUN {
        i :| 0 <= i <= |value| && MatchesParts(pattern[1..], value[i..]);
      } else {
        i := 1;
      }
      pieces := MatchGivesCut(pattern[1..], value[i..]);
    }
    CutCons(pattern, value, i, pieces);
    pieces := [value[..i]] + pieces;
  }

  lemma {:induction false} CutGivesMatch(pattern: Parts, value: Parts, pieces: seq<Parts>)
    requires IsCut(pattern, value, pieces)
    ensures MatchesParts(pattern, value)
    decreases |pattern|
  {
    if pattern != [] {
      CutUncons(pattern, value, pieces);
      CutGivesMatch(pattern[1..], value[|pieces[0]|..], pieces[1..]);
    }
  }

  lemma MatchMeaning(pattern: Parts, value: Parts)
    ensures MatchesParts(pattern, value) <==> CanCut(pattern, value)
  {
    hide IsCut, MatchesParts;
    if MatchesParts(pattern, value) {
      var pieces := MatchGivesCut(pattern, value);
    }
    if pieces :| IsCut(pattern, value, pieces) {
      CutGivesMatch(pattern, value, pieces);
    }
  }

  lemma CutAppend(p: Parts, q: Parts, v: Parts, w: Parts, a: seq<Parts>, b: seq<Parts>)
    requires |a| == |p|
    ensures IsCut(p, v, a) && IsCut(q, w, b) ==> IsCut(p + q, v + w, a + b)
    ensures IsCut(p + q, v, a + b) ==> IsCut(p, Flatten(a), a) && IsCut(q, Flatten(b), b) && v == Flatten(a) + Flatten(b)
  {
    hide Fits;
    FlattenAppend(a, b);
    assert |a + b| == |p + q| ==> |b| == |q|;
    assert forall i | 0 <= i < |a| :: (a + b)[i] == a[i] && (p + q)[i] == p[i];
    if |b| == |q| {
      assert forall i | 0 <= i < |b| :: b[i] == (a + b)[|a| + i] && q[i] == (p + q)[|a| + i];
    }
  }

  // A pattern put together from two matches exactly the values put together from two that match them.
  lemma MatchOfConcatenation(p: Parts, q: Parts, value: Parts)
    ensures MatchesParts(p + q, value)
       <==> exists i | 0 <= i <= |value| :: MatchesParts(p, value[..i]) && MatchesParts(q, value[i..])
  {
    hide IsCut, MatchesParts;
    MatchMeaning(p + q, value);
    if MatchesParts(p + q, value) {
      var pieces :| IsCut(p + q, value, pieces);
      CutLength(p + q, value, pieces);
      var a, b := pieces[..|p|], pieces[|p|..];
      assert pieces == a + b;
      CutAppend(p, q, value, [], a, b);
      var i := |Flatten(a)|;
      assert value[..i] == Flatten(a) && value[i..] == Flatten(b);
      MatchMeaning(p, value[..i]);
      MatchMeaning(q, value[i..]);
    }
    if i :| 0 <= i <= |value| && MatchesParts(p, value[..i]) && MatchesParts(q, value[i..]) {
      var a := MatchGivesCut(p, value[..i]);
      var b := MatchGivesCut(q, value[i..]);
      CutLength(p, value[..i], a);
      CutAppend(p, q, value[..i], value[i..], a, b);
      assert value[..i] + value[i..] == value;
    }
  }

  lemma CutLength(pattern: Parts, value: Parts, pieces: seq<Parts>)
    requires IsCut(pattern, value, pieces)
    ensures |pieces| == |pattern|
  {
  }

  predicate PathMatchesPattern(pattern: Text, value: Text) {
    MatchesParts(Split(pattern, DOT), Split(value, DOT))
  }

  lemma {:induction false} LiteralParts(pattern: Parts, value: Parts)
    requires ANY_RUN !in pattern && ANY_PART !in pattern
    ensures MatchesParts(pattern, value) <==> pattern == value
    decreases |pattern|
  {
    if pattern != [] && value != [] {
      LiteralParts(pattern[1..], value[1..]);
      assert pattern == [pattern[0]] + pattern[1..];
      assert value == [value[0]] + value[1..];
    }
  }

  // A pattern with no wildcard part matches exactly the path that is written like it.
  lemma LiteralPattern(pattern: Text, value: Text)
    requires ANY_RUN !in Split(pattern, DOT) && ANY_PART !in Split(pattern, DOT)
    ensures PathMatchesPattern(pattern, value) <==> pattern == value
  {
    LiteralParts(Split(pattern, DOT), Split(value, DOT));
    JoinAfterSplit(pattern, DOT);
    JoinAfterSplit(value, DOT);
  }

  lemma SingleWildcard(parts: Parts)
    ensures MatchesParts([ANY_PART], parts) <==> |parts| == 1
    ensures MatchesParts([ANY_RUN], parts)
  {
    assert |ANY_PART| != |ANY_RUN|;
    assert [ANY_PART][1..] == [] && [ANY_RUN][1..] == [];
    if parts != [] {
      assert MatchesParts([], parts[1..]) <==> |parts[1..]| == 0;
    }
  }

  // What the wildcards mean on the path text: `*` stands for any single part, `**` for any path.
  lemma WildcardPatterns(value: Text)
    ensures PathMatchesPattern(ANY_PART, value) <==> DOT !in value
    ensures PathMatchesPattern(ANY_RUN, value)
  {
    SplitFree(ANY_PART, DOT);
    SplitFree(ANY_RUN, DOT);
    JoinAfterSplit(value, DOT);
    SingleWildcard(Split(value, DOT));
    if DOT !in value {
      SplitFree(value, DOT);
    }
    hide Split, MatchesParts;
  }

  // The pattern can do without any part of the path: all its parts are `**`.
  predicate CanBeEmpty(pattern: Text) {
    forall part | part in Split(pattern, DOT) :: part == ANY_RUN
  }

  lemma {:induction false} EmptyMatch(pattern: Parts)
    ensures MatchesParts(pattern, []) <==> forall part | part in pattern :: part == ANY_RUN
    decreases |pattern|
  {
    if pattern != [] {
      var head, tail, none: Parts := pattern[0], pattern[1..], [];
      EmptyMatch(tail);
      assert forall part :: part in pattern <==> part == head || part in tail;
      assert none[0..] == none;
      if head != ANY_RUN {
        assert head in pattern && !MatchesParts(pattern, none);
      } else if tail == [] {
        assert MatchesParts(pattern, none);
      } else {
        assert MatchesParts(pattern, none) <==> exists i | 0 <= i <= 0 :: MatchesParts(tail, none[i..]);
        assert MatchesParts(pattern, none) <==> MatchesParts(tail, none[0..]);
      }
    }
  }

  // A pattern of two parts joined by a dot matches a path exactly when the path is two paths joined by a
  // dot that match in turn, or matches one of the two while the other can be empty.
  lemma DottedPattern(p: Text, q: Text, value: Text)
    ensures PathMatchesPattern(p + [DOT] + q, value)
       <==> (exists a, b :: value == a + [DOT] + b && PathMatchesPattern(p, a) && PathMatchesPattern(q, b))
            || (PathMatchesPattern(p, value) && CanBeEmpty(q))
            || (CanBeEmpty(p) && PathMatchesPattern(q, value))
  {
    var ps, qs, vs := Split(p, DOT), Split(q, DOT), Split(value, DOT);
    SplitAppend(p, DOT, q);
    MatchOfConcatenation(ps, qs, vs);
    EmptyMatch(ps);
    EmptyMatch(qs);
    assert vs[..|vs|] == vs && vs[|vs|..] == [] && vs[..0] == [] && vs[0..] == vs;
    hide Split, MatchesParts;
    if PathMatchesPattern(p + [DOT] + q, value) {
      var i :| 0 <= i <= |vs| && MatchesParts(ps, vs[..i]) && MatchesParts(qs, vs[i..]);
      if 0 < i < |vs| {
        var a, b := CutPath(value, i);
        assert value == a + [DOT] + b && PathMatchesPattern(p, a) && PathMatchesPattern(q, b);
      }
    }
    if a, b :| value == a + [DOT] + b && PathMatchesPattern(p, a) && PathMatchesPattern(q, b) {
      SplitAppend(a, DOT, b);
      var i := |Split(a, DOT)|;
      assert vs[..i] == Split(a, DOT) && vs[i..] == Split(b, DOT);
    }
  }

  lemma CutPath(value: Text, i: nat) returns (a: Text, b: Text)
    requires 0 < i < |Split(value, DOT)|
    ensures value == a + [DOT] + b
    ensures Split(a, DOT) == Split(value, DOT)[..i] && Split(b, DOT) == Split(value, DOT)[i..]
  {
    var vs := Split(value, DOT);
    JoinAfterSplit(value, DOT);
    hide Split, Join;
    a, b := Join(vs[..i], DOT), Join(vs[i..], DOT);
    assert vs == vs[..i] + vs[i..];
    JoinAppend(vs[..i], vs[i..], DOT);
    assert AllFree(vs[..i], DOT) && AllFree(vs[i..], DOT);
    SplitAfterJoin(vs[..i], DOT);
    SplitAfterJoin(vs[i..], DOT);
  }

  // The classification of a path: the first item whose pattern matches.

  datatype Status = Observed | Ignored | OutOfScope | Deferred {
    function Name(): Text {
      match this
      case Observed => [111, 98, 115, 101, 114, 118, 101, 100]
      case Ignored => [105, 103, 110, 111, 114, 101, 100]
      case OutOfScope => [111, 117, 116, 45, 111, 102, 45, 115, 99, 111, 112, 101]
      case Deferred => [100, 101, 102, 101, 114, 114, 101, 100]
    }
  }

  datatype Classification = Classification(pattern: Text, status: Status, area: Text)

  function Find(items: seq<Classification>, path: Text): (found: Option<Classification>)
    ensures found.None? <==> forall item | item in items :: !PathMatchesPattern(item.pattern, path)
    ensures found.Some? ==> exists i | 0 <= i < |items| ::
              && items[i] == found.value && PathMatchesPattern(items[i].pattern, path)
              && forall j | 0 <= j < i :: !PathMatchesPattern(items[j].pattern, path)
  {
    if items == [] then None
    else if PathMatchesPattern(items[0].pattern, path) then Some(items[0])
    else
      var rest := Find(items[1..], path);
      assert items == [items[0]] + items[1..];
      rest
  }

  // "unclassified"
  const UNCLASSIFIED: Text := [117, 110, 99, 108, 97, 115, 115, 105, 102, 105, 101, 100]

  function SummaryKey(classification: Option<Classification>): Text {
    match classification
    case None => UNCLASSIFIED
    case Some(c) => c.area + [DOT] + c.status.Name()
  }

  lemma NamesHaveNoDot(s: Status)
    ensures DOT !in s.Name()
  {
  }

  lemma {:induction false} SameAfterLastDot(a: Text, x: Text, b: Text, y: Text)
    requires a + [DOT] + x == b + [DOT] + y && DOT !in x && DOT !in y
    ensures a == b && x == y
  {
    var s := a + [DOT] + x;
    assert s[|a|] == DOT && s[|b|] == DOT;
    assert s[..|a|] == a && s[..|b|] == b;
    assert s[|a| + 1..] == x && s[|b| + 1..] == y;
  }

  lemma NamesDiffer(s: Status, t: Status)
    requires s.Name() == t.Name()
    ensures s == t
  {
    var a, b := s.Name(), t.Name();
    assert |a| == |b| && a[0] == b[0];
  }

  // No two kinds of entry share a line of the summary.
  lemma SummaryKeysDiffer(c: Option<Classification>, d: Option<Classification>)
    ensures SummaryKey(c) == SummaryKey(d)
       <==> match (c, d)
            case (None, None) => true
            case (Some(x), Some(y)) => x.area == y.area && x.status == y.status
            case _ => false
  {
    match (c, d)
    case (None, None) =>
    case (Some(x), Some(y)) =>
      hide SummaryKey;
      SomeKeysDiffer(x, y);
    case (Some(x), None) => assert SummaryKey(c)[|x.area|] == DOT;
    case (None, Some(y)) => assert SummaryKey(d)[|y.area|] == DOT;
  }

  lemma SomeKeysDiffer(x: Classification, y: Classification)
    ensures SummaryKey(Some(x)) == SummaryKey(Some(y)) <==> x.area == y.area && x.status == y.status
  {
    NamesHaveNoDot(x.status);
    NamesHaveNoDot(y.status);
    if SummaryKey(Some(x)) == SummaryKey(Some(y)) {
      SameAfterLastDot(x.area, x.status.Name(), y.area, y.status.Name());
      NamesDiffer(x.status, y.status);
    }
  }

  ghost function Total(counts: map<Text, nat>): nat {
    if counts == map[] then 0
    else
      var key :| key in counts;
      counts[key] + Total(counts - {key})
  }

  lemma {:induction false} TotalWithout(counts: map<Text, nat>, key: Text)
    requires key in counts
    ensures Total(counts) == counts[key] + Total(counts - {key})
    decreases |counts|
  {
    var picked :| picked in counts && Total(counts) == counts[picked] + Total(counts - {picked});
    if picked != key {
      TotalWithout(counts - {picked}, key);
      TotalWithout(counts - {key}, picked);
      assert counts - {picked} - {key} == counts - {key} - {picked};
    }
  }

  lemma TotalUpdate(counts: map<Text, nat>, key: Text, n: nat)
    ensures Total(counts[key := n]) == Total(counts) - (if key in counts then counts[key] else 0) + n
  {
    TotalWithout(counts[key := n], key);
    if key in counts {
      TotalWithout(counts, key);
      assert counts[key := n] - {key} == counts - {key};
    } else {
      assert counts[key := n] - {key} == counts;
    }
  }

  lemma TotalOfNone()
    ensures Total(map[]) == 0
  {
  }

  function SummaryKeys(entries: seq<Option<Classification>>): seq<Text> {
    seq(|entries|, i requires 0 <= i < |entries| => SummaryKey(entries[i]))
  }

  // Every entry is counted once, under its own key.
  method Summarize(entries: seq<Option<Classification>>) returns (counts: map<Text, nat>)
    ensures counts == Counts(SummaryKeys(entries))
    ensures Total(counts) == |entries|
  {
    hide Count, SummaryKey, Total;
    ghost var keys := SummaryKeys(entries);
    counts := map[];
    TotalOfNone();
    for i := 0 to |entries|
      invariant counts == Counts(keys[..i])
      invariant Total(counts) == i
    {
      var key := SummaryKey(entries[i]);
      PositiveCount(keys[..i], key);
      CountsSnoc(keys[..i], key);
      assert keys[..i + 1] == keys[..i] + [key];
      var n := if key in counts then counts[key] else 0;
      TotalUpdate(counts, key, n + 1);
      counts := counts[key := n + 1];
    }
    assert keys[..|entries|] == keys;
  }
}
