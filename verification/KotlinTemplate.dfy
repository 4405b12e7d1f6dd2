// Kotlin string templates and their Android positional formats.
//
// A text may hold interpolations `$name` and `${expression}`. The renderer replaces each of them by
// `%i$s`, where i is the position in the source text of the matching interpolation, and doubles every
// `%` in between, so that Android's formatter can put the values back.
module KotlinTemplate {
  import opened CodeUnits
  import opened DelimiterScan
  import opened Wrappers

  const KOTLIN_BRACES := Delimiters(LEFT_BRACE, RIGHT_BRACE, Quotes(true, true, false))

  predicate IsNameStart(c: CodeUnit) {
    IsLetter(c) || c == UNDERSCORE
  }

  // An interpolation starts at i.
  predicate Opens(s: Text, i: nat) {
    i + 1 < |s| && s[i] == DOLLAR && (s[i + 1] == LEFT_BRACE || IsNameStart(s[i + 1]))
  }

  // ---------- What an interpolation is ----------

  // s[i..e] is `$name` with the longest possible name, or `${body}` with a balanced body.
  ghost predicate IsSpan(s: Text, i: nat, e: nat) {
    && Opens(s, i) && i + 1 < e <= |s|
    && if s[i + 1] == LEFT_BRACE
       then s[e - 1] == RIGHT_BRACE && i + 2 < e && IsBody(KOTLIN_BRACES, s, i + 2, e - 1)
       else && (forall k | i + 2 <= k < e :: IsWordChar(s[k]))
            && (e < |s| ==> !IsWordChar(s[e]))
  }

  datatype Interpolation = Interpolation(start: nat, end: nat, value: Text)

  ghost predicate IsInterpolation(s: Text, x: Interpolation) {
    IsSpan(s, x.start, x.end) && x.value == s[x.start..x.end]
  }

  // The interpolations stand one after the other, none before `from`.
  ghost predicate InOrder(from: nat, spans: seq<Interpolation>) {
    && (forall k | 0 <= k < |spans| :: from <= spans[k].start)
    && (forall j, k | 0 <= j < k < |spans| :: spans[j].end <= spans[k].start)
  }

  // Every place at or after `from` where an interpolation starts lies inside a recorded one.
  ghost predicate Covered(s: Text, from: nat, spans: seq<Interpolation>) {
    forall i | from <= i && Opens(s, i) :: exists k :: 0 <= k < |spans| && spans[k].start <= i < spans[k].end
  }

  ghost predicate IsScanOf(s: Text, from: nat, spans: seq<Interpolation>) {
    && from <= |s|
    && (forall x | x in spans :: IsInterpolation(s, x))
    && InOrder(from, spans)
    && Covered(s, from, spans)
  }

  // ---------- The scanner ----------

  function NameEnd(s: Text, i: nat): (e: nat)
    requires i <= |s|
    ensures i <= e <= |s| && (e < |s| ==> !IsWordChar(s[e]))
    ensures forall k | i <= k < e :: IsWordChar(s[k])
    decreases |s| - i
  {
    if i < |s| && IsWordChar(s[i]) then NameEnd(s, i + 1) else i
  }

  function SpanEnd(s: Text, i: nat): (r: Option<nat>)
    requires Opens(s, i)
    ensures r.Some? ==> i + 1 < r.value <= |s|
  {
    if s[i + 1] == LEFT_BRACE then
      match ScanFrom(KOTLIN_BRACES, s, i + 2, State(1, Outside))
      case None => None
      case Some(k) => Some(k + 1)
    else Some(NameEnd(s, i + 2))
  }

  // The interpolations at or after i; None when a `${` is never closed.
  function Scan(s: Text, i: nat): Option<seq<Interpolation>>
    requires i <= |s|
    decreases |s| - i
  {
    if i == |s| then Some([])
    else if !Opens(s, i) then Scan(s, i + 1)
    else
      match SpanEnd(s, i)
      case None => None
      case Some(e) =>
        Prepend([Interpolation(i, e, s[i..e])], Scan(s, e))
  }

  function Prepend(front: seq<Interpolation>, r: Option<seq<Interpolation>>): Option<seq<Interpolation>> {
    match r
    case None => None
    case Some(rest) => Some(front + rest)
  }

  lemma PrependLaws(front: seq<Interpolation>, x: Interpolation, r: Option<seq<Interpolation>>)
    ensures Prepend([], r) == r
    ensures Prepend(front, Prepend([x], r)) == Prepend(front + [x], r)
    ensures Prepend(front, Some([])) == Some(front)
  {
    if r.Some? {
      assert [] + r.value == r.value;
      assert front + ([x] + r.value) == (front + [x]) + r.value;
    }
    assert front + [] == front;
  }

  lemma {:induction false} NameEndIs(s: Text, i: nat, e: nat)
    requires i <= e <= |s| && (forall k | i <= k < e :: IsWordChar(s[k])) && (e < |s| ==> !IsWordChar(s[e]))
    ensures NameEnd(s, i) == e
    decreases e - i
  {
    if i < e {
      NameEndIs(s, i + 1, e);
    }
  }

  lemma SpanEndMeaning(s: Text, i: nat, e: nat)
    requires Opens(s, i)
    ensures SpanEnd(s, i) == Some(e) <==> IsSpan(s, i, e)
  {
    if s[i + 1] == LEFT_BRACE {
      if e > i + 2 {
        ScanRecognisesBodies(KOTLIN_BRACES, s, i + 2, e - 1);
      }
    } else if IsSpan(s, i, e) {
      NameEndIs(s, i + 2, e);
    }
  }

  method ReadKotlinInterpolations(source: Text) returns (r: Option<seq<Interpolation>>)
    ensures r == Scan(source, 0)
  {
    var interpolations: seq<Interpolation> := [];
    var index := 0;
    PrependLaws([], Interpolation(0, 0, []), Scan(source, 0));
    while index < |source|
      invariant index <= |source|
      invariant Scan(source, 0) == Prepend(interpolations, Scan(source, index))
    {
      if source[index] != DOLLAR || index + 1 == |source|
         || (source[index + 1] != LEFT_BRACE && !IsNameStart(source[index + 1])) {
        index := index + 1;
        continue;
      }
      var start := index;
      if source[index + 1] != LEFT_BRACE {
        index := index + 2;
        while index < |source| && IsWordChar(source[index])
          invariant start + 2 <= index <= |source|
          invariant NameEnd(source, start + 2) == NameEnd(source, index)
        {
          index := index + 1;
        }
        PrependLaws(interpolations, Interpolation(start, index, source[start..index]), Scan(source, index));
        interpolations := interpolations + [Interpolation(start, index, source[start..index])];
        continue;
      }
      ghost var before := interpolations;
      var depth, quote, escaped := 1, None, false;
      index := index + 2;
      while index < |source|
        invariant start + 2 <= index <= |source| && depth != 0
        invariant escaped ==> quote.Some?
        invariant ScanFrom(KOTLIN_BRACES, source, start + 2, State(1, Outside))
               == ScanFrom(KOTLIN_BRACES, source, index, State(depth, ModeOf(quote, escaped)))
      {
        var character := source[index];
        if escaped {
          escaped := false;
        } else if quote.Some? && character == BACKSLASH {
          escaped := true;
        } else if quote == Some(character) {
          quote := None;
        } else if quote.None? && (character == DOUBLE_QUOTE || character == SINGLE_QUOTE) {
          quote := Some(character);
        } else if quote.None? && character == LEFT_BRACE {
          depth := depth + 1;
        } else if quote.None? && character == RIGHT_BRACE {
          depth := depth - 1;
          if depth == 0 {
            interpolations := interpolations + [Interpolation(start, index + 1, source[start..index + 1])];
            break;
          }
        }
        index := index + 1;
      }
      if depth != 0 {
        return None;
      }
      index := index + 1;
      PrependLaws(before, Interpolation(start, index, source[start..index]), Scan(source, index));
    }
    PrependLaws(interpolations, Interpolation(0, 0, []), Some([]));
    return Some(interpolations);
  }

  function ModeOf(quote: Option<CodeUnit>, escaped: bool): Mode {
    match quote
    case None => Outside
    case Some(q) => if escaped then Escape(q) else Inside(q)
  }

  // ---------- The scanner finds the interpolations, all of them, and nothing else ----------

  lemma {:induction false} ScanSound(s: Text, i: nat)
    requires i <= |s| && Scan(s, i).Some?
    ensures IsScanOf(s, i, Scan(s, i).value)
    decreases |s| - i
  {
    if i == |s| {
    } else if !Opens(s, i) {
      ScanSound(s, i + 1);
    } else {
      var e := SpanEnd(s, i).value;
      var rest := Scan(s, e).value;
      SpanEndMeaning(s, i, e);
      ScanSound(s, e);
      ScanCons(s, i, Interpolation(i, e, s[i..e]), rest);
    }
  }

  lemma Bounds(s: Text, x: Interpolation)
    requires IsInterpolation(s, x)
    ensures Opens(s, x.start) && x.start + 1 < x.end <= |s|
  {
  }

  lemma ScanCons(s: Text, i: nat, first: Interpolation, rest: seq<Interpolation>)
    requires first.start == i && IsInterpolation(s, first) && IsScanOf(s, first.end, rest)
    ensures IsScanOf(s, i, [first] + rest)
  {
    Bounds(s, first);
    hide IsInterpolation, Opens;
    var spans := [first] + rest;
    forall j | i <= j && Opens(s, j) ensures exists k :: 0 <= k < |spans| && spans[k].start <= j < spans[k].end {
      if j < first.end {
        assert spans[0].start <= j < spans[0].end;
      } else {
        var k :| 0 <= k < |rest| && rest[k].start <= j < rest[k].end;
        assert spans[k + 1] == rest[k];
      }
    }
  }

  lemma {:induction false} ScanComplete(s: Text, i: nat, spans: seq<Interpolation>)
    requires IsScanOf(s, i, spans)
    ensures Scan(s, i) == Some(spans)
    decreases |s| - i
  {
    if i == |s| {
      hide IsInterpolation;
      if spans != [] {
        Bounds(s, spans[0]);
      }
    } else if !Opens(s, i) {
      ScanSkip(s, i, spans);
      ScanComplete(s, i + 1, spans);
    } else {
      ScanUncons(s, i, spans);
      hide IsScanOf, IsBody, Covered;
      SpanEndMeaning(s, i, spans[0].end);
      ScanComplete(s, spans[0].end, spans[1..]);
      assert spans == [spans[0]] + spans[1..];
    }
  }

  lemma ScanSkip(s: Text, i: nat, spans: seq<Interpolation>)
    requires i < |s| && !Opens(s, i) && IsScanOf(s, i, spans)
    ensures IsScanOf(s, i + 1, spans)
  {
    forall k | 0 <= k < |spans| ensures i + 1 <= spans[k].start {
      Bounds(s, spans[k]);
    }
  }

  lemma ScanRest(s: Text, i: nat, spans: seq<Interpolation>)
    requires spans != [] && IsScanOf(s, i, spans)
    ensures IsScanOf(s, spans[0].end, spans[1..])
  {
    assert spans[0] in spans;
    Bounds(s, spans[0]);
    hide IsInterpolation, Opens;
    var rest := spans[1..];
    forall j | spans[0].end <= j && Opens(s, j) ensures exists k :: 0 <= k < |rest| && rest[k].start <= j < rest[k].end {
      var k :| 0 <= k < |spans| && spans[k].start <= j < spans[k].end;
      assert rest[k - 1] == spans[k];
    }
  }

  lemma ScanUncons(s: Text, i: nat, spans: seq<Interpolation>)
    requires Opens(s, i) && IsScanOf(s, i, spans)
    ensures spans != [] && spans[0].start == i && IsInterpolation(s, spans[0])
    ensures IsScanOf(s, spans[0].end, spans[1..])
  {
    hide IsInterpolation;
    var first :| 0 <= first < |spans| && spans[first].start <= i < spans[first].end;
    Bounds(s, spans[0]);
    ScanRest(s, i, spans);
  }

  // The scanner's answer is the only list of interpolations there is, and it answers nothing exactly
  // when there is none.
  lemma ScanMeaning(s: Text)
    ensures forall spans :: Scan(s, 0) == Some(spans) <==> IsScanOf(s, 0, spans)
    ensures Scan(s, 0).None? <==> forall spans :: !IsScanOf(s, 0, spans)
  {
    forall spans ensures Scan(s, 0) == Some(spans) <==> IsScanOf(s, 0, spans) {
      if Scan(s, 0) == Some(spans) {
        ScanSound(s, 0);
      }
      if IsScanOf(s, 0, spans) {
        ScanComplete(s, 0, spans);
      }
    }
    if Scan(s, 0).Some? {
      ScanSound(s, 0);
    }
  }
}
