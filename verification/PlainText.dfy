// Where the plain text of a template has a backslash directly followed by the letter n, and that the
// rendered format has one exactly then.
module PlainText {
  import opened AndroidFormat
  import opened CodeUnits
  import opened Decimal
  import opened Escapes
  import opened KotlinTemplate
  import Occurrences
  import opened Wrappers

  predicate InSpan(spans: seq<Interpolation>, i: nat) {
    exists x | x in spans :: x.start <= i < x.end
  }

  // A letter n outside every interpolation stands right behind a backslash.
  predicate HasPlainBackslashN(template: Text, spans: seq<Interpolation>) {
    exists i | 0 < i < |template| :: BackslashNAt(template, i) && !InSpan(spans, i)
  }

  // ---------- Texts put together ----------

  predicate Meets(a: Text, b: Text) {
    a != [] && b != [] && a[|a| - 1] == BACKSLASH && b[0] == LETTER_N
  }

  lemma BackslashNOfAppend(a: Text, b: Text)
    ensures HasBackslashN(a + b) <==> HasBackslashN(a) || HasBackslashN(b) || Meets(a, b)
  {
    var s := a + b;
    if i :| 0 < i < |a| && BackslashNAt(a, i) {
      assert BackslashNAt(s, i);
    }
    if i :| 0 < i < |b| && BackslashNAt(b, i) {
      assert s[|a| + i - 1] == b[i - 1] && s[|a| + i] == b[i];
      assert BackslashNAt(s, |a| + i);
    }
    if Meets(a, b) {
      assert s[|a| - 1] == BACKSLASH && s[|a|] == LETTER_N;
      assert BackslashNAt(s, |a|);
    }
    if i :| 0 < i < |s| && BackslashNAt(s, i) {
      if i < |a| {
        assert BackslashNAt(a, i);
      } else if i > |a| {
        assert BackslashNAt(b, i - |a|);
      }
    }
  }

  lemma {:induction false} DoublePercentKeeps(t: Text)
    ensures HasBackslashN(DoublePercent(t)) <==> HasBackslashN(t)
    ensures t != [] ==> DoublePercent(t) != [] && DoublePercent(t)[0] == t[0]
    ensures t != [] ==> DoublePercent(t)[|DoublePercent(t)| - 1] == t[|t| - 1]
  {
    if t != [] {
      DoublePercentKeeps(t[1..]);
      var head := DoublePercent([t[0]]);
      HeadIs(t);
      hide DoublePercent, HasBackslashN;
      BackslashNOfAppend(head, DoublePercent(t[1..]));
      BackslashNOfAppend([t[0]], t[1..]);
      NoneInHead(t[0]);
      assert t == [t[0]] + t[1..];
    }
  }

  lemma HeadIs(t: Text)
    requires t != []
    ensures DoublePercent(t) == DoublePercent([t[0]]) + DoublePercent(t[1..])
    ensures DoublePercent([t[0]]) == if t[0] == PERCENT then [PERCENT, PERCENT] else [t[0]]
  {
    assert [t[0]][1..] == [];
    var head := if t[0] == PERCENT then [PERCENT, PERCENT] else [t[0]];
    assert head + [] == head;
  }

  lemma NoneInHead(c: CodeUnit)
    ensures !HasBackslashN([c]) && !HasBackslashN([PERCENT, PERCENT])
  {
  }

  lemma NoneInConversion(i: nat)
    ensures var c := Conversion(i);
            !HasBackslashN(c) && |c| > 1 && c[0] == PERCENT && c[|c| - 1] == LETTER_S
  {
    var d := Digits(i);
    var c := Conversion(i);
    assert forall k | 0 < k <= |d| :: c[k] == d[k - 1] && IsDigit(c[k]);
    assert c[|d| + 1] == DOLLAR && c[|d| + 2] == LETTER_S;
  }

  // ---------- The rendered template ----------

  // A gap has a backslash before a letter n.
  predicate GapsHave(s: Text, from: nat, spans: seq<Interpolation>)
    requires Laid(s, from, spans)
    decreases |spans|
  {
    if spans == [] then HasBackslashN(s[from..])
    else HasBackslashN(s[from..spans[0].start]) || GapsHave(s, spans[0].end, spans[1..])
  }

  lemma ConversionSeparates(gap: Text, i: nat, tail: Text)
    ensures HasBackslashN(DoublePercent(gap) + (Conversion(i) + tail)) <==> HasBackslashN(gap) || HasBackslashN(tail)
  {
    hide DoublePercent, Conversion, HasBackslashN;
    NoneInConversion(i);
    DoublePercentKeeps(gap);
    BackslashNOfAppend(Conversion(i), tail);
    BackslashNOfAppend(DoublePercent(gap), Conversion(i) + tail);
    assert (Conversion(i) + tail)[0] == Conversion(i)[0];
  }

  lemma {:induction false} RenderedGaps(s: Text, from: nat, spans: seq<Interpolation>, indices: seq<nat>)
    requires Laid(s, from, spans) && |indices| == |spans|
    ensures HasBackslashN(RenderFrom(s, from, spans, indices)) <==> GapsHave(s, from, spans)
    decreases |spans|
  {
    hide HasBackslashN, DoublePercent;
    if spans == [] {
      DoublePercentKeeps(s[from..]);
    } else {
      RenderedGaps(s, spans[0].end, spans[1..], indices[1..]);
      RenderStep(s, from, spans, indices);
      hide RenderFrom;
      ConversionSeparates(s[from..spans[0].start], indices[0], RenderFrom(s, spans[0].end, spans[1..], indices[1..]));
    }
  }

  // ---------- The condition on the template ----------

  // No interpolation ends in a backslash, and none begins with the letter n.
  lemma SpanEnds(s: Text, x: Interpolation)
    requires IsInterpolation(s, x)
    ensures x.start < x.end <= |s| && s[x.start] == DOLLAR && s[x.end - 1] != BACKSLASH
  {
    Bounds(s, x);
  }

  lemma BackslashNInSlice(s: Text, from: nat, to: nat)
    requires from <= to <= |s|
    ensures HasBackslashN(s[from..to]) <==> exists i | from < i < to :: BackslashNAt(s, i)
  {
    var t := s[from..to];
    if j :| 0 < j < |t| && BackslashNAt(t, j) {
      assert BackslashNAt(s, from + j);
    }
    if i :| from < i < to && BackslashNAt(s, i) {
      assert t[i - from - 1] == s[i - 1] && t[i - from] == s[i];
      assert BackslashNAt(t, i - from);
    }
  }

  // A letter n that stands right behind a backslash at or after `from`, in no span.
  predicate PlainFrom(s: Text, from: nat, spans: seq<Interpolation>) {
    exists i | from < i < |s| :: BackslashNAt(s, i) && !InSpan(spans, i)
  }

  lemma {:induction false} GapsMeaning(s: Text, from: nat, spans: seq<Interpolation>)
    requires Laid(s, from, spans) && IsScanOf(s, from, spans)
    requires from == 0 || s[from - 1] != BACKSLASH
    ensures GapsHave(s, from, spans) <==> PlainFrom(s, from, spans)
    decreases |spans|
  {
    if spans == [] {
      BackslashNInSlice(s, from, |s|);
      assert s[from..|s|] == s[from..];
    } else {
      var x, rest := spans[0], spans[1..];
      assert x in spans;
      SpanEnds(s, x);
      ScanRest(s, from, spans);
      GapsMeaning(s, x.end, rest);
      BackslashNInSlice(s, from, x.start);
      StepOverSpan(s, from, spans);
    }
  }

  lemma StepOverSpan(s: Text, from: nat, spans: seq<Interpolation>)
    requires spans != [] && IsScanOf(s, from, spans) && Laid(s, from, spans)
    ensures PlainFrom(s, from, spans)
       <==> (exists i | from < i < spans[0].start :: BackslashNAt(s, i)) || PlainFrom(s, spans[0].end, spans[1..])
  {
    var x, rest := spans[0], spans[1..];
    assert x in spans;
    SpanEnds(s, x);
    hide IsInterpolation, Covered, BackslashNAt, Laid;
    forall i: nat ensures InSpan(spans, i) <==> x.start <= i < x.end || InSpan(rest, i) {
      assert forall y :: y in spans <==> y == x || y in rest;
    }
    forall i: nat | i < x.end ensures !InSpan(rest, i) {
      assert forall y | y in rest :: x.end <= y.start;
    }
    if i :| from < i < |s| && BackslashNAt(s, i) && !InSpan(spans, i) {
      BoundaryIsNoBackslashN(s, x, i);
    }
    if i :| x.end < i < |s| && BackslashNAt(s, i) && !InSpan(rest, i) {
      assert !InSpan(spans, i);
    }
    if i :| from < i < x.start && BackslashNAt(s, i) {
      assert !InSpan(spans, i);
    }
  }

  lemma BoundaryIsNoBackslashN(s: Text, x: Interpolation, i: nat)
    requires 0 < i < |s| && x.start < x.end <= |s| && s[x.start] == DOLLAR && s[x.end - 1] != BACKSLASH
    requires BackslashNAt(s, i)
    ensures i != x.start && i != x.end
  {
  }

  // The rendered value has a backslash before a letter n exactly when the plain text of the translation
  // has one.
  lemma RenderedBackslashN(source: Text, translated: Text)
    requires Rendered(source, translated).Ok?
    ensures Scan(translated, 0).Some?
    ensures HasBackslashN(Rendered(source, translated).value)
       <==> HasPlainBackslashN(translated, Scan(translated, 0).value)
  {
    var spans := Scan(translated, 0).value;
    ScanIsLaid(translated, 0);
    ScanMeaning(translated);
    GapsMeaning(translated, 0, spans);
    if Scan(source, 0) == Some([]) {
      PlainIsUnchanged(source, translated);
      assert translated[0..] == translated;
    } else {
      RenderingIs(source, translated);
    }
    assert HasPlainBackslashN(translated, spans) <==> PlainFrom(translated, 0, spans);
  }

  lemma RenderingIs(source: Text, translated: Text)
    requires Rendered(source, translated).Ok? && Scan(source, 0) != Some([])
    ensures Scan(translated, 0).Some? && Laid(translated, 0, Scan(translated, 0).value)
    ensures HasBackslashN(Rendered(source, translated).value) <==> GapsHave(translated, 0, Scan(translated, 0).value)
  {
    var args := seq(|Scan(source, 0).value|, _ => []);
    RenderedMeaning(source, translated, args);
    var spans := Scan(translated, 0).value;
    var m := Occurrences.Matching(Tokens(Scan(source, 0).value), Tokens(spans));
    RenderedGaps(translated, 0, spans, m);
  }
}
