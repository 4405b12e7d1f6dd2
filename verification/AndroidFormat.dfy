// Rendering a translated Kotlin template as an Android format string, and what the format means.
module AndroidFormat {
  import opened CodeUnits
  import opened Decimal
  import opened KotlinTemplate
  import opened Occurrences
  import opened Wrappers

  // ---------- Templates with values put in ----------

  // The spans lie one after the other in s, from `from` on.
  predicate Laid(s: Text, from: nat, spans: seq<Interpolation>)
    decreases |spans|
  {
    && from <= |s|
    && (spans != [] ==>
          from <= spans[0].start <= spans[0].end <= |s| && Laid(s, spans[0].end, spans[1..]))
  }

  // s from `from` on, with the k-th span replaced by vals[k].
  function Fill(s: Text, from: nat, spans: seq<Interpolation>, vals: seq<Text>): Text
    requires Laid(s, from, spans) && |vals| == |spans|
    decreases |spans|
  {
    if spans == [] then s[from..]
    else s[from..spans[0].start] + vals[0] + Fill(s, spans[0].end, spans[1..], vals[1..])
  }

  function Tokens(spans: seq<Interpolation>): (tokens: seq<Text>)
    ensures |tokens| == |spans|
  {
    seq(|spans|, k requires 0 <= k < |spans| => spans[k].value)
  }

  lemma {:induction false} ScanIsLaid(s: Text, i: nat)
    requires i <= |s| && Scan(s, i).Some?
    ensures Laid(s, i, Scan(s, i).value)
    decreases |s| - i
  {
    if i < |s| && !Opens(s, i) {
      ScanIsLaid(s, i + 1);
    } else if i < |s| {
      var e := SpanEnd(s, i).value;
      ScanIsLaid(s, e);
      var spans := Scan(s, i).value;
      assert spans[1..] == Scan(s, e).value;
    }
  }

  // The recorded interpolations and the gaps between them tile the text.
  lemma {:induction false} SpansAndGapsTile(s: Text, i: nat, spans: seq<Interpolation>)
    requires IsScanOf(s, i, spans) && Laid(s, i, spans)
    ensures Fill(s, i, spans, Tokens(spans)) == s[i..]
    decreases |spans|
  {
    if spans != [] {
      var x, rest := spans[0], spans[1..];
      assert x in spans;
      Bounds(s, x);
      assert Tokens(spans)[1..] == Tokens(rest);
      assert IsScanOf(s, x.end, rest) by {
        ScanRest(s, i, spans);
      }
      SpansAndGapsTile(s, x.end, rest);
      assert s[i..] == s[i..x.start] + s[x.start..x.end] + s[x.end..];
    }
  }

  // ---------- Rendering ----------

  // replaceAll("%", "%%")
  function DoublePercent(t: Text): Text {
    if t == [] then []
    else (if t[0] == PERCENT then [PERCENT, PERCENT] else [t[0]]) + DoublePercent(t[1..])
  }

  // The conversion `%i$s`.
  function Conversion(i: nat): Text {
    [PERCENT] + Digits(i) + [DOLLAR, LETTER_S]
  }

  function RenderFrom(s: Text, from: nat, spans: seq<Interpolation>, indices: seq<nat>): Text
    requires Laid(s, from, spans) && |indices| == |spans|
    decreases |spans|
  {
    if spans == [] then DoublePercent(s[from..])
    else
      DoublePercent(s[from..spans[0].start]) + Conversion(indices[0])
      + RenderFrom(s, spans[0].end, spans[1..], indices[1..])
  }

  datatype RenderError = UnbalancedInterpolation | ChangedInterpolations

  // The rendered value before it is escaped for XML.
  function Rendered(source: Text, translated: Text): Result<Text, RenderError> {
    var sourceSpans, spans := Scan(source, 0), Scan(translated, 0);
    if sourceSpans.None? || spans.None? then Err(UnbalancedInterpolation)
    else
      var sourceTokens, tokens := Tokens(sourceSpans.value), Tokens(spans.value);
      if Counts(sourceTokens) != Counts(tokens) then Err(ChangedInterpolations)
      else if sourceTokens == [] then Ok(translated)
      else
        ScanIsLaid(translated, 0);
        Ok(RenderFrom(translated, 0, spans.value, Matching(sourceTokens, tokens)))
  }

  // When the renderer succeeds and how it fails: it refuses a text without a list of interpolations, and
  // interpolations that are not a rearrangement of those of the source, and nothing else.
  lemma RenderedExactly(source: Text, translated: Text)
    ensures Rendered(source, translated) == Err(UnbalancedInterpolation)
       <==> (forall spans :: !IsScanOf(source, 0, spans)) || (forall spans :: !IsScanOf(translated, 0, spans))
    ensures forall a, b | IsScanOf(source, 0, a) && IsScanOf(translated, 0, b) ::
              if multiset(Tokens(a)) == multiset(Tokens(b)) then Rendered(source, translated).Ok?
              else Rendered(source, translated) == Err(ChangedInterpolations)
  {
    ScanMeaning(source);
    ScanMeaning(translated);
    forall a, b | IsScanOf(source, 0, a) && IsScanOf(translated, 0, b)
      ensures if multiset(Tokens(a)) == multiset(Tokens(b)) then Rendered(source, translated).Ok?
              else Rendered(source, translated) == Err(ChangedInterpolations)
    {
      CountsAgree(Tokens(a), Tokens(b));
    }
    hide IsScanOf, Scan, Counts, Tokens, RenderFrom, Matching;
  }

  // ---------- Android's formatter ----------

  function DigitsEnd(f: Text, i: nat): (e: nat)
    requires i <= |f|
    ensures i <= e <= |f| && (forall k | i <= k < e :: IsDigit(f[k])) && (e < |f| ==> !IsDigit(f[e]))
    decreases |f| - i
  {
    if i < |f| && IsDigit(f[i]) then DigitsEnd(f, i + 1) else i
  }

  function Cons(front: Text, rest: Option<Text>): Option<Text> {
    match rest
    case None => None
    case Some(t) => Some(front + t)
  }

  // The formatter's answer for the argument list: `%%` is a percent sign, `%i$s` the i-th argument.
  // No other conversion is part of this model.
  function Format(f: Text, args: seq<Text>): Option<Text> {
    if f == [] then Some([])
    else if f[0] != PERCENT then Cons([f[0]], Format(f[1..], args))
    else if |f| >= 2 && f[1] == PERCENT then Cons([PERCENT], Format(f[2..], args))
    else
      var e := DigitsEnd(f, 1);
      if 1 < e && e + 1 < |f| && f[e] == DOLLAR && f[e + 1] == LETTER_S then
        assert AllDigits(f[1..e]);
        var i := Value(f[1..e]);
        if 1 <= i <= |args| then Cons(args[i - 1], Format(f[e + 2..], args)) else None
      else None
  }

  lemma ConsCons(a: Text, b: Text, rest: Option<Text>)
    ensures Cons(a, Cons(b, rest)) == Cons(a + b, rest)
    ensures Cons([], rest) == rest
  {
    if rest.Some? {
      assert a + (b + rest.value) == a + b + rest.value;
      assert [] + rest.value == rest.value;
    }
  }

  lemma FormatUnit(c: CodeUnit, rest: Text, args: seq<Text>)
    ensures Format(DoublePercent([c]) + rest, args) == Cons([c], Format(rest, args))
  {
    var unit := if c == PERCENT then [PERCENT, PERCENT] else [c];
    assert unit + [] == unit;
    assert DoublePercent([c]) == unit;
    assert (unit + rest)[|unit|..] == rest;
  }

  lemma {:induction false} FormatGap(gap: Text, rest: Text, args: seq<Text>)
    ensures Format(DoublePercent(gap) + rest, args) == Cons(gap, Format(rest, args))
  {
    hide Format;
    if gap == [] {
      assert DoublePercent(gap) + rest == rest;
      ConsCons([], [], Format(rest, args));
    } else {
      var tail := DoublePercent(gap[1..]) + rest;
      FormatGap(gap[1..], rest, args);
      FormatUnit(gap[0], tail, args);
      assert DoublePercent(gap) + rest == DoublePercent([gap[0]]) + tail;
      ConsCons([gap[0]], gap[1..], Format(rest, args));
      assert [gap[0]] + gap[1..] == gap;
    }
  }

  lemma {:induction false} DigitsEndIs(f: Text, i: nat, e: nat)
    requires i <= e < |f| && (forall k | i <= k < e :: IsDigit(f[k])) && !IsDigit(f[e])
    ensures DigitsEnd(f, i) == e
    decreases e - i
  {
    if i < e {
      DigitsEndIs(f, i + 1, e);
    }
  }

  lemma FormatConversion(i: nat, rest: Text, args: seq<Text>)
    requires 1 <= i <= |args|
    ensures Format(Conversion(i) + rest, args) == Cons(args[i - 1], Format(rest, args))
  {
    var d := Digits(i);
    var f := Conversion(i) + rest;
    var e := 1 + |d|;
    assert f == [PERCENT] + d + [DOLLAR, LETTER_S] + rest;
    assert f[1..e] == d && f[e] == DOLLAR && f[e + 1] == LETTER_S && f[e + 2..] == rest;
    forall k | 1 <= k < e ensures IsDigit(f[k]) {
      assert f[k] == d[k - 1];
    }
    DigitsEndIs(f, 1, e);
    assert f[1] == d[0] && IsDigit(d[0]);
  }

  function Arguments(args: seq<Text>, indices: seq<nat>): (vals: seq<Text>)
    requires forall k | 0 <= k < |indices| :: 1 <= indices[k] <= |args|
    ensures |vals| == |indices|
  {
    seq(|indices|, k requires 0 <= k < |indices| => args[indices[k] - 1])
  }

  // Formatting a rendered template puts the chosen arguments where the interpolations stood.
  lemma {:induction false} FormatRendered(
      s: Text, from: nat, spans: seq<Interpolation>, indices: seq<nat>, args: seq<Text>)
    requires Laid(s, from, spans) && |indices| == |spans|
    requires forall k | 0 <= k < |indices| :: 1 <= indices[k] <= |args|
    ensures Format(RenderFrom(s, from, spans, indices), args)
         == Some(Fill(s, from, spans, Arguments(args, indices)))
    decreases |spans|
  {
    hide Format, RenderFrom, DoublePercent;
    if spans == [] {
      FormatLastGap(s, from, args);
    } else {
      var x, rest := spans[0], spans[1..];
      var gap, tail := s[from..x.start], RenderFrom(s, x.end, rest, indices[1..]);
      var vals := Arguments(args, indices);
      FormatRendered(s, x.end, rest, indices[1..], args);
      FormatConversion(indices[0], tail, args);
      FormatGap(gap, Conversion(indices[0]) + tail, args);
      assert vals[1..] == Arguments(args, indices[1..]);
      ConsCons(gap, vals[0], Format(tail, args));
      RenderStep(s, from, spans, indices);
      assert Format(RenderFrom(s, from, spans, indices), args) == Cons(gap + vals[0], Format(tail, args));
    }
  }

  lemma FormatLastGap(s: Text, from: nat, args: seq<Text>)
    requires from <= |s|
    ensures Format(RenderFrom(s, from, [], []), args) == Some(s[from..])
  {
    var gap := DoublePercent(s[from..]);
    FormatGap(s[from..], [], args);
    assert gap + [] == gap && s[from..] + [] == s[from..];
  }

  lemma RenderStep(s: Text, from: nat, spans: seq<Interpolation>, indices: seq<nat>)
    requires Laid(s, from, spans) && |indices| == |spans| && spans != []
    ensures RenderFrom(s, from, spans, indices)
         == DoublePercent(s[from..spans[0].start])
            + (Conversion(indices[0]) + RenderFrom(s, spans[0].end, spans[1..], indices[1..]))
  {
  }

  // ---------- The compiler is correct ----------

  // The values of the interpolated expressions, in the order of the spans.
  function Values(spans: seq<Interpolation>, valueOf: Text -> Text): (vals: seq<Text>)
    ensures |vals| == |spans|
    ensures forall k | 0 <= k < |spans| :: vals[k] == valueOf(spans[k].value)
  {
    seq(|spans|, k requires 0 <= k < |spans| => valueOf(spans[k].value))
  }

  // The translated template with each interpolation replaced by its value.
  function Evaluate(template: Text, valueOf: Text -> Text): Option<Text> {
    match Scan(template, 0)
    case None => None
    case Some(spans) =>
      ScanIsLaid(template, 0);
      Some(Fill(template, 0, spans, Values(spans, valueOf)))
  }

  // With one argument per interpolation of the source, in source order, formatting the rendered value
  // fills the k-th interpolation of the translation with the argument of the source interpolation that
  // it is paired with; the pairing is by equal text, one to one, and by occurrence.
  lemma RenderedMeaning(source: Text, translated: Text, args: seq<Text>)
    requires Rendered(source, translated).Ok?
    requires Scan(source, 0) != Some([]) && |args| == |Scan(source, 0).value|
    ensures Scan(translated, 0).Some? && Laid(translated, 0, Scan(translated, 0).value)
    ensures var sourceTokens, spans := Tokens(Scan(source, 0).value), Scan(translated, 0).value;
            Counts(sourceTokens) == Counts(Tokens(spans)) &&
            var m := Matching(sourceTokens, Tokens(spans));
            && IsMatching(sourceTokens, Tokens(spans), m)
            && Format(Rendered(source, translated).value, args)
               == Some(Fill(translated, 0, spans, Arguments(args, m)))
  {
    var sourceTokens, spans := Tokens(Scan(source, 0).value), Scan(translated, 0).value;
    MatchingIsMatching(sourceTokens, Tokens(spans));
    ScanIsLaid(translated, 0);
    FormatRendered(translated, 0, spans, Matching(sourceTokens, Tokens(spans)), args);
  }

  // In particular, whatever the interpolated expressions evaluate to, the Android format of the
  // rendered value and the Kotlin evaluation of the translated template are the same text.
  lemma RenderingPreservesMeaning(source: Text, translated: Text, valueOf: Text -> Text)
    requires Rendered(source, translated).Ok? && Scan(source, 0) != Some([])
    ensures Format(Rendered(source, translated).value, Values(Scan(source, 0).value, valueOf))
         == Evaluate(translated, valueOf)
  {
    var sourceSpans, spans := Scan(source, 0).value, Scan(translated, 0).value;
    var args := Values(sourceSpans, valueOf);
    RenderedMeaning(source, translated, args);
    var m := Matching(Tokens(sourceSpans), Tokens(spans));
    ArgumentsOfMatching(sourceSpans, spans, m, valueOf);
  }

  lemma ArgumentsOfMatching(
      sourceSpans: seq<Interpolation>, spans: seq<Interpolation>, m: seq<nat>, valueOf: Text -> Text)
    requires IsMatching(Tokens(sourceSpans), Tokens(spans), m)
    ensures Arguments(Values(sourceSpans, valueOf), m) == Values(spans, valueOf)
  {
    forall k | 0 <= k < |m| ensures sourceSpans[m[k] - 1].value == spans[k].value {
      assert Tokens(sourceSpans)[m[k] - 1] == Tokens(spans)[k];
    }
  }

  lemma NoTokensNoCounts(tokens: seq<Text>)
    ensures Counts(tokens) == Counts([]) ==> tokens == []
  {
    if tokens != [] {
      assert tokens[0] in Counts(tokens);
    }
  }

  // A translation without interpolations is left alone, percent signs included.
  lemma PlainIsUnchanged(source: Text, translated: Text)
    requires Scan(source, 0) == Some([]) && Rendered(source, translated).Ok?
    ensures Rendered(source, translated).value == translated && Scan(translated, 0) == Some([])
  {
    assert Tokens([]) == [];
    NoTokensNoCounts(Tokens(Scan(translated, 0).value));
  }

  // ---------- Formats that differ in plain text ----------

  // u is t with some letters n turned into newlines.
  ghost predicate TurnsNewlines(t: Text, u: Text) {
    |u| == |t| && forall i | 0 <= i < |t| :: u[i] == t[i] || (t[i] == LETTER_N && u[i] == LF)
  }

  lemma TurnsRest(t: Text, u: Text, n: nat)
    requires TurnsNewlines(t, u) && n <= |t|
    ensures TurnsNewlines(t[n..], u[n..])
    ensures u[..n] == t[..n] && u[n..] == t[n..] ==> u == t
  {
    assert t == t[..n] + t[n..] && u == u[..n] + u[n..];
  }

  lemma ConsTells(a: Text, b: Text, s: Option<Text>, t: Option<Text>)
    requires |a| == |b| && (s.Some? <==> t.Some?)
    ensures Cons(a, s) == Cons(b, t) && s.Some? ==> a == b && s == t
  {
    if s.Some? && Cons(a, s) == Cons(b, t) {
      assert (a + s.value)[..|a|] == a && (b + t.value)[..|a|] == b;
      assert (a + s.value)[|a|..] == s.value && (b + t.value)[|a|..] == t.value;
    }
  }

  // The formatter reads a percent sign and what follows it alike in both.
  lemma SameConversion(t: Text, u: Text)
    requires TurnsNewlines(t, u) && t != [] && t[0] == PERCENT
    ensures u[0] == PERCENT && (|t| >= 2 && t[1] == PERCENT ==> u[1] == PERCENT)
    ensures |t| >= 2 && t[1] != PERCENT ==> u[1] != PERCENT
    ensures var e := DigitsEnd(t, 1);
            e + 1 < |t| && t[e] == DOLLAR && t[e + 1] == LETTER_S ==>
              DigitsEnd(u, 1) == e && u[e] == DOLLAR && u[e + 1] == LETTER_S && u[..e + 2] == t[..e + 2]
  {
    var e := DigitsEnd(t, 1);
    if e + 1 < |t| && t[e] == DOLLAR && t[e + 1] == LETTER_S {
      assert forall k | 1 <= k < e :: IsDigit(t[k]);
      assert forall k | 0 <= k < e + 2 :: u[k] == t[k];
      DigitsEndIs(u, 1, e);
    }
  }

  // A format that works still works with newlines for some letters n, but it never gives the same text.
  lemma {:induction false} NewlinesShow(t: Text, u: Text, args: seq<Text>)
    requires TurnsNewlines(t, u) && Format(t, args).Some?
    ensures Format(u, args).Some?
    ensures Format(u, args) == Format(t, args) ==> u == t
    decreases |t|, 1
  {
    if t == [] {
    } else if t[0] != PERCENT {
      TurnsRest(t, u, 1);
      NewlinesShow(t[1..], u[1..], args);
      ConsTells([t[0]], [u[0]], Format(t[1..], args), Format(u[1..], args));
    } else {
      SameConversion(t, u);
      if |t| >= 2 && t[1] == PERCENT {
        TurnsRest(t, u, 2);
        NewlinesShow(t[2..], u[2..], args);
        ConsTells([PERCENT], [PERCENT], Format(t[2..], args), Format(u[2..], args));
      } else {
        var e := DigitsEnd(t, 1);
        ConversionShows(t, u, args, e);
      }
    }
  }

  lemma {:induction false} ConversionShows(t: Text, u: Text, args: seq<Text>, e: nat)
    requires TurnsNewlines(t, u) && t != [] && t[0] == PERCENT && !(|t| >= 2 && t[1] == PERCENT)
    requires e == DigitsEnd(t, 1) && Format(t, args).Some?
    ensures Format(u, args).Some?
    ensures Format(u, args) == Format(t, args) ==> u == t
    decreases |t|, 0
  {
    SameConversion(t, u);
    assert u[1..e] == t[1..e];
    TurnsRest(t, u, e + 2);
    var i := Value(t[1..e]);
    NewlinesShow(t[e + 2..], u[e + 2..], args);
    ConsTells(args[i - 1], args[i - 1], Format(t[e + 2..], args), Format(u[e + 2..], args));
  }
}
