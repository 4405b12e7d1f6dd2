// The Android string resource that is written for a translated template.
module AndroidResource {
  import opened AndroidFormat
  import opened CodeUnits
  import opened Escapes
  import opened KotlinTemplate
  import opened Occurrences
  import opened PlainText
  import opened Wrappers

  // The renderer of the script: count the tokens, pair them by occurrence, write the conversions into
  // the gaps, escape the result.
  method RenderAndroidResourceValue(source: Text, translated: Text) returns (r: Result<Text, RenderError>)
    ensures r == match Rendered(source, translated)
                 case Err(e) => Err(e)
                 case Ok(t) => Ok(EscapeResource(t))
  {
    var rendered := translated;
    var sourceInterpolations := ReadKotlinInterpolations(source);
    var translatedInterpolations := ReadKotlinInterpolations(translated);
    if sourceInterpolations.None? || translatedInterpolations.None? {
      return Err(UnbalancedInterpolation);
    }
    var spans := translatedInterpolations.value;
    var sourceTokens := Tokens(sourceInterpolations.value);
    var translatedTokens := Tokens(spans);
    var sourceCounts := TokenCounts(sourceTokens);
    var translatedCounts := TokenCounts(translatedTokens);
    if sourceCounts != translatedCounts {
      return Err(ChangedInterpolations);
    }
    ScanIsLaid(translated, 0);
    if |sourceTokens| > 0 {
      rendered := RenderPositional(translated, spans, sourceTokens);
    }
    return Ok(EscapeResource(rendered));
  }

  // The table lists, for each token, its positions in increasing order.
  ghost predicate IsIndexTable(table: map<Text, seq<nat>>, tokens: seq<Text>) {
    forall t :: (t in table <==> t in tokens) && (t in table ==> table[t] == Positions(tokens, t))
  }

  lemma PositionsSnoc(tokens: seq<Text>, token: Text, t: Text)
    ensures Positions(tokens + [token], t) == Positions(tokens, t) + (if t == token then [|tokens| + 1] else [])
    ensures t in tokens + [token] <==> t in tokens || t == token
  {
    assert (tokens + [token])[..|tokens|] == tokens;
  }

  lemma IndexTableSnoc(table: map<Text, seq<nat>>, tokens: seq<Text>, token: Text)
    requires IsIndexTable(table, tokens)
    ensures var indices := if token in table then table[token] else [];
            IsIndexTable(table[token := indices + [|tokens| + 1]], tokens + [token])
  {
    var indices := if token in table then table[token] else [];
    PositiveCount(tokens, token);
    assert indices == Positions(tokens, token);
    hide Positions;
    forall t
      ensures Positions(tokens + [token], t) == Positions(tokens, t) + (if t == token then [|tokens| + 1] else [])
      ensures t in tokens + [token] <==> t in tokens || t == token
    {
      PositionsSnoc(tokens, token, t);
    }
  }

  method SourceIndices(sourceTokens: seq<Text>) returns (sourceIndices: map<Text, seq<nat>>)
    ensures IsIndexTable(sourceIndices, sourceTokens)
  {
    sourceIndices := map[];
    EmptyIndexTable();
    hide IsIndexTable;
    assert sourceTokens[..0] == [];
    for index := 0 to |sourceTokens|
      invariant IsIndexTable(sourceIndices, sourceTokens[..index])
    {
      var token := sourceTokens[index];
      var indices := if token in sourceIndices then sourceIndices[token] else [];
      IndexTableSnoc(sourceIndices, sourceTokens[..index], token);
      assert sourceTokens[..index + 1] == sourceTokens[..index] + [token];
      sourceIndices := sourceIndices[token := indices + [index + 1]];
    }
    assert sourceTokens[..|sourceTokens|] == sourceTokens;
  }

  lemma EmptyIndexTable()
    ensures IsIndexTable(map[], [])
  {
  }

  // A token that is not in the table has not occurred.
  lemma TableIsCount(tokens: seq<Text>, token: Text)
    ensures Count(tokens, token) == if token in Counts(tokens) then Counts(tokens)[token] else 0
  {
    PositiveCount(tokens, token);
  }

  // The index that the occurrence tables give for the k-th token is its match.
  lemma LookupIsMatch(sourceTokens: seq<Text>, tokens: seq<Text>, k: nat)
    requires Counts(sourceTokens) == Counts(tokens) && k < |tokens|
    ensures var token, counts := tokens[k], Counts(tokens[..k]);
            var occurrence := if token in counts then counts[token] else 0;
            && token in sourceTokens
            && occurrence < Count(sourceTokens, token)
            && Positions(sourceTokens, token)[occurrence] == Matching(sourceTokens, tokens)[k]
            && Counts(tokens[..k + 1]) == counts[token := occurrence + 1]
  {
    hide Counts, Positions;
    TableIsCount(tokens[..k], tokens[k]);
    CountsSnoc(tokens[..k], tokens[k]);
    assert tokens[..k + 1] == tokens[..k] + [tokens[k]];
    MatchIsThere(sourceTokens, tokens, k);
    PositiveCount(sourceTokens, tokens[k]);
  }

  lemma RenderOne(before: Text, s: Text, from: nat, spans: seq<Interpolation>, m: seq<nat>, k: nat)
    requires k < |spans| == |m| && Laid(s, from, spans[k..])
    ensures from <= spans[k].start <= spans[k].end <= |s| && Laid(s, spans[k].end, spans[k + 1..])
    ensures before + RenderFrom(s, from, spans[k..], m[k..])
         == before + DoublePercent(s[from..spans[k].start]) + Conversion(m[k])
            + RenderFrom(s, spans[k].end, spans[k + 1..], m[k + 1..])
  {
    assert spans[k..][0] == spans[k] && spans[k..][1..] == spans[k + 1..];
    assert m[k..][0] == m[k] && m[k..][1..] == m[k + 1..];
    RenderStep(s, from, spans[k..], m[k..]);
    hide RenderFrom, DoublePercent;
  }

  method RenderPositional(translated: Text, spans: seq<Interpolation>, sourceTokens: seq<Text>)
      returns (rendered: Text)
    requires Laid(translated, 0, spans) && Counts(sourceTokens) == Counts(Tokens(spans))
    ensures rendered == RenderFrom(translated, 0, spans, Matching(sourceTokens, Tokens(spans)))
  {
    hide RenderFrom, Counts, Matching, Positions, DoublePercent;
    var sourceIndices := SourceIndices(sourceTokens);
    var translatedOccurrences: map<Text, nat> := map[];
    var cursor: nat := 0;
    rendered := [];
    ghost var tokens := Tokens(spans);
    ghost var m := Matching(sourceTokens, tokens);
    var k := 0;
    assert spans[0..] == spans && m[0..] == m && tokens[..0] == [];
    NoCounts();
    while k < |spans|
      invariant 0 <= k <= |spans| && Laid(translated, cursor, spans[k..])
      invariant translatedOccurrences == Counts(tokens[..k])
      invariant rendered + RenderFrom(translated, cursor, spans[k..], m[k..]) == RenderFrom(translated, 0, spans, m)
    {
      var interpolation := spans[k];
      RenderOne(rendered, translated, cursor, spans, m, k);
      rendered := rendered + DoublePercent(translated[cursor..interpolation.start]);
      var token := interpolation.value;
      LookupIsMatch(sourceTokens, tokens, k);
      var occurrence := if token in translatedOccurrences then translatedOccurrences[token] else 0;
      translatedOccurrences := translatedOccurrences[token := occurrence + 1];
      if token in sourceIndices && occurrence < |sourceIndices[token]| {
        rendered := rendered + Conversion(sourceIndices[token][occurrence]);
      } else {
        rendered := rendered + token;
      }
      cursor := interpolation.end;
      k := k + 1;
    }
    RenderNone(translated, cursor, spans[k..], m[k..]);
    rendered := rendered + DoublePercent(translated[cursor..]);
  }

  lemma NoCounts()
    ensures Counts([]) == map[]
  {
  }

  lemma RenderNone(s: Text, from: nat, spans: seq<Interpolation>, m: seq<nat>)
    requires spans == [] && m == [] && from <= |s|
    ensures RenderFrom(s, from, spans, m) == DoublePercent(s[from..])
  {
  }

  // What a reader of the generated file gets back: the rendered value, with every letter n behind a
  // backslash turned into a newline. It is the rendered value itself exactly when the plain text of the
  // translation has no backslash directly before a letter n.
  lemma WrittenValueReadBack(source: Text, translated: Text)
    requires Rendered(source, translated).Ok?
    ensures Scan(translated, 0).Some?
    ensures var t := Rendered(source, translated).value;
            && DecodeXml(EscapeResource(t)) == Mangled(t)
            && (DecodeXml(EscapeResource(t)) == t <==> !HasPlainBackslashN(translated, Scan(translated, 0).value))
  {
    ResourceRoundTrip(Rendered(source, translated).value);
    RenderedBackslashN(source, translated);
  }

  // What a resource shows: it is formatted only when there are arguments.
  function Shown(resource: Text, args: seq<Text>): Option<Text> {
    if args == [] then Some(resource) else Format(resource, args)
  }

  // End to end: the text that the generated resource carries, read back and shown with the source's
  // values, is the Kotlin evaluation of the translation exactly when the plain text of the translation
  // has no backslash directly before a letter n.
  lemma GeneratedResourceMeansTranslation(source: Text, translated: Text, valueOf: Text -> Text)
    requires Rendered(source, translated).Ok?
    ensures Scan(source, 0).Some? && Scan(translated, 0).Some?
    ensures Shown(DecodeXml(EscapeResource(Rendered(source, translated).value)),
                  Values(Scan(source, 0).value, valueOf))
         == Evaluate(translated, valueOf)
       <==> !HasPlainBackslashN(translated, Scan(translated, 0).value)
  {
    var t := Rendered(source, translated).value;
    var args := Values(Scan(source, 0).value, valueOf);
    ResourceRoundTrip(t);
    RenderedBackslashN(source, translated);
    if Scan(source, 0) == Some([]) {
      PlainIsUnchanged(source, translated);
      EvaluatesToItself(translated, valueOf);
    } else {
      RenderingPreservesMeaning(source, translated, valueOf);
      EvaluationIsDefined(source, translated, valueOf);
      assert args != [];
      hide Format, Rendered, EscapeResource, DecodeXml;
      NewlinesShow(t, Mangled(t), args);
    }
  }

  lemma EvaluationIsDefined(source: Text, translated: Text, valueOf: Text -> Text)
    requires Rendered(source, translated).Ok?
    ensures Evaluate(translated, valueOf).Some?
  {
  }

  lemma EvaluatesToItself(translated: Text, valueOf: Text -> Text)
    requires Scan(translated, 0) == Some([])
    ensures Evaluate(translated, valueOf) == Some(translated)
  {
    assert translated[0..] == translated;
  }
}
