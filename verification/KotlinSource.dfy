// Reading Kotlin source: the end of a bracketed block, and the parts of a parameter or argument list.
module KotlinSource {
  import opened CodeUnits
  import opened Wrappers
  import opened DelimiterScan

  const ONLY_DOUBLE := Quotes(false, true, false)

  function Flags(quoted: bool, escaped: bool): Mode {
    if escaped then Escape(DOUBLE_QUOTE) else if quoted then Inside(DOUBLE_QUOTE) else Outside
  }

  lemma FlagStep(d: Delimiters, source: Text, i: nat, depth: int, quoted: bool, escaped: bool)
    requires i < |source| && d.quotes == ONLY_DOUBLE && (escaped ==> quoted)
    requires !(Flags(quoted, escaped) == Outside && Closes(d, State(depth, Outside), source[i]))
    ensures ScanFrom(d, source, i, State(depth, Flags(quoted, escaped)))
         == ScanFrom(d, source, i + 1, Step(d, State(depth, Flags(quoted, escaped)), source[i]))
  {
  }

  // The delimiter that closes the one at the opening offset. Only double quotes begin a quotation.
  method FindClosingDelimiter(source: Text, openingOffset: nat, opening: CodeUnit, closing: CodeUnit)
      returns (r: Option<nat>)
    requires Delimiters(opening, closing, ONLY_DOUBLE).Valid()
    ensures openingOffset < |source| && source[openingOffset] == opening ==>
              forall k: nat :: r == Some(k) <==>
                k < |source| && source[k] == closing
                && IsBody(Delimiters(opening, closing, ONLY_DOUBLE), source, openingOffset + 1, k)
  {
    hide IsBody, ScanFrom;
    ghost var d := Delimiters(opening, closing, ONLY_DOUBLE);
    if openingOffset >= |source| {
      return None;
    }
    ghost var found := ScanFrom(d, source, openingOffset, State(0, Outside));
    OpeningFound(d, source, openingOffset);
    var depth := 0;
    var quoted, escaped := false, false;
    for index := openingOffset to |source|
      invariant escaped ==> quoted
      invariant found == ScanFrom(d, source, index, State(depth, Flags(quoted, escaped)))
    {
      var character := source[index];
      if Flags(quoted, escaped) == Outside && Closes(d, State(depth, Outside), character) {
        ScanCloses(d, source, index, depth);
      } else {
        FlagStep(d, source, index, depth, quoted, escaped);
      }
      if escaped {
        escaped := false;
        continue;
      }
      if quoted && character == BACKSLASH {
        escaped := true;
        continue;
      }
      if character == DOUBLE_QUOTE {
        quoted := !quoted;
        continue;
      }
      if quoted {
        continue;
      }
      if character == opening {
        depth := depth + 1;
      } else if character == closing {
        depth := depth - 1;
        if depth == 0 {
          return Some(index);
        }
      }
    }
    ScanEnds(d, source, State(depth, Flags(quoted, escaped)));
    return None;
  }

  lemma ScanCloses(d: Delimiters, source: Text, i: nat, depth: int)
    requires i < |source| && Closes(d, State(depth, Outside), source[i])
    ensures ScanFrom(d, source, i, State(depth, Outside)) == Some(i)
  {
  }

  lemma ScanEnds(d: Delimiters, source: Text, st: State)
    ensures ScanFrom(d, source, |source|, st) == None
  {
  }

  lemma OpeningFound(d: Delimiters, source: Text, i: nat)
    requires i < |source| && d.Valid()
    ensures source[i] == d.open ==>
              forall k: nat :: ScanFrom(d, source, i, State(0, Outside)) == Some(k) <==>
                k < |source| && source[k] == d.close && IsBody(d, source, i + 1, k)
  {
    if source[i] == d.open {
      OneStep(d, source, i, State(0, Outside), State(1, Outside));
      hide ScanFrom, IsBody;
      forall k: nat
        ensures ScanFrom(d, source, i, State(0, Outside)) == Some(k) <==>
                  k < |source| && source[k] == d.close && IsBody(d, source, i + 1, k)
      {
        ScanRecognisesBodies(d, source, i + 1, k);
      }
    }
  }

  // ---------- Splitting a list at its top-level commas ----------

  datatype ListState = ListState(
    mode: Mode, paren: int, bracket: int, brace: int, typeArgument: nat, inDefault: bool)
  {
    predicate AtTop() {
      paren == 0 && bracket == 0 && brace == 0
    }
  }

  function Turn(c: CodeUnit, open: CodeUnit, close: CodeUnit): int {
    if c == open then 1 else if c == close then -1 else 0
  }

  predicate IsBracket(c: CodeUnit) {
    c == LEFT_PAREN || c == LEFT_BRACKET || c == LEFT_BRACE || c == RIGHT_PAREN || c == RIGHT_BRACKET || c == RIGHT_BRACE
  }

  const EQUALS: CodeUnit := 61

  // Type arguments `<...>` are followed only when tracked, and not inside a default value.
  function ListStep(track: bool, st: ListState, c: CodeUnit): ListState {
    match st.mode
    case Escape(q) => st.(mode := Inside(q))
    case Inside(q) =>
      if c == BACKSLASH then st.(mode := Escape(q)) else if c == DOUBLE_QUOTE then st.(mode := Outside) else st
    case Outside =>
      if c == DOUBLE_QUOTE then st.(mode := Inside(DOUBLE_QUOTE))
      else if track && !st.inDefault && c == LESS then st.(typeArgument := st.typeArgument + 1)
      else if track && c == GREATER && st.typeArgument > 0 then st.(typeArgument := st.typeArgument - 1)
      else if IsBracket(c) then
        st.(paren := st.paren + Turn(c, LEFT_PAREN, RIGHT_PAREN),
            bracket := st.bracket + Turn(c, LEFT_BRACKET, RIGHT_BRACKET),
            brace := st.brace + Turn(c, LEFT_BRACE, RIGHT_BRACE))
      else if track && c == EQUALS && st.typeArgument == 0 && st.AtTop() then st.(inDefault := true)
      else if c == COMMA && st.typeArgument == 0 && st.AtTop() then st.(inDefault := false)
      else st
  }

  const LIST_START := ListState(Outside, 0, 0, 0, 0, false)

  // The state before position n of a list that starts at `start`.
  function ListWalk(track: bool, source: Text, start: nat, n: nat): ListState
    requires start <= n <= |source|
    decreases n
  {
    if n == start then LIST_START else ListStep(track, ListWalk(track, source, start, n - 1), source[n - 1])
  }

  predicate IsSeparator(track: bool, source: Text, start: nat, i: nat)
    requires start <= i < |source|
  {
    var st := ListWalk(track, source, start, i);
    source[i] == COMMA && st.mode == Outside && st.typeArgument == 0 && st.AtTop()
  }

  // ---------- What a separator is ----------

  const ANGLES := Delimiters(LESS, GREATER, ONLY_DOUBLE)

  // Whether position n is inside a quotation, counted from the start of the list.
  function QuoteMode(source: Text, start: nat, n: nat): Mode
    requires start <= n <= |source|
    decreases n
  {
    if n == start then Outside else Step(ANGLES, State(0, QuoteMode(source, start, n - 1)), source[n - 1]).mode
  }

  // How often c stands outside quotations between `start` and n.
  function Times(source: Text, start: nat, n: nat, c: CodeUnit): nat
    requires start <= n <= |source|
    decreases n
  {
    if n == start then 0
    else
      Times(source, start, n - 1, c)
      + (if source[n - 1] == c && QuoteMode(source, start, n - 1) == Outside then 1 else 0)
  }

  // A comma outside quotations, with as many brackets of each kind closed as opened before it.
  predicate IsPlainSeparator(source: Text, start: nat, i: nat)
    requires start <= i < |source|
  {
    && source[i] == COMMA && QuoteMode(source, start, i) == Outside
    && Times(source, start, i, LEFT_PAREN) == Times(source, start, i, RIGHT_PAREN)
    && Times(source, start, i, LEFT_BRACKET) == Times(source, start, i, RIGHT_BRACKET)
    && Times(source, start, i, LEFT_BRACE) == Times(source, start, i, RIGHT_BRACE)
  }

  predicate IsQuoteMode(mode: Mode) {
    mode == Outside || mode == Inside(DOUBLE_QUOTE) || mode == Escape(DOUBLE_QUOTE)
  }

  // What one step does to the quotation and the brackets, whether or not type arguments are followed.
  lemma BracketStep(track: bool, st: ListState, c: CodeUnit)
    requires IsQuoteMode(st.mode)
    ensures var next := ListStep(track, st, c);
            && next.mode == Step(ANGLES, State(0, st.mode), c).mode && IsQuoteMode(next.mode)
            && next.paren == st.paren + (if st.mode == Outside then Turn(c, LEFT_PAREN, RIGHT_PAREN) else 0)
            && next.bracket == st.bracket + (if st.mode == Outside then Turn(c, LEFT_BRACKET, RIGHT_BRACKET) else 0)
            && next.brace == st.brace + (if st.mode == Outside then Turn(c, LEFT_BRACE, RIGHT_BRACE) else 0)
  {
  }

  lemma {:induction false} WalkMeaning(track: bool, source: Text, start: nat, n: nat)
    requires start <= n <= |source|
    ensures var st := ListWalk(track, source, start, n);
            && st.mode == QuoteMode(source, start, n) && IsQuoteMode(st.mode)
            && st.paren == Times(source, start, n, LEFT_PAREN) - Times(source, start, n, RIGHT_PAREN)
            && st.bracket == Times(source, start, n, LEFT_BRACKET) - Times(source, start, n, RIGHT_BRACKET)
            && st.brace == Times(source, start, n, LEFT_BRACE) - Times(source, start, n, RIGHT_BRACE)
    decreases n
  {
    if n > start {
      WalkMeaning(track, source, start, n - 1);
      BracketStep(track, ListWalk(track, source, start, n - 1), source[n - 1]);
      hide ListStep, Step;
    }
  }

  lemma TypeArgumentStep(track: bool, st: ListState, c: CodeUnit)
    ensures !track || (c != LESS && st.typeArgument == 0) ==> ListStep(track, st, c).typeArgument == st.typeArgument
    ensures st.inDefault && st.typeArgument == 0 ==> ListStep(track, st, c).typeArgument == 0
    ensures st.mode != Outside ==> ListStep(track, st, c).typeArgument == st.typeArgument
  {
  }

  // Unless type arguments are followed, and as long as no `<` has come, the separators are the plain ones.
  lemma {:induction false} NoTypeArguments(track: bool, source: Text, start: nat, n: nat)
    requires start <= n <= |source| && (!track || Times(source, start, n, LESS) == 0)
    ensures ListWalk(track, source, start, n).typeArgument == 0
    ensures n < |source| ==> (IsSeparator(track, source, start, n) <==> IsPlainSeparator(source, start, n))
    decreases n
  {
    WalkMeaning(track, source, start, n);
    if n > start {
      NoTypeArguments(track, source, start, n - 1);
      WalkMeaning(track, source, start, n - 1);
      TypeArgumentStep(track, ListWalk(track, source, start, n - 1), source[n - 1]);
      hide ListStep;
    }
  }

  // In any case a separator is a plain one that is in no type argument.
  lemma SeparatorMeaning(track: bool, source: Text, start: nat, i: nat)
    requires start <= i < |source|
    ensures IsSeparator(track, source, start, i)
       <==> IsPlainSeparator(source, start, i) && ListWalk(track, source, start, i).typeArgument == 0
  {
    WalkMeaning(track, source, start, i);
    hide ListWalk, Times, QuoteMode;
  }

  lemma AngleStep(st: ListState, c: CodeUnit)
    requires IsQuoteMode(st.mode) && st.typeArgument > 0 && !st.inDefault
    ensures var next, same := ListStep(true, st, c), Step(ANGLES, State(st.typeArgument, st.mode), c);
            next.typeArgument == same.depth && next.mode == same.mode && IsQuoteMode(next.mode) && !next.inDefault
  {
  }

  // From a `<` that is followed to the `>` that balances it, commas do not separate, and after it the
  // list goes on as before.
  lemma {:induction false} TypeArgumentsProtect(source: Text, start: nat, i: nat, j: nat, k: nat)
    requires start <= i < k <= j < |source| && source[i] == LESS && source[j] == GREATER
    requires QuoteMode(source, start, i) == Outside && !ListWalk(true, source, start, i).inDefault
    requires IsBody(ANGLES, source, i + 1, j)
    ensures !IsSeparator(true, source, start, k)
    ensures ListWalk(true, source, start, j + 1).typeArgument == ListWalk(true, source, start, i).typeArgument
  {
    WalkMeaning(true, source, start, i);
    ScanRecognisesBodies(ANGLES, source, i + 1, j);
    var t := ListWalk(true, source, start, i).typeArgument;
    InsideAngles(source, start, i, j, k, t);
    InsideAngles(source, start, i, j, j, t);
    LastAngle(source, start, i, j, t);
    hide ListWalk, IsBody;
  }

  lemma {:induction false} InsideAngles(source: Text, start: nat, i: nat, j: nat, k: nat, t: nat)
    requires start <= i < k <= j < |source| && source[i] == LESS
    requires var st := ListWalk(true, source, start, i);
             st.mode == Outside && !st.inDefault && st.typeArgument == t
    requires ScanFrom(ANGLES, source, i + 1, State(1, Outside)) == Some(j)
    ensures var st := ListWalk(true, source, start, k);
            && IsQuoteMode(st.mode) && !st.inDefault && st.typeArgument > t
            && ScanFrom(ANGLES, source, k, State(st.typeArgument - t, st.mode)) == Some(j)
    decreases k
  {
    hide ScanFrom, Step;
    if k > i + 1 {
      InsideAngles(source, start, i, j, k - 1, t);
      var st := ListWalk(true, source, start, k - 1);
      AngleStep(st, source[k - 1]);
      hide ListStep;
      NotYetClosed(source, k - 1, j, State(st.typeArgument - t, st.mode));
      SameTurn(State(st.typeArgument - t, st.mode), st.typeArgument, source[k - 1]);
    }
  }

  // A scan that ends later does not close here.
  lemma NotYetClosed(source: Text, k: nat, j: nat, st: State)
    requires k < j < |source| && ScanFrom(ANGLES, source, k, st) == Some(j) && st.depth >= 1
    ensures Step(ANGLES, st, source[k]).depth >= 1
    ensures ScanFrom(ANGLES, source, k + 1, Step(ANGLES, st, source[k])) == Some(j)
  {
  }

  lemma SameTurn(st: State, depth: int, c: CodeUnit)
    ensures var a, b := Step(ANGLES, st, c), Step(ANGLES, State(depth, st.mode), c);
            a.mode == b.mode && a.depth - st.depth == b.depth - depth
  {
  }

  lemma LastAngle(source: Text, start: nat, i: nat, j: nat, t: nat)
    requires start <= i < j < |source| && source[j] == GREATER
    requires var st := ListWalk(true, source, start, j);
             && IsQuoteMode(st.mode) && !st.inDefault && st.typeArgument > t
             && ScanFrom(ANGLES, source, j, State(st.typeArgument - t, st.mode)) == Some(j)
    ensures ListWalk(true, source, start, j + 1).typeArgument == t
    ensures !IsSeparator(true, source, start, j)
  {
    var st := ListWalk(true, source, start, j);
    ClosesHere(source, j, State(st.typeArgument - t, st.mode));
    hide ScanFrom;
  }

  lemma ClosesHere(source: Text, j: nat, st: State)
    requires j < |source| && ScanFrom(ANGLES, source, j, st) == Some(j)
    ensures Closes(ANGLES, st, source[j])
  {
  }

  // From a top-level `=` to the next separator, angle brackets are ordinary operators.
  lemma {:induction false} DefaultValueStopsTracking(source: Text, start: nat, j: nat, k: nat)
    requires start <= j < k <= |source| && source[j] == EQUALS && QuoteMode(source, start, j) == Outside
    requires ListWalk(true, source, start, j).typeArgument == 0 && ListWalk(true, source, start, j).AtTop()
    requires forall i | j < i < k :: !IsSeparator(true, source, start, i)
    ensures ListWalk(true, source, start, k).inDefault && ListWalk(true, source, start, k).typeArgument == 0
    ensures k < |source| ==> (IsSeparator(true, source, start, k) <==> IsPlainSeparator(source, start, k))
    decreases k
  {
    WalkMeaning(true, source, start, k - 1);
    if k > j + 1 {
      DefaultValueStopsTracking(source, start, j, k - 1);
    }
    StaysInDefault(ListWalk(true, source, start, k - 1), source[k - 1]);
    assert k - 1 > j ==> !IsSeparator(true, source, start, k - 1);
    hide ListStep;
    if k < |source| {
      SeparatorMeaning(true, source, start, k);
    }
  }

  lemma StaysInDefault(st: ListState, c: CodeUnit)
    requires IsQuoteMode(st.mode)
    ensures st.mode == Outside && c == EQUALS && st.typeArgument == 0 && st.AtTop() ==>
              ListStep(true, st, c).inDefault && ListStep(true, st, c).typeArgument == 0
    ensures st.inDefault && st.typeArgument == 0 && !(c == COMMA && st.mode == Outside && st.AtTop()) ==>
              ListStep(true, st, c).inDefault && ListStep(true, st, c).typeArgument == 0
  {
  }

  datatype Segment = Segment(end: nat, start: nat, value: Text)

  // The segments lie one after the other, with one code unit between neighbours, from `start` to `end`.
  ghost predicate Tile(source: Text, start: nat, end: nat, segments: seq<Segment>)
    requires start <= end <= |source|
  {
    && segments != []
    && segments[0].start == start && segments[|segments| - 1].end == end
    && (forall s | s in segments :: start <= s.start <= s.end <= end && s.value == source[s.start..s.end])
    && (forall i, j | 0 <= i < j < |segments| && j == i + 1 :: segments[j].start == segments[i].end + 1)
  }

  // There is a separator after every segment but the last, and none inside a segment.
  ghost predicate EndAtSeparators(track: bool, source: Text, start: nat, end: nat, segments: seq<Segment>)
    requires start <= end <= |source|
  {
    && (forall i | 0 <= i < |segments| - 1 ::
          start <= segments[i].end < end && IsSeparator(track, source, start, segments[i].end))
    && (forall s, i | s in segments && s.start <= i < s.end && start <= i < end :: !IsSeparator(track, source, start, i))
  }

  ghost predicate AreSegments(track: bool, source: Text, start: nat, end: nat, segments: seq<Segment>)
    requires start <= end <= |source|
  {
    Tile(source, start, end, segments) && EndAtSeparators(track, source, start, end, segments)
  }

  function SegmentsUpTo(track: bool, source: Text, start: nat, n: nat): (r: (seq<Segment>, nat))
    requires start <= n <= |source|
    ensures start <= r.1 <= n
    decreases n
  {
    if n == start then ([], start)
    else
      var (segments, from) := SegmentsUpTo(track, source, start, n - 1);
      if IsSeparator(track, source, start, n - 1)
      then (segments + [Segment(n - 1, from, source[from..n - 1])], n)
      else (segments, from)
  }

  function Segments(track: bool, source: Text, start: nat, end: nat): seq<Segment>
    requires start <= end <= |source|
  {
    var (segments, from) := SegmentsUpTo(track, source, start, end);
    segments + [Segment(end, from, source[from..end])]
  }

  // The scan so far: the closed segments and the start of the open one.
  lemma {:induction false} SegmentsUpToAre(track: bool, source: Text, start: nat, n: nat)
    requires start <= n <= |source|
    ensures AreSegments(track, source, start, n, Segments(track, source, start, n))
    decreases n
  {
    hide IsSeparator;
    if n > start {
      SegmentsUpToAre(track, source, start, n - 1);
      var before, now := Segments(track, source, start, n - 1), Segments(track, source, start, n);
      var (done, from) := SegmentsUpTo(track, source, start, n - 1);
      hide SegmentsUpTo, AreSegments;
      if IsSeparator(track, source, start, n - 1) {
        CloseSegment(track, source, start, n, before);
        assert now == before + [Segment(n, n, source[n..n])];
      } else {
        GrowSegment(track, source, start, n, done, from);
        assert now == done + [Segment(n, from, source[from..n])];
      }
    }
  }

  lemma MembersOfSnoc(segments: seq<Segment>, last: Segment)
    ensures forall s :: s in segments + [last] <==> s in segments || s == last
    ensures forall i | 0 <= i < |segments| :: (segments + [last])[i] == segments[i]
  {
  }

  lemma CloseSegment(track: bool, source: Text, start: nat, n: nat, before: seq<Segment>)
    requires start < n <= |source| && AreSegments(track, source, start, n - 1, before)
    requires IsSeparator(track, source, start, n - 1)
    ensures AreSegments(track, source, start, n, before + [Segment(n, n, source[n..n])])
  {
    hide IsSeparator;
    MembersOfSnoc(before, Segment(n, n, source[n..n]));
    assert Tile(source, start, n, before + [Segment(n, n, source[n..n])]) by {
      hide EndAtSeparators;
    }
    CloseAtSeparator(track, source, start, n, before);
  }

  lemma CloseAtSeparator(track: bool, source: Text, start: nat, n: nat, before: seq<Segment>)
    requires start < n <= |source| && EndAtSeparators(track, source, start, n - 1, before)
    requires before != [] && before[|before| - 1].end == n - 1 && IsSeparator(track, source, start, n - 1)
    requires forall s | s in before :: s.end <= n - 1
    ensures EndAtSeparators(track, source, start, n, before + [Segment(n, n, source[n..n])])
  {
    hide IsSeparator;
    MembersOfSnoc(before, Segment(n, n, source[n..n]));
  }

  lemma GrowSegment(track: bool, source: Text, start: nat, n: nat, done: seq<Segment>, from: nat)
    requires start <= from < n <= |source|
    requires AreSegments(track, source, start, n - 1, done + [Segment(n - 1, from, source[from..n - 1])])
    requires !IsSeparator(track, source, start, n - 1)
    ensures AreSegments(track, source, start, n, done + [Segment(n, from, source[from..n])])
  {
    hide Tile, EndAtSeparators;
    GrowTiles(source, start, n, done, from);
    GrowSeparators(track, source, start, n, done, from);
  }

  lemma GrowTiles(source: Text, start: nat, n: nat, done: seq<Segment>, from: nat)
    requires start <= from < n <= |source|
    requires Tile(source, start, n - 1, done + [Segment(n - 1, from, source[from..n - 1])])
    ensures Tile(source, start, n, done + [Segment(n, from, source[from..n])])
  {
    MembersOfSnoc(done, Segment(n - 1, from, source[from..n - 1]));
    MembersOfSnoc(done, Segment(n, from, source[from..n]));
  }

  lemma GrowSeparators(track: bool, source: Text, start: nat, n: nat, done: seq<Segment>, from: nat)
    requires start <= from < n <= |source|
    requires EndAtSeparators(track, source, start, n - 1, done + [Segment(n - 1, from, source[from..n - 1])])
    requires !IsSeparator(track, source, start, n - 1)
    ensures EndAtSeparators(track, source, start, n, done + [Segment(n, from, source[from..n])])
  {
    hide IsSeparator;
    MembersOfSnoc(done, Segment(n - 1, from, source[from..n - 1]));
    MembersOfSnoc(done, Segment(n, from, source[from..n]));
  }

  method SplitTopLevelSegments(source: Text, start: nat, end: nat, track: bool) returns (segments: seq<Segment>)
    requires start <= end <= |source|
    ensures AreSegments(track, source, start, end, segments)
  {
    hide AreSegments;
    segments := [];
    var segmentStart := start;
    var quoted, escaped := false, false;
    var typeArgumentDepth := 0;
    var inDefaultValue := false;
    var parens, brackets, braces := 0, 0, 0;
    for index := start to end
      invariant typeArgumentDepth >= 0 && (escaped ==> quoted)
      invariant ListWalk(track, source, start, index)
             == ListState(Flags(quoted, escaped), parens, brackets, braces, typeArgumentDepth, inDefaultValue)
      invariant SegmentsUpTo(track, source, start, index) == (segments, segmentStart)
    {
      var character := source[index];
      SegmentStep(track, source, start, index);
      hide ListWalk, SegmentsUpTo;
      if escaped {
        escaped := false;
        continue;
      }
      if quoted && character == BACKSLASH {
        escaped := true;
        continue;
      }
      if character == DOUBLE_QUOTE {
        quoted := !quoted;
        continue;
      }
      if quoted {
        continue;
      }
      if track && !inDefaultValue && character == LESS {
        typeArgumentDepth := typeArgumentDepth + 1;
        continue;
      }
      if track && character == GREATER && typeArgumentDepth > 0 {
        typeArgumentDepth := typeArgumentDepth - 1;
        continue;
      }
      if IsBracket(character) {
        parens := parens + Turn(character, LEFT_PAREN, RIGHT_PAREN);
        brackets := brackets + Turn(character, LEFT_BRACKET, RIGHT_BRACKET);
        braces := braces + Turn(character, LEFT_BRACE, RIGHT_BRACE);
        continue;
      }
      if track && character == EQUALS && typeArgumentDepth == 0 && parens == 0 && brackets == 0 && braces == 0 {
        inDefaultValue := true;
        continue;
      }
      if character == COMMA && typeArgumentDepth == 0 && parens == 0 && brackets == 0 && braces == 0 {
        segments := segments + [Segment(index, segmentStart, source[segmentStart..index])];
        segmentStart := index + 1;
        inDefaultValue := false;
      }
    }
    SegmentsUpToAre(track, source, start, end);
    segments := segments + [Segment(end, segmentStart, source[segmentStart..end])];
  }

  lemma SegmentStep(track: bool, source: Text, start: nat, i: nat)
    requires start <= i < |source|
    ensures ListWalk(track, source, start, i + 1) == ListStep(track, ListWalk(track, source, start, i), source[i])
    ensures var before := SegmentsUpTo(track, source, start, i);
            SegmentsUpTo(track, source, start, i + 1) ==
              if IsSeparator(track, source, start, i)
              then (before.0 + [Segment(i, before.1, source[before.1..i])], i + 1) else before
  {
    hide ListStep;
  }
}
