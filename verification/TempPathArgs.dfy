// Finding the argument list of a call and splitting it at its top-level commas.
module TempPathArgs {
  import opened CodeUnits
  import opened Wrappers
  import opened DelimiterScan
  import opened Sequences
  import opened Splitting

  const PARENS := Delimiters(LEFT_PAREN, RIGHT_PAREN, Quotes(true, true, true))

  function ModeStep(mode: Mode, c: CodeUnit): Mode {
    Step(PARENS, State(0, mode), c).mode
  }

  // The quotation state that both scanners share.
  class QuoteScanState {
    var quote: Option<CodeUnit>
    var escaped: bool

    predicate Valid()
      reads this
    {
      escaped ==> quote.Some?
    }

    function Mode(): Mode
      reads this
      requires Valid()
    {
      if quote.None? then Outside else if escaped then Escape(quote.value) else Inside(quote.value)
    }

    constructor ()
      ensures Valid() && Mode() == Outside
    {
      quote := None;
      escaped := false;
    }

    // Inside a quotation every code unit is consumed.
    method ConsumeQuotedChar(ch: CodeUnit) returns (consumed: bool)
      requires Valid()
      modifies this
      ensures Valid() && consumed == !old(Mode()).Outside?
      ensures Mode() == if consumed then ModeStep(old(Mode()), ch) else old(Mode())
    {
      if quote.None? {
        return false;
      }
      if escaped {
        escaped := false;
        return true;
      }
      if ch == BACKSLASH {
        escaped := true;
        return true;
      }
      if Some(ch) == quote {
        quote := None;
      }
      return true;
    }

    method BeginQuotedSection(ch: CodeUnit) returns (begun: bool)
      requires Valid() && Mode() == Outside
      modifies this
      ensures Valid() && begun == PARENS.quotes.Has(ch)
      ensures Mode() == ModeStep(Outside, ch)
    {
      if ch != SINGLE_QUOTE && ch != DOUBLE_QUOTE && ch != BACKTICK {
        return false;
      }
      quote := Some(ch);
      return true;
    }
  }

  lemma NotClosing(s: Text, i: nat, depth: int, mode: Mode)
    requires i < |s| && (mode != Outside || s[i] != RIGHT_PAREN || depth != 1)
    ensures var next := Step(PARENS, State(depth, mode), s[i]);
            ScanFrom(PARENS, s, i, State(depth, mode)) == ScanFrom(PARENS, s, i + 1, next)
    ensures var next := Step(PARENS, State(depth, mode), s[i]);
            && next.mode == ModeStep(mode, s[i])
            && next.depth == depth + (if mode != Outside then 0 else if s[i] == LEFT_PAREN then 1
                                      else if s[i] == RIGHT_PAREN then -1 else 0)
  {
  }

  // The position of the parenthesis that closes the one at openIndex, or -1.
  method FindMatchingParen(source: Text, openIndex: nat) returns (r: int)
    ensures r == -1 || openIndex < r < |source|
    ensures forall k: nat :: r == k <==>
              openIndex < k < |source| && source[k] == RIGHT_PAREN && IsBody(PARENS, source, openIndex + 1, k)
  {
    hide ScanFrom, IsBody, Step;
    var depth := 1;
    var quoteState := new QuoteScanState();
    var i := openIndex + 1;
    ghost var found := if i <= |source| then ScanFrom(PARENS, source, i, State(1, Outside)) else None;
    forall k: nat
      ensures found == Some(k) <==>
                openIndex < k < |source| && source[k] == RIGHT_PAREN && IsBody(PARENS, source, openIndex + 1, k)
    {
      ParenFound(source, openIndex, k);
    }
    while i < |source|
      invariant quoteState.Valid()
      invariant i <= |source| ==> found == ScanFrom(PARENS, source, i, State(depth, quoteState.Mode()))
      invariant i > |source| ==> found == None
      invariant fresh(quoteState)
    {
      var ch := source[i];
      ghost var mode := quoteState.Mode();
      if mode == Outside && ch == RIGHT_PAREN && depth == 1 {
        ClosingHere(source, i);
      } else {
        NotClosing(source, i, depth, mode);
      }
      i := i + 1;
      var consumed := quoteState.ConsumeQuotedChar(ch);
      if consumed {
        continue;
      }
      var begun := quoteState.BeginQuotedSection(ch);
      if begun {
        continue;
      }
      if ch == LEFT_PAREN {
        depth := depth + 1;
        continue;
      }
      if ch == RIGHT_PAREN {
        depth := depth - 1;
        if depth == 0 {
          return i - 1;
        }
      }
    }
    NoneAtEnd(source, depth, quoteState.Mode());
    return -1;
  }

  lemma NoneAtEnd(s: Text, depth: int, mode: Mode)
    ensures ScanFrom(PARENS, s, |s|, State(depth, mode)) == None
  {
  }

  lemma ClosingHere(s: Text, i: nat)
    requires i < |s| && s[i] == RIGHT_PAREN
    ensures ScanFrom(PARENS, s, i, State(1, Outside)) == Some(i)
  {
  }

  lemma ParenFound(source: Text, openIndex: nat, k: nat)
    ensures (openIndex < |source| && ScanFrom(PARENS, source, openIndex + 1, State(1, Outside)) == Some(k))
       <==> openIndex < k < |source| && source[k] == RIGHT_PAREN && IsBody(PARENS, source, openIndex + 1, k)
  {
    if openIndex < |source| {
      ScanRecognisesBodies(PARENS, source, openIndex + 1, k);
      if k < |source| && source[k] == RIGHT_PAREN && IsBody(PARENS, source, openIndex + 1, k) {
        var body :| Spells(PARENS, source, openIndex + 1, body) && openIndex + 1 + Size(body) == k;
      }
    }
  }

  // ---------- Splitting the arguments ----------

  // Depths never go below zero: an unmatched closing bracket is an ordinary code unit.
  datatype ArgState = ArgState(paren: nat, bracket: nat, brace: nat, mode: Mode)

  const START := ArgState(0, 0, 0, Outside)

  function Up(c: CodeUnit, open: CodeUnit, close: CodeUnit, depth: nat): nat {
    if c == open then depth + 1 else if c == close && depth > 0 then depth - 1 else depth
  }

  function ArgStep(st: ArgState, c: CodeUnit): ArgState {
    if st.mode != Outside then st.(mode := ModeStep(st.mode, c))
    else
      ArgState(Up(c, LEFT_PAREN, RIGHT_PAREN, st.paren), Up(c, LEFT_BRACKET, RIGHT_BRACKET, st.bracket),
               Up(c, LEFT_BRACE, RIGHT_BRACE, st.brace), ModeStep(Outside, c))
  }

  // The state after the first n code units.
  function Walk(source: Text, n: nat): ArgState
    requires n <= |source|
  {
    if n == 0 then START else ArgStep(Walk(source, n - 1), source[n - 1])
  }

  predicate IsTopComma(source: Text, i: nat)
    requires i < |source|
  {
    source[i] == COMMA && Walk(source, i) == START
  }

  // The text before n, cut at the top-level commas.
  function Pieces(source: Text, n: nat): (pieces: seq<Text>)
    requires n <= |source|
    ensures pieces != []
  {
    if n == 0 then [[]]
    else
      var before := Pieces(source, n - 1);
      var last := |before| - 1;
      if IsTopComma(source, n - 1) then before + [[]]
      else before[..last] + [before[last] + [source[n - 1]]]
  }

  function TrimAll(pieces: seq<Text>): (r: seq<Text>)
    ensures |r| == |pieces|
  {
    seq(|pieces|, i requires 0 <= i < |pieces| => Trim(pieces[i]))
  }

  // The trimmed pieces, without the last one when it is blank.
  function Arguments(pieces: seq<Text>): seq<Text>
    requires pieces != []
  {
    var last := |pieces| - 1;
    if Trim(pieces[last]) == [] then TrimAll(pieces[..last]) else TrimAll(pieces)
  }

  // The k-th argument is the k-th piece without surrounding white space, and only a blank last piece is
  // not an argument.
  lemma ArgumentsMeaning(pieces: seq<Text>)
    requires pieces != []
    ensures var out := Arguments(pieces);
            && (forall k | 0 <= k < |out| :: k < |pieces| && out[k] == Trim(pieces[k]))
            && |out| == |pieces| - (if forall c | c in pieces[|pieces| - 1] :: IsSpace(c) then 1 else 0)
  {
    BlankMeaning(pieces[|pieces| - 1]);
    hide Trim;
  }

  lemma BlankMeaning(s: Text)
    ensures Trim(s) == [] <==> forall c | c in s :: IsSpace(c)
  {
    var i, j := TrimMeaning(s);
    hide Trim, IsSpace;
    if i == j {
      forall c | c in s ensures IsSpace(c) {
        var k :| 0 <= k < |s| && s[k] == c;
      }
    } else {
      assert s[i] in s;
    }
  }

  lemma {:induction false} JoinSnoc(pieces: seq<Text>, last: Text)
    requires pieces != []
    ensures Join(pieces + [last], COMMA) == Join(pieces, COMMA) + [COMMA] + last
  {
    if |pieces| > 1 {
      JoinSnoc(pieces[1..], last);
      assert (pieces + [last])[1..] == pieces[1..] + [last];
    } else {
      assert (pieces + [last])[1..] == [last];
    }
  }

  lemma JoinExtend(init: seq<Text>, last: Text, more: Text)
    ensures Join(init + [last + more], COMMA) == Join(init + [last], COMMA) + more
  {
    if init != [] {
      JoinSnoc(init, last);
      JoinSnoc(init, last + more);
    }
  }

  // Whatever the text, the pieces joined by commas are the text.
  lemma {:induction false} PiecesJoin(source: Text, n: nat)
    requires n <= |source|
    ensures Join(Pieces(source, n), COMMA) == source[..n]
  {
    hide Walk, Join;
    if n == 0 {
      JoinOne();
    } else {
      PiecesJoin(source, n - 1);
      var before := Pieces(source, n - 1);
      var last := |before| - 1;
      assert source[..n] == source[..n - 1] + [source[n - 1]];
      assert before == before[..last] + [before[last]];
      JoinSnoc(before, []);
      JoinExtend(before[..last], before[last], [source[n - 1]]);
    }
  }

  lemma JoinOne()
    ensures Join([[]], COMMA) == []
  {
  }

  method SplitTopLevelArguments(source: Text) returns (out: seq<Text>)
    ensures out == Arguments(Pieces(source, |source|))
  {
    hide Trim, TrimAll, Step;
    out := [];
    var current: Text := [];
    var parenDepth, bracketDepth, braceDepth := 0, 0, 0;
    var quoteState := new QuoteScanState();
    TrimNone();
    for i := 0 to |source|
      invariant quoteState.Valid() && fresh(quoteState)
      invariant parenDepth >= 0 && bracketDepth >= 0 && braceDepth >= 0
      invariant Walk(source, i) == ArgState(parenDepth, bracketDepth, braceDepth, quoteState.Mode())
      invariant SplitSoFar(Pieces(source, i), out, current)
    {
      var ch := source[i];
      SplitStep(source, i, out, current);
      ArgStepCases(Walk(source, i), ch);
      hide Walk, Pieces, SplitSoFar, ArgStep;
      if quoteState.quote.Some? {
        current := current + [ch];
        var _ := quoteState.ConsumeQuotedChar(ch);
        continue;
      }
      var begun := quoteState.BeginQuotedSection(ch);
      if begun {
        current := current + [ch];
        continue;
      }
      if ch == LEFT_PAREN {
        parenDepth := parenDepth + 1;
        current := current + [ch];
        continue;
      }
      if ch == RIGHT_PAREN {
        if parenDepth > 0 {
          parenDepth := parenDepth - 1;
        }
        current := current + [ch];
        continue;
      }
      if ch == LEFT_BRACKET {
        bracketDepth := bracketDepth + 1;
        current := current + [ch];
        continue;
      }
      if ch == RIGHT_BRACKET {
        if bracketDepth > 0 {
          bracketDepth := bracketDepth - 1;
        }
        current := current + [ch];
        continue;
      }
      if ch == LEFT_BRACE {
        braceDepth := braceDepth + 1;
        current := current + [ch];
        continue;
      }
      if ch == RIGHT_BRACE {
        if braceDepth > 0 {
          braceDepth := braceDepth - 1;
        }
        current := current + [ch];
        continue;
      }
      if ch == COMMA && parenDepth == 0 && bracketDepth == 0 && braceDepth == 0 {
        out := out + [Trim(current)];
        current := [];
        continue;
      }
      current := current + [ch];
    }
    SplitEnd(Pieces(source, |source|), out, current);
    if Trim(current) != [] {
      out := out + [Trim(current)];
    }
  }

  ghost predicate SplitSoFar(pieces: seq<Text>, out: seq<Text>, current: Text)
    requires pieces != []
  {
    out == TrimAll(pieces[..|pieces| - 1]) && current == pieces[|pieces| - 1]
  }

  lemma TrimNone()
    ensures TrimAll([]) == []
  {
  }

  lemma TrimSnoc(pieces: seq<Text>, last: Text)
    ensures TrimAll(pieces + [last]) == TrimAll(pieces) + [Trim(last)]
  {
    hide Trim;
  }

  lemma SplitStep(source: Text, i: nat, out: seq<Text>, current: Text)
    requires i < |source| && SplitSoFar(Pieces(source, i), out, current)
    ensures Walk(source, i + 1) == ArgStep(Walk(source, i), source[i])
    ensures var now := Pieces(source, i + 1);
            if source[i] == COMMA && Walk(source, i) == START then SplitSoFar(now, out + [Trim(current)], [])
            else SplitSoFar(now, out, current + [source[i]])
  {
    hide Trim, TrimAll, ArgStep;
    var before, now := Pieces(source, i), Pieces(source, i + 1);
    var last := |before| - 1;
    TrimSnoc(before[..last], before[last]);
    assert before == before[..last] + [before[last]];
    assert now[..|now| - 1] == if IsTopComma(source, i) then before else before[..last];
  }

  lemma ArgStepCases(st: ArgState, c: CodeUnit)
    ensures st.mode != Outside ==> ArgStep(st, c) == st.(mode := ModeStep(st.mode, c))
    ensures st.mode == Outside && PARENS.quotes.Has(c) ==> ArgStep(st, c) == st.(mode := ModeStep(Outside, c))
    ensures st.mode == Outside && !PARENS.quotes.Has(c) ==>
              ArgStep(st, c) == ArgState(Up(c, LEFT_PAREN, RIGHT_PAREN, st.paren),
                                         Up(c, LEFT_BRACKET, RIGHT_BRACKET, st.bracket),
                                         Up(c, LEFT_BRACE, RIGHT_BRACE, st.brace), Outside)
  {
  }

  lemma SplitEnd(pieces: seq<Text>, out: seq<Text>, current: Text)
    requires pieces != [] && SplitSoFar(pieces, out, current)
    ensures Arguments(pieces) == if Trim(current) == [] then out else out + [Trim(current)]
  {
    hide Trim, TrimAll;
    var last := |pieces| - 1;
    TrimSnoc(pieces[..last], pieces[last]);
    assert pieces == pieces[..last] + [pieces[last]];
  }

  // ---------- Which commas split ----------

  const BRACKETS := Delimiters(LEFT_BRACKET, RIGHT_BRACKET, Quotes(true, true, true))
  const BRACES := Delimiters(LEFT_BRACE, RIGHT_BRACE, Quotes(true, true, true))

  predicate IsKind(d: Delimiters) {
    d == PARENS || d == BRACKETS || d == BRACES
  }

  // Whether position n is inside a quotation.
  function QuoteMode(source: Text, n: nat): Mode
    requires n <= |source|
  {
    if n == 0 then Outside else ModeStep(QuoteMode(source, n - 1), source[n - 1])
  }

  // The opening delimiter at j, outside quotations, is closed before i: a balanced body lies between it
  // and a closing one.
  ghost predicate IsClosed(d: Delimiters, source: Text, j: nat, i: nat)
    requires j < i <= |source|
  {
    exists k | j < k < i :: source[k] == d.close && IsBody(d, source, j + 1, k)
  }

  ghost predicate Opens(d: Delimiters, source: Text, j: nat)
    requires j < |source|
  {
    source[j] == d.open && QuoteMode(source, j) == Outside
  }

  // Every opening delimiter of the kind before i is closed before i.
  ghost predicate AllClosed(d: Delimiters, source: Text, i: nat)
    requires i <= |source|
  {
    forall j | 0 <= j < i && Opens(d, source, j) :: IsClosed(d, source, j, i)
  }

  function DepthOf(d: Delimiters, st: ArgState): nat {
    if d == PARENS then st.paren else if d == BRACKETS then st.bracket else st.brace
  }

  // What one step does to the quotation and the depth of one kind.
  lemma KindStep(d: Delimiters, st: ArgState, c: CodeUnit)
    requires IsKind(d)
    ensures var next := ArgStep(st, c);
            && next.mode == ModeStep(st.mode, c)
            && DepthOf(d, next) == if st.mode != Outside then DepthOf(d, st) else Up(c, d.open, d.close, DepthOf(d, st))
  {
    hide Step;
    if st.mode == Outside {
    } else {
    }
  }

  lemma {:induction false} WalkMode(source: Text, n: nat)
    requires n <= |source|
    ensures Walk(source, n).mode == QuoteMode(source, n)
  {
    if n > 0 {
      WalkMode(source, n - 1);
      KindStep(PARENS, Walk(source, n - 1), source[n - 1]);
      hide ArgStep, ModeStep;
    }
  }

  // The scan for the end of the delimiter at j is still under way at i, in this state.
  ghost predicate IsPending(d: Delimiters, source: Text, j: nat, i: nat, st: State)
    requires j < i <= |source|
  {
    ScanFrom(d, source, j + 1, State(1, Outside)) == ScanFrom(d, source, i, st) && st.depth >= 1
  }

  // One code unit either closes the delimiter or leaves it pending.
  lemma PendingStep(d: Delimiters, source: Text, j: nat, i: nat, st: State)
    requires IsKind(d) && j < i < |source| && IsPending(d, source, j, i, st)
    ensures if Closes(d, st, source[i]) then ScanFrom(d, source, j + 1, State(1, Outside)) == Some(i)
            else IsPending(d, source, j, i + 1, Step(d, st, source[i]))
  {
  }

  lemma KindState(d: Delimiters, st: ArgState, c: CodeUnit, base: nat)
    requires IsKind(d) && DepthOf(d, st) > base
    ensures var rel := State(DepthOf(d, st) - base, st.mode);
            && (Closes(d, rel, c) <==> st.mode == Outside && c == d.close && DepthOf(d, st) == base + 1)
            && Step(d, rel, c) == State(DepthOf(d, ArgStep(st, c)) - base, ArgStep(st, c).mode)
  {
    KindStep(d, st, c);
    hide ArgStep, DepthOf;
  }

  // After an opening delimiter, either it has been closed, or its scan follows the splitter, deeper than
  // the delimiter stands.
  lemma {:induction false} ClosedOrPending(d: Delimiters, source: Text, j: nat, i: nat)
    requires IsKind(d) && j < i <= |source| && Opens(d, source, j)
    ensures var base, st := DepthOf(d, Walk(source, j)), Walk(source, i);
            || (exists k | j < k < i :: ScanFrom(d, source, j + 1, State(1, Outside)) == Some(k))
            || (DepthOf(d, st) > base && IsPending(d, source, j, i, State(DepthOf(d, st) - base, st.mode)))
    decreases i
  {
    var base := DepthOf(d, Walk(source, j));
    WalkMode(source, j);
    if i == j + 1 {
      KindStep(d, Walk(source, j), source[j]);
      QuotesAreNotDelimiters(d, source[j]);
    } else {
      ClosedOrPending(d, source, j, i - 1);
      var st := Walk(source, i - 1);
      hide Walk, ScanFrom, Step, ArgStep, IsKind;
      WalkOne(source, i - 1);
      if DepthOf(d, st) > base && IsPending(d, source, j, i - 1, State(DepthOf(d, st) - base, st.mode)) {
        PendingStep(d, source, j, i - 1, State(DepthOf(d, st) - base, st.mode));
        KindState(d, st, source[i - 1], base);
      }
    }
  }

  lemma WalkOne(source: Text, i: nat)
    requires i < |source|
    ensures Walk(source, i + 1) == ArgStep(Walk(source, i), source[i])
  {
  }

  lemma QuotesAreNotDelimiters(d: Delimiters, c: CodeUnit)
    requires IsKind(d) && (c == d.open || c == d.close)
    ensures ModeStep(Outside, c) == Outside && d.Valid()
  {
  }

  // For every level below the depth, some opening delimiter of that level is still pending.
  lemma {:induction false} OpenerOfLevel(d: Delimiters, source: Text, i: nat, level: nat) returns (j: nat)
    requires IsKind(d) && i <= |source| && level < DepthOf(d, Walk(source, i))
    ensures j < i && Opens(d, source, j)
    ensures IsPending(d, source, j, i, State(DepthOf(d, Walk(source, i)) - level, Walk(source, i).mode))
    decreases i
  {
    StartIsLevel(d);
    var st := Walk(source, i - 1);
    WalkOne(source, i - 1);
    KindStep(d, st, source[i - 1]);
    if DepthOf(d, st) > level {
      j := OpenerOfLevel(d, source, i - 1, level);
      hide Walk, ScanFrom, Step, ArgStep, IsKind, DepthOf;
      PendingStep(d, source, j, i - 1, State(DepthOf(d, st) - level, st.mode));
      KindState(d, st, source[i - 1], level);
    } else {
      j := i - 1;
      WalkMode(source, j);
      QuotesAreNotDelimiters(d, source[j]);
    }
  }

  lemma StartIsLevel(d: Delimiters)
    ensures DepthOf(d, START) == 0
  {
  }

  // The splitter is at depth zero exactly when every opening delimiter of the kind has been closed. An
  // unmatched closing one does not count.
  lemma DepthMeaning(d: Delimiters, source: Text, i: nat)
    requires IsKind(d) && i <= |source|
    ensures DepthOf(d, Walk(source, i)) == 0 <==> AllClosed(d, source, i)
  {
    assert d.Valid();
    hide Walk, ScanFrom, DepthOf, IsBody, IsKind;
    if DepthOf(d, Walk(source, i)) == 0 {
      forall j | 0 <= j < i && Opens(d, source, j) ensures IsClosed(d, source, j, i) {
        ClosedOrPending(d, source, j, i);
        var k :| j < k < i && ScanFrom(d, source, j + 1, State(1, Outside)) == Some(k);
        ScanRecognisesBodies(d, source, j + 1, k);
      }
    } else {
      var j := OpenerOfLevel(d, source, i, 0);
      if IsClosed(d, source, j, i) {
        var k :| j < k < i && source[k] == d.close && IsBody(d, source, j + 1, k);
        ScanRecognisesBodies(d, source, j + 1, k);
      }
    }
  }

  // The commas that split are those outside quotations before which every parenthesis, bracket and brace
  // that has been opened is closed.
  lemma TopCommaMeaning(source: Text, i: nat)
    requires i < |source|
    ensures IsTopComma(source, i) <==>
              && source[i] == COMMA && QuoteMode(source, i) == Outside
              && AllClosed(PARENS, source, i) && AllClosed(BRACKETS, source, i) && AllClosed(BRACES, source, i)
  {
    WalkMode(source, i);
    DepthMeaning(PARENS, source, i);
    DepthMeaning(BRACKETS, source, i);
    DepthMeaning(BRACES, source, i);
    var st := Walk(source, i);
    hide Walk, QuoteMode, AllClosed;
    assert st == ArgState(st.paren, st.bracket, st.brace, st.mode);
  }

  // ---------- The arguments of a matched call ----------

  // The splitter meets a closing parenthesis at depth zero and drops it.
  predicate Clamps(source: Text, i: nat)
    requires i < |source|
  {
    Walk(source, i).mode == Outside && Walk(source, i).paren == 0 && source[i] == RIGHT_PAREN
  }

  lemma WalkStep(source: Text, j: nat)
    requires j < |source| && !Clamps(source, j)
    ensures var w, next := Walk(source, j), Walk(source, j + 1);
            && next.mode == ModeStep(w.mode, source[j])
            && next.paren as int == w.paren + (if w.mode != Outside then 0 else if source[j] == LEFT_PAREN then 1
                                               else if source[j] == RIGHT_PAREN then -1 else 0)
  {
  }

  // Inside the parentheses found by the first scanner, the second one is in the same quotation and one
  // level less deep.
  lemma {:induction false} WalksAlong(s: Text, i: nat, k: nat, j: nat)
    requires i <= k < |s| && ScanFrom(PARENS, s, i, State(1, Outside)) == Some(k) && j <= k - i
    ensures var w := Walk(s[i..k], j);
            ScanFrom(PARENS, s, i + j, State(w.paren + 1, w.mode)) == Some(k)
    ensures j < k - i ==> !Clamps(s[i..k], j)
  {
    hide ScanFrom, Step;
    var args := s[i..k];
    if j > 0 {
      WalksAlong(s, i, k, j - 1);
      hide Clamps, Walk;
      var w := Walk(args, j - 1);
      NotClosingInside(args, s, i + j - 1, k, w);
      WalkStep(args, j - 1);
      assert args[j - 1] == s[i + j - 1];
      NotClosing(s, i + j - 1, w.paren + 1, w.mode);
    }
    if j < k - i {
      NotClosingInside(args, s, i + j, k, Walk(args, j));
      ClampsOnlyAtClosing(s, i, k, j);
    }
  }

  lemma NotClosingInside(args: Text, s: Text, p: nat, k: nat, w: ArgState)
    requires p < k < |s| && ScanFrom(PARENS, s, p, State(w.paren + 1, w.mode)) == Some(k)
    ensures !(w.mode == Outside && w.paren == 0 && s[p] == RIGHT_PAREN)
  {
  }

  lemma ClampsOnlyAtClosing(s: Text, i: nat, k: nat, j: nat)
    requires i + j < k < |s|
    requires var w := Walk(s[i..k], j); !(w.mode == Outside && w.paren == 0 && s[i + j] == RIGHT_PAREN)
    ensures !Clamps(s[i..k], j)
  {
    assert s[i..k][j] == s[i + j];
  }

  // Read on its own, the text p has balanced parentheses and quotations.
  ghost predicate IsBalanced(p: Text) {
    IsBody(PARENS, p + [RIGHT_PAREN], 0, |p|)
  }

  lemma {:induction false} SliceScans(source: Text, a: nat, b: nat, j: nat)
    requires a <= j <= b <= |source| && Walk(source, b).mode == Outside && Walk(source, b).paren == 0
    requires forall n | a <= n < b :: !Clamps(source, n)
    ensures var w := Walk(source, j);
            ScanFrom(PARENS, source[a..b] + [RIGHT_PAREN], j - a, State(w.paren + 1, w.mode)) == Some(b - a)
    decreases b - j
  {
    hide ScanFrom, Step, Walk;
    var p := source[a..b] + [RIGHT_PAREN];
    if j == b {
      ClosingHere(p, b - a);
    } else {
      SliceScans(source, a, b, j + 1);
      var w := Walk(source, j);
      assert p[j - a] == source[j];
      assert !Clamps(source, j);
      WalkStep(source, j);
      NotClosing(p, j - a, w.paren + 1, w.mode);
    }
  }

  lemma SliceIsBalanced(source: Text, a: nat, b: nat)
    requires a <= b <= |source| && Walk(source, a).mode == Outside && Walk(source, a).paren == 0
    requires Walk(source, b).mode == Outside && Walk(source, b).paren == 0
    requires forall n | a <= n < b :: !Clamps(source, n)
    ensures IsBalanced(source[a..b])
  {
    hide ScanFrom, Walk, IsBody, Clamps;
    SliceScans(source, a, b, a);
    ScanRecognisesBodies(PARENS, source[a..b] + [RIGHT_PAREN], 0, b - a);
  }

  lemma PiecesStep(source: Text, n: nat)
    requires n < |source|
    ensures var before, now := Pieces(source, n), Pieces(source, n + 1);
            var last := |before| - 1;
            && now[|now| - 1] == (if IsTopComma(source, n) then [] else before[last] + [source[n]])
            && now[..|now| - 1] == (if IsTopComma(source, n) then before[..last] + [before[last]] else before[..last])
  {
    hide IsTopComma;
    var before, now := Pieces(source, n), Pieces(source, n + 1);
    if IsTopComma(source, n) {
      assert now[..|now| - 1] == before;
    }
  }

  ghost predicate AllBalanced(pieces: seq<Text>) {
    forall p | p in pieces :: IsBalanced(p)
  }

  lemma AllBalancedSnoc(pieces: seq<Text>, last: Text)
    requires AllBalanced(pieces) && IsBalanced(last)
    ensures AllBalanced(pieces + [last])
  {
    hide IsBalanced;
  }

  ghost predicate AtTop(source: Text, i: nat)
    requires i <= |source|
  {
    Walk(source, i).mode == Outside && Walk(source, i).paren == 0
  }

  // The last piece begins at `from`, at depth zero outside quotations, and the others are balanced.
  ghost predicate PiecesBalanced(source: Text, n: nat, from: nat)
    requires n <= |source|
  {
    var pieces := Pieces(source, n);
    && from <= n && AtTop(source, from)
    && pieces[|pieces| - 1] == source[from..n]
    && AllBalanced(pieces[..|pieces| - 1])
  }

  lemma CloseBalanced(source: Text, n: nat, from: nat)
    requires n < |source| && forall i | 0 <= i < |source| :: !Clamps(source, i)
    requires PiecesBalanced(source, n, from) && IsTopComma(source, n)
    ensures PiecesBalanced(source, n + 1, n + 1)
  {
    PiecesStep(source, n);
    TopCommaIsAtTop(source, n);
    TopCommaKeepsState(source, n);
    hide Clamps, IsBalanced, AllBalanced, Walk, Pieces, IsTopComma;
    SliceIsBalanced(source, from, n);
    var before := Pieces(source, n);
    AllBalancedSnoc(before[..|before| - 1], before[|before| - 1]);
    assert source[n + 1..n + 1] == [];
  }

  lemma GrowBalanced(source: Text, n: nat, from: nat)
    requires n < |source| && PiecesBalanced(source, n, from) && !IsTopComma(source, n)
    ensures PiecesBalanced(source, n + 1, from)
  {
    PiecesStep(source, n);
    SliceSnoc(source, from, n);
    hide AllBalanced, AtTop, Pieces, IsTopComma;
  }

  lemma NothingUnbalanced(source: Text)
    ensures PiecesBalanced(source, 0, 0)
  {
  }

  // Every piece but the last lies between places where the splitter is at depth zero outside quotations.
  lemma {:induction false} CompletePiecesAreBalanced(source: Text, n: nat) returns (from: nat)
    requires n <= |source| && forall i | 0 <= i < |source| :: !Clamps(source, i)
    ensures PiecesBalanced(source, n, from)
  {
    hide Clamps, PiecesBalanced, IsTopComma;
    if n == 0 {
      NothingUnbalanced(source);
      from := 0;
    } else {
      from := CompletePiecesAreBalanced(source, n - 1);
      if IsTopComma(source, n - 1) {
        CloseBalanced(source, n - 1, from);
        from := n;
      } else {
        GrowBalanced(source, n - 1, from);
      }
    }
  }

  lemma TopCommaIsAtTop(source: Text, i: nat)
    requires i < |source| && IsTopComma(source, i)
    ensures Walk(source, i).mode == Outside && Walk(source, i).paren == 0
  {
  }

  lemma TopCommaKeepsState(source: Text, i: nat)
    requires i < |source| && IsTopComma(source, i)
    ensures Walk(source, i + 1) == START
  {
  }

  // When the first scanner finds the closing parenthesis, the splitter never meets an unmatched one,
  // ends at depth zero outside quotations, and every argument is balanced on its own.
  lemma ArgumentsOfMatchedCall(source: Text, openIndex: nat, k: nat)
    requires openIndex < k < |source| && source[k] == RIGHT_PAREN && IsBody(PARENS, source, openIndex + 1, k)
    ensures var args := source[openIndex + 1..k];
            var end := Walk(args, |args|);
            && (forall i | 0 <= i < |args| :: !Clamps(args, i))
            && end.paren == 0 && end.mode == Outside
            && Join(Pieces(args, |args|), COMMA) == args
            && AllBalanced(Pieces(args, |args|))
  {
    hide IsBody, IsBalanced, AllBalanced, Clamps, Walk, Pieces, Join, Step;
    var args := source[openIndex + 1..k];
    ParenFound(source, openIndex, k);
    forall i | 0 <= i < |args| ensures !Clamps(args, i) {
      WalksAlong(source, openIndex + 1, k, i);
    }
    WalksAlong(source, openIndex + 1, k, |args|);
    EndsAtClosing(source, k, Walk(args, |args|));
    PiecesJoin(args, |args|);
    assert args[..|args|] == args;
    var a := CompletePiecesAreBalanced(args, |args|);
    SliceIsBalanced(args, a, |args|);
    var pieces := Pieces(args, |args|);
    AllBalancedSnoc(pieces[..|pieces| - 1], pieces[|pieces| - 1]);
    assert pieces == pieces[..|pieces| - 1] + [pieces[|pieces| - 1]];
  }

  lemma EndsAtClosing(s: Text, k: nat, w: ArgState)
    requires k < |s| && s[k] == RIGHT_PAREN && ScanFrom(PARENS, s, k, State(w.paren + 1, w.mode)) == Some(k)
    ensures w.paren == 0 && w.mode == Outside
  {
  }
}
