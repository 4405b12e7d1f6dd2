// Writing text into HTML: escaping, and code spans between backticks.
module MarkdownInline {
  import opened CodeUnits
  import opened Splitting

  const CODE_OPEN: Text := [LESS, 99, 111, 100, 101, GREATER]
  const CODE_CLOSE: Text := [LESS, SLASH, 99, 111, 100, 101, GREATER]

  function EscapeUnit(c: CodeUnit): Text {
    if c == AMPERSAND then AMP_ENTITY
    else if c == LESS then LT_ENTITY
    else if c == GREATER then GT_ENTITY
    else if c == DOUBLE_QUOTE then QUOT_ENTITY
    else [c]
  }

  function Escape(s: Text): Text {
    if s == [] then [] else EscapeUnit(s[0]) + Escape(s[1..])
  }

  lemma {:induction false} EscapeSnoc(s: Text, c: CodeUnit)
    ensures Escape(s + [c]) == Escape(s) + EscapeUnit(c)
  {
    hide EscapeUnit;
    if s == [] {
      assert [c][1..] == [];
    } else {
      EscapeSnoc(s[1..], c);
      assert (s + [c])[1..] == s[1..] + [c];
    }
  }

  method HtmlEscaped(value: Text) returns (escaped: Text)
    ensures escaped == Escape(value)
  {
    escaped := [];
    for i := 0 to |value|
      invariant escaped == Escape(value[..i])
    {
      EscapeSnoc(value[..i], value[i]);
      assert value[..i + 1] == value[..i] + [value[i]];
      var character := value[i];
      if character == AMPERSAND {
        escaped := escaped + AMP_ENTITY;
      } else if character == LESS {
        escaped := escaped + LT_ENTITY;
      } else if character == GREATER {
        escaped := escaped + GT_ENTITY;
      } else if character == DOUBLE_QUOTE {
        escaped := escaped + QUOT_ENTITY;
      } else {
        escaped := escaped + [character];
      }
    }
    assert value[..|value|] == value;
  }

  // Every second piece between backticks is code.
  function RenderPieces(pieces: seq<Text>, index: nat): Text
    decreases |pieces|
  {
    if pieces == [] then []
    else
      (if index % 2 == 0 then pieces[0] else CODE_OPEN + pieces[0] + CODE_CLOSE) + RenderPieces(pieces[1..], index + 1)
  }

  function RenderInlineMarkdown(value: Text): Text {
    var escaped := Escape(value);
    var pieces := Split(escaped, BACKTICK);
    if |pieces| <= 1 then escaped else RenderPieces(pieces, 0)
  }

  // ---------- What a reader of the HTML sees ----------

  // A code unit of the text, and whether it is shown as code.
  datatype Seen = Seen(unit: CodeUnit, code: bool)

  predicate StartsWith(s: Text, w: Text) {
    |w| <= |s| && s[..|w|] == w
  }

  function AfterTag(s: Text): (r: Text)
    ensures |r| <= |s|
  {
    if s == [] then [] else if s[0] == GREATER then s[1..] else AfterTag(s[1..])
  }

  // Tags are dropped, the tags of code switch code on and off, and the four entities are decoded.
  function Read(html: Text, code: bool): seq<Seen>
    decreases |html|
  {
    if html == [] then []
    else if html[0] == LESS then
      Read(AfterTag(html[1..]),
           if StartsWith(html, CODE_OPEN) then true else if StartsWith(html, CODE_CLOSE) then false else code)
    else if StartsWith(html, AMP_ENTITY) then [Seen(AMPERSAND, code)] + Read(html[|AMP_ENTITY|..], code)
    else if StartsWith(html, LT_ENTITY) then [Seen(LESS, code)] + Read(html[|LT_ENTITY|..], code)
    else if StartsWith(html, GT_ENTITY) then [Seen(GREATER, code)] + Read(html[|GT_ENTITY|..], code)
    else if StartsWith(html, QUOT_ENTITY) then [Seen(DOUBLE_QUOTE, code)] + Read(html[|QUOT_ENTITY|..], code)
    else [Seen(html[0], code)] + Read(html[1..], code)
  }

  // What the Markdown text says: every backtick switches code on or off and is not shown.
  function Meant(s: Text, code: bool): seq<Seen> {
    if s == [] then []
    else if s[0] == BACKTICK then Meant(s[1..], !code)
    else [Seen(s[0], code)] + Meant(s[1..], code)
  }

  function All(s: Text, code: bool): seq<Seen> {
    seq(|s|, i requires 0 <= i < |s| => Seen(s[i], code))
  }

  lemma PrefixOf(w: Text, rest: Text)
    ensures StartsWith(w + rest, w) && (w + rest)[|w|..] == rest
  {
  }

  lemma EntityAt(html: Text, w: Text, c: CodeUnit, rest: Text, code: bool)
    requires html == w + rest
    requires (w == AMP_ENTITY && c == AMPERSAND) || (w == LT_ENTITY && c == LESS)
          || (w == GT_ENTITY && c == GREATER) || (w == QUOT_ENTITY && c == DOUBLE_QUOTE)
    ensures Read(html, code) == [Seen(c, code)] + Read(rest, code)
  {
    PrefixOf(w, rest);
    assert html[0] == AMPERSAND && html[1] == w[1];
    OnlyEntity(html, w);
    hide StartsWith;
  }

  lemma OnlyEntity(html: Text, w: Text)
    requires StartsWith(html, w) && (w == AMP_ENTITY || w == LT_ENTITY || w == GT_ENTITY || w == QUOT_ENTITY)
    ensures StartsWith(html, AMP_ENTITY) <==> w == AMP_ENTITY
    ensures StartsWith(html, LT_ENTITY) <==> w == LT_ENTITY
    ensures StartsWith(html, GT_ENTITY) <==> w == GT_ENTITY
    ensures StartsWith(html, QUOT_ENTITY) <==> w == QUOT_ENTITY
  {
    assert html[1] == html[..|w|][1] == w[1];
    assert StartsWith(html, AMP_ENTITY) ==> html[..|AMP_ENTITY|][1] == html[1];
    assert StartsWith(html, LT_ENTITY) ==> html[..|LT_ENTITY|][1] == html[1];
    assert StartsWith(html, GT_ENTITY) ==> html[..|GT_ENTITY|][1] == html[1];
    assert StartsWith(html, QUOT_ENTITY) ==> html[..|QUOT_ENTITY|][1] == html[1];
  }

  lemma PlainAt(c: CodeUnit, rest: Text, code: bool)
    requires c != LESS && c != AMPERSAND
    ensures Read([c] + rest, code) == [Seen(c, code)] + Read(rest, code)
  {
    var html := [c] + rest;
    assert html[1..] == rest;
    assert forall n | 0 < n <= |html| :: html[..n][0] == c;
  }

  lemma UnitReadBack(c: CodeUnit, rest: Text, code: bool)
    ensures Read(EscapeUnit(c) + rest, code) == [Seen(c, code)] + Read(rest, code)
  {
    hide Read;
    if c == AMPERSAND || c == LESS || c == GREATER || c == DOUBLE_QUOTE {
      EntityAt(EscapeUnit(c) + rest, EscapeUnit(c), c, rest, code);
    } else {
      PlainAt(c, rest, code);
    }
  }

  lemma {:induction false} EscapedReadBack(s: Text, rest: Text, code: bool)
    ensures Read(Escape(s) + rest, code) == All(s, code) + Read(rest, code)
  {
    hide Read, EscapeUnit;
    if s == [] {
      assert Escape(s) + rest == rest;
      assert All(s, code) + Read(rest, code) == Read(rest, code);
    } else {
      EscapedReadBack(s[1..], rest, code);
      UnitReadBack(s[0], Escape(s[1..]) + rest, code);
      assert Escape(s) + rest == EscapeUnit(s[0]) + (Escape(s[1..]) + rest);
      assert All(s, code) == [Seen(s[0], code)] + All(s[1..], code);
    }
  }

  lemma {:induction false} AfterTagOf(name: Text, rest: Text)
    requires GREATER !in name
    ensures AfterTag(name + [GREATER] + rest) == rest
  {
    var s := name + [GREATER] + rest;
    if name == [] {
      assert s[1..] == rest;
    } else {
      AfterTagOf(name[1..], rest);
      assert s[1..] == name[1..] + [GREATER] + rest;
    }
  }

  lemma TagAt(tag: Text, rest: Text, code: bool)
    requires tag == CODE_OPEN || tag == CODE_CLOSE
    ensures Read(tag + rest, code) == Read(rest, tag == CODE_OPEN)
  {
    var name := tag[1..|tag| - 1];
    AfterTagOf(name, rest);
    var html := tag + rest;
    assert html[1..] == name + [GREATER] + rest;
    PrefixOf(tag, rest);
    assert html[1] == tag[1];
    assert StartsWith(html, CODE_OPEN) ==> html[..|CODE_OPEN|][1] == html[1];
    assert StartsWith(html, CODE_CLOSE) ==> html[..|CODE_CLOSE|][1] == html[1];
    hide AfterTag, StartsWith;
  }

  // ---------- Code spans ----------

  function EscapeAll(pieces: seq<Text>): (r: seq<Text>)
    ensures |r| == |pieces|
  {
    seq(|pieces|, i requires 0 <= i < |pieces| => Escape(pieces[i]))
  }

  // The pieces in turn as text and as code.
  function InTurn(pieces: seq<Text>, code: bool): seq<Seen> {
    if pieces == [] then [] else All(pieces[0], code) + InTurn(pieces[1..], !code)
  }

  lemma {:induction false} SplitAfterPrefix(p: Text, c: CodeUnit, s: Text)
    requires c !in p
    ensures Split(p + s, c) == [p + Split(s, c)[0]] + Split(s, c)[1..]
  {
    if p == [] {
      assert p + s == s;
      assert p + Split(s, c)[0] == Split(s, c)[0];
    } else {
      SplitAfterPrefix(p[1..], c, s);
      assert (p + s)[1..] == p[1..] + s;
      assert p + Split(s, c)[0] == [p[0]] + (p[1..] + Split(s, c)[0]);
    }
  }

  lemma EscapeUnitHasNoBacktick(c: CodeUnit)
    ensures c != BACKTICK ==> BACKTICK !in EscapeUnit(c)
    ensures c == BACKTICK ==> EscapeUnit(c) == [BACKTICK]
  {
  }

  // Splitting at backticks and escaping can be done in either order.
  lemma {:induction false} SplitOfEscape(s: Text)
    ensures Split(Escape(s), BACKTICK) == EscapeAll(Split(s, BACKTICK))
  {
    hide EscapeUnit;
    if s == [] {
      assert Escape([]) == [];
    } else {
      var rest := Split(s[1..], BACKTICK);
      SplitOfEscape(s[1..]);
      EscapeUnitHasNoBacktick(s[0]);
      if s[0] == BACKTICK {
        assert Escape(s) == [BACKTICK] + Escape(s[1..]);
        assert Escape(s)[1..] == Escape(s[1..]);
        assert Escape([]) == [];
        assert EscapeAll([[]] + rest) == [[]] + EscapeAll(rest);
      } else {
        SplitAfterPrefix(EscapeUnit(s[0]), BACKTICK, Escape(s[1..]));
        EscapeFirst(s[0], rest);
      }
    }
  }

  lemma EscapeFirst(c: CodeUnit, pieces: seq<Text>)
    requires pieces != []
    ensures EscapeAll([[c] + pieces[0]] + pieces[1..])
         == [EscapeUnit(c) + EscapeAll(pieces)[0]] + EscapeAll(pieces)[1..]
  {
    hide EscapeUnit;
    assert ([c] + pieces[0])[1..] == pieces[0];
  }

  lemma CodeReadBack(piece: Text, rest: Text)
    ensures Read(CODE_OPEN + Escape(piece) + CODE_CLOSE + rest, false) == All(piece, true) + Read(rest, false)
  {
    hide Read, Escape;
    EscapedReadBack(piece, CODE_CLOSE + rest, true);
    TagAt(CODE_CLOSE, rest, true);
    TagAt(CODE_OPEN, Escape(piece) + (CODE_CLOSE + rest), false);
    assert CODE_OPEN + Escape(piece) + CODE_CLOSE + rest == CODE_OPEN + (Escape(piece) + (CODE_CLOSE + rest));
  }

  lemma {:induction false} PiecesReadBack(pieces: seq<Text>, index: nat)
    ensures Read(RenderPieces(EscapeAll(pieces), index), false) == InTurn(pieces, index % 2 == 1)
    decreases |pieces|
  {
    hide Read, Escape;
    if pieces == [] {
      NoText(false);
    } else {
      PiecesReadBack(pieces[1..], index + 1);
      assert EscapeAll(pieces)[1..] == EscapeAll(pieces[1..]);
      var rest := RenderPieces(EscapeAll(pieces[1..]), index + 1);
      if index % 2 == 0 {
        EscapedReadBack(pieces[0], rest, false);
      } else {
        CodeReadBack(pieces[0], rest);
      }
    }
  }

  lemma NoText(code: bool)
    ensures Read([], code) == []
  {
  }

  lemma {:induction false} InTurnIsMeant(s: Text, code: bool)
    ensures InTurn(Split(s, BACKTICK), code) == Meant(s, code)
  {
    hide InTurn;
    if s == [] {
      NothingInTurn(code);
    } else {
      InTurnIsMeant(s[1..], if s[0] == BACKTICK then !code else code);
      FirstInTurn(s[0], Split(s[1..], BACKTICK), code);
    }
  }

  lemma NothingInTurn(code: bool)
    ensures InTurn([[]], code) == []
  {
  }

  lemma InTurnUnfolds(piece: Text, rest: seq<Text>, code: bool)
    ensures InTurn([piece] + rest, code) == All(piece, code) + InTurn(rest, !code)
  {
    hide All;
    assert ([piece] + rest)[1..] == rest;
  }

  lemma FirstInTurn(c: CodeUnit, rest: seq<Text>, code: bool)
    requires rest != []
    ensures InTurn([[]] + rest, code) == InTurn(rest, !code)
    ensures InTurn([[c] + rest[0]] + rest[1..], code) == [Seen(c, code)] + InTurn(rest, code)
  {
    hide InTurn;
    InTurnUnfolds([], rest, code);
    InTurnUnfolds([c] + rest[0], rest[1..], code);
    InTurnUnfolds(rest[0], rest[1..], code);
    AllUnfolds(c, rest[0], code);
    hide All;
    assert [rest[0]] + rest[1..] == rest;
    assert [] + InTurn(rest, !code) == InTurn(rest, !code);
    var seen, all, later := [Seen(c, code)], All(rest[0], code), InTurn(rest[1..], !code);
    assert (seen + all) + later == seen + (all + later);
  }

  lemma AllUnfolds(c: CodeUnit, piece: Text, code: bool)
    ensures All([], code) == []
    ensures All([c] + piece, code) == [Seen(c, code)] + All(piece, code)
  {
  }

  // Whatever the text, a reader of the HTML sees it with its backticks removed, as code exactly where an
  // odd number of backticks has come before; nothing in it acts as markup.
  lemma InlineReadBack(value: Text)
    ensures Read(RenderInlineMarkdown(value), false) == Meant(value, false)
    ensures Read(Escape(value), false) == All(value, false)
  {
    hide Read, Escape, Split, EscapeAll, RenderPieces, InTurn, Meant, All;
    SplitOfEscape(value);
    InTurnIsMeant(value, false);
    PiecesReadBack(Split(value, BACKTICK), 0);
    EscapedReadBack(value, [], false);
    NoText(false);
    assert Escape(value) + [] == Escape(value) && All(value, false) + [] == All(value, false);
    OnePiece(value);
  }

  lemma OnePiece(s: Text)
    ensures |Split(s, BACKTICK)| == 1 ==> InTurn(Split(s, BACKTICK), false) == All(s, false)
  {
    JoinAfterSplit(s, BACKTICK);
    if |Split(s, BACKTICK)| == 1 {
      assert InTurn([s], false) == All(s, false) + InTurn([], true);
      assert All(s, false) + [] == All(s, false);
    }
  }
}
