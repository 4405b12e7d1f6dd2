// The escapes of the generated files: chains of `replaceAll` calls, their single-pass meaning, and how
// far the matching chains of `replaceAll` calls undo them.
module Escapes {
  import opened CodeUnits

  // String.prototype.replaceAll with a non-empty pattern: leftmost matches, without overlap.
  function ReplaceAll(s: Text, pattern: Text, text: Text): Text
    requires pattern != []
  {
    if |s| < |pattern| then s
    else if s[..|pattern|] == pattern then text + ReplaceAll(s[|pattern|..], pattern, text)
    else [s[0]] + ReplaceAll(s[1..], pattern, text)
  }

  datatype Rule = Rule(pattern: Text, text: Text)

  // One replaceAll after the other.
  function Chain(rules: seq<Rule>, s: Text): Text
    requires forall r | r in rules :: r.pattern != []
  {
    if rules == [] then s else Chain(rules[1..], ReplaceAll(s, rules[0].pattern, rules[0].text))
  }

  const RESOURCE_ESCAPES := [
    Rule([BACKSLASH], [BACKSLASH, BACKSLASH]),
    Rule([LF], [BACKSLASH, LETTER_N]),
    Rule([SINGLE_QUOTE], [BACKSLASH, SINGLE_QUOTE]),
    Rule([DOUBLE_QUOTE], [BACKSLASH, DOUBLE_QUOTE]),
    Rule([AMPERSAND], AMP_ENTITY),
    Rule([LESS], LT_ENTITY),
    Rule([GREATER], GT_ENTITY)
  ]

  const XML_DECODING := [
    Rule(LT_ENTITY, [LESS]),
    Rule(GT_ENTITY, [GREATER]),
    Rule(QUOT_ENTITY, [DOUBLE_QUOTE]),
    Rule(AMP_ENTITY, [AMPERSAND]),
    Rule([BACKSLASH, LETTER_N], [LF]),
    Rule([BACKSLASH, SINGLE_QUOTE], [SINGLE_QUOTE]),
    Rule([BACKSLASH, DOUBLE_QUOTE], [DOUBLE_QUOTE]),
    Rule([BACKSLASH, BACKSLASH], [BACKSLASH])
  ]

  const KOTLIN_ESCAPES := [
    Rule([BACKSLASH], [BACKSLASH, BACKSLASH]),
    Rule([DOUBLE_QUOTE], [BACKSLASH, DOUBLE_QUOTE]),
    Rule([DOLLAR], [BACKSLASH, DOLLAR]),
    Rule([LF], [BACKSLASH, LETTER_N])
  ]

  const KOTLIN_DECODING := [
    Rule([BACKSLASH, LETTER_N], [LF]),
    Rule([BACKSLASH, DOUBLE_QUOTE], [DOUBLE_QUOTE]),
    Rule([BACKSLASH, DOLLAR], [DOLLAR]),
    Rule([BACKSLASH, BACKSLASH], [BACKSLASH])
  ]

  function EscapeResource(value: Text): Text {
    Chain(RESOURCE_ESCAPES, value)
  }

  function DecodeXml(value: Text): Text {
    Chain(XML_DECODING, value)
  }

  function EscapeKotlin(value: Text): Text {
    Chain(KOTLIN_ESCAPES, value)
  }

  function DecodeKotlinLiteral(value: Text): Text {
    Chain(KOTLIN_DECODING, value)
  }

  // ---------- The escaping chains are one pass over the text ----------

  // Which code units, besides the backslash, are written as an escape.
  datatype Style = Style(amp: bool, lt: bool, gt: bool, lf: bool, single: bool, double: bool, dollar: bool) {
    predicate Entity(c: CodeUnit) {
      (amp && c == AMPERSAND) || (lt && c == LESS) || (gt && c == GREATER)
    }

    predicate Slashed(c: CodeUnit) {
      (lf && c == LF) || (single && c == SINGLE_QUOTE) || (double && c == DOUBLE_QUOTE) || (dollar && c == DOLLAR)
    }
  }

  const RESOURCE_STYLE := Style(true, true, true, true, true, true, false)
  const KOTLIN_STYLE := Style(false, false, false, true, false, true, true)

  function Letter(c: CodeUnit): CodeUnit {
    if c == LF then LETTER_N else c
  }

  function EntityOf(c: CodeUnit): Text {
    if c == LESS then LT_ENTITY else if c == GREATER then GT_ENTITY else AMP_ENTITY
  }

  function EscapeUnit(style: Style, c: CodeUnit): Text {
    if c == BACKSLASH then [BACKSLASH, BACKSLASH]
    else if style.Slashed(c) then [BACKSLASH, Letter(c)]
    else if style.Entity(c) then EntityOf(c)
    else [c]
  }

  // Every code unit replaced by its escape.
  function EscapeMap(style: Style, s: Text): Text {
    if s == [] then [] else EscapeUnit(style, s[0]) + EscapeMap(style, s[1..])
  }

  lemma {:induction false} ReplaceUnitDistributes(a: Text, b: Text, c: CodeUnit, text: Text)
    ensures ReplaceAll(a + b, [c], text) == ReplaceAll(a, [c], text) + ReplaceAll(b, [c], text)
  {
    if a == [] {
      assert a + b == b;
    } else {
      hide ReplaceAll;
      var head := if a[0] == c then text else [a[0]];
      ReplaceUnitDistributes(a[1..], b, c, text);
      ReplaceUnitStep(a, c, text);
      ReplaceUnitStep(a + b, c, text);
      assert (a + b)[0] == a[0] && (a + b)[1..] == a[1..] + b;
      var x, y := ReplaceAll(a[1..], [c], text), ReplaceAll(b, [c], text);
      assert head + (x + y) == (head + x) + y;
    }
  }

  lemma ReplaceUnitStep(s: Text, c: CodeUnit, text: Text)
    requires s != []
    ensures ReplaceAll(s, [c], text) == (if s[0] == c then text else [s[0]]) + ReplaceAll(s[1..], [c], text)
  {
    assert s[..1] == [s[0]];
  }

  lemma {:induction false} ReplaceAbsent(s: Text, c: CodeUnit, text: Text)
    requires c !in s
    ensures ReplaceAll(s, [c], text) == s
  {
    if s != [] {
      assert s[..1][0] != c;
      ReplaceAbsent(s[1..], c, text);
    }
  }

  lemma ReplaceSelf(c: CodeUnit, text: Text)
    ensures ReplaceAll([c], [c], text) == text
  {
    assert ReplaceAll([c], [c], text) == text + ReplaceAll([], [c], text);
  }

  // All patterns are single code units.
  predicate UnitRules(rules: seq<Rule>) {
    forall r | r in rules :: |r.pattern| == 1
  }

  lemma {:induction false} ChainDistributes(rules: seq<Rule>, a: Text, b: Text)
    requires UnitRules(rules)
    ensures Chain(rules, a + b) == Chain(rules, a) + Chain(rules, b)
  {
    if rules != [] {
      var r := rules[0];
      assert r in rules && r.pattern == [r.pattern[0]];
      ReplaceUnitDistributes(a, b, r.pattern[0], r.text);
      ChainDistributes(rules[1..], ReplaceAll(a, r.pattern, r.text), ReplaceAll(b, r.pattern, r.text));
    }
  }

  lemma {:induction false} ChainAbsent(rules: seq<Rule>, s: Text)
    requires UnitRules(rules) && forall r | r in rules :: r.pattern[0] !in s
    ensures Chain(rules, s) == s
  {
    if rules != [] {
      var r := rules[0];
      assert r in rules && r.pattern == [r.pattern[0]];
      ReplaceAbsent(s, r.pattern[0], r.text);
      ChainAbsent(rules[1..], s);
    }
  }

  // A code unit goes through the chain untouched up to its own rule, and what that rule writes is not
  // touched again.
  lemma {:induction false} ChainUnit(rules: seq<Rule>, c: CodeUnit, k: nat)
    requires UnitRules(rules) && k < |rules| && rules[k].pattern == [c]
    requires forall j | 0 <= j < k :: rules[j].pattern[0] != c
    requires forall j | k < j < |rules| :: rules[j].pattern[0] !in rules[k].text
    ensures Chain(rules, [c]) == rules[k].text
  {
    var r := rules[0];
    assert r in rules && r.pattern == [r.pattern[0]];
    if k == 0 {
      ReplaceSelf(c, r.text);
      ChainAbsent(rules[1..], r.text);
    } else {
      ReplaceAbsent([c], r.pattern[0], r.text);
      ChainUnit(rules[1..], c, k - 1);
    }
  }

  lemma {:induction false} ChainIsMap(rules: seq<Rule>, style: Style, s: Text)
    requires UnitRules(rules) && forall c :: Chain(rules, [c]) == EscapeUnit(style, c)
    ensures Chain(rules, s) == EscapeMap(style, s)
  {
    if s == [] {
      ChainAbsent(rules, []);
    } else {
      assert s == [s[0]] + s[1..];
      ChainDistributes(rules, [s[0]], s[1..]);
      ChainIsMap(rules, style, s[1..]);
    }
  }

  lemma EscapeResourceIsMap(s: Text)
    ensures EscapeResource(s) == EscapeMap(RESOURCE_STYLE, s)
  {
    hide Chain;
    forall c ensures Chain(RESOURCE_ESCAPES, [c]) == EscapeUnit(RESOURCE_STYLE, c) {
      ResourceUnit(c);
    }
    hide EscapeUnit;
    ChainIsMap(RESOURCE_ESCAPES, RESOURCE_STYLE, s);
  }

  lemma ResourceUnit(c: CodeUnit)
    ensures Chain(RESOURCE_ESCAPES, [c]) == EscapeUnit(RESOURCE_STYLE, c)
  {
    hide Chain;
    var rules := RESOURCE_ESCAPES;
    if k :| 0 <= k < 7 && rules[k].pattern[0] == c {
      ChainUnit(rules, c, k);
    } else {
      ChainAbsent(rules, [c]);
    }
  }

  lemma EscapeKotlinIsMap(s: Text)
    ensures EscapeKotlin(s) == EscapeMap(KOTLIN_STYLE, s)
  {
    hide Chain;
    var rules := KOTLIN_ESCAPES;
    forall c ensures Chain(rules, [c]) == EscapeUnit(KOTLIN_STYLE, c) {
      if k :| 0 <= k < 4 && rules[k].pattern[0] == c {
        ChainUnit(rules, c, k);
      } else {
        ChainAbsent(rules, [c]);
      }
    }
    ChainIsMap(rules, KOTLIN_STYLE, s);
  }

  // ---------- What the decoding chains do to escaped texts ----------

  // The text cut into pieces: a backslash with the letter n after it, or a single code unit.
  datatype Piece = BackslashN | Unit(c: CodeUnit)

  function Pieces(s: Text): seq<Piece> {
    if s == [] then []
    else if s[0] == BACKSLASH && |s| > 1 && s[1] == LETTER_N then [BackslashN] + Pieces(s[2..])
    else [Unit(s[0])] + Pieces(s[1..])
  }

  // How a piece is written while some of the escapes of its style are still there. Once `\n` has been
  // read as an escaped newline after a backslash, nothing brings the letter n back.
  function Written(style: Style, p: Piece): Text {
    match p
    case BackslashN => if style.lf then [BACKSLASH, BACKSLASH, LETTER_N] else [BACKSLASH, LF]
    case Unit(c) => EscapeUnit(style, c)
  }

  function WrittenAll(style: Style, ps: seq<Piece>): Text {
    if ps == [] then [] else Written(style, ps[0]) + WrittenAll(style, ps[1..])
  }

  function Bare(ps: seq<Piece>): Text {
    if ps == [] then []
    else (match ps[0] case BackslashN => [BACKSLASH, LF] case Unit(c) => [c]) + Bare(ps[1..])
  }

  // A backslash piece is never followed by the letter n.
  predicate Separated(ps: seq<Piece>) {
    forall i | 0 <= i < |ps| - 1 :: ps[i] == Unit(BACKSLASH) ==> ps[i + 1] != Unit(LETTER_N)
  }

  lemma {:induction false} PiecesAreSeparated(s: Text)
    ensures Separated(Pieces(s))
    ensures s != [] && s[0] != LETTER_N ==> Pieces(s)[0] != Unit(LETTER_N)
  {
    if s == [] {
    } else if s[0] == BACKSLASH && |s| > 1 && s[1] == LETTER_N {
      PiecesAreSeparated(s[2..]);
    } else {
      PiecesAreSeparated(s[1..]);
    }
  }

  lemma {:induction false} EscapeMapIsWritten(style: Style, s: Text)
    requires style.lf
    ensures EscapeMap(style, s) == WrittenAll(style, Pieces(s))
  {
    if s == [] {
    } else if s[0] == BACKSLASH && |s| > 1 && s[1] == LETTER_N {
      EscapeMapIsWritten(style, s[2..]);
      assert s[1..][0] == LETTER_N && s[1..][1..] == s[2..];
      assert EscapeMap(style, s[1..]) == [LETTER_N] + EscapeMap(style, s[2..]);
      assert Pieces(s)[1..] == Pieces(s[2..]);
    } else {
      hide EscapeUnit;
      EscapeMapIsWritten(style, s[1..]);
      assert Pieces(s)[1..] == Pieces(s[1..]);
    }
  }

  lemma SkipUnit(s: Text, pattern: Text, text: Text)
    requires pattern != [] && s != [] && !(pattern <= s)
    ensures ReplaceAll(s, pattern, text) == [s[0]] + ReplaceAll(s[1..], pattern, text)
  {
    assert |s| >= |pattern| ==> s[..|pattern|] != pattern;
    assert s == [s[0]] + s[1..];
  }

  // A word in which the pattern's first unit occurs at most in front, where no match starts.
  lemma {:induction false} SkipWord(w: Text, rest: Text, pattern: Text, text: Text)
    requires pattern != [] && w != [] && forall i | 1 <= i < |w| :: w[i] != pattern[0]
    requires !(pattern <= w + rest)
    ensures ReplaceAll(w + rest, pattern, text) == w + ReplaceAll(rest, pattern, text)
    decreases |w|
  {
    hide ReplaceAll;
    SkipUnit(w + rest, pattern, text);
    assert (w + rest)[1..] == w[1..] + rest;
    if |w| == 1 {
      assert w[1..] + rest == rest;
    } else {
      assert (w[1..] + rest)[0] == w[1];
      SkipWord(w[1..], rest, pattern, text);
      assert w == [w[0]] + w[1..];
    }
  }

  lemma MatchWord(rest: Text, pattern: Text, text: Text)
    requires pattern != []
    ensures ReplaceAll(pattern + rest, pattern, text) == text + ReplaceAll(rest, pattern, text)
  {
    assert (pattern + rest)[..|pattern|] == pattern && (pattern + rest)[|pattern|..] == rest;
  }

  // The style in which c is no longer escaped.
  function Without(style: Style, c: CodeUnit): Style {
    if c == LESS then style.(lt := false)
    else if c == GREATER then style.(gt := false)
    else if c == AMPERSAND then style.(amp := false)
    else if c == LF then style.(lf := false)
    else if c == SINGLE_QUOTE then style.(single := false)
    else if c == DOUBLE_QUOTE then style.(double := false)
    else if c == DOLLAR then style.(dollar := false)
    else style
  }

  lemma EntityStep(style: Style, c: CodeUnit, p: Piece, rest: Text)
    requires style.Entity(c) && style.amp
    ensures ReplaceAll(Written(style, p) + rest, EntityOf(c), [c])
         == Written(Without(style, c), p) + ReplaceAll(rest, EntityOf(c), [c])
  {
    hide ReplaceAll;
    var w := Written(style, p);
    if p == Unit(c) {
      MatchWord(rest, EntityOf(c), [c]);
    } else {
      OtherEntity(style, c, p);
      assert w[0] == (w + rest)[0];
      assert |w| > 1 ==> w[1] == (w + rest)[1];
      hide Written, EntityOf;
      SkipWord(w, rest, EntityOf(c), [c]);
    }
  }

  // A piece other than c is written alike with and without the entity of c, and does not begin like it.
  lemma OtherEntity(style: Style, c: CodeUnit, p: Piece)
    requires style.Entity(c) && style.amp && p != Unit(c)
    ensures var w := Written(style, p);
            && w != [] && Written(Without(style, c), p) == w
            && (w[0] != AMPERSAND || (|w| > 1 && w[1] != EntityOf(c)[1]))
            && forall i | 1 <= i < |w| :: w[i] != AMPERSAND
    ensures |EntityOf(c)| > 1 && EntityOf(c)[0] == AMPERSAND
  {
  }

  // Decoding the entity of c.
  lemma {:induction false} EntityPass(style: Style, c: CodeUnit, ps: seq<Piece>)
    requires style.Entity(c) && style.amp
    ensures ReplaceAll(WrittenAll(style, ps), EntityOf(c), [c]) == WrittenAll(Without(style, c), ps)
  {
    if ps != [] {
      EntityStep(style, c, ps[0], WrittenAll(style, ps[1..]));
      EntityPass(style, c, ps[1..]);
    }
  }

  // No escaped text holds the entity of the double quote.
  lemma {:induction false} QuotPass(style: Style, ps: seq<Piece>)
    requires style.amp
    ensures ReplaceAll(WrittenAll(style, ps), QUOT_ENTITY, [DOUBLE_QUOTE]) == WrittenAll(style, ps)
  {
    if ps != [] {
      var w, rest := Written(style, ps[0]), WrittenAll(style, ps[1..]);
      assert w[0] == (w + rest)[0];
      assert |w| > 1 ==> w[1] == (w + rest)[1];
      SkipWord(w, rest, QUOT_ENTITY, [DOUBLE_QUOTE]);
      QuotPass(style, ps[1..]);
    }
  }

  lemma BackslashFirst(w: Text, rest: Text, x: CodeUnit, text: Text)
    requires w + rest == [] || (w + rest)[0] != x
    requires x != BACKSLASH
    ensures ReplaceAll([BACKSLASH] + (w + rest), [BACKSLASH, x], text)
         == [BACKSLASH] + ReplaceAll(w + rest, [BACKSLASH, x], text)
  {
    var s := [BACKSLASH] + (w + rest);
    assert |s| > 1 ==> s[1] == (w + rest)[0];
    SkipWord([BACKSLASH], w + rest, [BACKSLASH, x], text);
  }

  lemma SlashedPair(rest: Text)
    ensures ReplaceAll([BACKSLASH, BACKSLASH, LETTER_N] + rest, [BACKSLASH, LETTER_N], [LF])
         == [BACKSLASH, LF] + ReplaceAll(rest, [BACKSLASH, LETTER_N], [LF])
  {
    hide ReplaceAll;
    var pattern: Text := [BACKSLASH, LETTER_N];
    BackslashFirst(pattern, rest, LETTER_N, [LF]);
    MatchWord(rest, pattern, [LF]);
    assert [BACKSLASH, BACKSLASH, LETTER_N] + rest == [BACKSLASH] + (pattern + rest);
  }

  lemma DoubledBackslash(x: CodeUnit, text: Text, rest: Text)
    requires x != BACKSLASH && (rest == [] || rest[0] != x)
    ensures ReplaceAll([BACKSLASH, BACKSLASH] + rest, [BACKSLASH, x], text)
         == [BACKSLASH, BACKSLASH] + ReplaceAll(rest, [BACKSLASH, x], text)
  {
    hide ReplaceAll;
    BackslashFirst([BACKSLASH], rest, x, text);
    BackslashFirst([], rest, x, text);
    assert [] + rest == rest;
    assert [BACKSLASH, BACKSLASH] + rest == [BACKSLASH] + ([BACKSLASH] + rest);
  }

  lemma SlashStep(style: Style, c: CodeUnit, p: Piece, rest: Text)
    requires style.Slashed(c) && (style.lf ==> c == LF)
    requires p == Unit(BACKSLASH) ==> rest == [] || rest[0] != Letter(c)
    ensures ReplaceAll(Written(style, p) + rest, [BACKSLASH, Letter(c)], [c])
         == Written(Without(style, c), p) + ReplaceAll(rest, [BACKSLASH, Letter(c)], [c])
  {
    hide ReplaceAll;
    var w, pattern := Written(style, p), [BACKSLASH, Letter(c)];
    if p == Unit(c) {
      MatchWord(rest, pattern, [c]);
    } else if p == BackslashN && c == LF {
      SlashedPair(rest);
    } else if p == Unit(BACKSLASH) {
      DoubledBackslash(Letter(c), [c], rest);
    } else {
      assert w[0] == (w + rest)[0];
      assert |w| > 1 ==> w[1] == (w + rest)[1];
      SkipWord(w, rest, pattern, [c]);
    }
  }

  // Decoding the backslash escape of c; the newline comes first.
  lemma {:induction false} SlashPass(style: Style, c: CodeUnit, ps: seq<Piece>)
    requires style.Slashed(c) && (style.lf ==> c == LF) && Separated(ps)
    ensures ReplaceAll(WrittenAll(style, ps), [BACKSLASH, Letter(c)], [c]) == WrittenAll(Without(style, c), ps)
  {
    if ps != [] {
      var rest := WrittenAll(style, ps[1..]);
      if |ps| > 1 {
        assert rest[0] == Written(style, ps[1])[0];
      }
      SlashStep(style, c, ps[0], rest);
      SlashPass(style, c, ps[1..]);
    }
  }

  const BARE_STYLE := Style(false, false, false, false, false, false, false)

  // The last pass takes the doubled backslashes apart.
  lemma {:induction false} BackslashPass(ps: seq<Piece>)
    ensures ReplaceAll(WrittenAll(BARE_STYLE, ps), [BACKSLASH, BACKSLASH], [BACKSLASH]) == Bare(ps)
  {
    if ps != [] {
      var w, rest := Written(BARE_STYLE, ps[0]), WrittenAll(BARE_STYLE, ps[1..]);
      BackslashPass(ps[1..]);
      if ps[0] == Unit(BACKSLASH) {
        MatchWord(rest, w, [BACKSLASH]);
      } else {
        assert w[0] == (w + rest)[0];
        assert |w| > 1 ==> w[1] == (w + rest)[1];
        SkipWord(w, rest, [BACKSLASH, BACKSLASH], [BACKSLASH]);
      }
    }
  }

  lemma ChainStep(rules: seq<Rule>, s: Text)
    requires rules != [] && forall r | r in rules :: r.pattern != []
    ensures rules[0] in rules
    ensures Chain(rules, s) == Chain(rules[1..], ReplaceAll(s, rules[0].pattern, rules[0].text))
  {
  }

  // A chain whose rules lead from one text to the next leads from the first text to the last.
  lemma {:induction false} ChainThrough(rules: seq<Rule>, texts: seq<Text>)
    requires forall r | r in rules :: r.pattern != []
    requires |texts| == |rules| + 1
    requires forall i | 0 <= i < |rules| ::
               rules[i].pattern != [] && ReplaceAll(texts[i], rules[i].pattern, rules[i].text) == texts[i + 1]
    ensures Chain(rules, texts[0]) == texts[|rules|]
  {
    if rules != [] {
      ChainStep(rules, texts[0]);
      ChainThrough(rules[1..], texts[1..]);
    }
  }

  lemma DecodeXmlPieces(ps: seq<Piece>)
    requires Separated(ps)
    ensures DecodeXml(WrittenAll(RESOURCE_STYLE, ps)) == Bare(ps)
  {
    hide Chain, ReplaceAll, WrittenAll, Separated;
    var st0 := RESOURCE_STYLE;
    var st1 := Without(st0, LESS);
    var st2 := Without(st1, GREATER);
    var st4 := Without(st2, AMPERSAND);
    var st5 := Without(st4, LF);
    var st6 := Without(st5, SINGLE_QUOTE);
    var st7 := Without(st6, DOUBLE_QUOTE);
    EntityPass(st0, LESS, ps);
    EntityPass(st1, GREATER, ps);
    QuotPass(st2, ps);
    EntityPass(st2, AMPERSAND, ps);
    SlashPass(st4, LF, ps);
    SlashPass(st5, SINGLE_QUOTE, ps);
    SlashPass(st6, DOUBLE_QUOTE, ps);
    BackslashPass(ps);
    ChainThrough(XML_DECODING, [
      WrittenAll(st0, ps), WrittenAll(st1, ps), WrittenAll(st2, ps), WrittenAll(st2, ps), WrittenAll(st4, ps),
      WrittenAll(st5, ps), WrittenAll(st6, ps), WrittenAll(st7, ps), Bare(ps)]);
  }

  lemma DecodeKotlinPieces(ps: seq<Piece>)
    requires Separated(ps)
    ensures DecodeKotlinLiteral(WrittenAll(KOTLIN_STYLE, ps)) == Bare(ps)
  {
    hide Chain, ReplaceAll, WrittenAll, Separated;
    var st0 := KOTLIN_STYLE;
    var st1 := Without(st0, LF);
    var st2 := Without(st1, DOUBLE_QUOTE);
    var st3 := Without(st2, DOLLAR);
    SlashPass(st0, LF, ps);
    SlashPass(st1, DOUBLE_QUOTE, ps);
    SlashPass(st2, DOLLAR, ps);
    BackslashPass(ps);
    ChainThrough(KOTLIN_DECODING, [
      WrittenAll(st0, ps), WrittenAll(st1, ps), WrittenAll(st2, ps), WrittenAll(st3, ps), Bare(ps)]);
  }

  // ---------- The exact round trip ----------

  // A letter n right after a backslash stands at i.
  predicate BackslashNAt(s: Text, i: nat) {
    0 < i < |s| && s[i - 1] == BACKSLASH && s[i] == LETTER_N
  }

  predicate HasBackslashN(s: Text) {
    exists i | 0 < i < |s| :: BackslashNAt(s, i)
  }

  // The text with every letter n that follows a backslash turned into a newline.
  function Mangled(s: Text): (t: Text)
    ensures |t| == |s|
  {
    seq(|s|, i requires 0 <= i < |s| => if BackslashNAt(s, i) then LF else s[i])
  }

  lemma MangledTail(s: Text, n: nat)
    requires n <= |s| && !BackslashNAt(s, n)
    ensures Mangled(s)[n..] == Mangled(s[n..])
  {
    forall i | n <= i < |s| ensures Mangled(s)[i] == Mangled(s[n..])[i - n] {
      assert s[i] == s[n..][i - n];
      assert i > n ==> s[i - 1] == s[n..][i - 1 - n];
    }
  }

  lemma {:induction false} BareIsMangled(s: Text)
    ensures Bare(Pieces(s)) == Mangled(s)
  {
    if s == [] {
    } else if s[0] == BACKSLASH && |s| > 1 && s[1] == LETTER_N {
      BareIsMangled(s[2..]);
      assert Bare(Pieces(s)) == [BACKSLASH, LF] + Bare(Pieces(s[2..])) by {
        assert Pieces(s)[1..] == Pieces(s[2..]);
      }
      MangledTail(s, 2);
      assert Mangled(s) == [BACKSLASH, LF] + Mangled(s)[2..];
    } else {
      BareIsMangled(s[1..]);
      assert Bare(Pieces(s)) == [s[0]] + Bare(Pieces(s[1..])) by {
        assert Pieces(s)[1..] == Pieces(s[1..]);
      }
      MangledTail(s, 1);
      assert Mangled(s) == [s[0]] + Mangled(s)[1..];
    }
  }

  lemma MangledIsSame(s: Text)
    ensures Mangled(s) == s <==> !HasBackslashN(s)
  {
    if HasBackslashN(s) {
      var i :| 0 < i < |s| && BackslashNAt(s, i);
      assert Mangled(s)[i] != s[i];
    } else {
      forall i | 0 <= i < |s| ensures Mangled(s)[i] == s[i] {
        assert i > 0 ==> !BackslashNAt(s, i);
      }
    }
  }

  // What reading back an escaped Android resource value gives, for every text; it gives the text itself
  // exactly when no backslash is followed by the letter n.
  lemma ResourceRoundTrip(s: Text)
    ensures DecodeXml(EscapeResource(s)) == Mangled(s)
    ensures DecodeXml(EscapeResource(s)) == s <==> !HasBackslashN(s)
  {
    hide Chain;
    EscapeResourceIsMap(s);
    EscapeMapIsWritten(RESOURCE_STYLE, s);
    PiecesAreSeparated(s);
    DecodeXmlPieces(Pieces(s));
    BareIsMangled(s);
    MangledIsSame(s);
  }

  // The same for a Kotlin string literal.
  lemma KotlinRoundTrip(s: Text)
    ensures DecodeKotlinLiteral(EscapeKotlin(s)) == Mangled(s)
    ensures DecodeKotlinLiteral(EscapeKotlin(s)) == s <==> !HasBackslashN(s)
  {
    hide Chain;
    EscapeKotlinIsMap(s);
    EscapeMapIsWritten(KOTLIN_STYLE, s);
    PiecesAreSeparated(s);
    DecodeKotlinPieces(Pieces(s));
    BareIsMangled(s);
    MangledIsSame(s);
  }

  // The decoder also knows the entity of the double quote, which the escapes never write.
  lemma QuotEntityIsDecoded()
    ensures DecodeXml(QUOT_ENTITY) == [DOUBLE_QUOTE]
  {
    var q: Text, quote: Text := QUOT_ENTITY, [DOUBLE_QUOTE];
    assert q + [] == q && quote + [] == quote;
    assert q[1] != LT_ENTITY[1] && q[1] != GT_ENTITY[1];
    SkipWord(q, [], LT_ENTITY, [LESS]);
    SkipWord(q, [], GT_ENTITY, [GREATER]);
    MatchWord([], QUOT_ENTITY, quote);
    assert ReplaceAll([], LT_ENTITY, [LESS]) == [] == ReplaceAll([], GT_ENTITY, [GREATER]);
    assert ReplaceAll([], QUOT_ENTITY, quote) == [];
    ChainThrough(XML_DECODING, [q, q, q, quote, quote, quote, quote, quote, quote]);
  }

  // ---------- Escaped texts are safe ----------

  predicate BeginsEntity(t: Text) {
    LT_ENTITY <= t || GT_ENTITY <= t || AMP_ENTITY <= t
  }

  predicate SafeAt(style: Style, t: Text, i: nat)
    requires i < |t|
  {
    var c := t[i];
    && (style.lf ==> c != LF) && (style.lt ==> c != LESS) && (style.gt ==> c != GREATER)
    && (style.Slashed(c) && c != LF ==> i > 0 && t[i - 1] == BACKSLASH)
    && (style.amp && c == AMPERSAND ==> BeginsEntity(t[i..]))
  }

  lemma SafeUnit(style: Style, c: CodeUnit, rest: Text, i: nat)
    requires style.lt || style.gt ==> style.amp
    requires i < |EscapeUnit(style, c)|
    ensures SafeAt(style, EscapeUnit(style, c) + rest, i)
  {
    var u := EscapeUnit(style, c);
    var t := u + rest;
    assert t[i] == u[i];
    assert i == 0 ==> t[0..] == t && u <= t;
  }

  lemma SafeLater(style: Style, u: Text, rest: Text, i: nat)
    requires |u| <= i < |u + rest| && SafeAt(style, rest, i - |u|)
    ensures SafeAt(style, u + rest, i)
  {
    var t := u + rest;
    assert t[i] == rest[i - |u|] && t[i..] == rest[i - |u|..];
    assert i > |u| ==> t[i - 1] == rest[i - |u| - 1];
    hide BeginsEntity;
  }

  lemma {:induction false} EscapeMapIsSafe(style: Style, s: Text, i: nat)
    requires (style.lt || style.gt ==> style.amp) && i < |EscapeMap(style, s)|
    ensures SafeAt(style, EscapeMap(style, s), i)
  {
    var u, rest := EscapeUnit(style, s[0]), EscapeMap(style, s[1..]);
    if i < |u| {
      SafeUnit(style, s[0], rest, i);
    } else {
      EscapeMapIsSafe(style, s[1..], i - |u|);
      hide SafeAt, EscapeUnit;
      SafeLater(style, u, rest, i);
    }
  }

  // In an escaped resource there is no line break and no angle bracket, every quote stands behind a
  // backslash, and every ampersand begins an entity.
  lemma ResourceIsSafe(s: Text, i: nat)
    requires i < |EscapeResource(s)|
    ensures var t := EscapeResource(s);
            && t[i] != LF && t[i] != LESS && t[i] != GREATER
            && (t[i] == SINGLE_QUOTE || t[i] == DOUBLE_QUOTE ==> i > 0 && t[i - 1] == BACKSLASH)
            && (t[i] == AMPERSAND ==> LT_ENTITY <= t[i..] || GT_ENTITY <= t[i..] || AMP_ENTITY <= t[i..])
  {
    EscapeResourceIsMap(s);
    EscapeMapIsSafe(RESOURCE_STYLE, s, i);
    hide EscapeMap, Chain;
  }

  // In an escaped Kotlin literal there is no line break, and every double quote and every dollar sign
  // stands behind a backslash.
  lemma KotlinIsSafe(s: Text, i: nat)
    requires i < |EscapeKotlin(s)|
    ensures var t := EscapeKotlin(s);
            && t[i] != LF
            && (t[i] == DOUBLE_QUOTE || t[i] == DOLLAR ==> i > 0 && t[i - 1] == BACKSLASH)
  {
    EscapeKotlinIsMap(s);
    EscapeMapIsSafe(KOTLIN_STYLE, s, i);
    hide EscapeMap, Chain;
  }

  // ---------- Distinct texts are escaped differently ----------

  lemma {:induction false} EscapeMapInjective(style: Style, a: Text, b: Text)
    requires style.lt || style.gt ==> style.amp
    requires EscapeMap(style, a) == EscapeMap(style, b)
    ensures a == b
  {
    if a == [] || b == [] {
      EmptyIsAlone(style, a);
      EmptyIsAlone(style, b);
    } else {
      SameFirstUnit(style, a, b);
      BeginsWithUnit(style, a);
      BeginsWithUnit(style, b);
      EscapeMapInjective(style, a[1..], b[1..]);
      assert a == [a[0]] + a[1..] && b == [b[0]] + b[1..];
    }
  }

  lemma EmptyIsAlone(style: Style, a: Text)
    ensures EscapeMap(style, a) == [] <==> a == []
  {
    if a != [] {
      BeginsWithUnit(style, a);
    }
  }

  // No escape is the beginning of another.
  lemma UnitsArePrefixFree(style: Style, c: CodeUnit, d: CodeUnit)
    requires style.lt || style.gt ==> style.amp
    requires var u, v := EscapeUnit(style, c), EscapeUnit(style, d);
             u[0] == v[0] && (|u| > 1 && |v| > 1 ==> u[1] == v[1])
    ensures c == d
  {
  }

  lemma BeginsWithUnit(style: Style, a: Text)
    requires a != []
    ensures var u, t := EscapeUnit(style, a[0]), EscapeMap(style, a);
            && 1 <= |u| <= |t| && t[0] == u[0] && (|u| > 1 ==> t[1] == u[1])
            && t[|u|..] == EscapeMap(style, a[1..])
  {
    UnitIsNotEmpty(style, a[0]);
    hide EscapeUnit;
  }

  lemma UnitIsNotEmpty(style: Style, c: CodeUnit)
    ensures EscapeUnit(style, c) != []
  {
  }

  lemma SameFirstUnit(style: Style, a: Text, b: Text)
    requires style.lt || style.gt ==> style.amp
    requires a != [] && b != [] && EscapeMap(style, a) == EscapeMap(style, b)
    ensures a[0] == b[0]
  {
    BeginsWithUnit(style, a);
    BeginsWithUnit(style, b);
    hide EscapeUnit, EscapeMap;
    UnitsArePrefixFree(style, a[0], b[0]);
  }

  lemma EscapesAreInjective(a: Text, b: Text)
    ensures EscapeResource(a) == EscapeResource(b) ==> a == b
    ensures EscapeKotlin(a) == EscapeKotlin(b) ==> a == b
  {
    EscapeResourceIsMap(a);
    EscapeResourceIsMap(b);
    EscapeKotlinIsMap(a);
    EscapeKotlinIsMap(b);
    if EscapeResource(a) == EscapeResource(b) {
      EscapeMapInjective(RESOURCE_STYLE, a, b);
    }
    if EscapeKotlin(a) == EscapeKotlin(b) {
      EscapeMapInjective(KOTLIN_STYLE, a, b);
    }
  }
}
