// The block structure of a Markdown document, read line by line.
module Markdown {
  import opened CodeUnits

  // What a line outside a code block is, apart from a fence or a blank line.
  datatype Kind = Heading(level: nat, text: Text) | Ordered(number: Text, item: Text) | Unordered(item: Text) | Other

  // How lines are trimmed and recognised. The patterns are data; nothing below depends on them.
  datatype Rules = Rules(trim: Text -> Text, kind: Text -> Kind)

  datatype Block =
    | Spacer
    | HeadingBlock(level: nat, text: Text)
    | HeadingRule
    | OrderedItem(number: Text, item: Text)
    | BulletItem(item: Text)
    | Continuation(line: Text)
    | Paragraph(lines: seq<Text>)
    | CodeBlock(code: seq<Text>)

  // What one source line puts into the document.
  datatype Content = Marked(kind: Kind) | Continued(line: Text) | Words(line: Text) | Code(raw: Text)

  predicate IsFence(line: Text) {
    |line| >= 3 && line[0] == line[1] == line[2] == BACKTICK
  }

  predicate IsIndented(raw: Text) {
    |raw| >= 3 && raw[0] == raw[1] == raw[2] == SPACE
  }

  // Fences switch code blocks on and off; blank lines outside them carry nothing.

  function InCodeAfter(rules: Rules, lines: seq<Text>): bool {
    if lines == [] then false
    else
      var last := |lines| - 1;
      InCodeAfter(rules, lines[..last]) != IsFence(rules.trim(lines[last]))
  }

  predicate IsListed(content: seq<Content>) {
    content != [] && (content[0].Continued? || (content[0].Marked? && (content[0].kind.Ordered? || content[0].kind.Unordered?)))
  }

  // At most one content, given what the line before carries. An indented line directly after a list line
  // continues the list.
  function ContentOf(rules: Rules, raw: Text, inCode: bool, before: seq<Content>): seq<Content> {
    var line := rules.trim(raw);
    if IsFence(line) then []
    else if inCode then [Code(raw)]
    else if line == [] then []
    else if !rules.kind(line).Other? then [Marked(rules.kind(line))]
    else if IsListed(before) && IsIndented(raw) then [Continued(line)]
    else [Words(line)]
  }

  function LastContent(rules: Rules, lines: seq<Text>): seq<Content> {
    if lines == [] then []
    else
      var before := lines[..|lines| - 1];
      ContentOf(rules, lines[|lines| - 1], InCodeAfter(rules, before), LastContent(rules, before))
  }

  function Contents(rules: Rules, lines: seq<Text>): seq<Content> {
    if lines == [] then [] else Contents(rules, lines[..|lines| - 1]) + LastContent(rules, lines)
  }

  // Two neighbouring lines share a block exactly when both are prose or both are code.

  predicate Joins(before: seq<Content>, content: seq<Content>) {
    && before != [] && content != []
    && ((before[0].Words? && content[0].Words?) || (before[0].Code? && content[0].Code?))
  }

  predicate BeginsBlock(rules: Rules, lines: seq<Text>) {
    && lines != [] && LastContent(rules, lines) != []
    && !Joins(LastContent(rules, lines[..|lines| - 1]), LastContent(rules, lines))
  }

  function BlocksBegun(rules: Rules, lines: seq<Text>): nat {
    if lines == [] then 0
    else BlocksBegun(rules, lines[..|lines| - 1]) + if BeginsBlock(rules, lines) then 1 else 0
  }

  // What the blocks hold.

  function WordsOf(lines: seq<Text>): seq<Content> {
    seq(|lines|, i requires 0 <= i < |lines| => Words(lines[i]))
  }

  function CodeOf(lines: seq<Text>): seq<Content> {
    seq(|lines|, i requires 0 <= i < |lines| => Code(lines[i]))
  }

  function Held(block: Block): seq<Content> {
    match block
    case Spacer => []
    case HeadingBlock(level, text) => [Marked(Heading(level, text))]
    case HeadingRule => []
    case OrderedItem(number, item) => [Marked(Ordered(number, item))]
    case BulletItem(item) => [Marked(Unordered(item))]
    case Continuation(line) => [Continued(line)]
    case Paragraph(lines) => WordsOf(lines)
    case CodeBlock(code) => CodeOf(code)
  }

  function AllHeld(body: seq<Block>): seq<Content> {
    if body == [] then [] else AllHeld(body[..|body| - 1]) + Held(body[|body| - 1])
  }

  lemma HeldSnoc(body: seq<Block>, block: Block)
    ensures AllHeld(body + [block]) == AllHeld(body) + Held(block)
  {
    assert (body + [block])[..|body|] == body;
  }

  // A block continues a list item exactly when it follows an item or another continuation.
  predicate InList(body: seq<Block>) {
    body != [] && (body[|body| - 1].OrderedItem? || body[|body| - 1].BulletItem? || body[|body| - 1].Continuation?)
  }

  ghost predicate ContinuesItems(body: seq<Block>) {
    forall i | 0 <= i < |body| && body[i].Continuation? :: InList(body[..i])
  }

  lemma ContinuesSnoc(body: seq<Block>, block: Block)
    requires ContinuesItems(body) && (block.Continuation? ==> InList(body))
    ensures ContinuesItems(body + [block])
  {
    hide InList;
    assert (body + [block])[..|body|] == body;
    assert forall i | 0 <= i < |body| :: (body + [block])[..i] == body[..i];
  }

  ghost predicate NothingEmpty(body: seq<Block>) {
    forall b | b in body :: (b.Paragraph? ==> b.lines != []) && (b.CodeBlock? ==> b.code != [])
  }

  // The document laid out line by line, with no line held back: each line is put into a block of its own
  // or joins the block of the line directly before it.

  // What the line before was, as far as it matters to the next one.
  datatype Role = Quiet | ListLine | ProseLine | CodeLine

  function RoleOf(content: seq<Content>): Role {
    if content == [] then Quiet
    else if content[0].Words? then ProseLine
    else if content[0].Code? then CodeLine
    else if IsListed(content) then ListLine
    else Quiet
  }

  datatype Layout = Layout(body: seq<Block>, role: Role, inCode: bool)

  function WithProse(st: Layout, line: Text): seq<Block> {
    var last := |st.body| - 1;
    if st.role == ProseLine && last >= 0 && st.body[last].Paragraph?
    then st.body[..last] + [Paragraph(st.body[last].lines + [line])]
    else st.body + [Paragraph([line])]
  }

  function WithCode(st: Layout, raw: Text): seq<Block> {
    var last := |st.body| - 1;
    if st.role == CodeLine && last >= 0 && st.body[last].CodeBlock?
    then st.body[..last] + [CodeBlock(st.body[last].code + [raw])]
    else st.body + [CodeBlock([raw])]
  }

  function HeadingBlocks(level: nat, text: Text): seq<Block> {
    (if level == 2 then [Spacer, Spacer] else []) + [HeadingBlock(level, text)]
    + (if level <= 2 then [HeadingRule] else [])
  }

  function LayLine(rules: Rules, st: Layout, raw: Text): Layout {
    var line := rules.trim(raw);
    if IsFence(line) then Layout(st.body, Quiet, !st.inCode)
    else if st.inCode then Layout(WithCode(st, raw), CodeLine, true)
    else if line == [] then Layout(st.body, Quiet, false)
    else
      match rules.kind(line)
      case Heading(level, text) => Layout(st.body + HeadingBlocks(level, text), Quiet, false)
      case Ordered(number, item) => Layout(st.body + [OrderedItem(number, item)], ListLine, false)
      case Unordered(item) => Layout(st.body + [BulletItem(item)], ListLine, false)
      case Other =>
        if st.role == ListLine && IsIndented(raw) then Layout(st.body + [Continuation(line)], ListLine, false)
        else Layout(WithProse(st, line), ProseLine, false)
  }

  function Lay(rules: Rules, lines: seq<Text>): Layout {
    if lines == [] then Layout([], Quiet, false)
    else LayLine(rules, Lay(rules, lines[..|lines| - 1]), lines[|lines| - 1])
  }

  ghost predicate IsSound(st: Layout) {
    && ContinuesItems(st.body) && NothingEmpty(st.body)
    && (st.role == ListLine ==> InList(st.body))
    && (st.role == ProseLine ==> st.body != [] && st.body[|st.body| - 1].Paragraph?)
    && (st.role == CodeLine ==> st.body != [] && st.body[|st.body| - 1].CodeBlock?)
  }

  lemma SoundSnoc(body: seq<Block>, block: Block)
    requires ContinuesItems(body) && NothingEmpty(body)
    requires block.Continuation? ==> InList(body)
    requires (block.Paragraph? ==> block.lines != []) && (block.CodeBlock? ==> block.code != [])
    ensures ContinuesItems(body + [block]) && NothingEmpty(body + [block])
    ensures AllHeld(body + [block]) == AllHeld(body) + Held(block)
  {
    hide InList, ContinuesItems, AllHeld, Held;
    ContinuesSnoc(body, block);
    HeldSnoc(body, block);
  }

  lemma SoundInit(body: seq<Block>)
    requires body != [] && ContinuesItems(body) && NothingEmpty(body)
    ensures var init := body[..|body| - 1];
            ContinuesItems(init) && NothingEmpty(init) && AllHeld(body) == AllHeld(init) + Held(body[|body| - 1])
  {
    hide InList, Held;
    var init := body[..|body| - 1];
    assert forall i | 0 <= i < |init| :: init[..i] == body[..i];
  }

  lemma ProseHolds(st: Layout, line: Text)
    requires IsSound(st)
    ensures IsSound(Layout(WithProse(st, line), ProseLine, false))
    ensures AllHeld(WithProse(st, line)) == AllHeld(st.body) + [Words(line)]
  {
    hide InList, ContinuesItems, AllHeld, NothingEmpty;
    assert WordsOf([line]) == [Words(line)];
    if st.role == ProseLine {
      var last := |st.body| - 1;
      SoundInit(st.body);
      var lines := st.body[last].lines;
      SoundSnoc(st.body[..last], Paragraph(lines + [line]));
      assert WordsOf(lines + [line]) == WordsOf(lines) + [Words(line)];
    } else {
      SoundSnoc(st.body, Paragraph([line]));
    }
  }

  lemma CodeHolds(st: Layout, raw: Text)
    requires IsSound(st)
    ensures IsSound(Layout(WithCode(st, raw), CodeLine, true))
    ensures AllHeld(WithCode(st, raw)) == AllHeld(st.body) + [Code(raw)]
  {
    hide InList, ContinuesItems, AllHeld, NothingEmpty;
    assert CodeOf([raw]) == [Code(raw)];
    if st.role == CodeLine {
      var last := |st.body| - 1;
      SoundInit(st.body);
      var code := st.body[last].code;
      SoundSnoc(st.body[..last], CodeBlock(code + [raw]));
      assert CodeOf(code + [raw]) == CodeOf(code) + [Code(raw)];
    } else {
      SoundSnoc(st.body, CodeBlock([raw]));
    }
  }

  lemma HeadingHolds(body: seq<Block>, level: nat, text: Text)
    requires ContinuesItems(body) && NothingEmpty(body)
    ensures var now := body + HeadingBlocks(level, text);
            && ContinuesItems(now) && NothingEmpty(now)
            && AllHeld(now) == AllHeld(body) + [Marked(Heading(level, text))]
  {
    hide InList, ContinuesItems, AllHeld, NothingEmpty;
    var now := body;
    if level == 2 {
      SoundSnoc(now, Spacer);
      now := now + [Spacer];
      SoundSnoc(now, Spacer);
      now := now + [Spacer];
    }
    SoundSnoc(now, HeadingBlock(level, text));
    now := now + [HeadingBlock(level, text)];
    if level <= 2 {
      SoundSnoc(now, HeadingRule);
      now := now + [HeadingRule];
    }
    assert now == body + HeadingBlocks(level, text);
  }

  lemma LineHolds(rules: Rules, st: Layout, raw: Text, before: seq<Content>)
    requires IsSound(st) && st.role == RoleOf(before)
    ensures IsSound(LayLine(rules, st, raw))
    ensures AllHeld(LayLine(rules, st, raw).body) == AllHeld(st.body) + ContentOf(rules, raw, st.inCode, before)
  {
    hide ContinuesItems, AllHeld, NothingEmpty, WithProse, WithCode, HeadingBlocks, IsFence, IsIndented;
    var line := rules.trim(raw);
    if !IsFence(line) {
      if st.inCode {
        CodeHolds(st, raw);
      } else if line != [] {
        match rules.kind(line)
        case Heading(level, text) => HeadingHolds(st.body, level, text);
        case Ordered(number, item) => SoundSnoc(st.body, OrderedItem(number, item));
        case Unordered(item) => SoundSnoc(st.body, BulletItem(item));
        case Other =>
          ProseHolds(st, line);
          if st.role == ListLine {
            SoundSnoc(st.body, Continuation(line));
          }
      }
    }
  }

  // The blocks hold exactly what the lines carry, in the order of the lines; no paragraph or code block is
  // empty, and a list continuation always follows an item or another continuation.
  lemma {:induction false} LayoutLosesNothing(rules: Rules, lines: seq<Text>)
    ensures var st := Lay(rules, lines);
            && IsSound(st) && st.inCode == InCodeAfter(rules, lines) && st.role == RoleOf(LastContent(rules, lines))
            && AllHeld(st.body) == Contents(rules, lines)
  {
    hide LayLine, IsSound, ContentOf, IsFence, AllHeld, RoleOf;
    if lines == [] {
      NothingLaid();
    } else {
      var last := |lines| - 1;
      LayoutLosesNothing(rules, lines[..last]);
      var st := Lay(rules, lines[..last]);
      LineHolds(rules, st, lines[last], LastContent(rules, lines[..last]));
      NextRole(rules, st, lines[last], LastContent(rules, lines[..last]));
      FenceToggles(rules, st, lines[last]);
    }
  }

  lemma NothingLaid()
    ensures IsSound(Layout([], Quiet, false)) && AllHeld([]) == [] && RoleOf([]) == Quiet
  {
  }

  lemma FenceToggles(rules: Rules, st: Layout, raw: Text)
    ensures LayLine(rules, st, raw).inCode == (st.inCode != IsFence(rules.trim(raw)))
  {
  }

  lemma NextRole(rules: Rules, st: Layout, raw: Text, before: seq<Content>)
    requires st.role == RoleOf(before)
    ensures LayLine(rules, st, raw).role == RoleOf(ContentOf(rules, raw, st.inCode, before))
  {
    hide WithProse, WithCode, HeadingBlocks, IsFence, IsIndented;
  }

  // ---------- Where blocks begin ----------

  predicate IsDecoration(block: Block) {
    block.Spacer? || block.HeadingRule?
  }

  // The blocks other than the spacers and rules around headings.
  function Core(body: seq<Block>): seq<Block> {
    if body == [] then []
    else
      var last := |body| - 1;
      Core(body[..last]) + if IsDecoration(body[last]) then [] else [body[last]]
  }

  lemma CoreSnoc(body: seq<Block>, block: Block)
    ensures Core(body + [block]) == Core(body) + if IsDecoration(block) then [] else [block]
  {
    assert (body + [block])[..|body|] == body;
  }

  lemma {:induction false} CoreHolds(body: seq<Block>)
    ensures AllHeld(Core(body)) == AllHeld(body)
  {
    hide Held;
    if body != [] {
      var init, block := body[..|body| - 1], body[|body| - 1];
      CoreHolds(init);
      DecorationHoldsNothing(block);
      HeldSnoc(Core(init), block);
      assert IsDecoration(block) ==> Core(init) + [] == Core(init);
    }
  }

  lemma DecorationHoldsNothing(block: Block)
    ensures IsDecoration(block) ==> Held(block) == []
  {
  }

  lemma HeadingCore(body: seq<Block>, level: nat, text: Text)
    ensures Core(body + HeadingBlocks(level, text)) == Core(body) + [HeadingBlock(level, text)]
  {
    hide Core;
    var now := body;
    if level == 2 {
      CoreSnoc(now, Spacer);
      now := now + [Spacer];
      CoreSnoc(now, Spacer);
      now := now + [Spacer];
    }
    CoreSnoc(now, HeadingBlock(level, text));
    now := now + [HeadingBlock(level, text)];
    if level <= 2 {
      CoreSnoc(now, HeadingRule);
      now := now + [HeadingRule];
    }
    assert now == body + HeadingBlocks(level, text);
  }

  // What one line does to the blocks: nothing, a longer last block, or a new last block.
  predicate IsNextCore(core: seq<Block>, next: seq<Block>, before: seq<Content>, content: seq<Content>) {
    if content == [] then next == core
    else if Joins(before, content) then |next| == |core| > 0 && next[..|core| - 1] == core[..|core| - 1]
    else |next| == |core| + 1 && next[..|core|] == core
  }

  lemma LastReplaced(body: seq<Block>, block: Block)
    requires body != [] && !IsDecoration(body[|body| - 1]) && !IsDecoration(block)
    ensures var core, next := Core(body), Core(body[..|body| - 1] + [block]);
            |next| == |core| > 0 && next[..|core| - 1] == core[..|core| - 1]
  {
    CoreSnoc(body[..|body| - 1], block);
  }

  lemma ProseCore(st: Layout, line: Text, before: seq<Content>)
    requires IsSound(st) && st.role == RoleOf(before)
    ensures IsNextCore(Core(st.body), Core(WithProse(st, line)), before, [Words(line)])
  {
    hide Core, ContinuesItems, NothingEmpty, InList;
    if st.role == ProseLine {
      LastReplaced(st.body, Paragraph(st.body[|st.body| - 1].lines + [line]));
    } else {
      CoreSnoc(st.body, Paragraph([line]));
    }
  }

  lemma CodeCore(st: Layout, raw: Text, before: seq<Content>)
    requires IsSound(st) && st.role == RoleOf(before)
    ensures IsNextCore(Core(st.body), Core(WithCode(st, raw)), before, [Code(raw)])
  {
    hide Core, ContinuesItems, NothingEmpty, InList;
    if st.role == CodeLine {
      LastReplaced(st.body, CodeBlock(st.body[|st.body| - 1].code + [raw]));
    } else {
      CoreSnoc(st.body, CodeBlock([raw]));
    }
  }

  lemma NextCore(rules: Rules, st: Layout, raw: Text, before: seq<Content>)
    requires IsSound(st) && st.role == RoleOf(before)
    ensures IsNextCore(Core(st.body), Core(LayLine(rules, st, raw).body), before, ContentOf(rules, raw, st.inCode, before))
  {
    hide IsSound, Core, WithProse, WithCode, HeadingBlocks, IsFence, IsIndented;
    var line := rules.trim(raw);
    if !IsFence(line) {
      if st.inCode {
        CodeCore(st, raw, before);
      } else if line != [] {
        match rules.kind(line)
        case Heading(level, text) => HeadingCore(st.body, level, text);
        case Ordered(number, item) => CoreSnoc(st.body, OrderedItem(number, item));
        case Unordered(item) => CoreSnoc(st.body, BulletItem(item));
        case Other =>
          ProseCore(st, line, before);
          CoreSnoc(st.body, Continuation(line));
      }
    }
  }

  // The blocks are cut exactly at the lines that begin one: there are as many as such lines, and those
  // before each of them hold what the lines before it carry.
  ghost predicate IsCutAtBeginnings(rules: Rules, lines: seq<Text>, core: seq<Block>) {
    && |core| == BlocksBegun(rules, lines)
    && forall i | 0 <= i < |lines| && BeginsBlock(rules, lines[..i + 1]) ::
         var n := BlocksBegun(rules, lines[..i]);
         n < |core| && AllHeld(core[..n]) == Contents(rules, lines[..i])
  }

  lemma NextCuts(rules: Rules, lines: seq<Text>, core: seq<Block>, next: seq<Block>)
    requires lines != []
    requires var before := lines[..|lines| - 1];
             && IsCutAtBeginnings(rules, before, core) && AllHeld(core) == Contents(rules, before)
             && IsNextCore(core, next, LastContent(rules, before), LastContent(rules, lines))
    ensures IsCutAtBeginnings(rules, lines, next)
  {
    hide AllHeld, Contents, LastContent, Joins;
    var last := |lines| - 1;
    var before := lines[..last];
    forall i | 0 <= i < |lines| && BeginsBlock(rules, lines[..i + 1])
      ensures var n := BlocksBegun(rules, lines[..i]);
              n < |next| && AllHeld(next[..n]) == Contents(rules, lines[..i])
    {
      var n := BlocksBegun(rules, lines[..i]);
      if i < last {
        assert before[..i + 1] == lines[..i + 1] && before[..i] == lines[..i];
        assert next[..n] == core[..n];
      } else {
        assert lines[..i + 1] == lines;
        assert next[..n] == core;
      }
    }
  }

  lemma {:induction false} BlocksBeginExactly(rules: Rules, lines: seq<Text>)
    ensures IsCutAtBeginnings(rules, lines, Core(Lay(rules, lines).body))
    ensures AllHeld(Core(Lay(rules, lines).body)) == Contents(rules, lines)
  {
    hide LayLine, IsSound, IsCutAtBeginnings, ContentOf, AllHeld, Core, IsNextCore, InCodeAfter, RoleOf;
    LayoutLosesNothing(rules, lines);
    CoreHolds(Lay(rules, lines).body);
    if lines == [] {
      NothingCut(rules);
    } else {
      var last := |lines| - 1;
      var before := lines[..last];
      BlocksBeginExactly(rules, before);
      LayoutLosesNothing(rules, before);
      NextCore(rules, Lay(rules, before), lines[last], LastContent(rules, before));
      NextCuts(rules, lines, Core(Lay(rules, before).body), Core(Lay(rules, lines).body));
    }
  }

  lemma NothingCut(rules: Rules)
    ensures IsCutAtBeginnings(rules, [], Core([]))
  {
  }

  // ---------- The decoration of headings ----------

  predicate IsSpacer(body: seq<Block>, i: int) {
    0 <= i < |body| && body[i].Spacer?
  }

  predicate IsRule(body: seq<Block>, i: int) {
    0 <= i < |body| && body[i].HeadingRule?
  }

  predicate IsHeadingUpTo(body: seq<Block>, i: int, level: nat) {
    0 <= i < |body| && body[i].HeadingBlock? && body[i].level <= level
  }

  predicate IsSection(body: seq<Block>, i: int) {
    0 <= i < |body| && body[i].HeadingBlock? && body[i].level == 2
  }

  // Two spacers stand before every heading of level 2, a rule after every heading of level at most 2,
  // and neither anywhere else.

  predicate IsDecoratedAt(body: seq<Block>, i: int) {
    && (IsSection(body, i) ==> IsSpacer(body, i - 1) && IsSpacer(body, i - 2))
    && (IsSpacer(body, i) ==> IsSection(body, i + 1) || IsSection(body, i + 2))
    && (IsRule(body, i) <==> IsHeadingUpTo(body, i - 1, 2))
  }

  ghost predicate IsDecorated(body: seq<Block>) {
    forall i | 0 <= i <= |body| :: IsDecoratedAt(body, i)
  }

  lemma PlainDecorated(body: seq<Block>, block: Block)
    requires IsDecorated(body) && !IsDecoration(block) && !block.HeadingBlock?
    ensures IsDecorated(body + [block])
  {
    var now := body + [block];
    forall i | 0 <= i <= |now| ensures IsDecoratedAt(now, i) {
      if i <= |body| {
        assert IsDecoratedAt(body, i);
      }
    }
  }

  lemma HeadingDecorated(body: seq<Block>, level: nat, text: Text)
    requires IsDecorated(body)
    ensures IsDecorated(body + HeadingBlocks(level, text))
  {
    var now := body + HeadingBlocks(level, text);
    forall i | 0 <= i <= |now| ensures IsDecoratedAt(now, i) {
      if i <= |body| {
        assert IsDecoratedAt(body, i);
      }
    }
  }

  lemma LastRedecorated(body: seq<Block>, block: Block)
    requires IsDecorated(body) && body != []
    requires !IsDecoration(body[|body| - 1]) && !body[|body| - 1].HeadingBlock?
    requires !IsDecoration(block) && !block.HeadingBlock?
    ensures IsDecorated(body[..|body| - 1] + [block])
  {
    var now := body[..|body| - 1] + [block];
    forall i | 0 <= i <= |now| ensures IsDecoratedAt(now, i) {
      assert IsDecoratedAt(body, i);
    }
  }

  lemma NextDecorated(rules: Rules, st: Layout, raw: Text)
    requires IsDecorated(st.body)
    ensures IsDecorated(LayLine(rules, st, raw).body)
  {
    hide IsDecorated, HeadingBlocks, IsFence, IsIndented;
    var line := rules.trim(raw);
    var last := |st.body| - 1;
    if !IsFence(line) {
      if st.inCode {
        if st.role == CodeLine && last >= 0 && st.body[last].CodeBlock? {
          LastRedecorated(st.body, CodeBlock(st.body[last].code + [raw]));
        } else {
          PlainDecorated(st.body, CodeBlock([raw]));
        }
      } else if line != [] {
        match rules.kind(line)
        case Heading(level, text) => HeadingDecorated(st.body, level, text);
        case Ordered(number, item) => PlainDecorated(st.body, OrderedItem(number, item));
        case Unordered(item) => PlainDecorated(st.body, BulletItem(item));
        case Other =>
          PlainDecorated(st.body, Continuation(line));
          PlainDecorated(st.body, Paragraph([line]));
          if st.role == ProseLine && last >= 0 && st.body[last].Paragraph? {
            LastRedecorated(st.body, Paragraph(st.body[last].lines + [line]));
          }
      }
    }
  }

  lemma {:induction false} HeadingsAreDecorated(rules: Rules, lines: seq<Text>)
    ensures IsDecorated(Lay(rules, lines).body)
  {
    hide LayLine;
    if lines != [] {
      hide IsDecorated;
      HeadingsAreDecorated(rules, lines[..|lines| - 1]);
      NextDecorated(rules, Lay(rules, lines[..|lines| - 1]), lines[|lines| - 1]);
    }
  }

  // The converter holds paragraph and code lines back until their block is finished.
  class Converter {
    var body: seq<Block>
    var paragraph: seq<Text>
    var inCodeBlock: bool
    var codeLines: seq<Text>
    var previousListItem: bool

    // An open list item or code block leaves no pending paragraph, so that nothing is put in front of
    // lines that came before it.
    ghost predicate Valid()
      reads this
    {
      && (previousListItem ==> paragraph == [] && !inCodeBlock)
      && (inCodeBlock ==> paragraph == [])
      && (!inCodeBlock ==> codeLines == [])
    }

    function Pending(): seq<Block>
      reads this
    {
      if paragraph != [] then [Paragraph(paragraph)] else if codeLines != [] then [CodeBlock(codeLines)] else []
    }

    function Laid(): Layout
      reads this
    {
      var role := if previousListItem then ListLine
                  else if paragraph != [] then ProseLine
                  else if codeLines != [] then CodeLine
                  else Quiet;
      Layout(body + Pending(), role, inCodeBlock)
    }

    constructor ()
      ensures Valid() && Laid() == Layout([], Quiet, false)
    {
      body, paragraph, codeLines := [], [], [];
      inCodeBlock, previousListItem := false, false;
    }

    method FlushParagraph()
      requires Valid() && codeLines == []
      modifies this
      ensures Valid() && paragraph == [] && codeLines == [] && inCodeBlock == old(inCodeBlock)
      ensures body == old(body + Pending())
      ensures previousListItem ==> old(previousListItem)
    {
      if paragraph == [] {
        return;
      }
      body := body + [Paragraph(paragraph)];
      paragraph := [];
      previousListItem := false;
    }

    method FlushCodeBlock()
      requires Valid() && inCodeBlock
      modifies this
      ensures Valid() && inCodeBlock && codeLines == [] && paragraph == [] && !previousListItem
      ensures body == old(body + Pending())
    {
      if codeLines == [] {
        return;
      }
      body := body + [CodeBlock(codeLines)];
      codeLines := [];
      previousListItem := false;
    }

    method AddCode(rawLine: Text)
      requires Valid() && inCodeBlock
      modifies this`codeLines
      ensures Valid() && Laid() == Layout(WithCode(old(Laid()), rawLine), CodeLine, true)
    {
      ghost var before := Laid();
      if codeLines == [] {
        assert before.role == Quiet && before.body == body;
      } else {
        assert before.role == CodeLine && before.body == body + [CodeBlock(codeLines)];
        assert before.body[..|body|] == body;
      }
      assert codeLines == [] ==> codeLines + [rawLine] == [rawLine];
      codeLines := codeLines + [rawLine];
      assert Laid().body == body + [CodeBlock(codeLines)];
    }

    method AddProse(line: Text)
      requires Valid() && !inCodeBlock
      modifies this`paragraph, this`previousListItem
      ensures Valid() && Laid() == Layout(WithProse(old(Laid()), line), ProseLine, false)
    {
      ghost var before := Laid();
      if paragraph == [] {
        assert before.role != ProseLine && before.body == body;
        assert paragraph + [line] == [line];
      } else {
        assert before.role == ProseLine && before.body == body + [Paragraph(paragraph)];
        assert before.body[..|body|] == body;
      }
      paragraph := paragraph + [line];
      previousListItem := false;
      assert Laid().body == body + [Paragraph(paragraph)];
    }

    method AddHeading(level: nat, text: Text)
      modifies this`body
      ensures body == old(body) + HeadingBlocks(level, text)
    {
      if level == 2 {
        body := body + [Spacer];
        body := body + [Spacer];
      }
      body := body + [HeadingBlock(level, text)];
      if level <= 2 {
        body := body + [HeadingRule];
      }
    }

    method AddLine(rules: Rules, rawLine: Text)
      requires Valid()
      modifies this
      ensures Valid() && Laid() == LayLine(rules, old(Laid()), rawLine)
    {
      hide IsFence, IsIndented, WithProse, WithCode, HeadingBlocks;
      var line := rules.trim(rawLine);
      if IsFence(line) {
        if inCodeBlock {
          FlushCodeBlock();
          inCodeBlock := false;
        } else {
          FlushParagraph();
          inCodeBlock := true;
          previousListItem := false;
        }
        return;
      }
      if inCodeBlock {
        AddCode(rawLine);
        return;
      }
      if line == [] {
        FlushParagraph();
        previousListItem := false;
        return;
      }
      match rules.kind(line)
      case Heading(level, text) =>
        FlushParagraph();
        AddHeading(level, text);
        previousListItem := false;
      case Ordered(number, item) =>
        FlushParagraph();
        body := body + [OrderedItem(number, item)];
        previousListItem := true;
      case Unordered(item) =>
        FlushParagraph();
        body := body + [BulletItem(item)];
        previousListItem := true;
      case Other =>
        if previousListItem && IsIndented(rawLine) {
          body := body + [Continuation(line)];
        } else {
          AddProse(line);
        }
    }

    // A code block that is not closed ends with the document.
    method Finish()
      requires Valid()
      modifies this
      ensures body == old(Laid()).body
    {
      if inCodeBlock {
        FlushCodeBlock();
      }
      FlushParagraph();
    }
  }

  method MarkdownToBlocks(rules: Rules, lines: seq<Text>) returns (body: seq<Block>)
    ensures body == Lay(rules, lines).body
    ensures AllHeld(body) == Contents(rules, lines)
  {
    hide LayLine, AllHeld;
    var c := new Converter();
    for i := 0 to |lines|
      invariant c.Valid() && fresh(c)
      invariant c.Laid() == Lay(rules, lines[..i])
    {
      assert lines[..i + 1][..i] == lines[..i];
      c.AddLine(rules, lines[i]);
    }
    assert lines[..|lines|] == lines;
    c.Finish();
    body := c.body;
    LayoutLosesNothing(rules, lines);
  }
}
