// Cutting the output streams of a child process into lines while it arrives in chunks.
module OutputLines {
  import opened CodeUnits
  import opened Sequences
  import opened Splitting

  // split(/\r?\n/): a line ends at LF or at CR LF.
  function SplitLines(s: Text): (pieces: seq<Text>)
    ensures pieces != []
  {
    if s == [] then [[]]
    else if s[0] == LF then [[]] + SplitLines(s[1..])
    else if s[0] == CR && |s| > 1 && s[1] == LF then [[]] + SplitLines(s[2..])
    else Prepend(s[0], SplitLines(s[1..]))
  }

  function Prepend(c: CodeUnit, pieces: seq<Text>): (r: seq<Text>)
    requires pieces != []
    ensures |r| == |pieces| && r[|r| - 1] == if |r| == 1 then [c] + pieces[0] else pieces[|r| - 1]
  {
    [[c] + pieces[0]] + pieces[1..]
  }

  function Complete(pieces: seq<Text>): seq<Text>
    requires pieces != []
  {
    pieces[..|pieces| - 1]
  }

  function Last(pieces: seq<Text>): Text
    requires pieces != []
  {
    pieces[|pieces| - 1]
  }

  // The independent reading: cut at every LF, and drop one CR at the end of every complete line.
  function WithoutCR(piece: Text): Text {
    if piece != [] && piece[|piece| - 1] == CR then piece[..|piece| - 1] else piece
  }

  function StripAllButLast(pieces: seq<Text>): seq<Text>
    requires pieces != []
  {
    if |pieces| == 1 then pieces else [WithoutCR(pieces[0])] + StripAllButLast(pieces[1..])
  }

  lemma StripPrepend(c: CodeUnit, pieces: seq<Text>)
    requires pieces != []
    requires c != CR || pieces[0] != [] || |pieces| == 1
    ensures StripAllButLast(Prepend(c, pieces)) == Prepend(c, StripAllButLast(pieces))
  {
    if |pieces| > 1 {
      var first, rest := pieces[0], pieces[1..];
      WithoutCRAfter(c, first);
      hide WithoutCR;
      assert Prepend(c, pieces)[1..] == rest;
      assert ([WithoutCR(first)] + StripAllButLast(rest))[1..] == StripAllButLast(rest);
    }
  }

  lemma WithoutCRAfter(c: CodeUnit, piece: Text)
    requires c != CR || piece != []
    ensures WithoutCR([c] + piece) == [c] + WithoutCR(piece)
  {
    if piece != [] {
      assert ([c] + piece)[..|piece|] == [c] + piece[..|piece| - 1];
    }
  }

  lemma StripBreak(piece: Text, pieces: seq<Text>)
    requires pieces != [] && WithoutCR(piece) == []
    ensures StripAllButLast([piece] + pieces) == [[]] + StripAllButLast(pieces)
  {
    assert ([piece] + pieces)[1..] == pieces;
  }

  lemma SplitStartsEmpty(s: Text)
    ensures (Split(s, LF)[0] == [] && |Split(s, LF)| > 1) <==> (s != [] && s[0] == LF)
  {
  }

  lemma {:induction false} SplitLinesMeaning(s: Text)
    ensures SplitLines(s) == StripAllButLast(Split(s, LF))
    decreases |s|
  {
    hide StripAllButLast, WithoutCR;
    if s == [] {
      StripOne([]);
    } else if s[0] == LF {
      SplitLinesMeaning(s[1..]);
      NoCR();
      StripBreak([], Split(s[1..], LF));
    } else if s[0] == CR && |s| > 1 && s[1] == LF {
      SplitLinesMeaning(s[2..]);
      NoCR();
      SplitAtCRLF(s);
      StripBreak([CR], Split(s[2..], LF));
    } else {
      SplitLinesMeaning(s[1..]);
      SplitStartsEmpty(s[1..]);
      StripPrepend(s[0], Split(s[1..], LF));
    }
  }

  lemma SplitAtCRLF(s: Text)
    requires |s| > 1 && s[0] == CR && s[1] == LF
    ensures Split(s, LF) == [[CR]] + Split(s[2..], LF)
  {
    assert s[1..][1..] == s[2..];
    var rest := Split(s[2..], LF);
    assert Split(s[1..], LF) == [[]] + rest;
    var tail := Split(s[1..], LF);
    assert tail[1..] == rest;
    assert Split(s, LF) == [[CR] + tail[0]] + tail[1..];
    assert [CR] + tail[0] == [CR];
  }

  lemma StripOne(piece: Text)
    ensures StripAllButLast([piece]) == [piece]
  {
  }

  lemma NoCR()
    ensures WithoutCR([]) == [] && WithoutCR([CR]) == []
  {
  }

  lemma {:induction false} OnePiece(s: Text)
    ensures |SplitLines(s)| == 1 ==> SplitLines(s)[0] == s
  {
    if s != [] && s[0] != LF {
      OnePiece(s[1..]);
      assert s == [s[0]] + s[1..];
    }
  }

  // How many code units of a line break s begins with.
  function BreakLength(s: Text): nat
    requires s != []
  {
    if s[0] == LF then 1 else if s[0] == CR && |s| > 1 && s[1] == LF then 2 else 0
  }

  lemma SplitStep(s: Text)
    requires s != []
    ensures BreakLength(s) <= |s|
    ensures BreakLength(s) == 0 ==> SplitLines(s) == Prepend(s[0], SplitLines(s[1..]))
    ensures BreakLength(s) > 0 ==> SplitLines(s) == [[]] + SplitLines(s[BreakLength(s)..])
  {
  }

  // After a, splitting goes on from the last, incomplete piece.
  predicate Resumes(a: Text, b: Text) {
    SplitLines(a + b) == Complete(SplitLines(a)) + SplitLines(Last(SplitLines(a)) + b)
  }

  lemma ResumesAtOnce(a: Text, b: Text)
    requires SplitLines(a) == [a]
    ensures Resumes(a, b)
  {
    hide SplitLines;
    assert Complete([a]) == [];
  }

  lemma ResumesAfterBreak(a: Text, b: Text, k: nat)
    requires k <= |a| && SplitLines(a) == [[]] + SplitLines(a[k..])
    requires SplitLines(a + b) == [[]] + SplitLines((a + b)[k..]) && Resumes(a[k..], b)
    ensures Resumes(a, b)
  {
    hide SplitLines;
    assert (a + b)[k..] == a[k..] + b;
    assert Complete([[]] + SplitLines(a[k..])) == [[]] + Complete(SplitLines(a[k..]));
  }

  lemma PrependLaws(c: CodeUnit, pieces: seq<Text>, more: seq<Text>)
    requires |pieces| > 1
    ensures Last(Prepend(c, pieces)) == Last(pieces)
    ensures Prepend(c, Complete(pieces) + more) == Complete(Prepend(c, pieces)) + more
  {
    var front := Complete(pieces);
    assert (front + more)[0] == front[0] && (front + more)[1..] == front[1..] + more;
    assert Complete(Prepend(c, pieces)) == Prepend(c, front);
  }

  lemma ResumesAfterUnit(a: Text, b: Text)
    requires a != [] && SplitLines(a) == Prepend(a[0], SplitLines(a[1..])) && |SplitLines(a)| > 1
    requires SplitLines(a + b) == Prepend(a[0], SplitLines((a + b)[1..])) && Resumes(a[1..], b)
    ensures Resumes(a, b)
  {
    hide SplitLines, Resumes, Prepend;
    assert (a + b)[1..] == a[1..] + b;
    ResumesWith(a, b, a[0], a[1..], SplitLines(a[1..]));
  }

  lemma ResumesWith(a: Text, b: Text, c: CodeUnit, tail: Text, rest: seq<Text>)
    requires |rest| > 1 && SplitLines(tail) == rest && SplitLines(a) == Prepend(c, rest)
    requires SplitLines(a + b) == Prepend(c, SplitLines(tail + b)) && Resumes(tail, b)
    ensures Resumes(a, b)
  {
    PrependLaws(c, rest, SplitLines(Last(rest) + b));
    hide SplitLines, Prepend, Complete, Last;
  }

  lemma SameBreak(a: Text, b: Text)
    requires |a| > 1 || (a != [] && a[0] != CR)
    ensures (a + b)[0] == a[0] && BreakLength(a + b) == BreakLength(a)
  {
  }

  lemma SplitUnit(a: Text)
    requires a == [] || (|a| == 1 && a[0] != LF)
    ensures SplitLines(a) == [a]
  {
    if a != [] {
      assert a[1..] == [] && [a[0]] + [] == a;
      assert SplitLines(a[1..]) == [[]];
    }
  }

  // Splitting can stop anywhere and go on from the last, incomplete piece.
  lemma {:induction false} SplitResumes(a: Text, b: Text)
    ensures SplitLines(a + b) == Complete(SplitLines(a)) + SplitLines(Last(SplitLines(a)) + b)
    decreases |a|, 0
  {
    assert Resumes(a, b) by {
      hide SplitLines, Resumes;
      if a == [] || (|a| == 1 && a[0] == CR) {
        SplitUnit(a);
        ResumesAtOnce(a, b);
      } else {
        SplitStep(a);
        SplitStep(a + b);
        SameBreak(a, b);
        OnePiece(a);
        if BreakLength(a) > 0 {
          ResumesAfter(a[BreakLength(a)..], b);
          ResumesAfterBreak(a, b, BreakLength(a));
        } else if |SplitLines(a)| == 1 {
          ResumesAtOnce(a, b);
        } else {
          ResumesAfter(a[1..], b);
          ResumesAfterUnit(a, b);
        }
      }
    }
  }

  lemma {:induction false} ResumesAfter(a: Text, b: Text)
    ensures Resumes(a, b)
    decreases |a|, 1
  {
    SplitResumes(a, b);
  }

  // One step of the collector.
  function CollectOutputLines(carry: Text, chunk: Text): (r: (Text, seq<Text>)) {
    var parts := SplitLines(carry + chunk);
    (Last(parts), Complete(parts))
  }

  // The carry and all lines after a sequence of chunks.
  function Collected(chunks: seq<Text>): (Text, seq<Text>) {
    if chunks == [] then ([], [])
    else
      var (carry, lines) := Collected(chunks[..|chunks| - 1]);
      var (next, more) := CollectOutputLines(carry, chunks[|chunks| - 1]);
      (next, lines + more)
  }

  // The lines and the carry are the pieces of the whole text, however it was cut into chunks.
  lemma {:induction false} ChunkingDoesNotMatter(chunks: seq<Text>)
    ensures var (carry, lines) := Collected(chunks);
            lines + [carry] == SplitLines(Flatten(chunks))
  {
    hide SplitLines;
    if chunks == [] {
      OnePieceOfNone();
    } else {
      var before, chunk := chunks[..|chunks| - 1], chunks[|chunks| - 1];
      ChunkingDoesNotMatter(before);
      assert chunks == before + [chunk];
      FlattenSnoc(before, chunk);
      SplitResumes(Flatten(before), chunk);
      var (carry, lines) := Collected(before);
      assert Complete(lines + [carry]) == lines;
      var (next, more) := CollectOutputLines(carry, chunk);
      assert more + [next] == SplitLines(carry + chunk);
    }
  }

  lemma OnePieceOfNone()
    ensures SplitLines([]) == [[]]
  {
  }

  datatype Stream = Stdout | Stderr

  function NonEmpty(lines: seq<Text>): seq<Text> {
    if lines == [] then []
    else
      NonEmpty(lines[..|lines| - 1]) + (if lines[|lines| - 1] != [] then [lines[|lines| - 1]] else [])
  }

  lemma {:induction false} NonEmptyMeaning(lines: seq<Text>, line: Text)
    ensures multiset(NonEmpty(lines))[line] == if line == [] then 0 else multiset(lines)[line]
  {
    if lines != [] {
      NonEmptyMeaning(lines[..|lines| - 1], line);
      assert lines == lines[..|lines| - 1] + [lines[|lines| - 1]];
    }
  }

  lemma {:induction false} NonEmptyAppend(a: seq<Text>, b: seq<Text>)
    ensures NonEmpty(a + b) == NonEmpty(a) + NonEmpty(b)
  {
    if b == [] {
      assert a + b == a;
    } else {
      NonEmptyAppend(a, b[..|b| - 1]);
      assert (a + b)[..|a + b| - 1] == a + b[..|b| - 1];
    }
  }

  // The lines of one stream among those of both.
  function LinesOf(delivered: seq<(Stream, Text)>, stream: Stream): seq<Text> {
    if delivered == [] then []
    else
      var d := delivered[|delivered| - 1];
      LinesOf(delivered[..|delivered| - 1], stream) + (if d.0 == stream then [d.1] else [])
  }

  lemma LinesOfSnoc(delivered: seq<(Stream, Text)>, stream: Stream, line: Text, other: Stream)
    ensures LinesOf(delivered + [(stream, line)], other)
         == LinesOf(delivered, other) + (if stream == other then [line] else [])
  {
    assert (delivered + [(stream, line)])[..|delivered|] == delivered;
  }

  // The carry buffers of both streams, and the lines handed on so far in the order of arrival.
  class OutputBuffers {
    var stdout: Text
    var stderr: Text
    var delivered: seq<(Stream, Text)>
    ghost var received: map<Stream, Text>

    ghost predicate Holds(stream: Stream, carry: Text)
      reads this
    {
      && stream in received
      && var pieces := SplitLines(received[stream]);
         carry == Last(pieces) && LinesOf(delivered, stream) == NonEmpty(Complete(pieces))
    }

    ghost predicate Valid()
      reads this
    {
      Holds(Stdout, stdout) && Holds(Stderr, stderr)
    }

    constructor ()
      ensures Valid() && received == map[Stdout := [], Stderr := []] && delivered == []
    {
      stdout, stderr, delivered := [], [], [];
      received := map[Stdout := [], Stderr := []];
    }

    // Empty lines are dropped here.
    method OnLine(stream: Stream, line: Text)
      modifies this`delivered
      ensures forall s ::
                LinesOf(delivered, s) == LinesOf(old(delivered), s) + (if s == stream then NonEmpty([line]) else [])
    {
      hide LinesOf;
      forall s {
        LinesOfSnoc(delivered, stream, line, s);
      }
      if line == [] {
        return;
      }
      delivered := delivered + [(stream, line)];
    }

    method OnChunk(stream: Stream, chunk: Text)
      requires Valid()
      modifies this
      ensures Valid()
      ensures received == old(received)[stream := old(received)[stream] + chunk]
    {
      hide SplitLines, NonEmpty, LinesOf;
      var parsed := CollectOutputLines(if stream == Stdout then stdout else stderr, chunk);
      SplitResumes(received[stream], chunk);
      received := received[stream := received[stream] + chunk];
      if stream == Stdout {
        stdout := parsed.0;
      } else {
        stderr := parsed.0;
      }
      ghost var before := delivered;
      NonEmptyOfNone();
      for i := 0 to |parsed.1|
        modifies this`delivered
        invariant forall s :: LinesOf(delivered, s)
                           == LinesOf(before, s) + (if s == stream then NonEmpty(parsed.1[..i]) else [])
      {
        assert parsed.1[..i + 1] == parsed.1[..i] + [parsed.1[i]];
        NonEmptyAppend(parsed.1[..i], [parsed.1[i]]);
        OnLine(stream, parsed.1[i]);
      }
      assert parsed.1[..|parsed.1|] == parsed.1;
      var pieces := SplitLines(old(received)[stream]);
      NonEmptyAppend(Complete(pieces), parsed.1);
      CompleteAppend(Complete(pieces), SplitLines(Last(pieces) + chunk));
    }

    // A flush does nothing unless it is the final one, which hands on the incomplete lines too.
    method FlushOutputLineBuffers(flushPartial: bool)
      requires Valid()
      modifies this
      ensures received == old(received)
      ensures !flushPartial ==> Valid() && delivered == old(delivered)
      ensures flushPartial ==> stdout == stderr == []
      ensures flushPartial ==> forall s :: s in received && LinesOf(delivered, s) == NonEmpty(SplitLines(received[s]))
    {
      hide SplitLines, LinesOf;
      if !flushPartial {
        return;
      }
      FlushedLines(SplitLines(received[Stdout]));
      FlushedLines(SplitLines(received[Stderr]));
      hide NonEmpty;
      if stdout != [] {
        var line := stdout;
        stdout := [];
        OnLine(Stdout, line);
      }
      if stderr != [] {
        var line := stderr;
        stderr := [];
        OnLine(Stderr, line);
      }
      forall s ensures s in received && LinesOf(delivered, s) == NonEmpty(SplitLines(received[s])) {
        assert s == Stdout || s == Stderr;
      }
    }
  }

  lemma NonEmptyOfNone()
    ensures NonEmpty([]) == []
  {
  }

  lemma CompleteAppend(lines: seq<Text>, pieces: seq<Text>)
    requires pieces != []
    ensures Complete(lines + pieces) == lines + Complete(pieces) && Last(lines + pieces) == Last(pieces)
  {
  }

  lemma FlushedLines(pieces: seq<Text>)
    requires pieces != []
    ensures NonEmpty(pieces) == NonEmpty(Complete(pieces)) + NonEmpty([Last(pieces)])
    ensures NonEmpty([Last(pieces)]) == if Last(pieces) == [] then [] else [Last(pieces)]
  {
    assert pieces == Complete(pieces) + [Last(pieces)];
    NonEmptyAppend(Complete(pieces), [Last(pieces)]);
  }
}
