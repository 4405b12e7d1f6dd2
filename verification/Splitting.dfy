// `s.split(c)` and `pieces.join(c)` for a single separating code unit.
module Splitting {
  import opened CodeUnits

  function Split(s: Text, c: CodeUnit): (pieces: seq<Text>)
    ensures pieces != []
  {
    if s == [] then [[]]
    else
      var rest := Split(s[1..], c);
      if s[0] == c then [[]] + rest else [[s[0]] + rest[0]] + rest[1..]
  }

  function Join(pieces: seq<Text>, c: CodeUnit): Text
    requires pieces != []
  {
    if |pieces| == 1 then pieces[0] else pieces[0] + [c] + Join(pieces[1..], c)
  }

  // No piece holds the separator.
  predicate AllFree(pieces: seq<Text>, c: CodeUnit) {
    forall p | p in pieces :: c !in p
  }

  lemma {:induction false} JoinAfterSplit(s: Text, c: CodeUnit)
    ensures Join(Split(s, c), c) == s
    ensures AllFree(Split(s, c), c)
  {
    if s != [] {
      var rest := Split(s[1..], c);
      JoinAfterSplit(s[1..], c);
      assert s == [s[0]] + s[1..];
      if s[0] == c {
        assert ([[]] + rest)[1..] == rest;
      } else {
        var first := [s[0]] + rest[0];
        assert ([first] + rest[1..])[1..] == rest[1..];
        assert rest[0] in rest;
      }
    }
  }

  lemma {:induction false} SplitFree(p: Text, c: CodeUnit)
    requires c !in p
    ensures Split(p, c) == [p]
  {
    if p != [] {
      SplitFree(p[1..], c);
      assert p == [p[0]] + p[1..];
    }
  }

  lemma {:induction false} SplitCons(p: Text, c: CodeUnit, s: Text)
    requires c !in p
    ensures Split(p + [c] + s, c) == [p] + Split(s, c)
  {
    var t := p + [c] + s;
    if p == [] {
      assert t[1..] == s;
    } else {
      SplitCons(p[1..], c, s);
      assert t[1..] == p[1..] + [c] + s;
      assert p == [p[0]] + p[1..];
    }
  }

  // Splitting is the only way to read a text as pieces that do not hold the separator.
  lemma {:induction false} SplitAfterJoin(pieces: seq<Text>, c: CodeUnit)
    requires pieces != [] && AllFree(pieces, c)
    ensures Split(Join(pieces, c), c) == pieces
  {
    assert pieces[0] in pieces;
    if |pieces| == 1 {
      SplitFree(pieces[0], c);
    } else {
      SplitAfterJoin(pieces[1..], c);
      SplitCons(pieces[0], c, Join(pieces[1..], c));
      assert pieces == [pieces[0]] + pieces[1..];
    }
  }

  // Splitting at a separator that is there gives the pieces of both sides.
  lemma {:induction false} SplitAppend(p: Text, c: CodeUnit, q: Text)
    ensures Split(p + [c] + q, c) == Split(p, c) + Split(q, c)
  {
    var t := p + [c] + q;
    if p == [] {
      assert t[1..] == q;
      assert [[]] + Split(q, c) == Split([], c) + Split(q, c);
    } else {
      SplitAppend(p[1..], c, q);
      assert t[0] == p[0] && t[1..] == p[1..] + [c] + q;
      SplitOfFirst(p, c, Split(q, c));
      SplitOfFirst(t, c, []);
    }
  }

  // The first code unit begins a new piece after a separator, and goes to the first piece otherwise.
  lemma SplitOfFirst(p: Text, c: CodeUnit, more: seq<Text>)
    requires p != []
    ensures var rest := Split(p[1..], c) + more;
            Split(p, c) + more == if p[0] == c then [[]] + rest else [[p[0]] + rest[0]] + rest[1..]
  {
    var rest := Split(p[1..], c);
    assert (rest + more)[0] == rest[0] && (rest + more)[1..] == rest[1..] + more;
  }

  lemma {:induction false} JoinAppend(a: seq<Text>, b: seq<Text>, c: CodeUnit)
    requires a != [] && b != []
    ensures Join(a + b, c) == Join(a, c) + [c] + Join(b, c)
  {
    assert (a + b)[1..] == a[1..] + b;
    if |a| > 1 {
      JoinAppend(a[1..], b, c);
    } else {
      assert a[1..] + b == b;
    }
  }
}
