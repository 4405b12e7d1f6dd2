// Pairing the tokens of two lists by occurrence: the k-th `t` of one list with the k-th `t` of the other.
module Occurrences {
  import opened CodeUnits

  // The positions of t in the list, counted from one, in increasing order.
  function Positions(tokens: seq<Text>, t: Text): seq<nat> {
    if tokens == [] then []
    else
      Positions(tokens[..|tokens| - 1], t) + (if tokens[|tokens| - 1] == t then [|tokens|] else [])
  }

  function Count(tokens: seq<Text>, t: Text): nat {
    |Positions(tokens, t)|
  }

  // How often each token of the list occurs.
  function Counts(tokens: seq<Text>): map<Text, nat> {
    map t | t in tokens :: Count(tokens, t)
  }

  lemma {:induction false} PositionsAt(tokens: seq<Text>, t: Text, j: nat)
    requires j < Count(tokens, t)
    ensures var p := Positions(tokens, t)[j];
            1 <= p <= |tokens| && tokens[p - 1] == t && Count(tokens[..p - 1], t) == j
  {
    var last := |tokens| - 1;
    if j < Count(tokens[..last], t) {
      PositionsAt(tokens[..last], t, j);
      var p := Positions(tokens, t)[j];
      assert tokens[..last][..p - 1] == tokens[..p - 1];
    }
  }

  lemma {:induction false} PositionsOf(tokens: seq<Text>, p: nat)
    requires p < |tokens|
    ensures var o := Count(tokens[..p], tokens[p]);
            o < Count(tokens, tokens[p]) && Positions(tokens, tokens[p])[o] == p + 1
  {
    var last := |tokens| - 1;
    if p < last {
      PositionsOf(tokens[..last], p);
      assert tokens[..last][..p] == tokens[..p];
    }
  }

  lemma {:induction false} CountGrows(tokens: seq<Text>, t: Text, i: nat, j: nat)
    requires i <= j <= |tokens|
    ensures Count(tokens[..i], t) <= Count(tokens[..j], t)
    ensures i < j && tokens[i] == t ==> Count(tokens[..i], t) < Count(tokens[..j], t)
    decreases j
  {
    if i < j {
      assert tokens[..j][..j - 1] == tokens[..j - 1];
      CountGrows(tokens, t, i, j - 1);
    }
  }

  lemma {:induction false} PositiveCount(tokens: seq<Text>, t: Text)
    ensures t in tokens <==> Count(tokens, t) > 0
  {
    if t in tokens {
      var p :| 0 <= p < |tokens| && tokens[p] == t;
      PositionsOf(tokens, p);
    }
    if Count(tokens, t) > 0 {
      PositionsAt(tokens, t, 0);
    }
  }

  lemma {:induction false} CountIsMultiplicity(values: seq<Text>, v: Text)
    ensures Count(values, v) == multiset(values)[v]
  {
    if values != [] {
      var last := |values| - 1;
      assert values == values[..last] + [values[last]];
      CountIsMultiplicity(values[..last], v);
    }
  }

  // The tables agree exactly when one list is a rearrangement of the other.
  lemma CountsAgree(a: seq<Text>, b: seq<Text>)
    ensures Counts(a) == Counts(b) <==> multiset(a) == multiset(b)
  {
    if Counts(a) == Counts(b) {
      forall t ensures multiset(a)[t] == multiset(b)[t] {
        SameCounts(a, b, t);
        CountIsMultiplicity(a, t);
        CountIsMultiplicity(b, t);
      }
    }
    if multiset(a) == multiset(b) {
      forall t ensures (t in a <==> t in b) && Count(a, t) == Count(b, t) {
        CountIsMultiplicity(a, t);
        CountIsMultiplicity(b, t);
        assert t in a <==> t in multiset(a);
        assert t in b <==> t in multiset(b);
      }
    }
    hide Count;
  }

  // The position in `source` of the occurrence that matches the k-th token of `target`.
  function MatchOf(source: seq<Text>, target: seq<Text>, k: nat): nat
    requires k < |target| && Counts(source) == Counts(target)
  {
    MatchIsThere(source, target, k);
    Positions(source, target[k])[Count(target[..k], target[k])]
  }

  lemma SameCounts(source: seq<Text>, target: seq<Text>, t: Text)
    requires Counts(source) == Counts(target)
    ensures Count(source, t) == Count(target, t)
  {
    PositiveCount(source, t);
    PositiveCount(target, t);
    assert t in Counts(source) <==> t in Counts(target);
    if t in source {
      assert Counts(source)[t] == Counts(target)[t];
    }
  }

  lemma MatchIsThere(source: seq<Text>, target: seq<Text>, k: nat)
    requires k < |target| && Counts(source) == Counts(target)
    ensures Count(target[..k], target[k]) < Count(source, target[k])
  {
    PositionsOf(target, k);
    SameCounts(source, target, target[k]);
  }

  function Matching(source: seq<Text>, target: seq<Text>): (m: seq<nat>)
    requires Counts(source) == Counts(target)
    ensures |m| == |target|
  {
    seq(|target|, k requires 0 <= k < |target| => MatchOf(source, target, k))
  }

  // m sends every token of `target` to an equal token of `source`, uses every position of `source`
  // exactly once and keeps the order of equal tokens. Positions count from one.
  ghost predicate IsMatching(source: seq<Text>, target: seq<Text>, m: seq<nat>) {
    && |m| == |target|
    && (forall k | 0 <= k < |m| :: 1 <= m[k] <= |source| && source[m[k] - 1] == target[k])
    && (forall j, k | 0 <= j < k < |m| :: m[j] != m[k])
    && (forall j, k | 0 <= j < k < |m| && target[j] == target[k] :: m[j] < m[k])
    && (forall p | 1 <= p <= |source| :: p in m)
  }

  lemma MatchIsToken(source: seq<Text>, target: seq<Text>, k: nat)
    requires k < |target| && Counts(source) == Counts(target)
    ensures 1 <= MatchOf(source, target, k) <= |source|
    ensures source[MatchOf(source, target, k) - 1] == target[k]
    ensures Count(source[..MatchOf(source, target, k) - 1], target[k]) == Count(target[..k], target[k])
  {
    MatchIsThere(source, target, k);
    PositionsAt(source, target[k], Count(target[..k], target[k]));
  }

  lemma MatchKeepsOrder(source: seq<Text>, target: seq<Text>, j: nat, k: nat)
    requires j < k < |target| && Counts(source) == Counts(target) && target[j] == target[k]
    ensures MatchOf(source, target, j) < MatchOf(source, target, k)
  {
    MatchIsToken(source, target, j);
    MatchIsToken(source, target, k);
    var p, q := MatchOf(source, target, j), MatchOf(source, target, k);
    CountGrows(target, target[k], j, k);
    if q <= p {
      CountGrows(source, target[k], q - 1, p - 1);
    }
  }

  lemma MatchIsOnto(source: seq<Text>, target: seq<Text>, p: nat)
    requires 1 <= p <= |source| && Counts(source) == Counts(target)
    ensures p in Matching(source, target)
  {
    var t := source[p - 1];
    PositionsOf(source, p - 1);
    SameCounts(source, target, t);
    var o := Count(source[..p - 1], t);
    PositionsAt(target, t, o);
    var k := Positions(target, t)[o] - 1;
    assert Matching(source, target)[k] == p;
  }

  // When the tokens agree, pairing by occurrence is a bijection.
  lemma MatchingIsMatching(source: seq<Text>, target: seq<Text>)
    requires Counts(source) == Counts(target)
    ensures IsMatching(source, target, Matching(source, target))
  {
    hide MatchOf, Counts;
    var m := Matching(source, target);
    assert forall k | 0 <= k < |m| :: m[k] == MatchOf(source, target, k);
    forall k | 0 <= k < |m| ensures 1 <= m[k] <= |source| && source[m[k] - 1] == target[k] {
      MatchIsToken(source, target, k);
    }
    forall j, k | 0 <= j < k < |m| && target[j] == target[k] ensures m[j] < m[k] {
      MatchKeepsOrder(source, target, j, k);
    }
    forall p | 1 <= p <= |source| ensures p in m {
      MatchIsOnto(source, target, p);
    }
  }

  lemma CountsSnoc(tokens: seq<Text>, token: Text)
    ensures Counts(tokens + [token]) == Counts(tokens)[token := Count(tokens, token) + 1]
  {
    var longer := tokens + [token];
    assert longer[..|tokens|] == tokens;
    forall t ensures t in longer <==> t in tokens || t == token {
      if t in longer {
        var i :| 0 <= i < |longer| && longer[i] == t;
      }
      if t in tokens {
        var i :| 0 <= i < |tokens| && tokens[i] == t;
        assert longer[i] == t;
      }
      assert longer[|tokens|] == token;
    }
  }

  method TokenCounts(tokens: seq<Text>) returns (counts: map<Text, nat>)
    ensures counts == Counts(tokens)
  {
    counts := map[];
    for i := 0 to |tokens|
      invariant counts == Counts(tokens[..i])
    {
      var token := tokens[i];
      PositiveCount(tokens[..i], token);
      CountsSnoc(tokens[..i], token);
      assert tokens[..i + 1] == tokens[..i] + [token];
      counts := counts[token := (if token in counts then counts[token] else 0) + 1];
    }
    assert tokens[..|tokens|] == tokens;
  }
}
