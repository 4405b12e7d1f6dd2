// `[...new Set(values)].toSorted(compareCodeUnits)`: the distinct texts of a list in increasing order.
module SortedTexts {
  import opened CodeUnits

  // Recursive form of "every text is smaller than all later ones".
  ghost predicate Increasing(s: seq<Text>) {
    s != [] ==> (forall t | t in s[1..] :: Less(s[0], t)) && Increasing(s[1..])
  }

  function Insert(s: seq<Text>, v: Text): (r: seq<Text>)
    ensures forall t :: t in r <==> t in s || t == v
  {
    if s == [] then [v]
    else if v == s[0] then s
    else if Less(v, s[0]) then [v] + s
    else [s[0]] + Insert(s[1..], v)
  }

  function SortDistinct(values: seq<Text>): (r: seq<Text>)
    ensures forall t :: t in r <==> t in values
  {
    if values == [] then [] else Insert(SortDistinct(values[1..]), values[0])
  }

  lemma {:induction false} InsertKeepsIncreasing(s: seq<Text>, v: Text)
    requires Increasing(s)
    ensures Increasing(Insert(s, v))
  {
    if s != [] && v != s[0] {
      LessTotal(v, s[0]);
      if Less(v, s[0]) {
        assert ([v] + s)[1..] == s;
        forall t | t in s ensures Less(v, t) {
          if t != s[0] {
            LessTransitive(v, s[0], t);
          }
        }
      } else {
        InsertKeepsIncreasing(s[1..], v);
        assert ([s[0]] + Insert(s[1..], v))[1..] == Insert(s[1..], v);
      }
    }
  }

  lemma {:induction false} SortDistinctIncreases(values: seq<Text>)
    ensures Increasing(SortDistinct(values))
  {
    if values != [] {
      SortDistinctIncreases(values[1..]);
      InsertKeepsIncreasing(SortDistinct(values[1..]), values[0]);
    }
  }

  // An increasing list is determined by its members, so no sorting algorithm can give another result.
  lemma {:induction false} IncreasingIsUnique(a: seq<Text>, b: seq<Text>)
    requires Increasing(a) && Increasing(b) && forall t :: t in a <==> t in b
    ensures a == b
  {
    assert b != [] ==> b[0] in b;
    if a != [] {
      assert a[0] in b;
      assert b[0] in a;
      LessTotal(a[0], b[0]);
      LessTotal(a[0], a[0]);
      LessTotal(b[0], b[0]);
      assert a[0] == b[0];
      forall t ensures t in a[1..] <==> t in b[1..] {
        assert t in a <==> t == a[0] || t in a[1..];
        assert t in b <==> t == b[0] || t in b[1..];
      }
      IncreasingIsUnique(a[1..], b[1..]);
      assert a == [a[0]] + a[1..] && b == [b[0]] + b[1..];
    }
  }
}
