// Joining a sequence of sequences.
module Sequences {

  function Flatten<T>(parts: seq<seq<T>>): seq<T> {
    if parts == [] then [] else parts[0] + Flatten(parts[1..])
  }

  lemma {:induction false} FlattenAppend<T>(a: seq<seq<T>>, b: seq<seq<T>>)
    ensures Flatten(a + b) == Flatten(a) + Flatten(b)
  {
    if a == [] {
      assert a + b == b;
    } else {
      FlattenAppend(a[1..], b);
      assert (a + b)[0] == a[0] && (a + b)[1..] == a[1..] + b;
      var x, y := Flatten(a[1..]), Flatten(b);
      assert a[0] + (x + y) == (a[0] + x) + y;
    }
  }

  lemma FlattenSnoc<T>(parts: seq<seq<T>>, last: seq<T>)
    ensures Flatten(parts + [last]) == Flatten(parts) + last
  {
    FlattenAppend(parts, [last]);
    assert Flatten([last]) == last + Flatten([]);
  }

  // The form in which loops take one more part.
  lemma FlattenUpTo<T>(parts: seq<seq<T>>, i: nat)
    requires i < |parts|
    ensures Flatten(parts[..i + 1]) == Flatten(parts[..i]) + parts[i]
  {
    assert parts[..i + 1] == parts[..i] + [parts[i]];
    FlattenSnoc(parts[..i], parts[i]);
  }

  lemma SliceOfSlice<T>(s: seq<T>, i: nat, j: nat, a: nat, b: nat)
    requires i <= j <= |s| && a <= b <= j - i
    ensures s[i..j][a..b] == s[i + a..i + b]
  {
    var left, right := s[i..j][a..b], s[i + a..i + b];
    assert |left| == |right| == b - a;
    forall k | 0 <= k < b - a ensures left[k] == right[k] {
      assert left[k] == s[i..j][a + k] == s[i + a + k] == right[k];
    }
  }

  lemma SliceSnoc<T>(s: seq<T>, a: nat, n: nat)
    requires a <= n < |s|
    ensures s[a..n + 1] == s[a..n] + [s[n]]
  {
  }
}
