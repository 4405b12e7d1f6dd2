// The placeholders of a translation: the names in braces, as the expression /\{(\w+)\}/g finds them.
module Placeholders {
  import opened CodeUnits

  function WordEnd(s: Text, i: nat): (e: nat)
    requires i <= |s|
    ensures i <= e <= |s| && (forall k | i <= k < e :: IsWordChar(s[k])) && (e < |s| ==> !IsWordChar(s[e]))
    decreases |s| - i
  {
    if i < |s| && IsWordChar(s[i]) then WordEnd(s, i + 1) else i
  }

  // The successive matches from position i on.
  function MatchesFrom(s: Text, i: nat): seq<Text>
    requires i <= |s|
    decreases |s| - i
  {
    if i == |s| then []
    else
      var e := if s[i] == LEFT_BRACE then WordEnd(s, i + 1) else i;
      if i + 1 < e < |s| && s[e] == RIGHT_BRACE then [s[i + 1..e]] + MatchesFrom(s, e + 1)
      else MatchesFrom(s, i + 1)
  }

  function PlaceholderSet(s: Text): set<Text> {
    set name | name in MatchesFrom(s, 0)
  }

  // The name stands between braces at position i.
  predicate Placeholder(s: Text, i: nat, e: nat) {
    && i + 1 < e < |s| && s[i] == LEFT_BRACE && s[e] == RIGHT_BRACE
    && forall k | i < k < e :: IsWordChar(s[k])
  }

  lemma {:induction false} WordEndIs(s: Text, i: nat, e: nat)
    requires i <= e < |s| && (forall k | i <= k < e :: IsWordChar(s[k])) && !IsWordChar(s[e])
    ensures WordEnd(s, i) == e
    decreases e - i
  {
    if i < e {
      WordEndIs(s, i + 1, e);
    }
  }

  lemma {:induction false} MatchesArePlaceholders(s: Text, i: nat, name: Text)
    requires i <= |s| && name in MatchesFrom(s, i)
    ensures exists j: nat, e: nat :: i <= j && Placeholder(s, j, e) && s[j + 1..e] == name
    decreases |s| - i
  {
    var e := if s[i] == LEFT_BRACE then WordEnd(s, i + 1) else i;
    if i + 1 < e < |s| && s[e] == RIGHT_BRACE {
      assert Placeholder(s, i, e);
      if name != s[i + 1..e] {
        MatchesArePlaceholders(s, e + 1, name);
      }
    } else {
      MatchesArePlaceholders(s, i + 1, name);
    }
  }

  lemma NoOverlap(s: Text, i: nat, f: nat, j: nat, e: nat)
    requires Placeholder(s, i, f) && Placeholder(s, j, e) && i < j
    ensures f < j
  {
  }

  lemma {:induction false} PlaceholdersAreMatched(s: Text, i: nat, j: nat, e: nat)
    requires i <= j && Placeholder(s, j, e)
    ensures s[j + 1..e] in MatchesFrom(s, i)
    decreases |s| - i
  {
    var f := if s[i] == LEFT_BRACE then WordEnd(s, i + 1) else i;
    if i == j {
      WordEndIs(s, i + 1, e);
    } else if i + 1 < f < |s| && s[f] == RIGHT_BRACE {
      NoOverlap(s, i, f, j, e);
      PlaceholdersAreMatched(s, f + 1, j, e);
    } else {
      PlaceholdersAreMatched(s, i + 1, j, e);
    }
  }

  // Matches never hide one another: the set holds exactly the names that stand in braces anywhere.
  lemma PlaceholderSetMeaning(s: Text, name: Text)
    ensures name in PlaceholderSet(s) <==> exists i: nat, e: nat :: Placeholder(s, i, e) && s[i + 1..e] == name
  {
    if name in PlaceholderSet(s) {
      MatchesArePlaceholders(s, 0, name);
    }
    if exists i: nat, e: nat :: Placeholder(s, i, e) && s[i + 1..e] == name {
      var i: nat, e: nat :| Placeholder(s, i, e) && s[i + 1..e] == name;
      PlaceholdersAreMatched(s, 0, i, e);
    }
  }
}
