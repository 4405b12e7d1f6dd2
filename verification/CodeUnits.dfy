// Text as the scripts see it: a sequence of UTF-16 code units.
module CodeUnits {

  newtype CodeUnit = u: int | 0 <= u < 0x1_0000

  type Text = seq<CodeUnit>

  const LF: CodeUnit := 10
  const CR: CodeUnit := 13
  const SPACE: CodeUnit := 32
  const DOUBLE_QUOTE: CodeUnit := 34
  const DOLLAR: CodeUnit := 36
  const PERCENT: CodeUnit := 37
  const AMPERSAND: CodeUnit := 38
  const SINGLE_QUOTE: CodeUnit := 39
  const LEFT_PAREN: CodeUnit := 40
  const RIGHT_PAREN: CodeUnit := 41
  const COMMA: CodeUnit := 44
  const HYPHEN: CodeUnit := 45
  const DOT: CodeUnit := 46
  const SLASH: CodeUnit := 47
  const DIGIT_0: CodeUnit := 48
  const DIGIT_9: CodeUnit := 57
  const SEMICOLON: CodeUnit := 59
  const LESS: CodeUnit := 60
  const GREATER: CodeUnit := 62
  const LEFT_BRACKET: CodeUnit := 91
  const BACKSLASH: CodeUnit := 92
  const RIGHT_BRACKET: CodeUnit := 93
  const UNDERSCORE: CodeUnit := 95
  const BACKTICK: CodeUnit := 96
  const LETTER_N: CodeUnit := 110
  const LETTER_S: CodeUnit := 115
  const LEFT_BRACE: CodeUnit := 123
  const RIGHT_BRACE: CodeUnit := 125

  const LT_ENTITY: Text := [AMPERSAND, 108, 116, SEMICOLON]             // &lt;
  const GT_ENTITY: Text := [AMPERSAND, 103, 116, SEMICOLON]             // &gt;
  const AMP_ENTITY: Text := [AMPERSAND, 97, 109, 112, SEMICOLON]        // &amp;
  const QUOT_ENTITY: Text := [AMPERSAND, 113, 117, 111, 116, SEMICOLON] // &quot;

  predicate IsDigit(c: CodeUnit) {
    DIGIT_0 <= c <= DIGIT_9
  }

  predicate IsLetter(c: CodeUnit) {
    65 <= c <= 90 || 97 <= c <= 122
  }

  // The class \w of a regular expression: [A-Za-z0-9_].
  predicate IsWordChar(c: CodeUnit) {
    IsLetter(c) || IsDigit(c) || c == UNDERSCORE
  }

  // White space and line terminators as String.prototype.trim sees them.
  predicate IsSpace(c: CodeUnit) {
    9 <= c <= 13 || c == SPACE || c == 0xA0 || c == 0x1680 || 0x2000 <= c <= 0x200A
    || c == 0x2028 || c == 0x2029 || c == 0x202F || c == 0x205F || c == 0x3000 || c == 0xFEFF
  }

  function TrimStart(s: Text): Text {
    if s != [] && IsSpace(s[0]) then TrimStart(s[1..]) else s
  }

  function TrimEnd(s: Text): Text {
    if s != [] && IsSpace(s[|s| - 1]) then TrimEnd(s[..|s| - 1]) else s
  }

  function Trim(s: Text): Text {
    TrimEnd(TrimStart(s))
  }

  lemma {:induction false} TrimStartMeaning(s: Text) returns (i: nat)
    ensures i <= |s| && TrimStart(s) == s[i..] && (forall k | 0 <= k < i :: IsSpace(s[k]))
    ensures i < |s| ==> !IsSpace(s[i])
  {
    i := 0;
    if s != [] && IsSpace(s[0]) {
      i := TrimStartMeaning(s[1..]);
      i := i + 1;
    }
  }

  lemma {:induction false} TrimEndMeaning(s: Text) returns (j: nat)
    ensures j <= |s| && TrimEnd(s) == s[..j] && (forall k | j <= k < |s| :: IsSpace(s[k]))
    ensures j > 0 ==> !IsSpace(s[j - 1])
  {
    j := |s|;
    if s != [] && IsSpace(s[|s| - 1]) {
      j := TrimEndMeaning(s[..|s| - 1]);
    }
  }

  // Trimming leaves a stretch that neither begins nor ends with white space, and drops white space only.
  lemma TrimMeaning(s: Text) returns (i: nat, j: nat)
    ensures i <= j <= |s| && Trim(s) == s[i..j]
    ensures forall k | 0 <= k < i || j <= k < |s| :: IsSpace(s[k])
    ensures i < j ==> !IsSpace(s[i]) && !IsSpace(s[j - 1])
  {
    i := TrimStartMeaning(s);
    var n := TrimEndMeaning(s[i..]);
    j := i + n;
    assert s[i..][..n] == s[i..j];
    forall k | j <= k < |s| ensures IsSpace(s[k]) {
      assert s[i..][k - i] == s[k];
    }
  }

  // The order of the `<` operator on strings: lexicographic by code unit.
  predicate Less(a: Text, b: Text) {
    b != [] && (a == [] || a[0] < b[0] || (a[0] == b[0] && Less(a[1..], b[1..])))
  }

  // a comes first when it is a proper beginning of b, or is smaller at the first place where they differ.
  lemma {:induction false} LessMeaning(a: Text, b: Text)
    ensures Less(a, b) <==> exists k | 0 <= k <= |a| && k < |b| ::
              a[..k] == b[..k] && (k == |a| || a[k] < b[k])
  {
    if a == [] {
      assert b != [] ==> a[..0] == b[..0];
    } else if b != [] {
      LessMeaning(a[1..], b[1..]);
      if a[0] < b[0] {
        assert a[..0] == b[..0];
      }
      if a[0] == b[0] {
        if k :| 0 <= k <= |a| - 1 && k < |b| - 1 && a[1..][..k] == b[1..][..k] && (k == |a| - 1 || a[1..][k] < b[1..][k]) {
          assert a[..k + 1] == [a[0]] + a[1..][..k] && b[..k + 1] == [b[0]] + b[1..][..k];
        }
      }
      if k :| 0 < k <= |a| && k < |b| && a[..k] == b[..k] && (k == |a| || a[k] < b[k]) {
        assert a[0] == a[..k][0] == b[..k][0] == b[0];
        assert a[1..][..k - 1] == a[..k][1..] && b[1..][..k - 1] == b[..k][1..];
      }
    }
  }

  lemma {:induction false} LessTotal(a: Text, b: Text)
    ensures a != b ==> Less(a, b) || Less(b, a)
    ensures !(Less(a, b) && Less(b, a))
    ensures !Less(a, a)
  {
    if a != [] {
      LessTotal(a[1..], a[1..]);
      if b != [] && a[0] == b[0] {
        LessTotal(a[1..], b[1..]);
        if a != b {
          assert a == [a[0]] + a[1..] && b == [b[0]] + b[1..];
        }
      }
    }
  }

  lemma {:induction false} LessTransitive(a: Text, b: Text, c: Text)
    requires Less(a, b) && Less(b, c)
    ensures Less(a, c)
  {
    if a != [] && a[0] == b[0] == c[0] {
      LessTransitive(a[1..], b[1..], c[1..]);
    }
  }
}
