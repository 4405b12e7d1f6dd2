// The names of mobile release refs and the version codes of Android builds.
module ReleaseNames {
  import opened CodeUnits
  import opened Decimal
  import opened Wrappers

  function FromAscii(s: string): Text {
    seq(|s|, i requires 0 <= i < |s| => (s[i] as int % 0x80) as CodeUnit)
  }

  datatype Platform = Ios | Android

  const REF_PREFIX := FromAscii("refs/openclaw/mobile-releases")

  function PlatformName(p: Platform): Text {
    match p
    case Ios => FromAscii("ios")
    case Android => FromAscii("android")
  }

  // ---------- Versions YYYY.M.D ----------

  // The three fields of a version, as written.
  datatype Version = Version(year: Text, month: Text, patch: Text) {
    // 20dd, one or two digits and any number of digits, the last two without a leading zero.
    predicate Valid() {
      && |year| == 4 && year[0] == DIGIT_0 + 2 && year[1] == DIGIT_0 && AllDigits(year)
      && 1 <= |month| <= 2 && IsPositiveInteger(month)
      && IsPositiveInteger(patch)
    }

    function Print(): Text {
      year + [DOT] + month + [DOT] + patch
    }
  }

  predicate IsPositiveInteger(t: Text) {
    t != [] && t[0] != DIGIT_0 && AllDigits(t)
  }

  // Reading a version off its text; None when the text is not one.
  function ParseVersion(t: Text): Option<Version> {
    var n := if |t| > 6 && t[6] == DOT then 6 else 7;
    if |t| > n && t[4] == DOT && t[n] == DOT && Version(t[..4], t[5..n], t[n + 1..]).Valid()
    then Some(Version(t[..4], t[5..n], t[n + 1..])) else None
  }

  lemma ParseVersionIsInverse(t: Text, v: Version)
    ensures ParseVersion(t) == Some(v) <==> v.Valid() && v.Print() == t
  {
    if v.Valid() && v.Print() == t {
      ParseOfPrint(t, v);
    }
    if ParseVersion(t) == Some(v) {
      PrintOfParse(t, if |t| > 6 && t[6] == DOT then 6 else 7);
    }
  }

  lemma PrintOfParse(t: Text, n: nat)
    requires 4 < n < |t| && t[4] == DOT && t[n] == DOT
    ensures Version(t[..4], t[5..n], t[n + 1..]).Print() == t
  {
    assert t == t[..4] + [t[4]] + t[5..n] + [t[n]] + t[n + 1..];
  }

  lemma ParseOfPrint(t: Text, v: Version)
    requires v.Valid() && v.Print() == t
    ensures ParseVersion(t) == Some(v)
  {
    var n := 5 + |v.month|;
    PrintParts(v.year, v.month, v.patch);
    if |v.month| == 2 {
      assert t[6] == t[5..n][1] == v.month[1] && v.month[1] in v.month;
      assert IsDigit(t[6]);
    }
  }

  lemma PrintParts(year: Text, month: Text, patch: Text)
    requires |year| == 4
    ensures var t, n := Version(year, month, patch).Print(), 5 + |month|;
            && |t| == n + 1 + |patch| && t[4] == DOT && t[n] == DOT
            && t[..4] == year && t[5..n] == month && t[n + 1..] == patch
  {
    var t := year + [DOT] + month + [DOT] + patch;
    var n := 5 + |month|;
    assert |t| == n + 1 + |patch|;
    assert t[..4] == year;
    assert forall k | 0 <= k < |month| :: t[5 + k] == month[k];
    assert t[5..n] == month;
    assert t[n + 1..] == patch;
  }

  // ---------- Android version codes ----------

  function Pad(t: Text): Text {
    if |t| < 2 then [DIGIT_0] + t else t
  }

  function CodePrefix(v: Version): Text {
    v.year + Pad(v.month) + Pad(v.patch)
  }

  // The code is the padded version followed by two digits from 01 to 99.
  predicate IsCodeOf(v: Version, code: Text) {
    var prefix := CodePrefix(v);
    && IsPositiveInteger(code) && prefix <= code && |code| == |prefix| + 2
    && AllDigits(code[|prefix|..]) && 1 <= Value(code[|prefix|..]) <= 99
  }

  // ---------- Ref names ----------

  function JoinRef(p: Platform, version: Text, number: Text): Text {
    REF_PREFIX + [SLASH] + PlatformName(p) + [SLASH] + version + [HYPHEN] + number
  }

  // mobileReleaseRefFor; None is an error.
  function RefFor(p: Platform, version: Text, number: Text): Option<Text> {
    var v, n := Trim(version), Trim(number);
    match ParseVersion(v)
    case None => None
    case Some(parsed) =>
      if IsPositiveInteger(n) && (p == Android ==> IsCodeOf(parsed, n)) then Some(JoinRef(p, v, n)) else None
  }

  lemma {:induction false} FirstHyphen(a: Text, b: Text, c: Text, d: Text)
    requires a + [HYPHEN] + b == c + [HYPHEN] + d && HYPHEN !in a && HYPHEN !in c
    ensures a == c && b == d
  {
    var t := a + [HYPHEN] + b;
    assert t[0] == if a == [] then HYPHEN else a[0];
    assert t[0] == if c == [] then HYPHEN else c[0];
    assert t[|a| + 1..] == b && t[|c| + 1..] == d;
    if a != [] && c != [] {
      assert t[1..] == a[1..] + [HYPHEN] + b && t[1..] == c[1..] + [HYPHEN] + d;
      FirstHyphen(a[1..], b, c[1..], d);
      assert a == [a[0]] + a[1..] && c == [c[0]] + c[1..];
    }
  }

  lemma VersionHasNoHyphen(v: Version)
    requires v.Valid()
    ensures HYPHEN !in v.Print()
  {
  }

  lemma SamePrefix(a: Text, x: Text, y: Text)
    requires a + x == a + y
    ensures x == y
  {
    assert (a + x)[|a|..] == x && (a + y)[|a|..] == y;
  }

  function Tail(p: Platform, version: Text, number: Text): Text {
    PlatformName(p) + [SLASH] + (version + [HYPHEN] + number)
  }

  lemma JoinRefTail(p: Platform, v: Text, n: Text)
    ensures JoinRef(p, v, n) == REF_PREFIX + [SLASH] + Tail(p, v, n)
  {
    hide FromAscii;
  }

  lemma TailStart(p: Platform, v: Text, n: Text)
    ensures Tail(p, v, n)[0] == if p == Ios then 105 else 97
  {
    assert PlatformName(Ios)[0] == 105 && PlatformName(Android)[0] == 97;
  }

  lemma JoinRefIsInjective(p: Platform, v: Text, n: Text, q: Platform, w: Text, m: Text)
    requires JoinRef(p, v, n) == JoinRef(q, w, m) && HYPHEN !in v && HYPHEN !in w
    ensures p == q && v == w && n == m
  {
    hide FromAscii, JoinRef, PlatformName;
    JoinRefTail(p, v, n);
    JoinRefTail(q, w, m);
    SamePrefix(REF_PREFIX + [SLASH], Tail(p, v, n), Tail(q, w, m));
    TailStart(p, v, n);
    TailStart(q, w, m);
    SamePrefix(PlatformName(p) + [SLASH], v + [HYPHEN] + n, w + [HYPHEN] + m);
    FirstHyphen(v, n, w, m);
  }

  // Two releases share a ref only if platform, version and number are the same, up to blanks around them.
  lemma RefsAreDistinct(p: Platform, version: Text, number: Text, q: Platform, version': Text, number': Text)
    requires RefFor(p, version, number).Some? && RefFor(p, version, number) == RefFor(q, version', number')
    ensures p == q && Trim(version) == Trim(version') && Trim(number) == Trim(number')
  {
    ParseVersionIsInverse(Trim(version), ParseVersion(Trim(version)).value);
    ParseVersionIsInverse(Trim(version'), ParseVersion(Trim(version')).value);
    VersionHasNoHyphen(ParseVersion(Trim(version)).value);
    VersionHasNoHyphen(ParseVersion(Trim(version')).value);
    JoinRefIsInjective(p, Trim(version), Trim(number), q, Trim(version'), Trim(number'));
  }

  // "20dd" followed by a month and a patch number, with dots between them.
  ghost predicate IsVersionText(t: Text, v: Version) {
    v.Valid() && t == v.Print()
  }

  // Which iOS releases have a ref, and which.
  lemma IosRefExactly(version: Text, number: Text)
    ensures RefFor(Ios, version, number).Some?
       <==> (exists v :: IsVersionText(Trim(version), v)) && IsPositiveInteger(Trim(number))
    ensures RefFor(Ios, version, number).Some? ==>
              RefFor(Ios, version, number).value
              == FromAscii("refs/openclaw/mobile-releases/ios/") + Trim(version) + [HYPHEN] + Trim(number)
  {
    var t := Trim(version);
    if v :| IsVersionText(t, v) {
      ParseVersionIsInverse(t, v);
    }
    if ParseVersion(t).Some? {
      ParseVersionIsInverse(t, ParseVersion(t).value);
      assert IsVersionText(t, ParseVersion(t).value);
    }
    IosRefText(t, Trim(number));
    hide ParseVersion, JoinRef, FromAscii, Trim;
  }

  lemma IosRefText(v: Text, n: Text)
    ensures JoinRef(Ios, v, n) == FromAscii("refs/openclaw/mobile-releases/ios/") + v + [HYPHEN] + n
  {
    assert REF_PREFIX + [SLASH] + FromAscii("ios") + [SLASH] == FromAscii("refs/openclaw/mobile-releases/ios/");
  }

  // The version code of an Android release: year, month and patch, the latter two padded to two digits,
  // and two digits from 01 to 99.
  ghost predicate IsAndroidCode(code: Text, v: Version, suffix: Text) {
    && code == v.year + Pad(v.month) + Pad(v.patch) + suffix
    && |suffix| == 2 && AllDigits(suffix) && 1 <= Value(suffix) <= 99
  }

  lemma CodeParts(v: Version, code: Text)
    requires v.Valid()
    ensures IsCodeOf(v, code) <==> exists suffix :: IsAndroidCode(code, v, suffix)
  {
    var prefix := CodePrefix(v);
    if IsCodeOf(v, code) {
      assert code == prefix + code[|prefix|..];
      assert IsAndroidCode(code, v, code[|prefix|..]);
    }
    if suffix :| IsAndroidCode(code, v, suffix) {
      assert code == prefix + suffix && code[|prefix|..] == suffix;
      assert code[0] == v.year[0];
      PadDigits(v.month);
      PadDigits(v.patch);
    }
  }

  lemma PadDigits(t: Text)
    requires AllDigits(t)
    ensures AllDigits(Pad(t))
  {
  }

  // Which Android releases have a ref, and which.
  lemma AndroidRefExactly(version: Text, number: Text)
    ensures RefFor(Android, version, number).Some?
       <==> exists v, suffix :: IsVersionText(Trim(version), v) && IsAndroidCode(Trim(number), v, suffix)
    ensures RefFor(Android, version, number).Some? ==>
              RefFor(Android, version, number).value
              == FromAscii("refs/openclaw/mobile-releases/android/") + Trim(version) + [HYPHEN] + Trim(number)
  {
    var t, n := Trim(version), Trim(number);
    if v, suffix :| IsVersionText(t, v) && IsAndroidCode(n, v, suffix) {
      ParseVersionIsInverse(t, v);
      CodeParts(v, n);
    }
    if ParseVersion(t).Some? {
      var v := ParseVersion(t).value;
      ParseVersionIsInverse(t, v);
      CodeParts(v, n);
      if IsCodeOf(v, n) {
        var suffix :| IsAndroidCode(n, v, suffix);
        assert IsVersionText(t, v);
      }
    }
    AndroidRefText(t, n);
    hide ParseVersion, JoinRef, FromAscii, Trim, IsAndroidCode;
  }

  lemma AndroidRefText(v: Text, n: Text)
    ensures JoinRef(Android, v, n) == FromAscii("refs/openclaw/mobile-releases/android/") + v + [HYPHEN] + n
  {
    assert REF_PREFIX + [SLASH] + FromAscii("android") + [SLASH] == FromAscii("refs/openclaw/mobile-releases/android/");
  }

  lemma PadIsInjective(a: Text, b: Text)
    requires IsPositiveInteger(a) && IsPositiveInteger(b) && Pad(a) == Pad(b)
    ensures a == b
  {
    if |a| == 1 && |b| == 1 {
      assert a[0] == Pad(a)[1] && b[0] == Pad(b)[1];
    }
  }

  // An Android version code belongs to at most one version.
  lemma CodeHasOneVersion(v: Version, w: Version, code: Text)
    requires v.Valid() && w.Valid() && IsCodeOf(v, code) && IsCodeOf(w, code)
    ensures v == w
  {
    var c := code[..|code| - 2];
    assert c == CodePrefix(v) == CodePrefix(w);
    assert c[..4] == v.year && c[..4] == w.year;
    assert c[4..6] == Pad(v.month) && c[4..6] == Pad(w.month);
    assert c[6..] == Pad(v.patch) && c[6..] == Pad(w.patch);
    PadIsInjective(v.month, w.month);
    PadIsInjective(v.patch, w.patch);
  }

  // Two Android releases that have refs under the same version code are of the same version.
  lemma AndroidNumberHasOneVersion(version: Text, version': Text, number: Text, number': Text)
    requires RefFor(Android, version, number).Some? && RefFor(Android, version', number').Some?
    requires Trim(number) == Trim(number')
    ensures Trim(version) == Trim(version')
  {
    var v, w := ParseVersion(Trim(version)).value, ParseVersion(Trim(version')).value;
    ParseVersionIsInverse(Trim(version), v);
    ParseVersionIsInverse(Trim(version'), w);
    hide ParseVersion, IsCodeOf, Trim;
    CodeHasOneVersion(v, w, Trim(number));
  }

  // ---------- The numeric order of version codes ----------

  // Appending parts of equal length: the front decides, then the back.
  lemma {:induction false} ValueAppend(a: Text, b: Text, c: Text, d: Text)
    requires AllDigits(a) && AllDigits(b) && AllDigits(c) && AllDigits(d) && |b| == |d|
    requires AllDigits(a + b) && AllDigits(c + d)
    ensures Value(a + b) < Value(c + d) <==> Value(a) < Value(c) || (Value(a) == Value(c) && Value(b) < Value(d))
    ensures Value(a + b) == Value(c + d) <==> Value(a) == Value(c) && Value(b) == Value(d)
    decreases |b|
  {
    if b == [] {
      assert a + b == a && c + d == c;
    } else {
      var n := |b| - 1;
      assert (a + b)[..|a + b| - 1] == a + b[..n] && (c + d)[..|c + d| - 1] == c + d[..n];
      ValueAppend(a, b[..n], c, d[..n]);
      assert IsDigit(b[n]) && IsDigit(d[n]);
    }
  }

  lemma {:induction false} LongerIsGreater(a: Text, b: Text)
    requires AllDigits(a) && IsPositiveInteger(b) && |a| < |b|
    ensures Value(a) < Value(b)
    decreases |b|
  {
    var n := |b| - 1;
    assert IsDigit(b[n]);
    if a != [] {
      assert IsDigit(a[|a| - 1]);
      LongerIsGreater(a[..|a| - 1], b[..n]);
    } else if n > 0 {
      LongerIsGreater([], b[..n]);
    }
  }

  // Lexicographic order of year, month, patch and build suffix, each as a number.
  predicate Before(v: Version, s: Text, w: Version, t: Text)
    requires v.Valid() && w.Valid() && AllDigits(s) && AllDigits(t)
  {
    var (y, m, p) := (Value(v.year), Value(v.month), Value(v.patch));
    var (y', m', p') := (Value(w.year), Value(w.month), Value(w.patch));
    y < y' || (y == y' && (m < m' || (m == m' && (p < p' || (p == p' && Value(s) < Value(t))))))
  }

  function Suffix(v: Version, code: Text): Text
    requires IsCodeOf(v, code)
  {
    code[|CodePrefix(v)|..]
  }

  lemma PadValue(t: Text)
    requires IsPositiveInteger(t)
    ensures AllDigits(Pad(t)) && Value(Pad(t)) == Value(t)
  {
    if |t| == 1 {
      assert Pad(t)[..1] == [DIGIT_0] && [DIGIT_0][..0] == [] && t[..0] == [];
      assert IsDigit(t[0]);
    }
  }

  lemma EqualLengthOrder(v: Version, s: Text, w: Version, t: Text)
    requires v.Valid() && w.Valid() && AllDigits(s) && AllDigits(t) && |s| == |t|
    requires |Pad(v.patch)| == |Pad(w.patch)|
    requires AllDigits(CodePrefix(v) + s) && AllDigits(CodePrefix(w) + t)
    ensures Value(CodePrefix(v) + s) < Value(CodePrefix(w) + t) <==> Before(v, s, w, t)
  {
    PadValue(v.month);
    PadValue(w.month);
    PadValue(v.patch);
    PadValue(w.patch);
    var a, c := v.year + Pad(v.month), w.year + Pad(w.month);
    assert AllDigits(a) && AllDigits(c) && AllDigits(CodePrefix(v)) && AllDigits(CodePrefix(w));
    hide Value, AllDigits;
    ValueAppend(v.year, Pad(v.month), w.year, Pad(w.month));
    ValueAppend(a, Pad(v.patch), c, Pad(w.patch));
    ValueAppend(CodePrefix(v), s, CodePrefix(w), t);
  }

  // The exact order of accepted codes: a longer patch number wins, otherwise the fields decide in turn.
  lemma CodeOrder(v: Version, code: Text, w: Version, code': Text)
    requires v.Valid() && w.Valid() && IsCodeOf(v, code) && IsCodeOf(w, code')
    ensures Value(code) < Value(code') <==>
              if |Pad(v.patch)| == |Pad(w.patch)| then Before(v, Suffix(v, code), w, Suffix(w, code'))
              else |Pad(v.patch)| < |Pad(w.patch)|
  {
    assert code == CodePrefix(v) + Suffix(v, code) && code' == CodePrefix(w) + Suffix(w, code');
    if |Pad(v.patch)| == |Pad(w.patch)| {
      EqualLengthOrder(v, Suffix(v, code), w, Suffix(w, code'));
    } else if |code| < |code'| {
      LongerIsGreater(code, code');
    } else {
      LongerIsGreater(code', code);
    }
  }

  // Codes of versions with patch numbers below 100 are ordered as releases are.
  lemma CodesFollowReleases(v: Version, code: Text, w: Version, code': Text)
    requires v.Valid() && w.Valid() && IsCodeOf(v, code) && IsCodeOf(w, code')
    requires |v.patch| <= 2 && |w.patch| <= 2
    ensures Value(code) < Value(code') <==> Before(v, Suffix(v, code), w, Suffix(w, code'))
  {
    CodeOrder(v, code, w, code');
  }

  // With a patch number of 100 the order breaks: 2026.1.100 comes before 2026.2.1, its code does not.
  lemma LongPatchBreaksOrder()
    ensures var v, w := Version(FromAscii("2026"), FromAscii("1"), FromAscii("100")),
                        Version(FromAscii("2026"), FromAscii("2"), FromAscii("1"));
            var code, code' := FromAscii("20260110001"), FromAscii("2026020101");
            && v.Valid() && w.Valid() && IsCodeOf(v, code) && IsCodeOf(w, code')
            && Before(v, Suffix(v, code), w, Suffix(w, code')) && Value(code') < Value(code)
  {
    var v, w := Version(FromAscii("2026"), FromAscii("1"), FromAscii("100")),
                Version(FromAscii("2026"), FromAscii("2"), FromAscii("1"));
    var code, code' := FromAscii("20260110001"), FromAscii("2026020101");
    LongPatchCode();
    SecondMonthCode();
    hide Value, IsCodeOf, CodePrefix, FromAscii;
    LongerIsGreater(code', code);
    SmallMonths();
  }

  lemma LongPatchCode()
    ensures var v, code := Version(FromAscii("2026"), FromAscii("1"), FromAscii("100")), FromAscii("20260110001");
            v.Valid() && IsCodeOf(v, code) && |code| == 11 && IsPositiveInteger(code)
  {
    hide Value;
    var v, code := Version(FromAscii("2026"), FromAscii("1"), FromAscii("100")), FromAscii("20260110001");
    assert CodePrefix(v) == FromAscii("202601100");
    assert code[9..] == [48, 49];
    SuffixOne();
  }

  lemma SecondMonthCode()
    ensures var v, code := Version(FromAscii("2026"), FromAscii("2"), FromAscii("1")), FromAscii("2026020101");
            v.Valid() && IsCodeOf(v, code) && |code| == 10 && IsPositiveInteger(code)
  {
    hide Value;
    var v, code := Version(FromAscii("2026"), FromAscii("2"), FromAscii("1")), FromAscii("2026020101");
    assert CodePrefix(v) == FromAscii("20260201");
    assert code[8..] == [48, 49];
    SuffixOne();
  }

  lemma SuffixOne()
    ensures AllDigits([48, 49]) && Value([48, 49]) == 1
  {
    assert [48 as CodeUnit, 49][..1] == [48] && [48 as CodeUnit][..0] == [];
  }

  lemma SmallMonths()
    ensures AllDigits(FromAscii("1")) && Value(FromAscii("1")) == 1
    ensures AllDigits(FromAscii("2")) && Value(FromAscii("2")) == 2
  {
    assert FromAscii("1")[..0] == [] && FromAscii("2")[..0] == [];
  }
}
