/**
  StringAide, first part: the null-safe length, emptiness, blankness, case and
  character-class predicates, and toCharArray. Each predicate that scans code units
  has a "CoverSupplementary" twin that scans the code points of the sequence instead.
 */
module StringAide {
  import opened JavaLang
  import opened Utf16
  import ArrayAide

  /** Every element satisfies `p` (Stream.allMatch). */
  predicate AllMatch(xs: seq<int>, p: int -> bool) {
    forall i :: 0 <= i < |xs| ==> p(xs[i])
  }

  /** Some element satisfies `p` (Stream.anyMatch). */
  predicate AnyMatch(xs: seq<int>, p: int -> bool) {
    exists i :: 0 <= i < |xs| && p(xs[i])
  }

  /** The sequence holds no surrogate code unit: all of it is in the Basic Multilingual Plane. */
  predicate NoSurrogates(s: Chars) {
    forall i :: 0 <= i < |s| ==> !IsSurrogate(s[i])
  }

  /** Text without surrogates decodes to its own code units. */
  lemma BmpDecodesUnitwise(s: CharSeq)
    ensures s.Some? && NoSurrogates(s.value) ==> CodePoints(s.value) == s.value
  {
    if s.Some? && NoSurrogates(s.value) {
      CodePointsWithoutSurrogates(s.value);
    }
  }

  /** The loop of the unit-wise "all" predicates: stops at the first unit `p` rejects. */
  method EveryUnit(s: Chars, p: int -> bool) returns (r: bool)
    ensures r == AllMatch(s, p)
  {
    for i := 0 to |s|
      invariant forall k :: 0 <= k < i ==> p(s[k])
    {
      if !p(s[i]) {
        return false;
      }
    }
    return true;
  }

  /** The loop of the unit-wise "any" predicates: stops at the first unit `p` accepts. */
  method SomeUnit(s: Chars, p: int -> bool) returns (r: bool)
    ensures r == AnyMatch(s, p)
  {
    for i := 0 to |s|
      invariant forall k :: 0 <= k < i ==> !p(s[k])
    {
      if p(s[i]) {
        return true;
      }
    }
    return false;
  }

  // ---------------------------------------------------------------- length and emptiness

  /** length: 0 for null, otherwise the number of code units. */
  function Length(s: CharSeq): (n: nat)
    ensures s.None? ==> n == 0
    ensures s.Some? ==> n == |s.value|
  {
    if s.None? then 0 else |s.value|
  }

  /** codepointLength: 0 for null, otherwise the number of code points, between half the length and the length. */
  function CodepointLength(s: CharSeq): (n: nat)
    ensures n <= Length(s) <= 2 * n
    ensures s.Some? && NoSurrogates(s.value) ==> n == Length(s)
  {
    BmpDecodesUnitwise(s);
    if s.None? then 0 else |CodePoints(s.value)|
  }

  /** isEmpty: null or of length 0. */
  function IsEmpty(s: CharSeq): (r: bool)
    ensures r <==> Length(s) == 0
  {
    s.None? || s.value == []
  }

  /** isNotEmpty: non-null with at least one code unit. */
  function IsNotEmpty(s: CharSeq): (r: bool)
    ensures r <==> s.Some? && |s.value| > 0
  {
    !IsEmpty(s)
  }

  /** isAllEmpty: a null or empty array, or one whose every element is empty. */
  predicate AllEmpty(sequences: Option<seq<CharSeq>>) {
    ArrayAide.IsEmpty(sequences) ||
    forall i :: 0 <= i < |sequences.value| ==> IsEmpty(sequences.value[i])
  }

  /** isAnyEmpty: a non-empty array with an empty element. */
  predicate AnyEmpty(sequences: Option<seq<CharSeq>>) {
    !ArrayAide.IsEmpty(sequences) &&
    exists i :: 0 <= i < |sequences.value| && IsEmpty(sequences.value[i])
  }

  /** isAllEmpty: the loop over the varargs array. */
  method IsAllEmpty(sequences: Option<seq<CharSeq>>) returns (r: bool)
    ensures r == AllEmpty(sequences)
  {
    if ArrayAide.IsEmpty(sequences) {
      return true;
    }
    var xs := sequences.value;
    for i := 0 to |xs|
      invariant forall k :: 0 <= k < i ==> IsEmpty(xs[k])
    {
      if IsNotEmpty(xs[i]) {
        return false;
      }
    }
    return true;
  }

  /** isAnyEmpty: the loop over the varargs array. */
  method IsAnyEmpty(sequences: Option<seq<CharSeq>>) returns (r: bool)
    ensures r == AnyEmpty(sequences)
  {
    if ArrayAide.IsEmpty(sequences) {
      return false;
    }
    var xs := sequences.value;
    for i := 0 to |xs|
      invariant forall k :: 0 <= k < i ==> !IsEmpty(xs[k])
    {
      if IsEmpty(xs[i]) {
        return true;
      }
    }
    return false;
  }

  /** isNoneEmpty: the negation of isAnyEmpty, so a null or empty array counts as "none empty". */
  function IsNoneEmpty(sequences: Option<seq<CharSeq>>): (r: bool)
    ensures r <==> (ArrayAide.IsEmpty(sequences) ||
      forall i :: 0 <= i < |sequences.value| ==> IsNotEmpty(sequences.value[i]))
  {
    !AnyEmpty(sequences)
  }

  // ---------------------------------------------------------------- blankness

  /** isBlank: null, empty, or whitespace code units only. */
  predicate Blank(tb: CharTables, s: CharSeq) {
    Length(s) == 0 || AllMatch(s.value, tb.isWhitespace)
  }

  /** isBlank: the unit loop. */
  method IsBlank(tb: CharTables, sequence: CharSeq) returns (r: bool)
    ensures r == Blank(tb, sequence)
  {
    var length := Length(sequence);
    if length == 0 {
      return true;
    }
    r := EveryUnit(sequence.value, tb.isWhitespace);
  }

  /** isBlankCoverSupplementary: null, empty, or whitespace code points only. */
  function IsBlankCoverSupplementary(tb: CharTables, s: CharSeq): (r: bool)
    ensures Length(s) == 0 ==> r
    ensures s.Some? && NoSurrogates(s.value) ==> r == Blank(tb, s)
  {
    BmpDecodesUnitwise(s);
    Length(s) == 0 || AllMatch(CodePoints(s.value), tb.isWhitespace)
  }

  /** isNotBlank: some code unit is not whitespace. */
  function IsNotBlank(tb: CharTables, s: CharSeq): (r: bool)
    ensures r <==> s.Some? && exists i :: 0 <= i < |s.value| && !tb.isWhitespace(s.value[i])
  {
    !Blank(tb, s)
  }

  /** isNotBlankCoverSupplementary: some code point is not whitespace. */
  function IsNotBlankCoverSupplementary(tb: CharTables, s: CharSeq): (r: bool)
    ensures r <==> (s.Some? &&
      exists i :: 0 <= i < |CodePoints(s.value)| && !tb.isWhitespace(CodePoints(s.value)[i]))
  {
    !IsBlankCoverSupplementary(tb, s)
  }

  /** isAllBlank: a null or empty array, or one whose every element is blank. */
  predicate AllBlank(tb: CharTables, sequences: Option<seq<CharSeq>>) {
    ArrayAide.IsEmpty(sequences) ||
    forall i :: 0 <= i < |sequences.value| ==> Blank(tb, sequences.value[i])
  }

  /** isAnyBlank: a non-empty array with a blank element. */
  predicate AnyBlank(tb: CharTables, sequences: Option<seq<CharSeq>>) {
    !ArrayAide.IsEmpty(sequences) &&
    exists i :: 0 <= i < |sequences.value| && Blank(tb, sequences.value[i])
  }

  /** isAllBlankCoverSupplementary: as isAllBlank, by code points. */
  predicate AllBlankCodePoints(tb: CharTables, sequences: Option<seq<CharSeq>>) {
    ArrayAide.IsEmpty(sequences) ||
    forall i :: 0 <= i < |sequences.value| ==> IsBlankCoverSupplementary(tb, sequences.value[i])
  }

  /** isAnyBlankCoverSupplementary: as isAnyBlank, by code points. */
  predicate AnyBlankCodePoints(tb: CharTables, sequences: Option<seq<CharSeq>>) {
    !ArrayAide.IsEmpty(sequences) &&
    exists i :: 0 <= i < |sequences.value| && IsBlankCoverSupplementary(tb, sequences.value[i])
  }

  /** isAllBlank: the loop over the varargs array, stopping at the first element that is not blank. */
  method IsAllBlank(tb: CharTables, sequences: Option<seq<CharSeq>>) returns (r: bool)
    ensures r == AllBlank(tb, sequences)
  {
    if ArrayAide.IsEmpty(sequences) {
      return true;
    }
    var xs := sequences.value;
    for i := 0 to |xs|
      invariant forall k :: 0 <= k < i ==> Blank(tb, xs[k])
    {
      var blank := IsBlank(tb, xs[i]);
      if !blank {
        return false;
      }
    }
    return true;
  }

  /** isAllBlankCoverSupplementary: the same loop over isNotBlankCoverSupplementary. */
  method IsAllBlankCoverSupplementary(tb: CharTables, sequences: Option<seq<CharSeq>>) returns (r: bool)
    ensures r == AllBlankCodePoints(tb, sequences)
  {
    if ArrayAide.IsEmpty(sequences) {
      return true;
    }
    var xs := sequences.value;
    for i := 0 to |xs|
      invariant forall k :: 0 <= k < i ==> IsBlankCoverSupplementary(tb, xs[k])
    {
      if IsNotBlankCoverSupplementary(tb, xs[i]) {
        return false;
      }
    }
    return true;
  }

  /** isAnyBlank: the loop over the varargs array, stopping at the first blank element. */
  method IsAnyBlank(tb: CharTables, sequences: Option<seq<CharSeq>>) returns (r: bool)
    ensures r == AnyBlank(tb, sequences)
  {
    if ArrayAide.IsEmpty(sequences) {
      return false;
    }
    var xs := sequences.value;
    for i := 0 to |xs|
      invariant forall k :: 0 <= k < i ==> !Blank(tb, xs[k])
    {
      var blank := IsBlank(tb, xs[i]);
      if blank {
        return true;
      }
    }
    return false;
  }

  /** isAnyBlankCoverSupplementary: the same loop over isBlankCoverSupplementary. */
  method IsAnyBlankCoverSupplementary(tb: CharTables, sequences: Option<seq<CharSeq>>) returns (r: bool)
    ensures r == AnyBlankCodePoints(tb, sequences)
  {
    if ArrayAide.IsEmpty(sequences) {
      return false;
    }
    var xs := sequences.value;
    for i := 0 to |xs|
      invariant forall k :: 0 <= k < i ==> !IsBlankCoverSupplementary(tb, xs[k])
    {
      if IsBlankCoverSupplementary(tb, xs[i]) {
        return true;
      }
    }
    return false;
  }

  /** isNoneBlank: the negation of isAnyBlank. */
  function IsNoneBlank(tb: CharTables, sequences: Option<seq<CharSeq>>): (r: bool)
    ensures r <==> (ArrayAide.IsEmpty(sequences) ||
      forall i :: 0 <= i < |sequences.value| ==> IsNotBlank(tb, sequences.value[i]))
  {
    !AnyBlank(tb, sequences)
  }

  /** isNoneBlankCoverSupplementary: the negation of isAnyBlankCoverSupplementary. */
  function IsNoneBlankCoverSupplementary(tb: CharTables, sequences: Option<seq<CharSeq>>): (r: bool)
    ensures r <==> (ArrayAide.IsEmpty(sequences) ||
      forall i :: 0 <= i < |sequences.value| ==> IsNotBlankCoverSupplementary(tb, sequences.value[i]))
  {
    !AnyBlankCodePoints(tb, sequences)
  }

  /**
    The varargs predicates over a null or empty array: every "all" and "none" form holds
    and every "any" form fails; over a non-empty array "all" implies "any".
   */
  lemma VarargsQuantifiers(tb: CharTables, sequences: Option<seq<CharSeq>>)
    ensures ArrayAide.IsEmpty(sequences) ==>
      AllEmpty(sequences) && !AnyEmpty(sequences) && IsNoneEmpty(sequences) &&
      AllBlank(tb, sequences) && !AnyBlank(tb, sequences) && IsNoneBlank(tb, sequences)
    ensures !ArrayAide.IsEmpty(sequences) ==>
      (AllEmpty(sequences) ==> AnyEmpty(sequences)) &&
      (AllBlank(tb, sequences) ==> AnyBlank(tb, sequences))
    ensures AllEmpty(sequences) ==> AllBlank(tb, sequences)
    ensures AnyEmpty(sequences) ==> AnyBlank(tb, sequences)
  {
    if !ArrayAide.IsEmpty(sequences) {
      assert IsEmpty(sequences.value[0]) ==> Blank(tb, sequences.value[0]);
    }
  }

  // ---------------------------------------------------------------- case

  /** isAllLowerCase: non-empty, and every code unit lower case. */
  predicate AllLowerCase(tb: CharTables, s: CharSeq) {
    !IsEmpty(s) && AllMatch(s.value, tb.isLowerCase)
  }

  /** isAnyLowerCase: some code unit is lower case. */
  predicate AnyLowerCase(tb: CharTables, s: CharSeq) {
    !IsEmpty(s) && AnyMatch(s.value, tb.isLowerCase)
  }

  /** isAllUpperCase: non-empty, and every code unit upper case. */
  predicate AllUpperCase(tb: CharTables, s: CharSeq) {
    !IsEmpty(s) && AllMatch(s.value, tb.isUpperCase)
  }

  /** isAnyUpperCase: some code unit is upper case. */
  predicate AnyUpperCase(tb: CharTables, s: CharSeq) {
    !IsEmpty(s) && AnyMatch(s.value, tb.isUpperCase)
  }

  /** isAllLowerCase: the unit loop. */
  method IsAllLowerCase(tb: CharTables, sequence: CharSeq) returns (r: bool)
    ensures r == AllLowerCase(tb, sequence)
  {
    if IsEmpty(sequence) {
      return false;
    }
    r := EveryUnit(sequence.value, tb.isLowerCase);
  }

  /** isAnyLowerCase: the unit loop. */
  method IsAnyLowerCase(tb: CharTables, sequence: CharSeq) returns (r: bool)
    ensures r == AnyLowerCase(tb, sequence)
  {
    if IsEmpty(sequence) {
      return false;
    }
    r := SomeUnit(sequence.value, tb.isLowerCase);
  }

  /** isAllUpperCase: the unit loop. */
  method IsAllUpperCase(tb: CharTables, sequence: CharSeq) returns (r: bool)
    ensures r == AllUpperCase(tb, sequence)
  {
    if IsEmpty(sequence) {
      return false;
    }
    r := EveryUnit(sequence.value, tb.isUpperCase);
  }

  /** isAnyUpperCase: the unit loop. */
  method IsAnyUpperCase(tb: CharTables, sequence: CharSeq) returns (r: bool)
    ensures r == AnyUpperCase(tb, sequence)
  {
    if IsEmpty(sequence) {
      return false;
    }
    r := SomeUnit(sequence.value, tb.isUpperCase);
  }

  /** isAllLowerCaseCoverSupplementary: non-empty, and every code point lower case. */
  function IsAllLowerCaseCoverSupplementary(tb: CharTables, s: CharSeq): (r: bool)
    ensures IsEmpty(s) ==> !r
    ensures s.Some? && NoSurrogates(s.value) ==> r == AllLowerCase(tb, s)
  {
    BmpDecodesUnitwise(s);
    !IsEmpty(s) && AllMatch(CodePoints(s.value), tb.isLowerCase)
  }

  /** isAnyLowerCaseCoverSupplementary: some code point is lower case. */
  function IsAnyLowerCaseCoverSupplementary(tb: CharTables, s: CharSeq): (r: bool)
    ensures IsEmpty(s) ==> !r
    ensures s.Some? && NoSurrogates(s.value) ==> r == AnyLowerCase(tb, s)
  {
    BmpDecodesUnitwise(s);
    !IsEmpty(s) && AnyMatch(CodePoints(s.value), tb.isLowerCase)
  }

  /** isAllUpperCaseCoverSupplementary: non-empty, and every code point upper case. */
  function IsAllUpperCaseCoverSupplementary(tb: CharTables, s: CharSeq): (r: bool)
    ensures IsEmpty(s) ==> !r
    ensures s.Some? && NoSurrogates(s.value) ==> r == AllUpperCase(tb, s)
  {
    BmpDecodesUnitwise(s);
    !IsEmpty(s) && AllMatch(CodePoints(s.value), tb.isUpperCase)
  }

  /** isAnyUpperCaseCoverSupplementary: some code point is upper case. */
  function IsAnyUpperCaseCoverSupplementary(tb: CharTables, s: CharSeq): (r: bool)
    ensures IsEmpty(s) ==> !r
    ensures s.Some? && NoSurrogates(s.value) ==> r == AnyUpperCase(tb, s)
  {
    BmpDecodesUnitwise(s);
    !IsEmpty(s) && AnyMatch(CodePoints(s.value), tb.isUpperCase)
  }

  /**
    isMixedCase: false for null, empty or one-unit input; otherwise some code unit is
    upper case and some code unit is lower case.
   */
  predicate MixedCase(tb: CharTables, s: CharSeq) {
    Length(s) >= 2 && AnyMatch(s.value, tb.isUpperCase) && AnyMatch(s.value, tb.isLowerCase)
  }

  /** isMixedCase: one pass that raises a flag per case and stops once both are up. */
  method IsMixedCase(tb: CharTables, sequence: CharSeq) returns (r: bool)
    ensures r == MixedCase(tb, sequence)
  {
    if IsEmpty(sequence) || |sequence.value| == 1 {
      return false;
    }
    var s := sequence.value;
    var containsUppercase := false;
    var containsLowercase := false;
    var length := |s|;
    for i := 0 to length
      invariant containsUppercase <==> AnyMatch(s[..i], tb.isUpperCase)
      invariant containsLowercase <==> AnyMatch(s[..i], tb.isLowerCase)
      invariant !(containsUppercase && containsLowercase)
    {
      var ch := s[i];
      assert s[..i + 1] == s[..i] + [ch];
      if tb.isUpperCase(ch) {
        containsUppercase := true;
      }
      if tb.isLowerCase(ch) {
        containsLowercase := true;
      }
      if containsUppercase && containsLowercase {
        PrefixMatch(s, i + 1, tb.isUpperCase);
        PrefixMatch(s, i + 1, tb.isLowerCase);
        return true;
      }
    }
    assert s[..length] == s;
    return false;
  }

  /** A match in a prefix is a match in the whole sequence. */
  lemma PrefixMatch(s: seq<int>, n: int, p: int -> bool)
    requires 0 <= n <= |s|
    ensures AnyMatch(s[..n], p) ==> AnyMatch(s, p)
  {
    if AnyMatch(s[..n], p) {
      var k :| 0 <= k < n && p(s[..n][k]);
      assert s[k] == s[..n][k];
    }
  }

  /**
    isMixedCaseCoverSupplementary: the same guard on the number of code units, then the
    flag loop over the code points.
   */
  method IsMixedCaseCoverSupplementary(tb: CharTables, sequence: CharSeq) returns (r: bool)
    ensures r == (Length(sequence) >= 2 &&
                  AnyMatch(CodePoints(sequence.value), tb.isUpperCase) &&
                  AnyMatch(CodePoints(sequence.value), tb.isLowerCase))
  {
    if IsEmpty(sequence) || |sequence.value| == 1 {
      return false;
    }
    var cps := CodePoints(sequence.value);
    var containsUppercase := false;
    var containsLowercase := false;
    for i := 0 to |cps|
      invariant containsUppercase <==> AnyMatch(cps[..i], tb.isUpperCase)
      invariant containsLowercase <==> AnyMatch(cps[..i], tb.isLowerCase)
      invariant !(containsUppercase && containsLowercase)
    {
      var codepoint := cps[i];
      assert cps[..i + 1] == cps[..i] + [codepoint];
      if tb.isUpperCase(codepoint) {
        containsUppercase := true;
      }
      if tb.isLowerCase(codepoint) {
        containsLowercase := true;
      }
      if containsUppercase && containsLowercase {
        PrefixMatch(cps, i + 1, tb.isUpperCase);
        PrefixMatch(cps, i + 1, tb.isLowerCase);
        return true;
      }
    }
    assert cps[..|cps|] == cps;
    return false;
  }

  /**
    How the case predicates relate: "all" implies "any" (the empty sequence is excluded
    from both), and mixed case is "any upper" together with "any lower" once there are
    two units.
   */
  lemma CaseRelations(tb: CharTables, s: CharSeq)
    ensures AllLowerCase(tb, s) ==> AnyLowerCase(tb, s)
    ensures AllUpperCase(tb, s) ==> AnyUpperCase(tb, s)
    ensures MixedCase(tb, s) <==> Length(s) >= 2 && AnyUpperCase(tb, s) && AnyLowerCase(tb, s)
  {
    if AllLowerCase(tb, s) {
      assert tb.isLowerCase(s.value[0]);
    }
    if AllUpperCase(tb, s) {
      assert tb.isUpperCase(s.value[0]);
    }
  }

  // ---------------------------------------------------------------- character classes

  /** Character.isLetterOrDigit, as a predicate value. */
  function LetterOrDigit(tb: CharTables): int -> bool {
    c => IsLetterOrDigit(tb, c)
  }

  /** A space (CharConst.SPACE_CHAR) or a letter or digit. */
  function LetterOrDigitOrSpace(tb: CharTables): int -> bool {
    c => c == SPACE_CHAR || IsLetterOrDigit(tb, c)
  }

  /** A space or a letter. */
  function LetterOrSpace(tb: CharTables): int -> bool {
    c => c == SPACE_CHAR || tb.isLetter(c)
  }

  /** A space or a digit. */
  function DigitOrSpace(tb: CharTables): int -> bool {
    c => c == SPACE_CHAR || tb.isDigit(c)
  }

  /** CharAide.isAsciiPrintable, as a predicate value. */
  function AsciiPrintableChar(): int -> bool {
    c => IsAsciiPrintableChar(c)
  }

  /** isSpace: non-null, and every code unit a Unicode space (the empty sequence qualifies). */
  predicate SpaceOnly(tb: CharTables, s: CharSeq) {
    s.Some? && AllMatch(s.value, tb.isSpaceChar)
  }

  /** isWhitespace: non-null and blank. */
  predicate Whitespace(tb: CharTables, s: CharSeq) {
    s.Some? && Blank(tb, s)
  }

  /** isAlpha: non-empty, letters only. */
  predicate Alpha(tb: CharTables, s: CharSeq) {
    !IsEmpty(s) && AllMatch(s.value, tb.isLetter)
  }

  /** isAlphanumeric: non-empty, letters or digits only. */
  predicate Alphanumeric(tb: CharTables, s: CharSeq) {
    !IsEmpty(s) && AllMatch(s.value, LetterOrDigit(tb))
  }

  /** isAlphanumericSpace: non-null, letters, digits or spaces only. */
  predicate AlphanumericSpace(tb: CharTables, s: CharSeq) {
    s.Some? && AllMatch(s.value, LetterOrDigitOrSpace(tb))
  }

  /** isAlphaSpace: non-null, letters or spaces only. */
  predicate AlphaSpace(tb: CharTables, s: CharSeq) {
    s.Some? && AllMatch(s.value, LetterOrSpace(tb))
  }

  /** isNumeric: non-empty, digits only. */
  predicate Numeric(tb: CharTables, s: CharSeq) {
    !IsEmpty(s) && AllMatch(s.value, tb.isDigit)
  }

  /** isNumericSpace: non-null, digits or spaces only. */
  predicate NumericSpace(tb: CharTables, s: CharSeq) {
    s.Some? && AllMatch(s.value, DigitOrSpace(tb))
  }

  /** isAsciiPrintable: non-null, code units 32..126 only. */
  predicate AsciiPrintable(s: CharSeq) {
    s.Some? && AllMatch(s.value, AsciiPrintableChar())
  }

  /** isSpace: the unit loop. */
  method IsSpace(tb: CharTables, sequence: CharSeq) returns (r: bool)
    ensures r == SpaceOnly(tb, sequence)
  {
    if sequence.None? {
      return false;
    }
    r := EveryUnit(sequence.value, tb.isSpaceChar);
  }

  /** isWhitespace: false for null, otherwise isBlank. */
  method IsWhitespace(tb: CharTables, sequence: CharSeq) returns (r: bool)
    ensures r == Whitespace(tb, sequence)
  {
    if sequence.None? {
      return false;
    }
    r := IsBlank(tb, sequence);
  }

  /** isAlpha: the unit loop. */
  method IsAlpha(tb: CharTables, sequence: CharSeq) returns (r: bool)
    ensures r == Alpha(tb, sequence)
  {
    if IsEmpty(sequence) {
      return false;
    }
    r := EveryUnit(sequence.value, tb.isLetter);
  }

  /** isAlphanumeric: the unit loop. */
  method IsAlphanumeric(tb: CharTables, sequence: CharSeq) returns (r: bool)
    ensures r == Alphanumeric(tb, sequence)
  {
    if IsEmpty(sequence) {
      return false;
    }
    r := EveryUnit(sequence.value, LetterOrDigit(tb));
  }

  /** isAlphanumericSpace: the unit loop. */
  method IsAlphanumericSpace(tb: CharTables, sequence: CharSeq) returns (r: bool)
    ensures r == AlphanumericSpace(tb, sequence)
  {
    if sequence.None? {
      return false;
    }
    r := EveryUnit(sequence.value, LetterOrDigitOrSpace(tb));
  }

  /** isAlphaSpace: the unit loop. */
  method IsAlphaSpace(tb: CharTables, sequence: CharSeq) returns (r: bool)
    ensures r == AlphaSpace(tb, sequence)
  {
    if sequence.None? {
      return false;
    }
    r := EveryUnit(sequence.value, LetterOrSpace(tb));
  }

  /** isNumeric: the unit loop. */
  method IsNumeric(tb: CharTables, sequence: CharSeq) returns (r: bool)
    ensures r == Numeric(tb, sequence)
  {
    if IsEmpty(sequence) {
      return false;
    }
    r := EveryUnit(sequence.value, tb.isDigit);
  }

  /** isNumericSpace: the unit loop. */
  method IsNumericSpace(tb: CharTables, sequence: CharSeq) returns (r: bool)
    ensures r == NumericSpace(tb, sequence)
  {
    if sequence.None? {
      return false;
    }
    r := EveryUnit(sequence.value, DigitOrSpace(tb));
  }

  /** isAsciiPrintable: the unit loop. */
  method IsAsciiPrintable(sequence: CharSeq) returns (r: bool)
    ensures r == AsciiPrintable(sequence)
  {
    if sequence.None? {
      return false;
    }
    r := EveryUnit(sequence.value, AsciiPrintableChar());
  }

  /** isSpaceCoverSupplementary: non-null, Unicode space code points only. */
  function IsSpaceCoverSupplementary(tb: CharTables, s: CharSeq): (r: bool)
    ensures s.None? ==> !r
    ensures s.Some? && NoSurrogates(s.value) ==> r == SpaceOnly(tb, s)
  {
    BmpDecodesUnitwise(s);
    s.Some? && AllMatch(CodePoints(s.value), tb.isSpaceChar)
  }

  /** isWhitespaceCoverSupplementary: false for null, otherwise isBlankCoverSupplementary. */
  function IsWhitespaceCoverSupplementary(tb: CharTables, s: CharSeq): (r: bool)
    ensures r <==> s.Some? && IsBlankCoverSupplementary(tb, s)
    ensures s.Some? && NoSurrogates(s.value) ==> r == Whitespace(tb, s)
  {
    s.Some? && IsBlankCoverSupplementary(tb, s)
  }

  /** isAlphaCoverSupplementary: non-empty, letter code points only. */
  function IsAlphaCoverSupplementary(tb: CharTables, s: CharSeq): (r: bool)
    ensures IsEmpty(s) ==> !r
    ensures s.Some? && NoSurrogates(s.value) ==> r == Alpha(tb, s)
  {
    BmpDecodesUnitwise(s);
    !IsEmpty(s) && AllMatch(CodePoints(s.value), tb.isLetter)
  }

  /** isAlphanumericCoverSupplementary: non-empty, letter or digit code points only. */
  function IsAlphanumericCoverSupplementary(tb: CharTables, s: CharSeq): (r: bool)
    ensures IsEmpty(s) ==> !r
    ensures s.Some? && NoSurrogates(s.value) ==> r == Alphanumeric(tb, s)
  {
    BmpDecodesUnitwise(s);
    !IsEmpty(s) && AllMatch(CodePoints(s.value), LetterOrDigit(tb))
  }

  /** isAlphanumericSpaceCoverSupplementary: non-null, letter, digit or space code points only. */
  function IsAlphanumericSpaceCoverSupplementary(tb: CharTables, s: CharSeq): (r: bool)
    ensures s.None? ==> !r
    ensures s.Some? && NoSurrogates(s.value) ==> r == AlphanumericSpace(tb, s)
  {
    BmpDecodesUnitwise(s);
    s.Some? && AllMatch(CodePoints(s.value), LetterOrDigitOrSpace(tb))
  }

  /** isAlphaSpaceCoverSupplementary: non-null, letter or space code points only. */
  function IsAlphaSpaceCoverSupplementary(tb: CharTables, s: CharSeq): (r: bool)
    ensures s.None? ==> !r
    ensures s.Some? && NoSurrogates(s.value) ==> r == AlphaSpace(tb, s)
  {
    BmpDecodesUnitwise(s);
    s.Some? && AllMatch(CodePoints(s.value), LetterOrSpace(tb))
  }

  /** isNumericCoverSupplementary: non-empty, digit code points only. */
  function IsNumericCoverSupplementary(tb: CharTables, s: CharSeq): (r: bool)
    ensures IsEmpty(s) ==> !r
    ensures s.Some? && NoSurrogates(s.value) ==> r == Numeric(tb, s)
  {
    BmpDecodesUnitwise(s);
    !IsEmpty(s) && AllMatch(CodePoints(s.value), tb.isDigit)
  }

  /** isNumericSpaceCoverSupplementary: non-null, digit or space code points only. */
  function IsNumericSpaceCoverSupplementary(tb: CharTables, s: CharSeq): (r: bool)
    ensures s.None? ==> !r
    ensures s.Some? && NoSurrogates(s.value) ==> r == NumericSpace(tb, s)
  {
    BmpDecodesUnitwise(s);
    s.Some? && AllMatch(CodePoints(s.value), DigitOrSpace(tb))
  }

  /**
    The character classes nest: letters-only and digits-only text is alphanumeric, and
    allowing spaces only widens a class. Blank text that is non-null is whitespace.
   */
  lemma CharClassInclusions(tb: CharTables, s: CharSeq)
    ensures Alpha(tb, s) ==> Alphanumeric(tb, s) && AlphaSpace(tb, s)
    ensures Numeric(tb, s) ==> Alphanumeric(tb, s) && NumericSpace(tb, s)
    ensures Alphanumeric(tb, s) ==> AlphanumericSpace(tb, s)
    ensures AlphaSpace(tb, s) ==> AlphanumericSpace(tb, s)
    ensures NumericSpace(tb, s) ==> AlphanumericSpace(tb, s)
    ensures Whitespace(tb, s) <==> s.Some? && Blank(tb, s)
    ensures Blank(tb, None) && !Whitespace(tb, None)
  {
    if s.Some? {
      var u := s.value;
      if Alpha(tb, s) {
        assert forall i :: 0 <= i < |u| ==> LetterOrDigit(tb)(u[i]) && LetterOrSpace(tb)(u[i]);
      }
      if Numeric(tb, s) {
        assert forall i :: 0 <= i < |u| ==> LetterOrDigit(tb)(u[i]) && DigitOrSpace(tb)(u[i]);
      }
      if Alphanumeric(tb, s) {
        assert forall i :: 0 <= i < |u| ==> LetterOrDigitOrSpace(tb)(u[i]);
      }
      if AlphaSpace(tb, s) {
        assert forall i :: 0 <= i < |u| ==> LetterOrDigitOrSpace(tb)(u[i]);
      }
      if NumericSpace(tb, s) {
        assert forall i :: 0 <= i < |u| ==> LetterOrDigitOrSpace(tb)(u[i]);
      }
    }
  }

  /**
    When the tables classify no surrogate (as the Unicode database does), a unit-wise
    "all" check that passes implies the code-point check passes too: the text then has
    no surrogates at all.
   */
  lemma UnitChecksImplyCodePointChecks(tb: CharTables, s: CharSeq)
    requires SurrogatesUnclassified(tb)
    ensures Alpha(tb, s) ==> IsAlphaCoverSupplementary(tb, s)
    ensures Numeric(tb, s) ==> IsNumericCoverSupplementary(tb, s)
    ensures AllLowerCase(tb, s) ==> IsAllLowerCaseCoverSupplementary(tb, s)
    ensures AllUpperCase(tb, s) ==> IsAllUpperCaseCoverSupplementary(tb, s)
    ensures SpaceOnly(tb, s) ==> IsSpaceCoverSupplementary(tb, s)
  {
    if s.Some? {
      var u := s.value;
      if Alpha(tb, s) || Numeric(tb, s) || AllLowerCase(tb, s) || AllUpperCase(tb, s) || SpaceOnly(tb, s) {
        assert NoSurrogates(u);
      }
    }
  }

  // ---------------------------------------------------------------- conversion

  /** The code units of a sequence, with null read as the empty sequence. */
  function Units(s: CharSeq): (u: Chars)
    ensures |u| == Length(s)
  {
    if s.None? then [] else s.value
  }

  /**
    toCharArray: the code units in a char array; null and the empty sequence give the
    shared empty array.
   */
  method ToCharArray(sequence: CharSeq) returns (a: array<CodeUnit>)
    ensures a.Length == Length(sequence)
    ensures a[..] == Units(sequence)
  {
    var length := Length(sequence);
    if length == 0 {
      a := new CodeUnit[0];
      return;
    }
    var s := sequence.value;
    a := new CodeUnit[length];
    for i := 0 to length
      invariant a[..i] == s[..i]
    {
      a[i] := s[i];
    }
    assert a[..] == a[..length];
  }
}
