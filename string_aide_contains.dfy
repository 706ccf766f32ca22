/**
  StringAide, third part: the contains family. contains and containsChar are indexOf
  asked whether it finds anything; containsIgnoreCase scans with regionMatches;
  containsAny/containsNone and containsAnyChar/containsNoneChar are pairs whose results
  are each other's negation; containsOnlyChars asks indexOfNotAnyChar.
 */
module StringAideContains {
  import opened JavaLang
  import opened Utf16
  import ArrayAide
  import CSA = CharSequenceAide
  import opened StringAide
  import Search = StringAideSearch

  // ---------------------------------------------------------------- contains

  /** contains: both arguments non-null and indexOf from 0 finds the search. */
  function Contains(sequence: CharSeq, search: CharSeq): (r: bool)
    ensures r <==> sequence.Some? && search.Some? && exists k :: CSA.OccursAt(sequence.value, search.value, k)
  {
    if sequence.None? || search.None? then false
    else
      var s, t := sequence.value, search.value;
      var found := CSA.IndexOf(s, t, 0);
      if t == [] then
        assert CSA.OccursAt(s, t, 0);
        found >= 0
      else found >= 0
  }

  /** containsIgnoreCase's question: both non-null and the search matches, ignoring case, at some start in the sequence. */
  predicate ContainsIgnoringCase(tb: CharTables, sequence: CharSeq, search: CharSeq) {
    sequence.Some? && search.Some? &&
    exists i :: 0 <= i <= |sequence.value| - |search.value| && Search.MatchesIgnoringCase(tb, sequence.value, search.value, i)
  }

  /** containsIgnoreCase: regionMatches at every start from 0 to length - |search|. */
  method ContainsIgnoreCase(tb: CharTables, sequence: CharSeq, search: CharSeq) returns (r: bool)
    ensures r == ContainsIgnoringCase(tb, sequence, search)
  {
    if sequence.None? || search.None? {
      return false;
    }
    var s, t := sequence.value, search.value;
    var searchLength := |t|;
    var i := 0;
    while i <= |s| - searchLength
      invariant 0 <= i
      invariant forall k :: 0 <= k < i ==> !Search.MatchesIgnoringCase(tb, s, t, k)
      decreases |s| - searchLength - i
    {
      var matches := CSA.RegionMatches(tb, true, s, i, t, 0, searchLength);
      if matches {
        assert Search.MatchesIgnoringCase(tb, s, t, i);
        return true;
      }
      i := i + 1;
    }
    return false;
  }

  /** containsIgnoreCase holds exactly when indexOfIgnoreCase from 0 finds the search. */
  lemma ContainsIgnoreCaseIsIndexOf(tb: CharTables, sequence: CharSeq, search: CharSeq)
    ensures ContainsIgnoringCase(tb, sequence, search) <==> Search.IgnoreCaseIndex(tb, sequence, search, 0) >= 0
  {
    if sequence.Some? && search.Some? {
      var s, t := sequence.value, search.value;
      var r := Search.IgnoreCaseIndex(tb, sequence, search, 0);
      if t == [] {
        assert Search.MatchesIgnoringCase(tb, s, t, 0);
      } else if r >= 0 {
        assert Search.MatchesIgnoringCase(tb, s, t, r);
      }
    }
  }

  /** What contains finds, containsIgnoreCase finds too. */
  lemma ContainsImpliesContainsIgnoreCase(tb: CharTables, sequence: CharSeq, search: CharSeq)
    ensures Contains(sequence, search) ==> ContainsIgnoringCase(tb, sequence, search)
  {
    if Contains(sequence, search) {
      var s, t := sequence.value, search.value;
      var k :| CSA.OccursAt(s, t, k);
      CSA.RegionMatchCaseSensitive(tb, s, k, t, 0, |t|);
      assert t[0..|t|] == t;
      CSA.RegionMatchFolding(tb, s, k, t, 0, |t|);
      assert Search.MatchesIgnoringCase(tb, s, t, k);
    }
  }

  // ---------------------------------------------------------------- containsAny and containsNone

  /** containsAny's question: a non-null sequence, a non-empty array, and some element of it contained. */
  predicate AnyContained(sequence: CharSeq, searches: Option<seq<CharSeq>>) {
    sequence.Some? && !ArrayAide.IsEmpty(searches) &&
    exists i :: 0 <= i < |searches.value| && Contains(sequence, searches.value[i])
  }

  /** containsNone's question: a null sequence or array, or no element of the array contained. */
  predicate NoneContained(sequence: CharSeq, searches: Option<seq<CharSeq>>) {
    sequence.None? || searches.None? ||
    forall i :: 0 <= i < |searches.value| ==> !Contains(sequence, searches.value[i])
  }

  /** containsAny: the loop over the array, stopping at the first contained element. */
  method ContainsAny(sequence: CharSeq, searches: Option<seq<CharSeq>>) returns (r: bool)
    ensures r == AnyContained(sequence, searches)
  {
    if sequence.None? || ArrayAide.IsEmpty(searches) {
      return false;
    }
    var xs := searches.value;
    for i := 0 to |xs|
      invariant forall k :: 0 <= k < i ==> !Contains(sequence, xs[k])
    {
      if Contains(sequence, xs[i]) {
        return true;
      }
    }
    return false;
  }

  /** containsNone: the loop over the array, failing at the first contained element. */
  method ContainsNone(sequence: CharSeq, searches: Option<seq<CharSeq>>) returns (r: bool)
    ensures r == NoneContained(sequence, searches)
  {
    if sequence.None? || searches.None? {
      return true;
    }
    var xs := searches.value;
    for i := 0 to |xs|
      invariant forall k :: 0 <= k < i ==> !Contains(sequence, xs[k])
    {
      if Contains(sequence, xs[i]) {
        return false;
      }
    }
    return true;
  }

  /** containsNone is the negation of containsAny on every input, nulls and empty arrays included. */
  lemma ContainsNoneIsNotContainsAny(sequence: CharSeq, searches: Option<seq<CharSeq>>)
    ensures NoneContained(sequence, searches) <==> !AnyContained(sequence, searches)
  {
  }

  /** containsAnyIgnoreCase's question: as containsAny, with containsIgnoreCase for each element. */
  predicate AnyContainedIgnoringCase(tb: CharTables, sequence: CharSeq, searches: Option<seq<CharSeq>>) {
    sequence.Some? && !ArrayAide.IsEmpty(searches) &&
    exists i :: 0 <= i < |searches.value| && ContainsIgnoringCase(tb, sequence, searches.value[i])
  }

  /** containsNoneIgnoreCase's question: as containsNone, with containsIgnoreCase for each element. */
  predicate NoneContainedIgnoringCase(tb: CharTables, sequence: CharSeq, searches: Option<seq<CharSeq>>) {
    sequence.None? || searches.None? ||
    forall i :: 0 <= i < |searches.value| ==> !ContainsIgnoringCase(tb, sequence, searches.value[i])
  }

  /** containsAnyIgnoreCase: the loop over the array with containsIgnoreCase. */
  method ContainsAnyIgnoreCase(tb: CharTables, sequence: CharSeq, searches: Option<seq<CharSeq>>) returns (r: bool)
    ensures r == AnyContainedIgnoringCase(tb, sequence, searches)
  {
    if sequence.None? || ArrayAide.IsEmpty(searches) {
      return false;
    }
    var xs := searches.value;
    for i := 0 to |xs|
      invariant forall k :: 0 <= k < i ==> !ContainsIgnoringCase(tb, sequence, xs[k])
    {
      var found := ContainsIgnoreCase(tb, sequence, xs[i]);
      if found {
        return true;
      }
    }
    return false;
  }

  /** containsNoneIgnoreCase: the loop over the array with containsIgnoreCase. */
  method ContainsNoneIgnoreCase(tb: CharTables, sequence: CharSeq, searches: Option<seq<CharSeq>>) returns (r: bool)
    ensures r == NoneContainedIgnoringCase(tb, sequence, searches)
  {
    if sequence.None? || searches.None? {
      return true;
    }
    var xs := searches.value;
    for i := 0 to |xs|
      invariant forall k :: 0 <= k < i ==> !ContainsIgnoringCase(tb, sequence, xs[k])
    {
      var found := ContainsIgnoreCase(tb, sequence, xs[i]);
      if found {
        return false;
      }
    }
    return true;
  }

  /**
    containsNoneIgnoreCase is the negation of containsAnyIgnoreCase, and containsAny
    implies containsAnyIgnoreCase.
   */
  lemma IgnoreCaseVarargsRelations(tb: CharTables, sequence: CharSeq, searches: Option<seq<CharSeq>>)
    ensures NoneContainedIgnoringCase(tb, sequence, searches) <==> !AnyContainedIgnoringCase(tb, sequence, searches)
    ensures AnyContained(sequence, searches) ==> AnyContainedIgnoringCase(tb, sequence, searches)
  {
    if AnyContained(sequence, searches) {
      var i :| 0 <= i < |searches.value| && Contains(sequence, searches.value[i]);
      ContainsImpliesContainsIgnoreCase(tb, sequence, searches.value[i]);
    }
  }

  // ---------------------------------------------------------------- containsChar

  /**
    containsChar (a char argument is widened to int): false for a null or empty
    sequence, otherwise whether the code-point search from 0 finds the character.
   */
  function ContainsChar(sequence: CharSeq, searchChar: int): (r: bool)
    ensures searchChar < MIN_SUPPLEMENTARY_CODE_POINT ==>
      (r <==> sequence.Some? && exists k :: 0 <= k < |sequence.value| && sequence.value[k] == searchChar)
    ensures IsSupplementary(searchChar) ==>
      (r <==> sequence.Some? && exists k :: CSA.PairAt(sequence.value, searchChar, k))
    ensures searchChar > MAX_CODE_POINT ==> !r
  {
    if IsEmpty(sequence) then false
    else
      var s := sequence.value;
      PairFound(s, searchChar);
      CSA.CodePointIndex(s, searchChar, 0, |s|) >= 0
  }

  /** A surrogate pair anywhere in the sequence is found by the code-point search over all of it. */
  lemma PairFound(s: Chars, cp: int)
    ensures (exists k :: CSA.PairAt(s, cp, k)) ==> CSA.CodePointIndex(s, cp, 0, |s|) >= 0
  {
    if exists k :: CSA.PairAt(s, cp, k) {
      var k :| CSA.PairAt(s, cp, k);
      assert k + 1 < |s|;
    }
  }

  /** containsChar holds exactly when indexOfChar over the whole sequence finds the character. */
  lemma ContainsCharIsIndexOfChar(sequence: CharSeq, searchChar: int)
    ensures ContainsChar(sequence, searchChar) <==> Search.IndexOfChar(sequence, searchChar, 0, Length(sequence)) >= 0
  {
  }

  // ---------------------------------------------------------------- containsAnyChar and containsNoneChar

  /**
    Unit i of the sequence is hit by entry j of the char[] set: they are equal, and a
    high surrogate also needs entry j + 1 to equal unit i + 1, unless j is the last
    entry. A high surrogate at the end of the sequence is hit only by a last entry.
   */
  predicate HitAt(s: Chars, searches: seq<int>, i: int, j: int) {
    0 <= i < |s| && 0 <= j < |searches| && searches[j] == s[i] &&
    (!IsHighSurrogate(s[i]) || j == |searches| - 1 || (i < |s| - 1 && searches[j + 1] == s[i + 1]))
  }

  /** Some unit of the sequence is hit by some entry of the set. */
  predicate SomeHit(s: Chars, searches: seq<int>) {
    exists i :: 0 <= i < |s| && HitIn(s, searches, i)
  }

  /** Unit i of the sequence is hit by some entry of the set. */
  predicate HitIn(s: Chars, searches: seq<int>, i: int) {
    exists j :: 0 <= j < |searches| && HitAt(s, searches, i, j)
  }

  /** containsAnyChar(sequence, char[])'s question: both non-empty and some unit is hit. */
  predicate AnyCharIn(sequence: CharSeq, searches: Option<seq<int>>) {
    !IsEmpty(sequence) && !ArrayAide.IsEmpty(searches) && SomeHit(sequence.value, searches.value)
  }

  /** containsNoneChar(sequence, char[])'s question: either is null, or no unit is hit. */
  predicate NoCharIn(sequence: CharSeq, searches: Option<seq<int>>) {
    sequence.None? || searches.None? || !SomeHit(sequence.value, searches.value)
  }

  /** The double loop shared by containsAnyChar and containsNoneChar: whether some unit is hit. */
  method FindHit(s: Chars, searches: seq<int>) returns (found: bool)
    ensures found == SomeHit(s, searches)
  {
    var sequenceLength := |s|;
    var searchLength := |searches|;
    var sequenceLast := sequenceLength - 1;
    var searchLast := searchLength - 1;
    for i := 0 to sequenceLength
      invariant forall i' :: 0 <= i' < i ==> !HitIn(s, searches, i')
    {
      var ch := s[i];
      for j := 0 to searchLength
        invariant forall j' :: 0 <= j' < j ==> !HitAt(s, searches, i, j')
      {
        if searches[j] == ch {
          if !IsHighSurrogate(ch) {
            assert HitAt(s, searches, i, j) && HitIn(s, searches, i);
            return true;
          }
          if j == searchLast {
            assert HitAt(s, searches, i, j) && HitIn(s, searches, i);
            return true;
          }
          if i < sequenceLast && searches[j + 1] == s[i + 1] {
            assert HitAt(s, searches, i, j) && HitIn(s, searches, i);
            return true;
          }
        }
      }
    }
    return false;
  }

  /** containsAnyChar(sequence, char[]): false for empty input, otherwise the double loop. */
  method ContainsAnyChar(sequence: CharSeq, searches: Option<seq<int>>) returns (r: bool)
    ensures r == AnyCharIn(sequence, searches)
  {
    if IsEmpty(sequence) || ArrayAide.IsEmpty(searches) {
      return false;
    }
    r := FindHit(sequence.value, searches.value);
  }

  /** containsNoneChar(sequence, char[]): true for null input, otherwise the double loop negated. */
  method ContainsNoneChar(sequence: CharSeq, searches: Option<seq<int>>) returns (r: bool)
    ensures r == NoCharIn(sequence, searches)
  {
    if sequence.None? || searches.None? {
      return true;
    }
    var found := FindHit(sequence.value, searches.value);
    r := !found;
  }

  /** containsNoneChar(char[]) is the negation of containsAnyChar(char[]) on every input. */
  lemma ContainsNoneCharIsNotContainsAnyChar(sequence: CharSeq, searches: Option<seq<int>>)
    ensures NoCharIn(sequence, searches) <==> !AnyCharIn(sequence, searches)
  {
  }

  /** Text without surrogates is hit exactly where one of its units is in the set. */
  lemma HitOnBmpIsMembership(s: Chars, searches: seq<int>)
    requires NoSurrogates(s)
    ensures SomeHit(s, searches) <==> exists i :: 0 <= i < |s| && s[i] in searches
  {
    if exists i :: 0 <= i < |s| && s[i] in searches {
      var i :| 0 <= i < |s| && s[i] in searches;
      var j :| 0 <= j < |searches| && searches[j] == s[i];
      assert HitAt(s, searches, i, j) && HitIn(s, searches, i);
    }
    if SomeHit(s, searches) {
      var i :| 0 <= i < |s| && HitIn(s, searches, i);
      var j :| 0 <= j < |searches| && HitAt(s, searches, i, j);
      assert s[i] in searches;
    }
  }

  /** The code-point test of the int[] forms: is the code point one of the array's entries. */
  function InCodePoints(codepoints: seq<int>): int -> bool {
    cp => cp in codepoints
  }

  /** containsAnyChar(sequence, int[])'s question: both non-empty and some code point of the sequence is in the array. */
  predicate AnyCodePointIn(sequence: CharSeq, codepoints: Option<seq<int>>) {
    !IsEmpty(sequence) && !ArrayAide.IsEmpty(codepoints) &&
    AnyMatch(CodePoints(sequence.value), InCodePoints(codepoints.value))
  }

  /** containsNoneChar(sequence, int[])'s question: either is null, or no code point of the sequence is in the array. */
  predicate NoCodePointIn(sequence: CharSeq, codepoints: Option<seq<int>>) {
    sequence.None? || codepoints.None? ||
    !AnyMatch(CodePoints(sequence.value), InCodePoints(codepoints.value))
  }

  /** The lambda of the int[] forms: the loop over the array comparing each entry with the code point. */
  method IsCodePointIn(codepoints: seq<int>, cp: int) returns (r: bool)
    ensures r <==> cp in codepoints
  {
    for j := 0 to |codepoints|
      invariant forall k :: 0 <= k < j ==> codepoints[k] != cp
    {
      if cp == codepoints[j] {
        return true;
      }
    }
    return false;
  }

  /** codePoints().anyMatch(...) over the decoded sequence. */
  method AnyCodePointMatch(s: Chars, codepoints: seq<int>) returns (r: bool)
    ensures r == AnyMatch(CodePoints(s), InCodePoints(codepoints))
  {
    var cps := CodePoints(s);
    var test := InCodePoints(codepoints);
    for i := 0 to |cps|
      invariant forall k :: 0 <= k < i ==> !test(cps[k])
    {
      var found := IsCodePointIn(codepoints, cps[i]);
      if found {
        return true;
      }
    }
    return false;
  }

  /** containsAnyChar(sequence, int[]): false for empty input, otherwise anyMatch over the code points. */
  method ContainsAnyCodePoint(sequence: CharSeq, codepoints: Option<seq<int>>) returns (r: bool)
    ensures r == AnyCodePointIn(sequence, codepoints)
  {
    if IsEmpty(sequence) || ArrayAide.IsEmpty(codepoints) {
      return false;
    }
    r := AnyCodePointMatch(sequence.value, codepoints.value);
  }

  /** containsNoneChar(sequence, int[]): true for null input, otherwise noneMatch over the code points. */
  method ContainsNoneCodePoint(sequence: CharSeq, codepoints: Option<seq<int>>) returns (r: bool)
    ensures r == NoCodePointIn(sequence, codepoints)
  {
    if sequence.None? || codepoints.None? {
      return true;
    }
    var found := AnyCodePointMatch(sequence.value, codepoints.value);
    r := !found;
  }

  /** containsNoneChar(int[]) is the negation of containsAnyChar(int[]) on every input. */
  lemma ContainsNoneCodePointIsNotContainsAnyCodePoint(sequence: CharSeq, codepoints: Option<seq<int>>)
    ensures NoCodePointIn(sequence, codepoints) <==> !AnyCodePointIn(sequence, codepoints)
  {
  }

  /** On text without surrogates the char[] and the int[] forms of containsAnyChar agree. */
  lemma AnyCharFormsAgreeOnBmp(sequence: CharSeq, searches: Option<seq<int>>)
    requires sequence.Some? ==> NoSurrogates(sequence.value)
    ensures AnyCharIn(sequence, searches) <==> AnyCodePointIn(sequence, searches)
  {
    if !IsEmpty(sequence) && !ArrayAide.IsEmpty(searches) {
      var s, xs := sequence.value, searches.value;
      BmpDecodesUnitwise(sequence);
      HitOnBmpIsMembership(s, xs);
      var test := InCodePoints(xs);
      assert forall c :: test(c) == (c in xs);
      if AnyMatch(CodePoints(s), test) {
        var i :| 0 <= i < |s| && test(s[i]);
        assert s[i] in xs;
      }
    }
  }

  /** containsAnyChar(sequence, CharSequence): false for a null set, otherwise the char[] form over its units. */
  method ContainsAnyCharOf(sequence: CharSeq, searchChars: CharSeq) returns (r: bool)
    ensures searchChars.None? ==> !r
    ensures searchChars.Some? ==> r == AnyCharIn(sequence, Some(searchChars.value))
  {
    if searchChars.None? {
      return false;
    }
    var chars := ToCharArray(searchChars);
    r := ContainsAnyChar(sequence, Some(chars[..]));
  }

  /** containsNoneChar(sequence, CharSequence): true for a null set, otherwise the char[] form over its units. */
  method ContainsNoneCharOf(sequence: CharSeq, invalidChars: CharSeq) returns (r: bool)
    ensures invalidChars.None? ==> r
    ensures invalidChars.Some? ==> r == !AnyCharIn(sequence, Some(invalidChars.value))
  {
    if invalidChars.None? {
      return true;
    }
    var chars := ToCharArray(invalidChars);
    r := ContainsNoneChar(sequence, Some(chars[..]));
    ContainsNoneCharIsNotContainsAnyChar(sequence, Some(chars[..]));
  }

  // ---------------------------------------------------------------- containsOnlyChars

  /**
    containsOnlyChars(sequence, char[]): false when either is null; otherwise every unit
    of the sequence is covered by the set, in the sense of indexOfNotAnyChar (so an
    empty sequence qualifies and a non-empty one with an empty set does not).
   */
  function OnlyChars(sequence: CharSeq, validChars: Option<seq<int>>): (r: bool)
    ensures sequence.None? || validChars.None? ==> !r
    ensures sequence.Some? && validChars.Some? ==>
      (r <==> forall i :: 0 <= i < |sequence.value| ==> Search.Covered(sequence.value, validChars.value, |sequence.value|, i))
  {
    if sequence.None? || validChars.None? then false
    else if sequence.value == [] then true
    else if validChars.value == [] then
      assert !Search.Covered(sequence.value, validChars.value, |sequence.value|, 0);
      false
    else Search.NotAnyIndex(sequence, validChars, 0, Length(sequence)) == Search.INDEX_NOT_FOUND
  }

  /**
    containsOnlyChars(sequence, int[]): false when either is null or the array is empty;
    true for an empty sequence without looking at the array; otherwise the int[] form of
    indexOfNotAnyChar, which throws IllegalArgumentException for an invalid code point.
   */
  function OnlyCodePoints(sequence: CharSeq, codepoints: Option<seq<int>>): (r: Result<bool>)
    ensures sequence.None? || ArrayAide.IsEmpty(codepoints) ==> r == Ok(false)
    ensures sequence.Some? && !ArrayAide.IsEmpty(codepoints) && sequence.value == [] ==> r == Ok(true)
    ensures r.Throws? ==> (r.ex == IllegalArgumentException &&
      sequence.Some? && sequence.value != [] &&
      exists i :: 0 <= i < |codepoints.value| && !IsValidCodePoint(codepoints.value[i]))
    ensures r.Ok? && sequence.Some? && sequence.value != [] && !ArrayAide.IsEmpty(codepoints) ==>
      (forall i :: 0 <= i < |codepoints.value| ==> IsValidCodePoint(codepoints.value[i])) &&
      (r.value <==> forall i :: 0 <= i < |sequence.value| ==>
        Search.Covered(sequence.value, Encode(codepoints.value), |sequence.value|, i))
  {
    if sequence.None? || codepoints.None? || |codepoints.value| == 0 then Ok(false)
    else if sequence.value == [] then Ok(true)
    else
      var index := Search.NotAnyCodePointIndex(sequence, codepoints, 0, Length(sequence));
      if index.Throws? then Throws(index.ex)
      else
        var units := Encode(codepoints.value);
        assert sequence == Some(sequence.value) && Length(sequence) == |sequence.value|;
        assert index.value == Search.NotAnyIndex(Some(sequence.value), Some(units), 0, |sequence.value|);
        assert |units| >= |codepoints.value| > 0;
        Search.NotAnyOverAll(sequence.value, units);
        assert (index.value == Search.INDEX_NOT_FOUND) <==>
          forall i :: 0 <= i < |sequence.value| ==> Search.Covered(sequence.value, units, |sequence.value|, i);
        assert units == Encode(codepoints.value);
        var only := index.value == Search.INDEX_NOT_FOUND;
        assert only <==> forall i :: 0 <= i < |sequence.value| ==>
          Search.Covered(sequence.value, Encode(codepoints.value), |sequence.value|, i);
        Ok(only)
  }

  /** containsOnlyChars(sequence, CharSequence): false when either is null, otherwise the char[] form over the set's units. */
  method ContainsOnlyCharsOf(sequence: CharSeq, validChars: CharSeq) returns (r: bool)
    ensures sequence.None? || validChars.None? ==> !r
    ensures sequence.Some? && validChars.Some? ==>
      (r <==> forall i :: 0 <= i < |sequence.value| ==> Search.Covered(sequence.value, validChars.value, |sequence.value|, i))
  {
    if sequence.None? || validChars.None? {
      return false;
    }
    var chars := ToCharArray(validChars);
    r := OnlyChars(sequence, Some(chars[..]));
  }

  /**
    The char[] and int[] forms of containsOnlyChars disagree on an empty sequence with an
    empty set: the char[] form answers true, the int[] form false. The int[] form also
    accepts an invalid code point when the sequence is empty, and throws otherwise.
   */
  lemma OnlyCharsFormsDisagree()
    ensures OnlyChars(Some([]), Some([]))
    ensures OnlyCodePoints(Some([]), Some([])) == Ok(false)
    ensures OnlyCodePoints(Some([]), Some([-1])) == Ok(true)
    ensures OnlyCodePoints(Some([0x41]), Some([-1])) == Throws(IllegalArgumentException)
  {
    assert !IsValidCodePoint(-1);
  }
}
