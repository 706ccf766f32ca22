/**
  TmpStringContains: range-bounded forms of contains and containsIgnoreCase. contains
  hands over to the indexOf engine; containsIgnoreCase scans with regionMatches, the
  four-argument form after clamping the range and cutting the sequence at its end.
 */
module TmpStringContains {
  import opened JavaLang
  import CSA = CharSequenceAide
  import Search = StringAideSearch
  import StringAide
  import StringAideContains

  // ---------------------------------------------------------------- contains

  /**
    contains(sequence, search, beginIndex): false when either is null; an empty search is
    always contained; otherwise some occurrence starts at or after beginIndex.
   */
  function ContainsFrom(sequence: CharSeq, search: CharSeq, beginIndex: int): (r: bool)
    ensures r <==> (sequence.Some? && search.Some? &&
      (search.value == [] || exists k :: beginIndex <= k && CSA.OccursAt(sequence.value, search.value, k)))
  {
    if sequence.None? || search.None? then false
    else CSA.IndexOf(sequence.value, search.value, beginIndex) >= 0
  }

  /**
    contains(sequence, search, beginIndex, endIndex): false when either is null;
    otherwise some occurrence lies wholly inside the range [beginIndex, endIndex) of the
    sequence.
   */
  function ContainsBetween(sequence: CharSeq, search: CharSeq, beginIndex: int, endIndex: int): (r: bool)
    ensures r <==> (sequence.Some? && search.Some? &&
      exists k :: beginIndex <= k < endIndex && k < |sequence.value| && k + |search.value| <= endIndex &&
        CSA.OccursAt(sequence.value, search.value, k))
  {
    if sequence.None? || search.None? then false
    else
      var s, t := sequence.value, search.value;
      var found := CSA.IndexOfRange(s, t, beginIndex, endIndex);
      EmptyInRange(s, t, beginIndex, endIndex);
      found >= 0
  }

  /** An empty search inside a non-empty range is found by the range-bounded indexOf. */
  lemma EmptyInRange(s: Chars, t: Chars, beginIndex: int, endIndex: int)
    ensures t == [] && (exists k :: beginIndex <= k < endIndex && k < |s| && CSA.OccursAt(s, t, k)) ==>
      CSA.IndexOfRange(s, t, beginIndex, endIndex) >= 0
  {
    if t == [] && exists k :: beginIndex <= k < endIndex && k < |s| && CSA.OccursAt(s, t, k) {
      var b := if beginIndex < 0 then 0 else beginIndex;
      var e := if endIndex > |s| then |s| else endIndex;
      assert b < e;
      assert CSA.OccursAt(s[..e], t, b);
    }
  }

  /**
    The two-argument contains is the three-argument one from 0, and for a non-empty search
    the four-argument one over the whole sequence.
   */
  lemma ContainsOverloads(sequence: CharSeq, search: CharSeq)
    ensures StringAideContains.Contains(sequence, search) == ContainsFrom(sequence, search, 0)
    ensures search.Some? && search.value != [] ==>
      StringAideContains.Contains(sequence, search) == ContainsBetween(sequence, search, 0, StringAide.Length(sequence))
  {
    if sequence.Some? && search.Some? && search.value == [] {
      assert CSA.OccursAt(sequence.value, search.value, 0);
    }
    if sequence.Some? && search.Some? && search.value != [] && StringAideContains.Contains(sequence, search) {
      var k :| CSA.OccursAt(sequence.value, search.value, k);
      assert k < |sequence.value|;
    }
  }

  // ---------------------------------------------------------------- containsIgnoreCase

  /**
    containsIgnoreCase(sequence, search, beginIndex)'s question: both non-null and the
    search matches ignoring case at some i from beginIndex to length - |search| (a
    negative i never matches, so a negative beginIndex acts as 0).
   */
  predicate ContainsIgnoringCaseFrom(tb: CharTables, sequence: CharSeq, search: CharSeq, beginIndex: int) {
    sequence.Some? && search.Some? &&
    exists i :: beginIndex <= i <= |sequence.value| - |search.value| &&
      Search.MatchesIgnoringCase(tb, sequence.value, search.value, i)
  }

  /** containsIgnoreCase(sequence, search, beginIndex): regionMatches at every i from beginIndex to endLimit. */
  method ContainsIgnoreCaseFrom(tb: CharTables, sequence: CharSeq, search: CharSeq, beginIndex: int) returns (r: bool)
    ensures r == ContainsIgnoringCaseFrom(tb, sequence, search, beginIndex)
  {
    if sequence.None? || search.None? {
      return false;
    }
    var s, t := sequence.value, search.value;
    var searchLength := |t|;
    var endLimit := |s| - searchLength;
    var i := beginIndex;
    while i <= endLimit
      invariant forall k :: beginIndex <= k < i ==> !Search.MatchesIgnoringCase(tb, s, t, k)
      invariant beginIndex <= i
      decreases endLimit - i
    {
      var matches := CSA.RegionMatches(tb, true, s, i, t, 0, searchLength);
      if matches {
        assert Search.MatchesIgnoringCase(tb, s, t, i);
        return true;
      }
      i := i + 1;
    }
    return false;
  }

  /** containsIgnoreCase(sequence, search): the three-argument form from 0. */
  method ContainsIgnoreCase(tb: CharTables, sequence: CharSeq, search: CharSeq) returns (r: bool)
    ensures r == StringAideContains.ContainsIgnoringCase(tb, sequence, search)
  {
    r := ContainsIgnoreCaseFrom(tb, sequence, search, 0);
  }

  /** A negative beginIndex gives the same answer as 0: regionMatches refuses negative offsets. */
  lemma NegativeBeginActsAsZero(tb: CharTables, sequence: CharSeq, search: CharSeq, beginIndex: int)
    requires beginIndex < 0
    ensures ContainsIgnoringCaseFrom(tb, sequence, search, beginIndex) == ContainsIgnoringCaseFrom(tb, sequence, search, 0)
  {
  }

  /**
    containsIgnoreCase(sequence, search, beginIndex, endIndex)'s question, in the terms of
    the code: beginIndex raised to 0, endIndex lowered to the length, false when the range
    is inverted; then regionMatches at every i from beginIndex to
    min(length - |search|, endIndex) against the sequence cut at endIndex.
   */
  predicate ContainsIgnoringCaseBetween(tb: CharTables, sequence: CharSeq, search: CharSeq, beginIndex: int, endIndex: int) {
    sequence.Some? && search.Some? &&
    var n := |sequence.value|;
    var b := Search.Max(beginIndex, 0);
    var e := Search.Min(endIndex, n);
    b <= e &&
    var endLimit := Search.Min(n - |search.value|, e);
    exists i :: b <= i <= endLimit && Search.MatchesIgnoringCase(tb, CutAt(sequence.value, e), search.value, i)
  }

  /** The sequence as the four-argument containsIgnoreCase sees it: cut at e when e is inside it. */
  function CutAt(s: Chars, e: int): (cut: Chars)
    requires 0 <= e <= |s|
    ensures cut == s[..e]
  {
    if e < |s| then s[..e] else s
  }

  /** containsIgnoreCase(sequence, search, beginIndex, endIndex): clamps, cuts the sequence, then scans. */
  method ContainsIgnoreCaseBetween(tb: CharTables, sequence: CharSeq, search: CharSeq, beginIndex: int, endIndex: int)
    returns (r: bool)
    ensures r == ContainsIgnoringCaseBetween(tb, sequence, search, beginIndex, endIndex)
  {
    if sequence.None? || search.None? {
      return false;
    }
    var s, t := sequence.value, search.value;
    var sequenceLength := |s|;
    var begin, end := beginIndex, endIndex;
    if begin < 0 {
      begin := 0;
    }
    if end > sequenceLength {
      end := sequenceLength;
    }
    if end < begin {
      return false;
    }
    var searchLength := |t|;
    var endLimit := Search.Min(sequenceLength - searchLength, end);
    if end < sequenceLength {
      s := s[..end];
    }
    assert begin == Search.Max(beginIndex, 0) && end == Search.Min(endIndex, sequenceLength);
    assert s == CutAt(sequence.value, end);
    var i := begin;
    while i <= endLimit
      invariant begin <= i
      invariant forall k :: begin <= k < i ==> !Search.MatchesIgnoringCase(tb, s, t, k)
      decreases endLimit - i
    {
      var matches := CSA.RegionMatches(tb, true, s, i, t, 0, searchLength);
      if matches {
        assert Search.MatchesIgnoringCase(tb, s, t, i);
        assert begin <= i <= endLimit;
        return true;
      }
      i := i + 1;
    }
    return false;
  }

  /**
    What the four-argument containsIgnoreCase reports is a match lying wholly inside the
    clamped range: it holds exactly when the search matches ignoring case at some i with
    max(beginIndex, 0) <= i and i + |search| <= min(endIndex, length).
   */
  lemma ContainsIgnoreCaseBetweenInsideRange(tb: CharTables, sequence: CharSeq, search: CharSeq, beginIndex: int, endIndex: int)
    ensures ContainsIgnoringCaseBetween(tb, sequence, search, beginIndex, endIndex) <==>
      sequence.Some? && search.Some? &&
      exists i :: Search.Max(beginIndex, 0) <= i && i + |search.value| <= Search.Min(endIndex, |sequence.value|) &&
        Search.MatchesIgnoringCase(tb, sequence.value, search.value, i)
  {
    if sequence.Some? && search.Some? {
      var s, t := sequence.value, search.value;
      var n := |s|;
      var b := Search.Max(beginIndex, 0);
      var e := Search.Min(endIndex, n);
      if b <= e {
        var endLimit := Search.Min(n - |t|, e);
        var cut := CutAt(s, e);
        if exists i :: b <= i <= endLimit && Search.MatchesIgnoringCase(tb, cut, t, i) {
          var i :| b <= i <= endLimit && Search.MatchesIgnoringCase(tb, cut, t, i);
          Search.PrefixRegionMatch(tb, s, e, t);
        }
        if exists i :: b <= i && i + |t| <= e && Search.MatchesIgnoringCase(tb, s, t, i) {
          var i :| b <= i && i + |t| <= e && Search.MatchesIgnoringCase(tb, s, t, i);
          Search.PrefixRegionMatch(tb, s, e, t);
          assert b <= i <= endLimit && Search.MatchesIgnoringCase(tb, cut, t, i);
          assert ContainsIgnoringCaseBetween(tb, sequence, search, beginIndex, endIndex);
        }
      }
    }
  }

  /** With an empty search and a non-inverted clamped range, the four-argument containsIgnoreCase holds. */
  lemma EmptySearchInRange(tb: CharTables, sequence: CharSeq, beginIndex: int, endIndex: int)
    requires sequence.Some?
    requires Search.Max(beginIndex, 0) <= Search.Min(endIndex, |sequence.value|)
    ensures ContainsIgnoringCaseBetween(tb, sequence, Some([]), beginIndex, endIndex)
  {
    var b := Search.Max(beginIndex, 0);
    assert Search.MatchesIgnoringCase(tb, sequence.value, [], b);
    ContainsIgnoreCaseBetweenInsideRange(tb, sequence, Some([]), beginIndex, endIndex);
  }

  /** Over the whole sequence the four-argument containsIgnoreCase is the three-argument one from 0. */
  lemma WholeRangeIsFromZero(tb: CharTables, sequence: CharSeq, search: CharSeq)
    ensures ContainsIgnoringCaseBetween(tb, sequence, search, 0, StringAide.Length(sequence)) ==
      ContainsIgnoringCaseFrom(tb, sequence, search, 0)
  {
    ContainsIgnoreCaseBetweenInsideRange(tb, sequence, search, 0, StringAide.Length(sequence));
  }
}
