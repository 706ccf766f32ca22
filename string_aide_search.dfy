/**
  StringAide, second part: the searches. indexOf and indexOfChar hand over to the
  engine in CharSequenceAide; indexOfIgnoreCase scans with regionMatches; indexOfAny
  keeps a running minimum over several needles; indexOfAnyChar stops at the first needle
  that is found; indexOfNotAnyChar finds the first unit outside a set.
 */
module StringAideSearch {
  import opened JavaLang
  import opened Utf16
  import ArrayAide
  import CSA = CharSequenceAide
  import opened StringAide

  /** StringAide.INDEX_NOT_FOUND. */
  const INDEX_NOT_FOUND: int := CSA.NOT_FOUND

  /** The larger of two integers (Math.max). */
  function Max(a: int, b: int): int {
    if a < b then b else a
  }

  /** The smaller of two integers (Math.min). */
  function Min(a: int, b: int): int {
    if a < b then a else b
  }

  // ---------------------------------------------------------------- indexOf

  /**
    indexOf(sequence, search, beginIndex), and with beginIndex 0 the two-argument form:
    -1 when either argument is null, otherwise the first occurrence at or after beginIndex.
   */
  function IndexOf(sequence: CharSeq, search: CharSeq, beginIndex: int): (r: int)
    ensures sequence.None? || search.None? ==> r == INDEX_NOT_FOUND
    ensures r >= 0 ==> sequence.Some? && search.Some? && CSA.OccursAt(sequence.value, search.value, r)
    ensures r >= 0 ==> forall k :: beginIndex <= k < r ==> !CSA.OccursAt(sequence.value, search.value, k)
    ensures sequence.Some? && search.Some? && search.value != [] ==>
      (r == INDEX_NOT_FOUND <==> forall k :: beginIndex <= k ==> !CSA.OccursAt(sequence.value, search.value, k))
  {
    if sequence.None? || search.None? then INDEX_NOT_FOUND
    else CSA.IndexOf(sequence.value, search.value, beginIndex)
  }

  /**
    indexOf(sequence, search, beginIndex, endIndex): -1 when either argument is null,
    otherwise the first occurrence lying wholly inside [beginIndex, endIndex).
   */
  function IndexOfBetween(sequence: CharSeq, search: CharSeq, beginIndex: int, endIndex: int): (r: int)
    ensures sequence.None? || search.None? ==> r == INDEX_NOT_FOUND
    ensures r >= INDEX_NOT_FOUND
    ensures r >= 0 ==> (sequence.Some? && search.Some? && beginIndex <= r &&
      r + |search.value| <= endIndex && CSA.OccursAt(sequence.value, search.value, r))
    ensures r >= 0 ==> forall k :: beginIndex <= k < r ==> !CSA.OccursAt(sequence.value, search.value, k)
    ensures r == INDEX_NOT_FOUND && sequence.Some? && search.Some? ==>
      forall k :: beginIndex <= k < endIndex && k < |sequence.value| && k + |search.value| <= endIndex ==>
        !CSA.OccursAt(sequence.value, search.value, k)
  {
    if sequence.None? || search.None? then INDEX_NOT_FOUND
    else CSA.IndexOfRange(sequence.value, search.value, beginIndex, endIndex)
  }

  // ---------------------------------------------------------------- indexOfIgnoreCase

  /** `t` matches `s` at k, ignoring case (regionMatches with ignoreCase set). */
  predicate MatchesIgnoringCase(tb: CharTables, s: Chars, t: Chars, k: int) {
    CSA.RegionMatch(tb, true, s, k, t, 0, |t|)
  }

  /**
    indexOfIgnoreCase(sequence, search, beginIndex): null gives -1 and a negative
    beginIndex counts as 0. With endLimit = length - |search| + 1, a beginIndex past
    endLimit gives -1, an empty search is found at beginIndex itself (so possibly one
    past the end), and otherwise the result is the least i in [beginIndex, endLimit)
    where the search matches ignoring case, or -1.
   */
  function IgnoreCaseIndex(tb: CharTables, sequence: CharSeq, search: CharSeq, beginIndex: int): (r: int)
    ensures sequence.None? || search.None? ==> r == INDEX_NOT_FOUND
    ensures r == INDEX_NOT_FOUND || (0 <= r && beginIndex <= r)
    ensures r >= 0 && search.value != [] ==>
      MatchesIgnoringCase(tb, sequence.value, search.value, r) &&
      forall k :: beginIndex <= k < r ==> !MatchesIgnoringCase(tb, sequence.value, search.value, k)
    ensures sequence.Some? && search.Some? && search.value != [] && r == INDEX_NOT_FOUND ==>
      forall k :: beginIndex <= k ==> !MatchesIgnoringCase(tb, sequence.value, search.value, k)
    ensures sequence.Some? && search.Some? && search.value == [] ==>
      r == (if Max(beginIndex, 0) <= |sequence.value| + 1 then Max(beginIndex, 0) else INDEX_NOT_FOUND)
  {
    if sequence.None? || search.None? then INDEX_NOT_FOUND
    else
      var s, t := sequence.value, search.value;
      var begin := Max(beginIndex, 0);
      var endLimit := |s| - |t| + 1;
      if begin > endLimit then INDEX_NOT_FOUND
      else if |t| == 0 then begin
      else
        var matches := k => MatchesIgnoringCase(tb, s, t, k);
        assert forall k :: matches(k) == MatchesIgnoringCase(tb, s, t, k);
        CSA.FirstIn(begin, endLimit, matches)
  }

  /** indexOfIgnoreCase(sequence, search, beginIndex): the regionMatches loop. */
  method IndexOfIgnoreCase(tb: CharTables, sequence: CharSeq, search: CharSeq, beginIndex: int) returns (r: int)
    ensures r == IgnoreCaseIndex(tb, sequence, search, beginIndex)
  {
    if sequence.None? || search.None? {
      return INDEX_NOT_FOUND;
    }
    var s, t := sequence.value, search.value;
    var begin := beginIndex;
    if begin < 0 {
      begin := 0;
    }
    var endLimit := |s| - |t| + 1;
    if begin > endLimit {
      return INDEX_NOT_FOUND;
    }
    if |t| == 0 {
      return begin;
    }
    for i := begin to endLimit
      invariant forall k :: begin <= k < i ==> !MatchesIgnoringCase(tb, s, t, k)
    {
      var matches := CSA.RegionMatches(tb, true, s, i, t, 0, |t|);
      if matches {
        assert MatchesIgnoringCase(tb, s, t, i);
        return i;
      }
    }
    return INDEX_NOT_FOUND;
  }

  /**
    An empty needle asked for one past the end: indexOfIgnoreCase returns length + 1,
    an index that does not exist, where the case-sensitive indexOf returns the length.
   */
  lemma IgnoreCaseEmptySearchPastEnd(tb: CharTables, s: Chars)
    ensures IgnoreCaseIndex(tb, Some(s), Some([]), |s| + 1) == |s| + 1
    ensures IndexOf(Some(s), Some([]), |s| + 1) == |s|
  {
    assert CSA.OccursAt(s, [], |s|);
  }

  /** Matching ignoring case includes exact matching, so a case-sensitive hit bounds the case-insensitive one. */
  lemma IgnoreCaseFindsNoLater(tb: CharTables, s: Chars, t: Chars, beginIndex: int)
    requires t != []
    requires IndexOf(Some(s), Some(t), beginIndex) >= 0
    ensures 0 <= IgnoreCaseIndex(tb, Some(s), Some(t), beginIndex) <= IndexOf(Some(s), Some(t), beginIndex)
  {
    var k := IndexOf(Some(s), Some(t), beginIndex);
    assert s[k..k + |t|] == t;
    CSA.RegionMatchCaseSensitive(tb, s, k, t, 0, |t|);
    assert t[0..|t|] == t;
    CSA.RegionMatchFolding(tb, s, k, t, 0, |t|);
    assert MatchesIgnoringCase(tb, s, t, k);
  }

  /**
    indexOfIgnoreCase(sequence, search, beginIndex, endIndex) as written: it clamps
    endIndex to length(sequence) and calls subSequence(0, endIndex) on the sequence, so a
    null sequence throws NullPointerException and a negative endIndex throws
    IndexOutOfBoundsException; otherwise it searches the prefix.
   */
  function IndexOfIgnoreCaseBetween(tb: CharTables, sequence: CharSeq, search: CharSeq,
                                    beginIndex: int, endIndex: int): (r: Result<int>)
    ensures sequence.None? ==> r == Throws(NullPointerException)
    ensures sequence.Some? && endIndex < 0 ==> r == Throws(IndexOutOfBoundsException)
    ensures r.Ok? ==> r.value >= INDEX_NOT_FOUND
    ensures r.Ok? && r.value >= 0 && search.Some? && search.value != [] ==>
      beginIndex <= r.value && r.value + |search.value| <= endIndex &&
      MatchesIgnoringCase(tb, sequence.value, search.value, r.value) &&
      forall k :: beginIndex <= k < r.value && k + |search.value| <= endIndex ==>
        !MatchesIgnoringCase(tb, sequence.value, search.value, k)
    ensures r.Ok? && r.value == INDEX_NOT_FOUND && search.Some? && search.value != [] ==>
      forall k :: beginIndex <= k && k + |search.value| <= endIndex ==>
        !MatchesIgnoringCase(tb, sequence.value, search.value, k)
  {
    var end := Min(endIndex, Length(sequence));
    if sequence.None? then Throws(NullPointerException)
    else if end < 0 then Throws(IndexOutOfBoundsException)
    else
      var prefix := sequence.value[..end];
      var r := IgnoreCaseIndex(tb, Some(prefix), search, beginIndex);
      if search.None? then Ok(r)
      else
        PrefixRegionMatch(tb, sequence.value, end, search.value);
        Ok(r)
  }

  /** A case-insensitive match in a prefix is exactly a match in the whole sequence that ends inside the prefix. */
  lemma PrefixRegionMatch(tb: CharTables, s: Chars, end: int, t: Chars)
    requires 0 <= end <= |s|
    ensures forall k :: MatchesIgnoringCase(tb, s[..end], t, k) <==>
      k + |t| <= end && MatchesIgnoringCase(tb, s, t, k)
  {
    forall k
      ensures MatchesIgnoringCase(tb, s[..end], t, k) <==> k + |t| <= end && MatchesIgnoringCase(tb, s, t, k)
    {
      if MatchesIgnoringCase(tb, s[..end], t, k) {
        forall i | 0 <= i < |t|
          ensures CSA.MatchAt(tb, true, s, k, t, 0, i)
        {
          assert CSA.MatchAt(tb, true, s[..end], k, t, 0, i);
        }
      }
      if k + |t| <= end && MatchesIgnoringCase(tb, s, t, k) {
        forall i | 0 <= i < |t|
          ensures CSA.MatchAt(tb, true, s[..end], k, t, 0, i)
        {
          assert CSA.MatchAt(tb, true, s, k, t, 0, i);
        }
      }
    }
  }

  /**
    indexOfIgnoreCase(sequence, search, beginIndex, endIndex) as documented: a null
    sequence gives -1 like every other null-safe search; the rest is unchanged.
   */
  function IndexOfIgnoreCaseBetweenNullSafe(tb: CharTables, sequence: CharSeq, search: CharSeq,
                                            beginIndex: int, endIndex: int): (r: Result<int>)
    ensures sequence.None? ==> r == Ok(INDEX_NOT_FOUND)
    ensures r.Throws? ==> sequence.Some? && endIndex < 0
    ensures sequence.Some? ==> r == IndexOfIgnoreCaseBetween(tb, sequence, search, beginIndex, endIndex)
    ensures r.Ok? && r.value >= 0 && search.Some? && search.value != [] ==>
      sequence.Some? && beginIndex <= r.value && r.value + |search.value| <= endIndex &&
      MatchesIgnoringCase(tb, sequence.value, search.value, r.value) &&
      forall k :: beginIndex <= k < r.value && k + |search.value| <= endIndex ==>
        !MatchesIgnoringCase(tb, sequence.value, search.value, k)
    ensures r.Ok? && r.value == INDEX_NOT_FOUND && sequence.Some? && search.Some? && search.value != [] ==>
      forall k :: beginIndex <= k && k + |search.value| <= endIndex ==>
        !MatchesIgnoringCase(tb, sequence.value, search.value, k)
  {
    if sequence.None? then Ok(INDEX_NOT_FOUND)
    else IndexOfIgnoreCaseBetween(tb, sequence, search, beginIndex, endIndex)
  }

  // ---------------------------------------------------------------- indexOfAny

  /**
    The running minimum indexOfAny keeps: Integer.MAX_VALUE to start with, lowered by
    the hit of every non-null needle that is found.
   */
  function MinSoFar(searches: seq<CharSeq>, hit: Chars -> int): (m: int)
    ensures m == INT_MAX || exists i :: (0 <= i < |searches| && searches[i].Some? &&
      hit(searches[i].value) == m && m != INDEX_NOT_FOUND)
    ensures forall i :: 0 <= i < |searches| && searches[i].Some? && hit(searches[i].value) != INDEX_NOT_FOUND ==>
      m <= hit(searches[i].value)
    ensures m <= INT_MAX
  {
    if |searches| == 0 then INT_MAX
    else
      var init := searches[..|searches| - 1];
      var m := MinSoFar(init, hit);
      assert forall i :: 0 <= i < |init| ==> init[i] == searches[i];
      Lower(m, searches[|searches| - 1], hit)
  }

  /** One step of the running minimum: a non-null needle that is found lowers it to its hit. */
  function Lower(m: int, search: CharSeq, hit: Chars -> int): int {
    if search.None? then m
    else
      var tmp := hit(search.value);
      if tmp == INDEX_NOT_FOUND then m
      else if tmp < m then tmp
      else m
  }

  /** The running minimum over one more needle is one more step. */
  lemma MinSoFarStep(searches: seq<CharSeq>, i: int, hit: Chars -> int)
    requires 0 <= i < |searches|
    ensures MinSoFar(searches[..i + 1], hit) == Lower(MinSoFar(searches[..i], hit), searches[i], hit)
  {
    assert searches[..i + 1][..i] == searches[..i];
  }

  /** The result of the running minimum: -1 when it never moved off Integer.MAX_VALUE. */
  function LeastHit(searches: seq<CharSeq>, hit: Chars -> int): (r: int)
    ensures r == INDEX_NOT_FOUND || r == MinSoFar(searches, hit)
  {
    var m := MinSoFar(searches, hit);
    if m == INT_MAX then INDEX_NOT_FOUND else m
  }

  /**
    When no hit can reach Integer.MAX_VALUE, the running minimum is the least hit among
    the non-null needles, and -1 exactly when none of them is found.
   */
  lemma LeastHitIsLeast(searches: seq<CharSeq>, hit: Chars -> int)
    requires forall i :: 0 <= i < |searches| && searches[i].Some? ==> hit(searches[i].value) < INT_MAX
    ensures LeastHit(searches, hit) == INDEX_NOT_FOUND <==>
      forall i :: 0 <= i < |searches| && searches[i].Some? ==> hit(searches[i].value) == INDEX_NOT_FOUND
    ensures LeastHit(searches, hit) != INDEX_NOT_FOUND ==>
      (exists i :: 0 <= i < |searches| && searches[i].Some? && hit(searches[i].value) == LeastHit(searches, hit)) &&
      forall i :: 0 <= i < |searches| && searches[i].Some? && hit(searches[i].value) != INDEX_NOT_FOUND ==>
        LeastHit(searches, hit) <= hit(searches[i].value)
  {
    var m := MinSoFar(searches, hit);
  }

  /** The first-occurrence search from beginIndex in `s`, as a function of the needle. */
  function OccurrenceFrom(s: Chars, beginIndex: int): Chars -> int {
    t => CSA.IndexOf(s, t, beginIndex)
  }

  /** The case-insensitive search from beginIndex in `s`, as a function of the needle. */
  function IgnoreCaseOccurrenceFrom(tb: CharTables, s: Chars, beginIndex: int): Chars -> int {
    t => IgnoreCaseIndex(tb, Some(s), Some(t), beginIndex)
  }

  /**
    indexOfAny(sequence, searches, beginIndex), and with beginIndex 0 the varargs form:
    -1 for a null sequence or a null array, otherwise the running minimum of the
    non-null needles' first occurrences.
   */
  function AnyIndex(sequence: CharSeq, searches: Option<seq<CharSeq>>, beginIndex: int): (r: int)
    ensures sequence.None? || searches.None? ==> r == INDEX_NOT_FOUND
  {
    if sequence.None? || searches.None? then INDEX_NOT_FOUND
    else LeastHit(searches.value, OccurrenceFrom(sequence.value, beginIndex))
  }

  /** indexOfAny(sequence, searches, beginIndex): the loop keeping the running minimum `ret`. */
  method IndexOfAny(sequence: CharSeq, searches: Option<seq<CharSeq>>, beginIndex: int) returns (r: int)
    ensures r == AnyIndex(sequence, searches, beginIndex)
  {
    if sequence.None? || searches.None? {
      return INDEX_NOT_FOUND;
    }
    var s, xs := sequence.value, searches.value;
    ghost var hit := OccurrenceFrom(s, beginIndex);
    var ret := INT_MAX;
    for i := 0 to |xs|
      invariant ret == MinSoFar(xs[..i], hit)
    {
      MinSoFarStep(xs, i, hit);
      var search := xs[i];
      if search.None? {
        continue;
      }
      var tmp := CSA.IndexOf(s, search.value, beginIndex);
      if tmp == INDEX_NOT_FOUND {
        continue;
      }
      if tmp < ret {
        ret := tmp;
      }
    }
    assert xs[..|xs|] == xs;
    return if ret == INT_MAX then INDEX_NOT_FOUND else ret;
  }

  /**
    For a sequence shorter than Integer.MAX_VALUE, indexOfAny is -1 exactly when no
    non-null needle occurs at or after beginIndex, and otherwise the first occurrence
    of some needle, with no needle occurring anywhere between beginIndex and it.
   */
  lemma AnyIndexIsFirstOccurrence(s: Chars, searches: seq<CharSeq>, beginIndex: int)
    requires |s| < INT_MAX
    ensures AnyIndex(Some(s), Some(searches), beginIndex) == INDEX_NOT_FOUND <==>
      forall i :: 0 <= i < |searches| && searches[i].Some? ==>
        CSA.IndexOf(s, searches[i].value, beginIndex) == INDEX_NOT_FOUND
    ensures AnyIndex(Some(s), Some(searches), beginIndex) != INDEX_NOT_FOUND ==>
      (exists i :: 0 <= i < |searches| && searches[i].Some? &&
        CSA.IndexOf(s, searches[i].value, beginIndex) == AnyIndex(Some(s), Some(searches), beginIndex)) &&
      forall i, k :: (0 <= i < |searches| && searches[i].Some? &&
        beginIndex <= k < AnyIndex(Some(s), Some(searches), beginIndex)) ==> !CSA.OccursAt(s, searches[i].value, k)
  {
    var hit := OccurrenceFrom(s, beginIndex);
    assert forall t :: hit(t) == CSA.IndexOf(s, t, beginIndex);
    LeastHitIsLeast(searches, hit);
  }

  /**
    indexOfAnyIgnoreCase(sequence, searches, beginIndex), and with beginIndex 0 the
    varargs form: as indexOfAny, with each needle searched by indexOfIgnoreCase.
   */
  function AnyIndexIgnoreCase(tb: CharTables, sequence: CharSeq, searches: Option<seq<CharSeq>>, beginIndex: int): (r: int)
    ensures sequence.None? || searches.None? ==> r == INDEX_NOT_FOUND
  {
    if sequence.None? || searches.None? then INDEX_NOT_FOUND
    else LeastHit(searches.value, IgnoreCaseOccurrenceFrom(tb, sequence.value, beginIndex))
  }

  /** indexOfAnyIgnoreCase(sequence, searches, beginIndex): the running-minimum loop over indexOfIgnoreCase. */
  method IndexOfAnyIgnoreCase(tb: CharTables, sequence: CharSeq, searches: Option<seq<CharSeq>>, beginIndex: int)
    returns (r: int)
    ensures r == AnyIndexIgnoreCase(tb, sequence, searches, beginIndex)
  {
    if sequence.None? || searches.None? {
      return INDEX_NOT_FOUND;
    }
    var xs := searches.value;
    ghost var hit := IgnoreCaseOccurrenceFrom(tb, sequence.value, beginIndex);
    var ret := INT_MAX;
    for i := 0 to |xs|
      invariant ret == MinSoFar(xs[..i], hit)
    {
      MinSoFarStep(xs, i, hit);
      var search := xs[i];
      if search.None? {
        continue;
      }
      var tmp := IndexOfIgnoreCase(tb, sequence, search, beginIndex);
      assert hit(search.value) == tmp;
      if tmp == INDEX_NOT_FOUND {
        continue;
      }
      if tmp < ret {
        ret := tmp;
      }
    }
    assert xs[..|xs|] == xs;
    return if ret != INT_MAX then ret else INDEX_NOT_FOUND;
  }

  /**
    For a sequence more than one unit shorter than Integer.MAX_VALUE, indexOfAnyIgnoreCase
    is -1 exactly when no non-null needle is found, and otherwise the least of the
    needles' indexOfIgnoreCase results.
   */
  lemma AnyIndexIgnoreCaseIsLeast(tb: CharTables, s: Chars, searches: seq<CharSeq>, beginIndex: int)
    requires |s| + 1 < INT_MAX
    ensures AnyIndexIgnoreCase(tb, Some(s), Some(searches), beginIndex) == INDEX_NOT_FOUND <==>
      forall i :: 0 <= i < |searches| && searches[i].Some? ==>
        IgnoreCaseIndex(tb, Some(s), searches[i], beginIndex) == INDEX_NOT_FOUND
    ensures forall i :: (0 <= i < |searches| && searches[i].Some? &&
      IgnoreCaseIndex(tb, Some(s), searches[i], beginIndex) != INDEX_NOT_FOUND) ==>
        0 <= AnyIndexIgnoreCase(tb, Some(s), Some(searches), beginIndex) <= IgnoreCaseIndex(tb, Some(s), searches[i], beginIndex)
    ensures AnyIndexIgnoreCase(tb, Some(s), Some(searches), beginIndex) != INDEX_NOT_FOUND ==>
      exists i :: 0 <= i < |searches| && searches[i].Some? &&
        IgnoreCaseIndex(tb, Some(s), searches[i], beginIndex) == AnyIndexIgnoreCase(tb, Some(s), Some(searches), beginIndex)
  {
    var hit := IgnoreCaseOccurrenceFrom(tb, s, beginIndex);
    assert forall t :: hit(t) == IgnoreCaseIndex(tb, Some(s), Some(t), beginIndex);
    forall i | 0 <= i < |searches| && searches[i].Some?
      ensures hit(searches[i].value) < INT_MAX
    {
      var t := searches[i].value;
      var h := IgnoreCaseIndex(tb, Some(s), Some(t), beginIndex);
      if t != [] && h >= 0 {
        assert MatchesIgnoringCase(tb, s, t, h);
      }
    }
    LeastHitIsLeast(searches, hit);
  }

  /**
    indexOfAny(sequence, searches, beginIndex, endIndex) as written: subSequence is
    called on the sequence before any null check.
   */
  function IndexOfAnyBetween(sequence: CharSeq, searches: Option<seq<CharSeq>>, beginIndex: int, endIndex: int): (r: Result<int>)
    ensures sequence.None? ==> r == Throws(NullPointerException)
    ensures sequence.Some? && endIndex < 0 ==> r == Throws(IndexOutOfBoundsException)
    ensures sequence.Some? && 0 <= endIndex ==>
      r == Ok(AnyIndex(Some(sequence.value[..Min(endIndex, |sequence.value|)]), searches, beginIndex))
  {
    var end := Min(endIndex, Length(sequence));
    if sequence.None? then Throws(NullPointerException)
    else if end < 0 then Throws(IndexOutOfBoundsException)
    else Ok(AnyIndex(Some(sequence.value[..end]), searches, beginIndex))
  }

  /** indexOfAny(sequence, searches, beginIndex, endIndex) as documented: a null sequence gives -1. */
  function IndexOfAnyBetweenNullSafe(sequence: CharSeq, searches: Option<seq<CharSeq>>, beginIndex: int, endIndex: int): (r: Result<int>)
    ensures sequence.None? ==> r == Ok(INDEX_NOT_FOUND)
    ensures r.Throws? ==> sequence.Some? && endIndex < 0
    ensures sequence.Some? ==> r == IndexOfAnyBetween(sequence, searches, beginIndex, endIndex)
  {
    if sequence.None? then Ok(INDEX_NOT_FOUND)
    else IndexOfAnyBetween(sequence, searches, beginIndex, endIndex)
  }

  /**
    indexOfAnyIgnoreCase(sequence, searches, beginIndex, endIndex) as written: subSequence
    is called on the sequence before any null check.
   */
  function IndexOfAnyIgnoreCaseBetween(tb: CharTables, sequence: CharSeq, searches: Option<seq<CharSeq>>,
                                       beginIndex: int, endIndex: int): (r: Result<int>)
    ensures sequence.None? ==> r == Throws(NullPointerException)
    ensures sequence.Some? && endIndex < 0 ==> r == Throws(IndexOutOfBoundsException)
    ensures sequence.Some? && 0 <= endIndex ==>
      r == Ok(AnyIndexIgnoreCase(tb, Some(sequence.value[..Min(endIndex, |sequence.value|)]), searches, beginIndex))
  {
    var end := Min(endIndex, Length(sequence));
    if sequence.None? then Throws(NullPointerException)
    else if end < 0 then Throws(IndexOutOfBoundsException)
    else Ok(AnyIndexIgnoreCase(tb, Some(sequence.value[..end]), searches, beginIndex))
  }

  /** indexOfAnyIgnoreCase(sequence, searches, beginIndex, endIndex) as documented: a null sequence gives -1. */
  function IndexOfAnyIgnoreCaseBetweenNullSafe(tb: CharTables, sequence: CharSeq, searches: Option<seq<CharSeq>>,
                                               beginIndex: int, endIndex: int): (r: Result<int>)
    ensures sequence.None? ==> r == Ok(INDEX_NOT_FOUND)
    ensures r.Throws? ==> sequence.Some? && endIndex < 0
    ensures sequence.Some? ==> r == IndexOfAnyIgnoreCaseBetween(tb, sequence, searches, beginIndex, endIndex)
  {
    if sequence.None? then Ok(INDEX_NOT_FOUND)
    else IndexOfAnyIgnoreCaseBetween(tb, sequence, searches, beginIndex, endIndex)
  }

  /** The documented null behaviour is what the three range overloads as written break. */
  lemma RangeOverloadsThrowOnNull(tb: CharTables, search: CharSeq, searches: Option<seq<CharSeq>>,
                                  beginIndex: int, endIndex: int)
    ensures IndexOfIgnoreCaseBetween(tb, None, search, beginIndex, endIndex) == Throws(NullPointerException)
    ensures IndexOfAnyBetween(None, searches, beginIndex, endIndex) == Throws(NullPointerException)
    ensures IndexOfAnyIgnoreCaseBetween(tb, None, searches, beginIndex, endIndex) == Throws(NullPointerException)
    ensures IndexOfIgnoreCaseBetweenNullSafe(tb, None, search, beginIndex, endIndex) == Ok(INDEX_NOT_FOUND)
    ensures IndexOfAnyBetweenNullSafe(None, searches, beginIndex, endIndex) == Ok(INDEX_NOT_FOUND)
    ensures IndexOfAnyIgnoreCaseBetweenNullSafe(tb, None, searches, beginIndex, endIndex) == Ok(INDEX_NOT_FOUND)
  {
  }

  // ---------------------------------------------------------------- indexOfChar and indexOfAnyChar

  /**
    indexOfChar(sequence, search, beginIndex, endIndex), and with endIndex the length the
    two- and three-argument forms (a char search is widened to int): -1 for a null or
    empty sequence, otherwise the code-point search of the engine.
   */
  function IndexOfChar(sequence: CharSeq, search: int, beginIndex: int, endIndex: int): (r: int)
    ensures IsEmpty(sequence) ==> r == INDEX_NOT_FOUND
    ensures r >= 0 ==> sequence.Some? && beginIndex <= r < endIndex && r < |sequence.value|
    ensures r >= 0 && search < MIN_SUPPLEMENTARY_CODE_POINT ==> sequence.value[r] == search
    ensures r >= 0 && search >= MIN_SUPPLEMENTARY_CODE_POINT ==> CSA.PairAt(sequence.value, search, r)
    ensures r >= INDEX_NOT_FOUND
    ensures r >= 0 && search < MIN_SUPPLEMENTARY_CODE_POINT ==>
      forall k :: beginIndex <= k < r && 0 <= k ==> sequence.value[k] != search
    ensures r >= 0 && search >= MIN_SUPPLEMENTARY_CODE_POINT ==>
      forall k :: beginIndex <= k < r ==> !CSA.PairAt(sequence.value, search, k)
    ensures r == INDEX_NOT_FOUND && sequence.Some? && search < MIN_SUPPLEMENTARY_CODE_POINT ==>
      forall k :: beginIndex <= k < endIndex && 0 <= k < |sequence.value| ==> sequence.value[k] != search
    ensures r == INDEX_NOT_FOUND && sequence.Some? && search >= MIN_SUPPLEMENTARY_CODE_POINT ==>
      forall k :: beginIndex <= k && k + 1 < endIndex ==> !CSA.PairAt(sequence.value, search, k)
  {
    if IsEmpty(sequence) then INDEX_NOT_FOUND
    else CSA.CodePointIndex(sequence.value, search, beginIndex, endIndex)
  }

  /** The result of the needle that is found first in array order, or -1 if none is found. */
  function FirstNeedleHit(sequence: CharSeq, searches: seq<int>, beginIndex: int, endIndex: int): (r: int)
    ensures r == INDEX_NOT_FOUND <==>
      forall j :: 0 <= j < |searches| ==> IndexOfChar(sequence, searches[j], beginIndex, endIndex) == INDEX_NOT_FOUND
    ensures r != INDEX_NOT_FOUND ==>
      exists j :: 0 <= j < |searches| && r == IndexOfChar(sequence, searches[j], beginIndex, endIndex) &&
        forall i :: 0 <= i < j ==> IndexOfChar(sequence, searches[i], beginIndex, endIndex) == INDEX_NOT_FOUND
  {
    if |searches| == 0 then INDEX_NOT_FOUND
    else
      var index := IndexOfChar(sequence, searches[0], beginIndex, endIndex);
      if index != INDEX_NOT_FOUND then index
      else
        var r := FirstNeedleHit(sequence, searches[1..], beginIndex, endIndex);
        assert forall j :: 1 <= j < |searches| ==> searches[j] == searches[1..][j - 1];
        if r != INDEX_NOT_FOUND then
          var j :| 0 <= j < |searches[1..]| && r == IndexOfChar(sequence, searches[1..][j], beginIndex, endIndex) &&
            forall i :: 0 <= i < j ==> IndexOfChar(sequence, searches[1..][i], beginIndex, endIndex) == INDEX_NOT_FOUND;
          assert forall i :: 0 <= i < j + 1 ==> IndexOfChar(sequence, searches[i], beginIndex, endIndex) == INDEX_NOT_FOUND;
          r
        else r
  }

  /**
    indexOfAnyChar over an int[] or char[] array of needles and over the code points of
    a CharSequence: -1 when the sequence or the needles are null or empty, otherwise
    the position of the first needle, in array order, that occurs.
   */
  function AnyCharIndex(sequence: CharSeq, searches: Option<seq<int>>, beginIndex: int, endIndex: int): (r: int)
    ensures IsEmpty(sequence) || ArrayAide.IsEmpty(searches) ==> r == INDEX_NOT_FOUND
    ensures !IsEmpty(sequence) && !ArrayAide.IsEmpty(searches) ==>
      r == FirstNeedleHit(sequence, searches.value, beginIndex, endIndex)
    ensures searches.Some? ==>
      (r == INDEX_NOT_FOUND <==> forall j :: 0 <= j < |searches.value| ==>
        IndexOfChar(sequence, searches.value[j], beginIndex, endIndex) == INDEX_NOT_FOUND)
  {
    if IsEmpty(sequence) || ArrayAide.IsEmpty(searches) then INDEX_NOT_FOUND
    else FirstNeedleHit(sequence, searches.value, beginIndex, endIndex)
  }

  /** indexOfAnyChar(sequence, searches, beginIndex, endIndex): the loop that returns the first needle's hit. */
  method IndexOfAnyChar(sequence: CharSeq, searches: Option<seq<int>>, beginIndex: int, endIndex: int) returns (r: int)
    ensures r == AnyCharIndex(sequence, searches, beginIndex, endIndex)
  {
    if IsEmpty(sequence) || ArrayAide.IsEmpty(searches) {
      return INDEX_NOT_FOUND;
    }
    var xs := searches.value;
    for j := 0 to |xs|
      invariant FirstNeedleHit(sequence, xs, beginIndex, endIndex) == FirstNeedleHit(sequence, xs[j..], beginIndex, endIndex)
    {
      assert xs[j..][1..] == xs[j + 1..];
      var index := IndexOfChar(sequence, xs[j], beginIndex, endIndex);
      if index != INDEX_NOT_FOUND {
        return index;
      }
    }
    return INDEX_NOT_FOUND;
  }

  /** indexOfAnyChar(sequence, CharSequence searches, beginIndex, endIndex): the needles are the code points of `searches`. */
  method IndexOfAnyCharOf(sequence: CharSeq, searches: CharSeq, beginIndex: int, endIndex: int) returns (r: int)
    ensures IsEmpty(searches) ==> r == INDEX_NOT_FOUND
    ensures !IsEmpty(searches) ==> r == AnyCharIndex(sequence, Some(CodePoints(searches.value)), beginIndex, endIndex)
  {
    if IsEmpty(sequence) || IsEmpty(searches) {
      return INDEX_NOT_FOUND;
    }
    r := IndexOfAnyChar(sequence, Some(CodePoints(searches.value)), beginIndex, endIndex);
  }

  /**
    indexOfAnyChar is found exactly when some needle occurs in the range, but the index is
    that of the first needle in array order: in "ab", needles 'b','a' give 1 although 'a'
    occurs at 0.
   */
  lemma AnyCharIndexFirstNeedleNotLeastIndex(sequence: CharSeq, searches: seq<int>, beginIndex: int, endIndex: int)
    ensures AnyCharIndex(sequence, Some(searches), beginIndex, endIndex) != INDEX_NOT_FOUND <==>
      !IsEmpty(sequence) && exists j :: 0 <= j < |searches| && IndexOfChar(sequence, searches[j], beginIndex, endIndex) >= 0
    ensures AnyCharIndex(Some([0x61, 0x62]), Some([0x62, 0x61]), 0, 2) == 1
    ensures IndexOfChar(Some([0x61, 0x62]), 0x61, 0, 2) == 0
  {
    var ab: Chars := [0x61, 0x62];
    assert CSA.CodePointIndex(ab, 0x61, 0, 2) == 0;
    assert CSA.CodePointIndex(ab, 0x62, 0, 2) == 1;
    assert FirstNeedleHit(Some(ab), [0x62, 0x61], 0, 2) == 1;
    if !IsEmpty(sequence) && exists j :: 0 <= j < |searches| && IndexOfChar(sequence, searches[j], beginIndex, endIndex) >= 0 {
      var j :| 0 <= j < |searches| && IndexOfChar(sequence, searches[j], beginIndex, endIndex) >= 0;
      assert AnyCharIndex(sequence, Some(searches), beginIndex, endIndex) != INDEX_NOT_FOUND;
    }
  }

  // ---------------------------------------------------------------- indexOfNotAnyChar

  /**
    Unit i of `s` is covered by entry j of the char[] set: they are equal and, unless no
    lookahead applies (i is the last unit of the range, j the last entry, or the unit is
    not a high surrogate), entry j + 1 equals unit i + 1.
   */
  predicate CoveredBy(s: Chars, searches: seq<int>, end: int, i: int, j: int) {
    0 <= i < |s| && 0 <= j < |searches| && searches[j] == s[i] &&
    (i >= end - 1 || j >= |searches| - 1 || !IsHighSurrogate(s[i]) ||
     (i + 1 < |s| && searches[j + 1] == s[i + 1]))
  }

  /** Unit i is covered by some entry of the set. */
  predicate Covered(s: Chars, searches: seq<int>, end: int, i: int) {
    exists j :: 0 <= j < |searches| && CoveredBy(s, searches, end, i, j)
  }

  /**
    indexOfNotAnyChar(sequence, char[] searches, beginIndex, endIndex), and with endIndex
    the length the shorter forms: -1 for a null or empty sequence or set, a beginIndex
    past the length or an empty range (beginIndex is raised to 0 and endIndex clamped to
    the length), otherwise the first index of the range whose unit is not covered.
   */
  function NotAnyIndex(sequence: CharSeq, searches: Option<seq<int>>, beginIndex: int, endIndex: int): (r: int)
    ensures IsEmpty(sequence) || ArrayAide.IsEmpty(searches) ==> r == INDEX_NOT_FOUND
    ensures r == INDEX_NOT_FOUND || (0 <= r && beginIndex <= r < endIndex && r < Length(sequence))
    ensures r >= 0 ==> !Covered(sequence.value, searches.value, Min(endIndex, |sequence.value|), r)
    ensures r >= 0 ==> forall k :: beginIndex <= k < r && 0 <= k ==>
      Covered(sequence.value, searches.value, Min(endIndex, |sequence.value|), k)
    ensures r == INDEX_NOT_FOUND && !IsEmpty(sequence) && !ArrayAide.IsEmpty(searches) ==>
      forall k :: beginIndex <= k < endIndex && 0 <= k < |sequence.value| ==>
        Covered(sequence.value, searches.value, Min(endIndex, |sequence.value|), k)
  {
    if IsEmpty(sequence) || ArrayAide.IsEmpty(searches) then INDEX_NOT_FOUND
    else
      var s, xs := sequence.value, searches.value;
      var begin := Max(beginIndex, 0);
      if begin > |s| then INDEX_NOT_FOUND
      else
        var end := Min(endIndex, |s|);
        if end <= begin then INDEX_NOT_FOUND
        else
          var uncovered := k => !Covered(s, xs, end, k);
          assert forall k :: uncovered(k) == !Covered(s, xs, end, k);
          CSA.FirstIn(begin, end, uncovered)
  }

  /** indexOfNotAnyChar(sequence, char[] searches, beginIndex, endIndex): the labelled double loop. */
  method IndexOfNotAnyChar(sequence: CharSeq, searches: Option<seq<int>>, beginIndex: int, endIndex: int) returns (r: int)
    ensures r == NotAnyIndex(sequence, searches, beginIndex, endIndex)
  {
    if IsEmpty(sequence) || ArrayAide.IsEmpty(searches) {
      return INDEX_NOT_FOUND;
    }
    var s, xs := sequence.value, searches.value;
    var sequenceLength := |s|;
    var begin, end := beginIndex, endIndex;
    if begin < 0 {
      begin := 0;
    } else if begin > sequenceLength {
      return INDEX_NOT_FOUND;
    }
    if end > sequenceLength {
      end := sequenceLength;
    }
    if end <= begin {
      return INDEX_NOT_FOUND;
    }
    var sequenceLast := end - 1;
    var searchLength := |xs|;
    var searchLast := searchLength - 1;
    label outer: for i := begin to end
      invariant forall k :: begin <= k < i ==> Covered(s, xs, end, k)
    {
      var ch := s[i];
      for j := 0 to searchLength
        invariant forall j' :: 0 <= j' < j ==> !CoveredBy(s, xs, end, i, j')
      {
        if xs[j] == ch {
          if i >= sequenceLast || j >= searchLast || !IsHighSurrogate(ch) {
            assert CoveredBy(s, xs, end, i, j);
            continue outer;
          }
          if xs[j + 1] == s[i + 1] {
            assert CoveredBy(s, xs, end, i, j);
            continue outer;
          }
        }
      }
      assert !Covered(s, xs, end, i);
      return i;
    }
    return INDEX_NOT_FOUND;
  }

  /**
    Over the whole of a non-empty sequence, indexOfNotAnyChar finds nothing exactly when
    every unit is covered by the set.
   */
  lemma NotAnyOverAll(s: Chars, searches: seq<int>)
    ensures s != [] && searches != [] ==>
      (NotAnyIndex(Some(s), Some(searches), 0, |s|) == INDEX_NOT_FOUND <==>
        forall k :: 0 <= k < |s| ==> Covered(s, searches, |s|, k))
  {
    if s != [] && searches != [] {
      var r := NotAnyIndex(Some(s), Some(searches), 0, |s|);
      assert Min(|s|, |s|) == |s|;
      if r != INDEX_NOT_FOUND {
        assert !Covered(s, searches, |s|, r);
      }
    }
  }

  /**
    The char[] set built from an int[] of code points: each entry encoded by
    Character.toChars, which throws IllegalArgumentException for an invalid code point.
   */
  function SearchUnits(searches: seq<int>): (r: Result<seq<int>>)
    ensures r.Ok? <==> forall i :: 0 <= i < |searches| ==> IsValidCodePoint(searches[i])
    ensures r.Ok? ==> r.value == Encode(searches)
    ensures r.Throws? ==> r.ex == IllegalArgumentException
  {
    if forall i :: 0 <= i < |searches| ==> IsValidCodePoint(searches[i]) then Ok(Encode(searches))
    else Throws(IllegalArgumentException)
  }

  /** The tempChars loop of indexOfNotAnyChar(int[]): fills a buffer of twice the length, then copies the used part. */
  method BuildSearchUnits(searches: seq<int>) returns (r: Result<seq<int>>)
    ensures r == SearchUnits(searches)
  {
    var tempChars := new CodeUnit[|searches| * 2];
    var tempIndex := 0;
    for k := 0 to |searches|
      invariant forall i :: 0 <= i < k ==> IsValidCodePoint(searches[i])
      invariant tempIndex == |Encode(searches[..k])| && tempIndex <= 2 * k
      invariant tempChars[..tempIndex] == Encode(searches[..k])
    {
      var search := searches[k];
      var encoded := ToChars(search);
      if encoded.Throws? {
        return Throws(IllegalArgumentException);
      }
      var chars := encoded.value;
      EncodeAppend(searches[..k], search);
      assert searches[..k + 1] == searches[..k] + [search];
      tempChars[tempIndex] := chars[0];
      tempIndex := tempIndex + 1;
      if |chars| > 1 {
        tempChars[tempIndex] := chars[1];
        tempIndex := tempIndex + 1;
      }
    }
    assert searches[..|searches|] == searches;
    var units := tempChars[..tempIndex];
    return Ok(units);
  }

  /**
    indexOfNotAnyChar(sequence, int[] searches, beginIndex, endIndex): -1 for a null or
    empty sequence or set; IllegalArgumentException if a needle is not a valid code
    point; otherwise the char[] search over the UTF-16 encoding of the needles.
   */
  function NotAnyCodePointIndex(sequence: CharSeq, searches: Option<seq<int>>, beginIndex: int, endIndex: int): (r: Result<int>)
    ensures IsEmpty(sequence) || ArrayAide.IsEmpty(searches) ==> r == Ok(INDEX_NOT_FOUND)
    ensures r.Throws? ==> (r.ex == IllegalArgumentException &&
      exists i :: 0 <= i < |searches.value| && !IsValidCodePoint(searches.value[i]))
    ensures r.Ok? && !IsEmpty(sequence) && !ArrayAide.IsEmpty(searches) ==>
      (forall i :: 0 <= i < |searches.value| ==> IsValidCodePoint(searches.value[i])) &&
      r.value == NotAnyIndex(sequence, Some(Encode(searches.value)), beginIndex, endIndex)
  {
    if IsEmpty(sequence) || ArrayAide.IsEmpty(searches) then Ok(INDEX_NOT_FOUND)
    else
      var units := SearchUnits(searches.value);
      if units.Throws? then Throws(units.ex)
      else Ok(NotAnyIndex(sequence, Some(units.value), beginIndex, endIndex))
  }

  /** indexOfNotAnyChar(sequence, int[] searches, beginIndex, endIndex): builds the char[] set, then searches. */
  method IndexOfNotAnyCodePoint(sequence: CharSeq, searches: Option<seq<int>>, beginIndex: int, endIndex: int)
    returns (r: Result<int>)
    ensures r == NotAnyCodePointIndex(sequence, searches, beginIndex, endIndex)
  {
    if IsEmpty(sequence) || ArrayAide.IsEmpty(searches) {
      return Ok(INDEX_NOT_FOUND);
    }
    var units := BuildSearchUnits(searches.value);
    if units.Throws? {
      return Throws(units.ex);
    }
    var index := IndexOfNotAnyChar(sequence, Some(units.value), beginIndex, endIndex);
    return Ok(index);
  }

  /**
    Unit i stops the CharSequence form of indexOfNotAnyChar: a high surrogate with a
    successor in the range stops it when it is in the set and the successor is not;
    any other unit stops it when it is not in the set.
   */
  predicate StopsAt(s: Chars, searches: Chars, end: int, i: int) {
    0 <= i < |s| &&
    if i + 1 < end && i + 1 < |s| && IsHighSurrogate(s[i]) then s[i] in searches && s[i + 1] !in searches
    else s[i] !in searches
  }

  /**
    indexOfNotAnyChar(sequence, CharSequence searches, beginIndex, endIndex): the same
    bounds as the char[] form, then the first index of the range at which StopsAt holds.
   */
  function NotAnyIndexOf(sequence: CharSeq, searches: CharSeq, beginIndex: int, endIndex: int): (r: int)
    ensures IsEmpty(sequence) || IsEmpty(searches) ==> r == INDEX_NOT_FOUND
    ensures r == INDEX_NOT_FOUND || (0 <= r && beginIndex <= r < endIndex && r < Length(sequence))
    ensures r >= 0 ==> StopsAt(sequence.value, searches.value, Min(endIndex, |sequence.value|), r)
    ensures r >= 0 ==> forall k :: beginIndex <= k < r ==>
      !StopsAt(sequence.value, searches.value, Min(endIndex, |sequence.value|), k)
    ensures r == INDEX_NOT_FOUND && !IsEmpty(sequence) && !IsEmpty(searches) ==>
      forall k :: beginIndex <= k < endIndex ==> !StopsAt(sequence.value, searches.value, Min(endIndex, |sequence.value|), k)
  {
    if IsEmpty(sequence) || IsEmpty(searches) then INDEX_NOT_FOUND
    else
      var s, xs := sequence.value, searches.value;
      var begin := Max(beginIndex, 0);
      if begin > |s| then INDEX_NOT_FOUND
      else
        var end := Min(endIndex, |s|);
        if end <= begin then INDEX_NOT_FOUND
        else
          var stops := k => StopsAt(s, xs, end, k);
          assert forall k :: stops(k) == StopsAt(s, xs, end, k);
          CSA.FirstIn(begin, end, stops)
  }

  /** indexOfNotAnyChar(sequence, CharSequence searches, beginIndex, endIndex): the loop with its chFound lookups. */
  method IndexOfNotAnyCharOf(sequence: CharSeq, searches: CharSeq, beginIndex: int, endIndex: int) returns (r: int)
    ensures r == NotAnyIndexOf(sequence, searches, beginIndex, endIndex)
  {
    if IsEmpty(sequence) || IsEmpty(searches) {
      return INDEX_NOT_FOUND;
    }
    var s, xs := sequence.value, searches.value;
    var sequenceLength := |s|;
    var begin, end := beginIndex, endIndex;
    if begin < 0 {
      begin := 0;
    }
    if begin > sequenceLength {
      return INDEX_NOT_FOUND;
    }
    if end > sequenceLength {
      end := sequenceLength;
    }
    if end <= begin {
      return INDEX_NOT_FOUND;
    }
    for i := begin to end
      invariant forall k :: begin <= k < i ==> !StopsAt(s, xs, end, k)
    {
      var ch := s[i];
      var at := CSA.IndexOfCodePointFrom(xs, ch, 0);
      CSA.CodePointIndexOfUnit(xs, ch);
      var chFound := at >= 0;
      if i + 1 < end && IsHighSurrogate(ch) {
        var ch2 := s[i + 1];
        var at2 := CSA.IndexOfCodePointFrom(xs, ch2, 0);
        CSA.CodePointIndexOfUnit(xs, ch2);
        if chFound && at2 < 0 {
          assert StopsAt(s, xs, end, i);
          return i;
        }
      } else if !chFound {
        assert StopsAt(s, xs, end, i);
        return i;
      }
    }
    return INDEX_NOT_FOUND;
  }

  /**
    The char[] and CharSequence forms of indexOfNotAnyChar disagree on an unpaired high
    surrogate: in [0xD800, 'A'] with the set {'A'}, the char[] form stops at 0, while the
    CharSequence form skips the surrogate (it is not in the set, so its pair is not
    checked) and finds nothing.
   */
  lemma NotAnyCharFormsDisagree()
    ensures NotAnyIndex(Some([0xD800, 0x41]), Some([0x41]), 0, 2) == 0
    ensures NotAnyIndexOf(Some([0xD800, 0x41]), Some([0x41]), 0, 2) == INDEX_NOT_FOUND
  {
    var s: Chars := [0xD800, 0x41];
    var needles: Chars := [0x41];
    assert !CoveredBy(s, needles, 2, 0, 0);
    assert !Covered(s, needles, 2, 0);
    assert !StopsAt(s, needles, 2, 0);
    assert !StopsAt(s, needles, 2, 1);
  }
}
