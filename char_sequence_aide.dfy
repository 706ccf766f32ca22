/**
  _CharSequenceAide: the searching engine behind StringAide. It works on any
  CharSequence through length() and charAt(); the String/StringBuilder/StringBuffer
  shortcuts it takes to the JDK's own methods are taken to behave as the generic loops
  modelled here.
 */
module CharSequenceAide {
  import opened JavaLang
  import opened Utf16

  /** The index the searches return when there is no match. */
  const NOT_FOUND: int := -1

  /** Needles up to this length go to the JDK's lastIndexOf on the String shortcut. */
  const TO_STRING_LIMIT: int := 16

  /** The least k in [lo, hi) with p(k), or NOT_FOUND. */
  function FirstIn(lo: int, hi: int, p: int -> bool): (r: int)
    requires 0 <= lo
    ensures r == NOT_FOUND || lo <= r < hi
    ensures r == NOT_FOUND ==> forall k :: lo <= k < hi ==> !p(k)
    ensures r != NOT_FOUND ==> p(r) && forall k :: lo <= k < r ==> !p(k)
    decreases hi - lo
  {
    if lo >= hi then NOT_FOUND else if p(lo) then lo else FirstIn(lo + 1, hi, p)
  }

  /** The greatest k in [lo, hi] with p(k), or NOT_FOUND. */
  function LastIn(lo: int, hi: int, p: int -> bool): (r: int)
    requires 0 <= lo
    ensures r == NOT_FOUND || lo <= r <= hi
    ensures r == NOT_FOUND ==> forall k :: lo <= k <= hi ==> !p(k)
    ensures r != NOT_FOUND ==> p(r) && forall k :: r < k <= hi ==> !p(k)
    decreases hi - lo
  {
    if hi < lo then NOT_FOUND else if p(hi) then hi else LastIn(lo, hi - 1, p)
  }

  /** `t` occurs in `s` starting at index `k`. */
  predicate OccursAt(s: Chars, t: Chars, k: int) {
    0 <= k && k + |t| <= |s| && s[k..k + |t|] == t
  }

  /** An occurrence in a prefix is an occurrence that ends inside the prefix. */
  lemma PrefixOccurrences(s: Chars, t: Chars, e: int)
    requires 0 <= e <= |s|
    ensures forall k :: OccursAt(s[..e], t, k) <==> OccursAt(s, t, k) && k + |t| <= e
  {
    forall k
      ensures OccursAt(s[..e], t, k) <==> OccursAt(s, t, k) && k + |t| <= e
    {
      if 0 <= k && k + |t| <= e {
        assert s[..e][k..k + |t|] == s[k..k + |t|];
      }
    }
  }

  /**
    indexOf(sequence, search, beginIndex), which hands the search to String.indexOf(String, int):
    the least k >= beginIndex at which `t` occurs. A negative beginIndex searches from 0,
    and an empty `t` asked for at or past the end is found at the length.
   */
  function IndexOf(s: Chars, t: Chars, begin: int): (r: int)
    ensures -1 <= r <= |s|
    ensures r >= 0 ==> OccursAt(s, t, r) && (begin <= r || (t == [] && r == |s|))
    ensures r >= 0 ==> forall k :: begin <= k < r ==> !OccursAt(s, t, k)
    ensures r == NOT_FOUND <==> t != [] && forall k :: begin <= k ==> !OccursAt(s, t, k)
  {
    var from := if begin < 0 then 0 else begin;
    if from >= |s| then (if |t| == 0 then |s| else NOT_FOUND)
    else
      var occurs := k => OccursAt(s, t, k);
      assert forall k :: occurs(k) == OccursAt(s, t, k);
      FirstIn(from, |s| - |t| + 1, occurs)
  }

  /**
    indexOf(sequence, search, beginIndex, endIndex): the bounds are normalised (beginIndex
    past the length finds nothing, a negative one counts as 0, endIndex is clamped to the
    length, an empty range finds nothing) and String.indexOf(String, int, int) then finds
    the first occurrence lying wholly inside [beginIndex, endIndex).
   */
  function IndexOfRange(s: Chars, t: Chars, begin: int, end: int): (r: int)
    ensures begin > |s| ==> r == NOT_FOUND
    ensures r >= 0 ==> begin <= r && r + |t| <= end && OccursAt(s, t, r)
    ensures r >= 0 ==> r < end && r < |s|
    ensures r >= 0 ==> forall k :: begin <= k < r ==> !OccursAt(s, t, k)
    ensures r == NOT_FOUND ==>
      forall k :: begin <= k < end && k < |s| && k + |t| <= end ==> !OccursAt(s, t, k)
    ensures r >= NOT_FOUND
  {
    var n := |s|;
    if begin > n then NOT_FOUND
    else
      var b := if begin < 0 then 0 else begin;
      var e := if end > n then n else end;
      if e <= b then NOT_FOUND
      else
        PrefixOccurrences(s, t, e);
        IndexOf(s[..e], t, b)
  }

  /** `s` holds the surrogate pair of the supplementary code point `cp` at k and k + 1. */
  predicate PairAt(s: Chars, cp: int, k: int) {
    IsSupplementary(cp) && 0 <= k && k + 1 < |s| &&
    s[k] == HighSurrogate(cp) && s[k + 1] == LowSurrogate(cp)
  }

  /**
    The search indexOf(sequence, int search, beginIndex, endIndex) performs once its
    bounds are normalised: a value below MIN_SUPPLEMENTARY_CODE_POINT is looked for as a
    single unit, a supplementary code point as its surrogate pair lying wholly inside the
    range, and a value above MAX_CODE_POINT is never found.
   */
  function CodePointIndex(s: Chars, cp: int, begin: int, end: int): (r: int)
    ensures r == NOT_FOUND || (0 <= r && begin <= r && r < end && r < |s|)
    ensures cp < MIN_SUPPLEMENTARY_CODE_POINT && r >= 0 ==>
      s[r] == cp && forall k :: begin <= k < r && 0 <= k ==> s[k] != cp
    ensures cp < MIN_SUPPLEMENTARY_CODE_POINT && r == NOT_FOUND ==>
      forall k :: begin <= k < end && 0 <= k < |s| ==> s[k] != cp
    ensures IsSupplementary(cp) && r >= 0 ==>
      r + 1 < end && PairAt(s, cp, r) && forall k :: begin <= k < r ==> !PairAt(s, cp, k)
    ensures IsSupplementary(cp) && r == NOT_FOUND ==>
      forall k :: begin <= k && k + 1 < end ==> !PairAt(s, cp, k)
    ensures cp > MAX_CODE_POINT ==> r == NOT_FOUND
  {
    var b := if begin < 0 then 0 else begin;
    var n := |s|;
    if b > n then NOT_FOUND
    else
      var e := if end > n then n else end;
      if e <= b then NOT_FOUND
      else if cp < MIN_SUPPLEMENTARY_CODE_POINT then
        var unit := k => 0 <= k < n && s[k] == cp;
        assert forall k :: unit(k) == (0 <= k < n && s[k] == cp);
        FirstIn(b, e, unit)
      else if cp <= MAX_CODE_POINT then
        var pair := k => PairAt(s, cp, k);
        assert forall k :: pair(k) == PairAt(s, cp, k);
        FirstIn(b, e - 1, pair)
      else NOT_FOUND
  }

  /** indexOf(sequence, int search, beginIndex, endIndex): the generic scanning loops. */
  method IndexOfCodePoint(s: Chars, search: int, beginIndex: int, endIndex: int) returns (r: int)
    ensures r == CodePointIndex(s, search, beginIndex, endIndex)
  {
    var begin, end := beginIndex, endIndex;
    if begin < 0 {
      begin := 0;
    }
    var length := |s|;
    if begin > length {
      return NOT_FOUND;
    }
    if end > length {
      end := length;
    }
    if end <= begin {
      return NOT_FOUND;
    }
    // Basic Multilingual Plane
    if search < MIN_SUPPLEMENTARY_CODE_POINT {
      for i := begin to end
        invariant forall k :: begin <= k < i ==> s[k] != search
      {
        if s[i] == search {
          return i;
        }
      }
      return NOT_FOUND;
    }
    // supplementary characters
    if search <= MAX_CODE_POINT {
      var chars := ToChars(search).value;
      assert chars == [HighSurrogate(search), LowSurrogate(search)];
      var i := begin;
      while i < end - 1
        invariant begin <= i
        invariant forall k :: begin <= k < i ==> !PairAt(s, search, k)
      {
        var high := s[i];
        var low := s[i + 1];
        if high == chars[0] && low == chars[1] {
          assert PairAt(s, search, i);
          return i;
        }
        i := i + 1;
      }
    }
    return NOT_FOUND;
  }

  /** Searching the whole of `s` for a single code unit finds it exactly when `s` contains it. */
  lemma CodePointIndexOfUnit(s: Chars, c: CodeUnit)
    ensures CodePointIndex(s, c, 0, |s|) >= 0 <==> c in s
  {
    if c in s {
      var k :| 0 <= k < |s| && s[k] == c;
      assert CodePointIndex(s, c, 0, |s|) != NOT_FOUND;
    }
  }

  /** indexOf(sequence, int search, beginIndex) is the four-argument search up to the length. */
  method IndexOfCodePointFrom(s: Chars, search: int, beginIndex: int) returns (r: int)
    ensures r == CodePointIndex(s, search, beginIndex, |s|)
  {
    r := IndexOfCodePoint(s, search, beginIndex, |s|);
  }

  /**
    lastIndexOf(sequence, search, start): the greatest r <= start at which `search` occurs.
    A null argument finds nothing, start is clamped to the length, a negative start or a
    needle longer than the text finds nothing, and an empty needle is found at the clamped start.
   */
  function LastIndex(s: CharSeq, t: CharSeq, start: int): (r: int)
    ensures r >= NOT_FOUND
    ensures s.None? || t.None? ==> r == NOT_FOUND
    ensures r >= 0 ==> s.Some? && t.Some? && r <= start && OccursAt(s.value, t.value, r)
    ensures r >= 0 ==> forall k :: r < k <= start ==> !OccursAt(s.value, t.value, k)
    ensures s.Some? && t.Some? && r == NOT_FOUND ==>
      forall k :: k <= start ==> !OccursAt(s.value, t.value, k)
  {
    if s.None? || t.None? then NOT_FOUND
    else
      var n, m := |s.value|, |t.value|;
      var st := if start > n then n else start;
      if st < 0 || m > n then NOT_FOUND
      else if m == 0 then st
      else
        var occurs := k => OccursAt(s.value, t.value, k);
        assert forall k :: occurs(k) == OccursAt(s.value, t.value, k);
        LastIn(0, if st + m > n then n - m else st, occurs)
  }

  /** checkLaterThan1: compares units 1 .. m-1 of the candidate from both ends towards the middle. */
  method CheckLaterThan1(s: Chars, t: Chars, searchLength: int, start1: int) returns (r: bool)
    requires searchLength == |t| && 0 <= start1 && start1 + searchLength <= |s|
    ensures r <==> forall k :: 1 <= k < searchLength ==> s[start1 + k] == t[k]
  {
    var i, j := 1, searchLength - 1;
    while i <= j
      invariant 1 <= i <= j + 2 && i + j == searchLength
      invariant forall k :: 1 <= k < i ==> s[start1 + k] == t[k]
      invariant forall k :: j < k < searchLength ==> s[start1 + k] == t[k]
    {
      if s[start1 + i] != t[i] || s[start1 + j] != t[j] {
        return false;
      }
      i, j := i + 1, j - 1;
    }
    return true;
  }

  /** The first unit matches and checkLaterThan1 accepts exactly when the needle occurs there. */
  lemma OccursAtByUnits(s: Chars, t: Chars, k: int)
    requires |t| > 0 && 0 <= k && k + |t| <= |s|
    ensures OccursAt(s, t, k) <==> s[k] == t[0] && forall j :: 1 <= j < |t| ==> s[k + j] == t[j]
  {
    if s[k] == t[0] && forall j :: 1 <= j < |t| ==> s[k + j] == t[j] {
      assert forall j :: 0 <= j < |t| ==> s[k..k + |t|][j] == t[j];
    }
  }

  /** lastIndexOf: the generic backward scan over the first unit of the needle. */
  method LastIndexOf(sequence: CharSeq, search: CharSeq, start: int) returns (r: int)
    ensures r == LastIndex(sequence, search, start)
  {
    if search.None? || sequence.None? {
      return NOT_FOUND;
    }
    var s, t := sequence.value, search.value;
    var sequenceLength := |s|;
    var searchLength := |t|;
    var st := start;
    if st > sequenceLength {
      st := sequenceLength;
    }
    if st < 0 || searchLength > sequenceLength {
      return NOT_FOUND;
    }
    if searchLength == 0 {
      return st;
    }
    if st + searchLength > sequenceLength {
      st := sequenceLength - searchLength;
    }
    ghost var top := st;
    var char0 := t[0];
    var i := st;
    while true
      invariant 0 <= i <= top && top + searchLength <= sequenceLength
      invariant forall k :: i < k <= top ==> !OccursAt(s, t, k)
      decreases i
    {
      while s[i] != char0
        invariant 0 <= i <= top
        invariant forall k :: i < k <= top ==> !OccursAt(s, t, k)
        decreases i
      {
        OccursAtByUnits(s, t, i);
        i := i - 1;
        if i < 0 {
          return NOT_FOUND;
        }
      }
      var later := CheckLaterThan1(s, t, searchLength, i);
      OccursAtByUnits(s, t, i);
      if later {
        return i;
      }
      i := i - 1;
      if i < 0 {
        return NOT_FOUND;
      }
    }
  }

  /**
    Two units match when they are equal or, ignoring case, when their upper-case forms are
    equal or the lower-case forms of those upper-case forms are.
   */
  predicate UnitsMatch(tb: CharTables, ignoreCase: bool, a: CodeUnit, b: CodeUnit) {
    a == b ||
    (ignoreCase &&
     (tb.toUpperCase(a) == tb.toUpperCase(b) ||
      tb.toLowerCase(tb.toUpperCase(a)) == tb.toLowerCase(tb.toUpperCase(b))))
  }

  /** Unit k of the region at aOffset in `a` exists and matches unit k of the region at bOffset in `b`. */
  predicate MatchAt(tb: CharTables, ignoreCase: bool, a: Chars, aOffset: int, b: Chars, bOffset: int, k: int) {
    0 <= aOffset + k < |a| && 0 <= bOffset + k < |b| &&
    UnitsMatch(tb, ignoreCase, a[aOffset + k], b[bOffset + k])
  }

  /**
    regionMatches: both offsets and the length are non-negative, the region fits in both
    sequences, and the units match pairwise.
   */
  predicate RegionMatch(tb: CharTables, ignoreCase: bool, a: Chars, aOffset: int, b: Chars, bOffset: int, length: int) {
    0 <= aOffset && 0 <= bOffset && 0 <= length &&
    aOffset + length <= |a| && bOffset + length <= |b| &&
    forall k :: 0 <= k < length ==> MatchAt(tb, ignoreCase, a, aOffset, b, bOffset, k)
  }

  /** regionMatches: the generic loop, counting `length` down. */
  method RegionMatches(tb: CharTables, ignoreCase: bool, thisSequence: Chars, thisOffset: int,
                       thatSequence: Chars, thatOffset: int, length: int) returns (r: bool)
    ensures r == RegionMatch(tb, ignoreCase, thisSequence, thisOffset, thatSequence, thatOffset, length)
  {
    if thisOffset < 0 || thatOffset < 0 || length < 0 {
      return false;
    }
    var thisLength := |thisSequence| - thisOffset;
    var thatLength := |thatSequence| - thatOffset;
    if thisLength < length || thatLength < length {
      return false;
    }
    var thisIndex, thatIndex := thisOffset, thatOffset;
    var remaining := length;
    while remaining > 0
      invariant 0 <= remaining <= length
      invariant thisIndex == thisOffset + (length - remaining)
      invariant thatIndex == thatOffset + (length - remaining)
      invariant forall k :: 0 <= k < length - remaining ==>
        MatchAt(tb, ignoreCase, thisSequence, thisOffset, thatSequence, thatOffset, k)
    {
      remaining := remaining - 1;
      var thisChar := thisSequence[thisIndex];
      var thatChar := thatSequence[thatIndex];
      thisIndex, thatIndex := thisIndex + 1, thatIndex + 1;
      if thisChar == thatChar {
        continue;
      }
      if !ignoreCase {
        assert !MatchAt(tb, ignoreCase, thisSequence, thisOffset, thatSequence, thatOffset, length - remaining - 1);
        return false;
      }
      var thisCharUpper := tb.toUpperCase(thisChar);
      var thatCharUpper := tb.toUpperCase(thatChar);
      if thisCharUpper != thatCharUpper
         && tb.toLowerCase(thisCharUpper) != tb.toLowerCase(thatCharUpper) {
        assert !MatchAt(tb, ignoreCase, thisSequence, thisOffset, thatSequence, thatOffset, length - remaining - 1);
        return false;
      }
    }
    return true;
  }

  /** Without case folding, a region matches exactly when the two slices are equal. */
  lemma RegionMatchCaseSensitive(tb: CharTables, a: Chars, aOffset: int, b: Chars, bOffset: int, length: int)
    requires 0 <= aOffset && 0 <= bOffset && 0 <= length
    requires aOffset + length <= |a| && bOffset + length <= |b|
    ensures RegionMatch(tb, false, a, aOffset, b, bOffset, length) <==>
      a[aOffset..aOffset + length] == b[bOffset..bOffset + length]
  {
    var x, y := a[aOffset..aOffset + length], b[bOffset..bOffset + length];
    assert forall k :: 0 <= k < length ==> x[k] == a[aOffset + k] && y[k] == b[bOffset + k];
    if x == y {
      assert forall k :: 0 <= k < length ==> MatchAt(tb, false, a, aOffset, b, bOffset, k);
    }
    if RegionMatch(tb, false, a, aOffset, b, bOffset, length) {
      forall k | 0 <= k < length
        ensures x[k] == y[k]
      {
        assert MatchAt(tb, false, a, aOffset, b, bOffset, k);
      }
      assert x == y;
    }
  }

  /** A region that fits in its sequence matches itself, with or without case folding. */
  lemma RegionMatchReflexive(tb: CharTables, ignoreCase: bool, a: Chars, offset: int, length: int)
    requires 0 <= offset && 0 <= length && offset + length <= |a|
    ensures RegionMatch(tb, ignoreCase, a, offset, a, offset, length)
  {
  }

  /** Case folding only adds matches, and matching is symmetric in the two sequences. */
  lemma RegionMatchFolding(tb: CharTables, a: Chars, aOffset: int, b: Chars, bOffset: int, length: int)
    ensures RegionMatch(tb, false, a, aOffset, b, bOffset, length) ==>
      RegionMatch(tb, true, a, aOffset, b, bOffset, length)
    ensures RegionMatch(tb, true, a, aOffset, b, bOffset, length) ==>
      RegionMatch(tb, true, b, bOffset, a, aOffset, length)
  {
    forall k | MatchAt(tb, false, a, aOffset, b, bOffset, k)
      ensures MatchAt(tb, true, a, aOffset, b, bOffset, k)
    {
    }
    forall k | MatchAt(tb, true, a, aOffset, b, bOffset, k)
      ensures MatchAt(tb, true, b, bOffset, a, aOffset, k)
    {
    }
  }
}
