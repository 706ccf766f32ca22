/**
  UTF-16 as Java uses it (RFC 2781): Character.toChars encodes a code point as one or
  two code units (section 2.1), and CharSequence.codePoints() decodes code units back to
  code points (section 2.2), passing an unpaired surrogate through as its own value.
 */
module Utf16 {
  import opened JavaLang

  /** Character.MIN_SUPPLEMENTARY_CODE_POINT. */
  const MIN_SUPPLEMENTARY_CODE_POINT: int := 0x1_0000

  /** Character.MAX_CODE_POINT. */
  const MAX_CODE_POINT: int := 0x10_FFFF

  /** Character.isValidCodePoint. */
  predicate IsValidCodePoint(cp: int) {
    0 <= cp <= MAX_CODE_POINT
  }

  /** Character.isSupplementaryCodePoint. */
  predicate IsSupplementary(cp: int) {
    MIN_SUPPLEMENTARY_CODE_POINT <= cp <= MAX_CODE_POINT
  }

  /** A Unicode scalar value: a code point that is not a surrogate. */
  predicate IsScalarValue(cp: int) {
    IsValidCodePoint(cp) && !IsSurrogate(cp)
  }

  /** Character.highSurrogate: W1 of RFC 2781 section 2.1. */
  function HighSurrogate(cp: int): (w1: CodeUnit)
    requires IsSupplementary(cp)
    ensures IsHighSurrogate(w1)
  {
    0xD800 + (cp - 0x1_0000) / 0x400
  }

  /** Character.lowSurrogate: W2 of RFC 2781 section 2.1. */
  function LowSurrogate(cp: int): (w2: CodeUnit)
    requires IsSupplementary(cp)
    ensures IsLowSurrogate(w2)
  {
    0xDC00 + (cp - 0x1_0000) % 0x400
  }

  /** Character.toCodePoint: the code point a surrogate pair stands for (RFC 2781 section 2.2). */
  function ToCodePoint(high: CodeUnit, low: CodeUnit): (cp: int)
    requires IsHighSurrogate(high) && IsLowSurrogate(low)
    ensures IsSupplementary(cp)
    ensures HighSurrogate(cp) == high && LowSurrogate(cp) == low
  {
    var u := (high - 0xD800) * 0x400 + (low - 0xDC00);
    DivModUnique(u, high - 0xD800, low - 0xDC00);
    0x1_0000 + u
  }

  /** The quotient and remainder by 0x400 are the only ones. */
  lemma DivModUnique(u: int, q: int, r: int)
    requires 0 <= r < 0x400 && u == q * 0x400 + r
    ensures u / 0x400 == q && u % 0x400 == r
  {
  }

  /** Splitting a supplementary code point and joining the halves gives it back. */
  lemma SplitJoin(cp: int)
    requires IsSupplementary(cp)
    ensures ToCodePoint(HighSurrogate(cp), LowSurrogate(cp)) == cp
  {
  }

  /**
    Character.toChars: one code unit for a code point of the Basic Multilingual Plane,
    a high/low surrogate pair for a supplementary one, IllegalArgumentException otherwise.
   */
  function ToChars(cp: int): (r: Result<Chars>)
    ensures r.Ok? <==> IsValidCodePoint(cp)
    ensures r.Ok? && cp < MIN_SUPPLEMENTARY_CODE_POINT ==> r.value == [cp]
    ensures r.Ok? && cp >= MIN_SUPPLEMENTARY_CODE_POINT ==>
      |r.value| == 2 && IsHighSurrogate(r.value[0]) && IsLowSurrogate(r.value[1]) &&
      ToCodePoint(r.value[0], r.value[1]) == cp
  {
    if 0 <= cp < MIN_SUPPLEMENTARY_CODE_POINT then Ok([cp])
    else if IsValidCodePoint(cp) then
      SplitJoin(cp);
      Ok([HighSurrogate(cp), LowSurrogate(cp)])
    else Throws(IllegalArgumentException)
  }

  /** The code units of a sequence of code points, each encoded by ToChars. */
  function Encode(cps: seq<int>): (s: Chars)
    requires forall i :: 0 <= i < |cps| ==> IsValidCodePoint(cps[i])
    ensures |cps| <= |s| <= 2 * |cps|
  {
    if |cps| == 0 then [] else ToChars(cps[0]).value + Encode(cps[1..])
  }

  /** Encoding one more code point appends its ToChars units. */
  lemma {:induction false} EncodeAppend(cps: seq<int>, cp: int)
    requires forall i :: 0 <= i < |cps| ==> IsValidCodePoint(cps[i])
    requires IsValidCodePoint(cp)
    ensures Encode(cps + [cp]) == Encode(cps) + ToChars(cp).value
  {
    if |cps| > 0 {
      assert (cps + [cp])[1..] == cps[1..] + [cp];
      EncodeAppend(cps[1..], cp);
    }
  }

  /**
    CharSequence.codePoints(): a high surrogate followed by a low surrogate becomes
    one supplementary code point; every other unit, an unpaired surrogate included,
    is its own code point.
   */
  function CodePoints(s: Chars): (cps: seq<int>)
    ensures |cps| <= |s| <= 2 * |cps|
    ensures forall i :: 0 <= i < |cps| ==> IsValidCodePoint(cps[i])
    decreases |s|
  {
    if |s| == 0 then []
    else if |s| >= 2 && IsHighSurrogate(s[0]) && IsLowSurrogate(s[1]) then
      [ToCodePoint(s[0], s[1])] + CodePoints(s[2..])
    else [s[0] as int] + CodePoints(s[1..])
  }

  /** Re-encoding the decoded code points gives back every code unit, unpaired surrogates included. */
  lemma {:induction false} EncodeCodePoints(s: Chars)
    ensures Encode(CodePoints(s)) == s
    decreases |s|
  {
    if |s| == 0 {
    } else if |s| >= 2 && IsHighSurrogate(s[0]) && IsLowSurrogate(s[1]) {
      var cp := ToCodePoint(s[0], s[1]);
      EncodeCodePoints(s[2..]);
      assert CodePoints(s)[1..] == CodePoints(s[2..]);
      assert s == [s[0], s[1]] + s[2..];
    } else {
      EncodeCodePoints(s[1..]);
      assert CodePoints(s)[1..] == CodePoints(s[1..]);
      assert s == [s[0]] + s[1..];
    }
  }

  /** Decoding the encoding of Unicode scalar values gives them back (RFC 2781 sections 2.1 and 2.2). */
  lemma {:induction false} CodePointsEncode(cps: seq<int>)
    requires forall i :: 0 <= i < |cps| ==> IsValidCodePoint(cps[i]) && !IsSurrogate(cps[i])
    ensures CodePoints(Encode(cps)) == cps
  {
    if |cps| > 0 {
      var s := Encode(cps);
      var rest := Encode(cps[1..]);
      CodePointsEncode(cps[1..]);
      assert s == ToChars(cps[0]).value + rest;
      if cps[0] < MIN_SUPPLEMENTARY_CODE_POINT {
        assert s[1..] == rest;
      } else {
        assert s[2..] == rest;
      }
      assert cps == [cps[0]] + cps[1..];
    }
  }

  /** Text without surrogates decodes unit for unit. */
  lemma {:induction false} CodePointsWithoutSurrogates(s: Chars)
    requires forall i :: 0 <= i < |s| ==> !IsSurrogate(s[i])
    ensures CodePoints(s) == s
    decreases |s|
  {
    if |s| > 0 {
      CodePointsWithoutSurrogates(s[1..]);
    }
  }
}
