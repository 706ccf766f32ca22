# batman-aide core, modelled in Dafny

This project models the string, object, array and constant helpers of the
`batman-aide` Java library and proves properties about them:

- `_CharSequenceAide`, the package-private searching and region-matching
  primitives over `CharSequence`;
- `StringAide`, with its emptiness, blankness, case and character-class tests,
  `indexOf*` searches, `contains*` tests and `toCharArray`;
- `TmpStringContains`, the ranged `contains` / `containsIgnoreCase` overloads;
- `ObjectAide`, with its null and emptiness tests, `firstNonnull` and
  `defaultIfNull`;
- `ArrayAide`, with `length`, `isEmpty` and `isNotEmpty`;
- `ConstantAide`, with `CONST`, `CONST_BYTE` and `CONST_SHORT`.

A Java `CharSequence` is a sequence of UTF-16 code units. `null` is `None`
(`JavaLang.CharSeq = Option<Chars>`), and a code unit is an integer in
`0..0xFFFF` (surrogates included).
A thrown exception is the `Throws` case of `JavaLang.Result`.

The JDK `Character` classification tables are not modelled. They enter as a
parameter `tb: CharTables` of record functions: `isWhitespace`, `isSpaceChar`,
`isLetter`, `isDigit`, `isUpperCase`, `isLowerCase`, `toUpperCase` and
`toLowerCase`.

`Utf16` models `Character.toChars` and `CharSequence.codePoints()`, following
section 2 of RFC 2781, and proves that they are inverses.

Java loops are modelled as Dafny methods with loop invariants. Each method is
proved equal to a specification function or predicate. The properties the
library promises are then proved about that specification as lemmas: first
match and minimality, the null and empty cases, how the overloads relate, and
the inverse pairs (contains / containsNone, allNull / anyNonnull, case-sensitive
versus case-insensitive).

The source files are under `batman-aide/src/main/java/batman/aide/`; the
table cites them by that path.

## Model

| member | source | states |
|---|---|---|
| Utf16.HighSurrogate | batman-aide/src/main/java/batman/aide/StringAide.java:1685-1689 | the first unit `Character.toChars` yields for a supplementary code point is a high surrogate |
| Utf16.LowSurrogate | batman-aide/src/main/java/batman/aide/StringAide.java:1685-1689 | the second unit is a low surrogate |
| Utf16.ToCodePoint | batman-aide/src/main/java/batman/aide/StringAide.java:157-162 | joining a high and a low surrogate gives a supplementary code point that splits back into the same two units |
| Utf16.SplitJoin | batman-aide/src/main/java/batman/aide/StringAide.java:1685-1689 | splitting a supplementary code point into surrogates and joining them gives it back |
| Utf16.ToChars | batman-aide/src/main/java/batman/aide/StringAide.java:1685-1689 | `Character.toChars` succeeds exactly on valid code points (otherwise IllegalArgumentException); a BMP code point gives one unit, a supplementary one its surrogate pair |
| Utf16.Encode | batman-aide/src/main/java/batman/aide/StringAide.java:1681-1693 | concatenated UTF-16 of a code point array has between n and 2n units |
| Utf16.EncodeAppend | batman-aide/src/main/java/batman/aide/StringAide.java:1685-1691 | encoding one more code point appends its `toChars` units (the loop step that fills `tempChars`) |
| Utf16.CodePoints | batman-aide/src/main/java/batman/aide/StringAide.java:157-162 | `codePoints()` yields only valid code points, between half and all of the unit count |
| Utf16.EncodeCodePoints | batman-aide/src/main/java/batman/aide/StringAide.java:52-54 | re-encoding the code points of any unit sequence (unpaired surrogates included) gives the units back |
| Utf16.CodePointsEncode | batman-aide/src/main/java/batman/aide/StringAide.java:1681-1693 | decoding the encoding of Unicode scalar values (valid code points outside the surrogate range) gives them back |
| Utf16.CodePointsWithoutSurrogates | batman-aide/src/main/java/batman/aide/StringAide.java:157-162 | without surrogates, the code points are the units themselves |
| ArrayAide.Length | batman-aide/src/main/java/batman/aide/ArrayAide.java:29-31 | a null array has length 0, otherwise its element count |
| ArrayAide.IsEmpty | batman-aide/src/main/java/batman/aide/ArrayAide.java:33-67 | true iff the array is null or has no elements |
| ArrayAide.IsNotEmpty | batman-aide/src/main/java/batman/aide/ArrayAide.java:69-103 | true iff the array is non-null and has an element |
| ConstantAide.Const | batman-aide/src/main/java/batman/aide/ConstantAide.java:45-184 | `CONST` returns its argument unchanged |
| ConstantAide.NarrowToByte | batman-aide/src/main/java/batman/aide/ConstantAide.java:204 | the `(byte)` cast lands in -128..127, is congruent modulo 256 and keeps in-range values |
| ConstantAide.NarrowToShort | batman-aide/src/main/java/batman/aide/ConstantAide.java:225 | the `(short)` cast lands in -32768..32767, is congruent modulo 65536 and keeps in-range values |
| ConstantAide.ConstShort | batman-aide/src/main/java/batman/aide/ConstantAide.java:221-226 | returns the value iff it is a valid short, otherwise throws IllegalArgumentException |
| ConstantAide.ConstByte | batman-aide/src/main/java/batman/aide/ConstantAide.java:200-205 | as written: returns only for 127 and throws IllegalArgumentException for every other int |
| ConstantAide.ConstByteRefusesValidBytes | batman-aide/src/main/java/batman/aide/ConstantAide.java:201 | every byte value below 127 is refused |
| ConstantAide.ConstByteIntended | batman-aide/src/main/java/batman/aide/ConstantAide.java:189-205 | the documented behaviour: returns the value iff it lies in -128..127 |
| ConstantAide.ConstByteDivergence | batman-aide/src/main/java/batman/aide/ConstantAide.java:200-205 | on byte values the written and the documented guard agree exactly at 127 |
| ObjectAide.IsArray | batman-aide/src/main/java/batman/aide/ObjectAide.java:45-47 | true iff the object is an array (so never for null) |
| ObjectAide.IsEmpty | batman-aide/src/main/java/batman/aide/ObjectAide.java:75-95 | null is empty; a char sequence, array, collection or map is empty iff it has no elements; an Optional iff absent; any other object is not |
| ObjectAide.IsNotEmpty | batman-aide/src/main/java/batman/aide/ObjectAide.java:122-124 | exactly the negation of isEmpty |
| ObjectAide.FirstSome | batman-aide/src/main/java/batman/aide/ObjectAide.java:252-256 | the first non-null element, or null iff every element is null |
| ObjectAide.FirstNonnull | batman-aide/src/main/java/batman/aide/ObjectAide.java:252-256 | a null array gives null; otherwise the first non-null element |
| ObjectAide.AllNonnull | batman-aide/src/main/java/batman/aide/ObjectAide.java:158-160 | true iff the array is non-null and no element is null (so true for an empty array) |
| ObjectAide.AnyNonnull | batman-aide/src/main/java/batman/aide/ObjectAide.java:204-206 | true iff firstNonnull finds something |
| ObjectAide.AllNull | batman-aide/src/main/java/batman/aide/ObjectAide.java:181-183 | exactly the negation of anyNonnull |
| ObjectAide.AnyNull | batman-aide/src/main/java/batman/aide/ObjectAide.java:228-230 | exactly the negation of allNonnull |
| ObjectAide.DefaultIfNull | batman-aide/src/main/java/batman/aide/ObjectAide.java:300-302 | the value when non-null, otherwise the default |
| ObjectAide.AnyNonnullMeansSomeElement | batman-aide/src/main/java/batman/aide/ObjectAide.java:204-206 | anyNonnull holds iff some element of a non-null array is non-null |
| ObjectAide.NullCounting | batman-aide/src/main/java/batman/aide/ObjectAide.java:181-230 | allNull iff no element is non-null; anyNull iff the array is null or holds a null; the empty array is allNull but not anyNull; a null array is both |
| ObjectAide.AllNonnullAndAllNull | batman-aide/src/main/java/batman/aide/ObjectAide.java:158-183 | allNonnull and allNull hold together only for the empty array |
| ObjectAide.DefaultIfNullIsFirstNonnull | batman-aide/src/main/java/batman/aide/ObjectAide.java:300-302 | defaultIfNull(v, d) equals firstNonnull(v, d) |
| CharSequenceAide.FirstIn | batman-aide/src/main/java/batman/aide/_CharSequenceAide.java:240-278 | least index in a range satisfying a test, or -1 iff there is none (the shape of every forward search loop) |
| CharSequenceAide.LastIn | batman-aide/src/main/java/batman/aide/_CharSequenceAide.java:87-149 | greatest index satisfying a test, or -1 iff there is none (the backward search loop) |
| CharSequenceAide.PrefixOccurrences | batman-aide/src/main/java/batman/aide/_CharSequenceAide.java:67-85 | an occurrence in the prefix `subSequence(0, e)` is an occurrence in the whole that ends by e, and back |
| CharSequenceAide.IndexOf | batman-aide/src/main/java/batman/aide/_CharSequenceAide.java:41-52 | the first occurrence at or after beginIndex; -1 iff a non-empty search never occurs there; an empty search is found at min(max(begin, 0), length) |
| CharSequenceAide.IndexOfRange | batman-aide/src/main/java/batman/aide/_CharSequenceAide.java:67-85 | -1 when begin exceeds the length; a hit is the first occurrence at or after begin that ends by endIndex |
| CharSequenceAide.CodePointIndex | batman-aide/src/main/java/batman/aide/_CharSequenceAide.java:240-278 | a BMP search hits the first equal unit in range; a supplementary search hits the first matching surrogate pair; -1 iff none; above U+10FFFF always -1 |
| CharSequenceAide.IndexOfCodePoint | batman-aide/src/main/java/batman/aide/_CharSequenceAide.java:240-278 | the loop computes CodePointIndex |
| CharSequenceAide.CodePointIndexOfUnit | batman-aide/src/main/java/batman/aide/_CharSequenceAide.java:258-265 | searching for one code unit over the whole sequence succeeds iff the unit occurs |
| CharSequenceAide.IndexOfCodePointFrom | batman-aide/src/main/java/batman/aide/_CharSequenceAide.java:196-198 | the 3-arg form searches to the end of the sequence |
| CharSequenceAide.LastIndex | batman-aide/src/main/java/batman/aide/_CharSequenceAide.java:87-149 | null gives -1; a hit is the last occurrence starting at or before start; -1 iff none |
| CharSequenceAide.CheckLaterThan1 | batman-aide/src/main/java/batman/aide/_CharSequenceAide.java:151-158 | true iff every unit after the first matches |
| CharSequenceAide.OccursAtByUnits | batman-aide/src/main/java/batman/aide/_CharSequenceAide.java:131-148 | a first-unit match plus checkLaterThan1 is exactly an occurrence |
| CharSequenceAide.LastIndexOf | batman-aide/src/main/java/batman/aide/_CharSequenceAide.java:87-149 | the loop computes LastIndex |
| CharSequenceAide.RegionMatches | batman-aide/src/main/java/batman/aide/_CharSequenceAide.java:293-336 | false on a negative offset or a region past either end; otherwise true iff each pair of units is equal, or (ignoring case) equal after upper-casing or lower-casing |
| CharSequenceAide.RegionMatchCaseSensitive | batman-aide/src/main/java/batman/aide/_CharSequenceAide.java:293-336 | a case-sensitive match is exactly equality of the two slices |
| CharSequenceAide.RegionMatchReflexive | batman-aide/src/main/java/batman/aide/_CharSequenceAide.java:293-336 | a region in range matches itself, in both modes |
| CharSequenceAide.RegionMatchFolding | batman-aide/src/main/java/batman/aide/_CharSequenceAide.java:293-336 | a case-sensitive match is also a case-insensitive one, and case-insensitive matching is symmetric |
| StringAide.BmpDecodesUnitwise | batman-aide/src/main/java/batman/aide/StringAide.java:157-162 | without surrogates, the code-point loops see the same values as the unit loops |
| StringAide.EveryUnit | batman-aide/src/main/java/batman/aide/StringAide.java:955-965 | the `for` loop over units returns true iff every unit passes the test |
| StringAide.SomeUnit | batman-aide/src/main/java/batman/aide/StringAide.java:376-386 | the loop returns true iff some unit passes the test |
| StringAide.Length | batman-aide/src/main/java/batman/aide/StringAide.java:42-44 | 0 for null, otherwise the unit count |
| StringAide.CodepointLength | batman-aide/src/main/java/batman/aide/StringAide.java:52-54 | between half and all of length(); equal to it without surrogates |
| StringAide.IsEmpty | batman-aide/src/main/java/batman/aide/StringAide.java:62-64 | true iff length() is 0 (null included) |
| StringAide.IsNotEmpty | batman-aide/src/main/java/batman/aide/StringAide.java:72-74 | true iff non-null with a unit |
| StringAide.IsAllEmpty | batman-aide/src/main/java/batman/aide/StringAide.java:82-92 | a null or empty array is all-empty; otherwise true iff every element is empty |
| StringAide.IsAnyEmpty | batman-aide/src/main/java/batman/aide/StringAide.java:100-110 | false for a null or empty array; otherwise true iff some element is empty |
| StringAide.IsNoneEmpty | batman-aide/src/main/java/batman/aide/StringAide.java:118-120 | the negation of isAnyEmpty: true for a null or empty array, otherwise true iff every element is non-empty |
| StringAide.IsBlank | batman-aide/src/main/java/batman/aide/StringAide.java:135-146 | true iff null or every unit is whitespace |
| StringAide.IsBlankCoverSupplementary | batman-aide/src/main/java/batman/aide/StringAide.java:157-162 | length 0 is blank; without surrogates it agrees with isBlank |
| StringAide.IsNotBlank | batman-aide/src/main/java/batman/aide/StringAide.java:177-179 | true iff non-null with a non-whitespace unit |
| StringAide.IsNotBlankCoverSupplementary | batman-aide/src/main/java/batman/aide/StringAide.java:190-192 | true iff non-null with a non-whitespace code point |
| StringAide.IsAllBlank | batman-aide/src/main/java/batman/aide/StringAide.java:207-217 | null or empty array is all-blank; otherwise every element is blank |
| StringAide.IsAllBlankCoverSupplementary | batman-aide/src/main/java/batman/aide/StringAide.java:228-238 | as isAllBlank, with code points |
| StringAide.IsAnyBlank | batman-aide/src/main/java/batman/aide/StringAide.java:253-263 | false for a null or empty array; otherwise some element is blank |
| StringAide.IsAnyBlankCoverSupplementary | batman-aide/src/main/java/batman/aide/StringAide.java:274-284 | as isAnyBlank, with code points |
| StringAide.IsNoneBlank | batman-aide/src/main/java/batman/aide/StringAide.java:299-301 | the negation of isAnyBlank: true for a null or empty array, otherwise every element is not blank |
| StringAide.IsNoneBlankCoverSupplementary | batman-aide/src/main/java/batman/aide/StringAide.java:312-314 | as isNoneBlank, with code points |
| StringAide.VarargsQuantifiers | batman-aide/src/main/java/batman/aide/StringAide.java:82-314 | on a null or empty array every all/none form holds and every any form fails; on a non-empty array all implies any; all-empty implies all-blank and any-empty implies any-blank |
| StringAide.IsAllLowerCase | batman-aide/src/main/java/batman/aide/StringAide.java:331-341 | false when empty; otherwise every unit is lower case |
| StringAide.IsAnyLowerCase | batman-aide/src/main/java/batman/aide/StringAide.java:376-386 | false when empty; otherwise some unit is lower case |
| StringAide.IsAllUpperCase | batman-aide/src/main/java/batman/aide/StringAide.java:421-431 | false when empty; otherwise every unit is upper case |
| StringAide.IsAnyUpperCase | batman-aide/src/main/java/batman/aide/StringAide.java:466-476 | false when empty; otherwise some unit is upper case |
| StringAide.IsAllLowerCaseCoverSupplementary | batman-aide/src/main/java/batman/aide/StringAide.java:354-359 | false when empty; without surrogates it agrees with isAllLowerCase |
| StringAide.IsAnyLowerCaseCoverSupplementary | batman-aide/src/main/java/batman/aide/StringAide.java:399-404 | false when empty; without surrogates it agrees with isAnyLowerCase |
| StringAide.IsAllUpperCaseCoverSupplementary | batman-aide/src/main/java/batman/aide/StringAide.java:444-449 | false when empty; without surrogates it agrees with isAllUpperCase |
| StringAide.IsAnyUpperCaseCoverSupplementary | batman-aide/src/main/java/batman/aide/StringAide.java:489-494 | false when empty; without surrogates it agrees with isAnyUpperCase |
| StringAide.IsMixedCase | batman-aide/src/main/java/batman/aide/StringAide.java:512-532 | true iff there are at least two units, one upper case and one lower case |
| StringAide.PrefixMatch | batman-aide/src/main/java/batman/aide/StringAide.java:520-531 | a unit found in a prefix is found in the whole, so the early exit is sound |
| StringAide.IsMixedCaseCoverSupplementary | batman-aide/src/main/java/batman/aide/StringAide.java:547-565 | as isMixedCase, with code points (length counted in units) |
| StringAide.CaseRelations | batman-aide/src/main/java/batman/aide/StringAide.java:331-532 | all-lower implies any-lower, all-upper implies any-upper, mixed is exactly length ≥ 2 with an upper and a lower unit |
| StringAide.IsSpace | batman-aide/src/main/java/batman/aide/StringAide.java:582-592 | false for null; otherwise every unit is a space character (true when empty) |
| StringAide.IsWhitespace | batman-aide/src/main/java/batman/aide/StringAide.java:630-635 | false for null; otherwise every unit is whitespace |
| StringAide.IsAlpha | batman-aide/src/main/java/batman/aide/StringAide.java:673-683 | false when empty; otherwise every unit is a letter |
| StringAide.IsAlphanumeric | batman-aide/src/main/java/batman/aide/StringAide.java:718-728 | false when empty; otherwise every unit is a letter or digit |
| StringAide.IsAlphanumericSpace | batman-aide/src/main/java/batman/aide/StringAide.java:763-774 | false for null; otherwise every unit is a letter, digit or U+0020 |
| StringAide.IsAlphaSpace | batman-aide/src/main/java/batman/aide/StringAide.java:809-820 | false for null; otherwise every unit is a letter or U+0020 |
| StringAide.IsNumeric | batman-aide/src/main/java/batman/aide/StringAide.java:861-871 | false when empty; otherwise every unit is a digit |
| StringAide.IsNumericSpace | batman-aide/src/main/java/batman/aide/StringAide.java:913-924 | false for null; otherwise every unit is a digit or U+0020 |
| StringAide.IsAsciiPrintable | batman-aide/src/main/java/batman/aide/StringAide.java:955-965 | false for null; otherwise every unit is in 32..126 |
| StringAide.IsSpaceCoverSupplementary | batman-aide/src/main/java/batman/aide/StringAide.java:605-610 | false for null; without surrogates it agrees with isSpace |
| StringAide.IsWhitespaceCoverSupplementary | batman-aide/src/main/java/batman/aide/StringAide.java:651-656 | exactly a non-null isBlankCoverSupplementary; without surrogates it agrees with isWhitespace |
| StringAide.IsAlphaCoverSupplementary | batman-aide/src/main/java/batman/aide/StringAide.java:696-701 | false when empty; without surrogates it agrees with isAlpha |
| StringAide.IsAlphanumericCoverSupplementary | batman-aide/src/main/java/batman/aide/StringAide.java:741-746 | false when empty; without surrogates it agrees with isAlphanumeric |
| StringAide.IsAlphanumericSpaceCoverSupplementary | batman-aide/src/main/java/batman/aide/StringAide.java:787-792 | false for null; without surrogates it agrees with isAlphanumericSpace |
| StringAide.IsAlphaSpaceCoverSupplementary | batman-aide/src/main/java/batman/aide/StringAide.java:833-838 | false for null; without surrogates it agrees with isAlphaSpace |
| StringAide.IsNumericCoverSupplementary | batman-aide/src/main/java/batman/aide/StringAide.java:890-895 | false when empty; without surrogates it agrees with isNumeric |
| StringAide.IsNumericSpaceCoverSupplementary | batman-aide/src/main/java/batman/aide/StringAide.java:938-943 | false for null; without surrogates it agrees with isNumericSpace |
| StringAide.CharClassInclusions | batman-aide/src/main/java/batman/aide/StringAide.java:582-943 | alpha and numeric imply alphanumeric; every class implies its "space" variant; isWhitespace is isBlank on non-null input; null is blank but not whitespace |
| StringAide.UnitChecksImplyCodePointChecks | batman-aide/src/main/java/batman/aide/StringAide.java:331-895 | on text whose surrogates are all unclassified, a unit-wise class test implies its code-point variant |
| StringAide.Units | batman-aide/src/main/java/batman/aide/StringAide.java:2382-2395 | the units `toCharArray` yields, one per length() |
| StringAide.ToCharArray | batman-aide/src/main/java/batman/aide/StringAide.java:2382-2395 | an array of length() units equal to the sequence (empty for null) |
| StringAideSearch.IndexOf | batman-aide/src/main/java/batman/aide/StringAide.java:996-1001 | null gives -1; a hit is the first occurrence at or after beginIndex; -1 iff a non-empty search never occurs there |
| StringAideSearch.IndexOfBetween | batman-aide/src/main/java/batman/aide/StringAide.java:1016-1021 | null gives -1; a hit is the first occurrence at or after beginIndex and ends by endIndex; -1 means no occurrence starts in [beginIndex, endIndex) and ends by endIndex |
| StringAideSearch.IgnoreCaseIndex | batman-aide/src/main/java/batman/aide/StringAide.java:1047-1067 | null gives -1; a hit is the first case-insensitive match at or after max(begin, 0); -1 iff none; an empty search hits max(begin, 0) up to length + 1 |
| StringAideSearch.IndexOfIgnoreCase | batman-aide/src/main/java/batman/aide/StringAide.java:1047-1067 | the loop computes IgnoreCaseIndex |
| StringAideSearch.IgnoreCaseEmptySearchPastEnd | batman-aide/src/main/java/batman/aide/StringAide.java:1055-1066 | an empty search from length + 1 is found at length + 1 case-insensitively but at length by indexOf |
| StringAideSearch.IgnoreCaseFindsNoLater | batman-aide/src/main/java/batman/aide/StringAide.java:1032-1067 | whenever indexOf finds a non-empty search, indexOfIgnoreCase finds it at the same place or earlier |
| StringAideSearch.IndexOfIgnoreCaseBetween | batman-aide/src/main/java/batman/aide/StringAide.java:1081-1084 | as written: null sequence throws NullPointerException; a negative endIndex throws IndexOutOfBoundsException; otherwise, for a non-empty search, a hit is the first case-insensitive match at or after beginIndex that ends by endIndex, and -1 means no such match exists |
| StringAideSearch.PrefixRegionMatch | batman-aide/src/main/java/batman/aide/StringAide.java:1081-1084 | a case-insensitive match in the prefix `subSequence(0, end)` is exactly a match in the whole sequence that ends by end |
| StringAideSearch.IndexOfIgnoreCaseBetweenNullSafe | batman-aide/src/main/java/batman/aide/StringAide.java:1069-1084 | the documented behaviour: null gives -1, otherwise the as-written value; for a non-empty search a hit is the first match in range and -1 means none lies in range |
| StringAideSearch.MinSoFar | batman-aide/src/main/java/batman/aide/StringAide.java:1119-1138 | the running minimum of the hits is either Integer.MAX_VALUE or some non-null search's hit, and never above any hit |
| StringAideSearch.MinSoFarStep | batman-aide/src/main/java/batman/aide/StringAide.java:1126-1135 | one loop iteration extends the minimum by the next search |
| StringAideSearch.LeastHit | batman-aide/src/main/java/batman/aide/StringAide.java:1137 | Integer.MAX_VALUE is mapped to -1; any other value is the minimum |
| StringAideSearch.LeastHitIsLeast | batman-aide/src/main/java/batman/aide/StringAide.java:1119-1138 | when every hit stays below Integer.MAX_VALUE, the result is -1 iff nothing is found, and is otherwise a found hit no greater than any other |
| StringAideSearch.AnyIndex | batman-aide/src/main/java/batman/aide/StringAide.java:1119-1138 | null sequence or array gives -1 |
| StringAideSearch.IndexOfAny | batman-aide/src/main/java/batman/aide/StringAide.java:1119-1138 | the loop computes AnyIndex |
| StringAideSearch.AnyIndexIsFirstOccurrence | batman-aide/src/main/java/batman/aide/StringAide.java:1119-1138 | -1 iff no non-null search is found; otherwise the result is the earliest indexOf of any of them |
| StringAideSearch.AnyIndexIgnoreCase | batman-aide/src/main/java/batman/aide/StringAide.java:1196-1215 | null sequence or array gives -1 |
| StringAideSearch.IndexOfAnyIgnoreCase | batman-aide/src/main/java/batman/aide/StringAide.java:1196-1215 | the loop computes AnyIndexIgnoreCase |
| StringAideSearch.AnyIndexIgnoreCaseIsLeast | batman-aide/src/main/java/batman/aide/StringAide.java:1196-1215 | -1 iff no non-null search is found case-insensitively; otherwise the result is some search's indexOfIgnoreCase and no found search's index is smaller |
| StringAideSearch.IndexOfAnyBetween | batman-aide/src/main/java/batman/aide/StringAide.java:1156-1159 | as written: null sequence throws NullPointerException, a negative endIndex throws IndexOutOfBoundsException, otherwise indexOfAny on the prefix |
| StringAideSearch.IndexOfAnyBetweenNullSafe | batman-aide/src/main/java/batman/aide/StringAide.java:1141-1159 | the documented behaviour: null gives -1, otherwise as written |
| StringAideSearch.IndexOfAnyIgnoreCaseBetween | batman-aide/src/main/java/batman/aide/StringAide.java:1233-1236 | as written: null throws NullPointerException, a negative endIndex throws IndexOutOfBoundsException, otherwise the search runs on the prefix |
| StringAideSearch.IndexOfAnyIgnoreCaseBetweenNullSafe | batman-aide/src/main/java/batman/aide/StringAide.java:1218-1236 | the documented behaviour: null gives -1, otherwise as written |
| StringAideSearch.RangeOverloadsThrowOnNull | batman-aide/src/main/java/batman/aide/StringAide.java:1081-1236 | all three ranged overloads throw on a null sequence, and their corrected forms return -1 |
| StringAideSearch.IndexOfChar | batman-aide/src/main/java/batman/aide/StringAide.java:1358-1363 | an empty sequence gives -1; a hit lies in range and is the first unit equal to the search (BMP) or the first position of its surrogate pair (supplementary); -1 means none lies in range |
| StringAideSearch.FirstNeedleHit | batman-aide/src/main/java/batman/aide/StringAide.java:1473-1484 | -1 iff no needle is found; otherwise the hit of the first needle that is found, all earlier needles missing |
| StringAideSearch.AnyCharIndex | batman-aide/src/main/java/batman/aide/StringAide.java:1473-1484 | an empty sequence or needle array gives -1; otherwise the hit of the first needle in array order that is found (FirstNeedleHit); -1 iff no needle is found |
| StringAideSearch.IndexOfAnyChar | batman-aide/src/main/java/batman/aide/StringAide.java:1473-1484 | the loop computes AnyCharIndex |
| StringAideSearch.IndexOfAnyCharOf | batman-aide/src/main/java/batman/aide/StringAide.java:1621-1632 | an empty needle sequence gives -1; otherwise as the int[] form over its code points |
| StringAideSearch.AnyCharIndexFirstNeedleNotLeastIndex | batman-aide/src/main/java/batman/aide/StringAide.java:1473-1484 | found iff some needle is found; but the result is the first needle's hit, so "ab" with needles b, a gives 1 although "a" occurs at 0 |
| StringAideSearch.NotAnyIndex | batman-aide/src/main/java/batman/aide/StringAide.java:1740-1776 | empty input gives -1; a hit is the first index in range whose unit (or surrogate pair) is not in the array; -1 iff all are covered |
| StringAideSearch.IndexOfNotAnyChar | batman-aide/src/main/java/batman/aide/StringAide.java:1740-1776 | the labelled loop computes NotAnyIndex |
| StringAideSearch.NotAnyOverAll | batman-aide/src/main/java/batman/aide/StringAide.java:1740-1776 | over the whole sequence, -1 iff every index is covered |
| StringAideSearch.SearchUnits | batman-aide/src/main/java/batman/aide/StringAide.java:1681-1693 | succeeds iff every code point is valid (otherwise IllegalArgumentException), giving their UTF-16 encoding |
| StringAideSearch.BuildSearchUnits | batman-aide/src/main/java/batman/aide/StringAide.java:1681-1693 | the loop filling `tempChars` computes SearchUnits |
| StringAideSearch.NotAnyCodePointIndex | batman-aide/src/main/java/batman/aide/StringAide.java:1677-1695 | empty input gives -1; an invalid code point throws IllegalArgumentException; otherwise the char[] form over the encoded code points |
| StringAideSearch.IndexOfNotAnyCodePoint | batman-aide/src/main/java/batman/aide/StringAide.java:1677-1695 | the method computes NotAnyCodePointIndex |
| StringAideSearch.NotAnyIndexOf | batman-aide/src/main/java/batman/aide/StringAide.java:1821-1851 | empty input gives -1; a hit is the first index in range where a unit is missing from the searches (for a high surrogate, its low surrogate); -1 otherwise |
| StringAideSearch.IndexOfNotAnyCharOf | batman-aide/src/main/java/batman/aide/StringAide.java:1821-1851 | the loop computes NotAnyIndexOf |
| StringAideSearch.NotAnyCharFormsDisagree | batman-aide/src/main/java/batman/aide/StringAide.java:1740-1851 | on [U+D800, 'A'] with searches {'A'} the char[] form gives 0 and the CharSequence form -1 |
| StringAideContains.Contains | batman-aide/src/main/java/batman/aide/StringAide.java:1872-1877 | true iff both are non-null and the search occurs somewhere |
| StringAideContains.ContainsIgnoreCase | batman-aide/src/main/java/batman/aide/StringAide.java:1900-1911 | true iff both are non-null and the search matches case-insensitively at some position |
| StringAideContains.ContainsIgnoreCaseIsIndexOf | batman-aide/src/main/java/batman/aide/StringAide.java:1900-1911 | containsIgnoreCase holds iff indexOfIgnoreCase from 0 finds something |
| StringAideContains.ContainsImpliesContainsIgnoreCase | batman-aide/src/main/java/batman/aide/StringAide.java:1872-1911 | contains implies containsIgnoreCase |
| StringAideContains.ContainsAny | batman-aide/src/main/java/batman/aide/StringAide.java:1935-1945 | true iff both are non-null and some non-null search is contained |
| StringAideContains.ContainsNone | batman-aide/src/main/java/batman/aide/StringAide.java:1994-2004 | the loop returns NoneContained |
| StringAideContains.ContainsNoneIsNotContainsAny | batman-aide/src/main/java/batman/aide/StringAide.java:1935-2004 | containsNone is exactly the negation of containsAny |
| StringAideContains.ContainsAnyIgnoreCase | batman-aide/src/main/java/batman/aide/StringAide.java:1971-1981 | true iff some non-null search is contained case-insensitively |
| StringAideContains.ContainsNoneIgnoreCase | batman-aide/src/main/java/batman/aide/StringAide.java:2018-2028 | the loop returns NoneContainedIgnoringCase |
| StringAideContains.IgnoreCaseVarargsRelations | batman-aide/src/main/java/batman/aide/StringAide.java:1935-2028 | containsNoneIgnoreCase negates containsAnyIgnoreCase; containsAny implies containsAnyIgnoreCase |
| StringAideContains.ContainsChar | batman-aide/src/main/java/batman/aide/StringAide.java:2074-2079 | a BMP search is contained iff some unit equals it; a supplementary one iff its surrogate pair occurs; above U+10FFFF never |
| StringAideContains.PairFound | batman-aide/src/main/java/batman/aide/_CharSequenceAide.java:266-277 | an occurring surrogate pair is found by the code-point search |
| StringAideContains.ContainsCharIsIndexOfChar | batman-aide/src/main/java/batman/aide/StringAide.java:2074-2079 | containsChar holds iff indexOfChar over the whole sequence finds it |
| StringAideContains.FindHit | batman-aide/src/main/java/batman/aide/StringAide.java:2102-2129 | the nested loops return true iff some unit matches a needle (a high surrogate also needing its low surrogate) |
| StringAideContains.ContainsAnyChar | batman-aide/src/main/java/batman/aide/StringAide.java:2102-2129 | empty input gives false; otherwise as FindHit |
| StringAideContains.ContainsNoneChar | batman-aide/src/main/java/batman/aide/StringAide.java:2207-2234 | empty input gives true; otherwise no match |
| StringAideContains.ContainsNoneCharIsNotContainsAnyChar | batman-aide/src/main/java/batman/aide/StringAide.java:2102-2234 | containsNoneChar is exactly the negation of containsAnyChar |
| StringAideContains.HitOnBmpIsMembership | batman-aide/src/main/java/batman/aide/StringAide.java:2102-2129 | without surrogates, a match is simply a unit that is among the needles |
| StringAideContains.IsCodePointIn | batman-aide/src/main/java/batman/aide/StringAide.java:2141-2153 | true iff the code point is among the array |
| StringAideContains.AnyCodePointMatch | batman-aide/src/main/java/batman/aide/StringAide.java:2141-2153 | true iff some code point of the sequence is in the array |
| StringAideContains.ContainsAnyCodePoint | batman-aide/src/main/java/batman/aide/StringAide.java:2141-2153 | empty input gives false; otherwise some code point is in the array |
| StringAideContains.ContainsNoneCodePoint | batman-aide/src/main/java/batman/aide/StringAide.java:2247-2259 | empty input gives true; otherwise no code point is in the array |
| StringAideContains.ContainsNoneCodePointIsNotContainsAnyCodePoint | batman-aide/src/main/java/batman/aide/StringAide.java:2141-2259 | the int[] containsNoneChar is the negation of the int[] containsAnyChar |
| StringAideContains.AnyCharFormsAgreeOnBmp | batman-aide/src/main/java/batman/aide/StringAide.java:2102-2153 | without surrogates in the sequence or the needles, the char[] and int[] forms agree |
| StringAideContains.ContainsAnyCharOf | batman-aide/src/main/java/batman/aide/StringAide.java:2179-2184 | null needles give false; otherwise the char[] form over the needles' units |
| StringAideContains.ContainsNoneCharOf | batman-aide/src/main/java/batman/aide/StringAide.java:2284-2289 | null needles give true; otherwise the negation of containsAnyChar |
| StringAideContains.OnlyChars | batman-aide/src/main/java/batman/aide/StringAide.java:2312-2323 | null gives false; otherwise true iff every index is covered by the valid chars, i.e. indexOfNotAnyChar finds nothing |
| StringAideContains.OnlyCodePoints | batman-aide/src/main/java/batman/aide/StringAide.java:2336-2344 | null sequence or empty array gives false; an empty sequence gives true; an invalid code point throws IllegalArgumentException; otherwise every index is covered by the encoded code points |
| StringAideContains.ContainsOnlyCharsOf | batman-aide/src/main/java/batman/aide/StringAide.java:2369-2374 | null gives false; otherwise the char[] form over the valid chars' units |
| StringAideContains.OnlyCharsFormsDisagree | batman-aide/src/main/java/batman/aide/StringAide.java:2312-2344 | on an empty sequence and empty array the char[] form gives true and the int[] form false; the int[] form skips validation on an empty sequence |
| TmpStringContains.ContainsFrom | batman-aide/src/main/java/batman/aide/TmpStringContains.java:43-48 | true iff both are non-null and the search is empty or occurs at or after beginIndex |
| TmpStringContains.ContainsBetween | batman-aide/src/main/java/batman/aide/TmpStringContains.java:50-55 | true iff both are non-null and the search occurs starting in [begin, end) before the end of the sequence and ending by endIndex |
| TmpStringContains.EmptyInRange | batman-aide/src/main/java/batman/aide/TmpStringContains.java:50-55 | an empty search is in range iff the range meets the sequence |
| TmpStringContains.ContainsOverloads | batman-aide/src/main/java/batman/aide/TmpStringContains.java:36-55 | the 2-arg form is the 3-arg form from 0; for a non-empty search it is also the 4-arg form over the whole length |
| TmpStringContains.ContainsIgnoreCaseFrom | batman-aide/src/main/java/batman/aide/TmpStringContains.java:61-73 | the loop returns true iff both are non-null and a case-insensitive match starts at or after beginIndex |
| TmpStringContains.ContainsIgnoreCase | batman-aide/src/main/java/batman/aide/TmpStringContains.java:57-59 | the 2-arg form equals `StringAide.containsIgnoreCase` |
| TmpStringContains.NegativeBeginActsAsZero | batman-aide/src/main/java/batman/aide/TmpStringContains.java:61-73 | a negative beginIndex behaves like 0 |
| TmpStringContains.CutAt | batman-aide/src/main/java/batman/aide/TmpStringContains.java:92-94 | `subSequence(0, endIndex)` is the prefix |
| TmpStringContains.ContainsIgnoreCaseBetween | batman-aide/src/main/java/batman/aide/TmpStringContains.java:75-101 | the method clamps the range, cuts the sequence and computes ContainsIgnoringCaseBetween |
| TmpStringContains.ContainsIgnoreCaseBetweenInsideRange | batman-aide/src/main/java/batman/aide/TmpStringContains.java:75-101 | true iff a case-insensitive match lies wholly inside [max(begin, 0), min(end, length)) |
| TmpStringContains.EmptySearchInRange | batman-aide/src/main/java/batman/aide/TmpStringContains.java:75-101 | an empty search is found whenever the clamped range [max(begin, 0), min(end, length)] is not inverted, even when it is empty |
| TmpStringContains.WholeRangeIsFromZero | batman-aide/src/main/java/batman/aide/TmpStringContains.java:57-101 | over the whole length the 4-arg form equals the 3-arg form from 0 |

## Left out

- `_CharSequenceAide.indexOf(CharSequence, CharSequence, int)` always ends in the JDK `String.indexOf(String, int)`, either directly or on `toString()`. `CharSequenceAide.IndexOf` models that JDK method.
- CharSequenceAide.RegionMatches models only the generic loop of `_CharSequenceAide.java:301-333`. When both arguments are `String`s, line 298 calls `String.regionMatches` instead, which differs in two ways:
  - a negative `length` gives true there, but false in the loop;
  - ignoring case, the JDK (16 and later) compares surrogate pairs as whole code points, so `"\uD801\uDC00"` and `"\uD801\uDC28"` match there but not unit by unit.
  The same gap carries over to every ignore-case search built on it: `StringAideSearch.IgnoreCaseIndex`, `StringAideSearch.IndexOfIgnoreCase`, the `indexOfAnyIgnoreCase` members, `StringAideContains.ContainsIgnoreCase` and `TmpStringContains.ContainsIgnoreCase*`. For `String` inputs these members report the generic-loop answer.
- The `lastIndexOf` fast paths for `String`, `StringBuilder` and `StringBuffer` (`_CharSequenceAide.java:91-101` and `115-125`) and the `String.indexOf(int, int, int)` path of `_CharSequenceAide.java:254-256` are not modelled separately. They are taken to compute the same index as the generic loops; that is not proved here.
- StringAide.ToCharArray: the model allocates a new array every time. For a null or empty sequence the source returns the shared `ArrayConst.EMPTY_CHAR_ARRAY` (`StringAide.java:2384-2386`), so aliasing of that constant is not captured.
- ArrayAide.Length: `length(Object)` passes any object to `Array.getLength`, which throws IllegalArgumentException for a non-array. The model's parameter is an optional sequence, so that case cannot arise in the model.
- The JDK `Character` tables (`isWhitespace`, `isLetter`, `toUpperCase`, ...) are a parameter of every case and class test rather than Unicode data; properties are proved for every table.
- `CONST(float)` and `CONST(double)`: floating point is not modelled; the generic `ConstantAide.Const` stands for the other `CONST` overloads.
- `TmpStringContains.java:103-149` holds placeholder overloads of `containsAny`, `containsAnyIgnoreCase`, `containsNone` and `containsNoneIgnoreCase` that return `true` whatever their arguments. They are not modelled; the real versions are the `StringAide` ones in `StringAideContains`. `TmpStringContainsChar` and `TmpStringIndexAide` are not part of this model.
- The `Supplier` overloads of `firstNonnull`, `defaultIfNull` and `toString`, `ObjectAide.toString` and the `TO_STRING_LIMIT` truncation, are not modelled. `ObjectAide.isEmpty` reads an array's length by reflection (`Array.getLength`); the model keeps only the length. The kinds of `ObjectAide.Value` exclude each other, so the order of the `instanceof` tests in `ObjectAide.java:79-93` is not captured. For an object that is, say, both a `CharSequence` and a `Collection`, the source decides by the first test that matches. A Java object becomes the `ObjectAide.Value` datatype: null, char sequence, array (its length), collection or map (its size), Optional, or anything else.
- Overloads differing only in arity become one function with the defaults filled in (`indexOf(s, t)` is `IndexOf(s, t, 0)`). `char` overloads are widened to `int`, as the source does.
- `ObjectAide.java:226`: the documentation says `anyNull` is true for an empty array, but the code returns `!allNonnull`, which is false there. The model follows the code (`ObjectAide.NullCounting`).
- StringAideSearch.AnyIndexIsFirstOccurrence: proved only for sequences shorter than `Integer.MAX_VALUE`. That value is the loop's "nothing found yet" sentinel, so a hit at that index would be reported as -1.
- StringAideSearch.AnyIndexIgnoreCaseIsLeast: also requires the length plus one to stay below `Integer.MAX_VALUE`, for the same sentinel.
- StringAideSearch.AnyIndex: the function's own contract only states the null cases. The full meaning is in `AnyIndexIsFirstOccurrence`; the same holds for `AnyIndexIgnoreCase` and `AnyIndexIgnoreCaseIsLeast`.
- `IsAscii`/`CharAide.isAsciiPrintable` is not part of this model. The code-unit test is the documented range 32..126 (`JavaLang.IsAsciiPrintableChar`).
- 32-bit arithmetic: lengths and indices are unbounded integers. `Integer.MAX_VALUE` appears only as the sentinel of the `indexOfAny` loops; index arithmetic that could overflow near `Integer.MAX_VALUE` is not modelled.
- Exceptions thrown by JDK calls the source makes with out-of-range arguments are modelled only where the source reaches them: `subSequence(0, endIndex)` with a negative end (IndexOutOfBoundsException) and a null receiver (NullPointerException).
- The `*CoverSupplementary` functions are related to the unit-wise tests only on text without surrogates. Text with surrogates classifies surrogate pairs as code points, which a table parameter cannot relate to its unit classes.

## Findings

| source | as written | input that shows it | evidently intended | confidence | as-written member | corrected member |
|---|---|---|---|---|---|---|
| batman-aide/src/main/java/batman/aide/ConstantAide.java:201 | the guard `value < Byte.MAX_VALUE \|\| value > Byte.MAX_VALUE` throws for everything except 127 | `CONST_BYTE(0)` throws IllegalArgumentException | throw only outside -128..127, as the documentation and the message say (`value < Byte.MIN_VALUE`) | not executed | ConstantAide.ConstByte | ConstantAide.ConstByteIntended |
| batman-aide/src/main/java/batman/aide/StringAide.java:1081-1084 | `length(sequence)` tolerates null, but `sequence.subSequence` is then called on null | `indexOfIgnoreCase(null, "a", 0, 1)` throws NullPointerException | return -1 for a null sequence, as documented | not executed | StringAideSearch.IndexOfIgnoreCaseBetween | StringAideSearch.IndexOfIgnoreCaseBetweenNullSafe |
| batman-aide/src/main/java/batman/aide/StringAide.java:1156-1159 | the same call on a null sequence | `indexOfAny(null, new CharSequence[]{"a"}, 0, 1)` throws NullPointerException | return -1 for a null sequence | not executed | StringAideSearch.IndexOfAnyBetween | StringAideSearch.IndexOfAnyBetweenNullSafe |
| batman-aide/src/main/java/batman/aide/StringAide.java:1233-1236 | the same call on a null sequence | `indexOfAnyIgnoreCase(null, new CharSequence[]{"a"}, 0, 1)` throws NullPointerException | return -1 for a null sequence | not executed | StringAideSearch.IndexOfAnyIgnoreCaseBetween | StringAideSearch.IndexOfAnyIgnoreCaseBetweenNullSafe |
