/**
  The pieces of java.lang that the aide classes lean on: UTF-16 code units, nullable
  character sequences, thrown exceptions, and the JDK's Unicode character tables.
 */
module JavaLang {

  /** A Java `char`: one UTF-16 code unit. Surrogates are ordinary values here. */
  type CodeUnit = x: int | 0 <= x <= 0xFFFF

  /** The code units of a CharSequence, in order. */
  type Chars = seq<CodeUnit>

  /** A reference that may be `null`. */
  datatype Option<+T> = None | Some(value: T)

  /** A CharSequence argument, which callers may pass as `null`. */
  type CharSeq = Option<Chars>

  /** Integer.MAX_VALUE. */
  const INT_MAX: int := 0x7FFF_FFFF

  /** Integer.MIN_VALUE. */
  const INT_MIN: int := -0x8000_0000

  /** A Java `int`. */
  type Int32 = x: int | INT_MIN <= x <= INT_MAX

  /** The unchecked exceptions the modelled code can raise. */
  datatype Exception = NullPointerException | IndexOutOfBoundsException | IllegalArgumentException

  /** The outcome of a call that either returns a value or throws. */
  datatype Result<+T> = Ok(value: T) | Throws(ex: Exception)

  /**
    The JDK's Unicode character tables (java.lang.Character), indexed by code point.
    They are lookups into the Unicode database, so the model takes them as a parameter
    instead of restating them; the `char` overloads of the JDK are the `int` ones
    applied to the code unit's value.
   */
  datatype CharTables = CharTables(
    isWhitespace: int -> bool,
    isSpaceChar: int -> bool,
    isLetter: int -> bool,
    isDigit: int -> bool,
    isUpperCase: int -> bool,
    isLowerCase: int -> bool,
    toUpperCase: CodeUnit -> CodeUnit,
    toLowerCase: CodeUnit -> CodeUnit)

  /** Character.isLetterOrDigit. */
  predicate IsLetterOrDigit(t: CharTables, cp: int) {
    t.isLetter(cp) || t.isDigit(cp)
  }

  /**
    A fact of the Unicode database the JDK tables follow: surrogate code points
    (general category Cs) are neither whitespace, space, letters, digits nor cased.
   */
  ghost predicate SurrogatesUnclassified(t: CharTables) {
    forall c :: IsSurrogate(c) ==>
      !t.isWhitespace(c) && !t.isSpaceChar(c) && !t.isLetter(c) && !t.isDigit(c) &&
      !t.isUpperCase(c) && !t.isLowerCase(c)
  }

  /** Character.isHighSurrogate. */
  predicate IsHighSurrogate(c: int) {
    0xD800 <= c <= 0xDBFF
  }

  /** Character.isLowSurrogate. */
  predicate IsLowSurrogate(c: int) {
    0xDC00 <= c <= 0xDFFF
  }

  /** Character.isSurrogate. */
  predicate IsSurrogate(c: int) {
    IsHighSurrogate(c) || IsLowSurrogate(c)
  }

  /** CharAide.isAsciiPrintable: the printable ASCII range 32..126. */
  predicate IsAsciiPrintableChar(c: int) {
    32 <= c <= 126
  }

  /** CharConst.SPACE_CHAR. */
  const SPACE_CHAR: CodeUnit := 0x20
}
