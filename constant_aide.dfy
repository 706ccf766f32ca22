/**
  ConstantAide: identities that keep a value from being inlined as a compile-time
  constant, and two range-checked narrowing conversions.
 */
module ConstantAide {
  import opened JavaLang

  /** Byte.MIN_VALUE and Byte.MAX_VALUE. */
  const BYTE_MIN: int := -0x80
  const BYTE_MAX: int := 0x7F

  /** Short.MIN_VALUE and Short.MAX_VALUE. */
  const SHORT_MIN: int := -0x8000
  const SHORT_MAX: int := 0x7FFF

  /**
    CONST, for boolean, char, byte, short, int, long and any reference type: the
    argument comes back unchanged.
   */
  function Const<T>(value: T): (r: T)
    ensures r == value
  {
    value
  }

  /** The Java cast `(byte) value`: keeps the low 8 bits, read as two's complement. */
  function NarrowToByte(value: int): (r: int)
    ensures BYTE_MIN <= r <= BYTE_MAX
    ensures (value - r) % 0x100 == 0
    ensures BYTE_MIN <= value <= BYTE_MAX ==> r == value
  {
    (value + 0x80) % 0x100 - 0x80
  }

  /** The Java cast `(short) value`: keeps the low 16 bits, read as two's complement. */
  function NarrowToShort(value: int): (r: int)
    ensures SHORT_MIN <= r <= SHORT_MAX
    ensures (value - r) % 0x1_0000 == 0
    ensures SHORT_MIN <= value <= SHORT_MAX ==> r == value
  {
    (value + 0x8000) % 0x1_0000 - 0x8000
  }

  /**
    CONST_SHORT: a value in -32768..32767 is returned as a short, any other value is
    refused with IllegalArgumentException.
   */
  function ConstShort(value: Int32): (r: Result<int>)
    ensures r.Ok? <==> SHORT_MIN <= value <= SHORT_MAX
    ensures r.Ok? ==> r.value == value
    ensures r.Throws? ==> r.ex == IllegalArgumentException
  {
    if value < SHORT_MIN || value > SHORT_MAX then Throws(IllegalArgumentException)
    else Ok(NarrowToShort(value))
  }

  /**
    CONST_BYTE as written: its guard compares the value with Byte.MAX_VALUE on both
    sides, so 127 is the only value that gets through.
   */
  function ConstByte(value: Int32): (r: Result<int>)
    ensures r.Ok? <==> value == BYTE_MAX
    ensures r.Ok? ==> r.value == value
    ensures r.Throws? ==> r.ex == IllegalArgumentException
  {
    if value < BYTE_MAX || value > BYTE_MAX then Throws(IllegalArgumentException)
    else Ok(NarrowToByte(value))
  }

  /** CONST_BYTE as written refuses 0, and with it every byte but 127. */
  lemma ConstByteRefusesValidBytes()
    ensures exists v: Int32 :: BYTE_MIN <= v <= BYTE_MAX && ConstByte(v).Throws?
    ensures forall v: Int32 :: BYTE_MIN <= v < BYTE_MAX ==> ConstByte(v).Throws?
  {
    assert ConstByte(0).Throws?;
  }

  /**
    CONST_BYTE as documented: a value in -128..127 is returned as a byte, any other
    value is refused with IllegalArgumentException.
   */
  function ConstByteIntended(value: Int32): (r: Result<int>)
    ensures r.Ok? <==> BYTE_MIN <= value <= BYTE_MAX
    ensures r.Ok? ==> r.value == value
    ensures r.Throws? ==> r.ex == IllegalArgumentException
  {
    if value < BYTE_MIN || value > BYTE_MAX then Throws(IllegalArgumentException)
    else Ok(NarrowToByte(value))
  }

  /** The documented check and the written one agree on 127 only among the bytes. */
  lemma ConstByteDivergence(value: Int32)
    requires BYTE_MIN <= value <= BYTE_MAX
    ensures ConstByte(value) == ConstByteIntended(value) <==> value == BYTE_MAX
  {
  }
}
