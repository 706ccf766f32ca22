/**
  ArrayAide: the null-safe length and emptiness of arrays. The overloads for boolean,
  char, byte, short, int, long, float, double and Object arrays differ only in the
  element type, so each is one generic function here.
 */
module ArrayAide {
  import opened JavaLang

  /** length: a null array has length 0, any other array its number of elements. */
  function Length<T>(arr: Option<seq<T>>): (n: nat)
    ensures arr.None? ==> n == 0
    ensures arr.Some? ==> n == |arr.value|
  {
    if arr.None? then 0 else |arr.value|
  }

  /** isEmpty: the array is null or has no elements; the elements themselves never matter. */
  function IsEmpty<T>(arr: Option<seq<T>>): (r: bool)
    ensures r <==> arr.None? || arr.value == []
  {
    Length(arr) == 0
  }

  /** isNotEmpty: the array is non-null and has an element. */
  function IsNotEmpty<T>(arr: Option<seq<T>>): (r: bool)
    ensures r <==> arr.Some? && |arr.value| > 0
  {
    !IsEmpty(arr)
  }
}
