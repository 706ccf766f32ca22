/**
  ObjectAide: emptiness of arbitrary objects, and null-counting over varargs arrays.
  A varargs array may itself be null, so it is an Option of a sequence of Options.
 */
module ObjectAide {
  import opened JavaLang

  /**
    The runtime kinds isEmpty tells apart by `instanceof` and by reflection: a
    CharSequence, an array, a Collection, a Map, an Optional, or any other object.
   */
  datatype Value =
    | Null
    | CharSequenceValue(units: Chars)
    | ArrayValue(length: nat)
    | CollectionValue(size: nat)
    | MapValue(size: nat)
    | OptionalValue(present: bool)
    | OtherValue

  /** isArray: a non-null object whose class is an array class. */
  function IsArray(obj: Value): (r: bool)
    ensures r ==> obj != Null
    ensures r <==> obj.ArrayValue?
  {
    obj != Null && obj.ArrayValue?
  }

  /**
    isEmpty: null is empty; a CharSequence, array, Collection or Map is empty when it
    has no content, an Optional when it holds no value; any other object never is.
   */
  function IsEmpty(obj: Value): (r: bool)
    ensures obj.Null? ==> r
    ensures obj.OtherValue? ==> !r
    ensures obj.CharSequenceValue? ==> (r <==> obj.units == [])
    ensures obj.ArrayValue? ==> (r <==> obj.length == 0)
    ensures obj.CollectionValue? || obj.MapValue? ==> (r <==> obj.size == 0)
    ensures obj.OptionalValue? ==> (r <==> !obj.present)
  {
    if obj.Null? then true
    else if obj.CharSequenceValue? then |obj.units| == 0
    else if IsArray(obj) then obj.length == 0
    else if obj.CollectionValue? then obj.size == 0
    else if obj.MapValue? then obj.size == 0
    else if obj.OptionalValue? then !obj.present
    else false
  }

  /** isNotEmpty is the negation of isEmpty: in particular null is never "not empty". */
  function IsNotEmpty(obj: Value): (r: bool)
    ensures r ==> obj != Null
    ensures r <==> !IsEmpty(obj)
  {
    !IsEmpty(obj)
  }

  /** The first non-null element of `xs`, in order, or null when there is none. */
  function FirstSome<T>(xs: seq<Option<T>>): (r: Option<T>)
    ensures r.None? <==> forall i :: 0 <= i < |xs| ==> xs[i].None?
    ensures r.Some? ==> exists i :: 0 <= i < |xs| && xs[i] == r && forall j :: 0 <= j < i ==> xs[j].None?
  {
    if |xs| == 0 then None
    else if xs[0].Some? then xs[0]
    else
      var r := FirstSome(xs[1..]);
      assert forall i :: 1 <= i < |xs| ==> xs[i] == xs[1..][i - 1];
      r
  }

  /** firstNonnull: the first non-null element; null for a null array, an empty one, or all nulls. */
  function FirstNonnull<T>(values: Option<seq<Option<T>>>): (r: Option<T>)
    ensures values.None? ==> r.None?
    ensures values.Some? ==> r == FirstSome(values.value)
  {
    if values.Some? then FirstSome(values.value) else None
  }

  /** allNonnull: the array is non-null and none of its elements is null. */
  function AllNonnull<T>(values: Option<seq<Option<T>>>): (r: bool)
    ensures r ==> values.Some?
    ensures values.Some? ==> (r <==> forall i :: 0 <= i < |values.value| ==> values.value[i].Some?)
  {
    values.Some? && forall i :: 0 <= i < |values.value| ==> values.value[i].Some?
  }

  /** anyNonnull: firstNonnull finds something. */
  function AnyNonnull<T>(values: Option<seq<Option<T>>>): (r: bool)
    ensures r <==> FirstNonnull(values).Some?
  {
    FirstNonnull(values) != None
  }

  /** allNull: the negation of anyNonnull. */
  function AllNull<T>(values: Option<seq<Option<T>>>): (r: bool)
    ensures r <==> !AnyNonnull(values)
  {
    !AnyNonnull(values)
  }

  /** anyNull: the negation of allNonnull. */
  function AnyNull<T>(values: Option<seq<Option<T>>>): (r: bool)
    ensures r <==> !AllNonnull(values)
  {
    !AllNonnull(values)
  }

  /** defaultIfNull: the value when it is non-null, the default otherwise. */
  function DefaultIfNull<T>(value: Option<T>, defaultValue: Option<T>): (r: Option<T>)
    ensures value.Some? ==> r == value
    ensures value.None? ==> r == defaultValue
  {
    if value.Some? then value else defaultValue
  }

  /** anyNonnull holds exactly when the array is non-null and has a non-null element. */
  lemma AnyNonnullMeansSomeElement<T>(values: Option<seq<Option<T>>>)
    ensures AnyNonnull(values) <==>
      values.Some? && exists i :: 0 <= i < |values.value| && values.value[i].Some?
  {
  }

  /**
    allNull holds for a null array, an empty one, or one whose elements are all null,
    and anyNull holds for a null array or one with a null element: so an empty array
    is "all null" but has no null in it.
   */
  lemma NullCounting<T>(values: Option<seq<Option<T>>>)
    ensures AllNull(values) <==>
      values.None? || forall i :: 0 <= i < |values.value| ==> values.value[i].None?
    ensures AnyNull(values) <==>
      values.None? || exists i :: 0 <= i < |values.value| && values.value[i].None?
    ensures var empty: Option<seq<Option<T>>> := Some([]); AllNull(empty) && !AnyNull(empty)
    ensures var absent: Option<seq<Option<T>>> := None; AllNull(absent) && AnyNull(absent)
  {
  }

  /** allNonnull and allNull hold together exactly for the empty array. */
  lemma AllNonnullAndAllNull<T>(values: Option<seq<Option<T>>>)
    ensures AllNonnull(values) && AllNull(values) <==> values == Some([])
  {
  }

  /** defaultIfNull(value, defaultValue) is firstNonnull(value, defaultValue). */
  lemma DefaultIfNullIsFirstNonnull<T>(value: Option<T>, defaultValue: Option<T>)
    ensures DefaultIfNull(value, defaultValue) == FirstNonnull(Some([value, defaultValue]))
  {
    var xs := [value, defaultValue];
    assert xs[1..] == [defaultValue];
    assert [defaultValue][1..] == [];
    assert FirstSome([defaultValue]) == defaultValue;
  }
}
