/** Typed config values (pkg/models/configs.go, pkg/components/helper/configs/configs.go). */
module ConfigValues {
  import opened Prelude

  const STRING_TYPE := 1

  const INT64_TYPE := 2

  const FLOAT64_TYPE := 3

  const BOOL_TYPE := 4

  /** All fields are there at once; data type and slice flag say which one counts. */
  datatype Value = Value(dataType: int, isSlice: bool, str: string, strs: seq<string>, int64: int, int64s: seq<int>,
                         float64: real, float64s: seq<real>, boolean: bool, booleans: seq<bool>)

  function Zero(dataType: int, isSlice: bool): Value {
    Value(dataType, isSlice, "", [], 0, [], 0.0, [], false, [])
  }

  predicate Supported(dataType: int) {
    STRING_TYPE <= dataType <= BOOL_TYPE
  }

  function Normalize(v: Value): Value {
    var zero := Zero(v.dataType, v.isSlice);
    if v.dataType == STRING_TYPE then if v.isSlice then zero.(strs := v.strs) else zero.(str := v.str)
    else if v.dataType == INT64_TYPE then if v.isSlice then zero.(int64s := v.int64s) else zero.(int64 := v.int64)
    else if v.dataType == FLOAT64_TYPE then
      if v.isSlice then zero.(float64s := v.float64s) else zero.(float64 := v.float64)
    else if v.dataType == BOOL_TYPE then
      if v.isSlice then zero.(booleans := v.booleans) else zero.(boolean := v.boolean)
    else zero
  }

  /** The fields that do not count are zero. */
  ghost predicate Canonical(v: Value) {
    Supported(v.dataType) && v == Normalize(v)
  }

  predicate ValueIsEqual(a: Value, b: Value) {
    && a.dataType == b.dataType
    && a.isSlice == b.isSlice
    && if a.dataType == STRING_TYPE then if a.isSlice then a.strs == b.strs else a.str == b.str
       else if a.dataType == INT64_TYPE then if a.isSlice then a.int64s == b.int64s else a.int64 == b.int64
       else if a.dataType == FLOAT64_TYPE then if a.isSlice then a.float64s == b.float64s else a.float64 == b.float64
       else if a.dataType == BOOL_TYPE then if a.isSlice then a.booleans == b.booleans else a.boolean == b.boolean
       else false
  }

  /** Equality looks at what counts and at nothing else. */
  lemma EqualMeansSameNormalForm(a: Value, b: Value)
    requires Supported(a.dataType)
    ensures ValueIsEqual(a, b) <==> Normalize(a) == Normalize(b)
  {
    var x, y := Normalize(a), Normalize(b);
    assert x.dataType == a.dataType && y.dataType == b.dataType && x.isSlice == a.isSlice && y.isSlice == b.isSlice;
    if Normalize(a) == Normalize(b) {
      assert x.str == y.str && x.strs == y.strs && x.int64 == y.int64 && x.int64s == y.int64s;
      assert x.float64 == y.float64 && x.float64s == y.float64s && x.boolean == y.boolean && x.booleans == y.booleans;
    }
  }

  // ----- Values from JSON -----

  /** A decoded JSON or YAML value. */
  datatype Any =
    | AnyString(s: string)
    | AnyBool(b: bool)
    | AnyInt(i: int)
    | AnyFloat(f: real)
    | AnyList(l: seq<Any>)
    | AnyOther

  function Truncate(f: real): int {
    if f >= 0.0 then f.Floor else -((-f).Floor)
  }

  /** The fractional part has the sign of the number, and only a positive one is refused. */
  function FloatToInt64(f: real): Option<int> {
    if f - Truncate(f) as real > 0.0 then None else Some(Truncate(f))
  }

  /** A float is refused if and only if it is positive and not an integer; a negative one that
      is not an integer slips through and loses its fraction. */
  lemma OnlyPositiveFractionsAreRefused(f: real)
    ensures FloatToInt64(f).None? <==> f > 0.0 && f != f.Floor as real
    ensures FloatToInt64(f).Some? && f >= 0.0 ==> FloatToInt64(f).value as real == f
    ensures f < 0.0 ==> FloatToInt64(f) == Some(-((-f).Floor))
  {
  }

  predicate Converts(item: Any, dataType: int) {
    || (dataType == STRING_TYPE && item.AnyString?)
    || (dataType == BOOL_TYPE && item.AnyBool?)
    || (dataType == INT64_TYPE && (item.AnyInt? || (item.AnyFloat? && FloatToInt64(item.f).Some?)))
    || (dataType == FLOAT64_TYPE && item.AnyFloat?)
  }

  /** The integer that a number stands for. */
  ghost predicate IsInt64(item: Any, i: int) {
    item == AnyInt(i) || (item.AnyFloat? && FloatToInt64(item.f) == Some(i))
  }

  /** What can be converted at all. */
  lemma ConvertsIff(item: Any, dataType: int)
    ensures Converts(item, STRING_TYPE) <==> exists s :: item == AnyString(s)
    ensures Converts(item, INT64_TYPE) <==> exists i :: IsInt64(item, i)
    ensures Converts(item, FLOAT64_TYPE) <==> exists f :: item == AnyFloat(f)
    ensures Converts(item, BOOL_TYPE) <==> exists b :: item == AnyBool(b)
    ensures Converts(item, dataType) ==> Supported(dataType)
  {
    match item {
      case AnyInt(i) => assert IsInt64(item, i);
      case AnyFloat(f) =>
        assert FloatToInt64(f).Some? ==> IsInt64(item, FloatToInt64(f).value);
      case AnyString(s) => assert item == AnyString(s);
      case AnyBool(b) => assert item == AnyBool(b);
      case _ =>
    }
  }

  function ToInt64(item: Any): int
    requires Converts(item, INT64_TYPE)
  {
    if item.AnyInt? then item.i else FloatToInt64(item.f).value
  }

  /** The list that results from converting each item, in order. */
  ghost predicate ListOf(items: seq<Any>, dataType: int, v: Value) {
    && (forall item | item in items :: Converts(item, dataType))
    && v == Zero(dataType, true).(strs := v.strs, int64s := v.int64s, float64s := v.float64s, booleans := v.booleans)
    && v == Normalize(v)
    && (dataType == STRING_TYPE ==> |v.strs| == |items| && forall i | 0 <= i < |items| ::
          items[i] == AnyString(v.strs[i]))
    && (dataType == INT64_TYPE ==> |v.int64s| == |items| && forall i | 0 <= i < |items| ::
          IsInt64(items[i], v.int64s[i]))
    && (dataType == FLOAT64_TYPE ==> |v.float64s| == |items| && forall i | 0 <= i < |items| ::
          items[i] == AnyFloat(v.float64s[i]))
    && (dataType == BOOL_TYPE ==> |v.booleans| == |items| && forall i | 0 <= i < |items| ::
          items[i] == AnyBool(v.booleans[i]))
  }

  ghost predicate Decodable(val: Any, dataType: int, isSlice: bool) {
    && Supported(dataType)
    && if isSlice then val.AnyList? && forall item | item in val.l :: Converts(item, dataType)
       else Converts(val, dataType)
  }

  ghost predicate Decoded(val: Any, dataType: int, isSlice: bool, v: Value)
    requires Decodable(val, dataType, isSlice)
  {
    && Canonical(v) && v.dataType == dataType && v.isSlice == isSlice
    && if isSlice then ListOf(val.l, dataType, v)
       else
         && (dataType == STRING_TYPE ==> val == AnyString(v.str))
         && (dataType == INT64_TYPE ==> IsInt64(val, v.int64))
         && (dataType == FLOAT64_TYPE ==> val == AnyFloat(v.float64))
         && (dataType == BOOL_TYPE ==> val == AnyBool(v.boolean))
  }

  function Appended(config: Value, item: Any): Value
    requires Converts(item, config.dataType)
  {
    if config.dataType == STRING_TYPE then
      if config.isSlice then config.(strs := config.strs + [item.s]) else config.(str := item.s)
    else if config.dataType == INT64_TYPE then
      if config.isSlice then config.(int64s := config.int64s + [ToInt64(item)]) else config.(int64 := ToInt64(item))
    else if config.dataType == FLOAT64_TYPE then
      if config.isSlice then config.(float64s := config.float64s + [item.f]) else config.(float64 := item.f)
    else
      if config.isSlice then config.(booleans := config.booleans + [item.b]) else config.(boolean := item.b)
  }

  method GetValue(val: Any, dataType: int, isSlice: bool) returns (v: Option<Value>)
    ensures v.Some? <==> Decodable(val, dataType, isSlice)
    ensures v.Some? ==> Decoded(val, dataType, isSlice, v.value)
  {
    if !Supported(dataType) {
      return None;
    }
    var config := Zero(dataType, isSlice);
    if !isSlice {
      if !Converts(val, dataType) {
        return None;
      }
      config := Appended(config, val);
      return Some(config);
    }
    if !val.AnyList? {
      return None;
    }
    for i := 0 to |val.l|
      invariant ListOf(val.l[..i], dataType, config)
    {
      assert val.l[..i + 1] == val.l[..i] + [val.l[i]];
      if !Converts(val.l[i], dataType) {
        assert val.l[i] in val.l;
        return None;
      }
      config := Appended(config, val.l[i]);
    }
    assert val.l[..|val.l|] == val.l;
    return Some(config);
  }
}
