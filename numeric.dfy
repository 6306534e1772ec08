/** Range helpers over integers: `is_between` and `clamp`. */
module Numeric {
  import opened Wrappers

  /** `is_between($value, $from, $to)`: both bounds are inclusive. */
  function IsBetween(value: int, from: int, to: int): (r: bool)
    ensures r ==> from <= to
  {
    value >= from && value <= to
  }

  /** Each bound lies in its own range, unless the range is inverted and so holds nothing. */
  lemma IsBetweenInclusive(value: int, from: int, to: int)
    ensures IsBetween(from, from, to) <==> from <= to
    ensures IsBetween(to, from, to) <==> from <= to
    ensures from > to ==> !IsBetween(value, from, to)
  {
  }

  /**
   * The `InvalidArgumentException` that `clamp` throws; its message reads
   * "Minimum (min) is not less than maximum (max)." with the two bounds.
   */
  datatype InvalidArgument = InvalidArgument(min: int, max: int)

  /** PHP's `min` on two integers. */
  function Min(a: int, b: int): (r: int)
    ensures r <= a && r <= b && (r == a || r == b)
  {
    if a <= b then a else b
  }

  /** PHP's `max` on two integers. */
  function Max(a: int, b: int): (r: int)
    ensures r >= a && r >= b && (r == a || r == b)
  {
    if a >= b then a else b
  }

  /** `clamp($current, $min, $max)`: throws when the bounds are inverted. */
  function Clamp(current: int, min: int, max: int): (r: Result<int, InvalidArgument>)
    ensures r.Failure? <==> min > max
    ensures r.Failure? ==> r.error == InvalidArgument(min, max)
    ensures r.Success? ==> IsBetween(r.value, min, max)
    ensures min <= max && current < min ==> r == Success(min)
    ensures min <= max && current > max ==> r == Success(max)
  {
    if min > max then Failure(InvalidArgument(min, max))
    else Success(Max(min, Min(max, current)))
  }

  /** With valid bounds, `clamp` returns its argument unchanged exactly when it is between them. */
  lemma ClampFixesExactlyTheBetween(current: int, min: int, max: int)
    requires min <= max
    ensures Clamp(current, min, max) == Success(current) <==> IsBetween(current, min, max)
  {
  }

  /** Clamping a clamped value changes nothing. */
  lemma ClampIdempotent(current: int, min: int, max: int)
    requires min <= max
    ensures Clamp(current, min, max).Success?
    ensures Clamp(Clamp(current, min, max).value, min, max) == Clamp(current, min, max)
  {
    ClampFixesExactlyTheBetween(Clamp(current, min, max).value, min, max);
  }
}
