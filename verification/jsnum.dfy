/**
  The slice of JavaScript number arithmetic the server's clocks go through.
  A clock is a whole number of milliseconds or NaN: `Number(undefined)` and
  `Number("x")` are NaN, NaN survives every addition and subtraction, and
  `Math.max(0, NaN)` is NaN again.
 */
module Js {
  import opened Opt

  datatype Number = Num(v: int) | NaN

  function Plus(a: Number, b: Number): (r: Number)
    ensures r.Num? <==> a.Num? && b.Num?
    ensures r.Num? ==> r.v == a.v + b.v
  {
    if a.Num? && b.Num? then Num(a.v + b.v) else NaN
  }

  function Minus(a: Number, k: int): (r: Number)
    ensures r.Num? <==> a.Num?
    ensures r.Num? ==> r.v == a.v - k
  {
    if a.Num? then Num(a.v - k) else NaN
  }

  function Times(a: Number, k: int): (r: Number)
    ensures r.Num? <==> a.Num?
    ensures r.Num? ==> r.v == a.v * k
  {
    if a.Num? then Num(a.v * k) else NaN
  }

  /** `Math.max(0, a)`. */
  function MaxZero(a: Number): (r: Number)
    ensures r.Num? <==> a.Num?
    ensures r.Num? ==> r.v >= 0 && r.v >= a.v && (r.v == 0 || r.v == a.v)
  {
    if a.NaN? then NaN else if a.v < 0 then Num(0) else a
  }

  /** `a >= k` for a number literal `k`: false whenever `a` is NaN. */
  predicate AtLeast(a: Number, k: int) {
    a.Num? && a.v >= k
  }

  /** The number a parse produced, NaN when there was none. */
  function OfParsed(o: Option<nat>): (r: Number)
    ensures r.Num? <==> o.Some?
    ensures o.Some? ==> r.v == o.value
  {
    if o.Some? then Num(o.value) else NaN
  }
}
