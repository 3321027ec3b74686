/**
 * Python floats as the model sees them: exact reals plus the one IEEE value
 * the core can produce, NaN (an average over no values, in pandas).
 * Every arithmetic operation propagates NaN, and every comparison with NaN is
 * false, which is what decides the builtins `max` and `min` below.
 */
module Numbers {

  datatype Float = Num(v: real) | NaN

  function Add(a: Float, b: Float): Float
  {
    if a.Num? && b.Num? then Num(a.v + b.v) else NaN
  }

  function Sub(a: Float, b: Float): Float
  {
    if a.Num? && b.Num? then Num(a.v - b.v) else NaN
  }

  /** `k * a` for a finite factor `k`; `0.0 * NaN` is still NaN. */
  function Scale(k: real, a: Float): Float
  {
    if a.Num? then Num(k * a.v) else NaN
  }

  function Div(a: Float, k: real): Float
    requires k != 0.0
  {
    if a.Num? then Num(a.v / k) else NaN
  }

  /** `a > b`, false whenever either side is NaN. */
  predicate Greater(a: Float, b: Float)
  {
    a.Num? && b.Num? && a.v > b.v
  }

  /** Python's builtin `max(a, b)`: the first argument unless the second is greater. */
  function PyMax(a: Float, b: Float): (r: Float)
    ensures a.Num? && b.Num? ==> r == Num(if a.v >= b.v then a.v else b.v)
    ensures a.NaN? || b.NaN? ==> r == a
  {
    if Greater(b, a) then b else a
  }

  /** Python's builtin `min(a, b)`: the first argument unless the second is smaller. */
  function PyMin(a: Float, b: Float): (r: Float)
    ensures a.Num? && b.Num? ==> r == Num(if a.v <= b.v then a.v else b.v)
    ensures a.NaN? || b.NaN? ==> r == a
  {
    if Greater(a, b) then b else a
  }

  function RealMax(a: real, b: real): real
  {
    if a >= b then a else b
  }
}
