/**
 * The JavaScript number operations that mesh normalisation uses, over exact
 * reals extended with NaN and the two infinities.  Rounding and the sign of
 * zero are not modelled: a division by zero is a division by +0.
 */
module JsNumber {

  datatype Number = Finite(value: real) | NaN | PosInfinity | NegInfinity

  /** The order -Infinity < finite < +Infinity on numbers that are not NaN. */
  predicate Below(a: Number, b: Number)
    requires !a.NaN? && !b.NaN?
  {
    match (a, b)
    case (NegInfinity, _) => true
    case (_, PosInfinity) => true
    case (Finite(x), Finite(y)) => x <= y
    case _ => false
  }

  /** -1, 0 or 1; a finite zero counts as +0 */
  function Sign(a: Number): int
    requires !a.NaN?
  {
    match a
    case PosInfinity => 1
    case NegInfinity => -1
    case Finite(x) => if x > 0.0 then 1 else if x < 0.0 then -1 else 0
  }

  /** Math.max of two arguments */
  function Max(a: Number, b: Number): (r: Number)
    ensures r.NaN? <==> a.NaN? || b.NaN?
    ensures !r.NaN? ==> (r == a || r == b) && Below(a, r) && Below(b, r)
  {
    if a.NaN? || b.NaN? then NaN else if Below(a, b) then b else a
  }

  /** Math.min of two arguments */
  function Min(a: Number, b: Number): (r: Number)
    ensures r.NaN? <==> a.NaN? || b.NaN?
    ensures !r.NaN? ==> (r == a || r == b) && Below(r, a) && Below(r, b)
  {
    if a.NaN? || b.NaN? then NaN else if Below(a, b) then a else b
  }

  /** the binary operator `-` */
  function Sub(a: Number, b: Number): (r: Number)
    ensures a.Finite? && b.Finite? ==> r == Finite(a.value - b.value)
    ensures a.NaN? || b.NaN? ==> r.NaN?
  {
    match (a, b)
    case (NaN, _) => NaN
    case (_, NaN) => NaN
    case (Finite(x), Finite(y)) => Finite(x - y)
    case (PosInfinity, PosInfinity) => NaN
    case (NegInfinity, NegInfinity) => NaN
    case (PosInfinity, _) => PosInfinity
    case (NegInfinity, _) => NegInfinity
    case (Finite(_), PosInfinity) => NegInfinity
    case (Finite(_), NegInfinity) => PosInfinity
  }

  /** the binary operator `*` */
  function Mul(a: Number, b: Number): (r: Number)
    ensures a.Finite? && b.Finite? ==> r == Finite(a.value * b.value)
    ensures a.NaN? || b.NaN? ==> r.NaN?
  {
    if a.NaN? || b.NaN? then NaN
    else if a.Finite? && b.Finite? then Finite(a.value * b.value)
    else if Sign(a) == 0 || Sign(b) == 0 then NaN
    else if Sign(a) * Sign(b) > 0 then PosInfinity
    else NegInfinity
  }

  /** the binary operator `/` */
  function Div(a: Number, b: Number): (r: Number)
    ensures a.Finite? && b.Finite? && b.value != 0.0 ==> r == Finite(a.value / b.value)
    ensures a.Finite? && b == Finite(0.0) ==> (r.NaN? <==> a.value == 0.0)
    ensures a.NaN? || b.NaN? ==> r.NaN?
  {
    if a.NaN? || b.NaN? then NaN
    else if !a.Finite? && !b.Finite? then NaN
    else if !a.Finite? then (if Sign(a) * (if Sign(b) < 0 then -1 else 1) > 0 then PosInfinity else NegInfinity)
    else if !b.Finite? then Finite(0.0)
    else if b.value != 0.0 then Finite(a.value / b.value)
    else if a.value == 0.0 then NaN
    else if a.value > 0.0 then PosInfinity
    else NegInfinity
  }
}
