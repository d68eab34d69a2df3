/** The IEEE-754 special values that numpy produces, without raising, when a
    division by zero happens inside the index-premium arithmetic. Finite values
    are exact reals (rounding is not modelled) and there is a single zero. */
module Floats {

  datatype Float = Finite(v: real) | PosInf | NegInf | NaN

  function Neg(a: Float): Float {
    match a
    case Finite(x) => Finite(-x)
    case PosInf => NegInf
    case NegInf => PosInf
    case NaN => NaN
  }

  function Add(a: Float, b: Float): (r: Float)
    ensures a.Finite? && b.Finite? ==> r == Finite(a.v + b.v)
    ensures a.NaN? || b.NaN? ==> r.NaN?
  {
    match (a, b)
    case (NaN, _) => NaN
    case (_, NaN) => NaN
    case (PosInf, NegInf) => NaN
    case (NegInf, PosInf) => NaN
    case (PosInf, _) => PosInf
    case (NegInf, _) => NegInf
    case (_, PosInf) => PosInf
    case (_, NegInf) => NegInf
    case (Finite(x), Finite(y)) => Finite(x + y)
  }

  function Sub(a: Float, b: Float): Float {
    Add(a, Neg(b))
  }

  /** An infinity with the sign of `s` (0 and NaN give NaN, as 0 * inf does). */
  function SignedInf(s: real, positive: bool): Float {
    if s > 0.0 then (if positive then PosInf else NegInf)
    else if s < 0.0 then (if positive then NegInf else PosInf)
    else NaN
  }

  function Mul(a: Float, b: Float): (r: Float)
    ensures a.Finite? && b.Finite? ==> r == Finite(a.v * b.v)
  {
    if a.Finite? && b.Finite? then Finite(a.v * b.v)
    else match (a, b)
    case (NaN, _) => NaN
    case (_, NaN) => NaN
    case (Finite(_), Finite(_)) => NaN
    case (Finite(x), PosInf) => SignedInf(x, true)
    case (Finite(x), NegInf) => SignedInf(x, false)
    case (PosInf, Finite(y)) => SignedInf(y, true)
    case (NegInf, Finite(y)) => SignedInf(y, false)
    case (PosInf, PosInf) => PosInf
    case (NegInf, NegInf) => PosInf
    case (_, _) => NegInf
  }

  function Div(a: Float, b: Float): (r: Float)
    ensures a.Finite? && b.Finite? && b.v != 0.0 ==> r == Finite(a.v / b.v)
  {
    match (a, b)
    case (NaN, _) => NaN
    case (_, NaN) => NaN
    case (Finite(x), Finite(y)) =>
      if y != 0.0 then Finite(x / y) else SignedInf(x, true)
    case (Finite(_), _) => Finite(0.0)
    case (PosInf, Finite(y)) => if y < 0.0 then NegInf else PosInf
    case (NegInf, Finite(y)) => if y < 0.0 then PosInf else NegInf
    case (_, _) => NaN
  }

  /** Python's `x < t` for a float `x` and a finite threshold: false for NaN. */
  predicate LessThan(a: Float, t: real) {
    match a
    case Finite(x) => x < t
    case NegInf => true
    case _ => false
  }

  /** Left-to-right sum of a series. */
  function Sum(xs: seq<Float>): Float {
    if |xs| == 0 then Finite(0.0) else Add(Sum(xs[..|xs| - 1]), xs[|xs| - 1])
  }

  /** The series without its NaN entries. */
  function DropNaN(xs: seq<Float>): (ys: seq<Float>)
    ensures |ys| <= |xs|
    ensures forall i :: 0 <= i < |ys| ==> !ys[i].NaN?
  {
    if |xs| == 0 then []
    else if xs[|xs| - 1].NaN? then DropNaN(xs[..|xs| - 1])
    else DropNaN(xs[..|xs| - 1]) + [xs[|xs| - 1]]
  }

  /** pandas' `Series.mean()`: NaN entries are skipped, an all-NaN series gives NaN. */
  function MeanSkipNaN(xs: seq<Float>): Float {
    var ys := DropNaN(xs);
    if |ys| == 0 then NaN else Div(Sum(ys), Finite(|ys| as real))
  }

  predicate AllFinite(xs: seq<Float>) {
    forall i :: 0 <= i < |xs| ==> xs[i].Finite?
  }

  /** The values of an all-finite series. */
  function Values(xs: seq<Float>): (vs: seq<real>)
    requires AllFinite(xs)
    ensures |vs| == |xs|
    ensures forall i :: 0 <= i < |xs| ==> vs[i] == xs[i].v
  {
    if |xs| == 0 then [] else Values(xs[..|xs| - 1]) + [xs[|xs| - 1].v]
  }

  function RealSum(vs: seq<real>): real {
    if |vs| == 0 then 0.0 else RealSum(vs[..|vs| - 1]) + vs[|vs| - 1]
  }

  /** On finite values the float sum is the exact sum. */
  lemma {:induction false} SumOfFinite(xs: seq<Float>)
    requires AllFinite(xs)
    ensures Sum(xs) == Finite(RealSum(Values(xs)))
  {
    if |xs| > 0 {
      var init := xs[..|xs| - 1];
      SumOfFinite(init);
      assert Values(xs)[..|xs| - 1] == Values(init);
    }
  }

  lemma {:induction false} DropNaNOfFinite(xs: seq<Float>)
    requires AllFinite(xs)
    ensures DropNaN(xs) == xs
  {
    if |xs| > 0 {
      DropNaNOfFinite(xs[..|xs| - 1]);
      assert xs == xs[..|xs| - 1] + [xs[|xs| - 1]];
    }
  }

  /** The mean of a non-empty all-finite series is the exact arithmetic mean. */
  lemma MeanOfFinite(xs: seq<Float>)
    requires |xs| > 0 && AllFinite(xs)
    ensures MeanSkipNaN(xs) == Finite(RealSum(Values(xs)) / |xs| as real)
  {
    DropNaNOfFinite(xs);
    SumOfFinite(xs);
  }
}
