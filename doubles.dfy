/**
  The values that flow through buffers and analysis modules: Swift `Double`s.
  A finite double is modelled by the exact real it denotes (no rounding, no
  overflow); the two infinities and NaN are kept as separate cases so that the
  comparisons, the `isFinite` test and the infinity sentinels of the analysis
  code behave as IEEE 754 prescribes.
*/
module Doubles {

  datatype Option<+T> = None | Some(value: T) {
    /** The `??` operator of Swift. */
    function GetOr(default: T): T {
      if Some? then value else default
    }
  }

  datatype Double = Fin(r: real) | PosInf | NegInf | NaN

  /** `Double.isFinite`. */
  predicate IsFinite(d: Double) {
    d.Fin?
  }

  /** `Double(n)` for a non-negative integer. */
  function FromNat(n: nat): (d: Double)
    ensures IsFinite(d) && d.r == n as real
  {
    Fin(n as real)
  }

  /** IEEE `a < b`: false whenever either operand is NaN. */
  predicate Less(a: Double, b: Double) {
    if a.NaN? || b.NaN? then false
    else if a.Fin? && b.Fin? then a.r < b.r
    else (a.NegInf? && !b.NegInf?) || (!a.PosInf? && b.PosInf?)
  }

  /** IEEE `a > b`. */
  predicate Greater(a: Double, b: Double) {
    Less(b, a)
  }

  /** IEEE `a <= b`; on non-NaN values a total order. */
  predicate LessEq(a: Double, b: Double) {
    !a.NaN? && !b.NaN? && !Less(b, a)
  }

  predicate NoNaN(s: seq<Double>) {
    forall i :: 0 <= i < |s| ==> !s[i].NaN?
  }

  /** IEEE addition on the modelled values: NaN absorbs, opposite infinities give NaN. */
  function Add(a: Double, b: Double): (c: Double)
    ensures IsFinite(a) && IsFinite(b) ==> c == Fin(a.r + b.r)
    ensures a.NaN? || b.NaN? ==> c.NaN?
    ensures (a.PosInf? && b.NegInf?) || (a.NegInf? && b.PosInf?) ==> c.NaN?
  {
    if a.NaN? || b.NaN? then NaN
    else if a.Fin? && b.Fin? then Fin(a.r + b.r)
    else if (a.PosInf? && b.NegInf?) || (a.NegInf? && b.PosInf?) then NaN
    else if a.PosInf? || b.PosInf? then PosInf
    else NegInf
  }

  /** The running-maximum step `if max == nil || v > max { max = v }`. */
  function KeepMax(m: Option<Double>, v: Double): Option<Double> {
    if m.None? || Greater(v, m.value) then Some(v) else m
  }

  /** The running-minimum step `if min == nil || v < min { min = v }`. */
  function KeepMin(m: Option<Double>, v: Double): Option<Double> {
    if m.None? || Less(v, m.value) then Some(v) else m
  }

  /**
    The maximum tracked over `s` by the running-maximum step, left to right.
    It exists iff `s` is non-empty, is one of the values of `s`, and bounds
    every value of `s` from above when none of them is NaN.
  */
  function MaxOf(s: seq<Double>): (m: Option<Double>)
    ensures m.Some? <==> |s| > 0
    ensures m.Some? ==> m.value in s
    ensures m.Some? && NoNaN(s) ==> forall i :: 0 <= i < |s| ==> LessEq(s[i], m.value)
  {
    if |s| == 0 then None else KeepMax(MaxOf(s[..|s| - 1]), s[|s| - 1])
  }

  /** The minimum tracked over `s` by the running-minimum step; dual of MaxOf. */
  function MinOf(s: seq<Double>): (m: Option<Double>)
    ensures m.Some? <==> |s| > 0
    ensures m.Some? ==> m.value in s
    ensures m.Some? && NoNaN(s) ==> forall i :: 0 <= i < |s| ==> LessEq(m.value, s[i])
  {
    if |s| == 0 then None else KeepMin(MinOf(s[..|s| - 1]), s[|s| - 1])
  }

  /**
    The index a strict-`<` minimum scan reports: the position of MinOf(s), and
    on ties the first one.
  */
  function ArgMinOf(s: seq<Double>): (k: Option<nat>)
    ensures k.Some? <==> |s| > 0
    ensures k.Some? ==> k.value < |s| && MinOf(s) == Some(s[k.value])
    ensures k.Some? && NoNaN(s) ==> forall i :: 0 <= i < k.value ==> Less(s[k.value], s[i])
  {
    if |s| == 0 then None
    else
      var p := ArgMinOf(s[..|s| - 1]);
      if p.None? || Less(s[|s| - 1], s[p.value]) then Some(|s| - 1) else p
  }

  /** Extending the sequence by one value is one running-maximum and one running-minimum step. */
  lemma MaxMinSnoc(s: seq<Double>, v: Double)
    ensures MaxOf(s + [v]) == KeepMax(MaxOf(s), v)
    ensures MinOf(s + [v]) == KeepMin(MinOf(s), v)
  {
    assert (s + [v])[..|s|] == s;
  }

  /** The exact sum of a sequence of reals, added front to back. */
  function RealSum(s: seq<real>): real {
    if |s| == 0 then 0.0 else RealSum(s[..|s| - 1]) + s[|s| - 1]
  }
}
