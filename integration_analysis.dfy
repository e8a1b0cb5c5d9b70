/**
  `IntegrationAnalysis`: the running sum of the first input buffer, written to
  the first output by replacement, together with the maximum and minimum of
  the running sums.
*/
module IntegrationAnalysis {
  import opened Doubles
  import opened AnalysisIO

  /** The running sum after the first `n` values, starting from 0.0. */
  function PrefixSum(s: seq<Double>, n: nat): Double
    requires n <= |s|
  {
    if n == 0 then Fin(0.0) else Add(PrefixSum(s, n - 1), s[n - 1])
  }

  predicate AllFinite(s: seq<Double>) {
    forall i :: 0 <= i < |s| ==> IsFinite(s[i])
  }

  /** The real values of a sequence of finite doubles. */
  function Reals(s: seq<Double>): (r: seq<real>)
    requires AllFinite(s)
    ensures |r| == |s| && forall i :: 0 <= i < |s| ==> r[i] == s[i].r
  {
    seq(|s|, i requires 0 <= i < |s| => s[i].r)
  }

  /**
    `update()`. It needs a first output bound to a buffer and a first input;
    a first input that is a fixed value makes it return without writing.
    Otherwise the output is replaced by the running sums, one per input value,
    with their maximum and minimum.
  */
  method Update(inputs: seq<DataIO>, outputs: seq<DataIO>) returns (r: Result<Option<Write>>)
    ensures (|outputs| == 0 || !outputs[0].Buffer? || |inputs| == 0) <==> r == Crash(UnwrappedNil)
    ensures r.Ok? || r == Crash(UnwrappedNil)
    ensures r.Ok? ==> (r.value.None? <==> inputs[0].Value?)
    ensures r.Ok? && r.value.Some? ==>
              var data := inputs[0].data;
              var w := r.value.value;
              && w.Replace?
              && |w.values| == |data|
              && (forall i :: 0 <= i < |data| ==> w.values[i] == PrefixSum(data, i + 1))
              && w.max == MaxOf(w.values) && w.min == MinOf(w.values)
  {
    if |outputs| == 0 || !outputs[0].Buffer? || |inputs| == 0 {
      return Crash(UnwrappedNil);
    }
    if inputs[0].Value? {
      return Ok(None);
    }
    var values, max, min := RunningSums(inputs[0].data);
    return Ok(Some(Replace(values, max, min)));
  }

  /** The loop of `update()`: the running sums, and their maximum and minimum tracked as they are produced. */
  method RunningSums(data: seq<Double>) returns (append: seq<Double>, max: Option<Double>, min: Option<Double>)
    ensures |append| == |data|
    ensures forall i :: 0 <= i < |data| ==> append[i] == PrefixSum(data, i + 1)
    ensures max == MaxOf(append) && min == MinOf(append)
  {
    var sum := Fin(0.0);
    append, max, min := [], None, None;
    for i := 0 to |data|
      invariant |append| == i && sum == PrefixSum(data, i)
      invariant forall k :: 0 <= k < i ==> append[k] == PrefixSum(data, k + 1)
      invariant max == MaxOf(append) && min == MinOf(append)
    {
      sum := Add(sum, data[i]);
      assert sum == PrefixSum(data, i + 1);
      MaxMinSnoc(append, sum);
      max, min := KeepMax(max, sum), KeepMin(min, sum);
      RunningSumsStep(data, append, i, append + [sum]);
      append := append + [sum];
    }
  }

  /** Appending the next running sum keeps every element the running sum of its prefix. */
  lemma RunningSumsStep(data: seq<Double>, append: seq<Double>, i: nat, appended: seq<Double>)
    requires |append| == i < |data| && appended == append + [PrefixSum(data, i + 1)]
    requires forall k :: 0 <= k < i ==> append[k] == PrefixSum(data, k + 1)
    ensures forall k :: 0 <= k < i + 1 ==> appended[k] == PrefixSum(data, k + 1)
  {
  }

  /** On finite input every running sum is finite and is the real sum of that prefix. */
  lemma {:induction false} PrefixSumOfFinite(s: seq<Double>, n: nat)
    requires AllFinite(s) && n <= |s|
    ensures PrefixSum(s, n) == Fin(RealSum(Reals(s)[..n]))
  {
    if n > 0 {
      PrefixSumOfFinite(s, n - 1);
      assert Reals(s)[..n][..n - 1] == Reals(s)[..n - 1];
    }
  }

  /**
    Differencing undoes integration: on finite input, each running sum minus
    the one before it gives back the input value.
  */
  lemma Differences(s: seq<Double>, i: nat)
    requires AllFinite(s) && i < |s|
    ensures IsFinite(PrefixSum(s, i)) && IsFinite(PrefixSum(s, i + 1))
    ensures PrefixSum(s, i + 1).r - PrefixSum(s, i).r == s[i].r
  {
    PrefixSumOfFinite(s, i);
  }

  /** Integrating [1, 1, 1, 1] gives [1, 2, 3, 4]. */
  lemma OnesExample()
    ensures var s := [Fin(1.0), Fin(1.0), Fin(1.0), Fin(1.0)];
            PrefixSum(s, 1) == Fin(1.0) && PrefixSum(s, 2) == Fin(2.0)
            && PrefixSum(s, 3) == Fin(3.0) && PrefixSum(s, 4) == Fin(4.0)
  {
  }
}
