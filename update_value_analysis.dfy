/**
  `UpdateValueAnalysis`: the shared body of the one-input, one-output modules.
  The first input (a buffer, or a single fixed value) is transformed and the
  first output is replaced by the result, with its maximum and minimum.
*/
module UpdateValueAnalysis {
  import opened Doubles
  import opened AnalysisIO

  /** The values a module reads from one input: a buffer's contents, or `[value]`. */
  function InputValues(input: DataIO): (vs: seq<Double>)
    ensures input.Buffer? ==> vs == input.data
    ensures input.Value? ==> vs == [input.value]
  {
    match input
    case Buffer(_, data, _) => data
    case Value(_, value) => [value]
  }

  /** `f` applied to every value, in order. */
  function MapValues(f: Double -> Double, s: seq<Double>): (r: seq<Double>)
    ensures |r| == |s| && forall i :: 0 <= i < |s| ==> r[i] == f(s[i])
  {
    seq(|s|, i requires 0 <= i < |s| => f(s[i]))
  }

  /** `inputs.first!` and `outputs.first!.buffer!` both succeed. */
  predicate Bound(inputs: seq<DataIO>, outputs: seq<DataIO>) {
    |inputs| > 0 && |outputs| > 0 && outputs[0].Buffer?
  }

  /**
    `updateAllWithMethod`: the transform sees the whole input at once; the
    maximum and minimum reported are those of its result. Only the first input
    and the first output take part.
  */
  function UpdateAll(inputs: seq<DataIO>, outputs: seq<DataIO>, g: seq<Double> -> seq<Double>): (r: Result<Write>)
    ensures r.Ok? <==> Bound(inputs, outputs)
    ensures !r.Ok? ==> r == Crash(UnwrappedNil)
    ensures r.Ok? ==>
              var out := g(InputValues(inputs[0]));
              && r.value.Replace? && r.value.values == out
              && (r.value.max.Some? <==> |out| > 0) && (r.value.min.Some? <==> |out| > 0)
              && (r.value.max.Some? ==> r.value.max.value in out && r.value.min.value in out)
              && r.value.max == MaxOf(out) && r.value.min == MinOf(out)
  {
    if !Bound(inputs, outputs) then Crash(UnwrappedNil)
    else
      var out := g(InputValues(inputs[0]));
      Ok(Replace(out, MaxOf(out), MinOf(out)))
  }

  /**
    `updateIterativelyWithMethod`: each input value is transformed on its own,
    in order, and the maximum and minimum are tracked as the values are
    produced. The result is what `updateAllWithMethod` gives for the
    elementwise transform.
  */
  method UpdateIteratively(inputs: seq<DataIO>, outputs: seq<DataIO>, f: Double -> Double) returns (r: Result<Write>)
    ensures r.Ok? <==> Bound(inputs, outputs)
    ensures r.Ok? ==> r.value.Replace? && r.value.values == MapValues(f, InputValues(inputs[0]))
    ensures r.Ok? ==> r.value.max == MaxOf(r.value.values) && r.value.min == MinOf(r.value.values)
    ensures r == UpdateAll(inputs, outputs, s => MapValues(f, s))
  {
    if !Bound(inputs, outputs) {
      return Crash(UnwrappedNil);
    }
    var vals := InputValues(inputs[0]);
    var append: seq<Double> := [];
    var max: Option<Double> := None;
    var min: Option<Double> := None;
    for i := 0 to |vals|
      invariant append == MapValues(f, vals[..i])
      invariant max == MaxOf(append) && min == MinOf(append)
    {
      var processed := f(vals[i]);
      MaxMinSnoc(append, processed);
      if max.None? || Greater(processed, max.value) {
        max := Some(processed);
      }
      if min.None? || Less(processed, min.value) {
        min := Some(processed);
      }
      assert vals[..i + 1] == vals[..i] + [vals[i]];
      append := append + [processed];
    }
    assert vals[..|vals|] == vals;
    return Ok(Replace(append, max, min));
  }
}
