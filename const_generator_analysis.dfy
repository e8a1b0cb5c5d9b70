/**
  `ConstGeneratorAnalysis`: fills the first output with `length` copies of
  `value`, both taken from named inputs, by replacement.
*/
module ConstGeneratorAnalysis {
  import opened Doubles
  import opened AnalysisIO

  /** An input as this module reads it: its role name and its `getSingleValue()`. */
  datatype SingleInput = SingleInput(usedAs: string, single: Double)

  /** `Int(x)` for a finite `x`: the integer part, rounding toward zero. */
  function TruncateTowardZero(x: real): (n: int)
    ensures 0.0 <= x ==> 0 <= n && n as real <= x < n as real + 1.0
    ensures x < 0.0 ==> n <= 0 && n as real - 1.0 < x <= n as real
  {
    if x >= 0.0 then x.Floor else -((-x).Floor)
  }

  /** `Int(d)`: traps on NaN and the infinities. */
  function ToInt(d: Double): (r: Result<int>)
    ensures r.Ok? <==> IsFinite(d)
    ensures r.Ok? ==> r.value == TruncateTowardZero(d.r)
    ensures !r.Ok? ==> r == Crash(InvalidConversion)
  {
    if d.Fin? then Ok(TruncateTowardZero(d.r)) else Crash(InvalidConversion)
  }

  /** The inputs as fixed values carrying their single values, for looking them up by role. */
  function AsValues(inputs: seq<SingleInput>): (ios: seq<DataIO>)
    ensures |ios| == |inputs|
    ensures forall i :: 0 <= i < |inputs| ==> ios[i] == Value(inputs[i].usedAs, inputs[i].single)
  {
    seq(|inputs|, i requires 0 <= i < |inputs| => Value(inputs[i].usedAs, inputs[i].single))
  }

  /** The single value of the last input named `name`, if any. */
  function LastSingle(inputs: seq<SingleInput>, name: string): Option<Double> {
    match LastNamed(AsValues(inputs), name)
    case Some(k) => Some(inputs[k].single)
    case None => None
  }

  /** Looking at one more input: it gives the value if it has the role, else the earlier one stands. */
  lemma LastSingleStep(inputs: seq<SingleInput>, i: nat, name: string)
    requires i < |inputs|
    ensures LastSingle(inputs[..i + 1], name)
            == if inputs[i].usedAs == name then Some(inputs[i].single) else LastSingle(inputs[..i], name)
  {
    var ios := AsValues(inputs[..i + 1]);
    assert ios[..i] == AsValues(inputs[..i]);
    LastNamedStep(ios, i, name);
    assert ios[..i + 1] == ios;
  }

  /** Every "length" input converts to an integer. */
  predicate LengthsConvert(inputs: seq<SingleInput>) {
    forall i :: 0 <= i < |inputs| && inputs[i].usedAs == "length" ==> IsFinite(inputs[i].single)
  }

  /** One more input whose length, if it is one, converts keeps every length convertible. */
  lemma LengthsConvertStep(inputs: seq<SingleInput>, i: nat)
    requires i < |inputs| && LengthsConvert(inputs[..i])
    requires inputs[i].usedAs == "length" ==> IsFinite(inputs[i].single)
    ensures LengthsConvert(inputs[..i + 1])
  {
    var p := inputs[..i + 1];
    assert forall k :: 0 <= k < i ==> p[k] == inputs[..i][k];
  }

  /**
    `update()`. The last "value" input gives the value (default 0) and the last
    "length" input the length (default 0); other inputs are ignored. A length
    of 0 becomes the output buffer's size. The output is replaced by `length`
    copies of the value, and its maximum and minimum are both the value.
    Converting a non-finite length, a missing output buffer and a negative
    length all trap, in that order.
  */
  method Update(inputs: seq<SingleInput>, outputs: seq<DataIO>) returns (r: Result<Write>)
    ensures !LengthsConvert(inputs) ==> r == Crash(InvalidConversion)
    ensures LengthsConvert(inputs) && (|outputs| == 0 || !outputs[0].Buffer?) ==> r == Crash(UnwrappedNil)
    ensures LengthsConvert(inputs) && |outputs| > 0 && outputs[0].Buffer? ==>
              var value := LastSingle(inputs, "value").GetOr(Fin(0.0));
              var given := match LastSingle(inputs, "length")
                           case Some(d) => TruncateTowardZero(d.r)
                           case None => 0;
              var length := if given == 0 then outputs[0].size else given;
              && (length < 0 <==> r == Crash(NegativeCount))
              && (length >= 0 ==> r.Ok? && r.value.Replace?
                                  && |r.value.values| == length
                                  && (forall k :: 0 <= k < length ==> r.value.values[k] == value)
                                  && r.value.max == Some(value) && r.value.min == Some(value))
  {
    var value := Fin(0.0);
    var length := 0;
    for i := 0 to |inputs|
      invariant value == LastSingle(inputs[..i], "value").GetOr(Fin(0.0))
      invariant LengthsConvert(inputs[..i])
      invariant length == match LastSingle(inputs[..i], "length")
                          case Some(d) => TruncateTowardZero(d.r)
                          case None => 0
    {
      assert inputs[..i + 1][..i] == inputs[..i];
      LastSingleStep(inputs, i, "value");
      LastSingleStep(inputs, i, "length");
      if inputs[i].usedAs == "value" {
        value := inputs[i].single;
      } else if inputs[i].usedAs == "length" {
        var n := ToInt(inputs[i].single);
        if n.Crash? {
          assert !LengthsConvert(inputs);
          return Crash(InvalidConversion);
        }
        length := n.value;
      }
      LengthsConvertStep(inputs, i);
    }
    assert inputs[..|inputs|] == inputs;
    if |outputs| == 0 || !outputs[0].Buffer? {
      return Crash(UnwrappedNil);
    }
    if length == 0 {
      length := outputs[0].size;
    }
    if length < 0 {
      return Crash(NegativeCount);
    }
    var append := seq(length, _ => value);
    return Ok(Replace(append, Some(value), Some(value)));
  }
}
