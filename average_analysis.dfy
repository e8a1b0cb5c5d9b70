/**
  `AverageAnalysis`: the mean of the finite values of the first input buffer,
  and optionally their sample standard deviation, each appended as a
  one-element array to its output.
*/
module AverageAnalysis {
  import opened Doubles
  import opened AnalysisIO

  /** The state `init` sets up: the input buffer's data and the two outputs. */
  datatype AverageModule = AverageModule(input: seq<Double>, avgOutput: Option<DataIO>, stdOutput: Option<DataIO>)

  /** What one `update` hands to the "average" and the "std" outputs. */
  datatype AverageWrites = AverageWrites(toAvg: Option<Write>, toStd: Option<Write>)

  // ---------------------------------------------------------------------------
  // Binding the outputs

  /** The first of the first `n` outputs whose role is not "std": the average output. */
  function FirstNotStd(outputs: seq<DataIO>, n: nat): (a: Option<nat>)
    requires n <= |outputs|
    ensures a.None? <==> forall i :: 0 <= i < n ==> outputs[i].usedAs == "std"
    ensures a.Some? ==> a.value < n && outputs[a.value].usedAs != "std"
    ensures a.Some? ==> forall i :: 0 <= i < a.value ==> outputs[i].usedAs == "std"
  {
    if n == 0 then None
    else
      var p := FirstNotStd(outputs, n - 1);
      if p.Some? then p else if outputs[n - 1].usedAs != "std" then Some(n - 1) else None
  }

  /** Output `i` is taken as the std output: its role is "std", or an average output came before it. */
  predicate TakesStd(outputs: seq<DataIO>, i: nat)
    requires i < |outputs|
  {
    outputs[i].usedAs == "std" || FirstNotStd(outputs, i).Some?
  }

  /** The last of the first `n` outputs taken as the std output. */
  function LastStd(outputs: seq<DataIO>, n: nat): (s: Option<nat>)
    requires n <= |outputs|
    ensures s.None? <==> forall i :: 0 <= i < n ==> !TakesStd(outputs, i)
    ensures s.Some? ==> s.value < n && TakesStd(outputs, s.value)
    ensures s.Some? ==> forall i :: s.value < i < n ==> !TakesStd(outputs, i)
  {
    if n == 0 then None
    else if TakesStd(outputs, n - 1) then Some(n - 1)
    else LastStd(outputs, n - 1)
  }

  /**
    `init`. The first output not named "std" is the average output; every
    output named "std" or coming after the average output overwrites the std
    output, so the last of them stays. The first input must be a buffer:
    without one `init` throws (here: None).
  */
  method Init(inputs: seq<DataIO>, outputs: seq<DataIO>) returns (r: Option<AverageModule>)
    ensures r.None? <==> |inputs| == 0 || inputs[0].Value?
    ensures r.Some? ==> r.value.input == inputs[0].data
    ensures r.Some? ==> r.value.avgOutput == ElementAt(outputs, FirstNotStd(outputs, |outputs|))
    ensures r.Some? ==> r.value.stdOutput == ElementAt(outputs, LastStd(outputs, |outputs|))
  {
    var avg: Option<DataIO> := None;
    var std: Option<DataIO> := None;
    for i := 0 to |outputs|
      invariant avg == ElementAt(outputs, FirstNotStd(outputs, i))
      invariant std == ElementAt(outputs, LastStd(outputs, i))
    {
      if outputs[i].usedAs == "std" || avg.Some? {
        std := Some(outputs[i]);
      } else {
        avg := Some(outputs[i]);
      }
    }
    if |inputs| == 0 || inputs[0].Value? {
      return None;
    }
    return Some(AverageModule(inputs[0].data, avg, std));
  }

  /** The average and the std outputs are never the same output. */
  lemma AvgAndStdDiffer(outputs: seq<DataIO>)
    ensures var a := FirstNotStd(outputs, |outputs|);
            var s := LastStd(outputs, |outputs|);
            a.Some? && s.Some? ==> a.value != s.value
  {
    var a := FirstNotStd(outputs, |outputs|);
    if a.Some? {
      var k := a.value;
      assert FirstNotStd(outputs, k).None?;
      assert !TakesStd(outputs, k);
    }
  }

  /** Every output after the average output is taken as the std output, so the std output is the last one. */
  lemma StdIsLastAfterAvg(outputs: seq<DataIO>)
    requires FirstNotStd(outputs, |outputs|).Some? && FirstNotStd(outputs, |outputs|).value < |outputs| - 1
    ensures LastStd(outputs, |outputs|) == Some(|outputs| - 1)
  {
    FirstNotStdShrinks(outputs, |outputs|, |outputs| - 1);
    assert TakesStd(outputs, |outputs| - 1);
  }

  /** A prefix that still holds the first average output finds the same one. */
  lemma {:induction false} FirstNotStdShrinks(outputs: seq<DataIO>, n: nat, m: nat)
    requires m <= n <= |outputs| && FirstNotStd(outputs, n).Some? && FirstNotStd(outputs, n).value < m
    ensures FirstNotStd(outputs, m) == FirstNotStd(outputs, n)
    decreases n - m
  {
    if m < n {
      FirstNotStdShrinks(outputs, n - 1, m);
    }
  }

  /** Once an average output is found, longer prefixes find the same one. */
  lemma {:induction false} FirstNotStdStays(outputs: seq<DataIO>, m: nat, n: nat)
    requires m <= n <= |outputs| && FirstNotStd(outputs, m).Some?
    ensures FirstNotStd(outputs, n) == FirstNotStd(outputs, m)
    decreases n - m
  {
    if m < n {
      FirstNotStdStays(outputs, m, n - 1);
    }
  }

  // ---------------------------------------------------------------------------
  // Mean and standard deviation

  /** The real values of the finite elements of `s`, in order; NaN and the infinities are skipped. */
  function FiniteReals(s: seq<Double>): (r: seq<real>)
    ensures |r| <= |s|
    ensures |r| == 0 <==> forall i :: 0 <= i < |s| ==> !IsFinite(s[i])
  {
    if |s| == 0 then []
    else
      var front := FiniteReals(s[..|s| - 1]);
      assert forall i :: 0 <= i < |s| - 1 ==> s[..|s| - 1][i] == s[i];
      if IsFinite(s[|s| - 1]) then front + [s[|s| - 1].r] else front
  }

  /** Exactly the finite elements take part: each one's value is there, and nothing else is. */
  lemma {:induction false} FiniteRealsContents(s: seq<Double>)
    ensures forall i :: 0 <= i < |s| && IsFinite(s[i]) ==> s[i].r in FiniteReals(s)
    ensures forall v :: v in FiniteReals(s) ==> Fin(v) in s
  {
    if |s| > 0 {
      var init := s[..|s| - 1];
      FiniteRealsContents(init);
      assert forall i :: 0 <= i < |s| - 1 ==> init[i] == s[i];
      assert forall v :: Fin(v) in init ==> Fin(v) in s;
    }
  }

  /** One value counts once, with its own value, exactly when it is finite. */
  lemma FiniteRealsSingle(d: Double)
    ensures FiniteReals([d]) == if IsFinite(d) then [d.r] else []
  {
    assert [d][..0] == [];
  }

  /**
    The filter works value by value, keeping order and multiplicity: the finite
    values of a concatenation are those of each part, one after the other.
  */
  lemma {:induction false} FiniteRealsAppend(a: seq<Double>, b: seq<Double>)
    ensures FiniteReals(a + b) == FiniteReals(a) + FiniteReals(b)
    decreases |b|
  {
    if |b| == 0 {
      assert a + b == a;
    } else {
      var b' := b[..|b| - 1];
      FiniteRealsAppend(a, b');
      assert (a + b)[..|a + b| - 1] == a + b';
      assert b[|b| - 1] == (a + b)[|a + b| - 1];
    }
  }

  /** The finite values and their count: the first loop of `update`. */
  method SumFinite(x: seq<Double>) returns (sum: real, count: nat)
    ensures sum == RealSum(FiniteReals(x)) && count == |FiniteReals(x)|
  {
    sum, count := 0.0, 0;
    for i := 0 to |x|
      invariant sum == RealSum(FiniteReals(x[..i])) && count == |FiniteReals(x[..i])|
    {
      assert x[..i + 1][..i] == x[..i];
      if IsFinite(x[i]) {
        sum := sum + x[i].r;
        count := count + 1;
      }
    }
    assert x[..|x|] == x;
  }

  /** The squared deviations of the finite values from `avg`, and their count: the second loop of `update`. */
  method SumSqFinite(x: seq<Double>, avg: real) returns (sum: real, count: nat)
    ensures sum == SumSqDev(FiniteReals(x), avg) && count == |FiniteReals(x)|
  {
    sum, count := 0.0, 0;
    for i := 0 to |x|
      invariant sum == SumSqDev(FiniteReals(x[..i]), avg) && count == |FiniteReals(x[..i])|
    {
      assert x[..i + 1][..i] == x[..i];
      if IsFinite(x[i]) {
        var d := x[i].r - avg;
        SumSqDevSnoc(FiniteReals(x[..i]), x[i].r, avg);
        sum := sum + d * d;
        count := count + 1;
      }
    }
    assert x[..|x|] == x;
  }

  function Mean(fs: seq<real>): real
    requires |fs| > 0
  {
    RealSum(fs) / |fs| as real
  }

  /** The sum of squared deviations of `fs` from `m`. */
  function SumSqDev(fs: seq<real>, m: real): real {
    if |fs| == 0 then 0.0 else SumSqDev(fs[..|fs| - 1], m) + (fs[|fs| - 1] - m) * (fs[|fs| - 1] - m)
  }

  lemma SumSqDevSnoc(fs: seq<real>, v: real, m: real)
    ensures SumSqDev(fs + [v], m) == SumSqDev(fs, m) + (v - m) * (v - m)
  {
    assert (fs + [v])[..|fs|] == fs;
  }

  /** The standard deviation reported: NaN below two values, else `sqrt` of the sample variance. */
  function StdValue(fs: seq<real>, sqrt: real -> real): Double
    requires |fs| > 0
  {
    if |fs| < 2 then NaN else Fin(sqrt(SumSqDev(fs, Mean(fs)) / (|fs| - 1) as real))
  }

  /**
    `update()`. Only finite values count. Without any, nothing is written.
    Otherwise the mean goes to the average output and, when there is a std
    output, the standard deviation (`StdValue`) goes there; each is appended
    as a one-element array, and only to a buffer. `sqrt` is the square root
    of the platform's math library.
  */
  method Update(m: AverageModule, sqrt: real -> real) returns (r: AverageWrites)
    ensures FiniteReals(m.input) == [] ==> r == AverageWrites(None, None)
    ensures FiniteReals(m.input) != [] ==>
              var fs := FiniteReals(m.input);
              && r.toAvg == WriteTo(m.avgOutput, AppendArray([Fin(Mean(fs))]))
              && r.toStd == WriteTo(m.stdOutput, AppendArray([StdValue(fs, sqrt)]))
  {
    var x := m.input;
    var sum, count := SumFinite(x);
    if count == 0 {
      return AverageWrites(None, None);
    }
    var avg := sum / count as real;
    var toAvg := WriteTo(m.avgOutput, AppendArray([Fin(avg)]));
    var toStd: Option<Write> := None;
    if m.stdOutput.Some? {
      var std: Double;
      if count < 2 {
        std := NaN;
      } else {
        sum, count := SumSqFinite(x, avg);
        std := Fin(sqrt(sum / (count - 1) as real));
      }
      toStd := WriteTo(m.stdOutput, AppendArray([std]));
    }
    return AverageWrites(toAvg, toStd);
  }

  /** A sum of values that all lie in [lo, hi] lies in [|s| * lo, |s| * hi]. */
  lemma {:induction false} RealSumBounds(s: seq<real>, lo: real, hi: real)
    requires forall i :: 0 <= i < |s| ==> lo <= s[i] <= hi
    ensures |s| as real * lo <= RealSum(s) <= |s| as real * hi
  {
    if |s| > 0 {
      RealSumBounds(s[..|s| - 1], lo, hi);
    }
  }

  /** The mean lies between any lower and any upper bound of the values. */
  lemma MeanBetweenBounds(fs: seq<real>, lo: real, hi: real)
    requires |fs| > 0 && forall i :: 0 <= i < |fs| ==> lo <= fs[i] <= hi
    ensures lo <= Mean(fs) <= hi
  {
    RealSumBounds(fs, lo, hi);
    var n := |fs| as real;
    assert n * lo <= RealSum(fs) <= n * hi;
    assert lo == n * lo / n && hi == n * hi / n;
  }

  /** The sample variance is never negative, so `sqrt` is never asked for the root of a negative number. */
  lemma {:induction false} SumSqDevNonNegative(fs: seq<real>, m: real)
    ensures SumSqDev(fs, m) >= 0.0
  {
    if |fs| > 0 {
      SumSqDevNonNegative(fs[..|fs| - 1], m);
      var d := fs[|fs| - 1] - m;
      assert d * d >= 0.0;
    }
  }

  /** Values that are all equal have that value as their mean and no deviation. */
  lemma {:induction false} ConstantValues(fs: seq<real>, c: real)
    requires |fs| > 0 && forall i :: 0 <= i < |fs| ==> fs[i] == c
    ensures Mean(fs) == c
    ensures SumSqDev(fs, c) == 0.0
  {
    MeanBetweenBounds(fs, c, c);
    ConstantDeviation(fs, c);
  }

  lemma {:induction false} ConstantDeviation(fs: seq<real>, c: real)
    requires forall i :: 0 <= i < |fs| ==> fs[i] == c
    ensures SumSqDev(fs, c) == 0.0
  {
    if |fs| > 0 {
      ConstantDeviation(fs[..|fs| - 1], c);
    }
  }

  /** In [1, 2, NaN, 3] the NaN is skipped. */
  lemma SkipsNaNExample()
    ensures FiniteReals([Fin(1.0), Fin(2.0), NaN, Fin(3.0)]) == [1.0, 2.0, 3.0]
  {
    var s := [Fin(1.0), Fin(2.0), NaN, Fin(3.0)];
    var s1, s2, s3 := [Fin(1.0)], [Fin(1.0), Fin(2.0)], [Fin(1.0), Fin(2.0), NaN];
    assert s1[..0] == [] && FiniteReals(s1) == [1.0];
    assert s2[..1] == s1 && FiniteReals(s2) == [1.0, 2.0];
    assert s3[..2] == s2 && FiniteReals(s3) == [1.0, 2.0];
    assert s[..3] == s3;
  }

  /** The values 1, 2, 3 have mean 2 and sample variance 1. */
  lemma StatisticsExample()
    ensures Mean([1.0, 2.0, 3.0]) == 2.0
    ensures SumSqDev([1.0, 2.0, 3.0], 2.0) / 2.0 == 1.0
  {
    var fs := [1.0, 2.0, 3.0];
    var f1, f2 := [1.0], [1.0, 2.0];
    assert f1[..0] == [] && f2[..1] == f1 && fs[..2] == f2;
    assert RealSum(f1) == 1.0 && RealSum(f2) == 3.0 && RealSum(fs) == 6.0;
    assert SumSqDev(f1, 2.0) == 1.0 && SumSqDev(f2, 2.0) == 1.0 && SumSqDev(fs, 2.0) == 2.0;
  }
}
