/**
  `MinAnalysis`: the minimum of the "y" input, optionally with its position
  (taken from the "x" input, or the index), or in `multiple` mode one minimum
  and position per run of values at or below a threshold.
*/
module MinAnalysis {
  import opened Doubles
  import opened AnalysisIO

  /** The roles `init` binds once; `update` only reads them. */
  datatype MinModule = MinModule(
    xIn: Option<seq<Double>>,
    yIn: Option<seq<Double>>,
    thresholdIn: Option<DataIO>,
    minOut: Option<DataIO>,
    positionOut: Option<DataIO>,
    multiple: bool)

  /** What one `update` hands to the "min" and the "position" outputs. */
  datatype MinWrites = MinWrites(toMin: Option<Write>, toPosition: Option<Write>)

  /** The data of the input at `k`, when there is one. */
  function DataAt(ios: seq<DataIO>, k: Option<nat>): Option<seq<Double>>
    requires k.Some? ==> k.value < |ios| && ios[k.value].Buffer?
  {
    if k.Some? then Some(ios[k.value].data) else None
  }

  /**
    `init`: "x" and "y" bind the data of the last BUFFER input with that role
    (a fixed value with that role is skipped), "threshold" the last input with
    that role, whatever its kind; "min" and "position" the last output with
    that role. Other roles are ignored. `multiple` defaults to false.
  */
  method Init(inputs: seq<DataIO>, outputs: seq<DataIO>, multipleAttribute: Option<bool>) returns (m: MinModule)
    ensures m.multiple == multipleAttribute.GetOr(false)
    ensures m.xIn == DataAt(inputs, LastBufferNamed(inputs, "x"))
    ensures m.yIn == DataAt(inputs, LastBufferNamed(inputs, "y"))
    ensures m.thresholdIn == ElementAt(inputs, LastNamed(inputs, "threshold"))
    ensures m.minOut == ElementAt(outputs, LastNamed(outputs, "min"))
    ensures m.positionOut == ElementAt(outputs, LastNamed(outputs, "position"))
  {
    var multiple := multipleAttribute.GetOr(false);
    var xIn, yIn, thresholdIn := BindInputs(inputs);
    var minOut, positionOut := BindOutputs(outputs);
    m := MinModule(xIn, yIn, thresholdIn, minOut, positionOut, multiple);
  }

  /** The input loop of `init`. */
  method BindInputs(inputs: seq<DataIO>) returns (xIn: Option<seq<Double>>, yIn: Option<seq<Double>>, thresholdIn: Option<DataIO>)
    ensures xIn == DataAt(inputs, LastBufferNamed(inputs, "x"))
    ensures yIn == DataAt(inputs, LastBufferNamed(inputs, "y"))
    ensures thresholdIn == ElementAt(inputs, LastNamed(inputs, "threshold"))
  {
    xIn, yIn, thresholdIn := None, None, None;
    for i := 0 to |inputs|
      invariant xIn == DataAt(inputs[..i], LastBufferNamed(inputs[..i], "x"))
      invariant yIn == DataAt(inputs[..i], LastBufferNamed(inputs[..i], "y"))
      invariant thresholdIn == ElementAt(inputs[..i], LastNamed(inputs[..i], "threshold"))
    {
      LastBufferNamedStep(inputs, i, "x");
      LastBufferNamedStep(inputs, i, "y");
      LastNamedStep(inputs, i, "threshold");
      var input := inputs[i];
      if input.usedAs == "x" {
        if input.Buffer? {
          xIn := Some(input.data);
        }
      } else if input.usedAs == "y" {
        if input.Buffer? {
          yIn := Some(input.data);
        }
      } else if input.usedAs == "threshold" {
        thresholdIn := Some(input);
      }
    }
    assert inputs[..|inputs|] == inputs;
  }

  /** The output loop of `init`. */
  method BindOutputs(outputs: seq<DataIO>) returns (minOut: Option<DataIO>, positionOut: Option<DataIO>)
    ensures minOut == ElementAt(outputs, LastNamed(outputs, "min"))
    ensures positionOut == ElementAt(outputs, LastNamed(outputs, "position"))
  {
    minOut, positionOut := None, None;
    for i := 0 to |outputs|
      invariant minOut == ElementAt(outputs[..i], LastNamed(outputs[..i], "min"))
      invariant positionOut == ElementAt(outputs[..i], LastNamed(outputs[..i], "position"))
    {
      LastNamedStep(outputs, i, "min");
      LastNamedStep(outputs, i, "position");
      if outputs[i].usedAs == "min" {
        minOut := Some(outputs[i]);
      } else if outputs[i].usedAs == "position" {
        positionOut := Some(outputs[i]);
      }
    }
    assert outputs[..|outputs|] == outputs;
  }

  // ---------------------------------------------------------------------------
  // The `multiple` scan

  /** A value that can be the minimum of a run: not above the threshold, not NaN, not +infinity. */
  predicate Eligible(v: Double, t: Double) {
    !Greater(v, t) && Less(v, PosInf)
  }

  /** The position reported for index `i`: `xIn[i]` when "x" is bound, else `Double(i)`. */
  function PositionAt(xIn: Option<seq<Double>>, i: nat): Double
    requires xIn.Some? ==> i < |xIn.value|
  {
    if xIn.Some? then xIn.value[i] else FromNat(i)
  }

  /** Every position the scan could report is finite. */
  predicate FinitePositions(y: seq<Double>, xIn: Option<seq<Double>>) {
    xIn.Some? ==> |xIn.value| >= |y| && forall i :: 0 <= i < |y| ==> IsFinite(xIn.value[i])
  }

  /**
    Where the run that is open after the first `n` values starts: just after
    the last value above the threshold, or at 0.
  */
  function OpenFrom(y: seq<Double>, t: Double, n: nat): (s: nat)
    requires n <= |y|
    ensures s <= n
    ensures s > 0 ==> Greater(y[s - 1], t)
    ensures forall j :: s <= j < n ==> !Greater(y[j], t)
  {
    if n == 0 then 0 else if Greater(y[n - 1], t) then n else OpenFrom(y, t, n - 1)
  }

  /**
    The index of the minimum of the eligible values in `y[lo..hi]`, the first
    one on ties; none when no value there is eligible.
  */
  function RunMin(y: seq<Double>, t: Double, lo: nat, hi: nat): (k: Option<nat>)
    requires lo <= hi <= |y|
    ensures k.None? <==> forall j :: lo <= j < hi ==> !Eligible(y[j], t)
    ensures k.Some? ==> lo <= k.value < hi && Eligible(y[k.value], t)
    decreases hi - lo
  {
    if hi == lo then None
    else
      var p := RunMin(y, t, lo, hi - 1);
      var v := y[hi - 1];
      if !Greater(v, t) && Less(v, if p.Some? then y[p.value] else PosInf) then Some(hi - 1) else p
  }

  /**
    `RunMin` finds the minimum: no value of the run at or below the threshold
    is smaller, and every eligible value before it is strictly greater.
  */
  lemma {:induction false} RunMinIsFirstMinimum(y: seq<Double>, t: Double, lo: nat, hi: nat)
    requires lo <= hi <= |y|
    ensures var k := RunMin(y, t, lo, hi);
            k.Some? ==>
              && (forall j :: lo <= j < hi && !Greater(y[j], t) && !y[j].NaN? ==> LessEq(y[k.value], y[j]))
              && (forall j :: lo <= j < k.value && Eligible(y[j], t) ==> Less(y[k.value], y[j]))
    decreases hi - lo
  {
    if hi > lo {
      RunMinIsFirstMinimum(y, t, lo, hi - 1);
    }
  }

  predicate StrictlyIncreasing(s: seq<nat>) {
    forall i, j :: 0 <= i < j < |s| ==> s[i] < s[j]
  }

  /**
    The reference for the `multiple` scan over the first `n` values: every
    value above the threshold closes the open run, and the closed run, if it
    has an eligible value, contributes the index of its first minimum. A run
    still open after `n` values contributes nothing. The indices come in input
    order (see `EmittedIncreasing`).
  */
  function Emitted(y: seq<Double>, t: Double, n: nat): (e: seq<nat>)
    requires n <= |y|
    ensures forall k :: 0 <= k < |e| ==> e[k] < n
  {
    if n == 0 then []
    else if Greater(y[n - 1], t) then
      var run := RunMin(y, t, OpenFrom(y, t, n - 1), n - 1);
      if run.Some? then Emitted(y, t, n - 1) + [run.value] else Emitted(y, t, n - 1)
    else Emitted(y, t, n - 1)
  }

  /** Appending an index above all others keeps a sequence strictly increasing. */
  lemma AppendIncreasing(s: seq<nat>, x: nat)
    requires StrictlyIncreasing(s) && forall k :: 0 <= k < |s| ==> s[k] < x
    ensures StrictlyIncreasing(s + [x])
  {
    var e := s + [x];
    assert forall k :: 0 <= k < |s| ==> e[k] == s[k];
  }

  /** Every index of `e` is eligible and lies before the start of the run open after `n` values. */
  predicate BeforeOpenRun(y: seq<Double>, t: Double, n: nat, e: seq<nat>)
    requires n <= |y|
  {
    forall k :: 0 <= k < |e| ==> e[k] < OpenFrom(y, t, n) && Eligible(y[e[k]], t)
  }

  /** Each reported index is eligible and lies before the last closing value. */
  lemma {:induction false} EmittedBeforeClose(y: seq<Double>, t: Double, n: nat)
    requires n <= |y|
    ensures BeforeOpenRun(y, t, n, Emitted(y, t, n))
  {
    if n > 0 {
      EmittedBeforeClose(y, t, n - 1);
      var prev := Emitted(y, t, n - 1);
      if Greater(y[n - 1], t) {
        assert OpenFrom(y, t, n) == n;
        var run := RunMin(y, t, OpenFrom(y, t, n - 1), n - 1);
        if run.Some? {
          var e := prev + [run.value];
          assert Emitted(y, t, n) == e;
          assert forall k :: 0 <= k < |prev| ==> e[k] == prev[k];
        } else {
          assert Emitted(y, t, n) == prev;
        }
      } else {
        assert OpenFrom(y, t, n) == OpenFrom(y, t, n - 1);
        assert Emitted(y, t, n) == prev;
      }
    }
  }

  /** The reported indices come in input order. */
  lemma {:induction false} EmittedIncreasing(y: seq<Double>, t: Double, n: nat)
    requires n <= |y|
    ensures StrictlyIncreasing(Emitted(y, t, n))
  {
    if n > 0 {
      EmittedIncreasing(y, t, n - 1);
      var prev := Emitted(y, t, n - 1);
      if Greater(y[n - 1], t) {
        var open := OpenFrom(y, t, n - 1);
        var run := RunMin(y, t, open, n - 1);
        if run.Some? {
          EmittedBeforeClose(y, t, n - 1);
          AppendIncreasing(prev, run.value);
          assert Emitted(y, t, n) == prev + [run.value];
        } else {
          assert Emitted(y, t, n) == prev;
        }
      } else {
        assert Emitted(y, t, n) == prev;
      }
    }
  }

  /** Each index of `e` lies in a later run than the one before it. */
  predicate Separated(y: seq<Double>, t: Double, e: seq<nat>)
    requires forall k :: 0 <= k < |e| ==> e[k] <= |y|
  {
    forall k :: 0 < k < |e| ==> e[k - 1] < OpenFrom(y, t, e[k])
  }

  lemma SeparatedAppend(y: seq<Double>, t: Double, e: seq<nat>, x: nat)
    requires x <= |y| && forall k :: 0 <= k < |e| ==> e[k] < x && e[k] < OpenFrom(y, t, x)
    requires Separated(y, t, e)
    ensures Separated(y, t, e + [x])
  {
    var e' := e + [x];
    assert forall k :: 0 <= k < |e| ==> e'[k] == e[k];
  }

  /**
    Between two consecutive reported indices there is a closing value: the run
    of each reported index starts after the index reported before it.
  */
  lemma {:induction false} EmittedSeparated(y: seq<Double>, t: Double, n: nat)
    requires n <= |y|
    ensures Separated(y, t, Emitted(y, t, n))
  {
    if n > 0 {
      EmittedSeparated(y, t, n - 1);
      var prev := Emitted(y, t, n - 1);
      var open := OpenFrom(y, t, n - 1);
      if Greater(y[n - 1], t) {
        var run := RunMin(y, t, open, n - 1);
        if run.Some? {
          EmittedBeforeClose(y, t, n - 1);
          OpenFromAfterClose(y, t, n - 1, run.value);
          SeparatedAppend(y, t, prev, run.value);
        } else {
          assert Emitted(y, t, n) == prev;
        }
      } else {
        assert Emitted(y, t, n) == prev;
      }
    }
  }

  /** Inside the open run, the run start stays the same. */
  lemma {:induction false} OpenFromAfterClose(y: seq<Double>, t: Double, n: nat, k: nat)
    requires n <= |y| && OpenFrom(y, t, n) <= k <= n
    ensures OpenFrom(y, t, k) == OpenFrom(y, t, n)
    decreases n - k
  {
    if k < n {
      assert !Greater(y[n - 1], t);
      OpenFromAfterClose(y, t, n - 1, k);
    }
  }

  function MinsAt(y: seq<Double>, ks: seq<nat>): (r: seq<Double>)
    requires forall k :: 0 <= k < |ks| ==> ks[k] < |y|
    ensures |r| == |ks| && forall k :: 0 <= k < |ks| ==> r[k] == y[ks[k]]
  {
    seq(|ks|, k requires 0 <= k < |ks| => y[ks[k]])
  }

  function PositionsAt(xIn: Option<seq<Double>>, ks: seq<nat>): (r: seq<Double>)
    requires xIn.Some? ==> forall k :: 0 <= k < |ks| ==> ks[k] < |xIn.value|
    ensures |r| == |ks| && forall k :: 0 <= k < |ks| ==> r[k] == PositionAt(xIn, ks[k])
  {
    seq(|ks|, k requires 0 <= k < |ks| => PositionAt(xIn, ks[k]))
  }

  /**
    What the scan has reported after looking at `i` values: entries from
    increasing indices below `i`, each an eligible value of `y` with its
    position, and every position finite.
  */
  predicate Reported(y: seq<Double>, xIn: Option<seq<Double>>, t: Double, i: nat,
                     mins: seq<Double>, xs: seq<Double>, picked: seq<nat>)
    requires i <= |y|
  {
    && |mins| == |xs| == |picked|
    && StrictlyIncreasing(picked)
    && (forall k :: 0 <= k < |picked| ==> picked[k] < i)
    && (forall k :: 0 <= k < |picked| ==> xIn.Some? ==> picked[k] < |xIn.value|)
    && (forall k :: 0 <= k < |picked| ==> mins[k] == y[picked[k]] && Eligible(mins[k], t))
    && (forall k :: 0 <= k < |picked| ==> xs[k] == PositionAt(xIn, picked[k]) && IsFinite(xs[k]))
  }

  /**
    The state of the open run: untouched (+infinity, -infinity), or the value
    and position of one eligible index after every reported one.
  */
  predicate OpenState(y: seq<Double>, xIn: Option<seq<Double>>, t: Double, i: nat, picked: seq<nat>,
                      thisK: nat, thisMin: Double, thisX: Double)
    requires i <= |y|
  {
    || (thisMin == PosInf && thisX == NegInf)
    || (&& thisK < i
        && (forall k :: 0 <= k < |picked| ==> picked[k] < thisK)
        && thisMin == y[thisK] && Eligible(thisMin, t)
        && (xIn.Some? ==> thisK < |xIn.value|) && thisX == PositionAt(xIn, thisK))
  }

  /** With finite positions, the scan's state after `i` values is the reference's. */
  predicate Tracks(y: seq<Double>, xIn: Option<seq<Double>>, t: Double, i: nat, picked: seq<nat>,
                   thisK: nat, thisMin: Double, thisX: Double)
    requires i <= |y| && FinitePositions(y, xIn)
  {
    && picked == Emitted(y, t, i)
    && var run := RunMin(y, t, OpenFrom(y, t, i), i);
       if run.Some?
       then thisK == run.value && thisMin == y[thisK] && thisX == PositionAt(xIn, thisK)
       else thisMin == PosInf && thisX == NegInf
  }

  /**
    A value above the threshold: the open run is reported exactly when its
    position is finite, which with finite positions is exactly when the
    reference has a minimum for it.
  */
  lemma TracksClose(y: seq<Double>, xIn: Option<seq<Double>>, t: Double, i: nat, picked: seq<nat>,
                    thisK: nat, thisMin: Double, thisX: Double)
    requires i < |y| && FinitePositions(y, xIn) && Greater(y[i], t)
    requires Tracks(y, xIn, t, i, picked, thisK, thisMin, thisX)
    ensures IsFinite(thisX) ==> Tracks(y, xIn, t, i + 1, picked + [thisK], thisK, PosInf, NegInf)
    ensures !IsFinite(thisX) ==> Tracks(y, xIn, t, i + 1, picked, thisK, thisMin, thisX)
  {
    assert OpenFrom(y, t, i + 1) == i + 1;
    assert RunMin(y, t, i + 1, i + 1).None?;
    var run := RunMin(y, t, OpenFrom(y, t, i), i);
    assert IsFinite(thisX) <==> run.Some?;
  }

  /** A value at or below the threshold: it becomes the run's candidate exactly when the reference takes it. */
  lemma TracksKeep(y: seq<Double>, xIn: Option<seq<Double>>, t: Double, i: nat, picked: seq<nat>,
                   thisK: nat, thisMin: Double, thisX: Double)
    requires i < |y| && FinitePositions(y, xIn) && !Greater(y[i], t)
    requires Tracks(y, xIn, t, i, picked, thisK, thisMin, thisX)
    ensures Less(y[i], thisMin) ==> Tracks(y, xIn, t, i + 1, picked, i, y[i], PositionAt(xIn, i))
    ensures !Less(y[i], thisMin) ==> Tracks(y, xIn, t, i + 1, picked, thisK, thisMin, thisX)
  {
    assert OpenFrom(y, t, i + 1) == OpenFrom(y, t, i);
    assert Emitted(y, t, i + 1) == Emitted(y, t, i);
  }

  /** Reporting the open run keeps `Reported` and resets the run. */
  lemma ReportRun(y: seq<Double>, xIn: Option<seq<Double>>, t: Double, i: nat,
                  mins: seq<Double>, xs: seq<Double>, picked: seq<nat>,
                  thisK: nat, thisMin: Double, thisX: Double)
    requires i < |y| && IsFinite(thisX)
    requires Reported(y, xIn, t, i, mins, xs, picked)
    requires OpenState(y, xIn, t, i, picked, thisK, thisMin, thisX)
    ensures Reported(y, xIn, t, i + 1, mins + [thisMin], xs + [thisX], picked + [thisK])
    ensures OpenState(y, xIn, t, i + 1, picked + [thisK], thisK, PosInf, NegInf)
  {
    var p := picked + [thisK];
    assert forall k :: 0 <= k < |picked| ==> p[k] == picked[k];
  }

  /** Looking at one more value without reporting keeps both invariants. */
  lemma ReportNothing(y: seq<Double>, xIn: Option<seq<Double>>, t: Double, i: nat,
                      mins: seq<Double>, xs: seq<Double>, picked: seq<nat>,
                      thisK: nat, thisMin: Double, thisX: Double)
    requires i < |y|
    requires Reported(y, xIn, t, i, mins, xs, picked)
    requires OpenState(y, xIn, t, i, picked, thisK, thisMin, thisX)
    ensures Reported(y, xIn, t, i + 1, mins, xs, picked)
    ensures OpenState(y, xIn, t, i + 1, picked, thisK, thisMin, thisX)
  {
  }

  /** A value at or below the threshold and below the candidate becomes the candidate. */
  lemma TakeCandidate(y: seq<Double>, xIn: Option<seq<Double>>, t: Double, i: nat,
                      mins: seq<Double>, xs: seq<Double>, picked: seq<nat>,
                      thisK: nat, thisMin: Double, thisX: Double)
    requires i < |y| && !Greater(y[i], t) && Less(y[i], thisMin)
    requires xIn.Some? ==> i < |xIn.value|
    requires Reported(y, xIn, t, i, mins, xs, picked)
    requires OpenState(y, xIn, t, i, picked, thisK, thisMin, thisX)
    ensures Reported(y, xIn, t, i + 1, mins, xs, picked)
    ensures OpenState(y, xIn, t, i + 1, picked, i, y[i], PositionAt(xIn, i))
  {
    assert Less(thisMin, PosInf) || thisMin == PosInf;
    assert Less(y[i], PosInf);
  }

  /**
    The `multiple` scan (the `for (i, v)` loop of `update`). Each reported
    minimum is an eligible value of `y` (so at most the threshold) with a
    finite position; the reported values come from increasing indices; the
    two lists have equal length. When every position is finite the result is
    exactly the reference `Emitted`. Reading "x" past its end traps.
  */
  method ScanRuns(y: seq<Double>, xIn: Option<seq<Double>>, t: Double)
    returns (r: Result<(seq<Double>, seq<Double>)>, ghost picked: seq<nat>)
    ensures r.Crash? ==> r.trap == IndexOutOfRange && xIn.Some? && |xIn.value| < |y|
    ensures FinitePositions(y, xIn) ==> r.Ok?
    ensures r.Ok? ==> Reported(y, xIn, t, |y|, r.value.0, r.value.1, picked)
    ensures r.Ok? && !t.NaN? ==> forall k :: 0 <= k < |r.value.0| ==> LessEq(r.value.0[k], t)
    ensures r.Ok? && FinitePositions(y, xIn) ==>
              picked == Emitted(y, t, |y|)
              && r.value.0 == MinsAt(y, picked) && r.value.1 == PositionsAt(xIn, picked)
  {
    var mins: seq<Double> := [];
    var xs: seq<Double> := [];
    picked := [];
    var thisMin := PosInf;
    var thisX := NegInf;
    ghost var thisK: nat := 0;
    for i := 0 to |y|
      invariant Reported(y, xIn, t, i, mins, xs, picked)
      invariant OpenState(y, xIn, t, i, picked, thisK, thisMin, thisX)
      invariant FinitePositions(y, xIn) ==> Tracks(y, xIn, t, i, picked, thisK, thisMin, thisX)
    {
      var v := y[i];
      if Greater(v, t) {
        if FinitePositions(y, xIn) {
          TracksClose(y, xIn, t, i, picked, thisK, thisMin, thisX);
        }
        if IsFinite(thisX) {
          ReportRun(y, xIn, t, i, mins, xs, picked, thisK, thisMin, thisX);
          mins := mins + [thisMin];
          xs := xs + [thisX];
          picked := picked + [thisK];
          thisMin := PosInf;
          thisX := NegInf;
        } else {
          ReportNothing(y, xIn, t, i, mins, xs, picked, thisK, thisMin, thisX);
        }
      } else {
        if FinitePositions(y, xIn) {
          TracksKeep(y, xIn, t, i, picked, thisK, thisMin, thisX);
        }
        if Less(v, thisMin) {
          if xIn.Some? && i >= |xIn.value| {
            return Crash(IndexOutOfRange), picked;
          }
          TakeCandidate(y, xIn, t, i, mins, xs, picked, thisK, thisMin, thisX);
          thisMin := v;
          thisX := PositionAt(xIn, i);
          thisK := i;
        } else {
          ReportNothing(y, xIn, t, i, mins, xs, picked, thisK, thisMin, thisX);
        }
      }
    }
    r := Ok((mins, xs));
  }

  /** The threshold: the "threshold" input's single value, 0.0 without one. */
  function Threshold(m: MinModule): (t: Double)
    ensures m.thresholdIn.None? ==> t == Fin(0.0)
  {
    match m.thresholdIn
    case None => Fin(0.0)
    case Some(io) => SingleValue(io).GetOr(Fin(0.0))
  }

  /**
    `update()`. Without a "y" buffer it traps. With no "position" output and
    not `multiple`, one value, the minimum of y, is appended to "min". In
    `multiple` mode the run minima and their positions are appended as arrays
    of equal length. Otherwise the minimum and the position of its first
    occurrence (`xIn[index]`, or the index itself) are appended; an index
    past the end of "x" traps.
  */
  method Update(m: MinModule) returns (r: Result<MinWrites>)
    ensures m.yIn.None? <==> r == Crash(UnwrappedNil)
    ensures m.yIn.Some? && m.positionOut.None? && !m.multiple ==>
              var y := m.yIn.value;
              var min := MinOf(y).GetOr(PosInf);
              && r == Ok(MinWrites(WriteTo(m.minOut, Append(min)), None))
              && (|y| > 0 ==> min in y)
              && (NoNaN(y) ==> forall i :: 0 <= i < |y| ==> LessEq(min, y[i]))
    ensures m.yIn.Some? && m.multiple && r.Ok? ==>
              && (r.value.toMin.Some? <==> m.minOut.Some? && m.minOut.value.Buffer?)
              && (r.value.toPosition.Some? <==> m.positionOut.Some? && m.positionOut.value.Buffer?)
              && (r.value.toMin.Some? ==> r.value.toMin.value.AppendArray?)
              && (r.value.toPosition.Some? ==> r.value.toPosition.value.AppendArray?)
              && (r.value.toMin.Some? && r.value.toPosition.Some? ==>
                    |r.value.toMin.value.values| == |r.value.toPosition.value.values|)
    ensures m.yIn.Some? && m.multiple && r.Crash? ==>
              r.trap == IndexOutOfRange && m.xIn.Some? && |m.xIn.value| < |m.yIn.value|
    ensures m.yIn.Some? && m.multiple && FinitePositions(m.yIn.value, m.xIn) ==>
              var y := m.yIn.value;
              var e := Emitted(y, Threshold(m), |y|);
              r == Ok(MinWrites(WriteTo(m.minOut, AppendArray(MinsAt(y, e))),
                                WriteTo(m.positionOut, AppendArray(PositionsAt(m.xIn, e)))))
    ensures m.yIn.Some? && m.positionOut.Some? && !m.multiple ==>
              var y := m.yIn.value;
              var min := MinOf(y).GetOr(PosInf);
              var index := ArgMinOf(y).GetOr(0);
              r == if m.xIn.Some? && index >= |m.xIn.value| then Crash(IndexOutOfRange)
                   else Ok(MinWrites(WriteTo(m.minOut, Append(min)),
                                     WriteTo(m.positionOut, Append(PositionAt(m.xIn, index)))))
  {
    if m.yIn.None? {
      return Crash(UnwrappedNil);
    }
    var inArray := m.yIn.value;
    if m.positionOut.None? && !m.multiple {
      var min := MinOf(inArray).GetOr(PosInf);
      return Ok(MinWrites(WriteTo(m.minOut, Append(min)), None));
    } else if m.multiple {
      var threshold := Threshold(m);
      var scan, picked := ScanRuns(inArray, m.xIn, threshold);
      if scan.Crash? {
        return Crash(scan.trap);
      }
      var (min, x) := scan.value;
      return Ok(MinWrites(WriteTo(m.minOut, AppendArray(min)), WriteTo(m.positionOut, AppendArray(x))));
    } else {
      var min := MinOf(inArray).GetOr(PosInf);
      var index := ArgMinOf(inArray).GetOr(0);
      if m.xIn.Some? && index >= |m.xIn.value| {
        return Crash(IndexOutOfRange);
      }
      var x := PositionAt(m.xIn, index);
      return Ok(MinWrites(WriteTo(m.minOut, Append(min)), WriteTo(m.positionOut, Append(x))));
    }
  }

  /**
    With threshold 0, the values [-1, -3, -2, 1, -5, -5, 2, -7] hold two closed
    runs: their first minima are at indices 1 and 4; the run [-7] at the end is
    still open and reports nothing.
  */
  lemma RunsExample()
    ensures Emitted([Fin(-1.0), Fin(-3.0), Fin(-2.0), Fin(1.0), Fin(-5.0), Fin(-5.0), Fin(2.0), Fin(-7.0)],
                    Fin(0.0), 8) == [1, 4]
  {
    var y := [Fin(-1.0), Fin(-3.0), Fin(-2.0), Fin(1.0), Fin(-5.0), Fin(-5.0), Fin(2.0), Fin(-7.0)];
    var t := Fin(0.0);
    assert OpenFrom(y, t, 3) == 0 && OpenFrom(y, t, 6) == 4;
    assert RunMin(y, t, 0, 3) == Some(1);
    assert RunMin(y, t, 4, 6) == Some(4);
    assert Emitted(y, t, 4) == [1];
    assert Emitted(y, t, 7) == [1, 4];
  }
}
