/**
  The inputs and outputs of an analysis module (`ExperimentAnalysisDataIO`)
  and the ways a module writes a result into an output buffer.
*/
module AnalysisIO {
  import opened Doubles

  /**
    One named input or output of a module. `usedAs` is the role name the
    experiment gives it (`asString`). A buffer-bound one carries a snapshot of
    the buffer's contents and the buffer's `size`; a fixed one carries its value.
  */
  datatype DataIO =
    | Buffer(usedAs: string, data: seq<Double>, size: nat)
    | Value(usedAs: string, value: Double)

  /**
    How a module hands a result to an output buffer.
    Replace: `updateMaxAndMin(max, min)` followed by `replaceValues(values)`
    (or the combined `replaceValues(_:max:min:)`); the buffer's old contents go.
    Append: `append(value)`. AppendArray: `appendFromArray(values)`.
  */
  datatype Write =
    | Replace(values: seq<Double>, max: Option<Double>, min: Option<Double>)
    | Append(value: Double)
    | AppendArray(values: seq<Double>)

  /** A Swift run-time trap (force-unwrapping nil, an index out of range, a failed conversion). */
  datatype Trap = UnwrappedNil | IndexOutOfRange | InvalidConversion | NegativeCount

  datatype Result<+T> = Ok(value: T) | Crash(trap: Trap)

  /**
    `getSingleValue()` of an input: a fixed value, or the last value of a
    buffer (none when the buffer is empty).
  */
  function SingleValue(io: DataIO): (v: Option<Double>)
    ensures io.Value? ==> v == Some(io.value)
    ensures io.Buffer? ==> (v.Some? <==> |io.data| > 0)
    ensures io.Buffer? && v.Some? ==> v.value == io.data[|io.data| - 1]
  {
    match io
    case Value(_, value) => Some(value)
    case Buffer(_, data, _) => if |data| == 0 then None else Some(data[|data| - 1])
  }

  /**
    A write reaches an output only when the output is bound to a buffer;
    a fixed-value output silently takes nothing.
  */
  function WriteTo(output: Option<DataIO>, w: Write): (r: Option<Write>)
    ensures r.Some? <==> output.Some? && output.value.Buffer?
    ensures r.Some? ==> r.value == w
  {
    match output
    case Some(Buffer(_, _, _)) => Some(w)
    case _ => None
  }

  /**
    The last element of `ios` whose role is `name`, or None. A loop that
    overwrites a role variable on every match keeps exactly this one.
  */
  function LastNamed(ios: seq<DataIO>, name: string): (r: Option<nat>)
    ensures r.None? <==> forall i :: 0 <= i < |ios| ==> ios[i].usedAs != name
    ensures r.Some? ==> r.value < |ios| && ios[r.value].usedAs == name
    ensures r.Some? ==> forall i :: r.value < i < |ios| ==> ios[i].usedAs != name
  {
    if |ios| == 0 then None
    else if ios[|ios| - 1].usedAs == name then Some(|ios| - 1)
    else LastNamed(ios[..|ios| - 1], name)
  }

  /**
    The last BUFFER element of `ios` whose role is `name`, or None: a fixed value
    with that role is skipped, not taken and not a reset.
  */
  function LastBufferNamed(ios: seq<DataIO>, name: string): (r: Option<nat>)
    ensures r.None? <==> forall i :: 0 <= i < |ios| ==> !(ios[i].usedAs == name && ios[i].Buffer?)
    ensures r.Some? ==> r.value < |ios| && ios[r.value].usedAs == name && ios[r.value].Buffer?
    ensures r.Some? ==> forall i :: r.value < i < |ios| ==> !(ios[i].usedAs == name && ios[i].Buffer?)
  {
    if |ios| == 0 then None
    else if ios[|ios| - 1].usedAs == name && ios[|ios| - 1].Buffer? then Some(|ios| - 1)
    else LastBufferNamed(ios[..|ios| - 1], name)
  }

  /** The element at `k`, when there is one. */
  function ElementAt(ios: seq<DataIO>, k: Option<nat>): Option<DataIO>
    requires k.Some? ==> k.value < |ios|
  {
    if k.Some? then Some(ios[k.value]) else None
  }

  /** Looking at one more element: it is the last match if it matches, else the earlier one stands. */
  lemma LastNamedStep(ios: seq<DataIO>, i: nat, name: string)
    requires i < |ios|
    ensures LastNamed(ios[..i + 1], name) == if ios[i].usedAs == name then Some(i) else LastNamed(ios[..i], name)
  {
    assert ios[..i + 1][..i] == ios[..i];
  }

  lemma LastBufferNamedStep(ios: seq<DataIO>, i: nat, name: string)
    requires i < |ios|
    ensures LastBufferNamed(ios[..i + 1], name)
            == if ios[i].usedAs == name && ios[i].Buffer? then Some(i) else LastBufferNamed(ios[..i], name)
  {
    assert ios[..i + 1][..i] == ios[..i];
  }
}
