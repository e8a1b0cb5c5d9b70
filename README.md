# phyphox numeric data path, modelled in Dafny

This project models the part of phyphox that moves measured numbers through an
experiment:

- the `DataBuffer`, a named, size-capped queue of doubles. It has a write-once
  ("static") latch, an eviction counter (`trashedCount`), a state token that
  every mutation invalidates, and an ordered set of observers;
- the analysis modules that read buffers and produce derived series. These are
  integration (running sums), the shared map-over-input body of the one-input
  modules (`UpdateValueAnalysis`), the constant generator, the average with its
  standard deviation, and the minimum, which has a single mode, a position mode
  and a threshold-run ("multiple") mode;
- the choice of an experiment translation for the app's locale: a language-code
  parser, an additive score, and a strict-improvement search over the available
  codes.

Swift `Double`s are modelled as `Fin(real) | PosInf | NegInf | NaN`, with the
IEEE comparisons, so any comparison with NaN is false and the infinity
sentinels behave as they do in the source. Finite arithmetic is exact.

An analysis module's `update()` returns what it hands to its output buffers, a
`Write`:

- `Replace`: `replaceValues` together with its maximum and minimum;
- `Append`: `append` of one value;
- `AppendArray`: `appendFromArray`.

Swift run-time traps are returned as `Crash(trap)`: a force-unwrapped nil, an
index out of range, a failed `Int(_)` conversion, or a negative array count.

The buffer is a class whose methods update its fields in place. The loops of
the modules are methods with loop invariants. Each is proved against a
reference definition, for example `PrefixSum`, `MaxOf`/`MinOf`, `FiniteReals`,
`Emitted`, `Rating`, or the role lookups `LastNamed` and `LastStd`.

The buffer does not behave like a plain bounded queue with a write-once
latch, and the model keeps every difference:

- `clear` is skipped for every static buffer, written or not. A write-once
  latch would block it only once the buffer has been written
  (`DataBufferExamples.UnwrittenStaticClearExample`).
- `replaceValues` keeps the last `size` values and zeroes `trashedCount`. It
  counts none of the values it drops as evicted.
- `append` drops at most one front value. It tests `if`, not "while over
  capacity", so a queue already over its size stays over it.
- Shrinking `size` removes nothing. The `didSet` loop's guard `count > size`
  can never hold, because `count` is `min(actualCount, size)`; only `count`
  shrinks (`DataBuffers.DataBuffer.SetSize`).
- `appendFromArray` stores the given values alone. It drops the old contents,
  ignores the size cap and counts no eviction (see "## Findings").

In `multiple` mode, a run that is still open when the input ends reports
nothing. The scan reports a run only when a later value above the threshold
closes it, and the model keeps that behaviour (`MinAnalysis.RunsExample`).

| file | module | models |
|---|---|---|
| doubles.dfy | `Doubles` | doubles, IEEE `<`, `>` and `+`, running max/min, argmin |
| analysis_io.dfy | `AnalysisIO` | module inputs and outputs, writes, traps, lookup by role |
| data_buffer.dfy | `DataBuffers`, `DataBufferExamples` | `DataBuffer`, and consequences on concrete buffers |
| integration_analysis.dfy | `IntegrationAnalysis` | `IntegrationAnalysis.update` |
| update_value_analysis.dfy | `UpdateValueAnalysis` | `updateIterativelyWithMethod`, `updateAllWithMethod` |
| const_generator_analysis.dfy | `ConstGeneratorAnalysis` | `ConstGeneratorAnalysis.update` |
| average_analysis.dfy | `AverageAnalysis` | `AverageAnalysis.init`, `update` |
| min_analysis.dfy | `MinAnalysis` | `MinAnalysis.init`, `update` |
| translation_collection.dfy | `TranslationCollection` | `ExperimentTranslationCollection` |

## Model

| member | source | states |
|---|---|---|
| `Doubles.MaxOf` | phyphox/IntegrationAnalysis.swift:33-35 | the maximum tracked by `if max == nil \|\| v > max` exists iff the sequence is non-empty, is one of its values, and is at least every value when none is NaN |
| `Doubles.MinOf` | phyphox/IntegrationAnalysis.swift:37-39 | the tracked minimum exists iff the sequence is non-empty, is one of its values, and is at most every value when none is NaN |
| `Doubles.ArgMinOf` | phyphox-iOS/phyphox/Experiments/Analysis/Modules/MinAnalysis.swift:147 | the index reported for the minimum exists iff the input is non-empty, holds `MinOf`, and without NaN is the first such index |
| `Doubles.MaxMinSnoc` | phyphox/IntegrationAnalysis.swift:33-39 | one more value is one step of each tracking rule: the tracked max/min of `s + [v]` are one step on from those of `s` |
| `AnalysisIO.SingleValue` | phyphox-iOS/phyphox/Experiments/Analysis/Modules/MinAnalysis.swift:107 | a fixed input yields its value; a buffer yields its last value, and nothing when it is empty |
| `AnalysisIO.WriteTo` | phyphox-iOS/phyphox/Experiments/Analysis/Modules/MinAnalysis.swift:125-141 | a write reaches an output exactly when the output is present and bound to a buffer, and then unchanged |
| `AnalysisIO.LastNamed` | phyphox-iOS/phyphox/Experiments/Analysis/Modules/MinAnalysis.swift:53-63 | the element a role-overwriting loop keeps: none iff no element has the role, else one with the role and no later one |
| `AnalysisIO.LastBufferNamed` | phyphox-iOS/phyphox/Experiments/Analysis/Modules/MinAnalysis.swift:28-44 | the same, where a fixed value with the role is skipped |
| `DataBuffers.Without` | phyphox/DataBuffer.swift:39-41 | removing an observer keeps exactly the other members, changes nothing when it is absent, and keeps the set duplicate-free |
| `DataBuffers.WithoutCutsOne` | phyphox/DataBuffer.swift:39-41 | in a duplicate-free list, removal cuts out exactly that one entry and keeps the order of the rest |
| `DataBuffers.KeepLast` | phyphox/DataBuffer.swift:145-149 | the truncation `vals[vals.count-size..<vals.count]` keeps the last min(size, count) values, in order |
| `DataBuffers.AppendStep` | phyphox/DataBuffer.swift:169-176 | enqueue, then one front value is dropped exactly when the queue held `size` or more |
| `DataBuffers.AppendEachKeepsLast` | phyphox/DataBuffer.swift:195-219 | appending values one at a time to a queue within its size leaves the last `size` of old contents followed by the values: what `appendFromArray` computes at lines 201-207 |
| `DataBuffers.DataBuffer.constructor` | phyphox/DataBuffer.swift:81-85 | a new buffer is empty, unlatched, unwritten, without observers, token or evictions |
| `DataBuffers.DataBuffer.Count` | phyphox/DataBuffer.swift:67-71 | `count` is at most `size` and at most the values stored, and equals one of them |
| `DataBuffers.DataBuffer.ActualCount` | phyphox/DataBuffer.swift:73-77 | `actualCount` is the number of values stored; it is at least `count`, and equals it while within `size` |
| `DataBuffers.DataBuffer.SetSize` | phyphox/DataBuffer.swift:20-26 | setting `size` removes no value, because the `count > size` guard cannot hold; `count` is then capped by the new size |
| `DataBuffers.DataBuffer.AddObserver` | phyphox/DataBuffer.swift:35-37 | a new observer goes last; one already registered changes nothing |
| `DataBuffers.DataBuffer.RemoveObserver` | phyphox/DataBuffer.swift:39-41 | the observer set becomes `Without(old, o)` and stays duplicate-free |
| `DataBuffers.DataBuffer.SendUpdateNotification` | phyphox/DataBuffer.swift:103-109 | every observer is visited once, in registration order |
| `DataBuffers.DataBuffer.GetStateToken` | phyphox/DataBuffer.swift:46-52 | repeated requests return the current token; without one, a fresh token is issued and kept |
| `DataBuffers.DataBuffer.StateTokenIsValid` | phyphox/DataBuffer.swift:54-56 | a token is valid iff it is present and equals the current one; nil is never valid |
| `DataBuffers.DataBuffer.BufferMutated` | phyphox/DataBuffer.swift:58-60 | a mutation drops the current token |
| `DataBuffers.DataBuffer.Clear` | phyphox/DataBuffer.swift:127-138 | a non-static buffer is emptied, its evictions zeroed, its token dropped and its observers notified on request; a static buffer is left alone |
| `DataBuffers.DataBuffer.ReplaceValues` | phyphox/DataBuffer.swift:140-159 | unless latched (static and written), the queue becomes the last `size` of the values, evictions 0, written set, token dropped; latched, nothing changes |
| `DataBuffers.DataBuffer.Append` | phyphox/DataBuffer.swift:161-193 | unless latched, a present value goes last, one front value is dropped and counted when over `size`, written set, token dropped; an absent value changes nothing, `written` included |
| `DataBuffers.DataBuffer.AppendFromArray` | phyphox/DataBuffer.swift:195-219 | as written: unless latched, the queue becomes exactly the values, uncapped and without the old contents; evictions untouched |
| `DataBuffers.DataBuffer.AppendFromArrayIntended` | phyphox/DataBuffer.swift:201-207 | corrected: the queue becomes the last `size` of old contents followed by the values, the same as appending them one at a time |
| `DataBufferExamples.TokenLifecycle` | phyphox/DataBuffer.swift:46-60 | two requests without a mutation give the same token; after an append that token is invalid, even once a new token exists |
| `DataBufferExamples.CapacityExample` | phyphox/DataBuffer.swift:169-176 | three appends to a buffer of size 2 keep the last two values and count one eviction |
| `DataBufferExamples.StaticLatchExample` | phyphox/DataBuffer.swift:140-219 | after the first write to a static buffer, a later `append` and `appendFromArray` each leave its contents alone |
| `DataBufferExamples.StaticReplaceLatchExample` | phyphox/DataBuffer.swift:140-159 | after the first write to a static buffer, a second `replaceValues` leaves its contents alone |
| `DataBufferExamples.StaticClearExample` | phyphox/DataBuffer.swift:127-138 | `clear` leaves a written static buffer's contents alone |
| `DataBufferExamples.UnwrittenStaticClearExample` | phyphox/DataBuffer.swift:128 | `clear` tests only the static flag: a never-written static buffer keeps its valid token |
| `DataBufferExamples.AppendFromArrayDropsContents` | phyphox/DataBuffer.swift:209 | appending [2] to a buffer holding [1] leaves [2] as written, where the intended result is [1, 2] |
| `IntegrationAnalysis.Update` | phyphox/IntegrationAnalysis.swift:13-46 | traps exactly when the buffer output or the input is missing, and otherwise succeeds; a fixed-value input writes nothing; otherwise the output is replaced by one running sum per input value, with their max and min |
| `IntegrationAnalysis.RunningSums` | phyphox/IntegrationAnalysis.swift:30-42 | the loop yields `PrefixSum(data, i + 1)` at each index `i`, and the max and min of those sums |
| `IntegrationAnalysis.PrefixSumOfFinite` | phyphox/IntegrationAnalysis.swift:30-41 | on finite input each running sum is finite and is the exact sum of that prefix |
| `IntegrationAnalysis.Differences` | phyphox/IntegrationAnalysis.swift:30-41 | on finite input, consecutive running sums differ by the input value: differencing undoes integration |
| `IntegrationAnalysis.OnesExample` | phyphox/IntegrationAnalysis.swift:30-42 | integrating [1, 1, 1, 1] gives [1, 2, 3, 4] |
| `UpdateValueAnalysis.InputValues` | phyphox/UpdateValueAnalysis.swift:43-50 | a buffer input contributes its contents, a fixed input exactly `[value]` |
| `UpdateValueAnalysis.UpdateAll` | phyphox/UpdateValueAnalysis.swift:55-75 | traps unless the first input and a first buffer output exist; otherwise replaces with `method(values)`, with the max and min of that result (present iff it is non-empty, and taken from it) |
| `UpdateValueAnalysis.UpdateIteratively` | phyphox/UpdateValueAnalysis.swift:19-53 | the output is `method` applied to each input value in order, with the tracked max/min of the results (none for no values, as the `nil` start); the result equals `UpdateAll` for the elementwise transform |
| `ConstGeneratorAnalysis.TruncateTowardZero` | phyphox/ConstGeneratorAnalysis.swift:22 | `Int(x)` rounds toward zero: the integer part, within one of `x`, on the side of zero |
| `ConstGeneratorAnalysis.ToInt` | phyphox/ConstGeneratorAnalysis.swift:22 | the conversion succeeds iff the double is finite, and otherwise traps |
| `ConstGeneratorAnalysis.LastSingleStep` | phyphox/ConstGeneratorAnalysis.swift:17-27 | one more input overwrites the value kept for its role, and leaves the value kept for any other role alone |
| `ConstGeneratorAnalysis.Update` | phyphox/ConstGeneratorAnalysis.swift:13-42 | a non-finite length traps, then a missing buffer output, then a negative length; otherwise `length` copies of the last "value" (default 0), where a length of 0 or none becomes the buffer size; max = min = value |
| `AverageAnalysis.FirstNotStd` | phyphox-iOS/phyphox/Experiments/Analysis/Modules/AverageAnalysis.swift:20-27 | the average output is the first output not named "std", and none iff every output is named "std" |
| `AverageAnalysis.LastStd` | phyphox-iOS/phyphox/Experiments/Analysis/Modules/AverageAnalysis.swift:20-27 | the std output is the last output named "std" or coming after the average output |
| `AverageAnalysis.Init` | phyphox-iOS/phyphox/Experiments/Analysis/Modules/AverageAnalysis.swift:17-43 | fails iff there is no input or the first input is a fixed value; binds the first input's data and the outputs as `FirstNotStd`/`LastStd` say |
| `AverageAnalysis.AvgAndStdDiffer` | phyphox-iOS/phyphox/Experiments/Analysis/Modules/AverageAnalysis.swift:20-29 | the average and the std output are never the same output |
| `AverageAnalysis.StdIsLastAfterAvg` | phyphox-iOS/phyphox/Experiments/Analysis/Modules/AverageAnalysis.swift:20-27 | when the average output is not last, the std output is the last output, whatever its name |
| `AverageAnalysis.FirstNotStdStays` | phyphox-iOS/phyphox/Experiments/Analysis/Modules/AverageAnalysis.swift:21-25 | once the average output is chosen, later outputs do not change it |
| `AverageAnalysis.FiniteReals` | phyphox-iOS/phyphox/Experiments/Analysis/Modules/AverageAnalysis.swift:52-57 | the values that count are no more than the input, and are none iff no input value is finite |
| `AverageAnalysis.FiniteRealsContents` | phyphox-iOS/phyphox/Experiments/Analysis/Modules/AverageAnalysis.swift:52-57 | every finite value takes part and nothing else does |
| `AverageAnalysis.FiniteRealsSingle` | phyphox-iOS/phyphox/Experiments/Analysis/Modules/AverageAnalysis.swift:53-56 | one value contributes itself once when it is finite, and nothing otherwise |
| `AverageAnalysis.FiniteRealsAppend` | phyphox-iOS/phyphox/Experiments/Analysis/Modules/AverageAnalysis.swift:52-57 | the filter keeps order and multiplicity: the finite values of `a + b` are those of `a` followed by those of `b` |
| `AverageAnalysis.SumFinite` | phyphox-iOS/phyphox/Experiments/Analysis/Modules/AverageAnalysis.swift:52-57 | the first loop yields the sum and the number of the finite values |
| `AverageAnalysis.SumSqFinite` | phyphox-iOS/phyphox/Experiments/Analysis/Modules/AverageAnalysis.swift:78-85 | the second loop yields the sum of squared deviations of the finite values from the mean, and their number |
| `AverageAnalysis.Update` | phyphox-iOS/phyphox/Experiments/Analysis/Modules/AverageAnalysis.swift:45-96 | without a finite value nothing is written; otherwise the mean is appended as `[avg]` to a buffer average output, and `[std]` (NaN below two values, else the root of the sample variance) to a buffer std output |
| `AverageAnalysis.RealSumBounds` | phyphox-iOS/phyphox/Experiments/Analysis/Modules/AverageAnalysis.swift:52-57 | a sum of values in [lo, hi] lies in [n lo, n hi] |
| `AverageAnalysis.MeanBetweenBounds` | phyphox-iOS/phyphox/Experiments/Analysis/Modules/AverageAnalysis.swift:62 | the mean lies between any lower and any upper bound of the finite values |
| `AverageAnalysis.SumSqDevNonNegative` | phyphox-iOS/phyphox/Experiments/Analysis/Modules/AverageAnalysis.swift:78-86 | the sum of squared deviations is never negative, so `sqrt` never gets a negative argument |
| `AverageAnalysis.ConstantValues` | phyphox-iOS/phyphox/Experiments/Analysis/Modules/AverageAnalysis.swift:62-86 | equal values have that value as mean and no deviation |
| `AverageAnalysis.ConstantDeviation` | phyphox-iOS/phyphox/Experiments/Analysis/Modules/AverageAnalysis.swift:78-85 | values all equal to `c` have no squared deviation from `c` |
| `AverageAnalysis.SkipsNaNExample` | phyphox-iOS/phyphox/Experiments/Analysis/Modules/AverageAnalysis.swift:52-57 | in [1, 2, NaN, 3] the NaN is skipped |
| `AverageAnalysis.StatisticsExample` | phyphox-iOS/phyphox/Experiments/Analysis/Modules/AverageAnalysis.swift:62-86 | 1, 2, 3 have mean 2 and sample variance 1 |
| `MinAnalysis.Init` | phyphox-iOS/phyphox/Experiments/Analysis/Modules/MinAnalysis.swift:23-66 | "x" and "y" bind the last buffer input with that role, "threshold" the last input with that role, "min" and "position" the last output with that role; `multiple` defaults to false |
| `MinAnalysis.BindInputs` | phyphox-iOS/phyphox/Experiments/Analysis/Modules/MinAnalysis.swift:28-51 | the input loop keeps, per role, what `LastBufferNamed`/`LastNamed` single out |
| `MinAnalysis.BindOutputs` | phyphox-iOS/phyphox/Experiments/Analysis/Modules/MinAnalysis.swift:53-63 | the output loop keeps the last output named "min" and the last named "position" |
| `MinAnalysis.OpenFrom` | phyphox-iOS/phyphox/Experiments/Analysis/Modules/MinAnalysis.swift:112-118 | the open run starts right after the last value above the threshold, or at 0, and holds no such value |
| `MinAnalysis.RunMin` | phyphox-iOS/phyphox/Experiments/Analysis/Modules/MinAnalysis.swift:119-122 | a run's candidate exists iff the run has a value at or below the threshold below +infinity, and is such a value |
| `MinAnalysis.RunMinIsFirstMinimum` | phyphox-iOS/phyphox/Experiments/Analysis/Modules/MinAnalysis.swift:119-122 | the candidate is the run's minimum, and the strict `<` makes it the first occurrence |
| `MinAnalysis.Emitted` | phyphox-iOS/phyphox/Experiments/Analysis/Modules/MinAnalysis.swift:111-123 | the reference scan reports only indices it has passed |
| `MinAnalysis.EmittedBeforeClose` | phyphox-iOS/phyphox/Experiments/Analysis/Modules/MinAnalysis.swift:112-118 | every reported index is at or below the threshold and lies before the open run: a run is reported only once a value above the threshold closes it |
| `MinAnalysis.EmittedIncreasing` | phyphox-iOS/phyphox/Experiments/Analysis/Modules/MinAnalysis.swift:111-123 | runs are reported in input order |
| `MinAnalysis.EmittedSeparated` | phyphox-iOS/phyphox/Experiments/Analysis/Modules/MinAnalysis.swift:111-123 | consecutive reported indices lie in different runs: a closing value lies between them |
| `MinAnalysis.ScanRuns` | phyphox-iOS/phyphox/Experiments/Analysis/Modules/MinAnalysis.swift:109-123 | equal-length lists of minima and positions from increasing indices, each minimum a value of `y` at or below the threshold with a finite position; exactly the reference `Emitted` when positions are finite; only a short "x" can trap |
| `MinAnalysis.Threshold` | phyphox-iOS/phyphox/Experiments/Analysis/Modules/MinAnalysis.swift:107 | without a threshold input the threshold is 0.0 |
| `MinAnalysis.Update` | phyphox-iOS/phyphox/Experiments/Analysis/Modules/MinAnalysis.swift:84-180 | traps on a nil unwrap iff "y" is unbound; single mode appends the minimum of y; `multiple` appends equal-length arrays, the reference runs under finite positions, and can only trap on a short "x"; position mode traps iff `index` is past the end of "x", and otherwise appends the minimum and `x[index]` or `index` |
| `MinAnalysis.RunsExample` | phyphox-iOS/phyphox/Experiments/Analysis/Modules/MinAnalysis.swift:111-123 | with threshold 0, [-1, -3, -2, 1, -5, -5, 2, -7] reports indices 1 and 4; the open run [-7] reports nothing |
| `TranslationCollection.Lower` | phyphox-iOS/phyphox/Experiments/ExperimentTranslationCollection.swift:22 | lower-casing maps 'A'..'Z' to 'a'..'z' and keeps every other character |
| `TranslationCollection.LowerString` | phyphox-iOS/phyphox/Experiments/ExperimentTranslationCollection.swift:22 | a code is lower-cased character by character |
| `TranslationCollection.LowerStringIdempotent` | phyphox-iOS/phyphox/Experiments/ExperimentTranslationCollection.swift:22 | lower-casing twice is lower-casing once |
| `TranslationCollection.Split` | phyphox-iOS/phyphox/Experiments/ExperimentTranslationCollection.swift:22 | splitting on '-' and '_' gives at least one piece, and no piece holds a separator |
| `TranslationCollection.JoinSplit` | phyphox-iOS/phyphox/Experiments/ExperimentTranslationCollection.swift:22 | joining the pieces with '-' gives back the code with every separator made '-' |
| `TranslationCollection.SplitClean` | phyphox-iOS/phyphox/Experiments/ExperimentTranslationCollection.swift:22 | the pieces of lower-cased text are lower-case and free of separators |
| `TranslationCollection.Parse` | phyphox-iOS/phyphox/Experiments/ExperimentTranslationCollection.swift:22-43 | the code is lower-cased and split; the base is the first piece; with two or more pieces the region is the last one and the script the second one when there are three or more, else the region; its properties are proved in `ParseParts`, `ParseIgnoresCase` and the three-, two- and one-part examples |
| `TranslationCollection.ParseParts` | phyphox-iOS/phyphox/Experiments/ExperimentTranslationCollection.swift:22-43 | the base, region and script parsed from a code are lower-case and free of separators; a code without a separator is, lower-cased, its own base with empty region and script |
| `TranslationCollection.ParseIgnoresCase` | phyphox-iOS/phyphox/Experiments/ExperimentTranslationCollection.swift:22-43 | parsing does not see letter case |
| `TranslationCollection.ParseThreeParts` | phyphox-iOS/phyphox/Experiments/ExperimentTranslationCollection.swift:27-39 | "de-Latn-AT" has base "de", region "at" and script "latn" |
| `TranslationCollection.ParseTwoParts` | phyphox-iOS/phyphox/Experiments/ExperimentTranslationCollection.swift:33-39 | "en_US" has base "en", and region and script both "us" |
| `TranslationCollection.ParseOnePart` | phyphox-iOS/phyphox/Experiments/ExperimentTranslationCollection.swift:40-43 | "fr" has base "fr" and empty region and script |
| `TranslationCollection.Rating` | phyphox-iOS/phyphox/Experiments/ExperimentTranslationCollection.swift:15-67 | nil or "" rates 1; otherwise the score is in 0..132, is at least 100 iff the base language matches, and ends in 2 iff the base is "en" |
| `TranslationCollection.GetLanguageRating` | phyphox-iOS/phyphox/Experiments/ExperimentTranslationCollection.swift:15-67 | the score built up with `+=` is `Rating` |
| `TranslationCollection.BaseLanguageDominates` | phyphox-iOS/phyphox/Experiments/ExperimentTranslationCollection.swift:50-66 | a code in the current base language outscores every non-empty code in another language |
| `TranslationCollection.BaseLanguageBeatsEmpty` | phyphox-iOS/phyphox/Experiments/ExperimentTranslationCollection.swift:15-66 | a code in the current base language also outscores a nil or empty code |
| `TranslationCollection.RatingRegionExample` | phyphox-iOS/phyphox/Experiments/ExperimentTranslationCollection.swift:50-66 | in a German locale in Germany, "de_DE" rates 120 |
| `TranslationCollection.RatingBaseExample` | phyphox-iOS/phyphox/Experiments/ExperimentTranslationCollection.swift:50-66 | in that locale "de" rates 100 and "en" 2 |
| `TranslationCollection.Init` | phyphox-iOS/phyphox/Experiments/ExperimentTranslationCollection.swift:69-83 | the chosen code is the default or a key and rates at least as high as each; the default stays unless a key beats it; the first key of the best rating wins; the selected translation is that code's entry, or none |
| `TranslationCollection.Localize` | phyphox-iOS/phyphox/Experiments/ExperimentTranslationCollection.swift:85-87 | the selected translation's string when it has one, else the string itself |
| `TranslationCollection.LocalizeWithoutTranslation` | phyphox-iOS/phyphox/Experiments/ExperimentTranslationCollection.swift:85-87 | without a selected translation every string is returned unchanged |

## Left out

- Concurrency: `queue.sync`, the `async` flag, `autoreleasepool` and the `mainThread` hand-off. Every write is sequential, and a notification is the list of observers visited.
- Observer callbacks (`dataBufferUpdated`): observers are plain ids, and what they do on notification is outside this model.
- `Queue<Double>`, `updateMaxAndMin`, `replaceValues(_:max:min:)` and the `ExperimentAnalysisDataIO` plumbing are not part of this model. An operator returns its writes instead of performing them, and a buffer-bound input carries a snapshot of the buffer's data and its `size`.
- Output-side effects of Min and Average: their `appendFromArray`/`append` writes are returned as `Write` values, and are not applied to a `DataBuffer`.
- Floating point: finite values are exact reals, so rounding and overflow are not modelled. `sqrt` is a parameter of `AverageAnalysis.Update`.
- `vDSP_minvD`, `vDSP_minviD`, `Surge.max` and `Surge.min` are not visible. They are modelled as the strict-`<` scans `MinOf`, `ArgMinOf` and `MaxOf`. These give the first index on ties and the scan's result when a NaN is present. On empty input they give none.
- `MinAnalysis.Update` turns an empty scan into +infinity and index 0, which is what `vDSP_minvD` and `vDSP_minviD` are documented to give for an empty vector. The calls overwrite the start values the source sets, 0 in single mode and -infinity in position mode.
- `UpdateValueAnalysis.UpdateAll`: for an empty result, max and min are reported absent. This is a choice for the unseen `Surge.max`/`Surge.min`. The agreement with `UpdateIteratively`, whose max and min stay `nil` on empty input, holds on empty input only under that choice.
- `getSingleValue()` is not visible. A ConstGenerator input carries its resolved single value, and the Min threshold reads a fixed value or a buffer's last value.
- Sizes are natural numbers. A negative `Int` size, which would trap in `replaceValues`'s slicing, is not modelled.
- `Int(_)` of a finite double too large for `Int` would trap; ConstGenerator's conversion is modelled without that upper bound.
- The auto-clearing of inputs by the analysis-module base class (`AutoClearingExperimentAnalysisModule`) is not part of this model.
- Attribute parsing (`attributes.optionalValue(for: "multiple")`) and its throwing: the `multiple` attribute is passed in as an optional Boolean.
- `print` diagnostics and the `DEBUG_ANALYSIS` blocks.
- Lower-casing is ASCII only; Unicode case mapping is not modelled.
- The order of dictionary keys is a parameter of `TranslationCollection.Init`, which must list every key once.
- The app's locale, derived from `Bundle.main.preferredLocalizations` and `Locale`, is a parameter.
- The fields of `ExperimentTranslation` other than its translated strings are not part of this model.
- The iteration, `subscript`, `objectAtIndex`, `first`, `last`, `toArray` and `description` accessors of `DataBuffer` are plain reads of `queue` and are not modelled separately.
- MinAnalysis.ScanRuns: equality with the reference `Emitted` is proved only when every position is finite. Otherwise the contract states the properties of each reported entry, and proves no trap only when "x" is long enough.
- MinAnalysis.Update: in `multiple` mode, its result is pinned to the reference runs only under finite positions. A trap there is shown to need a short "x", but a short "x" is not shown to trap.

## Findings

| source | as written | input that shows it | evidently intended | confidence | as-written member | corrected member |
|---|---|---|---|---|---|---|
| phyphox/DataBuffer.swift:195-219 | `appendFromArray` builds the old contents followed by `values`, cut to the last `size` (lines 201-207), then stores `values` itself (line 209) | a buffer of size 5 holding [1]; `appendFromArray([2])` leaves [2] | store the truncated concatenation, giving [1, 2], the same as appending 2 | high, not executed | `DataBufferExamples.AppendFromArrayDropsContents` | `DataBuffers.DataBuffer.AppendFromArrayIntended` |
