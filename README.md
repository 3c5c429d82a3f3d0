# zakazane-utilities, engine-independent core, in Dafny

This project models the engine-independent layer of the zakazane-utilities
Unreal Engine plugin and proves properties of it. It also models the
bookkeeping parts of its engine-facing code. There is one module per source
file:

- `Results`: `TResult`, the plugin's port of C++23 `std::expected`, with
  its `void` specialization and the `AndThen`/`OrElse` continuations.
- `MultisourceValues`: the three `TMultisourceValue` resolvers, as classes
  over the array or set of sources they mutate:
  - priority stack, latest push winning ties;
  - if-any set;
  - sum.
- `Masks`, `Bits`, `Container`: bit and index arithmetic.
  - flag masks over bit vectors;
  - the leftmost-set-bit halving recursion;
  - circular-buffer index math, with the C++ truncating `%` written out.
- `Maths`: the integral helpers and the vector component helpers, over
  `int` and `real`.
- `Functional`: `TLiteralFunction` and the `FSum` fold.
- `Lazy`, `Future`, `Delegates`, `OutputDeviceStats`: small state machines,
  as classes:
  - `TLazy`, evaluated once;
  - `TScopedPromise`, which delivers exactly one value, and `AggregateFutures`;
  - `TScopedDelegateHandle`, against a test delegate;
  - `FOutputDeviceStatsWrapper`, which counts messages per verbosity.
- `Strings`: `GetRightmostSegments`, `BoolToString` and `IntToString`.
- `Properties`: the archetype change-propagation worklist of
  `ModifyAndPropagateChange`.
- `Components`: the subtree traversal orders of `ForEachComponentInSubtree`,
  and `FindComponentInSubtree`, over a tree of components.
- `ComponentHierarchies`: `FComponentHierarchy`, a class holding its
  `CompsByParent`, `CompsByChild` and `CompsByName` maps. It covers
  construction from class defaults, traversal, lookup, adding and removing
  subobjects with reparenting, and the template-suffix name stripping.
- `Serialization`: CSV export and import.
  - quote doubling, the rule of RFC 4180 section 2, item 7;
  - the exported layout, with a round trip through a comma-terminated reading of it that uses RFC 4180 quoting;
  - the import's header mapping, row acceptance and result aggregation.
- `Wrappers` and `Sequences` hold `Option` and shared sequence filters.

Engine services are parameters of the model. These are:

- the property reflection, meaning a property's name and its text form;
- `ImportText_Direct`, and the rows `FCsvParser` returns;
- the subobject data subsystem's answers;
- the SCS node lists, the class-default components, and validity and flags of objects;
- the slow task's cancellation.

Where the source demands something of its callers through `check`,
`FindChecked` or undefined behaviour, the model states that demand as a
precondition. Paths below are relative to the repository root.

## Model

| member | source | states |
|---|---|---|
| Results.Default | Source/ZakazaneUtilities/Public/Zakazane/Result.h:93 | A default-constructed result holds a value, the default value of its value type. |
| Results.MakeError | Source/ZakazaneUtilities/Public/Zakazane/Result.h:127-157 | A result built from an error (Unexpect tag or TUnexpected) holds an error, and GetError returns it. |
| Results.AndThen | Source/ZakazaneUtilities/Public/Zakazane/Result.h:440-456 | On a value the result is the continuation applied to it; on an error the result holds the same error. |
| Results.OrElse | Source/ZakazaneUtilities/Public/Zakazane/Result.h:474-490 | On an error the result is the continuation applied to it; on a value the result holds the same value. |
| Results.ValueXorError | Source/ZakazaneUtilities/Public/Zakazane/Result.h:159-167 | Exactly one of HasValue and HasError holds, and operator bool equals HasValue. |
| Results.ConstructionRoundTrip | Source/ZakazaneUtilities/Public/Zakazane/Result.h:104-157 | A stored value or error is read back unchanged by GetValue or GetError. |
| Results.AndThenLeftIdentity | Source/ZakazaneUtilities/Public/Zakazane/Result.h:440-456 | AndThen on a value v is the continuation applied to v. |
| Results.AndThenRightIdentity | Source/ZakazaneUtilities/Public/Zakazane/Result.h:440-456 | AndThen with the value constructor as continuation returns the result unchanged. |
| Results.AndThenAssociative | Source/ZakazaneUtilities/Public/Zakazane/Result.h:440-456 | Chaining two AndThen calls equals one AndThen with the composed continuation. |
| Results.OrElseLeftIdentity | Source/ZakazaneUtilities/Public/Zakazane/Result.h:474-490 | OrElse on an error e is the continuation applied to e. |
| Results.OrElseRightIdentity | Source/ZakazaneUtilities/Public/Zakazane/Result.h:474-490 | OrElse with the error constructor as continuation returns the result unchanged. |
| Results.OrElseAssociative | Source/ZakazaneUtilities/Public/Zakazane/Result.h:474-490 | Chaining two OrElse calls equals one OrElse with the composed continuation. |
| Results.FallbackAfterFailedStep | Source/ZakazaneUtilities/Public/Zakazane/Result.h:440-490 | AndThen skips its continuation on an error, so a following OrElse sees the original error. |
| Results.VoidDefault | Source/ZakazaneUtilities/Public/Zakazane/Result.h:309 | A default TResult<void, E> holds no error, so it has a value. |
| Results.VoidMakeError | Source/ZakazaneUtilities/Public/Zakazane/Result.h:315-344 | A void result built from an error holds that error. |
| Results.VoidAndThen | Source/ZakazaneUtilities/Public/Zakazane/Result.h:458-472 | Without an error the nullary continuation is called; with one, the result holds that error. |
| Results.VoidOrElse | Source/ZakazaneUtilities/Public/Zakazane/Result.h:492-508 | With an error the continuation is called on it; without one, the result holds the default of the return value type. |
| Results.VoidValueXorError | Source/ZakazaneUtilities/Public/Zakazane/Result.h:346-354 | Exactly one of HasValue and HasError holds for a void result, and operator bool equals HasValue. |
| Results.AsUnitResult | Source/ZakazaneUtilities/Public/Zakazane/Result.h:303-429 | A void result corresponds to a result of unit value with the same HasValue and the same error. |
| Results.VoidAndThenAgrees | Source/ZakazaneUtilities/Public/Zakazane/Result.h:458-472 | AndThen on a void result equals AndThen on the corresponding unit-valued result. |
| Bits.GetLeftmostBit | Source/ZakazaneUtilities/Public/Zakazane/Bits.h:39-44 | The result is 0 exactly for 0. Otherwise it is the power of two 2^floor(log2 v), so r <= v < 2r, and it fits the integer width. |
| Bits.ImplIsLeftmost | Source/ZakazaneUtilities/Public/Zakazane/Bits.h:13-35 | The halving recursion at width Bits returns the leftmost set bit of the low Bits bits of its argument. |
| Bits.Combine | Source/ZakazaneUtilities/Public/Zakazane/Bits.h:25-33 | Given correct results of both recursive calls, the choice between them gives the leftmost bit of the low 2*HalfBits bits. |
| Bits.HighBranch | Source/ZakazaneUtilities/Public/Zakazane/Bits.h:27-30 | When the upper half is non-zero, its leftmost bit shifted back left by HalfBits is the leftmost bit of the whole. |
| Bits.LowBranch | Source/ZakazaneUtilities/Public/Zakazane/Bits.h:33 | When the upper half is zero, (Value << HalfBits) >> HalfBits keeps the low bits the second call needs. |
| Bits.DocumentedExample | Source/ZakazaneUtilities/Public/Zakazane/Bits.h:39 | GetLeftmostBit(0b00010101) on a uint8 is 0b00010000. |
| Bits.LeftmostIsSetBit | Source/ZakazaneUtilities/Public/Zakazane/Bits.h:39 | The bit returned is set in the value. |
| Bits.LeftmostIdempotent | Source/ZakazaneUtilities/Public/Zakazane/Bits.h:39-44 | Taking the leftmost bit of the leftmost bit changes nothing. |
| Masks.SanitizeKeepsLowBits | Source/ZakazaneUtilities/Public/Zakazane/Mask.h:39-49 | With max flag 0 Sanitize keeps every bit. Otherwise it keeps exactly the bits at or below the leftmost bit of the max flag. |
| Masks.SanitizeIdempotent | Source/ZakazaneUtilities/Public/Zakazane/Mask.h:39-49 | Sanitize sets no new bit, and sanitizing twice equals sanitizing once. |
| Masks.EmptyIsClear | Source/ZakazaneUtilities/Public/Zakazane/Mask.h:51 | The default mask is sanitary and converts to false. |
| Masks.FromIntIsSanitary | Source/ZakazaneUtilities/Public/Zakazane/Mask.h:57-63 | The explicit constructor always yields a sanitary mask, built only from bits of its argument. |
| Masks.FromIntWarnsIffChanged | Source/ZakazaneUtilities/Public/Zakazane/Mask.h:57-63 | The constructor changes its argument exactly when it warns, and it warns exactly on a value that is not sanitary. |
| Masks.NotMeaning | Source/ZakazaneUtilities/Public/Zakazane/Mask.h:103-106 | `~` is the complement within the sanitary bits, and its result is sanitary. |
| Masks.NotInvolutive | Source/ZakazaneUtilities/Public/Zakazane/Mask.h:103-106 | Applying `~` twice to a sanitary mask gives the mask back. |
| Masks.OperatorsMeaning | Source/ZakazaneUtilities/Public/Zakazane/Mask.h:108-116 | `|` and `&` are bitwise union and intersection, limited to the sanitary bits. |
| Masks.OperatorsOnSanitary | Source/ZakazaneUtilities/Public/Zakazane/Mask.h:108-116 | On sanitary masks, `|` and `&` are the plain bitwise operations. |
| Masks.OperatorsCommute | Source/ZakazaneUtilities/Public/Zakazane/Mask.h:108-116 | `|` and `&` are commutative. |
| Masks.FlagOverloadsSymmetric | Source/ZakazaneUtilities/Public/Zakazane/Mask.h:120-139 | The mask/flag overloads convert the flag to TMask(flag), and their argument order does not matter. |
| Masks.HasAnyMeaning | Source/ZakazaneUtilities/Public/Zakazane/Mask.h:65-68 | HasAny holds exactly when the masks share a bit at or below the max flag. |
| Masks.HasAnyOnSanitary | Source/ZakazaneUtilities/Public/Zakazane/Mask.h:65-68 | For a sanitary mask, HasAny holds exactly when the masks share a bit. |
| Masks.HasAllMeaning | Source/ZakazaneUtilities/Public/Zakazane/Mask.h:70-74 | HasAll of a sanitary argument holds exactly when every one of its bits is set in the mask. |
| Masks.HasAllOfUnsanitary | Source/ZakazaneUtilities/Public/Zakazane/Mask.h:70-74 | HasAll is false for an argument that has bits above the max flag. |
| Masks.GetClearedMeaning | Source/ZakazaneUtilities/Public/Zakazane/Mask.h:76-79 | GetCleared keeps none of the given bits and sets no bit that the mask did not have. |
| Masks.GetClearedOnSanitary | Source/ZakazaneUtilities/Public/Zakazane/Mask.h:76-79 | Clearing bits from a sanitary mask removes exactly the given bits. |
| Masks.MaskTestExamples | Source/ZakazaneUtilitiesTests/Private/Zakazane/MaskTest.cpp:34-51 | The assertions of the mask test hold, with flags 1, 2 and 4 and max flag 4. |
| Masks.LeftmostAgrees | Source/ZakazaneUtilities/Public/Zakazane/Mask.h:43 | On a uint8 max flag, Bits::GetLeftmostBit equals the bit-vector leftmost bit used by Sanitize. |
| Container.CRem | Source/ZakazaneUtilities/Public/Zakazane/Container.h:26 | The C++ remainder keeps the sign of the dividend and is smaller in magnitude than the divisor. |
| Container.GetCircularBufferIndex | Source/ZakazaneUtilities/Public/Zakazane/Container.h:24-28 | The result stays inside int32. For a positive size it lies in [0, size) and equals the Euclidean remainder, negative indices included. |
| Container.DefinedForPositiveSize | Source/ZakazaneUtilities/Public/Zakazane/Container.h:24-28 | Every int32 index has a defined circular index for a positive int32 size. |
| Container.IdentityInRange | Source/ZakazaneUtilities/Public/Zakazane/Container.h:24-28 | An index already inside [0, size) is returned unchanged. |
| Container.NextAndPreviousAreShifts | Source/ZakazaneUtilities/Public/Zakazane/Container.h:49-67 | Next is (i + 1) mod N and Previous is (i - 1) mod N. |
| Container.PreviousOfNext | Source/ZakazaneUtilities/Public/Zakazane/Container.h:49-67 | Previous undoes Next on a buffer index. |
| Container.NextOfPrevious | Source/ZakazaneUtilities/Public/Zakazane/Container.h:49-67 | Next undoes Previous on a buffer index. |
| Container.DocumentedExamples | Source/ZakazaneUtilities/Public/Zakazane/Container.h:30-56 | The static_asserts for GetCircularBufferIndex and GetNextCircularBufferIndex hold. |
| Container.RemainderToEuclidean | Source/ZakazaneUtilities/Public/Zakazane/Container.h:26-27 | The sign-correcting branch turns the C++ remainder into the Euclidean one for a positive size. |
| Functional.LiteralFunction | Source/ZakazaneUtilities/Public/Zakazane/Functional.h:22-29 | The nullary functor returns its literal. |
| Functional.LiteralFunctionExample | Source/ZakazaneUtilities/Public/Zakazane/Functional.h:31 | TLiteralFunction<42>{}() is 42. |
| Functional.SumOfOne | Source/ZakazaneUtilities/Public/Zakazane/Functional.h:36-43 | FSum of one argument is that argument. |
| Functional.SumIsTotal | Source/ZakazaneUtilities/Public/Zakazane/Functional.h:36-43 | The recursive FSum of one or more arguments equals their sum accumulated from the last argument. |
| Functional.SumExamples | Source/ZakazaneUtilities/Public/Zakazane/Functional.h:45-47 | The integral static_asserts of FSum hold. |
| Lazy.Lazy.constructor | Source/ZakazaneUtilities/Public/Zakazane/Lazy.h:33-36 | A new lazy value stores its evaluator and is not evaluated. |
| Lazy.Lazy.GetValue | Source/ZakazaneUtilities/Public/Zakazane/Lazy.h:38-48 | The first call runs the evaluator once and stores its result. Later calls return the stored value without running the evaluator. Afterwards the value is evaluated. |
| Lazy.EvaluatesOnDemand | Source/ZakazaneUtilitiesTests/Private/Zakazane/LazyTest.cpp:10-31 | A lazy 42 is not evaluated before the first read, is evaluated after it, and two reads give 42 and 42 with one evaluator call. |
| Strings.LastIndexOf | Source/ZakazaneUtilities/Private/Zakazane/String.cpp:18 | FindLastChar gives the index of the last occurrence of the character, or none when it does not occur. |
| Strings.RightChop | Source/ZakazaneUtilities/Private/Zakazane/String.cpp:29 | RightChop drops the first n characters, or everything when the string is shorter. |
| Strings.GetRightmostSegmentsAsWritten | Source/ZakazaneUtilities/Private/Zakazane/String.cpp:9-30 | The loop as written computes RightmostSegmentsAsWritten: cut at the last delimiter Elems times, then return the text after the cut, or the whole string when the view left is empty. |
| Strings.GetRightmostSegments | Source/ZakazaneUtilities/Private/Zakazane/String.cpp:9-30 | The corrected loop computes RightmostSegments, the suffix holding the last Elems segments, which RightmostSegmentsMeaning characterises. |
| Strings.CutMeaning | Source/ZakazaneUtilities/Private/Zakazane/String.cpp:15-26 | The loop either runs out of delimiters, when the string has fewer than Elems of them, or leaves a view that is followed by a delimiter and exactly Elems - 1 more. |
| Strings.RightmostSegmentsMeaning | Source/ZakazaneUtilities/Private/Zakazane/String.cpp:9-30 | The result is a suffix of the string, empty when Elems <= 0. Otherwise it holds fewer than Elems delimiters and is the whole string or follows a delimiter. |
| Strings.AllSegmentsGiveWholeString | Source/ZakazaneUtilities/Private/Zakazane/String.cpp:19-22 | Asking for more segments than there are delimiters gives the whole string, as written and corrected. |
| Strings.CutRunsOut | Source/ZakazaneUtilities/Private/Zakazane/String.cpp:15-26 | With fewer delimiters than segments asked for, the loop finds no delimiter on some turn. |
| Strings.AsWrittenIsSuffix | Source/ZakazaneUtilities/Private/Zakazane/String.cpp:9-30 | As written the result is still a suffix of the string, and it is empty for Elems <= 0. |
| Strings.AsWrittenAgreesWithoutLeadingDelimiter | Source/ZakazaneUtilities/Private/Zakazane/String.cpp:29 | As written and corrected agree on every string that does not start with the delimiter. |
| Strings.LeadingDelimiterCounterexample | Source/ZakazaneUtilities/Private/Zakazane/String.cpp:29 | One segment of ".b" is ".b" as written, although ".b" holds a delimiter; the corrected version gives "b". |
| Strings.RightmostSegmentsExamples | Source/ZakazaneUtilitiesTests/Private/Zakazane/StringTest.cpp:12-19 | The documented and tested examples on "abc.def.ghi" hold, for both versions. |
| Strings.BoolToStringNames | Source/ZakazaneUtilities/Private/Zakazane/String.cpp:38-45 | BoolToString gives "True" exactly for true and "False" exactly for false. |
| Strings.IntToStringRoundTrip | Source/ZakazaneUtilities/Private/Zakazane/String.cpp:47-52 | The text of IntToString parses back as the value, with or without the sign option. |
| Strings.IntToStringSign | Source/ZakazaneUtilities/Private/Zakazane/String.cpp:47-52 | A "+" leads exactly when the sign is asked for and the value is non-negative, so 0 gives "+0"; a "-" leads exactly for negative values. |
| OutputDeviceStats.OutputDeviceStatsWrapper.constructor | Source/ZakazaneUtilities/Private/Zakazane/OutputDeviceStatsWrapper.cpp:5-7 | A new wrapper has counted nothing and passed nothing on. |
| OutputDeviceStats.OutputDeviceStatsWrapper.IncrementNumMessages | Source/ZakazaneUtilities/Private/Zakazane/OutputDeviceStatsWrapper.cpp:48-51 | The count of the verbosity gains one and nothing is passed on. |
| OutputDeviceStats.OutputDeviceStatsWrapper.Serialize | Source/ZakazaneUtilities/Private/Zakazane/OutputDeviceStatsWrapper.cpp:9-17 | The message is counted, also without a wrapped device, and passed on only when a device is wrapped. |
| OutputDeviceStats.OutputDeviceStatsWrapper.SerializeWithTime | Source/ZakazaneUtilities/Private/Zakazane/OutputDeviceStatsWrapper.cpp:19-28 | The overload with a time counts and passes the message on in the same way. |
| OutputDeviceStats.OutputDeviceStatsWrapper.GetNumMessagesWorseThan | Source/ZakazaneUtilities/Private/Zakazane/OutputDeviceStatsWrapper.cpp:36-46 | The loop computes the sum of the counts of the verbosities 1 to v. |
| OutputDeviceStats.IncrementCountsOne | Source/ZakazaneUtilities/Private/Zakazane/OutputDeviceStatsWrapper.cpp:48-51 | Counting a message adds exactly one to its own verbosity and changes no other count. |
| OutputDeviceStats.IncrementWorseThan | Source/ZakazaneUtilities/Private/Zakazane/OutputDeviceStatsWrapper.cpp:36-51 | A message of verbosity w adds one to the worse-than-v total exactly when 1 <= w <= v; NoLogging messages are never counted there. |
| OutputDeviceStats.WorseThanMonotonic | Source/ZakazaneUtilities/Private/Zakazane/OutputDeviceStatsWrapper.cpp:40-43 | The worse-than-v total does not decrease as v grows. |
| OutputDeviceStats.NothingCounted | Source/ZakazaneUtilities/Private/Zakazane/OutputDeviceStatsWrapper.cpp:30-34 | Before anything is counted, every total is 0. |
| OutputDeviceStats.CountsWithoutDevice | Source/ZakazaneUtilities/Private/Zakazane/OutputDeviceStatsWrapper.cpp:11-16 | A wrapper without a device still counts: two warnings and an error give three messages worse than Warning, and nothing is passed on. |
| Maths.GetVectorAbsMaxComponentIndex | Source/ZakazaneUtilities/Public/Zakazane/Math.h:24-41 | The index is in 0..2. No component has a larger magnitude, and every earlier component is strictly smaller, so ties go to the first. |
| Maths.VectorSetComponent | Source/ZakazaneUtilities/Public/Zakazane/Math.h:47-63 | The chosen component gets the value and the other two stay as they were. |
| Maths.MakeVectorSetComponent | Source/ZakazaneUtilities/Public/Zakazane/Math.h:68-74 | The copy has the chosen component set and the other two from the argument. |
| Maths.MakeVectorSetComponentOfZero | Source/ZakazaneUtilities/Public/Zakazane/Math.h:79-82 | Starting from zero, the chosen component holds the value and the other two are 0. |
| Maths.ProjectOntoXY | Source/ZakazaneUtilities/Public/Zakazane/Math.h:85-88 | Z is zeroed and X and Y are kept. |
| Maths.MathTestExamples | Source/ZakazaneUtilitiesTests/Private/Zakazane/MathTest.cpp:14-33 | The abs-max examples give indices 1, 1 and 0. Setting or making component 1 of <0, 1, 2> as 3 gives <0, 3, 2>, and from zero <0, 3, 0>. |
| Maths.AbsSignedMeaning | Source/ZakazaneUtilities/Public/Zakazane/Math.h:128-140 | Abs is non-negative, is the value or its negation, is the value exactly when that is non-negative, and is even. |
| Maths.AbsUnsignedIdentity | Source/ZakazaneUtilities/Public/Zakazane/Math.h:128-140 | Abs of an unsigned value is the value itself. |
| Maths.AbsExamples | Source/ZakazaneUtilities/Public/Zakazane/Math.h:142-144 | The integral static_asserts of Abs hold. |
| Maths.IsNearlyEqualMeaning | Source/ZakazaneUtilities/Public/Zakazane/Math.h:154-159 | Two integers are nearly equal exactly when their distance is within the tolerance, and the relation is symmetric. |
| Maths.IsNearlyEqualExamples | Source/ZakazaneUtilities/Public/Zakazane/Math.h:163-165 | The integral static_asserts of IsNearlyEqual hold. |
| Maths.SnapIfNearMeaning | Source/ZakazaneUtilities/Public/Zakazane/Math.h:176-184 | An input within the threshold snaps to the snap value and any other input is kept; for a non-negative threshold, snapping twice equals snapping once. |
| Maths.SnapIfNearExamples | Source/ZakazaneUtilities/Public/Zakazane/Math.h:186-190 | The static_asserts of SnapIfNear hold. |
| Future.ScopedPromise.constructor | Source/ZakazaneUtilities/Public/Zakazane/Future.h:20-27 | A new scoped promise holds a fresh promise with no value, stores its cancelled-value function, and is not fulfilled. |
| Future.ScopedPromise.Moved | Source/ZakazaneUtilities/Public/Zakazane/Future.h:29-35 | The new promise takes over the other's promise, function and flag. The other is left without a promise and marked fulfilled, so it never cancels. |
| Future.ScopedPromise.MoveAssign | Source/ZakazaneUtilities/Public/Zakazane/Future.h:37-47 | As written: move-assigning to itself changes nothing; otherwise it makes the same transfer as the move constructor, and the promise held before is dropped without a value. |
| Future.ScopedPromise.MoveAssignCancellingReplaced | Source/ZakazaneUtilities/Public/Zakazane/Future.h:37-56 | Corrected: an unfulfilled promise that is assigned over first delivers its cancelled value, then the transfer follows. |
| Future.ScopedPromise.SetValue | Source/ZakazaneUtilities/Public/Zakazane/Future.h:65-70 | The value is delivered to the future and the promise is marked fulfilled. |
| Future.ScopedPromise.EmplaceValue | Source/ZakazaneUtilities/Public/Zakazane/Future.h:58-63 | A value built from the arguments is delivered and the promise is marked fulfilled. |
| Future.ScopedPromise.GetFuture | Source/ZakazaneUtilities/Public/Zakazane/Future.h:72-75 | Returns the future of the promise that is held. |
| Future.ScopedPromise.Destroy | Source/ZakazaneUtilities/Public/Zakazane/Future.h:49-56 | An unfulfilled promise delivers its cancelled value; a fulfilled one delivers nothing more. The promise's state and cancel function stay. |
| Future.SetPromiseDelivers | Source/ZakazaneUtilitiesTests/Private/Zakazane/FutureTest.cpp:16-26 | A promise set to true delivers true. |
| Future.DroppedPromiseCancels | Source/ZakazaneUtilitiesTests/Private/Zakazane/FutureTest.cpp:28-37 | A promise destroyed without a value delivers its cancelled value, false. |
| Future.MovedPromiseDelivers | Source/ZakazaneUtilitiesTests/Private/Zakazane/FutureTest.cpp:39-54 | A moved promise set to true delivers true, although both objects are destroyed. |
| Future.MovedPromiseCancels | Source/ZakazaneUtilitiesTests/Private/Zakazane/FutureTest.cpp:56-70 | A moved promise destroyed without a value cancels with false. |
| Future.MoveAssignedPromiseDelivers | Source/ZakazaneUtilitiesTests/Private/Zakazane/FutureTest.cpp:72-88 | With the test's own move assignment, as written, a promise assigned over another and set to 2 delivers 2. |
| Future.MoveAssignedPromiseCancels | Source/ZakazaneUtilitiesTests/Private/Zakazane/FutureTest.cpp:90-106 | With the test's own move assignment, as written, a promise assigned over another and destroyed unset cancels with the value it took over, 0. |
| Future.MoveAssignAbandonsReplaced | Source/ZakazaneUtilities/Public/Zakazane/Future.h:37-47 | As written, the future of the promise assigned over never receives a value. |
| Future.MoveAssignCancelsReplaced | Source/ZakazaneUtilities/Public/Zakazane/Future.h:37-56 | With the corrected assignment, the replaced promise delivers its cancelled value, 1. |
| Future.AggregateEmpty | Source/ZakazaneUtilities/Public/Zakazane/Future.h:133-152 | Aggregating no futures gives Initial. |
| Future.AggregateAppend | Source/ZakazaneUtilities/Public/Zakazane/Future.h:85-125 | One more future at the end applies AggregateFunc once more, so AggregateFutures is the left fold in list order. |
| Future.AggregateCollects | Source/ZakazaneUtilitiesTests/Private/Zakazane/FutureTest.cpp:109-143 | Collecting the values gives them in list order after the initial ones. |
| Future.AggregateSums | Source/ZakazaneUtilities/Public/Zakazane/Future.h:133-152 | Aggregating with FSum adds the values to Initial. |
| Future.AggregateScopedPromiseSum | Source/ZakazaneUtilitiesTests/Private/Zakazane/FutureTest.cpp:162-172 | The ten values the test's futures end with, the index for the odd ones and -1 for the others, fold with FSum from 0 to 20. |
| Future.MakeScopedPromises | Source/ZakazaneUtilitiesTests/Private/Zakazane/FutureTest.cpp:149-160 | n fresh unfulfilled promises cancelling with the given value, each owning its own shared state, and their futures in order. |
| Future.SetOddPromises | Source/ZakazaneUtilitiesTests/Private/Zakazane/FutureTest.cpp:163-166 | Exactly the odd promises are set to their index; the others stay pending, and every cancel function stays. |
| Future.DestroyScopedPromises | Source/ZakazaneUtilitiesTests/Private/Zakazane/FutureTest.cpp:169 | Destroying the promises fulfils all of them: each pending one delivers its cancelled value, each fulfilled one keeps its value. |
| Future.AggregateFuturesCanUseScopedPromise | Source/ZakazaneUtilitiesTests/Private/Zakazane/FutureTest.cpp:145-173 | Ten promises built, partly set and destroyed as the test does leave the futures with the index for the odd ones and -1 for the others, and the aggregate is 20. |
| Delegates.ScopedDelegateHandle.constructor | Source/ZakazaneUtilities/Public/Zakazane/Delegate.h:39 | A default scoped handle owns no delegate and no handle. |
| Delegates.ScopedDelegateHandle.Owning | Source/ZakazaneUtilities/Public/Zakazane/Delegate.h:42-46 | Takes the delegate and the handle, and leaves the caller's handle variable unset. |
| Delegates.ScopedDelegateHandle.Moved | Source/ZakazaneUtilities/Public/Zakazane/Delegate.h:50-53 | Takes the other's delegate and handle, and leaves the other empty. |
| Delegates.ScopedDelegateHandle.Release | Source/ZakazaneUtilities/Public/Zakazane/Delegate.h:68-74 | Returns the handle and forgets it and the delegate, without unbinding. |
| Delegates.ScopedDelegateHandle.Reset | Source/ZakazaneUtilities/Public/Zakazane/Delegate.h:77-93 | With a delegate and a valid handle, the handle is removed from the delegate (or the delegate is unbound) and both fields are cleared; otherwise nothing changes. |
| Delegates.ScopedDelegateHandle.Destroy | Source/ZakazaneUtilities/Public/Zakazane/Delegate.h:55-58 | Destruction is Reset. |
| Delegates.ScopedDelegateHandle.Swap | Source/ZakazaneUtilities/Public/Zakazane/Delegate.h:100-105 | Swap exchanges both fields of the two handles; swapping with itself changes nothing. |
| Delegates.ScopedDelegateHandle.MoveAssign | Source/ZakazaneUtilities/Public/Zakazane/Delegate.h:61-65 | This takes over the argument's delegate and handle, and a moved-from argument is left empty. What this held before is unbound; self-assignment keeps the binding. |
| Delegates.ScopedHandleUnbindsOnDestruction | Source/ZakazaneUtilities/Public/Zakazane/Delegate.h:42-93 | Destroying the owner unbinds exactly the owned handle; the caller's variable is unset from the start. |
| Delegates.ReleasedHandleStaysBound | Source/ZakazaneUtilities/Public/Zakazane/Delegate.h:68-74 | After Release, destroying the owner leaves the binding in place and the handle is handed back. |
| Delegates.MoveAssignUnbindsPrevious | Source/ZakazaneUtilities/Public/Zakazane/Delegate.h:61-65 | Move assignment unbinds what the target held; the moved handle is unbound when its new owner is destroyed. |
| Delegates.SingleCastUnbinds | Source/ZakazaneUtilities/Public/Zakazane/Delegate.h:77-93 | A delegate without Remove is unbound as a whole. |
| MultisourceValues.RemoveAllSwap | Source/ZakazaneUtilities/Public/Zakazane/MultisourceValue.h:111 | The survivors are a permutation of the entries that are not removed. No removed entry is left, and with nothing to remove the array is unchanged. |
| MultisourceValues.WinnerIsMaximal | Source/ZakazaneUtilities/Public/Zakazane/MultisourceValue.h:114-132 | The winning entry is in the list and no entry beats it: it has the highest priority and, among those, the largest source id. |
| MultisourceValues.WinnerUnique | Source/ZakazaneUtilities/Public/Zakazane/MultisourceValue.h:121-129 | With unique ids, the one entry that nothing beats is the winner. |
| MultisourceValues.WinnerOrderIndependent | Source/ZakazaneUtilities/Public/Zakazane/MultisourceValue.h:121-129 | The winner depends only on which entries there are, so the RemoveAllSwap reordering never changes GetValue. |
| MultisourceValues.PriorityBasedResolver.constructor | Source/ZakazaneUtilities/Public/Zakazane/MultisourceValue.h:27-29 | A new value has the given default and no sources. |
| MultisourceValues.PriorityBasedResolver.SetDefaultValue | Source/ZakazaneUtilities/Public/Zakazane/MultisourceValue.h:31-34 | Only the default value changes. |
| MultisourceValues.PriorityBasedResolver.PushValue | Source/ZakazaneUtilities/Public/Zakazane/MultisourceValue.h:101-107 | The new entry gets id ++LastSourceId, larger than every earlier id, and is appended to the list. |
| MultisourceValues.PriorityBasedResolver.PopValue | Source/ZakazaneUtilities/Public/Zakazane/MultisourceValue.h:109-112 | Every entry of the id is removed and the rest are kept, possibly reordered; an unknown id changes nothing. |
| MultisourceValues.PriorityBasedResolver.GetValue | Source/ZakazaneUtilities/Public/Zakazane/MultisourceValue.h:114-132 | Without sources it returns the default; otherwise it returns the winner's value. |
| MultisourceValues.TestWinners | Source/ZakazaneUtilitiesTests/Private/Zakazane/MultisourceValueTest.cpp:38-48 | In the tested entry lists, the winners are the priority-1 entry and then the later priority-0 entry. |
| MultisourceValues.NoSourcesYieldDefault | Source/ZakazaneUtilitiesTests/Private/Zakazane/MultisourceValueTest.cpp:12-22 | A value without sources, and one emptied again, yields its default 42. |
| MultisourceValues.PushFourSources | Source/ZakazaneUtilitiesTests/Private/Zakazane/MultisourceValueTest.cpp:26-40 | Four pushes yield 0, 1, 1 and 3 in turn. |
| MultisourceValues.PopLatestSource | Source/ZakazaneUtilitiesTests/Private/Zakazane/MultisourceValueTest.cpp:42-44 | Popping the latest source yields 1 again. |
| MultisourceValues.LatestHighestPriorityWins | Source/ZakazaneUtilitiesTests/Private/Zakazane/MultisourceValueTest.cpp:46-48 | Popping the priority-1 source yields 2, the later of the two priority-0 sources. |
| MultisourceValues.IfAnyResolver.PushValue | Source/ZakazaneUtilities/Public/Zakazane/MultisourceValue.h:66-69 | The source joins the set; a source already present is not added twice. |
| MultisourceValues.IfAnyResolver.PopValue | Source/ZakazaneUtilities/Public/Zakazane/MultisourceValue.h:71-74 | The source leaves the set. |
| MultisourceValues.IfAnyResolver.GetValue | Source/ZakazaneUtilities/Public/Zakazane/MultisourceValue.h:76-80 | The result equals the default exactly when no source is present. |
| MultisourceValues.IfAnyDefaults | Source/ZakazaneUtilitiesTests/Private/Zakazane/MultisourceValueTest.cpp:60-67 | Without voters the default is returned, for both defaults. |
| MultisourceValues.VotersYieldNegation | Source/ZakazaneUtilitiesTests/Private/Zakazane/MultisourceValueTest.cpp:69-90 | Any voter gives the negated default, and the default returns once the last voter leaves. |
| MultisourceValues.PushedTwicePoppedOnce | Source/ZakazaneUtilities/Public/Zakazane/MultisourceValue.h:66-74 | A voter pushed twice and popped once is gone. |
| MultisourceValues.TotalPermutation | Source/ZakazaneUtilities/Public/Zakazane/MultisourceValue.h:171-174 | The sum does not depend on the order of the entries. |
| MultisourceValues.TotalPartition | Source/ZakazaneUtilities/Public/Zakazane/MultisourceValue.h:166-174 | The sum splits into the sum of the entries kept and the sum of those removed. |
| MultisourceValues.SumResolver.PushValue | Source/ZakazaneUtilities/Public/Zakazane/MultisourceValue.h:161-164 | Each call appends one entry, also for a source already present, and the sum grows by the value. |
| MultisourceValues.SumResolver.PopValue | Source/ZakazaneUtilities/Public/Zakazane/MultisourceValue.h:166-169 | Every entry of the source is removed, and the sum drops by exactly their values. |
| MultisourceValues.SumScenario | Source/ZakazaneUtilities/Public/Zakazane/MultisourceValue.h:161-174 | Pushes of 1, 2 and 3 from two sources give 6; popping the source of 1 and 3 leaves 2. |
| MultisourceValues.SumPopAbsent | Source/ZakazaneUtilities/Public/Zakazane/MultisourceValue.h:166-169 | Popping a source that pushed nothing changes nothing. |
| Properties.CandidatesAreEligible | Source/ZakazaneUtilities/Public/Zakazane/Property.h:63-73 | An object is a candidate exactly when the modified object is a CDO or an archetype and the object is an eligible instance; no instance is a candidate more often than it is reported. |
| Sequences.SelectInOrder | Source/ZakazaneUtilities/Public/Zakazane/Property.h:68-72 | The TransformIf loop keeps exactly the eligible instances, in order; the component iterations reuse it. |
| Properties.EnqueueInstancesOf | Source/ZakazaneUtilities/Public/Zakazane/Property.h:87-96 | Every candidate whose archetype is the object just changed is appended to the queue and removed from the candidates; the others stay in order. |
| Properties.ModifyAndPropagateChange | Source/ZakazaneUtilities/Public/Zakazane/Property.h:52-100 | The modified object is changed first, and only it when it is no archetype. Each later change is a candidate whose archetype was changed before it. Every candidate of a changed archetype is changed. Modify is called once, on the modified object. |
| Properties.PropagationStep | Source/ZakazaneUtilities/Public/Zakazane/Property.h:77-97 | One worklist iteration keeps the invariant: archetypes come first, and the queue plus the candidates left make up the candidates. |
| Properties.Completeness | Source/ZakazaneUtilities/Public/Zakazane/Property.h:77-97 | When the queue is empty, every candidate whose archetype was changed has been changed. |
| Properties.PlainObjectChangedOnce | Source/ZakazaneUtilities/Public/Zakazane/Property.h:63-75 | An object that is neither a CDO nor an archetype is changed once. |
| Properties.ArchetypeChangePropagates | Source/ZakazaneUtilities/Public/Zakazane/Property.h:52-100 | Changing archetype 1 changes 1, then its instance 2, then 2's instance 3; 4 and an invalid 5 are never changed. |
| Properties.ExampleOrder | Source/ZakazaneUtilities/Public/Zakazane/Property.h:77-97 | Any change sequence that meets the method's contract for the example is [1, 2, 3]. |
| Components.RootOnly | Source/ZakazaneUtilities/Public/Zakazane/Component.h:432-482 | Only the root is visited for NotRecursive, for a functor that may not see the children, or when PrefixCond stops at the root. |
| Components.VisitsNodes | Source/ZakazaneUtilities/Public/Zakazane/Component.h:432-482 | Every traversal visits only nodes of the subtree; Prefix and Suffix visit each node exactly once. |
| Components.DescendantsExcludeParent | Source/ZakazaneUtilities/Public/Zakazane/Component.h:210-221 | ForEachDescendant as written never visits the parent; on a mutable hierarchy with Prefix or Suffix it visits every other node once. |
| Components.DescendantsAsWrittenMeaning | Source/ZakazaneUtilities/Public/Zakazane/Component.h:210-221 | ForEachDescendant as written visits nothing on an immutable hierarchy, and otherwise agrees with the intended one; they differ only for a const functor on an immutable hierarchy. |
| Components.ConstFunctorSeesNoDescendants | Source/ZakazaneUtilities/Public/Zakazane/Component.h:216-219 | As written, a const functor on an immutable hierarchy sees no child of a parent with child 2; the intended traversal sees 2. |
| Components.PrefixAndSuffixAroundDescendants | Source/ZakazaneUtilities/Public/Zakazane/Component.h:443-481 | With the intended ForEachDescendant, Prefix is the root followed by its descendants and Suffix the descendants followed by the root, for every functor. As written this holds when the functor's constness does not matter. |
| Components.PrefixCondIsPrunedPrefix | Source/ZakazaneUtilities/Public/Zakazane/Component.h:446-469 | PrefixCond visits what Prefix visits in the tree pruned below each component where the functor returns false; siblings are still visited. |
| Components.PrefixCondAlwaysContinuing | Source/ZakazaneUtilities/Public/Zakazane/Component.h:446-469 | A PrefixCond functor that always continues gives the Prefix order. |
| Components.SuffixIsReversedMirrorPrefix | Source/ZakazaneUtilities/Public/Zakazane/Component.h:471-481 | Suffix is the exact reverse of Prefix over the mirrored tree: children before parents. |
| Components.ComponentTestOrders | Source/ZakazaneUtilitiesTests/Private/Zakazane/ComponentTest.cpp:54-104 | On the test tree: NotRecursive gives [1], Prefix [1, 2, 3], PrefixCond stopping at the child [1, 2], Suffix [3, 2, 1]. |
| Components.FindComponentInSubtreeAsWrittenMeaning | Source/ZakazaneUtilities/Private/Zakazane/Component.cpp:497-519 | As written, a result is a matching component of the subtree; the result is null exactly when no component matches. |
| Components.FindComponentInSubtreeMeaning | Source/ZakazaneUtilities/Private/Zakazane/Component.cpp:497-519 | Corrected: the result is the first match in Prefix order; null exactly when no component matches. |
| Components.UnmatchedTraversalIsComplete | Source/ZakazaneUtilities/Private/Zakazane/Component.cpp:497-519 | When the traversal that stops at a match sees no match, no component of the subtree matches. |
| Components.FindComponentInSubtreeKeepsLastMatch | Source/ZakazaneUtilities/Private/Zakazane/Component.cpp:497-519 | As written, the second matching leaf overwrites the first: the answer is 3, where the first match is 2. |
| ComponentHierarchies.GetComponentNameNoSuffix | Source/ZakazaneUtilities/Private/Zakazane/Component.cpp:75-89 | A name ending with the template suffix, ignoring case, loses one copy of it; any other name is returned unchanged. |
| ComponentHierarchies.NoSuffixRemovesAppendedSuffix | Source/ZakazaneUtilities/Private/Zakazane/Component.cpp:80-84 | Appending the suffix and stripping it gives the name back; only one suffix is removed. |
| ComponentHierarchies.NoSuffixKeepsOtherNames | Source/ZakazaneUtilities/Private/Zakazane/Component.cpp:80-84 | A name without the suffix is kept, so stripping it is idempotent. |
| ComponentHierarchies.NoSuffixIgnoresCase | Source/ZakazaneUtilities/Private/Zakazane/Component.cpp:80-84 | The suffix is also removed in any spelling that differs only in case. |
| ComponentHierarchies.FindComponentInSubtreeByNameMeaning | Source/ZakazaneUtilities/Private/Zakazane/Component.cpp:527-535 | The lookup is built on the search as written, as Component.cpp:534 calls it. A component found has the given name, ignoring the suffix and case; none is found exactly when no component of the subtree has it. |
| ComponentHierarchies.DetachedChildren | Source/ZakazaneUtilities/Private/Zakazane/Component.cpp:309-313 | The key iterator takes out exactly the removed component's children, each once. |
| ComponentHierarchies.DetachedLinkCount | Source/ZakazaneUtilities/Private/Zakazane/Component.cpp:301-323 | After removal, each entry of CompsByParent occurs as often as CompsByChild requires. |
| ComponentHierarchies.DetachedParentsMap | Source/ZakazaneUtilities/Private/Zakazane/Component.cpp:301-323 | After removal, CompsByChild no longer contains the component, and its children point to its parent. |
| ComponentHierarchies.DetachMeaning | Source/ZakazaneUtilities/Private/Zakazane/Component.cpp:301-323 | Removing a component from consistent maps keeps them consistent, with the intended CompsByChild. |
| ComponentHierarchies.DetachKeepsOthers | Source/ZakazaneUtilities/Private/Zakazane/Component.cpp:301-323 | Removing one component keeps every other component in CompsByChild. |
| ComponentHierarchies.AttachKeepsConsistent | Source/ZakazaneUtilities/Private/Zakazane/Component.cpp:220-221 | Adding a new component under a parent keeps the maps consistent and records that parent. |
| ComponentHierarchies.DetachUndoesAttach | Source/ZakazaneUtilities/Private/Zakazane/Component.cpp:220-229 | Removing a component just added, which is nobody's parent, gives back the old maps. |
| ComponentHierarchies.DetachAllMeaning | Source/ZakazaneUtilities/Private/Zakazane/Component.cpp:301-323 | Removing several components keeps the maps consistent, and exactly the listed components leave CompsByChild. |
| ComponentHierarchies.RemovableAfterDetach | Source/ZakazaneUtilities/Private/Zakazane/Component.cpp:301-323 | After the first listed component is removed, the remaining ones are still recorded, once each. |
| ComponentHierarchies.TakeValuesUnder | Source/ZakazaneUtilities/Private/Zakazane/Component.cpp:309-313 | Every entry under the key is collected and removed in place; the other entries stay, in order. |
| ComponentHierarchies.BlueprintLinksMeaning | Source/ZakazaneUtilities/Private/Zakazane/Component.cpp:397-432 | The components recorded from a blueprint are its nodes' templates, each under its chosen parent, and the maps are consistent when the templates are distinct. |
| ComponentHierarchies.ArchetypeMutabilityAsWrittenIgnoresCaller | Source/ZakazaneUtilities/Private/Zakazane/Component.cpp:357 | As written, a blueprint class makes the hierarchy mutable even when the caller forbids mutable components, as the constructor from a const actor does. |
| ComponentHierarchies.ArchetypeMutability | Source/ZakazaneUtilities/Public/Zakazane/Component.h:71-75 | Corrected: components are mutable exactly when the caller allows it and the class allows it. |
| ComponentHierarchies.ArchetypeMutabilityAsWrittenUnlocksNativeDefaults | Source/ZakazaneUtilities/Private/Zakazane/Component.cpp:355-357 | As written, a native class gives a mutable hierarchy whenever the caller allows it; the corrected rule does not. |
| ComponentHierarchies.ValidUnderMeaning | Source/ZakazaneUtilities/Public/Zakazane/Component.h:345-384 | In consistent maps, the valid children recorded under a key each occur once, and they are exactly those whose CompsByChild entry is that key. |
| ComponentHierarchies.ComponentHierarchy.FromActor | Source/ZakazaneUtilities/Private/Zakazane/Component.cpp:91-143 | Without an actor the hierarchy is empty and immutable. For an archetype actor the maps come from the class defaults, and mutability follows the `\|\|` rule as written, false for an invalid class. For an instanced actor the maps are empty and mutability is what the caller allows. |
| ComponentHierarchies.ComponentHierarchy.ConstructHierarchyFromCDO | Source/ZakazaneUtilities/Private/Zakazane/Component.cpp:368-456 | The three maps are reset and then filled from the class defaults only: blueprint templates under their chosen parents, or native defaults under their attach parents. |
| ComponentHierarchies.ComponentHierarchy.NativeLinksMeaning | Source/ZakazaneUtilities/Private/Zakazane/Component.cpp:438-454 | The components recorded from a native class are its valid defaults, each under its attach parent, and the maps are consistent. |
| ComponentHierarchies.ComponentHierarchy.ScanChildNodes | Source/ZakazaneUtilities/Private/Zakazane/Component.cpp:385-395 | The first scan maps every node listed as a child to the node that lists it. |
| ComponentHierarchies.ComponentHierarchy.ForEachChildComponent | Source/ZakazaneUtilities/Public/Zakazane/Component.h:345-384 | Visits, in order, the valid entries under the component in CompsByParent for an archetype, else the valid attach children of a valid scene component; nothing for a non-const functor on an immutable hierarchy. |
| ComponentHierarchies.ComponentHierarchy.ForEachRootComponent | Source/ZakazaneUtilities/Public/Zakazane/Component.h:386-430 | Visits, in order, the valid entries under the null key for an archetype actor, else the actor's components that are not scene components or have no attach parent; nothing for a stale actor or a refused functor. |
| ComponentHierarchies.ComponentHierarchy.ForEachComponent | Source/ZakazaneUtilities/Public/Zakazane/Component.h:282-318 | Visits, in order, every valid entry of CompsByParent for an archetype actor, else the actor's valid components; nothing for a stale actor or a refused functor. |
| ComponentHierarchies.ComponentHierarchy.ImmutableRefusesMutableFunctor | Source/ZakazaneUtilities/Public/Zakazane/Component.h:290-396 | On an immutable hierarchy, the child, root and whole-hierarchy traversals with a functor taking non-const components visit nothing. |
| ComponentHierarchies.ComponentHierarchy.ChildComponentsMeaning | Source/ZakazaneUtilities/Public/Zakazane/Component.h:345-384 | The children of an archetype component are the valid components recorded under it, each visited once. |
| ComponentHierarchies.ComponentHierarchy.FindParentAgreesWithChildren | Source/ZakazaneUtilities/Private/Zakazane/Component.cpp:459-476 | In an archetype hierarchy, FindParent gives p exactly when p's children include the component. |
| ComponentHierarchies.ComponentHierarchy.RootComponentsMeaning | Source/ZakazaneUtilities/Public/Zakazane/Component.h:386-430 | The roots of an archetype hierarchy are the valid components recorded without a parent, each once, and they have no parent. |
| ComponentHierarchies.ComponentHierarchy.InstancedRootsHaveNoParent | Source/ZakazaneUtilities/Public/Zakazane/Component.h:386-430 | For an instanced actor, a valid component is a root exactly when it has no parent. |
| ComponentHierarchies.ComponentHierarchy.AllComponentsMeaning | Source/ZakazaneUtilities/Public/Zakazane/Component.h:282-318 | ForEachComponent over an archetype visits exactly the valid components in CompsByChild. |
| ComponentHierarchies.ComponentHierarchy.FindByNameIgnoresSuffix | Source/ZakazaneUtilities/Private/Zakazane/Component.cpp:157-162 | Looking up a name with the template suffix appended finds what the plain name finds. |
| ComponentHierarchies.ComponentHierarchy.DetachComponent | Source/ZakazaneUtilities/Private/Zakazane/Component.cpp:301-323 | In place, the maps become the removal of one component from the old maps; names and mutability are unchanged. |
| ComponentHierarchies.ComponentHierarchy.ReparentChildren | Source/ZakazaneUtilities/Private/Zakazane/Component.cpp:317-321 | The children are added to CompsByParent under the new parent, and CompsByChild points them to it. |
| ComponentHierarchies.ComponentHierarchy.DetachComponents | Source/ZakazaneUtilities/Private/Zakazane/Component.cpp:301-323 | The removal loop removes every listed component in turn. |
| ComponentHierarchies.ComponentHierarchy.ForgetNames | Source/ZakazaneUtilities/Private/Zakazane/Component.cpp:284-328 | The names of the listed valid components leave CompsByName; nothing else changes. |
| ComponentHierarchies.ComponentHierarchy.RemoveSubobjects | Source/ZakazaneUtilities/Private/Zakazane/Component.cpp:248-336 | If the hierarchy is immutable, the actor invalid or nothing deleted, nothing changes and 0 is returned. Otherwise every listed component is removed, its children move to its parent, the names are forgotten, and the deleted count is returned. |
| ComponentHierarchies.ComponentHierarchy.RemoveSubobject | Source/ZakazaneUtilities/Private/Zakazane/Component.cpp:242-246 | Removing one component is RemoveSubobjects of a one-element list. |
| ComponentHierarchies.ComponentHierarchy.AddNewSubobject | Source/ZakazaneUtilities/Private/Zakazane/Component.cpp:166-240 | A new archetype component is recorded under its parent. After a successful rename it is also found by name. Otherwise it is removed again and null is returned, and a failed step before creation changes nothing. |
| ComponentHierarchies.ComponentHierarchy.FailedAddLeavesMaps | Source/ZakazaneUtilities/Private/Zakazane/Component.cpp:220-229 | After a failed rename, consistent maps are left as they were. |
| ComponentHierarchies.RemoveMiddleOfChain | Source/ZakazaneUtilities/Private/Zakazane/Component.cpp:248-336 | Removing the middle of a chain hands its child to the root and forgets its name. |
| ComponentHierarchies.ChainDetached | Source/ZakazaneUtilities/Private/Zakazane/Component.cpp:301-323 | After the middle component is removed, the last one hangs from the root and the maps stay consistent. |
| Serialization.GetCSVSanitizedString | Source/ZakazaneUtilities/Private/Zakazane/Serialization.cpp:35-40 | Every quote is doubled: the length grows by exactly the number of quotes. |
| Serialization.SanitizeKeepsOtherCharacters | Source/ZakazaneUtilities/Private/Zakazane/Serialization.cpp:35-40 | Every character other than a quote occurs as often as before. |
| Serialization.ReadSanitized | Source/ZakazaneUtilities/Private/Zakazane/Serialization.cpp:35-40 | An escaped value followed by a closing quote reads back as the value under the rule of RFC 4180 section 2, item 7. |
| Serialization.SanitizeIsInjective | Source/ZakazaneUtilities/Private/Zakazane/Serialization.cpp:35-40 | Different values never escape to the same text. |
| Serialization.ExportToCSV | Source/ZakazaneUtilities/Private/Zakazane/Serialization.cpp:42-71 | The builder loops produce the header line, then one line per object in object order; ExportRoundTrip reads this text back. |
| Serialization.AppendRow | Source/ZakazaneUtilities/Private/Zakazane/Serialization.cpp:56-67 | One row is "<escaped text>", for each property, in property order, then a newline. |
| Serialization.HeaderRoundTrip | Source/ZakazaneUtilities/Private/Zakazane/Serialization.cpp:46-54 | The header line reads back as the property names, when no name contains a comma or a newline. |
| Serialization.RowRoundTrip | Source/ZakazaneUtilities/Private/Zakazane/Serialization.cpp:56-68 | Each exported row reads back, under RFC 4180 quoting, as that object's property texts in property order. |
| Serialization.RowsRoundTrip | Source/ZakazaneUtilities/Private/Zakazane/Serialization.cpp:56-68 | The row lines read back as one list of texts per object, in object order. |
| Serialization.ExportRoundTrip | Source/ZakazaneUtilities/Private/Zakazane/Serialization.cpp:42-71 | The whole export reads back as the names, then each object's property texts. |
| Serialization.HeaderColumns | Source/ZakazaneUtilities/Private/Zakazane/Serialization.cpp:114-135 | The mapping fails exactly when a non-empty cell names no property, and then it reports such a name. On success, empty cells become ignored columns and the others their properties. |
| Serialization.MapHeader | Source/ZakazaneUtilities/Private/Zakazane/Serialization.cpp:114-135 | The header loop computes HeaderColumns: empty cells become ignored columns and names their properties, and an unknown name fails the import. |
| Serialization.ColumnCountMessageAsWritten | Source/ZakazaneUtilities/Private/Zakazane/Serialization.cpp:159-164 | As written, the line number comes first, then the row's cell count under "Expected" and the header's column count under "got". |
| Serialization.ColumnCountMessage | Source/ZakazaneUtilities/Private/Zakazane/Serialization.cpp:159-164 | Corrected: the warning reports the header's column count as expected and the row's cell count as found. |
| Serialization.ColumnCountMessageSwapsCounts | Source/ZakazaneUtilities/Private/Zakazane/Serialization.cpp:159-164 | For 2 cells under 3 columns, the message as written says expected 2, got 3; the corrected one says expected 3, got 2. |
| Serialization.CellResultMeaning | Source/ZakazaneUtilities/Private/Zakazane/Serialization.cpp:173-235 | A cell is accepted exactly when it is empty in an ignored column, belongs to a text property, or imports without log output worse than Log and without trailing text. |
| Serialization.ImportCellsMeaning | Source/ZakazaneUtilities/Private/Zakazane/Serialization.cpp:169-240 | A row of the right length is accepted exactly when no cell has a complaint. Then the object holds the cells of the non-ignored columns; otherwise the message is the complaint about one of the cells. |
| Serialization.ImportRowCells | Source/ZakazaneUtilities/Private/Zakazane/Serialization.cpp:169-240 | The cell loop accepts the row with the assignments of its non-ignored cells when no cell complains, and otherwise skips it with a cell's complaint, as ImportCellsMeaning states. |
| Serialization.ImportRowsMeaning | Source/ZakazaneUtilities/Private/Zakazane/Serialization.cpp:140-245 | Without cancellation, a line is skipped exactly when some data row is rejected. The callbacks are those of the accepted rows, and every message is a warning. |
| Serialization.AcceptedCallsMeaning | Source/ZakazaneUtilities/Private/Zakazane/Serialization.cpp:140-245 | LineCallback is called exactly once for each accepted data row, in strictly increasing row order, and never for the header or a skipped row. |
| Serialization.ImportErrors | Source/ZakazaneUtilities/Private/Zakazane/Serialization.cpp:82-132 | The result is Error exactly when there are no rows, or when a non-empty header cell names no property and the slow task did not cancel first. In that case there are no callbacks. |
| Serialization.ImportMeaning | Source/ZakazaneUtilities/Private/Zakazane/Serialization.cpp:137-247 | With a valid header and no cancellation, the result is Success exactly when every data row is accepted, and Warning otherwise. The callbacks are those of the accepted rows, and no message is an error. |
| Serialization.CancelStopsCallbacks | Source/ZakazaneUtilities/Private/Zakazane/Serialization.cpp:100-144 | A cancel at a row's tick gives CancelledByUser, with no callback for that row or any later one. |
| Serialization.ImportFromCSV | Source/ZakazaneUtilities/Private/Zakazane/Serialization.cpp:73-248 | The import method returns the result, callbacks and messages of the specification Import. The column-count warning is the message as written. |

## Left out

- Floating point. Vectors and scalars are mathematical reals. The float `IsNearlyEqual`, `SmallNumber`, vector `SnapIfNear`, the angle and yaw functions, `GetShortenedPath`, segments and interpolated values are not part of this model.
- Object lifetime and compile-time machinery are not modelled. This covers copy and move counts, ref-qualified accessors, the SFINAE and `static_assert` constraints of `TResult`, and the type-trait headers. The non-void `OrElse` deduces its result type by invoking the continuation on the value type; that compile-time quirk is not modelled either.
- Masks: `TMaxFlagV` is a compile-time constant of the enum; here it is a `bv8` parameter of every operation, and the underlying type is `bv32`.
- Bits: only unsigned widths are modelled; the sign extension of a signed `IntType` cast to `uint64` is not.
- Container.GetCircularBufferIndex: the precondition keeps every intermediate value inside int32. Outside that range the C++ code has undefined behaviour, which the model does not describe.
- MultisourceValues.PriorityBasedResolver.PushValue: requires `LastSourceId` below the int32 maximum, where `++LastSourceId` would overflow; the source does not guard it.
- MultisourceValues.RemoveAllSwap: the engine's `TArray::RemoveAllSwap` is modelled as a swap-with-last removal loop. Its contract states the survivors only up to order, and so does `PopValue`.
- Future: the engine's `TPromise` and `TFuture` are a one-slot shared state. Setting a value twice or on a moved-from promise fails a check in the engine, so `SetValue` and `EmplaceValue` require an unfulfilled promise. Continuation chaining, threads and `Then` callbacks are not modelled. `AggregateFutures` is the in-order fold of the futures' values.
- Delegates: the delegate is a test double with a set of bound handle ids. `Remove` and `Unbind` are the two cases of the `constexpr` test for a `Remove` member.
- OutputDeviceStats: the wrapped `FOutputDevice` is a flag plus a list of the messages passed on. Logging, Slate notifications and the message log are I/O and are not part of this model.
- Strings: `GetTagSuffix` and the gameplay-tag types are not part of this model. `IntToString` is modelled on unbounded integers, without int32 wrap-around.
- Properties: the `TDeque` is a sequence. Removing through the array iterator is order-preserving removal. The change function is recorded as the sequence of changed objects, and `Modify` as the sequence of objects it is called on.
- Components: the tree is a value datatype given by the child lists. `ForEachComponent` with attached-actor recursion, and `GetOwner`, are not part of this model.
- ComponentHierarchies: `TMultiMap` is a sequence of pairs in insertion order; the engine's bucket order is not modelled. `FName` is a string compared exactly, and only the template-suffix removal folds ASCII case. `TWeakObjectPtr` staleness is an `isValid` predicate of the engine parameter.
- ComponentHierarchies.ComponentHierarchy.FromActor: the constructors from an actor and from a component in the hierarchy are one constructor. Whether the component's outer yields an actor is the parameter `actorFound`, and the casts are not modelled.
- ComponentHierarchies.ComponentHierarchy.ConstructHierarchyFromCDO: a skipped blueprint, one whose `ClassGeneratedBy` is no blueprint, is folded into a node without template. The `ensureAlways` comparing the known and the reported parent only logs and is not modelled.
- ComponentHierarchies.ComponentHierarchy.RemoveSubobjects: the precondition that every listed component is recorded is the source's `FindChecked`/`FindAndRemoveChecked`. The SCS node and subobject handle lookups and the subsystem's deletion are parameters, with the number deleted as input.
- ComponentHierarchies.ComponentHierarchy.AddNewSubobject: the subsystem's creation and rename results are inputs. Marking the blueprint as structurally modified is not modelled.
- `ComponentHasAnyTag`, and the free `AddNewSubobject`/`RemoveSubobject` wrappers, which build a hierarchy and forward to it, are not part of this model.
- Serialization: `FCsvParser` is not modelled. Import takes the rows it returns, and export is read back by a reading written here (`ReadRow`, `ReadHeader`). It uses RFC 4180 quoting but takes every comma as the end of a cell, as the export writes one after each cell (Serialization.cpp:51, 64). An RFC 4180 reader would see one more, empty, field per line; the import maps the header's trailing empty cell to an ignored column (Serialization.cpp:116-119). The header round trip needs property names without comma, quote or newline, because export writes them unquoted.
- Serialization.ImportFromCSV has these simplifications:
  - the struct passed to `LineCallback` is initialised to defaults for each row and then receives that row's cells; each callback is modelled as the list of those assignments;
  - a null `Output` drops the messages, but messages are modelled regardless;
  - the detailed text of a failed property import is not modelled;
  - the slow task's work fraction is not modelled, only whether it cancels at each tick.
- Maths: the doc comments of `VectorSetComponent` and `MakeVectorSetComponent` give `<0,3,1>` as the example's result, while the test and the code give `<0,3,2>`. The model follows the code.
- Container: the doc comment and `static_assert`s of `GetPreviousCircularBufferIndex` repeat those of the next index. The model states the previous index as the code computes it.

## Findings

| source | as written | input that shows it | evidently intended | confidence | as-written member | corrected member |
|---|---|---|---|---|---|---|
| Source/ZakazaneUtilities/Private/Zakazane/String.cpp:9-30 | Cutting at a delimiter at index 0 leaves an empty view, which the final test takes for "no delimiter found", so the whole string is returned | `GetRightmostSegments(".b", '.', 1)` gives ".b" | "b", the last segment | not executed | Strings.LeadingDelimiterCounterexample | Strings.RightmostSegmentsMeaning |
| Source/ZakazaneUtilities/Public/Zakazane/Future.h:37-47 | Move assignment overwrites an unfulfilled promise without delivering its cancelled value, so its future never receives a value | assigning a moved promise over an unset promise whose cancelled value is 1 | the replaced promise is cancelled first, as the destructor does | not executed | Future.MoveAssignAbandonsReplaced | Future.MoveAssignCancelsReplaced |
| Source/ZakazaneUtilities/Private/Zakazane/Component.cpp:497-519 | A match only prunes its own subtree, and a later match overwrites the answer | a root with two matching leaves 2 and 3: the answer is 3 | the first match in traversal order, as the comment at line 507 says | not executed | Components.FindComponentInSubtreeKeepsLastMatch | Components.FindComponentInSubtreeMeaning |
| Source/ZakazaneUtilities/Private/Zakazane/Component.cpp:357 | Mutability is `bAllowMutableComponents \|\| bComponentsMutable` | a blueprint class with `bAllowMutableComponents == false`, as from the const-actor constructor: mutable | immutable when the caller forbids it (Component.h:68, 71-74), so `&&` | not executed | ComponentHierarchies.ArchetypeMutabilityAsWrittenIgnoresCaller | ComponentHierarchies.ArchetypeMutability |
| Source/ZakazaneUtilities/Private/Zakazane/Serialization.cpp:159-164 | The column-count warning passes the row's cell count as "expected" and the header's column count as "got" | a row of 2 cells under 3 columns: "expected 2, got 3" | "expected 3, got 2" | not executed | Serialization.ColumnCountMessageSwapsCounts | Serialization.ColumnCountMessage |
| Source/ZakazaneUtilities/Public/Zakazane/Component.h:216-219 | ForEachDescendant hands ForEachChildComponent a lambda taking non-const components, so on an immutable hierarchy the guard of Component.h:354-356 refuses it even for a const functor | a hierarchy from a const actor, a const functor, a parent with one child 2: nothing is visited and the ensure fires | the lambda takes components as const as the functor does, as ForEachComponentInSubtree's does (Component.h:472-476), so 2 is visited | not executed | Components.ConstFunctorSeesNoDescendants | Components.PrefixAndSuffixAroundDescendants |
