# protest, modelled in Dafny

protest is a C++14 property-based test harness. A user supplies a check over
values of some type. The harness runs the check against generated cases and
stops at the first failure, reporting the offending case. This project models
the harness's engine and proves properties of that model. The engine has these
parts:

- the result objects: `TestResult`, `SequentialTestResult` and `CheckResult`;
- type-indexed dispatch of a type-erased failing case (`passAsNthType`);
- first-match dispatch over an overload set (`overload`);
- the type lists;
- the case generators `None`, `IterableSource`/`Pool`, `makePool`, the integer
  `Edge` tables and `Random` over a caller-supplied rng;
- the single-type executor `SimpleTest` (`runTest`, `checkCase`,
  `clearError`, `clearAll`);
- the multi-type sequential runner `generic::test`, which runs the same test
  once per type of a type list and stops at the first type that fails;
- the ready-made checks `AssertResult`, `Idempotent` and `Sorted`.

Modules follow the headers:

| file | module | header |
|---|---|---|
| common.dfy | ProtestCommon | include/protest/protest_common.hpp |
| case_gen.dfy | CaseGen | include/protest/case_gen.hpp |
| simple_test.dfy | Simple | include/protest/simple_test.hpp |
| generic_test.dfy | Generic | include/protest/generic_test.hpp |
| condition.dfy | Condition | include/protest/condition.hpp |
| scenarios.dfy | Scenarios | scenarios of protest_test.cpp |

Modelling choices:

- **Types and values.** A C++ value is an unbounded `int` together with a
  `TypeTag` naming one of the eight fixed-width integer types.
- **Conversions.** `Cast` is the modular conversion to an integer type. For
  an unsigned target this is exactly what C++ does: `static_cast<T>`, and
  the conversion of an rng's result stored in a `std::function<T()>`. For a
  signed target and a value out of range, C++14 leaves the result
  implementation-defined; the model chooses wrap-around (see "Left out").
- **`std::any`.** A `std::any` is `Option<Erased(tag, value)>`.
- **Throwing.** An `any_cast` to the wrong type throws. It is modelled as the
  error `BadAnyCast`.
- **A call no overload accepts.** This does not compile. It is modelled as the
  error `NoMatchingOverload`.
- **Generator objects.** A generator object is the class `CaseGen.Source`: its
  type, its kind (none, pool or random) and a cursor, which is the
  IterableSource iterator or the number of rng calls. `Source.Next` is the call
  operator.
- **The result objects.** `TestResult` and `SequentialTestResult` are classes
  whose methods update their fields in place.
- **`Simple.SimpleTest.RunTest`.** This is the `runTest` loop, proved against
  the specification function `Simple.Run`. The case loop is `Simple.Drive`.
  - `runTest` need not terminate: a `Random` source whose every value the
    precondition rejects spins forever. `Drive` therefore takes a fuel bound
    and returns `None` when the loop has not stopped within it.
  - `RunTest` takes a ghost fuel under which the loop stops.
    `Simple.DriveFuel` / `Simple.RunFuel` show that the fuel does not change
    the outcome.
  - A finite pool always stops the loop (`Simple.RunPoolStops`).
- **The type-generic runner.** `generic::test` is a loop in `Generic.Test`.
  - Each step constructs a fresh generator and a fresh `SimpleTest` for one
    type (`Generic.TestImpl`).
  - It is proved against `Generic.Sequential`, which follows the compile-time
    recursion `testImplInterface`.
  - The generator template `TCG` is a `Strategy`, and `KindFor` instantiates
    it for one type.
  - The generic check and precondition are functions of the type tag.

## Model

| member | source | states |
|---|---|---|
| ProtestCommon.Cast | include/protest/case_gen.hpp:212-214 | the conversion to an integer type yields a value of that type, congruent to the argument modulo 2^width, and leaves values already in range unchanged |
| ProtestCommon.PassedCheck | include/protest/protest_common.hpp:285-291 | a default-constructed CheckResult is a pass and has no reason |
| ProtestCommon.ErrorCleared | include/protest/protest_common.hpp:182-185 | clearError leaves no failed case and no reason and keeps abstract, lastCaseDescription and both counters |
| ProtestCommon.AllCleared | include/protest/protest_common.hpp:186-193 | clearAll is clearError plus zero counters; abstract and lastCaseDescription stay |
| ProtestCommon.AllClearedIdempotent | include/protest/protest_common.hpp:186-193 | clearAll twice equals clearAll once, and clearError before clearAll changes nothing |
| ProtestCommon.CheckResult.IsTestFailed | include/protest/protest_common.hpp:289-291 | a CheckResult is failed exactly when it holds a reason (the predicate's body; used by every check below) |
| ProtestCommon.TestResult.IsTestFailed | include/protest/protest_common.hpp:178-180 | a TestResult is failed exactly when its View is, that is when a failed case is stored |
| ProtestCommon.ClearedConsistent | include/protest/protest_common.hpp:170-193 | a fresh result, clearError and clearAll all satisfy "a failed case is stored exactly when a reason is" |
| ProtestCommon.IsTestFailedIgnoresReason | include/protest/protest_common.hpp:178-180 | isTestFailed holds exactly when a failed case is stored, whatever the reason field holds |
| ProtestCommon.TestResult.constructor | include/protest/protest_common.hpp:170-177 | a fresh result has empty strings, no failed case, no reason and zero counters |
| ProtestCommon.TestResult.ClearError | include/protest/protest_common.hpp:182-185 | the new state is ErrorCleared of the old state |
| ProtestCommon.TestResult.ClearAll | include/protest/protest_common.hpp:188-193 | the new state is AllCleared of the old state |
| ProtestCommon.SequentialTestResult.constructor | include/protest/protest_common.hpp:206-209 | a fresh sequential result holds a fresh TestResult and failedIndex 0 |
| ProtestCommon.AnyCastApply | include/protest/protest_common.hpp:236 | any_cast then the handler: succeeds exactly when the any holds a value of the requested type, and then applies the handler to that value; otherwise BadAnyCast |
| ProtestCommon.PassAsNthTypeImpl | include/protest/protest_common.hpp:240-269 | the dispatch from index `current` succeeds only on a value whose type is among the types from `current` on, and otherwise fails with BadAnyCast |
| ProtestCommon.PassAsNthTypeImplSelects | include/protest/protest_common.hpp:228-269 | the recursive dispatch from index `current` casts to the target type when the target lies in [current, N-1) and to the last type otherwise |
| ProtestCommon.PassAsNthType | include/protest/protest_common.hpp:274-278 | an index below N-1 selects that type, any other index selects the last type; the result is ok exactly when the stored value has the selected type |
| ProtestCommon.Overload | include/protest/protest_common.hpp:335-358 | the only error dispatch reports is NoMatchingOverload; which callable is called is stated by the lemmas after it |
| ProtestCommon.OverloadFirstMatch | include/protest/protest_common.hpp:335-346 | the overload set calls the first callable, in argument order, that accepts the argument |
| ProtestCommon.OverloadNoMatch | include/protest/protest_common.hpp:341-358 | dispatch fails exactly when no callable accepts the argument, and then reports NoMatchingOverload |
| ProtestCommon.OverloadShadowed | include/protest/protest_common.hpp:335-346 | callables after the first one that accepts are never reached: the set behaves as its prefix ending there |
| ProtestCommon.OverloadCatchAll | include/protest/protest_common.hpp:341-358 | a set containing a callable that accepts every argument never fails |
| ProtestCommon.Integers | include/protest/protest_common.hpp:389-397 | the eight integer types, pairwise distinct |
| ProtestCommon.SignedIntegers | include/protest/protest_common.hpp:398-403 | exactly the signed integer types |
| ProtestCommon.UnsignedIntegers | include/protest/protest_common.hpp:404-409 | exactly the unsigned integer types |
| ProtestCommon.TupleConcat | include/protest/protest_common.hpp:383-384 | a type is in the concatenation exactly when it is in one of the lists |
| ProtestCommon.TupleConcatAppend | include/protest/protest_common.hpp:383-384 | tuple_concat_t of two groups of lists is the concatenation of the two results |
| ProtestCommon.IntegersSplit | include/protest/protest_common.hpp:389-409 | Integers has the same members as SignedIntegers and UnsignedIntegers together |
| CaseGen.Output | include/protest/case_gen.hpp:63-65 | the value a generator yields always lies in the range of its type (Random converts the rng's value to T) |
| CaseGen.NextCursor | include/protest/case_gen.hpp:24-129 | None never advances, Random advances on every call, a pool advances exactly while elements remain |
| CaseGen.NoneNeverYields | include/protest/case_gen.hpp:24-29 | None returns empty on every call |
| CaseGen.PoolDrains | include/protest/case_gen.hpp:125-129 | an IterableSource yields the rest of its container in order, one element per call, then empty on every later call |
| CaseGen.PoolYieldsContainer | include/protest/case_gen.hpp:139-145 | a fresh pool yields exactly its container: as many non-empty results as the container has elements |
| CaseGen.RandomAlwaysYields | include/protest/case_gen.hpp:58-65 | Random over a caller-supplied rng never returns empty, and its k-th result is the rng's k-th value converted to T |
| CaseGen.SignedMaxPlusOneAsWritten | include/protest/case_gen.hpp:205-214 | the sum overflows (None) exactly for the 32- and 64-bit unsigned types; otherwise it is 2^(w-1) |
| CaseGen.SignedMaxPlusOneOverflows | include/protest/case_gen.hpp:214 | `signed_limits::max()+1` overflows for uint32_t and uint64_t and agrees with the table for uint8_t and uint16_t |
| CaseGen.EdgeValues | include/protest/case_gen.hpp:184-216 | every Edge value lies within the range of its type |
| CaseGen.SignedEdgeTable | include/protest/case_gen.hpp:184-192 | signed Edge is exactly 0, 1, -1, 2, -2, MIN, MIN+1, MAX, MAX-1 (nine values) |
| CaseGen.UnsignedEdgeTable | include/protest/case_gen.hpp:207-216 | unsigned Edge is exactly 0, 1, 2, MAX, MAX-1, 2^(w-1)-1, 2^(w-1)-2, 2^(w-1) (eight values) |
| CaseGen.Source.Empty | include/protest/case_gen.hpp:24-29 | a None generator of the given type |
| CaseGen.Source.Pool | include/protest/case_gen.hpp:139-145 | a pool over the given elements, at its first element |
| CaseGen.Source.Edge | include/protest/case_gen.hpp:184-216 | a pool over the type's Edge table |
| CaseGen.Source.Random | include/protest/case_gen.hpp:58-61 | a Random over the given rng, before its first call |
| CaseGen.Source.Next | include/protest/case_gen.hpp:125-129 | the result is the pull at the old cursor, and the cursor advances exactly when a value is returned |
| CaseGen.MakePool | include/protest/case_gen.hpp:166-171 | makePool over a list builds a fresh pool over a copy of the list |
| Simple.Drive | include/protest/simple_test.hpp:73-86 | the case loop never changes the abstract; its other properties are the lemmas below |
| Simple.Run | include/protest/simple_test.hpp:57-107 | runTest never changes the abstract; its other properties are the lemmas below |
| Simple.DriveFuel | include/protest/simple_test.hpp:74-86 | once the case loop stops within some fuel, more fuel gives the same outcome |
| Simple.RunFuel | include/protest/simple_test.hpp:57-107 | the same for a whole runTest call |
| Simple.DriveKeeps | include/protest/simple_test.hpp:74-86 | the loop leaves abstract and lastCaseDescription alone, never lowers a counter and only sets reason when it records a failure |
| Simple.DriveTally | include/protest/simple_test.hpp:71-86 | passes raise passCount and count together, count stays within maxCount, and every pulled case is counted once as pass, skip or the failure |
| Simple.DriveStops | include/protest/simple_test.hpp:74-86 | the loop stops on a failure, on count reaching maxCount or on an empty pull; on a failure the last pulled case was admitted, failed, and is stored with its reason |
| Simple.DriveEarlierCasesPass | include/protest/simple_test.hpp:76-86 | every case pulled before the stopping one was skipped or passed |
| Simple.RunStale | include/protest/simple_test.hpp:61-64 | on a failed result runTest returns it unchanged, lastCaseDescription included, and does not touch the generator |
| Simple.RunZeroBudget | include/protest/simple_test.hpp:65-73 | with maxCount 0 only lastCaseDescription changes and the generator is not called |
| Simple.RunCounts | include/protest/simple_test.hpp:65-86 | a run sets lastCaseDescription, raises passCount by at most maxCount, never lowers a counter, so counters accumulate across calls, and accounts for every pulled case once |
| Simple.RunFailure | include/protest/simple_test.hpp:108-115 | a failure stores the last pulled admitted case with its type and the check's reason, without counting it as a pass; otherwise the reason is unchanged |
| Simple.RunPoolToExhaustion | include/protest/simple_test.hpp:74-86 | over a pool of n ≤ maxCount values a passing run draws all n and passCount+skipCount rises by n; the run fails exactly when some admitted value fails the check |
| Simple.RunKeepsConsistent | include/protest/simple_test.hpp:57-115 | runTest keeps the invariant that a failed case is stored exactly when a reason is |
| Simple.DrivePoolCounts | include/protest/simple_test.hpp:74-86 | over the rest of a pool with no admitted failure and within budget, passCount rises by the number of admitted values and skipCount by the number of the others |
| Simple.RunPoolCounts | include/protest/simple_test.hpp:57-107 | the same for a whole runTest call on a fresh pool |
| Simple.CountAdmittedConcat | include/protest/simple_test.hpp:76-79 | the number of admitted values of a concatenation is the sum over its parts |
| Simple.CountAdmittedBounds | include/protest/simple_test.hpp:76-79 | the number of admitted values is the length exactly when all are admitted, and zero exactly when none is |
| Simple.DriveCursorBound | include/protest/simple_test.hpp:74 | the loop never moves a pool's cursor past its end |
| Simple.DrivePoolStops | include/protest/simple_test.hpp:74-86 | on a pool the loop stops within the number of remaining elements plus one pulls |
| Simple.RunPoolStops | include/protest/simple_test.hpp:57-107 | runTest over a pool always returns |
| Simple.SimpleTest.constructor | include/protest/simple_test.hpp:32-39 | a test without precondition holding a fresh result with the given abstract |
| Simple.SimpleTest.WithPrecondition | include/protest/simple_test.hpp:40-47 | a test with the given precondition holding a fresh result with the given abstract |
| Simple.SimpleTest.ClearError | include/protest/simple_test.hpp:48-51 | the held result becomes ErrorCleared of itself |
| Simple.SimpleTest.ClearAll | include/protest/simple_test.hpp:52-55 | the held result becomes AllCleared of itself |
| Simple.SimpleTest.CheckCase | include/protest/simple_test.hpp:108-116 | returns the check's result; a failure stores the case with its type and the reason, a pass changes nothing |
| Simple.SimpleTest.RunTest | include/protest/simple_test.hpp:57-107 | the new result and generator cursor are those of the specification Run, whose properties are the Simple lemmas above |
| Generic.KindFor | include/protest/generic_test.hpp:64-67 | the generator of a type draws values of that type; Edge draws the type's Edge table |
| Generic.Instantiate | include/protest/generic_test.hpp:66-68 | TCG<T>() yields a fresh generator of type T at its start |
| Generic.PreconditionAlwaysTrue | include/protest/generic_test.hpp:32-37 | admits every value |
| Generic.Decimal | include/protest/generic_test.hpp:68 | std::to_string of an index is a non-empty string of decimal digits |
| Generic.DecimalRoundTrip | include/protest/generic_test.hpp:68 | the index is written in decimal digits without a leading zero and reads back as the index |
| Generic.TypeResult | include/protest/generic_test.hpp:40-58 | the i-th type's result carries the abstract naming the i-th type |
| Generic.Sequential | include/protest/generic_test.hpp:60-95 | the reported failedIndex is an index of the type list, and the result's abstract names that type |
| Generic.SequentialShortCircuit | include/protest/generic_test.hpp:60-95 | types run in list order; the runner stops at the first failing type, every earlier type passed, the result is that type's own result, and failedIndex is N-1 when no type fails |
| Generic.SequentialAllPass | include/protest/generic_test.hpp:60-95 | when every type passes, every type is run and the outcome is the last type's result with failedIndex N-1 |
| Generic.SequentialFailedCaseReadsBack | include/protest/generic_test.hpp:75-94 | on a failure, the stored case is tagged with the type at failedIndex, is a value of that type its precondition admitted and its check rejected with the stored reason, and passAsNthType with failedIndex reads back exactly that value |
| Generic.SequentialIgnoresLaterTypes | include/protest/generic_test.hpp:94 | types after the failing one are never run: replacing them by any list gives the same outcome |
| Generic.SequentialResultOfOneType | include/protest/generic_test.hpp:82-93 | the result is one type's alone: abstract + " for " + decimal(I) + "th type", the case description, passCount within the budget, and for Edge at most the table's size of cases |
| Generic.EdgeTypeStops | include/protest/generic_test.hpp:40-58 | a type's Edge run always returns |
| Generic.EdgeTypePasses | include/protest/generic_test.hpp:40-58 | a type whose every admitted Edge value passes, with a budget covering the table, passes having drawn the whole table |
| Generic.EdgeTestPasses | include/protest/generic_test.hpp:60-105 | an Edge test whose every admitted case passes runs every type and reports the last, with failedIndex N-1 |
| Generic.TestImpl | include/protest/generic_test.hpp:40-58 | the fresh result of the i-th type's run is its specification TypeResult |
| Generic.Test | include/protest/generic_test.hpp:99-105 | the fresh SequentialTestResult holds the specification Sequential outcome |
| Condition.AssertResult | include/protest/condition.hpp:19-26 | fails exactly when the condition is false, and then has exactly the given reason; otherwise a pass |
| Condition.Idempotent | include/protest/condition.hpp:42-46 | fails exactly when f(f(x)) ≠ f(x), with reason "function is not idempotent" |
| Condition.IdempotentFunctionPasses | include/protest/condition.hpp:42-46 | an idempotent function passes on every argument |
| Condition.Sorted | include/protest/condition.hpp:67-86 | judging fun(param), fails exactly when some adjacent pair (a, b) has less(a, b), with reason "given data are not sorted"; otherwise a pass |
| Condition.SortedWithLessIsNonIncreasing | include/protest/condition.hpp:67-86 | with std::less, Sorted accepts exactly the non-increasing sequences |
| Condition.SortedWithLessEqualIsDecreasing | include/protest/condition.hpp:49-86 | with std::less_equal, Sorted accepts exactly the strictly decreasing sequences |
| Condition.ShortSequencesInOrder | include/protest/condition.hpp:74-77 | sequences of fewer than two elements pass |
| Scenarios.Fun1 | protest_test.cpp:240-284 | the overload set has the nine candidates of fun1 |
| Scenarios.Fun1Dispatch | protest_test.cpp:240-310 | fun1 answers as the test program expects: "const char *", "std::string &&", "float" for a double, "(auto, exactly float)" for a float, "(signed integral)" for an int |
| Scenarios.Fun1DoubleUnreachable | protest_test.cpp:276-283 | candidate #9 ("double") is never called, for any argument |
| Scenarios.Absolute | protest_test.cpp:34-39 | absolute<T> of a value of T is a value of T |
| Scenarios.AbsoluteNonNegative | protest_test.cpp:34-39 | absolute<T> is non-negative except on a signed MIN, and equals the mathematical absolute value on every other signed value; on MIN the model's wrap-around negation returns MIN |
| Scenarios.AbsoluteIdempotent | protest_test.cpp:77-78 | absolute<T> passes Idempotent everywhere but on a signed MIN |
| Scenarios.Int64IdempotenceEdgePasses | protest_test.cpp:74-105 | the int64_t Edge idempotence run passes and draws all nine values: eight pass and MIN is the one skipped |
| Scenarios.Int64EdgeAdmitsEight | protest_test.cpp:79-81 | of the nine Edge values of int64_t the precondition admits eight |
| Scenarios.AbsolutePrecondition | protest_test.cpp:150-166 | the precondition built with overload; what it admits is AbsolutePreconditionAdmits |
| Scenarios.AbsolutePreconditionAdmits | protest_test.cpp:150-166 | the overload-built precondition admits exactly the values other than a signed MIN |
| Scenarios.AbsolutePositivityCasesPass | protest_test.cpp:185-187 | every admitted Edge value of every integer type passes the positivity check |
| Scenarios.AbsolutePositivityEdgePasses | protest_test.cpp:209-230 | the generic Edge positivity test over the integer prefix of Nums passes with failedIndex 7, eight cases drawn and the abstract of the 7th type |
| Scenarios.EdgeIntegersPass | protest_test.cpp:209-220 | any Edge test over the integer types whose admitted cases pass has that same outcome |

## Left out

- Console output is not modelled: progress printing, `steady_clock` timing,
  the SGR colour macros, `printResult`, the `printer` callback and the
  null-reference `ostream` trick that gates them. They only write to a
  stream.
- Floating-point types are not modelled: `Floats`, the floating
  `Random`, the floating `Edge` table and the float branch of the example
  precondition.
- The default `Random` constructors draw from `random_device` and `mt19937`.
  They are non-deterministic, so a Random source is always built from an rng
  given as a function of the call number (`Strategy.RandomStrategy` stands
  for the default constructor).
- `generic::Random` and `generic::Edge`, which protest_test.cpp uses, are
  aliases of `case_gen::Random` and `case_gen::Edge` (case_gen.hpp, reached
  from simple_test.hpp through test_base.hpp). The model uses the aliased
  templates directly.
- The non-void branches of `passAsNthTypeImpl` call `any_cast` with no operand
  and cannot be instantiated, so the model has only the void-handler path.
  The handler's side effect is modelled as its return value.
- C++ overload ranking and implicit conversions are not modelled. Each
  callable of an overload set carries an explicit predicate over argument
  kinds, and in the scenarios those predicates are written from the C++
  rules.
- Not modelled: the `std::function` conversion of an overload set, the
  `is_callable` SFINAE machinery, the `optional`/`any` header selection and
  variadic `makePool(args...)`, which forwards constructor arguments to
  `std::vector`.
- IterableSource over a caller's container is not modelled. It iterates the
  container in place, and aliasing with later changes to the container is not
  captured: the pool copies its elements, as `Pool` does.
- `size_t` wrap-around of passCount, skipCount and count is not modelled
  (counters are unbounded).
- Simple.SimpleTest.RunTest: the source promises nothing when the loop never
  ends. RunTest requires, through a ghost fuel, that the specification stops,
  so a random source whose values are all rejected is outside its contract.
  Generic.Test and Generic.TestImpl inherit this requirement.
- Scenarios.AbsoluteNonNegative: on a signed MIN the model's result (MIN
  itself) rests on the wrap-around choice for negation. In C++14 negating
  INT32_MIN or INT64_MIN overflows `int`/`long`, which is undefined
  behaviour, and for int8_t and int16_t converting the negated MIN back to
  T is implementation-defined. The source promises nothing there; the other
  clauses do not depend on the choice.
- Scenarios.AbsolutePositivityEdgePasses: the test program runs this test
  over Nums, Integers followed by the three floating-point types (eleven
  types, last index 10). The lemma covers the eight integer types only, so it
  reports failedIndex 7, uint64_t's result, where the program would report
  long double's.
- Scenarios.Int64IdempotenceEdgePasses: only the Edge part of the int64_t
  idempotence test is modelled; its Random part draws from a
  non-deterministic generator.
- Sorted: the model's `Sorted` does not show that scanning stops at the first
  offending pair. Apart from the number of calls to `less`, which is pure
  here, the result is the same either way.

## Findings

| source | as written | input that shows it | evidently intended | confidence | as-written member | corrected member |
|---|---|---|---|---|---|---|
| include/protest/case_gen.hpp:214 | `static_cast<T>(signed_limits::max()+1)` adds 1 to the signed maximum in the signed type (promoted to `int`) | T = uint32_t or uint64_t: `INT32_MAX + 1` / `INT64_MAX + 1` is signed overflow, undefined behaviour | the value 2^(w-1) of T, as for uint8_t and uint16_t | not executed | CaseGen.SignedMaxPlusOneOverflows | CaseGen.UnsignedEdgeTable |
