/**
 * The sequential multi-type runner: generic::test runs the same test for
 * each type of a type list in order, each with a fresh SimpleTest and a
 * default-constructed generator, and stops at the first type that fails.
 */
module Generic {
  import opened ProtestCommon
  import opened CaseGen
  import opened Simple

  /** The generator template TCG, instantiated for one type by its default
      constructor. The default Random constructor seeds an engine from the
      environment; `rngFor(t)` stands for the sequence it would produce. */
  datatype Strategy = NoneStrategy | EdgeStrategy | RandomStrategy(rngFor: TypeTag -> nat -> int)

  function KindFor(g: Strategy, t: TypeTag): (k: SourceKind)
    ensures ValidKind(t, k)
    ensures g.EdgeStrategy? ==> k == PoolSource(EdgeValues(t))
  {
    match g
    case NoneStrategy => NoneSource
    case EdgeStrategy => PoolSource(EdgeValues(t))
    case RandomStrategy(rngFor) => RandomSource(rngFor(t))
  }

  /** TCG<T>(): a fresh generator for type `t`. */
  method Instantiate(g: Strategy, t: TypeTag) returns (src: Source)
    ensures fresh(src) && src.Valid()
    ensures src.tag == t && src.kind == KindFor(g, t) && src.cursor == 0
  {
    if g.NoneStrategy? {
      src := new Source.Empty(t);
    } else if g.EdgeStrategy? {
      src := new Source.Edge(t);
    } else {
      src := new Source.Random(t, g.rngFor(t));
    }
  }

  /** PreconditionAlwaysTrue: admits every value of every type. */
  function PreconditionAlwaysTrue(t: TypeTag): (p: int -> bool)
    ensures forall x :: p(x)
  {
    _ => true
  }

  // ---------------------------------------------------------------------
  // std::to_string for the type index.

  function DigitChar(d: nat): (c: char)
    requires d < 10
    ensures '0' <= c <= '9'
  {
    (48 + d) as char
  }

  /** The decimal numeral of `n`, as std::to_string writes it. */
  function Decimal(n: nat): (s: string)
    ensures IsDigits(s) && |s| >= 1
    decreases n
  {
    if n < 10 then [DigitChar(n)] else Decimal(n / 10) + [DigitChar(n % 10)]
  }

  predicate IsDigits(s: string) {
    forall i :: 0 <= i < |s| ==> '0' <= s[i] <= '9'
  }

  /** The number a string of decimal digits denotes. */
  function ParseDecimal(s: string): nat
    requires IsDigits(s)
    decreases |s|
  {
    if s == [] then 0 else ParseDecimal(s[..|s| - 1]) * 10 + ((s[|s| - 1] as int) - 48)
  }

  /** Decimal writes digits only, without a leading zero, and reads back as `n`. */
  lemma {:induction false} DecimalRoundTrip(n: nat)
    ensures IsDigits(Decimal(n)) && |Decimal(n)| >= 1
    ensures |Decimal(n)| > 1 ==> Decimal(n)[0] != '0'
    ensures ParseDecimal(Decimal(n)) == n
    decreases n
  {
    if n >= 10 {
      DecimalRoundTrip(n / 10);
      var s := Decimal(n);
      assert s[..|s| - 1] == Decimal(n / 10);
      assert s[0] == Decimal(n / 10)[0];
    }
  }

  /** The abstract of the test of the i-th type. */
  function TypeAbstract(abstractText: string, i: nat): string
  {
    abstractText + " for " + Decimal(i) + "th type"
  }

  // ---------------------------------------------------------------------
  // The runner.

  /** The arguments of generic::test: the generator template, the type list,
      the abstract, the case description, the check and the precondition
      (both generic over the parameter type) and the budget per type. */
  datatype GenericTest = GenericTest(
    strategy: Strategy,
    types: seq<TypeTag>,
    abstractText: string,
    caseDescription: string,
    check: TypeTag -> int -> CheckResult,
    pre: TypeTag -> int -> bool,
    maxCount: nat)

  /** The result a freshly constructed SimpleTest starts with. */
  function FreshResult(abstractText: string): (v: ResultView)
    ensures !v.IsTestFailed() && v.passCount == 0 && v.skipCount == 0 && v.abstractText == abstractText
  {
    ResultView(abstractText, "", None, None, 0, 0)
  }

  /** The runTest call made for the i-th type. */
  function TypeSetup(g: GenericTest, i: nat): (s: Setup)
    requires i < |g.types|
    ensures ValidKind(s.tag, s.kind)
  {
    var t := g.types[i];
    Setup(t, KindFor(g.strategy, t), Some(g.pre(t)), g.check(t), g.maxCount)
  }

  /** detail::testImpl for the i-th type: the result of a fresh SimpleTest
      run once on a fresh generator. */
  function TypeResult(g: GenericTest, i: nat, fuel: nat): (r: Option<ResultView>)
    requires i < |g.types|
    ensures r.Some? ==> r.value.abstractText == TypeAbstract(g.abstractText, i)
  {
    match Run(FreshResult(TypeAbstract(g.abstractText, i)), g.caseDescription, TypeSetup(g, i), 0, fuel)
    case None => None
    case Some(o) => Some(o.result)
  }

  /** detail::testImplInterface<..., I>: test type I, then stop if it failed
      or was the last type, and go on with type I + 1 otherwise. */
  function Sequential(g: GenericTest, i: nat, fuel: nat): (r: Option<SequentialView>)
    requires i < |g.types|
    ensures r.Some? ==> i <= r.value.failedIndex < |g.types|
    ensures r.Some? ==> r.value.result.abstractText == TypeAbstract(g.abstractText, r.value.failedIndex)
    decreases |g.types| - i
  {
    match TypeResult(g, i, fuel)
    case None => None
    case Some(r) =>
      if i == |g.types| - 1 || r.IsTestFailed() then Some(SequentialView(r, i))
      else Sequential(g, i + 1, fuel)
  }

  /** Types are tested in list order and the runner stops at the first type
      that fails: every earlier type passed, `failedIndex` names the last type
      run, and the result is that type's own result. When every type passes,
      `failedIndex` is the last index, not 0. */
  lemma {:induction false} SequentialShortCircuit(g: GenericTest, i: nat, fuel: nat)
    requires i < |g.types| && Sequential(g, i, fuel).Some?
    ensures var sv := Sequential(g, i, fuel).value;
      && i <= sv.failedIndex < |g.types|
      && TypeResult(g, sv.failedIndex, fuel) == Some(sv.result)
      && (sv.result.IsTestFailed() || sv.failedIndex == |g.types| - 1)
      && (!sv.result.IsTestFailed() ==> sv.failedIndex == |g.types| - 1)
      && forall j :: i <= j < sv.failedIndex ==> TypeResult(g, j, fuel).Some? && !TypeResult(g, j, fuel).value.IsTestFailed()
    decreases |g.types| - i
  {
    var r := TypeResult(g, i, fuel).value;
    if !(i == |g.types| - 1 || r.IsTestFailed()) {
      SequentialShortCircuit(g, i + 1, fuel);
    }
  }

  /** The result of a type runs only over that type: the i-th type's run does
      not depend on the types listed after it. */
  lemma TypeResultLocal(g: GenericTest, h: GenericTest, i: nat, fuel: nat)
    requires i < |g.types| && i < |h.types| && g.types[i] == h.types[i]
    requires h == g.(types := h.types)
    ensures TypeResult(g, i, fuel) == TypeResult(h, i, fuel)
  {
  }

  /** Types after the failing one are never run: replacing every type after
      `failedIndex` by any other list gives the same outcome. */
  lemma {:induction false} SequentialIgnoresLaterTypes(g: GenericTest, i: nat, fuel: nat, rest: seq<TypeTag>)
    requires i < |g.types| && Sequential(g, i, fuel).Some?
    requires Sequential(g, i, fuel).value.result.IsTestFailed()
    ensures var k := Sequential(g, i, fuel).value.failedIndex;
      i <= k < |g.types| &&
      var h := g.(types := g.types[..k + 1] + rest);
      Sequential(h, i, fuel) == Sequential(g, i, fuel)
    decreases |g.types| - i
  {
    SequentialShortCircuit(g, i, fuel);
    var k := Sequential(g, i, fuel).value.failedIndex;
    var h := g.(types := g.types[..k + 1] + rest);
    assert h.types[i] == g.types[i];
    TypeResultLocal(g, h, i, fuel);
    var r := TypeResult(g, i, fuel).value;
    if !(i == |g.types| - 1 || r.IsTestFailed()) {
      SequentialIgnoresLaterTypes(g, i + 1, fuel, rest);
    }
  }

  /** The runner's result is one type's own result: its abstract names that
      type's index, its counters start from zero for that type (so they are
      never summed across types) and passCount is within the budget. */
  lemma SequentialResultOfOneType(g: GenericTest, fuel: nat)
    requires |g.types| >= 1 && Sequential(g, 0, fuel).Some?
    ensures var sv := Sequential(g, 0, fuel).value;
      && sv.failedIndex < |g.types|
      && sv.result.abstractText == g.abstractText + " for " + Decimal(sv.failedIndex) + "th type"
      && sv.result.lastCaseDescription == g.caseDescription
      && sv.result.passCount <= g.maxCount
      && (g.strategy.EdgeStrategy? ==>
            sv.result.passCount + sv.result.skipCount + (if sv.result.IsTestFailed() then 1 else 0)
              <= |EdgeValues(g.types[sv.failedIndex])|)
  {
    SequentialShortCircuit(g, 0, fuel);
    var sv := Sequential(g, 0, fuel).value;
    var k := sv.failedIndex;
    var s := TypeSetup(g, k);
    var fresh0 := FreshResult(TypeAbstract(g.abstractText, k));
    RunCounts(fresh0, g.caseDescription, s, 0, fuel);
    if g.strategy.EdgeStrategy? && s.maxCount != 0 {
      DriveCursorBound(s, LoopState(fresh0.(lastCaseDescription := g.caseDescription), 0, 0), EdgeValues(g.types[k]), fuel);
    }
  }

  /** Reading the failing case back: passAsNthType with the runner's
      failedIndex selects exactly the type the case was stored under, so the
      stored case converts back to the value that failed, a value of that
      type which its precondition admitted and its check rejected. */
  lemma SequentialFailedCaseReadsBack<R>(g: GenericTest, fuel: nat, f: (TypeTag, int) -> R)
    requires |g.types| >= 1 && Sequential(g, 0, fuel).Some?
    requires Sequential(g, 0, fuel).value.result.IsTestFailed()
    ensures var sv := Sequential(g, 0, fuel).value;
      && sv.failedIndex < |g.types|
      && var t := g.types[sv.failedIndex];
      && sv.result.failedCase.Some? && sv.result.failedCase.value.tag == t
      && var x := sv.result.failedCase.value.value;
      && t.InRange(x) && g.pre(t)(x)
      && g.check(t)(x).IsTestFailed() && sv.result.reason == g.check(t)(x).reason
      && PassAsNthType(g.types, f, sv.result.failedCase, sv.failedIndex) == Ok(f(t, x))
  {
    SequentialShortCircuit(g, 0, fuel);
    var sv := Sequential(g, 0, fuel).value;
    var k := sv.failedIndex;
    RunFailure(FreshResult(TypeAbstract(g.abstractText, k)), g.caseDescription, TypeSetup(g, k), 0, fuel);
  }

  /** The other direction of the short circuit: when every type from `i` on
      passes, every type is run and the outcome is the last type's result
      with failedIndex N - 1. */
  lemma {:induction false} SequentialAllPass(g: GenericTest, i: nat, fuel: nat)
    requires i < |g.types|
    requires forall j :: i <= j < |g.types| ==> TypeResult(g, j, fuel).Some? && !TypeResult(g, j, fuel).value.IsTestFailed()
    ensures Sequential(g, i, fuel) == Some(SequentialView(TypeResult(g, |g.types| - 1, fuel).value, |g.types| - 1))
    decreases |g.types| - i
  {
    if i < |g.types| - 1 {
      SequentialAllPass(g, i + 1, fuel);
    }
  }

  /** Edge tables are finite, so a type's Edge run always returns within
      ten pulls. */
  lemma EdgeTypeStops(g: GenericTest, i: nat, fuel: nat)
    requires g.strategy.EdgeStrategy? && i < |g.types| && fuel >= 10
    ensures TypeResult(g, i, fuel).Some?
  {
    var t := g.types[i];
    if t.IsSigned() { SignedEdgeTable(t); } else { UnsignedEdgeTable(t); }
    RunPoolStops(FreshResult(TypeAbstract(g.abstractText, i)), g.caseDescription, TypeSetup(g, i), EdgeValues(t), 0, fuel);
  }

  /** A type whose every admitted Edge value passes the check, with a budget
      covering the whole table, passes after drawing every value of it. */
  lemma EdgeTypePasses(g: GenericTest, i: nat, fuel: nat)
    requires g.strategy.EdgeStrategy? && i < |g.types| && fuel >= 10
    requires |EdgeValues(g.types[i])| <= g.maxCount
    requires forall x :: x in EdgeValues(g.types[i]) && g.pre(g.types[i])(x) ==> !g.check(g.types[i])(x).IsTestFailed()
    ensures TypeResult(g, i, fuel).Some?
    ensures var r := TypeResult(g, i, fuel).value;
      !r.IsTestFailed() && r.passCount + r.skipCount == |EdgeValues(g.types[i])|
  {
    var t := g.types[i];
    EdgeTypeStops(g, i, fuel);
    RunPoolToExhaustion(FreshResult(TypeAbstract(g.abstractText, i)), g.caseDescription, TypeSetup(g, i), EdgeValues(t), fuel);
  }

  /** An Edge test over types whose every admitted Edge value passes runs
      every type and reports the last one, with failedIndex N - 1. */
  lemma EdgeTestPasses(g: GenericTest, fuel: nat)
    requires g.strategy.EdgeStrategy? && |g.types| >= 1 && fuel >= 10 && g.maxCount >= 9
    requires forall j, x :: 0 <= j < |g.types| && x in EdgeValues(g.types[j]) && g.pre(g.types[j])(x) ==>
      !g.check(g.types[j])(x).IsTestFailed()
    ensures Sequential(g, 0, fuel).Some?
    ensures var sv := Sequential(g, 0, fuel).value;
      && sv.failedIndex == |g.types| - 1
      && !sv.result.IsTestFailed()
      && sv.result.passCount + sv.result.skipCount == |EdgeValues(g.types[|g.types| - 1])|
  {
    forall j | 0 <= j < |g.types|
      ensures TypeResult(g, j, fuel).Some? && !TypeResult(g, j, fuel).value.IsTestFailed()
      ensures TypeResult(g, j, fuel).value.passCount + TypeResult(g, j, fuel).value.skipCount == |EdgeValues(g.types[j])|
    {
      var t := g.types[j];
      if t.IsSigned() { SignedEdgeTable(t); } else { UnsignedEdgeTable(t); }
      EdgeTypePasses(g, j, fuel);
    }
    SequentialAllPass(g, 0, fuel);
  }

  /** detail::testImpl: construct the i-th type's generator and SimpleTest,
      run it once and return its result. */
  method TestImpl(g: GenericTest, i: nat, ghost fuel: nat) returns (res: TestResult)
    requires i < |g.types| && TypeResult(g, i, fuel).Some?
    ensures fresh(res) && res.View() == TypeResult(g, i, fuel).value
  {
    var t := g.types[i];
    var gen := Instantiate(g.strategy, t);
    var test := new SimpleTest.WithPrecondition(t, TypeAbstract(g.abstractText, i), g.check(t), g.pre(t));
    res := test.RunTest(g.caseDescription, gen, g.maxCount, fuel);
  }

  /** generic::test: the types in list order, stopping after the first
      failing type. `fuel` bounds each type's loop (see Simple.Drive). */
  method Test(g: GenericTest, ghost fuel: nat) returns (r: SequentialTestResult)
    requires |g.types| >= 1 && Sequential(g, 0, fuel).Some?
    ensures fresh(r) && fresh(r.result)
    ensures r.View() == Sequential(g, 0, fuel).value
  {
    r := new SequentialTestResult();
    var i := 0;
    while true
      invariant i < |g.types|
      invariant Sequential(g, i, fuel) == Sequential(g, 0, fuel)
      invariant fresh(r) && fresh(r.result)
      decreases |g.types| - i
    {
      var res := TestImpl(g, i, fuel);
      r.result := res;
      r.failedIndex := i;
      if res.IsTestFailed() || i == |g.types| - 1 {
        break;
      }
      i := i + 1;
    }
  }
}
