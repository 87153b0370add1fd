/**
 * Scenarios from the repository's own test program: the overload set
 * `fun1`, the absolute-value tests over Edge tables and the precondition
 * built with `overload`.
 */
module Scenarios {
  import opened ProtestCommon
  import opened CaseGen
  import opened Simple
  import opened Generic
  import opened Condition

  // ---------------------------------------------------------------------
  // The overload set fun1.

  /** The kinds of argument fun1 is called with. */
  datatype ArgKind = SignedIntegral | UnsignedIntegral | IntPointer | CString | StringRvalue | FloatArg | DoubleArg

  predicate IsArithmetic(k: ArgKind) {
    k == SignedIntegral || k == UnsignedIntegral || k == FloatArg || k == DoubleArg
  }

  /** The nine candidates of fun1, with the argument kinds each one can be
      called with (a `const char *` converts to `std::string`, and every
      arithmetic type converts to `float` and to `double`). */
  function Fun1(): (fs: seq<Callable<ArgKind, (), string>>)
    ensures |fs| == 9
  {
    [ Callable(k => k == SignedIntegral, (k, u) => "(signed integral)"),
      Callable(k => k == IntPointer, (k, u) => "int *"),
      Callable(k => k == CString, (k, u) => "const char *"),
      Callable(k => k == SignedIntegral || k == UnsignedIntegral, (k, u) => "(integral, not signed)"),
      Callable(k => k == StringRvalue || k == CString, (k, u) => "std::string &&"),
      Callable(k => k == FloatArg, (k, u) => "(auto, exactly float)"),
      Callable(k => IsArithmetic(k), (k, u) => "float"),
      Callable(k => true, (k, u) => "const auto &"),
      Callable(k => IsArithmetic(k), (k, u) => "double") ]
  }

  /** The answers the test program expects: the first applicable candidate
      wins, so a float picks #6 over #7, a double picks #7, a C string picks
      #3 over #5 and an int picks #1 over #4. */
  lemma {:induction false} Fun1Dispatch()
    ensures Overload(Fun1(), CString, ()) == Ok("const char *")
    ensures Overload(Fun1(), StringRvalue, ()) == Ok("std::string &&")
    ensures Overload(Fun1(), DoubleArg, ()) == Ok("float")
    ensures Overload(Fun1(), FloatArg, ()) == Ok("(auto, exactly float)")
    ensures Overload(Fun1(), SignedIntegral, ()) == Ok("(signed integral)")
  {
    var fs := Fun1();
    OverloadFirstMatch(fs, CString, (), 2);
    OverloadFirstMatch(fs, StringRvalue, (), 4);
    OverloadFirstMatch(fs, DoubleArg, (), 6);
    OverloadFirstMatch(fs, FloatArg, (), 5);
    OverloadFirstMatch(fs, SignedIntegral, (), 0);
  }

  /** Candidate #9 is never called: the catch-all #8 before it admits every
      argument. */
  lemma {:induction false} Fun1DoubleUnreachable(k: ArgKind)
    ensures Overload(Fun1(), k, ()).Ok?
    ensures Overload(Fun1(), k, ()).value != "double"
  {
    var fs := Fun1();
    match k
    case SignedIntegral => OverloadFirstMatch(fs, k, (), 0);
    case IntPointer => OverloadFirstMatch(fs, k, (), 1);
    case CString => OverloadFirstMatch(fs, k, (), 2);
    case UnsignedIntegral => OverloadFirstMatch(fs, k, (), 3);
    case StringRvalue => OverloadFirstMatch(fs, k, (), 4);
    case FloatArg => OverloadFirstMatch(fs, k, (), 5);
    case DoubleArg => OverloadFirstMatch(fs, k, (), 6);
  }

  // ---------------------------------------------------------------------
  // absolute<T> of the test program.

  /** absolute<T>(x): the negation when x is less than it, computed in T.
      The negation is taken as wrap-around conversion (Cast), which is the
      model's choice where C++14 leaves it open: for int8_t and int16_t the
      negated MIN is an int that does not fit back into T (an
      implementation-defined conversion), and for int32_t and int64_t
      negating MIN overflows (undefined behaviour). Under that choice the
      most negative value of a signed type is its own absolute value. */
  function Absolute(t: TypeTag, x: int): (r: int)
    ensures t.InRange(x) ==> t.InRange(r)
  {
    var negative := Cast(t, -x);
    if x < negative then negative else x
  }

  /** absolute<T> is non-negative on every value except a signed minimum;
      there, under the wrap-around choice for the negation, it returns the
      minimum itself. */
  lemma AbsoluteNonNegative(t: TypeTag, x: int)
    requires t.InRange(x)
    ensures t.IsSigned() && x == t.Min() ==> Absolute(t, x) == t.Min()
    ensures !(t.IsSigned() && x == t.Min()) ==> Absolute(t, x) >= 0
    ensures t.IsSigned() && x != t.Min() ==> Absolute(t, x) == if x < 0 then -x else x
  {
    if t.IsSigned() {
      assert t.Min() == -t.Max() - 1 by {
        match t
        case I8 =>
        case I16 =>
        case I32 =>
        case I64 =>
      }
      if x != t.Min() {
        assert t.InRange(-x);
      } else {
        assert -x - t.Min() == t.Modulus();
        CastUnique(t, -x, t.Min());
      }
    } else {
      assert t.Min() == 0 by {
        match t
        case U8 =>
        case U16 =>
        case U32 =>
        case U64 =>
      }
    }
  }

  /** absolute<T> is idempotent wherever it is defined without wrap-around. */
  lemma AbsoluteIdempotent(t: TypeTag, x: int)
    requires t.InRange(x) && !(t.IsSigned() && x == t.Min())
    ensures !Idempotent(y => Absolute(t, y), x).IsTestFailed()
  {
    AbsoluteNonNegative(t, x);
    var a := Absolute(t, x);
    AbsoluteNonNegative(t, a);
    if !t.IsSigned() {
      assert Cast(t, -a) == Cast(t, -x) || Cast(t, -a) == x by {
        if x < Cast(t, -x) {
          assert a == Cast(t, -x);
          CastNegateTwice(t, x);
        }
      }
    }
  }

  /** In an unsigned type negating twice is the identity. */
  lemma CastNegateTwice(t: TypeTag, x: int)
    requires t.InRange(x) && !t.IsSigned()
    ensures Cast(t, -Cast(t, -x)) == x
  {
    var n := Cast(t, -x);
    var m := t.Modulus();
    assert (-x - n) % m == 0;
    var q := (-x - n) / m;
    assert -x - n == q * m;
    assert -n == x + q * m;
    assert (-n - x) % m == 0;
    CastUnique(t, -n, x);
  }

  /** Cast picks the one value of the type congruent to its argument. */
  lemma CastUnique(t: TypeTag, y: int, x: int)
    requires t.InRange(x) && (y - x) % t.Modulus() == 0
    ensures Cast(t, y) == x
  {
    var r := Cast(t, y);
    var m := t.Modulus() as int;
    assert (y - r) % m == 0;
    var a := (y - x) / m;
    var b := (y - r) / m;
    assert y - x == a * m;
    assert y - r == b * m;
    assert r - x == (a - b) * m;
    assert -m < r - x < m;
  }

  // ---------------------------------------------------------------------
  // absoluteInt64Test, edge part: Idempotent(absolute<int64_t>) with the
  // precondition arg != MIN, after clearAll, on Edge<int64_t> with 20 cases.

  function Int64IdempotenceSetup(): (s: Setup)
    ensures ValidKind(s.tag, s.kind)
  {
    Setup(I64, PoolSource(EdgeValues(I64)), Some(x => x != I64.Min()),
          x => Idempotent(y => Absolute(I64, y), x), 20)
  }

  /** The run passes and draws all nine Edge values: MIN is the one case
      skipped and the other eight pass. */
  lemma {:induction false} Int64IdempotenceEdgePasses(v: ResultView, fuel: nat)
    requires v == AllCleared(v) && !v.IsTestFailed() && fuel >= 10
    ensures Run(v, "edge case", Int64IdempotenceSetup(), 0, fuel).Some?
    ensures var o := Run(v, "edge case", Int64IdempotenceSetup(), 0, fuel).value;
      && !o.result.IsTestFailed()
      && o.result.lastCaseDescription == "edge case"
      && o.result.passCount == 8 && o.result.skipCount == 1
      && o.cursor == 9
  {
    var s := Int64IdempotenceSetup();
    var xs := EdgeValues(I64);
    SignedEdgeTable(I64);
    RunPoolStops(v, "edge case", s, xs, 0, fuel);
    forall i | 0 <= i < |xs| && Admits(s.pre, xs[i])
      ensures !s.check(xs[i]).IsTestFailed()
    {
      AbsoluteIdempotent(I64, xs[i]);
    }
    RunPoolToExhaustion(v, "edge case", s, xs, fuel);
    RunCounts(v, "edge case", s, 0, fuel);
    RunPoolCounts(v, "edge case", s, xs, fuel);
    Int64EdgeAdmitsEight();
  }

  /** Of the nine Edge values of int64_t the precondition rejects only MIN,
      the sixth. */
  lemma Int64EdgeAdmitsEight()
    ensures CountAdmitted(Int64IdempotenceSetup().pre, EdgeValues(I64)) == 8
  {
    var pre := Int64IdempotenceSetup().pre;
    var xs := EdgeValues(I64);
    var min := I64.Min();
    var a, b := xs[..5], xs[6..];
    assert xs == a + [xs[5]] + b;
    assert xs[5] == min && forall i :: 0 <= i < |a| ==> a[i] != min && forall i :: 0 <= i < |b| ==> b[i] != min by {
      SignedEdgeTable(I64);
    }
    CountAdmittedConcat(pre, a + [xs[5]], b);
    CountAdmittedConcat(pre, a, [xs[5]]);
    CountAdmittedBounds(pre, a);
    CountAdmittedBounds(pre, [xs[5]]);
    CountAdmittedBounds(pre, b);
  }

  // ---------------------------------------------------------------------
  // absoluteTemplateNumTest, edge part, over the integer types.

  /** absolutePrecondition: signed integers other than MIN, and anything
      else through the catch-all. */
  function AbsolutePreconditionSet(): seq<Callable<TypeTag, int, bool>> {
    [ Callable((t: TypeTag) => t.IsSigned(), (t: TypeTag, x: int) => x != t.Min()),
      Callable(t => true, (t, x) => true) ]
  }

  function AbsolutePrecondition(t: TypeTag): int -> bool {
    x => match Overload(AbsolutePreconditionSet(), t, x)
         case Ok(b) => b
         case Err(_) => false
  }

  /** The precondition admits exactly the values other than a signed MIN. */
  lemma AbsolutePreconditionAdmits(t: TypeTag, x: int)
    ensures AbsolutePrecondition(t)(x) <==> !(t.IsSigned() && x == t.Min())
  {
    OverloadCatchAll(AbsolutePreconditionSet(), t, x, 1);
  }

  const PositivityAbstract: string := "absolute<>() template function positivity test"

  function AbsolutePositivity(): (g: GenericTest)
    ensures g.types == Integers()
  {
    GenericTest(EdgeStrategy, Integers(), PositivityAbstract, "edge case",
                t => x => AssertResult(Absolute(t, x) >= 0, "return value is still negative"),
                AbsolutePrecondition, 50)
  }

  /** Every Edge value the precondition admits passes the positivity check. */
  lemma AbsolutePositivityCasesPass()
    ensures var g := AbsolutePositivity();
      forall j, x :: 0 <= j < |g.types| && x in EdgeValues(g.types[j]) && g.pre(g.types[j])(x) ==>
        !g.check(g.types[j])(x).IsTestFailed()
  {
    var g := AbsolutePositivity();
    forall j, x | 0 <= j < |g.types| && x in EdgeValues(g.types[j]) && g.pre(g.types[j])(x)
      ensures !g.check(g.types[j])(x).IsTestFailed()
    {
      var t := g.types[j];
      AbsolutePreconditionAdmits(t, x);
      AbsoluteNonNegative(t, x);
    }
  }

  /** The Edge run over the eight integer types passes: failedIndex is 7 (the
      last type, uint64_t), and the result is uint64_t's alone: eight cases
      drawn and the abstract naming the 7th type. The test program runs the
      same test over Integers followed by the three floating-point types;
      this is the integer prefix of that run, so there the last index is 10. */
  lemma {:induction false} AbsolutePositivityEdgePasses(fuel: nat)
    requires fuel >= 10
    ensures Sequential(AbsolutePositivity(), 0, fuel).Some?
    ensures var sv := Sequential(AbsolutePositivity(), 0, fuel).value;
      && sv.failedIndex == 7
      && !sv.result.IsTestFailed()
      && sv.result.passCount + sv.result.skipCount == 8
      && sv.result.abstractText == PositivityAbstract + " for 7th type"
  {
    AbsolutePositivityCasesPass();
    EdgeIntegersPass(AbsolutePositivity(), fuel);
  }

  /** An Edge test over Integers whose admitted cases all pass. */
  lemma EdgeIntegersPass(g: GenericTest, fuel: nat)
    requires g.strategy.EdgeStrategy? && g.types == Integers() && g.maxCount >= 9 && fuel >= 10
    requires forall j, x :: 0 <= j < |g.types| && x in EdgeValues(g.types[j]) && g.pre(g.types[j])(x) ==>
      !g.check(g.types[j])(x).IsTestFailed()
    ensures Sequential(g, 0, fuel).Some?
    ensures var sv := Sequential(g, 0, fuel).value;
      && sv.failedIndex == 7
      && !sv.result.IsTestFailed()
      && sv.result.passCount + sv.result.skipCount == 8
      && sv.result.abstractText == g.abstractText + " for 7th type"
  {
    EdgeTestPasses(g, fuel);
    assert g.types[7] == U64;
    UnsignedEdgeTable(U64);
    SequentialResultOfOneType(g, fuel);
    SeventhTypeAbstract(g.abstractText);
  }

  lemma SeventhTypeAbstract(a: string)
    ensures TypeAbstract(a, 7) == a + " for 7th type"
  {
    assert Decimal(7) == [DigitChar(7)];
    assert DigitChar(7) == '7';
    assert " for " + "7" + "th type" == " for 7th type";
  }
}
