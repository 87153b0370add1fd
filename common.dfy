/**
 * Common types of the harness: optional values, the closed list of integer
 * types a generic test runs over, the type-erased failing case, the result
 * records, index dispatch over a type list and first-match overloading.
 */
module ProtestCommon {

  datatype Option<+T> = None | Some(value: T)

  datatype Result<+R, +E> = Ok(value: R) | Err(error: E)

  /** The hard errors of the core: a failed `any_cast`, and an overload set
      with no candidate for the argument (a compile error in the source). */
  datatype Error = BadAnyCast | NoMatchingOverload

  /** The fixed-width integer types of the `Integers` type list. */
  datatype TypeTag = I8 | U8 | I16 | U16 | I32 | U32 | I64 | U64 {

    function Width(): nat {
      match this
      case I8 => 8   case U8 => 8
      case I16 => 16 case U16 => 16
      case I32 => 32 case U32 => 32
      case I64 => 64 case U64 => 64
    }

    predicate IsSigned() {
      match this
      case I8 | I16 | I32 | I64 => true
      case _ => false
    }

    /** numeric_limits<T>::min() */
    function Min(): int {
      match this
      case I8 => -0x80
      case I16 => -0x8000
      case I32 => -0x8000_0000
      case I64 => -0x8000_0000_0000_0000
      case _ => 0
    }

    /** numeric_limits<T>::max() */
    function Max(): int {
      match this
      case I8 => 0x7F
      case U8 => 0xFF
      case I16 => 0x7FFF
      case U16 => 0xFFFF
      case I32 => 0x7FFF_FFFF
      case U32 => 0xFFFF_FFFF
      case I64 => 0x7FFF_FFFF_FFFF_FFFF
      case U64 => 0xFFFF_FFFF_FFFF_FFFF
    }

    /** 2^Width(): the number of values of the type. */
    function Modulus(): (m: nat)
      ensures m == Max() - Min() + 1
    {
      match this
      case I8 => 0x100            case U8 => 0x100
      case I16 => 0x1_0000        case U16 => 0x1_0000
      case I32 => 0x1_0000_0000   case U32 => 0x1_0000_0000
      case I64 => 0x1_0000_0000_0000_0000
      case U64 => 0x1_0000_0000_0000_0000
    }

    predicate InRange(x: int) {
      Min() <= x <= Max()
    }

    /** std::make_signed_t<T> */
    function MakeSigned(): (s: TypeTag)
      ensures s.IsSigned() && s.Width() == Width()
    {
      match this
      case U8 => I8
      case U16 => I16
      case U32 => I32
      case U64 => I64
      case _ => this
    }
  }

  /** The conversion of an integer to type `t` (static_cast, or the implicit
      conversion to a function's return type): the value congruent to `x`
      modulo 2^w that lies in the range of `t`. */
  function Cast(t: TypeTag, x: int): (r: int)
    ensures t.InRange(r)
    ensures (x - r) % t.Modulus() == 0
    ensures t.InRange(x) ==> r == x
  {
    var m := t.Modulus();
    var d := (x - t.Min()) % m;
    assert x - t.Min() == m * ((x - t.Min()) / m) + d;
    assert t.InRange(x) ==> (x - t.Min()) / m == 0;
    t.Min() + d
  }

  /** One value of one of the listed types together with its type: the
      non-empty state of a `std::any`. */
  datatype Erased = Erased(tag: TypeTag, value: int)

  /** The outcome of one case: failed exactly when a reason is present. */
  datatype CheckResult = CheckResult(reason: Option<string>) {
    /** isTestFailed() and the explicit conversion to bool. */
    predicate IsTestFailed() {
      reason.Some?
    }
  }

  /** A default-constructed CheckResult: a pass. */
  function PassedCheck(): (r: CheckResult)
    ensures !r.IsTestFailed() && r.reason == None
  {
    CheckResult(None)
  }

  /** The value held by a TestResult. */
  datatype ResultView = ResultView(
    abstractText: string,
    lastCaseDescription: string,
    failedCase: Option<Erased>,
    reason: Option<string>,
    passCount: nat,
    skipCount: nat)
  {
    /** isTestFailed(): a failing case is stored; `reason` is not consulted. */
    predicate IsTestFailed() {
      failedCase.Some?
    }

    /** The invariant every operation keeps: a failing case is stored
        exactly when a reason is. */
    predicate Consistent() {
      failedCase.Some? <==> reason.Some?
    }
  }

  /** The value a clearError leaves behind. */
  function ErrorCleared(v: ResultView): (r: ResultView)
    ensures !r.IsTestFailed() && r.reason == None
    ensures r.abstractText == v.abstractText && r.lastCaseDescription == v.lastCaseDescription
    ensures r.passCount == v.passCount && r.skipCount == v.skipCount
  {
    v.(failedCase := None, reason := None)
  }

  /** The value a clearAll leaves behind. */
  function AllCleared(v: ResultView): (r: ResultView)
    ensures r == ErrorCleared(v).(passCount := 0, skipCount := 0)
    ensures r.abstractText == v.abstractText && r.lastCaseDescription == v.lastCaseDescription
  {
    ResultView(v.abstractText, v.lastCaseDescription, None, None, 0, 0)
  }

  /** clearAll twice is clearAll once, and clearing the error first changes nothing. */
  lemma AllClearedIdempotent(v: ResultView)
    ensures AllCleared(AllCleared(v)) == AllCleared(v)
    ensures AllCleared(ErrorCleared(v)) == AllCleared(v)
  {
  }

  /** A fresh result and the clearing operations establish the invariant. */
  lemma ClearedConsistent(v: ResultView)
    ensures ResultView("", "", None, None, 0, 0).Consistent()
    ensures ErrorCleared(v).Consistent() && AllCleared(v).Consistent()
  {
  }

  /** isTestFailed looks at the failing case only, never at the reason. */
  lemma IsTestFailedIgnoresReason(v: ResultView, reason: Option<string>)
    ensures v.(reason := reason).IsTestFailed() == v.IsTestFailed()
    ensures v.IsTestFailed() <==> v.failedCase != None
  {
  }

  /** Test result for all the cases checked by one single-type test. */
  class TestResult {
    var abstractText: string
    var lastCaseDescription: string
    var failedCase: Option<Erased>
    var reason: Option<string>
    var passCount: nat
    var skipCount: nat

    function View(): ResultView
      reads this
    {
      ResultView(abstractText, lastCaseDescription, failedCase, reason, passCount, skipCount)
    }

    constructor ()
      ensures View() == ResultView("", "", None, None, 0, 0)
    {
      abstractText := "";
      lastCaseDescription := "";
      failedCase := None;
      reason := None;
      passCount := 0;
      skipCount := 0;
    }

    predicate IsTestFailed()
      reads this
    {
      View().IsTestFailed()
    }

    method ClearError()
      modifies this
      ensures View() == ErrorCleared(old(View()))
    {
      failedCase := None;
      reason := None;
    }

    method ClearAll()
      modifies this
      ensures View() == AllCleared(old(View()))
    {
      failedCase := None;
      reason := None;
      passCount := 0;
      skipCount := 0;
    }
  }

  /** The value held by a SequentialTestResult. */
  datatype SequentialView = SequentialView(result: ResultView, failedIndex: nat)

  /** Test result of a sequence of single-type tests. `failedIndex` means
      something only when `result` is failed. */
  class SequentialTestResult {
    var result: TestResult
    var failedIndex: nat

    function View(): SequentialView
      reads this, result
    {
      SequentialView(result.View(), failedIndex)
    }

    constructor ()
      ensures fresh(result)
      ensures View() == SequentialView(ResultView("", "", None, None, 0, 0), 0)
    {
      result := new TestResult();
      failedIndex := 0;
    }
  }

  // ---------------------------------------------------------------------
  // passAsNthType: hand a type-erased value to a handler as the index-th type.

  /** `f(any_cast<T>(obj))` for the void handler `f`: the handler's effect
      on the recovered value, or `BadAnyCast` when `obj` is empty or holds a
      value of a type other than `t`. */
  function AnyCastApply<R>(t: TypeTag, obj: Option<Erased>, f: (TypeTag, int) -> R): (r: Result<R, Error>)
    ensures r.Ok? <==> obj.Some? && obj.value.tag == t
    ensures r.Ok? ==> r.value == f(t, obj.value.value)
    ensures r.Err? ==> r.error == BadAnyCast
  {
    if obj.Some? && obj.value.tag == t then Ok(f(t, obj.value.value)) else Err(BadAnyCast)
  }

  /** passAsNthTypeImpl<Tuple, current>: every index but the last is
      compared with the target; the last one is taken whatever the target. */
  function PassAsNthTypeImpl<R>(types: seq<TypeTag>, current: nat, f: (TypeTag, int) -> R,
                                obj: Option<Erased>, target: nat): (r: Result<R, Error>)
    requires current < |types|
    ensures r.Ok? ==> obj.Some? && obj.value.tag in types[current..]
    ensures r.Err? ==> r.error == BadAnyCast
    decreases |types| - current
  {
    if current < |types| - 1 then
      if current == target then AnyCastApply(types[current], obj, f)
      else PassAsNthTypeImpl(types, current + 1, f, obj, target)
    else
      AnyCastApply(types[current], obj, f)
  }

  /** The type index passAsNthType ends up using. */
  function SelectedIndex(n: nat, target: nat): (i: nat)
    requires n >= 1
    ensures i < n
    ensures target < n - 1 ==> i == target
    ensures target >= n - 1 ==> i == n - 1
  {
    if target < n - 1 then target else n - 1
  }

  /** Starting the dispatch at `current`, the selected type is the target when
      it lies in [current, n-1) and the last type otherwise. */
  lemma {:induction false} PassAsNthTypeImplSelects<R>(types: seq<TypeTag>, current: nat, f: (TypeTag, int) -> R,
                                                       obj: Option<Erased>, target: nat)
    requires current < |types|
    ensures PassAsNthTypeImpl(types, current, f, obj, target)
         == AnyCastApply(types[if current <= target < |types| - 1 then target else |types| - 1], obj, f)
    decreases |types| - current
  {
    if current < |types| - 1 && current != target {
      PassAsNthTypeImplSelects(types, current + 1, f, obj, target);
    }
  }

  /** passAsNthType<Tuple>(f, obj, index) */
  function PassAsNthType<R>(types: seq<TypeTag>, f: (TypeTag, int) -> R, obj: Option<Erased>, index: nat): (r: Result<R, Error>)
    requires |types| >= 1
    ensures r == AnyCastApply(types[SelectedIndex(|types|, index)], obj, f)
    ensures r.Ok? <==> obj.Some? && obj.value.tag == types[SelectedIndex(|types|, index)]
  {
    PassAsNthTypeImplSelects(types, 0, f, obj, index);
    PassAsNthTypeImpl(types, 0, f, obj, index)
  }

  // ---------------------------------------------------------------------
  // overload: first-match dispatch over constrained callables.

  /** One callable of an overload set: the argument kinds its constraint
      admits, and what it does with an admitted argument. */
  datatype Callable<!K, !V, R> = Callable(accepts: K -> bool, call: (K, V) -> R)

  /** OverloadImpl<F, Fs...>::operator(): F when F can take an argument of
      kind `k`, the rest of the set otherwise; the one-element set is the
      base case, which has nothing to fall back on. */
  function Overload<K, V, R>(fs: seq<Callable<K, V, R>>, k: K, v: V): (r: Result<R, Error>)
    requires |fs| >= 1
    ensures r.Err? ==> r.error == NoMatchingOverload
  {
    if fs[0].accepts(k) then Ok(fs[0].call(k, v))
    else if |fs| == 1 then Err(NoMatchingOverload)
    else Overload(fs[1..], k, v)
  }

  /** The overload set calls the first callable, in argument order, that
      admits the argument; it reports no match exactly when none admits it. */
  lemma {:induction false} OverloadFirstMatch<K, V, R>(fs: seq<Callable<K, V, R>>, k: K, v: V, i: nat)
    requires i < |fs| && fs[i].accepts(k)
    requires forall j :: 0 <= j < i ==> !fs[j].accepts(k)
    ensures Overload(fs, k, v) == Ok(fs[i].call(k, v))
  {
    if i > 0 {
      assert !fs[0].accepts(k);
      forall j | 0 <= j < i - 1 ensures !fs[1..][j].accepts(k) {
        assert fs[1..][j] == fs[j + 1];
      }
      OverloadFirstMatch(fs[1..], k, v, i - 1);
    }
  }

  lemma {:induction false} OverloadNoMatch<K, V, R>(fs: seq<Callable<K, V, R>>, k: K, v: V)
    requires |fs| >= 1
    ensures Overload(fs, k, v).Err? <==> forall j :: 0 <= j < |fs| ==> !fs[j].accepts(k)
    ensures Overload(fs, k, v).Err? ==> Overload(fs, k, v).error == NoMatchingOverload
  {
    if !fs[0].accepts(k) && |fs| > 1 {
      OverloadNoMatch(fs[1..], k, v);
      assert forall j :: 1 <= j < |fs| ==> fs[j] == fs[1..][j - 1];
    }
  }

  /** Callables after the first one that admits `k` are never reached: the
      set behaves as its prefix ending at that callable. */
  lemma {:induction false} OverloadShadowed<K, V, R>(fs: seq<Callable<K, V, R>>, k: K, v: V, i: nat)
    requires i < |fs| && fs[i].accepts(k)
    ensures Overload(fs, k, v) == Overload(fs[..i + 1], k, v)
  {
    if i > 0 && !fs[0].accepts(k) {
      assert fs[1..][i - 1] == fs[i];
      OverloadShadowed(fs[1..], k, v, i - 1);
      assert fs[..i + 1][1..] == fs[1..][..i];
    }
  }

  /** With a catch-all candidate somewhere in the set, dispatch never fails. */
  lemma OverloadCatchAll<K, V, R>(fs: seq<Callable<K, V, R>>, k: K, v: V, i: nat)
    requires i < |fs| && forall k' :: fs[i].accepts(k')
    ensures Overload(fs, k, v).Ok?
  {
    assert fs[i].accepts(k);
    OverloadNoMatch(fs, k, v);
  }

  // ---------------------------------------------------------------------
  // Type lists.

  /** Integers: every fixed-width integer type, signed before unsigned of each width. */
  function Integers(): (ts: seq<TypeTag>)
    ensures |ts| == 8
    ensures forall i, j :: 0 <= i < j < |ts| ==> ts[i] != ts[j]
  {
    [I8, U8, I16, U16, I32, U32, I64, U64]
  }

  function SignedIntegers(): (ts: seq<TypeTag>)
    ensures forall i :: 0 <= i < |ts| ==> ts[i].IsSigned()
    ensures forall t: TypeTag :: t.IsSigned() ==> t in ts
  {
    [I8, I16, I32, I64]
  }

  function UnsignedIntegers(): (ts: seq<TypeTag>)
    ensures forall i :: 0 <= i < |ts| ==> !ts[i].IsSigned()
    ensures forall t: TypeTag :: !t.IsSigned() ==> t in ts
  {
    [U8, U16, U32, U64]
  }

  /** tuple_concat_t<Tuples...>: the type lists one after another. */
  function TupleConcat(lists: seq<seq<TypeTag>>): (r: seq<TypeTag>)
    ensures forall t :: t in r <==> exists i :: 0 <= i < |lists| && t in lists[i]
  {
    if lists == [] then [] else lists[0] + TupleConcat(lists[1..])
  }

  /** Concatenation is associative: concatenating two groups of type lists
      is concatenating the two concatenations. */
  lemma {:induction false} TupleConcatAppend(a: seq<seq<TypeTag>>, b: seq<seq<TypeTag>>)
    ensures TupleConcat(a + b) == TupleConcat(a) + TupleConcat(b)
  {
    if a != [] {
      assert (a + b)[1..] == a[1..] + b;
      TupleConcatAppend(a[1..], b);
    } else {
      assert a + b == b;
    }
  }

  lemma IntegersSplit()
    ensures |Integers()| == |TupleConcat([SignedIntegers(), UnsignedIntegers()])|
    ensures forall t: TypeTag :: t in Integers() && t in TupleConcat([SignedIntegers(), UnsignedIntegers()])
  {
    var lists := [SignedIntegers(), UnsignedIntegers()];
    assert lists[1..][1..] == [];
    assert TupleConcat(lists[1..]) == UnsignedIntegers();
    var c := TupleConcat(lists);
    assert c == [I8, I16, I32, I64, U8, U16, U32, U64];
    forall t: TypeTag ensures t in Integers() && t in c {
      match t
      case I8 => assert c[0] == t;
      case I16 => assert c[1] == t;
      case I32 => assert c[2] == t;
      case I64 => assert c[3] == t;
      case U8 => assert c[4] == t;
      case U16 => assert c[5] == t;
      case U32 => assert c[6] == t;
      case U64 => assert c[7] == t;
    }
  }
}
