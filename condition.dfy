/**
 * The ready-made checks: AssertResult, Idempotent and Sorted.
 */
module Condition {
  import opened ProtestCommon

  /** AssertResult: a pass when `condition` holds, otherwise a failure whose
      reason is `reason`. */
  function AssertResult(condition: bool, reason: string): (r: CheckResult)
    ensures r.IsTestFailed() <==> !condition
    ensures !condition ==> r.reason == Some(reason)
    ensures condition ==> r == PassedCheck()
  {
    if condition then CheckResult(None) else CheckResult(Some(reason))
  }

  const NotIdempotent: string := "function is not idempotent"
  const NotSorted: string := "given data are not sorted"

  /** Idempotent(f)(x): applying `f` twice gives what applying it once does. */
  function Idempotent<T(==)>(f: T -> T, x: T): (r: CheckResult)
    ensures r.IsTestFailed() <==> f(f(x)) != f(x)
    ensures r.IsTestFailed() ==> r.reason == Some(NotIdempotent)
  {
    var once := f(x);
    AssertResult(once == f(once), NotIdempotent)
  }

  /** An idempotent function passes the check on every argument. */
  lemma IdempotentFunctionPasses<T>(f: T -> T)
    requires forall x :: f(f(x)) == f(x)
    ensures forall x :: !Idempotent(f, x).IsTestFailed()
  {
  }

  /** No adjacent pair (a, b) of `c` has less(a, b): the order Sorted accepts. */
  predicate AdjacentInOrder<T>(c: seq<T>, less: (T, T) -> bool) {
    forall i :: 0 <= i < |c| - 1 ==> !less(c[i], c[i + 1])
  }

  /** Sorted(fun)(param): scans the converted sequence fun(param) adjacent
      pair by adjacent pair and fails at the first pair (a, b) with
      less(a, b). An empty or one-element sequence passes. */
  method Sorted<T>(fun: seq<T> -> seq<T>, less: (T, T) -> bool, param: seq<T>) returns (r: CheckResult)
    ensures r.IsTestFailed() <==> !AdjacentInOrder(fun(param), less)
    ensures r.IsTestFailed() ==> r.reason == Some(NotSorted)
    ensures !r.IsTestFailed() ==> r == PassedCheck()
  {
    r := PassedCheck();
    var converted := fun(param);
    if |converted| != 0 {
      var it := 0;
      var it2 := 1;
      while it2 != |converted|
        invariant it2 == it + 1 <= |converted|
        invariant forall k :: 0 <= k < it ==> !less(converted[k], converted[k + 1])
        invariant r == PassedCheck()
        decreases |converted| - it2
      {
        if less(converted[it], converted[it2]) {
          r := CheckResult(Some(NotSorted));
          break;
        }
        it := it + 1;
        it2 := it2 + 1;
      }
    }
  }

  /** A sequence with no ascent between neighbours. */
  predicate NonIncreasing(c: seq<int>) {
    forall i, j :: 0 <= i < j < |c| ==> c[i] >= c[j]
  }

  /** With the default std::less, Sorted accepts exactly the non-increasing
      sequences: an adjacent-pair scan decides the order of every pair. */
  lemma {:induction false} SortedWithLessIsNonIncreasing(c: seq<int>)
    ensures AdjacentInOrder(c, (a: int, b: int) => a < b) <==> NonIncreasing(c)
  {
    var less := (a: int, b: int) => a < b;
    if AdjacentInOrder(c, less) {
      forall i, j | 0 <= i < j < |c|
        ensures c[i] >= c[j]
      {
        AdjacentChain(c, i, j);
      }
    }
  }

  /** Helper: under AdjacentInOrder with `<`, order carries from i to j. */
  lemma {:induction false} AdjacentChain(c: seq<int>, i: nat, j: nat)
    requires 0 <= i <= j < |c|
    requires AdjacentInOrder(c, (a: int, b: int) => a < b)
    ensures c[i] >= c[j]
    decreases j - i
  {
    if i < j {
      AdjacentChain(c, i + 1, j);
      assert !(c[i] < c[i + 1]);
    }
  }

  /** With std::less_equal instead, Sorted accepts exactly the strictly
      decreasing sequences. */
  lemma {:induction false} SortedWithLessEqualIsDecreasing(c: seq<int>)
    ensures AdjacentInOrder(c, (a: int, b: int) => a <= b) <==>
      forall i, j :: 0 <= i < j < |c| ==> c[i] > c[j]
  {
    if AdjacentInOrder(c, (a: int, b: int) => a <= b) {
      forall i, j | 0 <= i < j < |c|
        ensures c[i] > c[j]
      {
        StrictChain(c, i, j);
      }
    }
  }

  lemma {:induction false} StrictChain(c: seq<int>, i: nat, j: nat)
    requires 0 <= i < j < |c|
    requires AdjacentInOrder(c, (a: int, b: int) => a <= b)
    ensures c[i] > c[j]
    decreases j - i
  {
    assert !(c[i] <= c[i + 1]);
    if i + 1 < j {
      StrictChain(c, i + 1, j);
    }
  }

  /** Sequences of fewer than two elements pass whatever the order. */
  lemma ShortSequencesInOrder<T>(c: seq<T>, less: (T, T) -> bool)
    requires |c| <= 1
    ensures AdjacentInOrder(c, less)
  {
  }
}
