/**
 * Case generators: pull-style sources of candidate values of one integer
 * type. Each call returns an optional value; a finite source returns
 * `None` forever once it is exhausted, the random source never does.
 */
module CaseGen {
  import opened ProtestCommon

  /** What a source draws from.
      - NoneSource: case_gen::None, never yields.
      - PoolSource: IterableSource / Pool over a copied container.
      - RandomSource: Random built from a caller-supplied rng; `rng(k)` is
        what the rng returns on its k-th call. */
  datatype SourceKind = NoneSource | PoolSource(items: seq<int>) | RandomSource(rng: nat -> int)

  /** The values a source holds are values of its type. */
  predicate ValidKind(t: TypeTag, kind: SourceKind) {
    kind.PoolSource? ==> forall i :: 0 <= i < |kind.items| ==> t.InRange(kind.items[i])
  }

  /** The result of a pull when `cursor` values have been yielded so far.
      The random source converts what its rng returns to `t`, as storing
      the rng in a std::function<T()> does. */
  function Output(t: TypeTag, kind: SourceKind, cursor: nat): (r: Option<int>)
    requires ValidKind(t, kind)
    ensures r.Some? ==> t.InRange(r.value)
  {
    match kind
    case NoneSource => None
    case PoolSource(items) => if cursor < |items| then Some(items[cursor]) else None
    case RandomSource(rng) => Some(Cast(t, rng(cursor)))
  }

  /** The cursor after a pull: it advances only when a value is yielded. */
  function NextCursor(t: TypeTag, kind: SourceKind, cursor: nat): (r: nat)
    requires ValidKind(t, kind)
    ensures kind.NoneSource? ==> r == cursor
    ensures kind.RandomSource? ==> r == cursor + 1
    ensures kind.PoolSource? ==> r == (if cursor < |kind.items| then cursor + 1 else cursor)
  {
    if Output(t, kind, cursor).Some? then cursor + 1 else cursor
  }

  /** The results of `n` successive pulls starting at `cursor`. */
  function Pulls(t: TypeTag, kind: SourceKind, cursor: nat, n: nat): (rs: seq<Option<int>>)
    requires ValidKind(t, kind)
    ensures |rs| == n
    decreases n
  {
    if n == 0 then []
    else [Output(t, kind, cursor)] + Pulls(t, kind, NextCursor(t, kind, cursor), n - 1)
  }

  /** The values among a run of pull results, in order. */
  function Yielded(rs: seq<Option<int>>): (vs: seq<int>)
    ensures |vs| <= |rs|
  {
    if rs == [] then []
    else (if rs[0].Some? then [rs[0].value] else []) + Yielded(rs[1..])
  }

  /** `n` empty results. */
  function Nones(n: nat): (rs: seq<Option<int>>)
    ensures |rs| == n && forall i :: 0 <= i < n ==> rs[i] == None
  {
    seq(n, _ => None)
  }

  /** `xs` as yielded values, one per pull. */
  function Somes(xs: seq<int>): (rs: seq<Option<int>>)
    ensures |rs| == |xs| && forall i :: 0 <= i < |xs| ==> rs[i] == Some(xs[i])
  {
    seq(|xs|, i requires 0 <= i < |xs| => Some(xs[i]))
  }

  /** case_gen::None yields nothing, however often it is called. */
  lemma {:induction false} NoneNeverYields(t: TypeTag, cursor: nat, n: nat)
    ensures Pulls(t, NoneSource, cursor, n) == Nones(n)
  {
    if n > 0 {
      NoneNeverYields(t, cursor, n - 1);
    }
  }

  /** A pool yields the rest of its container in order, one element per
      call, and then nothing on every later call. */
  lemma {:induction false} PoolDrains(t: TypeTag, xs: seq<int>, cursor: nat, m: nat)
    requires ValidKind(t, PoolSource(xs)) && cursor <= |xs|
    ensures Pulls(t, PoolSource(xs), cursor, |xs| - cursor + m) == Somes(xs[cursor..]) + Nones(m)
    decreases |xs| - cursor
  {
    var kind := PoolSource(xs);
    if cursor == |xs| {
      NoneTail(t, xs, m);
      assert Somes(xs[cursor..]) == [];
    } else {
      PoolDrains(t, xs, cursor + 1, m);
      assert Somes(xs[cursor..]) == [Some(xs[cursor])] + Somes(xs[cursor + 1..]);
    }
  }

  /** An exhausted pool stays exhausted. */
  lemma {:induction false} NoneTail(t: TypeTag, xs: seq<int>, m: nat)
    requires ValidKind(t, PoolSource(xs))
    ensures Pulls(t, PoolSource(xs), |xs|, m) == Nones(m)
  {
    if m > 0 {
      NoneTail(t, xs, m - 1);
    }
  }

  lemma {:induction false} YieldedSomesNones(xs: seq<int>, m: nat)
    ensures Yielded(Somes(xs) + Nones(m)) == xs
  {
    if xs == [] {
      assert Somes(xs) + Nones(m) == Nones(m);
      NonesYieldNothing(m);
    } else {
      assert (Somes(xs) + Nones(m))[1..] == Somes(xs[1..]) + Nones(m);
      YieldedSomesNones(xs[1..], m);
    }
  }

  lemma {:induction false} NonesYieldNothing(m: nat)
    ensures Yielded(Nones(m)) == []
  {
    if m > 0 {
      assert Nones(m)[1..] == Nones(m - 1);
      NonesYieldNothing(m - 1);
    }
  }

  /** A fresh pool over `xs`, pulled any number of times past its length,
      yields exactly the elements of `xs`: as many non-empty results as the
      container has elements. */
  lemma PoolYieldsContainer(t: TypeTag, xs: seq<int>, m: nat)
    requires ValidKind(t, PoolSource(xs))
    ensures Yielded(Pulls(t, PoolSource(xs), 0, |xs| + m)) == xs
    ensures |Yielded(Pulls(t, PoolSource(xs), 0, |xs| + m))| == |xs|
  {
    PoolDrains(t, xs, 0, m);
    assert xs[0..] == xs;
    YieldedSomesNones(xs, m);
  }

  /** A Random source never returns empty, and its k-th result is the rng's
      k-th value converted to the source's type. */
  lemma {:induction false} RandomAlwaysYields(t: TypeTag, rng: nat -> int, cursor: nat, n: nat)
    ensures forall i :: 0 <= i < n ==> Pulls(t, RandomSource(rng), cursor, n)[i] == Some(Cast(t, rng(cursor + i)))
    decreases n
  {
    if n > 0 {
      RandomAlwaysYields(t, rng, cursor + 1, n - 1);
      var rs := Pulls(t, RandomSource(rng), cursor, n);
      assert rs[1..] == Pulls(t, RandomSource(rng), cursor + 1, n - 1);
      forall i | 0 <= i < n ensures rs[i] == Some(Cast(t, rng(cursor + i))) {
        if i > 0 {
          assert rs[i] == rs[1..][i - 1];
        }
      }
    }
  }

  // ---------------------------------------------------------------------
  // Edge tables.

  /** The type an operand of type `t` is promoted to in C++ arithmetic
      (`int` is 32 bits wide). */
  function Promoted(t: TypeTag): TypeTag {
    if t.Width() < 32 then I32 else t
  }

  /** `signed_limits::max()+1` of the unsigned Edge table as written: the
      sum is computed in the promoted signed type, and `None` stands for
      the signed overflow (undefined behaviour) when it does not fit. */
  function SignedMaxPlusOneAsWritten(t: TypeTag): (r: Option<int>)
    requires !t.IsSigned()
    ensures r.None? <==> t.Width() >= 32
    ensures r.Some? ==> r.value == t.Modulus() / 2
  {
    var s := t.MakeSigned();
    if Promoted(s).InRange(s.Max() + 1) then Some(s.Max() + 1) else None
  }

  /** The sum overflows for 32- and 64-bit unsigned types and is fine for
      the narrower ones, where it agrees with the value the table uses. */
  lemma SignedMaxPlusOneOverflows()
    ensures SignedMaxPlusOneAsWritten(U32) == None
    ensures SignedMaxPlusOneAsWritten(U64) == None
    ensures SignedMaxPlusOneAsWritten(U8) == Some(EdgeValues(U8)[7])
    ensures SignedMaxPlusOneAsWritten(U16) == Some(EdgeValues(U16)[7])
  {
  }

  /** The Edge table of an integer type, in the order it is yielded. For
      unsigned types the last three entries are the signed type's max,
      max - 1 and max + 1 converted to the unsigned type; max + 1 is taken
      in unbounded arithmetic. */
  function EdgeValues(t: TypeTag): (vs: seq<int>)
    ensures forall i :: 0 <= i < |vs| ==> t.InRange(vs[i])
  {
    if t.IsSigned() then
      [0, 1, -1, 2, -2, t.Min(), t.Min() + 1, t.Max(), t.Max() - 1]
    else
      var s := t.MakeSigned();
      [0, 1, 2, t.Max(), t.Max() - 1, Cast(t, s.Max()), Cast(t, s.Max() - 1), Cast(t, s.Max() + 1)]
  }

  /** Signed Edge: 0, 1, -1, 2, -2, MIN, MIN+1, MAX, MAX-1. */
  lemma SignedEdgeTable(t: TypeTag)
    requires t.IsSigned()
    ensures |EdgeValues(t)| == 9
    ensures EdgeValues(t) == [0, 1, -1, 2, -2, -(t.Modulus() as int) / 2, -(t.Modulus() as int) / 2 + 1,
                              t.Modulus() / 2 - 1, t.Modulus() / 2 - 2]
  {
  }

  /** Unsigned Edge: 0, 1, 2, MAX, MAX-1, then 2^(w-1)-1, 2^(w-1)-2, 2^(w-1). */
  lemma UnsignedEdgeTable(t: TypeTag)
    requires !t.IsSigned()
    ensures |EdgeValues(t)| == 8
    ensures EdgeValues(t) == [0, 1, 2, t.Modulus() - 1, t.Modulus() - 2,
                              t.Modulus() / 2 - 1, t.Modulus() / 2 - 2, t.Modulus() / 2]
  {
  }

  // ---------------------------------------------------------------------
  // The generator objects.

  /** A case generator of type `tag`: what it draws from and how many values
      it has yielded (the iterator `m_it` of an IterableSource, the number of
      rng calls of a Random). */
  class Source {
    const tag: TypeTag
    const kind: SourceKind
    var cursor: nat

    ghost predicate Valid()
      reads this
    {
      && ValidKind(tag, kind)
      && (kind.PoolSource? ==> cursor <= |kind.items|)
      && (kind.NoneSource? ==> cursor == 0)
    }

    /** case_gen::None<T> */
    constructor Empty(t: TypeTag)
      ensures Valid() && tag == t && kind == NoneSource && cursor == 0
    {
      tag, kind, cursor := t, NoneSource, 0;
    }

    /** Pool<vector<T>> over a copy of `items`; an IterableSource over a
      container is the same cursor over the container's elements. */
    constructor Pool(t: TypeTag, items: seq<int>)
      requires forall i :: 0 <= i < |items| ==> t.InRange(items[i])
      ensures Valid() && tag == t && kind == PoolSource(items) && cursor == 0
    {
      tag, kind, cursor := t, PoolSource(items), 0;
    }

    /** Edge<T>: a Pool over the type's edge table. */
    constructor Edge(t: TypeTag)
      ensures Valid() && tag == t && kind == PoolSource(EdgeValues(t)) && cursor == 0
    {
      tag, kind, cursor := t, PoolSource(EdgeValues(t)), 0;
    }

    /** Random<T>(rng) with a caller-supplied rng. */
    constructor Random(t: TypeTag, rng: nat -> int)
      ensures Valid() && tag == t && kind == RandomSource(rng) && cursor == 0
    {
      tag, kind, cursor := t, RandomSource(rng), 0;
    }

    /** operator(): the next value, or None once a finite source is exhausted. */
    method Next() returns (r: Option<int>)
      requires Valid()
      modifies this
      ensures Valid()
      ensures r == Output(tag, kind, old(cursor))
      ensures cursor == NextCursor(tag, kind, old(cursor))
    {
      match kind
      case NoneSource =>
        r := None;
      case PoolSource(items) =>
        if cursor < |items| {
          r := Some(items[cursor]);
          cursor := cursor + 1;
        } else {
          r := None;
        }
      case RandomSource(rng) =>
        r := Some(Cast(tag, rng(cursor)));
        cursor := cursor + 1;
    }
  }

  /** makePool<T>({...}): a pool over a vector<T> copy of the list. */
  method MakePool(t: TypeTag, items: seq<int>) returns (g: Source)
    requires forall i :: 0 <= i < |items| ==> t.InRange(items[i])
    ensures fresh(g) && g.Valid()
    ensures g.tag == t && g.kind == PoolSource(items) && g.cursor == 0
  {
    g := new Source.Pool(t, items);
  }
}
