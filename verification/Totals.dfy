/** Sums over vectors: exact, and as the saturating accumulations of the
    source compute them. */
module Totals {
  import opened Base
  import opened Checked
  import opened Ordering

  function Total<T>(s: seq<T>, w: T -> U64): nat {
    if |s| == 0 then 0 else Total(s[..|s| - 1], w) + w(s[|s| - 1])
  }

  /** A left-to-right accumulation with saturating addition. */
  function Accumulated<T>(s: seq<T>, w: T -> U64): U64 {
    if |s| == 0 then 0 else SatAdd(Accumulated(s[..|s| - 1], w), w(s[|s| - 1]))
  }

  lemma AccumulatedSnoc<T>(s: seq<T>, x: T, w: T -> U64)
    ensures Accumulated(s + [x], w) == SatAdd(Accumulated(s, w), w(x))
  {
    assert (s + [x])[..|s|] == s;
  }

  /** Saturating accumulation is the true sum, clamped. */
  lemma {:induction false} AccumulatedIsClampedTotal<T>(s: seq<T>, w: T -> U64)
    ensures Accumulated(s, w) == Min(Total(s, w), U64_MAX)
  {
    if |s| == 0 {
    } else {
      AccumulatedIsClampedTotal(s[..|s| - 1], w);
    }
  }

  lemma {:induction false} TotalMonotone<T>(s: seq<T>, v: T -> U64, w: T -> U64)
    requires forall i :: 0 <= i < |s| ==> v(s[i]) <= w(s[i])
    ensures Total(s, v) <= Total(s, w)
  {
    if |s| == 0 {
    } else {
      TotalMonotone(s[..|s| - 1], v, w);
    }
  }

  /** Pointwise smaller weights accumulate to a smaller or equal total, even
      where the accumulation saturates. */
  lemma AccumulatedMonotone<T>(s: seq<T>, v: T -> U64, w: T -> U64)
    requires forall i :: 0 <= i < |s| ==> v(s[i]) <= w(s[i])
    ensures Accumulated(s, v) <= Accumulated(s, w)
  {
    TotalMonotone(s, v, w);
    AccumulatedIsClampedTotal(s, v);
    AccumulatedIsClampedTotal(s, w);
  }

  lemma {:induction false} TotalUpdate<T>(s: seq<T>, i: nat, x: T, w: T -> U64)
    requires i < |s|
    ensures Total(s[i := x], w) == Total(s, w) - w(s[i]) + w(x)
  {
    var init := s[..|s| - 1];
    if i < |s| - 1 {
      TotalUpdate(init, i, x, w);
      assert s[i := x][..|s| - 1] == init[i := x];
    } else {
      assert s[i := x][..|s| - 1] == init;
    }
  }

  lemma {:induction false} TotalCons<T>(x: T, s: seq<T>, w: T -> U64)
    ensures Total([x] + s, w) == w(x) + Total(s, w)
  {
    if |s| == 0 {
      assert [x] + s == [x];
      assert [x][..0] == [];
    } else {
      TotalCons(x, s[..|s| - 1], w);
      assert ([x] + s)[..|s|] == [x] + s[..|s| - 1];
    }
  }

  lemma {:induction false} TotalInsert<T>(x: T, s: seq<T>, key: T -> int, w: T -> U64)
    ensures Total(InsertBy(x, s, key), w) == w(x) + Total(s, w)
  {
    TotalCons(x, s, w);
    if |s| == 0 {
      assert [x] + s == [x];
    } else if key(x) > key(s[0]) {
      TotalInsert(x, s[1..], key, w);
      TotalCons(s[0], InsertBy(x, s[1..], key), w);
      TotalCons(s[0], s[1..], w);
      assert s == [s[0]] + s[1..];
    }
  }

  lemma SortStep<T>(s: seq<T>, key: T -> int)
    requires |s| > 0
    ensures SortBy(s, key) == InsertBy(s[0], SortBy(s[1..], key), key)
  {
    hide InsertBy;
  }

  lemma SortNothing<T>(s: seq<T>, key: T -> int)
    requires |s| == 0
    ensures SortBy(s, key) == s
  {
  }

  /** Sorting changes no total. */
  lemma {:induction false} TotalSort<T>(s: seq<T>, key: T -> int, w: T -> U64)
    ensures Total(SortBy(s, key), w) == Total(s, w)
  {
    hide SortBy, InsertBy, Total;
    if |s| == 0 {
      SortNothing(s, key);
    } else {
      var rest := s[1..];
      SortStep(s, key);
      TotalSort(rest, key, w);
      TotalInsert(s[0], SortBy(rest, key), key, w);
      TotalCons(s[0], rest, w);
      assert s == [s[0]] + rest;
    }
  }

  lemma TotalOfNothing<T>(s: seq<T>, w: T -> U64)
    requires s == []
    ensures Total(s, w) == 0
  {
  }
}
