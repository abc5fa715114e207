/** Slot-by-slot work on a compressed index: sorting each slot in place and
    compacting, as both index builders do (src/topology.cpp, src/paths.cpp). */
module Slots {
  import opened Base
  import opened Ordering
  import Csr

  /** An index whose slots are exactly the given lists, end to end. */
  ghost predicate AllListed(offsets: seq<nat>, data: seq<U64>, slots: seq<seq<U64>>) {
    && |offsets| == |slots| + 1 && offsets[0] == 0 && offsets[|slots|] == |data|
    && forall i :: 0 <= i < |slots| ==> Csr.Lists(offsets, data, i, slots[i])
  }

  lemma {:induction false} OffsetsMonotone(offsets: seq<nat>, data: seq<U64>, slots: seq<seq<U64>>, i: nat, j: nat)
    requires AllListed(offsets, data, slots) && i <= j <= |slots|
    ensures offsets[i] <= offsets[j] <= |data|
    decreases j - i
  {
    if i < j {
      assert Csr.Lists(offsets, data, i, slots[i]);
      OffsetsMonotone(offsets, data, slots, i + 1, j);
    } else if j < |slots| {
      assert Csr.Lists(offsets, data, j, slots[j]);
    }
  }

  /** Rewriting one slot with as many entries leaves the others alone. */
  lemma RewriteSlot(offsets: seq<nat>, data: seq<U64>, slots: seq<seq<U64>>, i: nat, filled: seq<U64>)
    requires AllListed(offsets, data, slots) && i < |slots| && |filled| == |slots[i]|
    ensures offsets[i] <= offsets[i + 1] <= |data|
    ensures AllListed(offsets, data[..offsets[i]] + filled + data[offsets[i + 1]..], slots[i := filled])
  {
    OffsetsMonotone(offsets, data, slots, i, i + 1);
    assert Csr.Lists(offsets, data, i, slots[i]);
    var next := data[..offsets[i]] + filled + data[offsets[i + 1]..];
    var after := slots[i := filled];
    forall j | 0 <= j < |slots| ensures Csr.Lists(offsets, next, j, after[j]) {
      assert Csr.Lists(offsets, data, j, slots[j]);
      if j < i {
        OffsetsMonotone(offsets, data, slots, j + 1, i);
      } else if i < j {
        OffsetsMonotone(offsets, data, slots, i + 1, j);
      }
      assert j != i ==> next[offsets[j]..offsets[j + 1]] == data[offsets[j]..offsets[j + 1]];
      assert j == i ==> next[offsets[j]..offsets[j + 1]] == filled;
    }
  }

  function SortedUpTo(slots: seq<seq<U64>>, k: nat): (r: seq<seq<U64>>)
    requires k <= |slots|
    ensures |r| == |slots|
    ensures forall i :: 0 <= i < |slots| ==> r[i] == (if i < k then SortIds(slots[i]) else slots[i])
  {
    seq(|slots|, i requires 0 <= i < |slots| => if i < k then SortIds(slots[i]) else slots[i])
  }

  /** Sorts every slot in place and drops repeated neighbours. The slot's end is
      rewritten as it goes; since no slot repeats an id, it never moves, so the
      next slot still begins where it was placed. */
  method SortSlots(offsets0: seq<nat>, data0: seq<U64>, ghost slots: seq<seq<U64>>)
    returns (offsets: seq<nat>, data: seq<U64>)
    requires AllListed(offsets0, data0, slots)
    requires forall i :: 0 <= i < |slots| ==> Distinct(slots[i])
    ensures offsets == offsets0
    ensures AllListed(offsets, data, SortedUpTo(slots, |slots|))
  {
    hide AllListed, Distinct, Sort, Unique, SortedUpTo;
    offsets, data := offsets0, data0;
    var n := SlotCount(offsets0, data0, slots);
    var i := 0;
    assert SortedUpTo(slots, 0) == slots;
    while i < n
      invariant 0 <= i <= n == |slots|
      invariant offsets == offsets0
      invariant AllListed(offsets, data, SortedUpTo(slots, i))
    {
      SortSlot(offsets, data, slots, i);
      var begin, end := offsets[i], offsets[i + 1];
      var sorted := SortIds(data[begin..end]);
      var kept: seq<U64> := Unique(sorted);
      data := data[..begin] + kept + data[end..];
      offsets := offsets[i + 1 := begin + |kept|];
      i := i + 1;
    }
  }

  /** One turn of the loop: the slot is sorted, nothing repeats, the end stays. */
  lemma SortSlot(offsets: seq<nat>, data: seq<U64>, slots: seq<seq<U64>>, i: nat)
    requires i < |slots| && Distinct(slots[i]) && AllListed(offsets, data, SortedUpTo(slots, i))
    ensures |offsets| == |slots| + 1 && offsets[i] <= offsets[i + 1] <= |data|
    ensures var sorted := SortIds(data[offsets[i]..offsets[i + 1]]);
            && Unique(sorted) == sorted
            && offsets[i] + |sorted| == offsets[i + 1]
            && AllListed(offsets, data[..offsets[i]] + sorted + data[offsets[i + 1]..], SortedUpTo(slots, i + 1))
  {
    hide AllListed, Distinct, Sort, Unique;
    var now := SortedUpTo(slots, i);
    SlotAt(offsets, data, now, i);
    var sorted := SortIds(slots[i]);
    SortDistinctAscending(slots[i]);
    UniqueAscendingIsIdentity(sorted);
    RewriteSlot(offsets, data, now, i, sorted);
    assert now[i := sorted] == SortedUpTo(slots, i + 1);
  }

  method SlotCount(offsets: seq<nat>, data: seq<U64>, ghost slots: seq<seq<U64>>) returns (n: nat)
    requires AllListed(offsets, data, slots)
    ensures n == |slots| && |offsets| == n + 1
  {
    n := |offsets| - 1;
  }

  lemma SlotAt(offsets: seq<nat>, data: seq<U64>, slots: seq<seq<U64>>, i: nat)
    requires AllListed(offsets, data, slots) && i < |slots|
    ensures |offsets| == |slots| + 1 && offsets[i] <= offsets[i + 1] <= |data|
    ensures data[offsets[i]..offsets[i + 1]] == slots[i]
  {
    assert Csr.Lists(offsets, data, i, slots[i]);
  }

  /** Copies the slots one after the other into a fresh vector. */
  method Compact(offsets: seq<nat>, data: seq<U64>, ghost slots: seq<seq<U64>>)
    returns (newOffsets: seq<nat>, compact: seq<U64>)
    requires AllListed(offsets, data, slots)
    ensures AllListed(newOffsets, compact, slots)
  {
    hide AllListed;
    var n := SlotCount(offsets, data, slots);
    compact, newOffsets := [], [0];
    ListedNothing(slots);
    var i := 0;
    while i < n
      invariant 0 <= i <= n == |slots| && |offsets| == n + 1
      invariant AllListed(newOffsets, compact, slots[..i])
    {
      SlotAt(offsets, data, slots, i);
      ListedSnoc(newOffsets, compact, slots[..i], slots[i]);
      assert slots[..i] + [slots[i]] == slots[..i + 1];
      var from, k := compact, offsets[i];
      while k < offsets[i + 1]
        invariant offsets[i] <= k <= offsets[i + 1] <= |data|
        invariant compact == from + data[offsets[i]..k]
      {
        compact := compact + [data[k]];
        k := k + 1;
      }
      newOffsets := newOffsets + [|compact|];
      i := i + 1;
    }
    assert slots[..n] == slots;
  }

  lemma ListedNothing(slots: seq<seq<U64>>)
    ensures AllListed([0], [], slots[..0])
  {
  }

  lemma ListedSnoc(offsets: seq<nat>, data: seq<U64>, slots: seq<seq<U64>>, more: seq<U64>)
    requires AllListed(offsets, data, slots)
    ensures AllListed(offsets + [|data| + |more|], data + more, slots + [more])
  {
    var offsets', data', slots' := offsets + [|data| + |more|], data + more, slots + [more];
    forall i | 0 <= i < |slots'| ensures Csr.Lists(offsets', data', i, slots'[i]) {
      if i < |slots| {
        assert Csr.Lists(offsets, data, i, slots[i]);
        assert data'[offsets[i]..offsets[i + 1]] == data[offsets[i]..offsets[i + 1]];
      }
    }
  }
}
