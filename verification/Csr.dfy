/** The compressed bucket index shared by the adjacency (src/topology.cpp) and
    the reverse path index (src/paths.cpp): count, prefix sums, place by cursor. */
module Csr {
  import opened Base

  /** An entry to be filed: the bucket it belongs to and the value stored. */
  datatype Item = Item(bucket: nat, value: U64)

  predicate InRange(items: seq<Item>, n: nat) {
    forall k :: 0 <= k < |items| ==> items[k].bucket < n
  }

  /** The simple form: the values filed under one bucket, in filing order. */
  function Bucket(items: seq<Item>, i: nat): seq<U64> {
    if |items| == 0 then []
    else Bucket(items[..|items| - 1], i) + Filed(items[|items| - 1], i)
  }

  function Filed(item: Item, i: nat): seq<U64> {
    if item.bucket == i then [item.value] else []
  }

  lemma BucketSnoc(items: seq<Item>, last: Item, i: nat)
    ensures Bucket(items + [last], i) == Bucket(items, i) + Filed(last, i)
  {
    assert (items + [last])[..|items|] == items;
  }

  lemma {:induction false} BucketConcat(a: seq<Item>, b: seq<Item>, i: nat)
    ensures Bucket(a + b, i) == Bucket(a, i) + Bucket(b, i)
  {
    if |b| == 0 {
      assert a + b == a;
    } else {
      BucketConcat(a, b[..|b| - 1], i);
      assert (a + b)[..|a + b| - 1] == a + b[..|b| - 1];
    }
  }

  /** Where bucket i starts. */
  function Start(items: seq<Item>, i: nat): nat {
    if i == 0 then 0 else Start(items, i - 1) + |Bucket(items, i - 1)|
  }

  lemma {:induction false} StartMonotone(items: seq<Item>, i: nat, j: nat)
    requires i <= j
    ensures Start(items, i) <= Start(items, j)
    decreases j - i
  {
    hide Bucket;
    if i < j {
      StartMonotone(items, i, j - 1);
    }
  }

  lemma {:induction false} StartSnoc(items: seq<Item>, last: Item, i: nat)
    ensures Start(items + [last], i) == Start(items, i) + (if last.bucket < i then 1 else 0)
  {
    hide Bucket;
    if i == 0 {
    } else {
      StartSnoc(items, last, i - 1);
      BucketSnoc(items, last, i - 1);
    }
  }

  /** The buckets together hold every entry once. */
  lemma {:induction false} StartTotal(items: seq<Item>, n: nat)
    requires InRange(items, n)
    ensures Start(items, n) == |items|
  {
    if |items| == 0 {
      StartOfNothing(n);
    } else {
      var init, last := items[..|items| - 1], items[|items| - 1];
      assert items == init + [last];
      StartTotal(init, n);
      StartSnoc(init, last, n);
    }
  }

  lemma {:induction false} StartOfNothing(n: nat)
    ensures Start([], n) == 0
  {
    if n == 0 {
    } else {
      StartOfNothing(n - 1);
    }
  }

  /** An index agrees with the simple form. */
  ghost predicate IsIndex(items: seq<Item>, n: nat, offsets: seq<nat>, data: seq<U64>) {
    && |offsets| == n + 1 && offsets[0] == 0 && offsets[n] == |data|
    && forall i {:trigger Bucket(items, i)} :: 0 <= i < n ==> Lists(offsets, data, i, Bucket(items, i))
  }

  /** Slot i of an index lists exactly s. */
  ghost predicate Lists(offsets: seq<nat>, data: seq<U64>, i: nat, s: seq<U64>) {
    i + 1 < |offsets| && offsets[i] <= offsets[i + 1] <= |data| && data[offsets[i]..offsets[i + 1]] == s
  }

  /** The first k entries are in place: each bucket's part of the data begins
      with what was filed under it so far. */
  ghost predicate Placed(items: seq<Item>, k: nat, n: nat, data: seq<U64>)
    requires k <= |items|
  {
    && |data| == |items|
    && forall i :: 0 <= i < n ==> Begins(data, Start(items, i), Bucket(items[..k], i))
  }

  ghost predicate Begins(data: seq<U64>, from: nat, s: seq<U64>) {
    from + |s| <= |data| && data[from..from + |s|] == s
  }

  lemma BucketPrefixShorter(items: seq<Item>, k: nat, i: nat)
    requires k <= |items|
    ensures |Bucket(items[..k], i)| <= |Bucket(items, i)|
    ensures k < |items| && items[k].bucket == i ==> |Bucket(items[..k], i)| < |Bucket(items, i)|
  {
    hide Bucket;
    BucketConcat(items[..k], items[k..], i);
    assert items == items[..k] + items[k..];
    if k < |items| {
      BucketConcat(items[..k + 1], items[k + 1..], i);
      assert items == items[..k + 1] + items[k + 1..];
      BucketSnoc(items[..k], items[k], i);
      assert items[..k + 1] == items[..k] + [items[k]];
    }
  }

  /** Room for the next entry of bucket b lies inside bucket b. */
  lemma CursorInside(items: seq<Item>, k: nat, n: nat)
    requires k < |items| && InRange(items, n)
    ensures var b := items[k].bucket;
            Start(items, b) + |Bucket(items[..k], b)| < Start(items, b + 1) <= |items|
  {
    hide Bucket;
    BucketPrefixShorter(items, k, items[k].bucket);
    StartMonotone(items, items[k].bucket + 1, n);
    StartTotal(items, n);
  }

  /** A write outside a bucket's part leaves it alone. */
  lemma BeginsFramed(data: seq<U64>, from: nat, s: seq<U64>, at: nat, v: U64)
    requires Begins(data, from, s) && at < |data|
    requires at < from || from + |s| <= at
    ensures Begins(data[at := v], from, s)
    ensures at == from + |s| ==> Begins(data[at := v], from, s + [v])
  {
    assert data[at := v][from..from + |s|] == data[from..from + |s|];
  }

  /** Placing the next entry at its bucket's cursor keeps every bucket. */
  lemma PlaceNext(items: seq<Item>, k: nat, n: nat, data: seq<U64>, at: nat)
    requires k < |items| && InRange(items, n) && Placed(items, k, n, data)
    requires at == Start(items, items[k].bucket) + |Bucket(items[..k], items[k].bucket)|
    ensures at < |data| && Placed(items, k + 1, n, data[at := items[k].value])
  {
    hide Bucket, Start, Begins;
    var b := items[k].bucket;
    CursorInside(items, k, n);
    forall i | 0 <= i < n
      ensures Begins(data[at := items[k].value], Start(items, i), Bucket(items[..k + 1], i))
    {
      BucketAdvance(items, k, i);
      PlaceNextIn(items, k, i, data, at);
    }
  }

  lemma BucketAdvance(items: seq<Item>, k: nat, i: nat)
    requires k < |items|
    ensures Bucket(items[..k + 1], i) == Bucket(items[..k], i) + Filed(items[k], i)
  {
    hide Bucket;
    assert items[..k + 1] == items[..k] + [items[k]];
    BucketSnoc(items[..k], items[k], i);
  }

  lemma PlaceNextIn(items: seq<Item>, k: nat, i: nat, data: seq<U64>, at: nat)
    requires k < |items| && at < |data|
    requires Begins(data, Start(items, i), Bucket(items[..k], i))
    requires at == Start(items, items[k].bucket) + |Bucket(items[..k], items[k].bucket)|
    requires at < Start(items, items[k].bucket + 1)
    ensures Begins(data[at := items[k].value], Start(items, i), Bucket(items[..k], i) + Filed(items[k], i))
  {
    hide Bucket, Begins;
    var b := items[k].bucket;
    BucketPrefixShorter(items, k, i);
    assert Start(items, i) + |Bucket(items, i)| == Start(items, i + 1);
    if i < b {
      StartMonotone(items, i + 1, b);
    } else if b < i {
      StartMonotone(items, b + 1, i);
    }
    BeginsFramed(data, Start(items, i), Bucket(items[..k], i), at, items[k].value);
    assert b != i ==> Bucket(items[..k], i) + Filed(items[k], i) == Bucket(items[..k], i);
  }

  /** Count, accumulate, place. */
  method Build(items: seq<Item>, n: nat) returns (offsets: seq<nat>, data: seq<U64>)
    requires InRange(items, n)
    ensures IsIndex(items, n, offsets, data)
  {
    hide Bucket, Begins, Start;
    var counts := Count(items, n);
    offsets := Accumulate(items, n, counts);
    StartTotal(items, n);
    data := Place(items, n, offsets);
    forall i | 0 <= i < n ensures Lists(offsets, data, i, Bucket(items, i)) {
      StartMonotone(items, i + 1, n);
      BucketEnds(items, n, data, i);
    }
    StartZero(items);
  }

  lemma StartZero(items: seq<Item>)
    ensures Start(items, 0) == 0
  {
  }

  lemma BucketEnds(items: seq<Item>, n: nat, data: seq<U64>, i: nat)
    requires i < n && Placed(items, |items|, n, data)
    ensures Start(items, i) <= Start(items, i + 1) <= |data|
    ensures data[Start(items, i)..Start(items, i + 1)] == Bucket(items, i)
  {
    hide Bucket;
    assert items[..|items|] == items;
    assert Begins(data, Start(items, i), Bucket(items[..|items|], i));
  }

  method Count(items: seq<Item>, n: nat) returns (counts: seq<nat>)
    requires InRange(items, n)
    ensures |counts| == n && forall i :: 0 <= i < n ==> counts[i] == |Bucket(items, i)|
  {
    counts := seq(n, _ => 0);
    var k := 0;
    while k < |items|
      invariant 0 <= k <= |items|
      invariant |counts| == n && forall i :: 0 <= i < n ==> counts[i] == |Bucket(items[..k], i)|
    {
      forall i | 0 <= i < n ensures Bucket(items[..k + 1], i) == Bucket(items[..k], i) + Filed(items[k], i) {
        BucketAdvance(items, k, i);
      }
      counts := counts[items[k].bucket := counts[items[k].bucket] + 1];
      k := k + 1;
    }
    assert items[..|items|] == items;
  }

  method Accumulate(items: seq<Item>, n: nat, counts: seq<nat>) returns (offsets: seq<nat>)
    requires |counts| == n && forall i :: 0 <= i < n ==> counts[i] == |Bucket(items, i)|
    ensures |offsets| == n + 1 && forall i :: 0 <= i <= n ==> offsets[i] == Start(items, i)
  {
    hide Bucket;
    offsets := seq(n + 1, _ => 0);
    var i := 0;
    while i < n
      invariant 0 <= i <= n && |offsets| == n + 1
      invariant forall j :: 0 <= j <= i ==> offsets[j] == Start(items, j)
    {
      offsets := offsets[i + 1 := offsets[i] + counts[i]];
      i := i + 1;
    }
  }

  method Place(items: seq<Item>, n: nat, offsets: seq<nat>) returns (data: seq<U64>)
    requires InRange(items, n)
    requires |offsets| == n + 1 && forall i :: 0 <= i <= n ==> offsets[i] == Start(items, i)
    ensures Placed(items, |items|, n, data)
  {
    hide Bucket, Begins, Start, Placed;
    StartTotal(items, n);
    data := seq(offsets[n], _ => 0);
    var cursor := offsets[..n];
    var k := 0;
    PlacedNothing(items, n, data);
    forall i | 0 <= i < n ensures |Bucket(items[..0], i)| == 0 {
      BucketOfNothing(items, i);
    }
    while k < |items|
      invariant 0 <= k <= |items|
      invariant |cursor| == n && forall i :: 0 <= i < n ==> cursor[i] == Start(items, i) + |Bucket(items[..k], i)|
      invariant Placed(items, k, n, data)
    {
      var b := items[k].bucket;
      PlaceNext(items, k, n, data, cursor[b]);
      forall i | 0 <= i < n ensures Bucket(items[..k + 1], i) == Bucket(items[..k], i) + Filed(items[k], i) {
        BucketAdvance(items, k, i);
      }
      data := data[cursor[b] := items[k].value];
      cursor := cursor[b := cursor[b] + 1];
      k := k + 1;
    }
  }

  lemma BucketOfNothing(items: seq<Item>, i: nat)
    ensures Bucket(items[..0], i) == []
  {
  }

  lemma PlacedNothing(items: seq<Item>, n: nat, data: seq<U64>)
    requires InRange(items, n) && |data| == |items|
    ensures Placed(items, 0, n, data)
  {
    hide Bucket, Start;
    StartTotal(items, n);
    forall i | 0 <= i < n ensures Begins(data, Start(items, i), Bucket(items[..0], i)) {
      BucketOfNothing(items, i);
      StartMonotone(items, i, n);
    }
  }
}
