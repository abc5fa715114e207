/** Path evidence (src/paths.cpp): validation and the reverse index from a
    resource to the paths that traverse it. */
module PathIndex {
  import opened Base
  import opened Model
  import opened Ordering
  import opened Building
  import opened Slots
  import Csr

  // ----- validation ------------------------------------------------------------

  function PathKey(p: PathRecord): int { p.id }

  function CheckPath(before: Option<PathRecord>, p: PathRecord): Option<ErrorCode> {
    if p.id == 0 || (before.Some? && before.value.id == p.id) || |p.hops| == 0 then Some(InvalidArgument)
    else if |p.hops| > MAX_HOPS then Some(BoundExceeded)
    else if 0 in p.hops then Some(InvalidArgument)
    else None
  }

  function BuildPaths(raw: seq<PathRecord>): Result<seq<PathRecord>> {
    if |raw| > MAX_PATHS then Err(BoundExceeded) else BuildSorted(raw, PathKey, CheckPath)
  }

  ghost predicate ValidPaths(ps: seq<PathRecord>) {
    && |ps| <= MAX_PATHS && StrictBy(ps, PathKey)
    && forall i :: 0 <= i < |ps| ==> ps[i].id != 0 && 0 < |ps[i].hops| <= MAX_HOPS && 0 !in ps[i].hops
  }

  lemma BuildPathsMeaning(raw: seq<PathRecord>)
    requires BuildPaths(raw).Ok?
    ensures var ps := BuildPaths(raw).value;
            ValidPaths(ps) && multiset(ps) == multiset(raw) && BuildPaths(ps) == Ok(ps)
  {
    hide SortBy;
    BuildSortedMeaning(raw, PathKey, CheckPath);
    var ps := BuildPaths(raw).value;
    forall i | 0 <= i < |ps| ensures ps[i].id != 0 && 0 < |ps[i].hops| <= MAX_HOPS && 0 !in ps[i].hops {
      assert CheckPath(Before(ps, i), ps[i]).None?;
    }
  }

  // ----- the simple form -----------------------------------------------------------

  /** The positions of the paths that traverse r, in order. */
  function Through(ps: seq<PathRecord>, r: U64): (t: seq<nat>)
    ensures |t| <= |ps|
  {
    if |ps| == 0 then []
    else Through(ps[..|ps| - 1], r) + (if r in ps[|ps| - 1].hops then [|ps| - 1] else [])
  }

  lemma {:induction false} ThroughMember(ps: seq<PathRecord>, r: U64, p: int)
    ensures p in Through(ps, r) <==> 0 <= p < |ps| && r in ps[p].hops
  {
    if |ps| == 0 {
    } else {
      var init := ps[..|ps| - 1];
      ThroughMember(init, r, p);
      assert 0 <= p < |init| ==> init[p] == ps[p];
    }
  }

  lemma {:induction false} ThroughAscending(ps: seq<PathRecord>, r: U64)
    ensures Ascending(Through(ps, r)) && forall k :: 0 <= k < |Through(ps, r)| ==> Through(ps, r)[k] < |ps|
  {
    if |ps| == 0 {
    } else {
      ThroughAscending(ps[..|ps| - 1], r);
    }
  }

  /** Ascending, and exactly the paths whose hops contain r, once each. */
  lemma ThroughMeaning(ps: seq<PathRecord>, r: U64)
    ensures Ascending(Through(ps, r))
    ensures forall p :: p in Through(ps, r) <==> 0 <= p < |ps| && r in ps[p].hops
  {
    hide Through;
    ThroughAscending(ps, r);
    forall p ensures p in Through(ps, r) <==> 0 <= p < |ps| && r in ps[p].hops {
      ThroughMember(ps, r, p);
    }
  }

  // ----- the index ---------------------------------------------------------------------

  function UniqueHops(p: PathRecord): (r: seq<U64>)
    ensures Ascending(r) && forall x :: x in r <==> x in p.hops
  {
    UniqueIds(p.hops)
  }

  function AllHops(ps: seq<PathRecord>): seq<U64> {
    if |ps| == 0 then [] else AllHops(ps[..|ps| - 1]) + ps[|ps| - 1].hops
  }

  /** Every resource some path traverses, ascending. */
  function Listed(ps: seq<PathRecord>): (r: seq<U64>)
    ensures Ascending(r) && forall x :: x in r <==> x in AllHops(ps)
  {
    UniqueIds(AllHops(ps))
  }

  function IdKey(x: U64): int { x }

  function Slot(listed: seq<U64>, r: U64): nat { LowerBound(listed, IdKey, r) }

  lemma SlotExact(listed: seq<U64>, r: U64)
    requires Ascending(listed) && r in listed
    ensures Slot(listed, r) < |listed| && listed[Slot(listed, r)] == r
    ensures forall i :: 0 <= i < |listed| ==> (i == Slot(listed, r) <==> listed[i] == r)
  {
    var k :| 0 <= k < |listed| && listed[k] == r;
    assert k < Slot(listed, r) ==> IdKey(listed[k]) < r;
    assert Slot(listed, r) < |listed| ==> r <= IdKey(listed[Slot(listed, r)]);
  }

  function HopItems(listed: seq<U64>, hops: seq<U64>, p: nat): seq<Csr.Item>
    requires p < MAX_PATHS
  {
    if |hops| == 0 then []
    else HopItems(listed, hops[..|hops| - 1], p) + [Csr.Item(Slot(listed, hops[|hops| - 1]), p)]
  }

  function PathItems(listed: seq<U64>, ps: seq<PathRecord>): seq<Csr.Item>
    requires |ps| <= MAX_PATHS
  {
    if |ps| == 0 then []
    else PathItems(listed, ps[..|ps| - 1]) + HopItems(listed, UniqueHops(ps[|ps| - 1]), |ps| - 1)
  }

  lemma {:induction false} HopItemsBucket(listed: seq<U64>, hops: seq<U64>, p: nat, i: nat)
    requires p < MAX_PATHS && Ascending(listed) && Ascending(hops) && i < |listed|
    requires forall x :: x in hops ==> x in listed
    ensures Csr.InRange(HopItems(listed, hops, p), |listed|)
    ensures Csr.Bucket(HopItems(listed, hops, p), i) == if listed[i] in hops then [p] else []
  {
    hide Csr.Bucket, Slot;
    if |hops| == 0 {
      Csr.BucketOfNothing([], i);
    } else {
      var init, last := hops[..|hops| - 1], hops[|hops| - 1];
      assert hops == init + [last];
      HopItemsBucket(listed, init, p, i);
      assert last in hops;
      SlotExact(listed, last);
      Csr.BucketSnoc(HopItems(listed, init, p), Csr.Item(Slot(listed, last), p), i);
    }
  }

  lemma {:induction false} HopsListed(ps: seq<PathRecord>, p: nat, x: U64)
    requires p < |ps| && x in ps[p].hops
    ensures x in AllHops(ps)
  {
    if p < |ps| - 1 {
      HopsListed(ps[..|ps| - 1], p, x);
    }
  }

  lemma {:induction false} PathItemsBucket(listed: seq<U64>, ps: seq<PathRecord>, i: nat)
    requires |ps| <= MAX_PATHS && Ascending(listed) && i < |listed|
    requires forall p, x :: 0 <= p < |ps| && x in ps[p].hops ==> x in listed
    ensures Csr.InRange(PathItems(listed, ps), |listed|)
    ensures Csr.Bucket(PathItems(listed, ps), i) == Through(ps, listed[i])
  {
    hide Csr.Bucket, UniqueHops, HopItems;
    if |ps| == 0 {
      Csr.BucketOfNothing([], i);
    } else {
      var init, last := ps[..|ps| - 1], ps[|ps| - 1];
      assert forall p :: 0 <= p < |init| ==> init[p] == ps[p];
      PathItemsBucket(listed, init, i);
      assert last == ps[|ps| - 1];
      HopItemsBucket(listed, UniqueHops(last), |ps| - 1, i);
      Csr.BucketConcat(PathItems(listed, init), HopItems(listed, UniqueHops(last), |ps| - 1), i);
    }
  }

  lemma {:induction false} HopItemsInRange(listed: seq<U64>, hops: seq<U64>, p: nat)
    requires p < MAX_PATHS && Ascending(listed) && forall x :: x in hops ==> x in listed
    ensures Csr.InRange(HopItems(listed, hops, p), |listed|)
  {
    hide Slot;
    if |hops| == 0 {
    } else {
      HopItemsInRange(listed, hops[..|hops| - 1], p);
      assert hops[|hops| - 1] in hops;
      SlotExact(listed, hops[|hops| - 1]);
    }
  }

  lemma {:induction false} PathItemsInRange(listed: seq<U64>, ps: seq<PathRecord>)
    requires |ps| <= MAX_PATHS && Ascending(listed)
    requires forall p, x :: 0 <= p < |ps| && x in ps[p].hops ==> x in listed
    ensures Csr.InRange(PathItems(listed, ps), |listed|)
  {
    hide UniqueHops, HopItems;
    if |ps| == 0 {
    } else {
      var init := ps[..|ps| - 1];
      assert forall p :: 0 <= p < |init| ==> init[p] == ps[p];
      PathItemsInRange(listed, init);
      HopItemsInRange(listed, UniqueHops(ps[|ps| - 1]), |ps| - 1);
    }
  }

  datatype ReverseIndex = ReverseIndex(resources: seq<U64>, offsets: seq<nat>, paths: seq<U64>)

  function ThroughSlots(ps: seq<PathRecord>): (r: seq<seq<U64>>)
    requires |ps| <= MAX_PATHS
    ensures |r| == |Listed(ps)| && forall i :: 0 <= i < |r| ==> r[i] == Through(ps, Listed(ps)[i])
  {
    var listed := Listed(ps);
    seq(|listed|, i requires 0 <= i < |listed| => ThroughIds(ps, listed[i]))
  }

  function ThroughIds(ps: seq<PathRecord>, r: U64): (t: seq<U64>)
    requires |ps| <= MAX_PATHS
    ensures t == Through(ps, r)
  {
    ThroughMeaning(ps, r);
    var t := Through(ps, r);
    assert forall k :: 0 <= k < |t| ==> t[k] in t;
    t
  }

  ghost predicate ReverseOf(ps: seq<PathRecord>, ix: ReverseIndex) {
    |ps| <= MAX_PATHS && ix.resources == Listed(ps) && AllListed(ix.offsets, ix.paths, ThroughSlots(ps))
  }

  lemma IndexListsThrough(ps: seq<PathRecord>, offsets: seq<nat>, data: seq<U64>)
    requires |ps| <= MAX_PATHS
    requires Csr.IsIndex(PathItems(Listed(ps), ps), |Listed(ps)|, offsets, data)
    ensures AllListed(offsets, data, ThroughSlots(ps))
  {
    hide Listed, PathItems, Through, Csr.Lists;
    var slots, listed := ThroughSlots(ps), Listed(ps);
    ItemsCovered(ps);
    forall i | 0 <= i < |slots| ensures Csr.Lists(offsets, data, i, slots[i]) {
      PathItemsBucket(listed, ps, i);
    }
  }

  lemma ItemsCovered(ps: seq<PathRecord>)
    ensures forall p, x :: 0 <= p < |ps| && x in ps[p].hops ==> x in Listed(ps)
  {
    hide Listed;
    forall p, x | 0 <= p < |ps| && x in ps[p].hops ensures x in Listed(ps) {
      HopsListed(ps, p, x);
    }
  }

  method GatherHops(ps: seq<PathRecord>) returns (listed: seq<U64>)
    ensures listed == Listed(ps)
  {
    var all: seq<U64> := [];
    for p := 0 to |ps|
      invariant all == AllHops(ps[..p])
    {
      assert ps[..p + 1][..p] == ps[..p];
      all := all + ps[p].hops;
    }
    assert ps[..|ps|] == ps;
    listed := UniqueIds(all);
  }

  /** Files each path under every resource it traverses, once. */
  method FilePaths(listed: seq<U64>, ps: seq<PathRecord>) returns (items: seq<Csr.Item>)
    requires |ps| <= MAX_PATHS
    ensures items == PathItems(listed, ps)
  {
    hide Slot, UniqueHops;
    items := [];
    for p := 0 to |ps|
      invariant items == PathItems(listed, ps[..p])
    {
      ghost var base := items;
      var hops := UniqueHops(ps[p]);
      for k := 0 to |hops|
        invariant items == base + HopItems(listed, hops[..k], p)
      {
        assert hops[..k + 1][..k] == hops[..k];
        items := items + [Csr.Item(Slot(listed, hops[k]), p)];
      }
      assert hops[..|hops|] == hops;
      assert ps[..p + 1][..p] == ps[..p];
    }
    assert ps[..|ps|] == ps;
  }

  /** The reverse index of build(): gather, file, count, place, sort slots. */
  method BuildReverse(ps: seq<PathRecord>) returns (ix: ReverseIndex)
    requires ValidPaths(ps)
    ensures ReverseOf(ps, ix)
  {
    hide AllListed, Csr.IsIndex, Csr.InRange, Listed, PathItems, Through;
    var listed := GatherHops(ps);
    var items := FilePaths(listed, ps);
    ItemsCovered(ps);
    PathItemsInRange(listed, ps);
    var offsets, data := Csr.Build(items, |listed|);
    IndexListsThrough(ps, offsets, data);
    var n := SlotCount(offsets, data, ThroughSlots(ps));
    var i := 0;
    while i < n
      invariant 0 <= i <= n == |listed|
      invariant AllListed(offsets, data, ThroughSlots(ps))
    {
      SlotAt(offsets, data, ThroughSlots(ps), i);
      ThroughMeaning(ps, listed[i]);
      SortAscendingIsIdentity(ThroughSlots(ps)[i]);
      RewriteSlot(offsets, data, ThroughSlots(ps), i, ThroughSlots(ps)[i]);
      assert ThroughSlots(ps)[i := ThroughSlots(ps)[i]] == ThroughSlots(ps);
      data := data[..offsets[i]] + SortIds(data[offsets[i]..offsets[i + 1]]) + data[offsets[i + 1]..];
      i := i + 1;
    }
    ix := ReverseIndex(listed, offsets, data);
  }

  /** paths_through(r): the slice of the reverse index. */
  function PathsThrough(ps: seq<PathRecord>, ix: ReverseIndex, r: U64): (t: seq<U64>)
    requires ValidPaths(ps) && ReverseOf(ps, ix)
    ensures t == Through(ps, r)
  {
    ThroughMeaning(ps, r);
    NotListedNoPaths(ps, r);
    if r == 0 then []
    else
      var at := Slot(ix.resources, r);
      if at == |ix.resources| || ix.resources[at] != r then []
      else
        SlotAt(ix.offsets, ix.paths, ThroughSlots(ps), at);
        ix.paths[ix.offsets[at]..ix.offsets[at + 1]]
  }

  lemma NotListedNoPaths(ps: seq<PathRecord>, r: U64)
    requires ValidPaths(ps)
    ensures r == 0 || Slot(Listed(ps), r) == |Listed(ps)| || Listed(ps)[Slot(Listed(ps), r)] != r ==>
        Through(ps, r) == []
  {
    hide Listed, Through;
    ThroughMeaning(ps, r);
    ItemsCovered(ps);
    var t := Through(ps, r);
    if |t| > 0 {
      assert t[0] in t;
      assert r in ps[t[0]].hops;
      SlotExact(Listed(ps), r);
    }
  }
}
