/** Topology evidence (src/topology.cpp): sorting and validation, the adjacency
    index and the region-chain index. */
module TopologyIndex {
  import opened Base
  import opened Model
  import opened Ordering
  import opened Building
  import opened Regions
  import Csr
  import opened Slots

  // ----- validation ------------------------------------------------------------

  function ResourceKey(r: Resource): int { r.id }

  function Lo(l: Link): U64 { if l.a < l.b then l.a else l.b }

  function Hi(l: Link): U64 { if l.a < l.b then l.b else l.a }

  /** Lexicographic order on (low endpoint, high endpoint). */
  function LinkKey(l: Link): int { Lo(l) * 0x1_0000_0000_0000_0000 + Hi(l) }

  predicate HasResource(rs: seq<Resource>, id: U64) {
    id != 0 && Find(rs, ResourceKey, id).Some?
  }

  function CheckRegion(before: Option<Region>, r: Region): Option<ErrorCode> {
    if r.id == 0 || (before.Some? && before.value.id == r.id) then Some(InvalidArgument)
    else if |r.name| > MAX_NAME_BYTES then Some(BoundExceeded)
    else None
  }

  function CheckParent(regions: seq<Region>): Check<Region> {
    (_: Option<Region>, r: Region) =>
      if r.parent != 0 && !HasRegion(regions, r.parent) then Some(UnknownRegion)
      else if r.parent == r.id then Some(InvalidArgument)
      else None
  }

  function CheckResource(regions: seq<Region>): Check<Resource> {
    (before: Option<Resource>, r: Resource) =>
      if r.id == 0 || (before.Some? && before.value.id == r.id) then Some(InvalidArgument)
      else if !HasRegion(regions, r.region) then Some(UnknownRegion)
      else if |r.name| > MAX_NAME_BYTES then Some(BoundExceeded)
      else None
  }

  predicate SamePair(p: Link, l: Link) {
    (p.a == l.a && p.b == l.b) || (p.a == l.b && p.b == l.a)
  }

  function CheckLink(resources: seq<Resource>): Check<Link> {
    (before: Option<Link>, l: Link) =>
      if l.a == 0 || l.b == 0 || l.a == l.b then Some(InvalidArgument)
      else if !HasResource(resources, l.a) || !HasResource(resources, l.b) then Some(UnknownResource)
      else if before.Some? && SamePair(before.value, l) then Some(InvalidArgument)
      else None
  }

  /** The other endpoints of the links at a resource, in link order. */
  function PartnerSeq(links: seq<Link>, id: U64): seq<U64> {
    if |links| == 0 then []
    else PartnerSeq(links[..|links| - 1], id) + PartnerOf(links[|links| - 1], id)
  }

  function PartnerOf(l: Link, id: U64): seq<U64> {
    (if l.a == id then [l.b] else []) + (if l.b == id then [l.a] else [])
  }

  predicate DegreeTooLarge(c: TopologyContent) {
    exists i :: 0 <= i < |c.resources| && |PartnerSeq(c.links, c.resources[i].id)| > MAX_NEIGHBORS
  }

  /** build(): bounds, then regions, parents, cycles, resources, links, degrees. */
  function BuildTopology(raw: TopologyContent): Result<TopologyContent> {
    if |raw.regions| > MAX_REGIONS || |raw.resources| > MAX_RESOURCES || |raw.links| > MAX_LINKS then
      Err(BoundExceeded)
    else
      var regions := BuildSorted(raw.regions, RegionKey, CheckRegion);
      if regions.Err? then Err(regions.error)
      else
        var orphan := FirstError(regions.value, CheckParent(regions.value), 0);
        if orphan.Some? then Err(orphan.value)
        else if WalkTooLong(regions.value) then Err(InvalidArgument)
        else
          var resources := BuildSorted(raw.resources, ResourceKey, CheckResource(regions.value));
          if resources.Err? then Err(resources.error)
          else
            var links := BuildSorted(raw.links, LinkKey, CheckLink(resources.value));
            if links.Err? then Err(links.error)
            else
              var c := TopologyContent(regions.value, resources.value, links.value);
              if DegreeTooLarge(c) then Err(BoundExceeded) else Ok(c)
  }

  ghost predicate ValidRegions(rs: seq<Region>) {
    && StrictBy(rs, RegionKey) && ParentsKnown(rs) && !HasCycle(rs)
    && forall i :: 0 <= i < |rs| ==> rs[i].id != 0
  }

  ghost predicate ValidLinks(resources: seq<Resource>, links: seq<Link>) {
    && StrictBy(links, LinkKey)
    && forall i :: 0 <= i < |links| ==>
         links[i].a != links[i].b && HasResource(resources, links[i].a) && HasResource(resources, links[i].b)
  }

  ghost predicate ValidResources(regions: seq<Region>, rs: seq<Resource>) {
    && StrictBy(rs, ResourceKey) && |rs| <= MAX_RESOURCES
    && forall i :: 0 <= i < |rs| ==> rs[i].id != 0 && HasRegion(regions, rs[i].region)
  }

  /** What a built topology guarantees to everything downstream. */
  ghost predicate ValidTopology(c: TopologyContent) {
    ValidRegions(c.regions) && ValidResources(c.regions, c.resources) && ValidLinks(c.resources, c.links)
  }

  lemma RegionsBuilt(raw: seq<Region>)
    requires BuildSorted(raw, RegionKey, CheckRegion).Ok?
    ensures var rs := BuildSorted(raw, RegionKey, CheckRegion).value;
            && BuildSorted(rs, RegionKey, CheckRegion) == Ok(rs)
            && (FirstError(rs, CheckParent(rs), 0).None? && !WalkTooLong(rs) ==> ValidRegions(rs))
  {
    hide WalkTooLong, HasCycle, FindRegion, SortBy;
    assert RefusesRepeats(RegionKey, CheckRegion);
    BuildSortedMeaning(raw, RegionKey, CheckRegion);
    var rs := BuildSorted(raw, RegionKey, CheckRegion).value;
    CycleCheckExact(rs);
    forall i | 0 <= i < |rs| ensures rs[i].id != 0 {
      assert CheckRegion(Before(rs, i), rs[i]).None?;
    }
    if FirstError(rs, CheckParent(rs), 0).None? {
      forall i | 0 <= i < |rs| ensures rs[i].parent == 0 || HasRegion(rs, rs[i].parent) {
        assert CheckParent(rs)(Before(rs, i), rs[i]).None?;
      }
    }
  }

  lemma ResourcesBuilt(regions: seq<Region>, raw: seq<Resource>)
    requires |raw| <= MAX_RESOURCES && BuildSorted(raw, ResourceKey, CheckResource(regions)).Ok?
    ensures var rs := BuildSorted(raw, ResourceKey, CheckResource(regions)).value;
            BuildSorted(rs, ResourceKey, CheckResource(regions)) == Ok(rs) && ValidResources(regions, rs)
  {
    hide FindRegion, SortBy, FirstError;
    assert RefusesRepeats(ResourceKey, CheckResource(regions));
    BuildSortedMeaning(raw, ResourceKey, CheckResource(regions));
    var rs := BuildSorted(raw, ResourceKey, CheckResource(regions)).value;
    forall i | 0 <= i < |rs| ensures rs[i].id != 0 && HasRegion(regions, rs[i].region) {
      assert CheckResource(regions)(Before(rs, i), rs[i]).None?;
    }
  }

  /** Comparing each link with its predecessor in sorted order excludes every
      repeated pair of endpoints, whichever way round they are written. */
  lemma LinksBuilt(resources: seq<Resource>, raw: seq<Link>)
    requires BuildSorted(raw, LinkKey, CheckLink(resources)).Ok?
    ensures var ls := BuildSorted(raw, LinkKey, CheckLink(resources)).value;
            BuildSorted(ls, LinkKey, CheckLink(resources)) == Ok(ls) && ValidLinks(resources, ls)
  {
    hide HasResource, SortBy, FirstError;
    forall p: Link, l: Link | LinkKey(p) == LinkKey(l) ensures CheckLink(resources)(Some(p), l).Some? {
      assert Lo(p) == Lo(l) && Hi(p) == Hi(l);
    }
    BuildSortedMeaning(raw, LinkKey, CheckLink(resources));
    var ls := BuildSorted(raw, LinkKey, CheckLink(resources)).value;
    forall i | 0 <= i < |ls|
      ensures ls[i].a != ls[i].b && HasResource(resources, ls[i].a) && HasResource(resources, ls[i].b)
    {
      assert CheckLink(resources)(Before(ls, i), ls[i]).None?;
    }
  }

  /** A topology that builds is valid, is a rearrangement of what was added,
      and builds to itself: the canonical form is stable. */
  lemma BuildTopologyMeaning(raw: TopologyContent)
    requires BuildTopology(raw).Ok?
    ensures var c := BuildTopology(raw).value;
            && ValidTopology(c) && BuildTopology(c) == Ok(c)
            && multiset(c.regions) == multiset(raw.regions)
            && multiset(c.resources) == multiset(raw.resources)
            && multiset(c.links) == multiset(raw.links)
  {
    hide WalkTooLong, PartnerSeq, SortBy, FirstError, BuildSorted, ValidRegions, ValidResources, ValidLinks;
    var c := BuildTopology(raw).value;
    RegionsBuilt(raw.regions);
    ResourcesBuilt(c.regions, raw.resources);
    LinksBuilt(c.resources, raw.links);
  }

  /** Sizes and names of a built topology are within their limits. */
  lemma BuiltWithinLimits(c: TopologyContent)
    requires BuildTopology(c) == Ok(c)
    ensures |c.regions| <= MAX_REGIONS && |c.resources| <= MAX_RESOURCES && |c.links| <= MAX_LINKS
    ensures forall i :: 0 <= i < |c.regions| ==> |c.regions[i].name| <= MAX_NAME_BYTES
    ensures forall i :: 0 <= i < |c.resources| ==> |c.resources[i].name| <= MAX_NAME_BYTES
  {
    hide WalkTooLong, PartnerSeq, SortBy, HasResource, FindRegion;
    forall i | 0 <= i < |c.regions| ensures |c.regions[i].name| <= MAX_NAME_BYTES {
      assert CheckRegion(Before(c.regions, i), c.regions[i]).None?;
    }
    forall i | 0 <= i < |c.resources| ensures |c.resources[i].name| <= MAX_NAME_BYTES {
      assert CheckResource(c.regions)(Before(c.resources, i), c.resources[i]).None?;
    }
  }

  // ----- neighbours, the simple form ---------------------------------------------

  /** The resources linked to a resource, ascending. */
  function Partners(links: seq<Link>, id: U64): (r: seq<U64>)
    ensures |r| == |PartnerSeq(links, id)|
  {
    SortIds(PartnerSeq(links, id))
  }

  predicate Linked(links: seq<Link>, a: U64, b: U64) {
    exists k :: 0 <= k < |links| && ((links[k].a == a && links[k].b == b) || (links[k].a == b && links[k].b == a))
  }

  lemma LinkedSnoc(init: seq<Link>, last: Link, id: U64, x: U64)
    ensures Linked(init + [last], id, x) <==> Linked(init, id, x) || x in PartnerOf(last, id)
  {
    var links := init + [last];
    assert links[|init|] == last;
    if Linked(init, id, x) {
      var k :| 0 <= k < |init| && ((init[k].a == id && init[k].b == x) || (init[k].a == x && init[k].b == id));
      assert links[k] == init[k];
    }
  }

  lemma {:induction false} PartnerSeqMembers(links: seq<Link>, id: U64, x: U64)
    ensures x in PartnerSeq(links, id) <==> Linked(links, id, x)
  {
    if |links| == 0 {
    } else {
      var init, last := links[..|links| - 1], links[|links| - 1];
      PartnerSeqMembers(init, id, x);
      LinkedSnoc(init, last, id, x);
      assert links == init + [last];
      hide Linked, PartnerOf;
    }
  }

  lemma LastPartnerIsNew(links: seq<Link>, id: U64, x: U64)
    requires |links| > 0 && StrictBy(links, LinkKey) && x in PartnerOf(links[|links| - 1], id)
    ensures x !in PartnerSeq(links[..|links| - 1], id)
  {
    hide PartnerSeq, LinkKey;
    var init, last := links[..|links| - 1], links[|links| - 1];
    PartnerSeqMembers(init, id, x);
    if Linked(init, id, x) {
      var k :| 0 <= k < |init| && ((init[k].a == id && init[k].b == x) || (init[k].a == x && init[k].b == id));
      SamePairSameKey(links[k], last);
    }
  }

  lemma SamePairSameKey(p: Link, l: Link)
    requires SamePair(p, l)
    ensures LinkKey(p) == LinkKey(l)
  {
  }

  /** Distinct links give distinct partners. */
  lemma {:induction false} PartnerSeqDistinct(links: seq<Link>, id: U64)
    requires StrictBy(links, LinkKey) && forall k :: 0 <= k < |links| ==> links[k].a != links[k].b
    ensures Distinct(PartnerSeq(links, id))
  {
    hide LinkKey;
    if |links| == 0 {
    } else {
      var init, last := links[..|links| - 1], links[|links| - 1];
      PartnerSeqDistinct(init, id);
      assert |PartnerOf(last, id)| <= 1;
      if |PartnerOf(last, id)| == 1 {
        LastPartnerIsNew(links, id, PartnerOf(last, id)[0]);
      }
    }
  }

  lemma PartnersMembers(links: seq<Link>, id: U64, x: U64)
    ensures x in Partners(links, id) <==> Linked(links, id, x)
  {
    PartnerSeqMembers(links, id, x);
  }

  /** Neighbours are exactly the link partners, each once, ascending, and the
      relation is symmetric. */
  lemma PartnersMeaning(c: TopologyContent, id: U64)
    requires ValidTopology(c)
    ensures Ascending(Partners(c.links, id))
    ensures forall x: U64 :: x in Partners(c.links, id) <==> Linked(c.links, id, x)
    ensures forall x: U64 :: x in Partners(c.links, id) <==> id in Partners(c.links, x)
    ensures forall x: U64 :: x in Partners(c.links, id) ==> x != id && HasResource(c.resources, x)
    ensures !HasResource(c.resources, id) ==> Partners(c.links, id) == []
  {
    hide HasResource, PartnerSeq, HasCycle, LinkKey;
    PartnerSeqDistinct(c.links, id);
    SortDistinctAscending(PartnerSeq(c.links, id));
    var all := Partners(c.links, id);
    hide Partners;
    assert |all| > 0 ==> all[0] in all;
    forall x: U64
      ensures x in all <==> Linked(c.links, id, x)
      ensures x in all <==> id in Partners(c.links, x)
    {
      PartnersMembers(c.links, id, x);
      PartnersMembers(c.links, x, id);
    }
  }

  // ----- the adjacency index ------------------------------------------------------

  datatype Index = Index(neighborOffsets: seq<nat>, neighborIds: seq<U64>, chainOffsets: seq<nat>, chainIds: seq<U64>)

  function PositionOf(resources: seq<Resource>, id: U64): nat {
    LowerBound(resources, ResourceKey, id)
  }

  lemma PositionOfKnown(resources: seq<Resource>, id: U64)
    requires HasResource(resources, id)
    ensures PositionOf(resources, id) < |resources| && resources[PositionOf(resources, id)].id == id
  {
  }

  /** What the placing loop files, link by link. */
  function AdjacencyItems(resources: seq<Resource>, links: seq<Link>): seq<Csr.Item> {
    if |links| == 0 then []
    else
      var last := links[|links| - 1];
      AdjacencyItems(resources, links[..|links| - 1])
      + [Csr.Item(PositionOf(resources, last.a), last.b), Csr.Item(PositionOf(resources, last.b), last.a)]
  }

  lemma {:induction false} AdjacencyInRange(resources: seq<Resource>, links: seq<Link>)
    requires ValidLinks(resources, links)
    ensures Csr.InRange(AdjacencyItems(resources, links), |resources|)
  {
    hide HasResource, LinkKey, PositionOf;
    if |links| == 0 {
    } else {
      var last := links[|links| - 1];
      AdjacencyInRange(resources, links[..|links| - 1]);
      PositionOfKnown(resources, last.a);
      PositionOfKnown(resources, last.b);
    }
  }

  /** The bucket of a resource holds its partners in link order. */
  lemma {:induction false} AdjacencyBucket(resources: seq<Resource>, links: seq<Link>, i: nat)
    requires StrictBy(resources, ResourceKey) && ValidLinks(resources, links) && i < |resources|
    ensures Csr.Bucket(AdjacencyItems(resources, links), i) == PartnerSeq(links, resources[i].id)
  {
    hide HasResource, LinkKey, Csr.Bucket;
    if |links| == 0 {
      Csr.BucketOfNothing([], i);
    } else {
      var init, last := links[..|links| - 1], links[|links| - 1];
      AdjacencyBucket(resources, init, i);
      PositionOfKnown(resources, last.a);
      PositionOfKnown(resources, last.b);
      AdjacencyBucketStep(resources, init, last, i);
    }
  }

  lemma AdjacencyBucketStep(resources: seq<Resource>, init: seq<Link>, last: Link, i: nat)
    requires StrictBy(resources, ResourceKey) && i < |resources|
    requires PositionOf(resources, last.a) < |resources| && resources[PositionOf(resources, last.a)].id == last.a
    requires PositionOf(resources, last.b) < |resources| && resources[PositionOf(resources, last.b)].id == last.b
    ensures Csr.Bucket(AdjacencyItems(resources, init + [last]), i)
            == Csr.Bucket(AdjacencyItems(resources, init), i) + PartnerOf(last, resources[i].id)
  {
    hide Csr.Bucket, PositionOf;
    var items := AdjacencyItems(resources, init);
    var one, two := Csr.Item(PositionOf(resources, last.a), last.b), Csr.Item(PositionOf(resources, last.b), last.a);
    assert (init + [last])[..|init|] == init;
    assert AdjacencyItems(resources, init + [last]) == items + [one] + [two];
    Csr.BucketSnoc(items, one, i);
    Csr.BucketSnoc(items + [one], two, i);
    SamePosition(resources, i, PositionOf(resources, last.a));
    SamePosition(resources, i, PositionOf(resources, last.b));
  }

  lemma SamePosition(resources: seq<Resource>, i: nat, j: nat)
    requires StrictBy(resources, ResourceKey) && i < |resources| && j < |resources|
    ensures i == j <==> resources[i].id == resources[j].id
  {
    assert i < j ==> ResourceKey(resources[i]) < ResourceKey(resources[j]);
    assert j < i ==> ResourceKey(resources[j]) < ResourceKey(resources[i]);
  }

  /** The neighbours every slot of the adjacency index must list. */
  function NeighborSlots(c: TopologyContent): (r: seq<seq<U64>>)
    ensures |r| == |c.resources|
    ensures forall i :: 0 <= i < |r| ==> r[i] == Partners(c.links, c.resources[i].id)
  {
    seq(|c.resources|, i requires 0 <= i < |c.resources| => Partners(c.links, c.resources[i].id))
  }

  function RawSlots(c: TopologyContent): (r: seq<seq<U64>>)
    ensures |r| == |c.resources|
    ensures forall i :: 0 <= i < |r| ==> r[i] == PartnerSeq(c.links, c.resources[i].id)
  {
    seq(|c.resources|, i requires 0 <= i < |c.resources| => PartnerSeq(c.links, c.resources[i].id))
  }

  lemma IndexListsRawSlots(c: TopologyContent, offsets: seq<nat>, data: seq<U64>)
    requires ValidTopology(c)
    requires Csr.IsIndex(AdjacencyItems(c.resources, c.links), |c.resources|, offsets, data)
    ensures AllListed(offsets, data, RawSlots(c))
    ensures forall i :: 0 <= i < |c.resources| ==> Distinct(RawSlots(c)[i])
  {
    hide PartnerSeq, AdjacencyItems, HasResource, HasCycle, LinkKey, Csr.Lists, Distinct, HasRegion;
    var slots := RawSlots(c);
    forall i | 0 <= i < |slots| ensures Csr.Lists(offsets, data, i, slots[i]) && Distinct(slots[i]) {
      AdjacencyBucket(c.resources, c.links, i);
      PartnerSeqDistinct(c.links, c.resources[i].id);
    }
  }

  /** The adjacency part of validate_and_index: file both ends of every link,
      count, place, sort each slot, compact. */
  method BuildAdjacency(c: TopologyContent) returns (offsets: seq<nat>, ids: seq<U64>)
    requires ValidTopology(c)
    ensures AllListed(offsets, ids, NeighborSlots(c))
  {
    hide ValidTopology, AllListed, Csr.IsIndex, PartnerSeq, Csr.InRange, Sort, AdjacencyItems;
    var items := FileLinks(c.resources, c.links);
    AdjacencyItemsInRange(c);
    offsets, ids := Csr.Build(items, |c.resources|);
    IndexListsRawSlots(c, offsets, ids);
    offsets, ids := SortSlots(offsets, ids, RawSlots(c));
    assert SortedUpTo(RawSlots(c), |c.resources|) == NeighborSlots(c);
    offsets, ids := Compact(offsets, ids, NeighborSlots(c));
  }

  method FileLinks(resources: seq<Resource>, links: seq<Link>) returns (items: seq<Csr.Item>)
    ensures items == AdjacencyItems(resources, links)
  {
    items := [];
    for k := 0 to |links|
      invariant items == AdjacencyItems(resources, links[..k])
    {
      var l := links[k];
      assert links[..k + 1][..k] == links[..k];
      items := items + [Csr.Item(PositionOf(resources, l.a), l.b), Csr.Item(PositionOf(resources, l.b), l.a)];
    }
    assert links[..|links|] == links;
  }

  lemma AdjacencyItemsInRange(c: TopologyContent)
    requires ValidTopology(c)
    ensures Csr.InRange(AdjacencyItems(c.resources, c.links), |c.resources|)
  {
    AdjacencyInRange(c.resources, c.links);
  }

  // ----- building -------------------------------------------------------------------

  /** The degree check: count both ends of every link, then look for a resource
      with too many neighbours. */
  method ExceedsDegree(c: TopologyContent) returns (exceeds: bool)
    requires StrictBy(c.resources, ResourceKey) && ValidLinks(c.resources, c.links)
    ensures exceeds == DegreeTooLarge(c)
  {
    hide PartnerSeq, AdjacencyItems, HasResource, LinkKey, Csr.Bucket;
    var items := FileLinks(c.resources, c.links);
    AdjacencyInRange(c.resources, c.links);
    var degrees := Csr.Count(items, |c.resources|);
    for i := 0 to |c.resources|
      invariant forall j :: 0 <= j < i ==> |PartnerSeq(c.links, c.resources[j].id)| <= MAX_NEIGHBORS
    {
      AdjacencyBucket(c.resources, c.links, i);
      if degrees[i] > MAX_NEIGHBORS {
        return true;
      }
    }
    exceeds := false;
  }

  /** build(): bounds, sorting and checks, the cycle walk and the degree count. */
  method BuildContent(raw: TopologyContent) returns (r: Result<TopologyContent>)
    ensures r == BuildTopology(raw)
  {
    hide PartnerSeq, SortBy, FirstError, WalkTooLong, HasCycle, FindRegion, HasResource, DegreeTooLarge;
    if |raw.regions| > MAX_REGIONS || |raw.resources| > MAX_RESOURCES || |raw.links| > MAX_LINKS {
      return Err(BoundExceeded);
    }
    var regions := BuildSorted(raw.regions, RegionKey, CheckRegion);
    if regions.Err? {
      return Err(regions.error);
    }
    var orphan := FirstError(regions.value, CheckParent(regions.value), 0);
    if orphan.Some? {
      return Err(orphan.value);
    }
    RegionsOrdered(raw.regions);
    var cyclic := RegionsCyclic(regions.value);
    CycleCheckExact(regions.value);
    if cyclic {
      return Err(InvalidArgument);
    }
    var resources := BuildSorted(raw.resources, ResourceKey, CheckResource(regions.value));
    if resources.Err? {
      return Err(resources.error);
    }
    ResourcesBuilt(regions.value, raw.resources);
    var links := BuildSorted(raw.links, LinkKey, CheckLink(resources.value));
    if links.Err? {
      return Err(links.error);
    }
    LinksBuilt(resources.value, raw.links);
    var c := TopologyContent(regions.value, resources.value, links.value);
    var exceeds := ExceedsDegree(c);
    r := if exceeds then Err(BoundExceeded) else Ok(c);
  }

  lemma RegionsOrdered(raw: seq<Region>)
    requires BuildSorted(raw, RegionKey, CheckRegion).Ok?
    ensures var rs := BuildSorted(raw, RegionKey, CheckRegion).value;
            StrictBy(rs, RegionKey) && forall i :: 0 <= i < |rs| ==> rs[i].id != 0
  {
    hide SortBy, FirstError;
    assert RefusesRepeats(RegionKey, CheckRegion);
    BuildSortedMeaning(raw, RegionKey, CheckRegion);
    var rs := BuildSorted(raw, RegionKey, CheckRegion).value;
    forall i | 0 <= i < |rs| ensures rs[i].id != 0 {
      assert CheckRegion(Before(rs, i), rs[i]).None?;
    }
  }

  // ----- region chains --------------------------------------------------------------

  function ChainOf(c: TopologyContent, i: nat): seq<U64>
    requires i < |c.resources|
  {
    Chain(c.regions, c.resources[i].region, |c.regions| + 1)
  }

  function ChainSlots(c: TopologyContent, k: nat): (r: seq<seq<U64>>)
    requires k <= |c.resources|
    ensures |r| == k && forall i :: 0 <= i < k ==> r[i] == ChainOf(c, i)
  {
    seq(k, i requires 0 <= i < k => ChainOf(c, i))
  }

  /** Walks up from each resource's region, bounded by the region count. */
  method BuildChains(c: TopologyContent) returns (offsets: seq<nat>, ids: seq<U64>)
    ensures AllListed(offsets, ids, ChainSlots(c, |c.resources|))
  {
    hide AllListed, ParentOf;
    offsets, ids := [0], [];
    ListedNothing([]);
    assert ChainSlots(c, 0) == [][..0];
    for i := 0 to |c.resources|
      invariant AllListed(offsets, ids, ChainSlots(c, i))
    {
      ghost var base := ids;
      var cursor, steps := c.resources[i].region, 0;
      while cursor != 0 && steps <= |c.regions|
        invariant steps <= |c.regions| + 1
        invariant ids + Chain(c.regions, cursor, |c.regions| + 1 - steps) == base + ChainOf(c, i)
        decreases |c.regions| + 1 - steps
      {
        ids := ids + [cursor];
        cursor := ParentOf(c.regions, cursor);
        steps := steps + 1;
      }
      assert Chain(c.regions, cursor, |c.regions| + 1 - steps) == [];
      assert ids == base + ChainOf(c, i);
      ListedSnoc(offsets, base, ChainSlots(c, i), ChainOf(c, i));
      assert ChainSlots(c, i) + [ChainOf(c, i)] == ChainSlots(c, i + 1);
      offsets := offsets + [|ids|];
    }
  }

  // ----- lookups ------------------------------------------------------------------------

  /** The index of a topology, agreeing with the plain links and regions. */
  ghost predicate IndexOf(c: TopologyContent, ix: Index) {
    && AllListed(ix.neighborOffsets, ix.neighborIds, NeighborSlots(c))
    && AllListed(ix.chainOffsets, ix.chainIds, ChainSlots(c, |c.resources|))
  }

  method BuildIndex(c: TopologyContent) returns (ix: Index)
    requires ValidTopology(c)
    ensures IndexOf(c, ix)
  {
    hide AllListed, ValidTopology;
    var neighborOffsets, neighborIds := BuildAdjacency(c);
    var chainOffsets, chainIds := BuildChains(c);
    ix := Index(neighborOffsets, neighborIds, chainOffsets, chainIds);
  }

  /** neighbors(id): the slice of the compact index. */
  function Neighbors(c: TopologyContent, ix: Index, id: U64): (r: seq<U64>)
    requires ValidTopology(c) && IndexOf(c, ix)
    ensures r == Partners(c.links, id)
  {
    PartnersMeaning(c, id);
    if id == 0 then []
    else
      var at := Find(c.resources, ResourceKey, id);
      if at.None? then []
      else
        SlotAt(ix.neighborOffsets, ix.neighborIds, NeighborSlots(c), at.value);
        ix.neighborIds[ix.neighborOffsets[at.value]..ix.neighborOffsets[at.value + 1]]
  }

  /** region_chain(id): the slice of the chain index. */
  function RegionChain(c: TopologyContent, ix: Index, id: U64): (r: seq<U64>)
    requires ValidTopology(c) && IndexOf(c, ix)
    ensures HasResource(c.resources, id) ==>
      exists i :: 0 <= i < |c.resources| && c.resources[i].id == id && r == ChainOf(c, i)
    ensures !HasResource(c.resources, id) ==> r == []
  {
    if id == 0 then []
    else
      var at := Find(c.resources, ResourceKey, id);
      if at.None? then []
      else
        SlotAt(ix.chainOffsets, ix.chainIds, ChainSlots(c, |c.resources|), at.value);
        ix.chainIds[ix.chainOffsets[at.value]..ix.chainOffsets[at.value + 1]]
  }

  /** Every chain runs from the resource's own region through all its ancestors
      to a root: the step bound cuts none. */
  lemma ChainsComplete(c: TopologyContent, i: nat)
    requires ValidTopology(c) && i < |c.resources|
    ensures var chain, region := ChainOf(c, i), c.resources[i].region;
            && 0 < |chain| <= |c.regions| && chain[0] == region
            && (forall k :: 0 <= k < |chain| ==> chain[k] == Ancestor(c.regions, region, k))
            && (forall k: nat :: k >= |chain| ==> Ancestor(c.regions, region, k) == 0)
  {
    ChainComplete(c.regions, c.resources[i].region);
  }
}
