/** What each snapshot accepts (src/topology.cpp, src/capacity.cpp,
    src/signals.cpp, src/paths.cpp, src/traffic.cpp): a snapshot builds exactly when
    what was added to it is well formed, in whatever order it was added. */
module BuildTheorems {
  import opened Base
  import opened Model
  import opened Ordering
  import opened Building
  import opened Regions
  import opened TopologyIndex
  import opened PathIndex
  import opened Snapshots

  // ----- sorting and repetition -------------------------------------------------------------

  ghost predicate DistinctBy<T>(s: seq<T>, key: T -> int) {
    forall i, j :: 0 <= i < j < |s| ==> key(s[i]) != key(s[j])
  }

  function KeysOf<T>(s: seq<T>, key: T -> int): (r: seq<int>)
    ensures |r| == |s| && forall i :: 0 <= i < |s| ==> r[i] == key(s[i])
  {
    seq(|s|, i requires 0 <= i < |s| => key(s[i]))
  }

  lemma KeysCons<T>(x: T, s: seq<T>, key: T -> int)
    ensures KeysOf([x] + s, key) == [key(x)] + KeysOf(s, key)
  {
  }

  lemma {:induction false} InsertKeys<T>(x: T, s: seq<T>, key: T -> int)
    ensures multiset(KeysOf(InsertBy(x, s, key), key)) == multiset([key(x)]) + multiset(KeysOf(s, key))
  {
    hide KeysOf;
    KeysCons(x, s, key);
    if |s| > 0 && key(x) > key(s[0]) {
      InsertKeys(x, s[1..], key);
      KeysCons(s[0], InsertBy(x, s[1..], key), key);
      KeysCons(s[0], s[1..], key);
      assert s == [s[0]] + s[1..];
    } else if |s| == 0 {
      assert [x] + s == [x];
    }
  }

  lemma {:induction false} SortKeys<T>(s: seq<T>, key: T -> int)
    ensures multiset(KeysOf(SortBy(s, key), key)) == multiset(KeysOf(s, key))
  {
    hide KeysOf, InsertBy;
    if |s| == 0 {
    } else {
      SortKeys(s[1..], key);
      InsertKeys(s[0], SortBy(s[1..], key), key);
      KeysCons(s[0], s[1..], key);
      assert s == [s[0]] + s[1..];
    }
  }

  lemma {:induction false} CountedOnce(a: seq<int>, b: seq<int>)
    requires multiset(a) == multiset(b) && Distinct(a)
    ensures Distinct(b)
  {
    forall i, j | 0 <= i < j < |b| ensures b[i] != b[j] {
      if b[i] == b[j] {
        RepeatCountsTwice(b, i, j);
        DistinctOnce(a, b[i]);
      }
    }
  }

  lemma DistinctKeys<T>(s: seq<T>, key: T -> int)
    ensures DistinctBy(s, key) <==> Distinct(KeysOf(s, key))
  {
  }

  /** Sorting keeps repetitions and makes none. */
  lemma SortDistinctBy<T>(s: seq<T>, key: T -> int)
    ensures DistinctBy(SortBy(s, key), key) <==> DistinctBy(s, key)
  {
    hide SortBy, KeysOf;
    SortKeys(s, key);
    DistinctKeys(s, key);
    DistinctKeys(SortBy(s, key), key);
    if DistinctBy(s, key) {
      CountedOnce(KeysOf(s, key), KeysOf(SortBy(s, key), key));
    }
    if DistinctBy(SortBy(s, key), key) {
      CountedOnce(KeysOf(SortBy(s, key), key), KeysOf(s, key));
    }
  }

  /** An entry after another is refused for itself or for repeating its key. */
  ghost predicate Separates<T(!new)>(key: T -> int, check: Check<T>) {
    forall p: T, c: T :: check(Some(p), c).None? <==> check(None, c).None? && key(p) != key(c)
  }

  ghost predicate EachPasses<T>(s: seq<T>, check: Check<T>) {
    forall i :: 0 <= i < |s| ==> check(None, s[i]).None?
  }

  lemma SortEachPasses<T>(s: seq<T>, key: T -> int, check: Check<T>)
    ensures EachPasses(SortBy(s, key), check) <==> EachPasses(s, check)
  {
    hide SortBy;
    var r := SortBy(s, key);
    if EachPasses(s, check) {
      forall i | 0 <= i < |r| ensures check(None, r[i]).None? {
        assert r[i] in multiset(r);
        assert r[i] in multiset(s);
        var j :| 0 <= j < |s| && s[j] == r[i];
      }
    }
    if EachPasses(r, check) {
      forall i | 0 <= i < |s| ensures check(None, s[i]).None? {
        assert s[i] in multiset(s);
        assert s[i] in multiset(r);
        var j :| 0 <= j < |r| && r[j] == s[i];
      }
    }
  }

  /** Sorting and comparing neighbours accepts exactly the vectors whose entries
      each pass and differ pairwise. */
  lemma BuildSortedExactly<T(!new)>(raw: seq<T>, key: T -> int, check: Check<T>)
    requires Separates(key, check)
    ensures BuildSorted(raw, key, check).Ok? <==> EachPasses(raw, check) && DistinctBy(raw, key)
  {
    hide SortBy;
    var s := SortBy(raw, key);
    SortDistinctBy(raw, key);
    SortEachPasses(raw, key, check);
    if FirstError(s, check, 0).None? {
      forall i | 0 <= i < |s| ensures check(None, s[i]).None? && (i > 0 ==> key(s[i]) != key(s[i - 1])) {
        assert check(Before(s, i), s[i]).None?;
      }
      AdjacentDistinctIsStrict(s, key);
    }
    if EachPasses(s, check) && DistinctBy(s, key) {
      forall j | 0 <= j < |s| ensures check(Before(s, j), s[j]).None? {
        assert check(None, s[j]).None?;
      }
    }
  }

  // ----- capacity, telemetry, traffic, paths ----------------------------------------------------

  /** Capacity builds exactly when it is bounded, names proper, different resources
      and offers units wherever it is usable. */
  lemma CapacityBuildsExactly(raw: seq<CapacityEntry>)
    ensures BuildCapacity(raw).Ok? <==>
            && |raw| <= MAX_CAPACITY_ENTRIES && DistinctBy(raw, CapacityKey)
            && forall i :: 0 <= i < |raw| ==> raw[i].resource != 0 && (raw[i].usable ==> raw[i].units > 0)
  {
    hide SortBy, BuildSorted, DistinctBy, Separates;
    CapacitySeparates();
    BuildSortedExactly(raw, CapacityKey, CheckCapacity);
  }

  lemma CapacitySeparates()
    ensures Separates(CapacityKey, CheckCapacity)
  {
  }

  /** Telemetry builds exactly when it is bounded, names proper, different resources,
      claims no more than full confidence, and admits no more than was offered. */
  lemma SignalsBuildExactly(raw: seq<SignalRecord>)
    ensures BuildSignals(raw).Ok? <==>
            && |raw| <= MAX_SIGNAL_RECORDS && DistinctBy(raw, SignalKey)
            && forall i :: 0 <= i < |raw| ==>
                 && raw[i].resource != 0 && raw[i].confidence <= 1_000_000
                 && (raw[i].offered > 0 ==> raw[i].admitted <= raw[i].offered)
  {
    hide SortBy, BuildSorted, DistinctBy, Separates;
    SignalsSeparate();
    BuildSortedExactly(raw, SignalKey, CheckSignal);
  }

  lemma SignalsSeparate()
    ensures Separates(SignalKey, CheckSignal)
  {
  }

  ghost predicate PairsDiffer(raw: seq<TrafficRecord>) {
    forall i, j :: 0 <= i < j < |raw| ==> (raw[i].path, raw[i].flow) != (raw[j].path, raw[j].flow)
  }

  lemma TrafficPairs(raw: seq<TrafficRecord>)
    ensures DistinctBy(raw, TrafficKey) <==> PairsDiffer(raw)
  {
    hide TrafficKey;
    forall i, j | 0 <= i < j < |raw|
      ensures TrafficKey(raw[i]) == TrafficKey(raw[j]) <==>
              (raw[i].path, raw[i].flow) == (raw[j].path, raw[j].flow)
    {
      TrafficKeyExact(raw[i], raw[j]);
    }
  }

  lemma TrafficKeyExact(p: TrafficRecord, c: TrafficRecord)
    ensures TrafficKey(p) == TrafficKey(c) <==> (p.path, p.flow) == (c.path, c.flow)
  {
    TrafficKeyOrders(p, c);
  }

  /** Traffic builds exactly when it is bounded, names proper paths and holds one
      record per path and flow. */
  lemma TrafficBuildsExactly(raw: seq<TrafficRecord>)
    ensures BuildTraffic(raw).Ok? <==>
            |raw| <= MAX_TRAFFIC_RECORDS && PairsDiffer(raw) && forall i :: 0 <= i < |raw| ==> raw[i].path != 0
  {
    hide SortBy, TrafficKey;
    forall p: TrafficRecord, c: TrafficRecord
      ensures CheckTraffic(Some(p), c).None? <==> CheckTraffic(None, c).None? && TrafficKey(p) != TrafficKey(c)
    {
      TrafficKeyExact(p, c);
    }
    TrafficPairs(raw);
    BuildSortedExactly(raw, TrafficKey, CheckTraffic);
    hide BuildSorted, DistinctBy, PairsDiffer;
  }

  /** Paths build exactly when they are bounded, properly and differently named, and
      each has hops, not too many, all of them proper. */
  lemma PathsBuildExactly(raw: seq<PathRecord>)
    ensures BuildPaths(raw).Ok? <==>
            && |raw| <= MAX_PATHS && DistinctBy(raw, PathKey)
            && forall i :: 0 <= i < |raw| ==> raw[i].id != 0 && 0 < |raw[i].hops| <= MAX_HOPS && 0 !in raw[i].hops
  {
    hide SortBy, BuildSorted, DistinctBy, Separates;
    PathsSeparate();
    BuildSortedExactly(raw, PathKey, CheckPath);
  }

  lemma PathsSeparate()
    ensures Separates(PathKey, CheckPath)
  {
  }

  // ----- topology --------------------------------------------------------------------------------

  ghost predicate KnownRegion(rs: seq<Region>, id: U64) { id != 0 && exists i :: 0 <= i < |rs| && rs[i].id == id }

  ghost predicate KnownResource(rs: seq<Resource>, id: U64) { id != 0 && exists i :: 0 <= i < |rs| && rs[i].id == id }

  ghost predicate RegionsWell(rs: seq<Region>) {
    && DistinctBy(rs, RegionKey)
    && forall i :: 0 <= i < |rs| ==> rs[i].id != 0 && |rs[i].name| <= MAX_NAME_BYTES
  }

  ghost predicate ParentsWell(rs: seq<Region>) {
    forall i :: 0 <= i < |rs| ==> rs[i].parent != rs[i].id && (rs[i].parent == 0 || KnownRegion(rs, rs[i].parent))
  }

  ghost predicate ResourcesWell(regions: seq<Region>, rs: seq<Resource>) {
    && DistinctBy(rs, ResourceKey)
    && forall i :: 0 <= i < |rs| ==>
         rs[i].id != 0 && |rs[i].name| <= MAX_NAME_BYTES && KnownRegion(regions, rs[i].region)
  }

  ghost predicate LinksWell(resources: seq<Resource>, ls: seq<Link>) {
    && (forall i, j :: 0 <= i < j < |ls| ==> !SamePair(ls[i], ls[j]))
    && forall i :: 0 <= i < |ls| ==>
         ls[i].a != ls[i].b && KnownResource(resources, ls[i].a) && KnownResource(resources, ls[i].b)
  }

  lemma RegionKnown(rs: seq<Region>, id: U64)
    requires StrictBy(rs, RegionKey)
    ensures HasRegion(rs, id) <==> KnownRegion(rs, id)
  {
    if KnownRegion(rs, id) {
      var i :| 0 <= i < |rs| && rs[i].id == id;
      assert RegionKey(rs[i]) == id;
    }
  }

  lemma ResourceKnown(rs: seq<Resource>, id: U64)
    requires StrictBy(rs, ResourceKey)
    ensures HasResource(rs, id) <==> KnownResource(rs, id)
  {
    if KnownResource(rs, id) {
      var i :| 0 <= i < |rs| && rs[i].id == id;
      assert ResourceKey(rs[i]) == id;
    }
  }

  lemma RegionsBuildExactly(raw: seq<Region>)
    ensures BuildSorted(raw, RegionKey, CheckRegion).Ok? <==> RegionsWell(raw)
    ensures BuildSorted(raw, RegionKey, CheckRegion).Ok? ==>
              StrictBy(BuildSorted(raw, RegionKey, CheckRegion).value, RegionKey)
  {
    hide SortBy;
    BuildSortedExactly(raw, RegionKey, CheckRegion);
    if BuildSorted(raw, RegionKey, CheckRegion).Ok? {
      BuildSortedMeaning(raw, RegionKey, CheckRegion);
    }
    hide BuildSorted, DistinctBy;
  }

  lemma ParentsBuildExactly(rs: seq<Region>)
    requires StrictBy(rs, RegionKey)
    ensures FirstError(rs, CheckParent(rs), 0).None? <==> ParentsWell(rs)
  {
    hide HasRegion, KnownRegion;
    forall i | 0 <= i < |rs|
      ensures CheckParent(rs)(Before(rs, i), rs[i]).None? <==>
              rs[i].parent != rs[i].id && (rs[i].parent == 0 || KnownRegion(rs, rs[i].parent))
    {
      RegionKnown(rs, rs[i].parent);
    }
  }

  lemma ResourcesBuildExactly(regions: seq<Region>, raw: seq<Resource>)
    requires StrictBy(regions, RegionKey)
    ensures BuildSorted(raw, ResourceKey, CheckResource(regions)).Ok? <==> ResourcesWell(regions, raw)
    ensures BuildSorted(raw, ResourceKey, CheckResource(regions)).Ok? ==>
              StrictBy(BuildSorted(raw, ResourceKey, CheckResource(regions)).value, ResourceKey)
  {
    hide SortBy, HasRegion, KnownRegion;
    BuildSortedExactly(raw, ResourceKey, CheckResource(regions));
    if BuildSorted(raw, ResourceKey, CheckResource(regions)).Ok? {
      BuildSortedMeaning(raw, ResourceKey, CheckResource(regions));
    }
    hide BuildSorted, DistinctBy;
    forall i | 0 <= i < |raw| ensures HasRegion(regions, raw[i].region) <==> KnownRegion(regions, raw[i].region) {
      RegionKnown(regions, raw[i].region);
    }
  }

  lemma SamePairExact(p: Link, l: Link)
    ensures SamePair(p, l) <==> LinkKey(p) == LinkKey(l)
  {
    if LinkKey(p) == LinkKey(l) {
      assert Lo(p) == Lo(l) && Hi(p) == Hi(l);
    }
  }

  lemma LinksBuildExactly(resources: seq<Resource>, raw: seq<Link>)
    requires StrictBy(resources, ResourceKey)
    ensures BuildSorted(raw, LinkKey, CheckLink(resources)).Ok? <==> LinksWell(resources, raw)
  {
    hide SortBy, HasResource, LinkKey, SamePair;
    forall p: Link, l: Link ensures SamePair(p, l) <==> LinkKey(p) == LinkKey(l) {
      SamePairExact(p, l);
    }
    BuildSortedExactly(raw, LinkKey, CheckLink(resources));
    hide BuildSorted;
    forall i | 0 <= i < |raw|
      ensures HasResource(resources, raw[i].a) <==> KnownResource(resources, raw[i].a)
      ensures HasResource(resources, raw[i].b) <==> KnownResource(resources, raw[i].b)
    {
      ResourceKnown(resources, raw[i].a);
      ResourceKnown(resources, raw[i].b);
    }
    LinkChecks(resources, raw);
  }

  lemma LinkChecks(resources: seq<Resource>, raw: seq<Link>)
    requires forall p: Link, l: Link :: SamePair(p, l) <==> LinkKey(p) == LinkKey(l)
    requires forall i :: 0 <= i < |raw| ==>
               && (HasResource(resources, raw[i].a) <==> KnownResource(resources, raw[i].a))
               && (HasResource(resources, raw[i].b) <==> KnownResource(resources, raw[i].b))
    ensures EachPasses(raw, CheckLink(resources)) && DistinctBy(raw, LinkKey) <==> LinksWell(resources, raw)
  {
    hide HasResource, LinkKey, SamePair;
    forall i | 0 <= i < |raw|
      ensures CheckLink(resources)(None, raw[i]).None? <==>
              && raw[i].a != raw[i].b
              && KnownResource(resources, raw[i].a) && KnownResource(resources, raw[i].b)
    {
      hide DistinctBy;
    }
  }

  /** How many links end at a resource. */
  function LinksAt(ls: seq<Link>, id: U64): nat {
    if |ls| == 0 then 0
    else LinksAt(ls[..|ls| - 1], id) + (if ls[|ls| - 1].a == id || ls[|ls| - 1].b == id then 1 else 0)
  }

  lemma {:induction false} PartnersAreLinks(ls: seq<Link>, id: U64)
    requires forall i :: 0 <= i < |ls| ==> ls[i].a != ls[i].b
    ensures |PartnerSeq(ls, id)| == LinksAt(ls, id)
  {
    if |ls| == 0 {
    } else {
      PartnersAreLinks(ls[..|ls| - 1], id);
    }
  }

  ghost predicate DegreesWell(c: TopologyContent) {
    forall i :: 0 <= i < |c.resources| ==> LinksAt(c.links, c.resources[i].id) <= MAX_NEIGHBORS
  }

  lemma DegreesExactly(c: TopologyContent)
    requires forall i :: 0 <= i < |c.links| ==> c.links[i].a != c.links[i].b
    ensures DegreeTooLarge(c) <==> !DegreesWell(c)
  {
    hide PartnerSeq, LinksAt;
    forall i | 0 <= i < |c.resources|
      ensures |PartnerSeq(c.links, c.resources[i].id)| == LinksAt(c.links, c.resources[i].id)
    {
      PartnersAreLinks(c.links, c.resources[i].id);
    }
  }

  /** What was added, in canonical order. */
  function Canon(raw: TopologyContent): TopologyContent {
    TopologyContent(SortBy(raw.regions, RegionKey), SortBy(raw.resources, ResourceKey), SortBy(raw.links, LinkKey))
  }

  /** A topology builds exactly when it is within its bounds, regions, parents,
      resources and links are well formed, no region is its own ancestor, and no
      resource has too many neighbours; it then is what was added, in order. */
  lemma TopologyBuildsExactly(raw: TopologyContent)
    ensures BuildTopology(raw).Ok? <==>
            && |raw.regions| <= MAX_REGIONS && |raw.resources| <= MAX_RESOURCES && |raw.links| <= MAX_LINKS
            && RegionsWell(raw.regions) && ParentsWell(Canon(raw).regions) && !HasCycle(Canon(raw).regions)
            && ResourcesWell(Canon(raw).regions, raw.resources) && LinksWell(Canon(raw).resources, raw.links)
            && DegreesWell(Canon(raw))
    ensures BuildTopology(raw).Ok? ==> BuildTopology(raw).value == Canon(raw)
  {
    hide SortBy, WalkTooLong, HasCycle, FirstError, DegreeTooLarge, RegionsWell, ParentsWell, ResourcesWell, LinksWell;
    hide DegreesWell;
    RegionsBuildExactly(raw.regions);
    var c := Canon(raw);
    if RegionsWell(raw.regions) {
      ParentsBuildExactly(c.regions);
      CycleCheckExact(c.regions);
      ResourcesBuildExactly(c.regions, raw.resources);
      if ResourcesWell(c.regions, raw.resources) {
        LinksBuildExactly(c.resources, raw.links);
        if LinksWell(c.resources, raw.links) {
          LinksSorted(c.resources, raw.links);
          DegreesExactly(c);
        }
      }
    }
  }

  lemma LinksSorted(resources: seq<Resource>, raw: seq<Link>)
    requires LinksWell(resources, raw)
    ensures var ls := SortBy(raw, LinkKey); forall i :: 0 <= i < |ls| ==> ls[i].a != ls[i].b
  {
    hide SortBy, SamePair, KnownResource;
    var ls := SortBy(raw, LinkKey);
    forall i | 0 <= i < |ls| ensures ls[i].a != ls[i].b {
      assert ls[i] in multiset(ls);
      assert ls[i] in multiset(raw);
      var j :| 0 <= j < |raw| && raw[j] == ls[i];
    }
  }
}
