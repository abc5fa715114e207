/** An evaluation (src/detection.cpp) whose verdict says less than its hotspots:
    a confirmed hotspot of unknown scope, and the verdict that there is none. */
module DetectionExamples {
  import opened Base
  import opened Model
  import opened Ordering
  import opened Checked
  import opened Totals
  import opened Regions
  import opened Snapshots
  import opened TopologyIndex
  import opened Classification
  import opened SaturationHistory
  import opened SaturatedComponents
  import opened SaturationSearch
  import opened Detection
  import opened DetectionTheorems

  // ----- two resources without links, one of them saturated -------------------------------

  const NOW: Millis := 10_000

  const ISLANDS: TopologyContent :=
    TopologyContent([Region(1, 0, [])], [Resource(1, 1, 0, []), Resource(2, 1, 0, [])], [])

  const UNITS: seq<CapacityEntry> := [CapacityEntry(1, 100, 0, 0, true), CapacityEntry(2, 100, 0, 0, true)]

  function Sample(id: U64, utilized: U64): SignalRecord {
    SignalRecord(id, utilized, 0, 0, 0, 0, 0, 1_000_000, QUALITY_HEALTHY, NOW)
  }

  const SAMPLES: seq<SignalRecord> := [Sample(1, 95), Sample(2, 10)]

  /** Fresh evidence under the default thresholds. */
  const ISLAND_EVIDENCE: Evidence := Evidence(
    Some(Topology(ISLANDS, 1, 0, 0, 0)), Some(Capacity(UNITS, 1, 1, NOW, 0)),
        Some(Signals(SAMPLES, 1, 1, 1, 0, NOW, 0)),
    None, None, None)

  const ISLAND_INPUT: Input := Input(ISLAND_EVIDENCE, NOW, true)

  /** Resource 1 has been saturated since time 1, three times before. */
  const ISLAND_HISTORY: History := map[1 := Entry(1, 9_000, 3)]

  lemma IslandsValid()
    ensures ValidInput(ISLAND_INPUT)
  {
    CycleCheckExact(ISLANDS.regions);
    assert StrictBy(ISLANDS.resources, ResourceKey);
    assert StrictBy(UNITS, CapacityKey) && StrictBy(SAMPLES, SignalKey);
    assert RegionKey(ISLANDS.regions[0]) == 1;
  }

  lemma FoundUnits(i: nat)
    requires i < 2
    ensures FindCapacity(UNITS, i + 1) == Some(UNITS[i]) && FindSignal(SAMPLES, i + 1) == Some(SAMPLES[i])
  {
    assert StrictBy(UNITS, CapacityKey) && StrictBy(SAMPLES, SignalKey);
    assert CapacityKey(UNITS[i]) == i + 1 && SignalKey(SAMPLES[i]) == i + 1;
  }

  lemma IslandShares()
    ensures Ppm(95, 100) == 950_000 && Ppm(10, 100) == 100_000 && Ppm(100, 200) == 500_000
    ensures Ppm(200, 200) == 1_000_000 && Ppm(2, 2) == 1_000_000
  {
  }

  /** Resource 1 is saturated, resource 2 is not, and both are believed. */
  lemma IslandReadings()
    ensures var rs := ReadingsOf(ISLAND_EVIDENCE, NOW);
            && |rs| == 2 && rs[0].id == 1 && rs[1].id == 2 && rs[0].units == 100 && rs[1].units == 100
            && rs[0].region == 1 && rs[1].region == 1
            && rs[0].cell.admissible && rs[0].cell.saturated && rs[1].cell.admissible && !rs[1].cell.saturated
  {
    hide FindCapacity, FindSignal, Ppm;
    FoundUnits(0);
    FoundUnits(1);
    IslandShares();
  }

  lemma SumsOfTwo(rs: seq<Reading>, w: Reading -> U64)
    requires |rs| == 2
    ensures Accumulated(rs, w) == SatAdd(w(rs[0]), w(rs[1]))
  {
    assert rs[..1] == [rs[0]] && rs[..1][..0] == [];
    assert Accumulated(rs[..1][..0], w) == 0;
  }

  lemma CountOfTwo(rs: seq<Reading>, p: Reading -> bool)
    requires |rs| == 2
    ensures Count(rs, p) == (if p(rs[0]) then 1 else 0) + (if p(rs[1]) then 1 else 0)
  {
    assert rs[..1] == [rs[0]] && rs[..1][..0] == [];
    assert Count(rs[..1][..0], p) == 0;
  }

  /** The evidence is admitted. */
  lemma IslandsAdmitted()
    ensures Refusal(ISLAND_INPUT).None?
    ensures CensusOf(ReadingsOf(ISLAND_EVIDENCE, NOW)).fabric == 200
  {
    hide ReadingsOf, Accumulated, Count, Pressures, Ppm;
    IslandReadings();
    IslandShares();
    var rs := ReadingsOf(ISLAND_EVIDENCE, NOW);
    SumsOfTwo(rs, FabricUnits);
    SumsOfTwo(rs, AdmissibleUnits);
    CountOfTwo(rs, IsUnusable);
  }

  ghost function IslandScene(): Scene { SceneOf(ISLAND_INPUT, Some(ISLAND_HISTORY)) }

  /** The only component is resource 1. */
  lemma OneIsland()
    ensures ValidScene(IslandScene()) && ComponentsOf(IslandScene()) == [[0]]
  {
    IslandsValid();
    SceneIsValid(ISLAND_INPUT, Some(ISLAND_HISTORY));
    IslandReadings();
    var s := IslandScene();
    hide ValidScene, ReadingsOf;
    OnlyOne(s);
  }

  lemma Singleton(c: seq<nat>, sat: seq<bool>)
    requires |c| > 0 && Ascending(c) && InRange(c, sat) && |sat| == 2 && !sat[1]
    ensures c == [0]
  {
    var n := |c| - 1;
    assert c[0] == 0 && c[n] == 0;
  }

  lemma EachIsFirst(s: Scene, k: nat)
    requires ValidScene(s) && |s.readings| == 2 && !s.readings[1].cell.saturated && k < |ComponentsOf(s)|
    ensures ComponentsOf(s)[k] == [0]
  {
    hide ValidTopology, Nested, CensusOf, ComponentsOf, Joined;
    ComponentClass(s, k);
    Singleton(ComponentsOf(s)[k], SaturatedFlags(s.readings));
  }

  lemma SomeComponent(s: Scene)
    requires ValidScene(s) && |s.readings| == 2 && s.readings[0].cell.saturated
    ensures |ComponentsOf(s)| > 0
  {
    hide ValidTopology, Nested, CensusOf, ComponentsOf, Joined, Apart, InRange;
    DetectFindsComponents(s);
    assert s.readings[0].cell.saturated;
  }

  lemma OnlyOne(s: Scene)
    requires ValidScene(s) && |s.readings| == 2 && s.readings[0].cell.saturated && !s.readings[1].cell.saturated
    ensures ComponentsOf(s) == [[0]]
  {
    hide ValidTopology, Nested, CensusOf, ComponentsOf, Joined, Linked;
    var cs := ComponentsOf(s);
    SomeComponent(s);
    EachIsFirst(s, 0);
    if |cs| > 1 {
      EachIsFirst(s, 1);
      MembersUnlinked(s, 0, 1, 0, 0);
    }
  }

  // ----- its hotspot and the verdict ----------------------------------------------------------

  /** No link, so no neighbour to compare with. */
  lemma NoNeighbour(s: Scene, m: seq<Reading>)
    requires s.topology.links == []
    ensures !Comparable(s, m)
  {
  }

  lemma OneRegion(m: seq<Reading>)
    requires |m| == 1
    ensures |RegionsOf(m)| == 1
  {
    RegionsComplete(m);
    var rs := RegionsOf(m);
    assert m[0].region in rs;
    assert forall k :: 0 <= k < |rs| ==> rs[k] in rs;
  }

  /** Its share is half the fabric and it has persisted for ten seconds. */
  lemma IslandHotspot()
    ensures Within(ComponentsOf(IslandScene()), |IslandScene().readings|)
    ensures var h := HotspotOf(IslandScene(), Pick(IslandScene().readings, [0]));
            h.persistent && h.scope == Unknown
  {
    OneIsland();
    IslandReadings();
    IslandsAdmitted();
    var s := IslandScene();
    ComponentsWithin(s);
    var m := Pick(s.readings, [0]);
    assert m == [s.readings[0]];
    ScopeMeaning(s, 0);
    NoNeighbour(s, m);
    OneRegion(m);
    IslandShare(s, m);
    IslandPersists(s, m);
    NotAllSaturated(s.readings);
    hide HotspotOf, ReadingsOf, ComponentsOf, Comparable, RegionsOf, AllSaturated, ValidScene, CensusOf;
  }

  lemma NotAllSaturated(rs: seq<Reading>)
    requires |rs| == 2 && rs[1].cell.admissible && !rs[1].cell.saturated
    ensures !AllSaturated(rs)
  {
  }

  lemma IslandShare(s: Scene, m: seq<Reading>)
    requires |m| == 1 && m[0].units == 100 && s.census.fabric == 200
    ensures HotspotOf(s, m).extent.share == 500_000
  {
    ShareFromCapacity(s, m);
    IslandShares();
    CapacityOfOne(s, m);
    hide HotspotOf, Ppm;
  }

  lemma CapacityOfOne(s: Scene, m: seq<Reading>)
    requires |m| == 1
    ensures HotspotOf(s, m).extent.capacity == m[0].units
  {
    hide BlameFrom, TallyOf, HealthyAround, RegionsOf, LatestFirst, FewestSamples, Peak, UniqueIds, ScopeOf, CauseOf;
    assert Accumulated(m[..0], FabricUnits) == 0;
  }

  lemma IslandPersists(s: Scene, m: seq<Reading>)
    requires s.history == Some(ISLAND_HISTORY) && s.now == NOW && s.th == DEFAULT_THRESHOLDS
    requires |m| == 1 && m[0].id == 1
    ensures HotspotOf(s, m).persistent
  {
    var e := EntryNow(s.history, s.now, 1);
    assert e == Entry(1, NOW, 4);
    assert LatestFirst(s.history, s.now, m[..0]) == NO_TIME;
    assert LatestFirst(s.history, s.now, m) == 1 && FewestSamples(s.history, s.now, m) == 4;
    hide BlameFrom, TallyOf, HealthyAround, RegionsOf, Peak, UniqueIds, ScopeOf, CauseOf, Accumulated, LatestFirst;
    hide FewestSamples, EntryNow;
  }

  /** One component, the first resource, confirmed and of unknown scope. */
  ghost predicate OneUnknown(s: Scene) {
    && |s.readings| == |s.topology.resources| > 0 && ComponentsOf(s) == [[0]]
    && var x := HotspotOf(s, Pick(s.readings, [0])); x.persistent && x.scope == Unknown
  }

  lemma QuietWithOne(s: Scene)
    requires OneUnknown(s) && Within(ComponentsOf(s), |s.readings|)
    ensures var a := Conclude(s, FileAll(Hotspots(s, ComponentsOf(s))));
            && !a.refused && |a.hotspots| == 1 && a.hotspots[0].persistent && a.hotspots[0].scope == Unknown
            && a.scope == Quiet
  {
    hide HotspotOf, ComponentsOf, FileAll, Conclude, Hotspots, Within;
    var x := HotspotOf(s, Pick(s.readings, [0]));
    JudgedOne(s);
    FiledOne(x);
    ConcludedOne(s, x);
  }

  lemma JudgedOne(s: Scene)
    requires |s.readings| > 0
    ensures Within([[0]], |s.readings|) && Hotspots(s, [[0]]) == [HotspotOf(s, Pick(s.readings, [0]))]
  {
    hide HotspotOf;
  }

  /** The confirmed hotspot is reported, its scope is unknown, and the verdict is
      that there is no congestion. */
  lemma ConfirmedAndQuiet()
    ensures ValidInput(ISLAND_INPUT)
    ensures var a := Detect(ISLAND_INPUT, Some(ISLAND_HISTORY));
            && !a.refused && |a.hotspots| == 1 && a.hotspots[0].persistent && a.hotspots[0].scope == Unknown
            && a.scope == Quiet
  {
    hide HotspotOf, ReadingsOf, ComponentsOf, CensusOf, Refusal, ValidInput, Detect;
    IslandsValid();
    IslandsAdmitted();
    OneIsland();
    IslandHotspot();
    AdmittedIs(ISLAND_INPUT, Some(ISLAND_HISTORY));
    hide Conclude, FileAll, Hotspots;
    QuietWithOne(IslandScene());
  }

  lemma AdmittedIs(i: Input, h: Option<History>)
    requires ValidInput(i) && Refusal(i).None?
    ensures i.evidence.topology.Some? && i.evidence.capacity.Some? && i.evidence.signals.Some?
    ensures var s := SceneOf(i, h);
            && |s.readings| == |s.topology.resources| && Within(ComponentsOf(s), |s.readings|)
            && Detect(i, h) == Conclude(s, FileAll(Hotspots(s, ComponentsOf(s))))
  {
    SceneIsValid(i, h);
    ComponentsWithin(SceneOf(i, h));
    hide Conclude, FileAll, Hotspots, ComponentsOf, ValidTopology, CensusOf, Refusal, ReadingsOf;
  }

  lemma FiledOne(h: Hotspot)
    requires h.persistent
    ensures FileAll([h]) == Report([h], [], 0)
  {
    assert [h][..0] == [];
    assert FileAll([h][..0]) == Report([], [], 0);
  }

  lemma ConcludedOne(s: Scene, h: Hotspot)
    requires h.scope == Unknown
    ensures var a := Conclude(s, Report([h], [], 0)); !a.refused && a.hotspots == [h] && a.scope == Quiet
  {
    hide Widest, Escalates, Ppm;
    QuietVerdict([h]);
  }
}
