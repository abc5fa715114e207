/** The loops of detect (src/detection.cpp), proved against Detection. */
module Detector {
  import opened Base
  import opened Model
  import opened Ordering
  import opened Checked
  import opened Totals
  import opened Snapshots
  import opened TopologyIndex
  import opened Regions
  import opened PathIndex
  import opened References
  import opened Classification
  import opened SaturationHistory
  import opened SaturatedComponents
  import opened SaturationSearch
  import opened DemandAttribution
  import opened Detection
  import opened DetectionTheorems

  /** The capacity entry of a saturated resource, as classification read it. */
  ghost predicate CapacityKnown(es: seq<CapacityEntry>, m: seq<Reading>) {
    forall k :: 0 <= k < |m| ==> FindCapacity(es, m[k].id).Some? && FindCapacity(es, m[k].id).value.units == m[k].units
  }

  function PairAt(h: Option<History>, now: Millis, r: Reading): Pair { (r.id, EntryNow(h, now, r.id)) }

  function PairsOf(h: Option<History>, now: Millis, m: seq<Reading>): (r: seq<Pair>)
    ensures |r| == |m| && forall k :: 0 <= k < |m| ==> r[k] == PairAt(h, now, m[k])
  {
    seq(|m|, k requires 0 <= k < |m| => PairAt(h, now, m[k]))
  }

  ghost function HistoryOf(t: SaturationTracker?): Option<History>
    reads t
  {
    if t == null then None else Some(t.View())
  }

  datatype Peaks = Peaks(pressure: U32, utilization: U32, queue: U32, buffer: U32)

  function PeaksOf(m: seq<Reading>): Peaks {
    Peaks(Peak(m, PressureAt), Peak(m, UtilizationAt), Peak(m, QueueAt), Peak(m, BufferAt))
  }

  lemma PeaksSnoc(m: seq<Reading>, r: Reading)
    ensures var p, q := PeaksOf(m), PeaksOf(m + [r]);
            && q.pressure == Max(p.pressure, r.cell.pressure) && q.utilization == Max(p.utilization, r.cell.utilization)
            && q.queue == Max(p.queue, r.cell.queue) && q.buffer == Max(p.buffer, r.cell.buffer)
  {
    assert (m + [r])[..|m|] == m;
  }

  lemma LatestSnoc(h: Option<History>, now: Millis, m: seq<Reading>, r: Reading)
    ensures LatestFirst(h, now, m + [r]) == Max(LatestFirst(h, now, m), EntryNow(h, now, r.id).first)
  {
    hide EntryNow;
    assert (m + [r])[..|m|] == m;
  }

  lemma FewestSnoc(h: Option<History>, now: Millis, m: seq<Reading>, r: Reading)
    ensures FewestSamples(h, now, m + [r])
            == if |m| == 0 then EntryNow(h, now, r.id).samples
               else Min(FewestSamples(h, now, m), EntryNow(h, now, r.id).samples)
  {
    hide EntryNow;
    assert (m + [r])[..|m|] == m;
  }

  lemma PairsSnoc(h: Option<History>, now: Millis, m: seq<Reading>, r: Reading)
    ensures PairsOf(h, now, m + [r]) == PairsOf(h, now, m) + [PairAt(h, now, r)]
  {
    hide EntryNow;
  }

  /** The loop over a component's members: capacity, peaks, carried history. */
  method Measure(es: seq<CapacityEntry>, tracker: SaturationTracker?, now: Millis, m: seq<Reading>)
    returns (capacity: U64, peaks: Peaks, first: Millis, samples: U32, pairs: seq<Pair>)
    requires tracker != null ==> tracker.Valid()
    requires CapacityKnown(es, m)
    ensures capacity == Accumulated(m, FabricUnits) && peaks == PeaksOf(m)
    ensures first == LatestFirst(HistoryOf(tracker), now, m) && samples == FewestSamples(HistoryOf(tracker), now, m)
    ensures pairs == PairsOf(HistoryOf(tracker), now, m)
  {
    hide FindCapacity, SatAdd, Accumulated, LatestFirst, FewestSamples, PeaksOf;
    ghost var h := HistoryOf(tracker);
    MeasureNothing(h, now);
    capacity, peaks, first, samples, pairs := 0, Peaks(0, 0, 0, 0), NO_TIME, 0, [];
    var known := false;
    for k := 0 to |m|
      invariant capacity == Accumulated(m[..k], FabricUnits) && peaks == PeaksOf(m[..k])
      invariant first == LatestFirst(h, now, m[..k]) && samples == FewestSamples(h, now, m[..k])
      invariant pairs == PairsOf(h, now, m[..k])
      invariant known <==> k > 0
    {
      var r := m[k];
      assert m[..k + 1] == m[..k] + [r];
      PeaksSnoc(m[..k], r);
      AccumulatedSnoc(m[..k], r, FabricUnits);
      LatestSnoc(h, now, m[..k], r);
      FewestSnoc(h, now, m[..k], r);
      PairsSnoc(h, now, m[..k], r);
      var entry := FindCapacity(es, r.id);
      if entry.Some? {
        capacity := SatAdd(capacity, entry.value.units);
      }
      peaks := Peaks(Max(peaks.pressure, r.cell.pressure), Max(peaks.utilization, r.cell.utilization),
                     Max(peaks.queue, r.cell.queue), Max(peaks.buffer, r.cell.buffer));
      var state := Entry(now, now, 1);
      if tracker != null {
        var previous := tracker.Carried(r.id);
        state := Continue(previous, now);
      }
      assert state == EntryNow(h, now, r.id);
      pairs := pairs + [(r.id, state)];
      if !known {
        first, samples, known := state.first, state.samples, true;
      } else {
        if state.first > first {
          first := state.first;
        }
        if state.samples < samples {
          samples := state.samples;
        }
      }
    }
    assert m[..|m|] == m;
  }

  lemma MeasureNothing(h: Option<History>, now: Millis)
    ensures Accumulated([], FabricUnits) == 0 && PeaksOf([]) == Peaks(0, 0, 0, 0)
    ensures LatestFirst(h, now, []) == NO_TIME && FewestSamples(h, now, []) == 0
  {
  }

  method HealthyIn(s: Scene, neighbours: seq<U64>) returns (healthy: seq<U64>)
    ensures healthy == HealthyAmong(s, neighbours)
  {
    hide HealthyId;
    healthy := [];
    for j := 0 to |neighbours|
      invariant healthy == HealthyAmong(s, neighbours[..j])
    {
      assert neighbours[..j + 1][..j] == neighbours[..j];
      if HealthyId(s, neighbours[j]) {
        healthy := healthy + [neighbours[j]];
      }
    }
    assert neighbours[..|neighbours|] == neighbours;
  }

  /** Admissible, unsaturated neighbours of every member. */
  method GatherHealthy(s: Scene, ix: Index, m: seq<Reading>) returns (healthy: seq<U64>)
    requires ValidTopology(s.topology) && IndexOf(s.topology, ix) && |s.readings| == |s.topology.resources|
    ensures healthy == UniqueIds(HealthyAround(s, m))
  {
    hide ValidTopology, IndexOf, Partners, HealthyAmong, UniqueIds;
    var all: seq<U64> := [];
    for k := 0 to |m|
      invariant all == HealthyAround(s, m[..k])
    {
      var more := HealthyIn(s, Neighbors(s.topology, ix, m[k].id));
      all := all + more;
      assert m[..k + 1][..k] == m[..k];
    }
    assert m[..|m|] == m;
    healthy := UniqueIds(all);
  }

  method GatherRegions(m: seq<Reading>) returns (regions: seq<U64>)
    ensures regions == RegionsOf(m)
  {
    hide UniqueIds;
    var all: seq<U64> := [];
    var k := 0;
    while k < |m| && |all| < MAX_REGIONS
      invariant k <= |m| && |all| == k <= MAX_REGIONS
      invariant forall i :: 0 <= i < k ==> all[i] == m[i].region
    {
      all := all + [m[k].region];
      k := k + 1;
    }
    assert all == seq(k, i requires 0 <= i < k => m[i].region);
    regions := UniqueIds(all);
  }

  /** The contributor loop over sorted accumulators. */
  method CollectContributors(t: Tally) returns (c: Collected)
    ensures c == Contributors(t)
  {
    hide SortBy, Ppm;
    var sorted := SortBy(t.accs, AccumulatorKey);
    c := Collected([], 0, false);
    for k := 0 to |sorted|
      invariant c == Collect(sorted[..k], t.freshBps)
    {
      assert sorted[..k + 1][..k] == sorted[..k];
      if sorted[k].freshBps == 0 {
        continue;
      }
      if |c.listed| >= MAX_CONTRIBUTORS {
        c := c.(count := c.count + 1, truncated := true);
        continue;
      }
      c := c.(listed := c.listed + [ContributorOf(sorted[k], t.freshBps)], count := c.count + 1);
    }
    assert sorted[..|sorted|] == sorted;
    c := c.(listed := SortBy(c.listed, ContributorKey));
  }

  /** Listed resources stop at the reporting bound. */
  method ListResources(m: seq<Reading>) returns (resources: seq<U64>, truncated: bool)
    ensures resources == Take(IdsOf(m), MAX_HOTSPOT_RESOURCES) && truncated == (|m| > MAX_HOTSPOT_RESOURCES)
  {
    resources, truncated := [], false;
    for k := 0 to |m|
      invariant |resources| == k <= MAX_HOTSPOT_RESOURCES && !truncated
      invariant forall j :: 0 <= j < k ==> resources[j] == m[j].id
    {
      if |resources| >= MAX_HOTSPOT_RESOURCES {
        truncated := true;
        assert resources == IdsOf(m)[..k];
        return;
      }
      resources := resources + [m[k].id];
    }
    assert resources == IdsOf(m);
  }

  ghost predicate FlowsIndexed(flows: Option<Flows>, rix: ReverseIndex) {
    flows.Some? ==>
      ValidPaths(flows.value.paths) && ReverseOf(flows.value.paths, rix) && SortedBy(flows.value.traffic, TrafficPath)
  }

  method MeasureExtent(s: Scene, es: seq<CapacityEntry>, ix: Index, tracker: SaturationTracker?, m: seq<Reading>)
    returns (x: Extent, pairs: seq<Pair>)
    requires ValidTopology(s.topology) && IndexOf(s.topology, ix) && |s.readings| == |s.topology.resources|
    requires tracker != null ==> tracker.Valid()
    requires s.history == HistoryOf(tracker) && CapacityKnown(es, m)
    ensures x == ExtentOf(s, m) && pairs == PairsOf(s.history, s.now, m)
  {
    hide ValidTopology, IndexOf, CapacityKnown, Accumulated, LatestFirst, FewestSamples, Peak, UniqueIds;
    hide HealthyAround, RegionsOf, PairsOf, IdsOf;
    var resources, truncated := ListResources(m);
    var capacity, peaks, first, samples;
    capacity, peaks, first, samples, pairs := Measure(es, tracker, s.now, m);
    var healthy := GatherHealthy(s, ix, m);
    var regions := GatherRegions(m);
    var count := |healthy|;
    if |healthy| > MAX_HOTSPOT_RESOURCES {
      healthy := healthy[..MAX_HOTSPOT_RESOURCES];
    }
    x := Extent(resources, |m|, truncated, capacity, Ppm(capacity, s.census.fabric),
                peaks.pressure, peaks.utilization, peaks.queue, peaks.buffer,
                healthy, count, count > MAX_HOTSPOT_RESOURCES, regions, first, samples);
  }

  method AttributeDemand(s: Scene, rix: ReverseIndex, m: seq<Reading>) returns (b: Blame)
    requires FlowsIndexed(s.flows, rix)
    ensures b == BlameFrom(s, TallyOf(s, IdsOf(m)))
  {
    hide ValidPaths, ReverseOf, Contributors, AddAll, Incidences;
    var t := EMPTY_TALLY;
    if s.flows.Some? {
      t := Accumulate(Freshness(s.now, s.th.maxTrafficAge), IdsOf(m), s.flows.value.paths, rix, s.flows.value.traffic);
    }
    var collected := CollectContributors(t);
    var confidence: U32 := Ppm(t.freshBps, SatAdd(t.freshBps, t.staleBps));
    if t.incomplete {
      confidence := 0;
    }
    b := Blame(t.freshBps, t.staleBps, confidence, collected.listed, collected.count, collected.truncated, t.freshCount,
               s.flows.Some? && !t.incomplete && confidence >= s.th.minAttributionPpm);
  }

  /** Everything detect does with one component. */
  method Examine(s: Scene, es: seq<CapacityEntry>, ix: Index, rix: ReverseIndex, tracker: SaturationTracker?,
      m: seq<Reading>)
    returns (h: Hotspot, pairs: seq<Pair>)
    requires ValidTopology(s.topology) && IndexOf(s.topology, ix) && |s.readings| == |s.topology.resources|
    requires tracker != null ==> tracker.Valid()
    requires s.history == HistoryOf(tracker) && CapacityKnown(es, m) && FlowsIndexed(s.flows, rix)
    ensures h == HotspotOf(s, m) && pairs == PairsOf(s.history, s.now, m)
  {
    hide ValidTopology, IndexOf, CapacityKnown, FlowsIndexed, ExtentOf, BlameFrom, TallyOf, PairsOf, Judge;
    var x;
    x, pairs := MeasureExtent(s, es, ix, tracker, m);
    var b := AttributeDemand(s, rix, m);
    h := Judge(s, x, b);
  }

  /** The verdict loops over confirmed hotspots. */
  method Verdict(s: Scene, r: Report) returns (a: Assessment)
    ensures a == Conclude(s, r)
  {
    hide SatAdd, Ppm;
    var widest, localized, share := Quiet, 0, 0;
    for k := 0 to |r.hotspots|
      invariant widest == Widest(r.hotspots[..k])
      invariant localized > 0 <==> exists j :: 0 <= j < k && r.hotspots[j].scope == Localized
      invariant localized >= 0 && share == Accumulated(r.hotspots[..k], ShareBps)
    {
      var h := r.hotspots[k];
      assert r.hotspots[..k + 1][..k] == r.hotspots[..k];
      if Rank(h.scope) > Rank(widest) {
        widest := h.scope;
      }
      if h.scope == Localized {
        localized := localized + 1;
      }
      share := SatAdd(share, h.extent.share);
    }
    assert r.hotspots[..|r.hotspots|] == r.hotspots;
    var globalShare := Ppm(s.census.saturated, s.census.fabric);
    var escalation := false;
    if widest == Global {
      escalation := true;
    } else if globalShare >= s.th.globalSharePpm && |r.hotspots| > 0 {
      escalation := true;
    } else if |r.hotspots| > s.budget.maxIntents && share >= s.budget.maxPlanShare {
      escalation := true;
    }
    a := Assessment(widest, false, r.hotspots, r.candidates, s.census, globalShare, localized > 0, escalation,
        s.binding);
  }

  // ----- history pairs of all components -----------------------------------------------------

  ghost function AllPairs(s: Scene, cs: seq<seq<nat>>): seq<Pair>
    requires Within(cs, |s.readings|)
  {
    if |cs| == 0 then []
    else AllPairs(s, cs[..|cs| - 1]) + PairsOf(s.history, s.now, Pick(s.readings, cs[|cs| - 1]))
  }

  ghost function Flatten(cs: seq<seq<nat>>): seq<nat> {
    if |cs| == 0 then [] else Flatten(cs[..|cs| - 1]) + cs[|cs| - 1]
  }

  lemma {:induction false} FlattenMembers(cs: seq<seq<nat>>, x: nat)
    ensures x in Flatten(cs) <==> exists k :: 0 <= k < |cs| && x in cs[k]
  {
    if |cs| == 0 {
    } else {
      var init := cs[..|cs| - 1];
      FlattenMembers(init, x);
      assert forall k :: 0 <= k < |init| ==> init[k] == cs[k];
    }
  }

  lemma {:induction false} FlattenDistinct(cs: seq<seq<nat>>)
    requires forall k :: 0 <= k < |cs| ==> Ascending(cs[k])
    requires forall k, m, x: nat :: 0 <= k < m < |cs| && x in cs[k] ==> x !in cs[m]
    ensures Distinct(Flatten(cs))
  {
    if |cs| == 0 {
    } else {
      var init, last := cs[..|cs| - 1], cs[|cs| - 1];
      assert forall k :: 0 <= k < |init| ==> init[k] == cs[k];
      FlattenDistinct(init);
      var a, all := Flatten(init), Flatten(cs);
      forall i, j | 0 <= i < |a| && 0 <= j < |last| ensures a[i] != last[j] {
        FlattenMembers(init, a[i]);
        assert a[i] in a && last[j] in last;
      }
    }
  }

  lemma {:induction false} AllPairsAre(s: Scene, cs: seq<seq<nat>>)
    requires Within(cs, |s.readings|)
    ensures |AllPairs(s, cs)| == |Flatten(cs)|
    ensures forall k :: 0 <= k < |Flatten(cs)| ==>
      Flatten(cs)[k] < |s.readings| && AllPairs(s, cs)[k] == PairAt(s.history, s.now, s.readings[Flatten(cs)[k]])
  {
    hide PairAt;
    if |cs| == 0 {
    } else {
      var init := cs[..|cs| - 1];
      assert forall k :: 0 <= k < |init| ==> init[k] == cs[k];
      AllPairsAre(s, init);
    }
  }

  /** There are never more pairs than resources: the history bound of
      detect cuts nothing. */
  lemma PairsWithinBound(s: Scene)
    requires ValidScene(s)
    ensures Within(ComponentsOf(s), |s.readings|)
    ensures |AllPairs(s, ComponentsOf(s))| <= |s.readings| <= MAX_HISTORY
  {
    hide ValidScene, ComponentsOf, AllPairs, Flatten, ValidTopology;
    SceneBounded(s);
    ComponentsWithin(s);
    var cs := ComponentsOf(s);
    ComponentsDisjoint(s);
    FlattenDistinct(cs);
    AllPairsAre(s, cs);
    DistinctBelow(Flatten(cs), |s.readings|);
  }

  lemma SceneBounded(s: Scene)
    requires ValidScene(s)
    ensures ValidTopology(s.topology) && |s.readings| == |s.topology.resources| <= MAX_HISTORY
  {
    hide Nested, CensusOf, ValidRegions, ValidLinks;
  }

  lemma ComponentsDisjoint(s: Scene)
    requires ValidScene(s)
    ensures var cs := ComponentsOf(s);
            && (forall k :: 0 <= k < |cs| ==> Ascending(cs[k]))
            && (forall k, m, x: nat :: 0 <= k < m < |cs| && x in cs[k] ==> x !in cs[m])
  {
    hide ValidScene, ComponentsOf, Joined, Linked, ValidTopology;
    SceneBounded(s);
    var cs := ComponentsOf(s);
    DetectFindsComponents(s);
    forall k, m, x: nat | 0 <= k < m < |cs| && x in cs[k] ensures x !in cs[m] {
      assert Apart(s, cs[k], cs[m]);
    }
  }

  /** A saturated resource is in some component. */
  lemma SaturatedMember(s: Scene, i: nat) returns (c: nat)
    requires ValidScene(s) && i < |s.readings| && s.readings[i].cell.saturated
    ensures c < |ComponentsOf(s)| && i in ComponentsOf(s)[c]
  {
    hide ValidScene, ComponentsOf, Joined, Apart, InRange, Ascending, ValidTopology;
    SceneBounded(s);
    DetectFindsComponents(s);
    c :| 0 <= c < |ComponentsOf(s)| && i in ComponentsOf(s)[c];
  }

  lemma SaturatedPaired(s: Scene, i: nat) returns (k: nat)
    requires ValidScene(s) && i < |s.readings| && s.readings[i].cell.saturated
    requires Within(ComponentsOf(s), |s.readings|)
    ensures k < |AllPairs(s, ComponentsOf(s))| && AllPairs(s, ComponentsOf(s))[k].0 == s.readings[i].id
  {
    hide ValidScene, ComponentsOf, AllPairs, Flatten, ValidTopology;
    SceneBounded(s);
    var c := SaturatedMember(s, i);
    var cs := ComponentsOf(s);
    AllPairsAre(s, cs);
    FlattenMembers(cs, i);
    k :| 0 <= k < |Flatten(cs)| && Flatten(cs)[k] == i;
  }

  /** Replacing the history with these pairs is one tracking step. */
  lemma PairsTrack(s: Scene, next: History)
    requires ValidScene(s) && s.history.Some? && Within(ComponentsOf(s), |s.readings|)
    requires MadeOf(next, AllPairs(s, ComponentsOf(s)))
    ensures next == Track(s.history.value, Saw(s.now, SaturatedIds(s.readings)))
  {
    hide ValidScene, ComponentsOf, AllPairs, MadeOf, Continue, Carry, ValidTopology;
    SceneBounded(s);
    var ids, pairs := SaturatedIds(s.readings), AllPairs(s, ComponentsOf(s));
    forall k | 0 <= k < |pairs|
      ensures pairs[k].0 in ids && pairs[k].1 == Continue(Carry(s.history.value, pairs[k].0), s.now)
    {
      PairSaturated(s, k);
    }
    forall id | id in ids ensures exists k :: 0 <= k < |pairs| && pairs[k].0 == id {
      var i :| 0 <= i < |s.readings| && s.readings[i].cell.saturated && s.readings[i].id == id;
      var k := SaturatedPaired(s, i);
    }
    ReplacementTracks(s.history.value, s.now, ids, pairs, next);
  }

  lemma PairSaturated(s: Scene, k: nat)
    requires ValidScene(s) && s.history.Some? && Within(ComponentsOf(s), |s.readings|)
    requires k < |AllPairs(s, ComponentsOf(s))|
    ensures var p := AllPairs(s, ComponentsOf(s))[k];
            p.0 in SaturatedIds(s.readings) && p.1 == Continue(Carry(s.history.value, p.0), s.now)
  {
    hide ValidTopology, Nested, CensusOf, ComponentsOf, AllPairs, Flatten, Joined, Carry, Continue;
    var cs := ComponentsOf(s);
    AllPairsAre(s, cs);
    var x := Flatten(cs)[k];
    FlattenMembers(cs, x);
    var c :| 0 <= c < |cs| && x in cs[c];
    MemberInRange(s, c, x);
  }

  // ----- detect --------------------------------------------------------------------------------

  lemma MembersKnown(i: Input, h: Option<History>, k: nat)
    requires ValidInput(i) && Refusal(i).None?
    requires ValidScene(SceneOf(i, h)) && k < |ComponentsOf(SceneOf(i, h))|
    requires Within(ComponentsOf(SceneOf(i, h)), |SceneOf(i, h).readings|)
    ensures var s := SceneOf(i, h);
            CapacityKnown(i.evidence.capacity.value.entries, Pick(s.readings, ComponentsOf(s)[k]))
  {
    hide ValidTopology, Nested, CensusOf, ComponentsOf, CoverageOk, ReferencesResolve, Sense, FindCapacity;
    hide FindSignal;
    var s, es := SceneOf(i, h), i.evidence.capacity.value.entries;
    var c := ComponentsOf(s)[k];
    var m := Pick(s.readings, c);
    forall j | 0 <= j < |m| ensures FindCapacity(es, m[j].id).Some?
        && FindCapacity(es, m[j].id).value.units == m[j].units {
      assert c[j] in c;
      MemberInRange(s, k, c[j]);
      assert s.readings[c[j]] == Read(s.th, s.now, es, i.evidence.signals.value.records, s.topology.resources[c[j]]);
    }
  }

  /** A refused evaluation breaks every series. */
  method BreakSeries(tracker: SaturationTracker?)
    requires tracker != null ==> tracker.Valid()
    modifies tracker
    ensures tracker != null ==> tracker.Valid() && tracker.View() == map[]
  {
    if tracker != null {
      tracker.Replace([]);
    }
  }

  method CheckReferences(e: Evidence, now: Millis) returns (ok: bool)
    requires ValidEvidence(e) && e.topology.Some? && e.capacity.Some? && e.signals.Some?
    ensures ok <==> ReferencesResolve(e, now)
  {
    hide Resolves, PathsResolve, ValidRegions, ValidLinks;
    var c := e.topology.value.content;
    assert SortedBy(e.capacity.value.entries, CapacityKey) && SortedBy(e.signals.value.records, SignalKey);
    ok := MergeResolves(c.resources, e.capacity.value.entries, CapacityKey);
    if ok {
      ok := MergeResolves(c.resources, e.signals.value.records, SignalKey);
    }
    if ok && PathsOk(e, now) {
      ok := PathReferencesResolve(c, e.paths.value.paths);
    }
  }

  lemma ExamineMore(s: Scene, cs: seq<seq<nat>>, k: nat)
    requires Within(cs, |s.readings|) && k < |cs|
    ensures Within(cs[..k], |s.readings|) && Within(cs[..k + 1], |s.readings|)
    ensures forall j :: 0 <= j < |cs[k]| ==> cs[k][j] < |s.readings|
    ensures FileAll(Hotspots(s, cs[..k + 1])) == FileOne(FileAll(Hotspots(s, cs[..k])),
        HotspotOf(s, Pick(s.readings, cs[k])))
    ensures AllPairs(s, cs[..k + 1]) == AllPairs(s, cs[..k]) + PairsOf(s.history, s.now, Pick(s.readings, cs[k]))
  {
    hide HotspotOf, PairsOf, FileOne;
    var before, after := cs[..k], cs[..k + 1];
    assert after[..k] == before;
    assert Hotspots(s, after)[..k] == Hotspots(s, before);
  }

  lemma ExamineNone(s: Scene)
    ensures FileAll(Hotspots(s, [])) == Report([], [], 0) && AllPairs(s, []) == []
  {
  }

  /** Judges every component; one history pair per saturated resource. */
  method ExamineAll(i: Input, s: Scene, ix: Index, rix: ReverseIndex, tracker: SaturationTracker?)
    returns (r: Report, pairs: seq<Pair>)
    requires ValidInput(i) && Refusal(i).None?
    requires tracker != null ==> tracker.Valid()
    requires s == SceneOf(i, HistoryOf(tracker)) && ValidScene(s)
    requires IndexOf(s.topology, ix) && FlowsIndexed(s.flows, rix)
    ensures Within(ComponentsOf(s), |s.readings|)
    ensures r == FileAll(Hotspots(s, ComponentsOf(s))) && pairs == AllPairs(s, ComponentsOf(s))
  {
    var es := i.evidence.capacity.value.entries;
    ComponentsWithin(s);
    var components := FindComponents(s.topology, ix, SaturatedFlags(s.readings));
    assert components == ComponentsOf(s);
    hide ValidInput, Refusal, ValidTopology, Nested, CensusOf, ReadingsOf, ComponentsOf, IndexOf;
    hide FlowsIndexed, HotspotOf, PairsOf;
    forall k | 0 <= k < |components| ensures ComponentKnown(es, s, components[k]) {
      MembersKnown(i, HistoryOf(tracker), k);
    }
    r, pairs := ExamineEach(s, es, ix, rix, tracker, components);
  }

  ghost predicate ComponentKnown(es: seq<CapacityEntry>, s: Scene, c: seq<nat>) {
    && (forall j :: 0 <= j < |c| ==> c[j] < |s.readings|)
    && CapacityKnown(es, Pick(s.readings, c))
  }

  method ExamineEach(s: Scene, es: seq<CapacityEntry>, ix: Index, rix: ReverseIndex, tracker: SaturationTracker?,
                     components: seq<seq<nat>>) returns (r: Report, pairs: seq<Pair>)
    requires ValidTopology(s.topology) && IndexOf(s.topology, ix) && |s.readings| == |s.topology.resources|
    requires tracker != null ==> tracker.Valid()
    requires s.history == HistoryOf(tracker) && FlowsIndexed(s.flows, rix) && Within(components, |s.readings|)
    requires forall k :: 0 <= k < |components| ==> ComponentKnown(es, s, components[k])
    ensures r == FileAll(Hotspots(s, components)) && pairs == AllPairs(s, components)
  {
    hide ValidTopology, IndexOf, FlowsIndexed, HotspotOf, PairsOf, CapacityKnown, FileOne, Hotspots, FileAll;
    hide AllPairs, Pick;
    r, pairs := Report([], [], 0), [];
    assert components[..0] == [];
    ExamineNone(s);
    for k := 0 to |components|
      invariant Within(components[..k], |s.readings|)
      invariant r == FileAll(Hotspots(s, components[..k])) && pairs == AllPairs(s, components[..k])
    {
      ExamineMore(s, components, k);
      assert ComponentKnown(es, s, components[k]);
      hide Within;
      var h, more := Examine(s, es, ix, rix, tracker, Pick(s.readings, components[k]));
      r := FileOne(r, h);
      pairs := pairs + more;
    }
    assert components[..|components|] == components;
  }

  /** detect, refining the specification: the assessment it returns and what it
      leaves in the tracker. */
  method RunDetect(i: Input, ix: Index, rix: ReverseIndex, tracker: SaturationTracker?) returns (a: Assessment)
    requires ValidInput(i)
    requires i.evidence.topology.Some? ==> IndexOf(i.evidence.topology.value.content, ix)
    requires i.evidence.paths.Some? ==> ReverseOf(i.evidence.paths.value.paths, rix)
    requires tracker != null ==> tracker.Valid()
    modifies tracker
    ensures a == Detect(i, old(HistoryOf(tracker)))
    ensures tracker != null ==> tracker.Valid() && tracker.View() == Track(old(tracker.View()), Observe(i))
  {
    hide ValidTopology, IndexOf, ReverseOf, CensusOf, ReadingsOf, ReferencesResolve, Conclude, Hotspots,
        ComponentsOf, SaturatedIds,
      ValidPaths, ValidTraffic, AllPairs, ViewOf, MadeOf, CoverageOk, FileAll;
    var e, now := i.evidence, i.now;
    if e.topology.None? || !TopologyFresh(e.topology.value, now) || !SignalsOk(e, now) {
      BreakSeries(tracker);
      return RefusedAssessment(i, Unknown);
    }
    var n := |e.topology.value.content.resources|;
    if n == 0 {
      BreakSeries(tracker);
      return RefusedAssessment(i, Quiet);
    }
    if !i.preverified {
      var resolved := CheckReferences(e, now);
      if !resolved {
        BreakSeries(tracker);
        return RefusedAssessment(i, Unknown);
      }
    }
    a := Analyse(i, ix, rix, tracker);
  }

  lemma CensusBounded(rs: seq<Reading>)
    ensures CensusOf(rs).unusableCount <= |rs|
  {
  }

  /** The part of detect behind its reference checks. */
  method Analyse(i: Input, ix: Index, rix: ReverseIndex, tracker: SaturationTracker?) returns (a: Assessment)
    requires ValidInput(i) && CensusTaken(i)
    requires IndexOf(i.evidence.topology.value.content, ix)
    requires i.evidence.paths.Some? ==> ReverseOf(i.evidence.paths.value.paths, rix)
    requires tracker != null ==> tracker.Valid()
    modifies tracker
    ensures a == Detect(i, old(HistoryOf(tracker)))
    ensures tracker != null ==> tracker.Valid() && tracker.View() == Track(old(tracker.View()), Observe(i))
  {
    hide ValidRegions, ValidLinks, HasRegion, StrictBy, IndexOf, ReverseOf, Conclude, Hotspots, ComponentsOf,
        SaturatedIds, ReferencesResolve,
      ValidPaths, AllPairs, ViewOf, MadeOf, FileAll, CensusOf, Nested, Read;
    var e, now := i.evidence, i.now;
    var rs := e.topology.value.content.resources;
    var readings, census := Classify(ThresholdsOf(e), now, e.capacity.value.entries, e.signals.value.records, rs);
    CensusBounded(readings);
    if census.fabric == 0 || Ppm(|rs| - census.unusableCount, |rs|) < ThresholdsOf(e).minCoveragePpm
       || Ppm(census.admissible, census.fabric) < ThresholdsOf(e).minCoveragePpm {
      BreakSeries(tracker);
      return RefusedAssessment(i, Unknown);
    }
    a := Confirm(i, ix, rix, tracker, readings, census);
  }

  /** The part of detect behind its coverage checks. */
  method Confirm(i: Input, ix: Index, rix: ReverseIndex, tracker: SaturationTracker?, readings: seq<Reading>,
      census: Census)
    returns (a: Assessment)
    requires ValidInput(i) && Refusal(i).None? && IndexOf(i.evidence.topology.value.content, ix)
    requires i.evidence.paths.Some? ==> ReverseOf(i.evidence.paths.value.paths, rix)
    requires readings == ReadingsOf(i.evidence, i.now) && census == CensusOf(readings)
    requires tracker != null ==> tracker.Valid()
    modifies tracker
    ensures a == Detect(i, old(HistoryOf(tracker)))
    ensures tracker != null ==> tracker.Valid() && tracker.View() == Track(old(tracker.View()), Observe(i))
  {
    hide ValidTopology, IndexOf, ReverseOf, Conclude, Hotspots, ComponentsOf, SaturatedIds, ReferencesResolve,
        CoverageOk,
      ValidPaths, AllPairs, ViewOf, MadeOf, FileAll, CensusOf, ReadingsOf, Nested;
    var e, now := i.evidence, i.now;
    ghost var h := HistoryOf(tracker);
    SceneIsValid(i, h);
    ghost var s := SceneOf(i, h);
    var flows := if TrafficOk(e, now) then Some(Flows(e.paths.value.paths, e.traffic.value.records)) else None;
    var history := None;
    if tracker != null {
      history := Some(ViewOf(tracker.entries));
    }
    var scene := Scene(now, ThresholdsOf(e), BudgetOf(e), PolicyLive(e, now), e.topology.value.content, readings,
        census,
                       flows, history, BindingOf(e));
    assert scene == s;
    var r, pairs := ExamineAll(i, scene, ix, rix, tracker);
    PairsWithinBound(s);
    if tracker != null {
      assert |pairs| <= MAX_HISTORY;
      tracker.Replace(pairs);
      PairsTrack(s, tracker.View());
    }
    a := Verdict(scene, r);
  }
}
