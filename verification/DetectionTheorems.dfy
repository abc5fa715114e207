/** What every evaluation guarantees (src/detection.cpp). */
module DetectionTheorems {
  import opened Base
  import opened Model
  import opened Ordering
  import opened Checked
  import opened Totals
  import opened Snapshots
  import opened TopologyIndex
  import opened PathIndex
  import opened References
  import opened Classification
  import opened SaturationHistory
  import opened SaturatedComponents
  import opened SaturationSearch
  import opened DemandAttribution
  import opened Detection

  // ----- components of the topology -------------------------------------------------------

  ghost predicate ValidScene(s: Scene) {
    && ValidTopology(s.topology) && |s.readings| == |s.topology.resources|
    && Nested(s.readings) && s.census == CensusOf(s.readings)
    && forall i :: 0 <= i < |s.readings| ==>
         s.readings[i].id == s.topology.resources[i].id && s.readings[i].region == s.topology.resources[i].region
  }

  lemma SceneIsValid(i: Input, h: Option<History>)
    requires ValidInput(i) && i.evidence.topology.Some? && i.evidence.capacity.Some? && i.evidence.signals.Some?
    ensures ValidScene(SceneOf(i, h))
  {
    hide ValidTopology, FindCapacity, FindSignal, Sense, CensusOf;
    var e, s := i.evidence, SceneOf(i, h);
    ReadingsNested(ThresholdsOf(e), i.now, e.capacity.value.entries, e.signals.value.records, s.topology.resources);
    forall k | 0 <= k < |s.readings|
      ensures s.readings[k].id == s.topology.resources[k].id && s.readings[k].region == s.topology.resources[k].region
    {
      assert s.readings[k] == Read(ThresholdsOf(e), i.now, e.capacity.value.entries, e.signals.value.records,
          s.topology.resources[k]);
    }
  }

  /** A walk along links of the topology through saturated resources only. */
  ghost predicate Route(s: Scene, p: seq<nat>) {
    && |p| > 0
    && (forall k :: 0 <= k < |p| ==> p[k] < |s.readings| && s.readings[p[k]].cell.saturated)
    && (forall k :: 0 < k < |p| ==> Linked(s.topology.links, s.readings[p[k - 1]].id, s.readings[p[k]].id))
  }

  ghost predicate Joined(s: Scene, i: nat, j: nat) {
    exists p :: Route(s, p) && p[0] == i && p[|p| - 1] == j
  }

  lemma RouteIsPath(s: Scene, p: seq<nat>)
    requires ValidScene(s)
    ensures Route(s, p) <==> IsPath(Adjacency(s.topology), SaturatedFlags(s.readings), p)
  {
    hide ValidTopology, Linked, Adjacency, Nested, CensusOf;
    var adj, sat := Adjacency(s.topology), SaturatedFlags(s.readings);
    if forall k :: 0 <= k < |p| ==> p[k] < |s.readings| && sat[p[k]] {
      forall k | 0 < k < |p|
        ensures Step(adj, p[k - 1], p[k]) <==> Linked(s.topology.links, s.readings[p[k - 1]].id, s.readings[p[k]].id)
      {
        StepIsLink(s.topology, p[k - 1], p[k]);
      }
    }
  }

  lemma ConnectedJoined(s: Scene, i: nat, j: nat)
    requires ValidScene(s) && Connected(Adjacency(s.topology), SaturatedFlags(s.readings), i, j)
    ensures Joined(s, i, j)
  {
    hide ValidTopology, Nested, CensusOf, Adjacency, SaturatedFlags, Step;
    var p :| IsPath(Adjacency(s.topology), SaturatedFlags(s.readings), p) && p[0] == i && p[|p| - 1] == j;
    RouteIsPath(s, p);
    hide Route, IsPath;
    assert Route(s, p);
  }

  /** What connected components are: every member saturated and joined to every
      other, every saturated resource in exactly one component, no link between
      two components; in the order of their first members. */
  ghost predicate AreComponents(s: Scene, cs: seq<seq<nat>>) {
    && (forall k :: 0 <= k < |cs| ==> |cs[k]| > 0 && Ascending(cs[k]) && InRange(cs[k], SaturatedFlags(s.readings)))
    && (forall k, x, y :: 0 <= k < |cs| && x in cs[k] && y in cs[k] ==> Joined(s, x, y))
    && (forall i :: 0 <= i < |s.readings| && s.readings[i].cell.saturated ==> exists k :: 0 <= k < |cs| && i in cs[k])
    && (forall k, m :: 0 <= k < |cs| && 0 <= m < |cs| && k != m ==> Apart(s, cs[k], cs[m]))
    && (forall k, m :: 0 <= k < m < |cs| ==> |cs[k]| > 0 && |cs[m]| > 0 && cs[k][0] < cs[m][0])
  }

  ghost predicate Apart(s: Scene, c: seq<nat>, d: seq<nat>) {
    forall x, y :: x in c && y in d ==>
      x != y && x < |s.readings| && y < |s.readings| && !Linked(s.topology.links, s.readings[x].id, s.readings[y].id)
  }

  lemma ComponentClass(s: Scene, k: nat)
    requires ValidScene(s) && k < |ComponentsOf(s)|
    ensures var c := ComponentsOf(s)[k];
            && |c| > 0 && Ascending(c) && InRange(c, SaturatedFlags(s.readings))
            && forall x, y :: x in c && y in c ==> Joined(s, x, y)
  {
    hide ValidTopology, Nested, CensusOf, Adjacency, SaturatedFlags, Joined, Connected, Components, Symmetric;
    hide ValidGraph;
    AdjacencyMeaning(s.topology);
    ComponentIsClass(Adjacency(s.topology), SaturatedFlags(s.readings), k);
    var c := ComponentsOf(s)[k];
    forall x, y | x in c && y in c ensures Joined(s, x, y) {
      ConnectedJoined(s, x, y);
    }
  }

  lemma MemberInRange(s: Scene, k: nat, x: nat)
    requires ValidScene(s) && k < |ComponentsOf(s)| && x in ComponentsOf(s)[k]
    ensures x < |s.readings| && s.readings[x].cell.saturated
  {
    hide ValidTopology, Nested, CensusOf, Adjacency, Joined, Components;
    ComponentClass(s, k);
    var c := ComponentsOf(s)[k];
    var p :| 0 <= p < |c| && c[p] == x;
  }

  lemma MembersUnlinked(s: Scene, k: nat, m: nat, x: nat, y: nat)
    requires ValidScene(s) && k < |ComponentsOf(s)| && m < |ComponentsOf(s)| && k != m
    requires x in ComponentsOf(s)[k] && y in ComponentsOf(s)[m]
    ensures x < |s.readings| && y < |s.readings|
    ensures x != y && !Linked(s.topology.links, s.readings[x].id, s.readings[y].id)
  {
    MemberInRange(s, k, x);
    MemberInRange(s, m, y);
    hide ValidTopology, Nested, CensusOf, Adjacency, SaturatedFlags, Components, Symmetric, ValidGraph, Linked, Step;
    AdjacencyMeaning(s.topology);
    ComponentsApart(Adjacency(s.topology), SaturatedFlags(s.readings), k, m, x, y);
    StepIsLink(s.topology, x, y);
  }

  lemma ComponentsUnlinked(s: Scene, k: nat, m: nat)
    requires ValidScene(s) && k < |ComponentsOf(s)| && m < |ComponentsOf(s)| && k != m
    ensures Apart(s, ComponentsOf(s)[k], ComponentsOf(s)[m])
  {
    hide ValidTopology, Nested, CensusOf, ComponentsOf, Linked;
    var c, d := ComponentsOf(s)[k], ComponentsOf(s)[m];
    forall x, y | x in c && y in d
      ensures x != y && x < |s.readings| && y < |s.readings|
          && !Linked(s.topology.links, s.readings[x].id, s.readings[y].id)
    {
      MembersUnlinked(s, k, m, x, y);
    }
  }

  /** The search yields exactly the connected components of the saturated part
      of the topology. */
  lemma DetectFindsComponents(s: Scene)
    requires ValidScene(s)
    ensures AreComponents(s, ComponentsOf(s))
  {
    hide ValidTopology, Nested, CensusOf, Adjacency, Joined, Components, Symmetric, ValidGraph, Apart;
    hide InRange, IsClass;
    var cs := ComponentsOf(s);
    forall k | 0 <= k < |cs| ensures |cs[k]| > 0 && Ascending(cs[k]) && InRange(cs[k], SaturatedFlags(s.readings)) {
      ComponentClass(s, k);
    }
    forall k, x, y | 0 <= k < |cs| && x in cs[k] && y in cs[k] ensures Joined(s, x, y) {
      ComponentClass(s, k);
    }
    forall k, m | 0 <= k < |cs| && 0 <= m < |cs| && k != m ensures Apart(s, cs[k], cs[m]) {
      ComponentsUnlinked(s, k, m);
    }
    AdjacencyMeaning(s.topology);
    ComponentsAreClasses(Adjacency(s.topology), SaturatedFlags(s.readings));
    forall k, m | 0 <= k < m < |cs| ensures |cs[k]| > 0 && |cs[m]| > 0 && cs[k][0] < cs[m][0] {
      SeedsAscend(Adjacency(s.topology), SaturatedFlags(s.readings), |s.readings|, k, m);
    }
  }

  // ----- capacities ------------------------------------------------------------------------

  function UnitsOf(readings: seq<Reading>): (w: seq<nat>)
    ensures |w| == |readings| && forall i :: 0 <= i < |w| ==> w[i] == readings[i].units
  {
    seq(|readings|, i requires 0 <= i < |readings| => readings[i].units)
  }

  lemma {:induction false} SumAtIsTotal(readings: seq<Reading>, c: seq<nat>)
    requires forall k :: 0 <= k < |c| ==> c[k] < |readings|
    ensures SumAt(UnitsOf(readings), c) == Total(Pick(readings, c), FabricUnits)
  {
    if |c| == 0 {
    } else {
      SumAtIsTotal(readings, c[..|c| - 1]);
      assert Pick(readings, c)[..|c| - 1] == Pick(readings, c[..|c| - 1]);
    }
  }

  lemma {:induction false} SumInIsTotal(readings: seq<Reading>, k: nat)
    requires k <= |readings|
    ensures SumIn(UnitsOf(readings), Marked(SaturatedFlags(readings)), k) == Total(readings[..k], SaturatedUnits)
  {
    if k == 0 {
    } else {
      SumInIsTotal(readings, k - 1);
      assert readings[..k][..k - 1] == readings[..k - 1];
      var sat := SaturatedFlags(readings);
      assert k - 1 in Marked(sat) <==> sat[k - 1];
    }
  }

  function HotspotCapacity(h: Hotspot): U64 { h.extent.capacity }

  /** Capacities of the first n components, exactly. */
  lemma {:induction false} CapacitiesOfFirst(s: Scene, cs: seq<seq<nat>>)
    requires Within(cs, |s.readings|)
    requires SumAll(UnitsOf(s.readings), cs) <= U64_MAX
    ensures Total(Hotspots(s, cs), HotspotCapacity) == SumAll(UnitsOf(s.readings), cs)
  {
    hide HotspotOf, SumAt;
    if |cs| == 0 {
    } else {
      var init, last := cs[..|cs| - 1], cs[|cs| - 1];
      assert forall k :: 0 <= k < |init| ==> init[k] == cs[k];
      CapacitiesOfFirst(s, init);
      assert Hotspots(s, cs)[..|cs| - 1] == Hotspots(s, init);
      ComponentCapacity(s, last);
    }
  }

  /** A hotspot's capacity is its members' total, clamped. */
  lemma ComponentCapacity(s: Scene, c: seq<nat>)
    requires forall k :: 0 <= k < |c| ==> c[k] < |s.readings|
    ensures HotspotOf(s, Pick(s.readings, c)).extent.capacity == Min(SumAt(UnitsOf(s.readings), c), U64_MAX)
  {
    hide BlameFrom, TallyOf, SumAt, HealthyAround, RegionsOf, LatestFirst, FewestSamples, Peak, UniqueIds;
    hide ScopeOf, CauseOf;
    SumAtIsTotal(s.readings, c);
    AccumulatedIsClampedTotal(Pick(s.readings, c), FabricUnits);
  }

  lemma SaturatedTotals(s: Scene)
    requires ValidScene(s)
    ensures var w, cs := UnitsOf(s.readings), ComponentsOf(s);
            && Within(cs, |w|)
            && SumAll(w, cs) == Total(s.readings, SaturatedUnits)
            && s.census.saturated == Min(SumAll(w, cs), U64_MAX)
  {
    hide ValidTopology, Nested, Adjacency, Components, Symmetric, ValidGraph, SumIn, Marked, Count, Pressures;
    AdjacencyMeaning(s.topology);
    ComponentWeights(Adjacency(s.topology), SaturatedFlags(s.readings), UnitsOf(s.readings));
    SumInIsTotal(s.readings, |s.readings|);
    assert s.readings[..|s.readings|] == s.readings;
    AccumulatedIsClampedTotal(s.readings, SaturatedUnits);
  }

  /** Absent 64-bit saturation, component capacities add up to the saturated
      capacity of the fabric. */
  lemma ComponentCapacitiesAddUp(s: Scene)
    requires ValidScene(s) && Total(s.readings, SaturatedUnits) <= U64_MAX
    ensures Within(ComponentsOf(s), |s.readings|)
    ensures Total(Hotspots(s, ComponentsOf(s)), HotspotCapacity) == s.census.saturated
  {
    hide ValidTopology, Nested, CensusOf, ComponentsOf, HotspotOf;
    SaturatedTotals(s);
    CapacitiesOfFirst(s, ComponentsOf(s));
  }

  lemma {:induction false} SumAtWithinAll(w: seq<nat>, cs: seq<seq<nat>>, k: nat)
    requires Within(cs, |w|) && k < |cs|
    ensures SumAt(w, cs[k]) <= SumAll(w, cs)
  {
    if k < |cs| - 1 {
      SumAtWithinAll(w, cs[..|cs| - 1], k);
    }
  }

  /** No hotspot claims more than the whole fabric. */
  lemma HotspotShareBounded(s: Scene, k: nat)
    requires ValidScene(s) && k < |ComponentsOf(s)|
    ensures Within(ComponentsOf(s), |s.readings|)
    ensures Hotspots(s, ComponentsOf(s))[k].extent.capacity <= s.census.saturated <= s.census.fabric
    ensures Hotspots(s, ComponentsOf(s))[k].extent.share <= PPM_SCALE
  {
    hide ComponentsOf, CensusOf, ValidTopology, Judge, BlameFrom, TallyOf, SumAt, HealthyAround, RegionsOf, LatestFirst,
      FewestSamples, Peak, UniqueIds;
    SaturatedTotals(s);
    var cs := ComponentsOf(s);
    SumAtWithinAll(UnitsOf(s.readings), cs, k);
    ComponentCapacity(s, cs[k]);
    CoverageBounded(s.readings);
    PpmWithinScale(Hotspots(s, cs)[k].extent.capacity, s.census.fabric);
    ShareFromCapacity(s, Pick(s.readings, cs[k]));
  }

  lemma ShareFromCapacity(s: Scene, m: seq<Reading>)
    ensures var x := HotspotOf(s, m).extent; x.share == Ppm(x.capacity, s.census.fabric)
  {
  }

  /** Every share an assessment reports is at most one million. */
  lemma AssessmentSharesBounded(i: Input, h: Option<History>)
    requires ValidInput(i)
    ensures Detect(i, h).globalShare <= PPM_SCALE
    ensures forall k :: 0 <= k < |Detect(i, h).hotspots| ==> Detect(i, h).hotspots[k].extent.share <= PPM_SCALE
  {
    var e, d := i.evidence, Detect(i, h);
    if e.topology.Some? && e.capacity.Some? && e.signals.Some? {
      SceneIsValid(i, h);
      CoverageBounded(SceneOf(i, h).readings);
    }
    if Refusal(i).None? {
      var s := SceneOf(i, h);
      ComponentsWithin(s);
      forall k | 0 <= k < |d.hotspots| ensures d.hotspots[k].extent.share <= PPM_SCALE {
        ConfirmedShareBounded(s, k);
      }
    }
    hide ValidScene, ComponentsOf, FileAll, Hotspots, CensusOf, ReadingsOf, Refusal;
  }

  lemma ConfirmedShareBounded(s: Scene, a: nat)
    requires ValidScene(s) && Within(ComponentsOf(s), |s.readings|)
    requires a < |FileAll(Hotspots(s, ComponentsOf(s))).hotspots|
    ensures FileAll(Hotspots(s, ComponentsOf(s))).hotspots[a].extent.share <= PPM_SCALE
  {
    hide ValidTopology, Nested, CensusOf, ComponentsOf, HotspotOf, FileAll;
    var k := ConfirmedComponent(s, a);
    HotspotShareBounded(s, k);
  }

  // ----- the report --------------------------------------------------------------------------

  /** Which judged components were confirmed and reported, in order. */
  ghost function ConfirmedAt(hs: seq<Hotspot>): (r: seq<nat>) {
    if |hs| == 0 then []
    else
      var r := ConfirmedAt(hs[..|hs| - 1]);
      if hs[|hs| - 1].persistent && |r| < MAX_HOTSPOTS then r + [|hs| - 1] else r
  }

  ghost function CandidatesAt(hs: seq<Hotspot>): (r: seq<nat>) {
    if |hs| == 0 then []
    else
      var r := CandidatesAt(hs[..|hs| - 1]);
      if !hs[|hs| - 1].persistent && |r| < MAX_HOTSPOTS then r + [|hs| - 1] else r
  }

  ghost predicate Selects(hs: seq<Hotspot>, at: seq<nat>, listed: seq<Hotspot>, persistent: bool) {
    && |at| == |listed| && Ascending(at)
    && forall a :: 0 <= a < |at| ==> at[a] < |hs| && listed[a] == hs[at[a]] && listed[a].persistent == persistent
  }

  lemma SelectsMore(hs: seq<Hotspot>, h: Hotspot, at: seq<nat>, listed: seq<Hotspot>, persistent: bool)
    requires Selects(hs, at, listed, persistent)
    ensures Selects(hs + [h], at, listed, persistent)
    ensures h.persistent == persistent ==> Selects(hs + [h], at + [|hs|], listed + [h], persistent)
  {
  }

  ghost predicate Filed(hs: seq<Hotspot>, at: seq<nat>, ct: seq<nat>, r: Report) {
    && Selects(hs, at, r.hotspots, true) && Selects(hs, ct, r.candidates, false)
    && |r.hotspots| == |at| <= MAX_HOTSPOTS && |r.candidates| == |ct| <= MAX_HOTSPOTS
    && |r.hotspots| + |r.candidates| + r.dropped == |hs|
  }

  lemma FiledMore(hs: seq<Hotspot>, h: Hotspot, at: seq<nat>, ct: seq<nat>, r: Report)
    requires Filed(hs, at, ct, r)
    ensures Filed(hs + [h],
                  if h.persistent && |at| < MAX_HOTSPOTS then at + [|hs|] else at,
                  if !h.persistent && |ct| < MAX_HOTSPOTS then ct + [|hs|] else ct,
                  FileOne(r, h))
  {
    hide Selects;
    SelectsMore(hs, h, at, r.hotspots, true);
    SelectsMore(hs, h, ct, r.candidates, false);
  }

  lemma ReportSnoc(hs: seq<Hotspot>, h: Hotspot)
    ensures FileAll(hs + [h]) == FileOne(FileAll(hs), h)
    ensures var at := ConfirmedAt(hs);
            ConfirmedAt(hs + [h]) == if h.persistent && |at| < MAX_HOTSPOTS then at + [|hs|] else at
    ensures var ct := CandidatesAt(hs);
            CandidatesAt(hs + [h]) == if !h.persistent && |ct| < MAX_HOTSPOTS then ct + [|hs|] else ct
  {
    hide FileOne;
    assert (hs + [h])[..|hs|] == hs;
  }

  lemma ReportOfNothing()
    ensures Filed([], ConfirmedAt([]), CandidatesAt([]), FileAll([]))
  {
  }

  /** Confirmed and candidate lists are disjoint selections of the judged
      components, in order; what is not listed is counted as dropped. */
  lemma {:induction false} ReportSelects(hs: seq<Hotspot>)
    ensures Filed(hs, ConfirmedAt(hs), CandidatesAt(hs), FileAll(hs))
  {
    hide Filed, FileOne, FileAll, ConfirmedAt, CandidatesAt;
    if |hs| == 0 {
      ReportOfNothing();
    } else {
      var init, last := hs[..|hs| - 1], hs[|hs| - 1];
      ReportSelects(init);
      assert hs == init + [last];
      ReportSnoc(init, last);
      FiledMore(init, last, ConfirmedAt(init), CandidatesAt(init), FileAll(init));
    }
  }

  /** Confirmed hotspot number a is the judgement of one component. */
  lemma ConfirmedComponent(s: Scene, a: nat) returns (k: nat)
    requires ValidScene(s) && Within(ComponentsOf(s), |s.readings|)
    requires a < |FileAll(Hotspots(s, ComponentsOf(s))).hotspots|
    ensures k < |ComponentsOf(s)|
    ensures var h := FileAll(Hotspots(s, ComponentsOf(s))).hotspots[a];
            h == HotspotOf(s, Pick(s.readings, ComponentsOf(s)[k])) && h.persistent
  {
    hide ValidTopology, Nested, CensusOf, ComponentsOf, HotspotOf, FileAll, ConfirmedAt, CandidatesAt;
    var hs := Hotspots(s, ComponentsOf(s));
    ReportSelects(hs);
    k := ConfirmedAt(hs)[a];
  }

  // ----- persistence ---------------------------------------------------------------------------

  ghost predicate ValidRun(run: seq<Input>) {
    forall k :: 0 <= k < |run| ==> ValidInput(run[k]) && run[k].now != NO_TIME
  }

  /** What a run of evaluations sharing one tracker observed. */
  ghost function Observations(run: seq<Input>): (os: seq<Observation>)
    requires ValidRun(run)
    ensures |os| == |run| && forall k :: 0 <= k < |run| ==> os[k] == Observe(run[k])
    ensures Timed(os)
  {
    var os := seq(|run|, k requires 0 <= k < |run| => Observe(run[k]));
    assert forall k :: 0 <= k < |os| ==> os[k] == Observe(run[k]);
    os
  }

  /** The tracker after a run. */
  ghost function HistoryAfter(run: seq<Input>): History
    requires ValidRun(run)
  {
    TrackAll(Observations(run))
  }

  lemma ObservationsInit(run: seq<Input>)
    requires ValidRun(run) && |run| > 0
    ensures ValidRun(run[..|run| - 1])
    ensures Observations(run)[..|run| - 1] == Observations(run[..|run| - 1])
    ensures HistoryAfter(run) == Track(HistoryAfter(run[..|run| - 1]), Observe(run[|run| - 1]))
  {
    hide Observe;
  }

  /** Over every run, the tracker holds exactly the resources saturated in the
      latest evaluation, each with the start and length of its unbroken run. */
  lemma HistoryHoldsRuns(run: seq<Input>, id: U64)
    requires ValidRun(run)
    ensures var os, h := Observations(run), HistoryAfter(run);
            && (id in h <==> |run| > 0 && Saturated(Observe(run[|run| - 1]), id))
            && (id in h ==> h[id] == RunEntry(os, RunLength(os, id)))
  {
    hide Observe;
    TrackerHoldsRuns(Observations(run), id);
  }

  ghost predicate SeenSince(run: seq<Input>, id: U64, start: nat) {
    forall k :: start <= k < |run| ==> Saturated(Observe(run[k]), id)
  }

  /** The resource was saturated in each of the latest n evaluations, and that
      run began at least the given time before now. */
  ghost predicate Sustained(run: seq<Input>, id: U64, n: nat, window: int)
    requires |run| > 0
  {
    && n <= |run| && SeenSince(run, id, |run| - n)
    && exists start :: 0 <= start <= |run| - n && start < |run|
         && SeenSince(run, id, start) && ElapsedMs(run[start].now, run[|run| - 1].now) >= window
  }

  /** A run in the observations is a run of evaluations. */
  lemma RunSeen(run: seq<Input>, id: U64)
    requires ValidRun(run)
    ensures SeenSince(run, id, |run| - RunLength(Observations(run), id))
  {
    hide Observe;
    var os := Observations(run);
    assert forall k :: |run| - RunLength(os, id) <= k < |run| ==> os[k] == Observe(run[k]) && Saturated(os[k], id);
  }

  lemma ElapsedAntitone(a: Millis, b: Millis, now: Millis)
    requires a <= b && a != NO_TIME
    ensures ElapsedMs(a, now) >= ElapsedMs(b, now)
  {
  }

  /** The entry of a resource saturated now is its run's. */
  lemma EntryIsRun(run: seq<Input>, id: U64)
    requires ValidRun(run) && |run| > 0 && ValidRun(run[..|run| - 1]) && Saturated(Observe(run[|run| - 1]), id)
    ensures RunLength(Observations(run), id) > 0
    ensures EntryNow(Some(HistoryAfter(run[..|run| - 1])), run[|run| - 1].now, id)
            == RunEntry(Observations(run), RunLength(Observations(run), id))
  {
    var last := run[|run| - 1];
    SawNow(last);
    hide Observe, TrackAll, Continue, Carry;
    ObservationsInit(run);
    HistoryHoldsRuns(run, id);
    assert id in Track(HistoryAfter(run[..|run| - 1]), Observe(last));
  }

  /** Where the run of a resource saturated now began, and how long it is. */
  lemma RunStart(run: seq<Input>, id: U64) returns (start: nat)
    requires ValidRun(run) && |run| > 0 && ValidRun(run[..|run| - 1]) && Saturated(Observe(run[|run| - 1]), id)
    ensures start < |run| && SeenSince(run, id, start)
    ensures var e := EntryNow(Some(HistoryAfter(run[..|run| - 1])), run[|run| - 1].now, id);
            e.first == run[start].now && e.samples <= |run| - start
  {
    hide Observe, HistoryAfter, EntryNow, SeenSince, RunEntry, ValidInput, TrackAll, RunLength;
    EntryIsRun(run, id);
    RunSeen(run, id);
    var os := Observations(run);
    RunFirst(os, id);
    start := |run| - RunLength(os, id);
    ObservedAt(run, start);
    SawNow(run[start]);
  }

  lemma ObservedAt(run: seq<Input>, k: nat)
    requires ValidRun(run) && k < |run|
    ensures Observations(run)[k] == Observe(run[k])
  {
    hide Observe;
  }

  lemma RunFirst(os: seq<Observation>, id: U64)
    requires RunLength(os, id) > 0
    ensures var n := RunLength(os, id);
            && os[|os| - n].Saw? && os[|os| - 1].Saw?
            && RunEntry(os, n).first == os[|os| - n].now && RunEntry(os, n).samples <= n
  {
    var n := RunLength(os, id);
    assert Saturated(os[|os| - n], id) && Saturated(os[|os| - 1], id);
  }

  lemma MemberSustained(run: seq<Input>, id: U64, n: U32, window: int, latest: Millis)
    requires ValidRun(run) && |run| > 0 && Saturated(Observe(run[|run| - 1]), id)
    requires ValidRun(run[..|run| - 1])
    requires var e := EntryNow(Some(HistoryAfter(run[..|run| - 1])), run[|run| - 1].now, id);
             n <= e.samples && e.first <= latest && ElapsedMs(latest, run[|run| - 1].now) >= window
    ensures Sustained(run, id, n, window)
  {
    hide Observe, HistoryAfter, EntryNow, ElapsedMs, SeenSince, ValidInput;
    var start := RunStart(run, id);
    ElapsedAntitone(run[start].now, latest, run[|run| - 1].now);
    LaterSeen(run, id, start, |run| - n);
  }

  lemma LaterSeen(run: seq<Input>, id: U64, start: nat, later: nat)
    requires start <= later && SeenSince(run, id, start)
    ensures SeenSince(run, id, later)
  {
    hide Observe;
  }

  lemma SawNow(i: Input)
    ensures Observe(i).Saw? ==> Observe(i).now == i.now
  {
  }

  lemma SaturatedSeen(i: Input, h: Option<History>, x: nat)
    requires ValidInput(i) && Refusal(i).None?
    requires x < |SceneOf(i, h).readings| && SceneOf(i, h).readings[x].cell.saturated
    ensures Saturated(Observe(i), SceneOf(i, h).readings[x].id)
  {
    hide ReadingsOf, CensusOf, CoverageOk, ValidEvidence;
  }

  /** A confirmed hotspot is a component every member of which was saturated in
      each of the last min_persistence_samples evaluations, without a break,
      for at least the persistence window. */
  lemma ConfirmedMeansSustained(run: seq<Input>, a: nat) returns (k: nat)
    requires ValidRun(run) && |run| > 0 && ValidRun(run[..|run| - 1])
    requires var last := run[|run| - 1];
             Refusal(last).None? && a < |Detect(last, Some(HistoryAfter(run[..|run| - 1]))).hotspots|
    ensures var last, h := run[|run| - 1], Some(HistoryAfter(run[..|run| - 1]));
            var s := SceneOf(last, h);
            && |s.readings| == |s.topology.resources|
            && k < |ComponentsOf(s)| && Within(ComponentsOf(s), |s.readings|)
            && Detect(last, h).hotspots[a] == HotspotOf(s, Pick(s.readings, ComponentsOf(s)[k]))
            && forall m :: 0 <= m < |ComponentsOf(s)[k]| ==>
                 Sustained(run, s.readings[ComponentsOf(s)[k][m]].id, s.th.minSamples, s.th.persistenceWindow)
  {
    var last, h := run[|run| - 1], Some(HistoryAfter(run[..|run| - 1]));
    var s := SceneOf(last, h);
    SceneIsValid(last, h);
    ComponentsWithin(s);
    k := ConfirmedComponent(s, a);
    var c := ComponentsOf(s)[k];
    forall m | 0 <= m < |c| ensures Sustained(run, s.readings[c[m]].id, s.th.minSamples, s.th.persistenceWindow) {
      ConfirmedMember(run, s, k, m);
    }
  }

  lemma ConfirmedMember(run: seq<Input>, s: Scene, k: nat, m: nat)
    requires ValidRun(run) && |run| > 0 && ValidRun(run[..|run| - 1]) && Refusal(run[|run| - 1]).None?
    requires s == SceneOf(run[|run| - 1], Some(HistoryAfter(run[..|run| - 1]))) && ValidScene(s)
    requires k < |ComponentsOf(s)| && m < |ComponentsOf(s)[k]| && Within(ComponentsOf(s), |s.readings|)
    requires HotspotOf(s, Pick(s.readings, ComponentsOf(s)[k])).persistent
    ensures Sustained(run, s.readings[ComponentsOf(s)[k][m]].id, s.th.minSamples, s.th.persistenceWindow)
  {
    hide ValidTopology, Nested, ComponentsOf, HotspotOf, Refusal, Observe, Sustained, EntryNow, HistoryAfter;
    hide ReadingsOf, CensusOf;
    var c := ComponentsOf(s)[k];
    var members := Pick(s.readings, c);
    MemberInRange(s, k, c[m]);
    PersistentMeaning(s, members);
    assert members[m] == s.readings[c[m]];
    HistoryBounds(s.history, s.now, members, m);
    SaturatedSeen(run[|run| - 1], Some(HistoryAfter(run[..|run| - 1])), c[m]);
    MemberSustained(run, members[m].id, s.th.minSamples, s.th.persistenceWindow,
        LatestFirst(s.history, s.now, members));
  }

  /** Every member's run is at least as long, and began no later, than the
      figures of its hotspot. */
  lemma {:induction false} HistoryBounds(h: Option<History>, now: Millis, m: seq<Reading>, k: nat)
    requires k < |m|
    ensures EntryNow(h, now, m[k].id).first <= LatestFirst(h, now, m)
    ensures FewestSamples(h, now, m) <= EntryNow(h, now, m[k].id).samples
  {
    hide EntryNow;
    if k < |m| - 1 {
      HistoryBounds(h, now, m[..|m| - 1], k);
    }
  }

  lemma PersistentMeaning(s: Scene, m: seq<Reading>)
    requires HotspotOf(s, m).persistent
    ensures s.history.Some? && FewestSamples(s.history, s.now, m) >= s.th.minSamples
    ensures ElapsedMs(LatestFirst(s.history, s.now, m), s.now) >= s.th.persistenceWindow
  {
  }

  // ----- the verdict -----------------------------------------------------------------------------

  /** The verdict is at least as wide as every confirmed hotspot, and is no
      congestion or the scope of one of them. */
  lemma {:induction false} WidestMeaning(hs: seq<Hotspot>)
    ensures forall k :: 0 <= k < |hs| ==> Rank(hs[k].scope) <= Rank(Widest(hs))
    ensures Widest(hs) == Quiet || exists k :: 0 <= k < |hs| && hs[k].scope == Widest(hs)
  {
    if |hs| == 0 {
    } else {
      var init := hs[..|hs| - 1];
      WidestMeaning(init);
      assert forall k :: 0 <= k < |init| ==> init[k] == hs[k];
      assert hs[|hs| - 1].scope == Widest(hs) || Widest(hs) == Widest(init);
    }
  }

  /** The verdict is no congestion exactly when every confirmed hotspot's scope
      is unknown or none: confirmed hotspots do not make it Unknown. */
  lemma QuietVerdict(hs: seq<Hotspot>)
    ensures Widest(hs) == Quiet <==> forall k :: 0 <= k < |hs| ==> hs[k].scope == Unknown || hs[k].scope == Quiet
    ensures Widest(hs) == Global <==> exists k :: 0 <= k < |hs| && hs[k].scope == Global
    ensures Widest(hs) != Unknown
  {
    hide Widest;
    WidestMeaning(hs);
    if Widest(hs) == Quiet {
      forall k | 0 <= k < |hs| ensures hs[k].scope == Unknown || hs[k].scope == Quiet {
        assert Rank(hs[k].scope) <= 1;
      }
    }
    assert forall k :: 0 <= k < |hs| && hs[k].scope == Global ==> Rank(hs[k].scope) <= Rank(Widest(hs));
    NotUnknown(hs);
  }

  lemma {:induction false} NotUnknown(hs: seq<Hotspot>)
    ensures Widest(hs) != Unknown
  {
    if |hs| == 0 {
    } else {
      NotUnknown(hs[..|hs| - 1]);
    }
  }

  // ----- what a hotspot rests on ---------------------------------------------------------------------

  /** Hotspots and candidates appear only on admitted evidence whose references
      were verified, by detect or before it; attribution only on paths bound to
      the topology. */
  lemma AssessmentRestsOnEvidence(i: Input, h: Option<History>)
    requires ValidInput(i)
    requires |Detect(i, h).hotspots| + |Detect(i, h).candidates| > 0
    ensures i.evidence.topology.Some? && SignalsOk(i.evidence, i.now) && TopologyFresh(i.evidence.topology.value, i.now)
    ensures i.preverified || ReferencesResolve(i.evidence, i.now)
    ensures SceneOf(i, h).flows.Some? <==> TrafficOk(i.evidence, i.now)
  {
    hide CensusOf, CoverageOk, ComponentsOf, FileAll, Hotspots;
  }

  /** Evidence that is present, fresh, bound to one topology generation,
      referentially sound and dense enough to believe. */
  ghost predicate Believable(i: Input) {
    var e := i.evidence;
    && e.topology.Some? && TopologyFresh(e.topology.value, i.now) && SignalsOk(e, i.now)
    && |e.topology.value.content.resources| > 0
    && (i.preverified || ReferencesResolve(e, i.now))
    && var rs := ReadingsOf(e, i.now);
       var usable, th := |rs| - Count(rs, IsUnusable), ThresholdsOf(e);
       && Accumulated(rs, FabricUnits) > 0
       && |rs| <= U64_MAX && Ppm(usable, |rs|) >= th.minCoveragePpm
       && Ppm(Accumulated(rs, AdmissibleUnits), Accumulated(rs, FabricUnits)) >= th.minCoveragePpm
  }

  /** An evaluation is refused exactly when its evidence is not believable, and a
      refused evaluation reports nothing: its scope is unknown, or none for a
      topology without resources. */
  lemma RefusedExactly(i: Input, h: Option<History>)
    requires ValidInput(i)
    ensures Detect(i, h).refused <==> !Believable(i)
    ensures var a := Detect(i, h);
            a.refused ==>
              && a.hotspots == [] && a.candidates == [] && !a.escalation && !a.localizationProven
              && (a.scope == Unknown
                  || (a.scope == Quiet && i.evidence.topology.Some?
                      && i.evidence.topology.value.content.resources == []))
  {
    hide ComponentsOf, FileAll, Hotspots, Accumulated, Count, Pressures, ReferencesResolve, Ppm, Widest, Read;
    hide Escalates, TopologyFresh, BindingOf, ValidEvidence;
  }

  /** Absent 64-bit saturation, the attributed demand of a hotspot is exactly the
      incidence-weighted fresh demand of the paths through it (a lower bound when
      the population bound was hit), and contributor shares stay within one million. */
  lemma HotspotAttribution(s: Scene, m: seq<Reading>)
    requires s.flows.Some?
    requires var f := Freshness(s.now, s.th.maxTrafficAge);
             Weighted(FreshIn(f), IdsOf(m), s.flows.value.paths, s.flows.value.traffic) <= U64_MAX
    ensures var f, b, t := Freshness(s.now, s.th.maxTrafficAge), HotspotOf(s, m).blame, TallyOf(s, IdsOf(m));
            var weighted := Weighted(FreshIn(f), IdsOf(m), s.flows.value.paths, s.flows.value.traffic);
            && b.attributed == Held(t.accs) && FlowsDistinct(t.accs)
            && (t.incomplete ==> b.attributed <= weighted)
            && (!t.incomplete ==> b.attributed == weighted)
            && Total(b.contributors, ShareBy) <= PPM_SCALE
  {
    hide ExtentOf, ScopeOf, CauseOf, RemediationOf, AddAll, Incidences, Weighted, Contributors, Total;
    var f, fl := Freshness(s.now, s.th.maxTrafficAge), s.flows.value;
    var rs := Incidences(IdsOf(m), fl.paths, fl.traffic);
    IncidencesWeighted(FreshIn(f), IdsOf(m), fl.paths, fl.traffic);
    AttributionConserves(f, rs);
    ContributorSharesBounded(f, rs);
  }

  // ----- identity --------------------------------------------------------------------------------------

  lemma LeadingResource(s: Scene, m: seq<Reading>)
    requires |m| > 0
    ensures var id := HotspotOf(s, m).id; |id.leading| > 0 && id.leading[0] == m[0].id
  {
    hide BlameFrom, TallyOf, HealthyAround, RegionsOf, LatestFirst, FewestSamples, Peak, UniqueIds, ScopeOf;
    hide CauseOf, Accumulated;
  }

  lemma ResourcesDiffer(c: TopologyContent, i: nat, j: nat)
    requires ValidTopology(c) && i < |c.resources| && j < |c.resources| && i != j
    ensures c.resources[i].id != c.resources[j].id
  {
    SamePosition(c.resources, i, j);
  }

  /** Hotspots of one evaluation have different identities. */
  lemma IdentitiesDiffer(s: Scene, k: nat, m: nat)
    requires ValidScene(s) && Within(ComponentsOf(s), |s.readings|)
    requires k < |ComponentsOf(s)| && m < |ComponentsOf(s)| && k != m
    ensures Hotspots(s, ComponentsOf(s))[k].id != Hotspots(s, ComponentsOf(s))[m].id
  {
    ComponentClass(s, k);
    ComponentClass(s, m);
    hide ValidTopology, Nested, CensusOf, ComponentsOf, HotspotOf, Linked, Joined;
    var c, d := ComponentsOf(s)[k], ComponentsOf(s)[m];
    assert c[0] in c && d[0] in d;
    MembersUnlinked(s, k, m, c[0], d[0]);
    LeadingResource(s, Pick(s.readings, c));
    LeadingResource(s, Pick(s.readings, d));
    ResourcesDiffer(s.topology, c[0], d[0]);
  }

  /** Confirmed hotspots carry pairwise different identities. */
  lemma ConfirmedIdentitiesDiffer(s: Scene, a: nat, b: nat)
    requires ValidScene(s) && Within(ComponentsOf(s), |s.readings|)
    requires var hs := FileAll(Hotspots(s, ComponentsOf(s))).hotspots; a < b < |hs|
    ensures var hs := FileAll(Hotspots(s, ComponentsOf(s))).hotspots; hs[a].id != hs[b].id
  {
    hide ValidTopology, Nested, CensusOf, ComponentsOf, HotspotOf, FileAll, ConfirmedAt, CandidatesAt;
    var all := Hotspots(s, ComponentsOf(s));
    ReportSelects(all);
    var at := ConfirmedAt(all);
    IdentitiesDiffer(s, at[a], at[b]);
  }

  // ----- neighbours and regions --------------------------------------------------------------------------

  lemma {:induction false} HealthyAmongMeaning(s: Scene, ids: seq<U64>, x: U64)
    ensures x in HealthyAmong(s, ids) <==> x in ids && HealthyId(s, x)
  {
    hide HealthyId;
    if |ids| == 0 {
    } else {
      HealthyAmongMeaning(s, ids[..|ids| - 1], x);
    }
  }

  /** A partner of some member. */
  ghost predicate Near(s: Scene, m: seq<Reading>, x: U64) {
    exists k :: 0 <= k < |m| && x in Partners(s.topology.links, m[k].id)
  }

  lemma NearSnoc(s: Scene, init: seq<Reading>, last: Reading, x: U64)
    ensures Near(s, init + [last], x) <==> Near(s, init, x) || x in Partners(s.topology.links, last.id)
  {
    hide Partners;
    var m := init + [last];
    assert m[|init|] == last;
    if Near(s, init, x) {
      var k :| 0 <= k < |init| && x in Partners(s.topology.links, init[k].id);
      assert m[k] == init[k];
    }
  }

  lemma {:induction false} HealthyAroundMeaning(s: Scene, m: seq<Reading>, x: U64)
    ensures x in HealthyAround(s, m) <==> HealthyId(s, x) && Near(s, m, x)
  {
    hide HealthyId, Partners, HealthyAmong;
    if |m| == 0 {
    } else {
      var init, last := m[..|m| - 1], m[|m| - 1];
      HealthyAroundMeaning(s, init, x);
      HealthyAmongMeaning(s, Partners(s.topology.links, last.id), x);
      NearSnoc(s, init, last, x);
      assert m == init + [last];
      hide Near;
    }
  }

  /** Healthy neighbours are linked to the component, admissible and outside
      every component. */
  lemma HealthyNeighbour(s: Scene, m: seq<Reading>, x: U64)
    requires x in HotspotOf(s, m).extent.healthy
    ensures HealthyId(s, x) && exists k :: 0 <= k < |m| && Linked(s.topology.links, m[k].id, x)
  {
    hide BlameFrom, TallyOf, HealthyAround, RegionsOf, LatestFirst, FewestSamples, Peak, ScopeOf, CauseOf;
    hide Accumulated, HealthyId, UniqueIds;
    var healthy := UniqueIds(HealthyAround(s, m));
    assert x in Take(healthy, MAX_HOTSPOT_RESOURCES);
    assert x in healthy;
    HealthyAroundMeaning(s, m, x);
    var k :| 0 <= k < |m| && x in Partners(s.topology.links, m[k].id);
    PartnersMembers(s.topology.links, m[k].id, x);
  }

  /** Until a component has more members than there may be regions, the regions
      listed are exactly those of its members. */
  lemma RegionsComplete(m: seq<Reading>)
    requires |m| <= MAX_REGIONS
    ensures forall x :: x in RegionsOf(m) <==> exists k :: 0 <= k < |m| && m[k].region == x
    ensures Ascending(RegionsOf(m))
  {
    hide UniqueIds;
    var all := seq(|m|, i requires 0 <= i < |m| => m[i].region);
    assert RegionsOf(m) == UniqueIds(all);
    forall x ensures x in RegionsOf(m) <==> exists k :: 0 <= k < |m| && m[k].region == x {
      if exists k :: 0 <= k < |m| && m[k].region == x {
        var k :| 0 <= k < |m| && m[k].region == x;
        assert all[k] == x;
      }
      if x in all {
        var k :| 0 <= k < |all| && all[k] == x;
        assert m[k].region == x;
      }
    }
  }

  /** Only a persistent hotspot of known, bounded scope under a live policy is
      eligible for local mitigation. */
  lemma EligibleMeaning(s: Scene, m: seq<Reading>)
    requires HotspotOf(s, m).remediation == Eligible
    ensures var h := HotspotOf(s, m);
            && s.policyLive && h.persistent && (h.scope == Localized || h.scope == Regional)
            && |h.extent.regions| <= s.th.maxRegionalRegions && h.extent.share < s.th.globalSharePpm
            && (h.scope == Localized ==> h.extent.healthyCount > 0 && |h.extent.regions| <= s.th.maxLocalRegions)
            && (s.census.saturatedCount != s.census.admissibleCount || s.census.admissibleCount == 0)
  {
    hide ExtentOf, BlameFrom, TallyOf;
  }

  // ----- scope and cause in terms of the members -----------------------------------------------------------

  ghost predicate Reached(m: seq<Reading>, f: Reading -> U32, t: U64) { exists k :: 0 <= k < |m| && f(m[k]) >= t }

  /** A peak reaches a threshold exactly when some member does. */
  lemma {:induction false} PeakReaches(m: seq<Reading>, f: Reading -> U32, t: U64)
    requires |m| > 0
    ensures Peak(m, f) >= t <==> Reached(m, f, t)
  {
    var init := m[..|m| - 1];
    if |init| == 0 {
    } else {
      PeakReaches(init, f, t);
      assert forall k :: 0 <= k < |init| ==> init[k] == m[k];
    }
    assert f(m[|m| - 1]) >= t ==> exists k :: 0 <= k < |m| && f(m[k]) >= t;
  }

  /** The cause: one dominant contributor or many converging records when
      attribution is usable, else the first kind of pressure a member reached. */
  lemma CauseMeaning(s: Scene, m: seq<Reading>)
    requires |m| > 0
    ensures var h := HotspotOf(s, m);
            var dominated := h.blame.usable && |h.blame.contributors| > 0
                && h.blame.contributors[0].share >= s.th.dominantPpm;
            var exhausted := Reached(m, UtilizationAt, PPM_SCALE);
            var converging := h.blame.usable && h.blame.freshCount >= 8 && exhausted;
            var queued := Reached(m, QueueAt, s.th.queuePpm);
            var buffered := Reached(m, BufferAt, s.th.bufferPpm);
            && (h.cause == FanInContention <==> dominated)
            && (h.cause == StructuralConvergence <==> !dominated && converging)
            && (h.cause == CapacityExhaustion <==> !dominated && !converging && exhausted)
            && (h.cause == QueueBuildup <==> !dominated && !exhausted && queued)
            && (h.cause == BufferExhaustion <==> !dominated && !exhausted && !queued && buffered)
            && h.cause != Microburst
  {
    PeakReaches(m, UtilizationAt, PPM_SCALE);
    PeakReaches(m, QueueAt, s.th.queuePpm);
    PeakReaches(m, BufferAt, s.th.bufferPpm);
    CauseFromExtent(s, m);
    hide HotspotOf, Peak, Reached;
  }

  lemma CauseFromExtent(s: Scene, m: seq<Reading>)
    ensures var h := HotspotOf(s, m);
            && h.cause == CauseOf(s.th, h.extent, h.blame)
            && h.extent.peakUtilization == Peak(m, UtilizationAt)
            && h.extent.peakQueue == Peak(m, QueueAt) && h.extent.peakBuffer == Peak(m, BufferAt)
  {
    hide BlameFrom, TallyOf, HealthyAround, RegionsOf, LatestFirst, FewestSamples, Peak, UniqueIds, ScopeOf;
    hide CauseOf, Accumulated, IsPersistent;
  }

  /** Nothing admissible is left unsaturated. */
  ghost predicate AllSaturated(readings: seq<Reading>) {
    forall i :: 0 <= i < |readings| && readings[i].cell.admissible ==> readings[i].cell.saturated
  }

  lemma {:induction false} CountsCompare(rs: seq<Reading>)
    requires Nested(rs)
    ensures Count(rs, IsSaturated) <= Count(rs, IsAdmissible)
    ensures Count(rs, IsSaturated) == Count(rs, IsAdmissible) <==> AllSaturated(rs)
  {
    if |rs| == 0 {
    } else {
      var init := rs[..|rs| - 1];
      assert forall i :: 0 <= i < |init| ==> init[i] == rs[i];
      CountsCompare(init);
    }
  }

  lemma {:induction false} CountPositive(rs: seq<Reading>, k: nat)
    requires k < |rs| && rs[k].cell.admissible
    ensures Count(rs, IsAdmissible) > 0
  {
    if k < |rs| - 1 {
      CountPositive(rs[..|rs| - 1], k);
    }
  }

  /** Some member has an admissible, unsaturated neighbour to compare with. */
  ghost predicate Comparable(s: Scene, m: seq<Reading>) {
    exists x: U64 :: HealthyId(s, x) && NeighbourOf(s, m, x)
  }

  ghost predicate NeighbourOf(s: Scene, m: seq<Reading>, x: U64) {
    exists k :: 0 <= k < |m| && Linked(s.topology.links, m[k].id, x)
  }

  lemma HealthyCountMeaning(s: Scene, m: seq<Reading>)
    ensures HotspotOf(s, m).extent.healthyCount > 0 <==> Comparable(s, m)
  {
    HealthyCountIs(s, m);
    hide HotspotOf, HealthyAround, HealthyId, UniqueIds;
    var healthy := UniqueIds(HealthyAround(s, m));
    if |healthy| > 0 {
      assert healthy[0] in healthy;
      HealthyAroundLinks(s, m, healthy[0]);
    }
    if Comparable(s, m) {
      var x: U64 :| HealthyId(s, x) && NeighbourOf(s, m, x);
      HealthyAroundLinks(s, m, x);
      assert x in healthy;
    }
  }

  lemma HealthyCountIs(s: Scene, m: seq<Reading>)
    ensures HotspotOf(s, m).extent.healthyCount == |UniqueIds(HealthyAround(s, m))|
  {
    hide BlameFrom, TallyOf, HealthyAround, RegionsOf, LatestFirst, FewestSamples, Peak, UniqueIds, ScopeOf;
    hide CauseOf, Accumulated, IsPersistent;
  }

  lemma HealthyAroundLinks(s: Scene, m: seq<Reading>, x: U64)
    ensures x in HealthyAround(s, m) <==> HealthyId(s, x) && NeighbourOf(s, m, x)
  {
    HealthyAroundMeaning(s, m, x);
    hide HealthyId, HealthyAround, Partners, Linked;
    forall k | 0 <= k < |m| ensures x in Partners(s.topology.links, m[k].id) <==> Linked(s.topology.links, m[k].id, x) {
      PartnersMembers(s.topology.links, m[k].id, x);
    }
  }

  /** The scope of a component, in terms of the fabric: Global by share, by
      regions or because nothing admissible is left unsaturated; Regional by
      regions; Localized only with a healthy neighbour to compare with. */
  ghost predicate ScopeJustified(s: Scene, m: seq<Reading>) {
    var h := HotspotOf(s, m);
    var broken := h.extent.share >= s.th.globalSharePpm || |RegionsOf(m)| > s.th.maxRegionalRegions
        || AllSaturated(s.readings);
    var wide := |RegionsOf(m)| > s.th.maxLocalRegions;
    && (h.scope == Global <==> broken)
    && (h.scope == Regional <==> !broken && wide)
    && (h.scope == Localized <==> !broken && !wide && Comparable(s, m))
    && (h.scope == Unknown <==> !broken && !wide && !Comparable(s, m))
  }

  lemma ScopeMeaning(s: Scene, k: nat)
    requires ValidScene(s) && k < |ComponentsOf(s)| && Within(ComponentsOf(s), |s.readings|)
    ensures ScopeJustified(s, Pick(s.readings, ComponentsOf(s)[k]))
  {
    AdmissibleCounts(s, k);
    hide ValidTopology, Nested, CensusOf, ComponentsOf, ScopeJustified, AllSaturated;
    ScopeCases(s, Pick(s.readings, ComponentsOf(s)[k]));
  }

  lemma ScopeCases(s: Scene, m: seq<Reading>)
    requires s.census.admissibleCount > 0
    requires s.census.saturatedCount == s.census.admissibleCount <==> AllSaturated(s.readings)
    ensures ScopeJustified(s, m)
  {
    hide HotspotOf, Comparable, AllSaturated, RegionsOf;
    HealthyCountMeaning(s, m);
    ScopeFromExtent(s, m);
  }

  lemma AdmissibleCounts(s: Scene, k: nat)
    requires ValidScene(s) && k < |ComponentsOf(s)|
    ensures s.census.admissibleCount > 0
    ensures s.census.saturatedCount == s.census.admissibleCount <==> AllSaturated(s.readings)
  {
    ComponentClass(s, k);
    var first := ComponentsOf(s)[k][0];
    hide ComponentsOf, ValidTopology, Joined, Accumulated, Pressures;
    CountsCompare(s.readings);
    CountPositive(s.readings, first);
  }

  lemma ScopeFromExtent(s: Scene, m: seq<Reading>)
    ensures var h := HotspotOf(s, m); h.scope == ScopeOf(s, h.extent) && h.extent.regions == RegionsOf(m)
  {
    hide BlameFrom, TallyOf, HealthyAround, RegionsOf, LatestFirst, FewestSamples, Peak, UniqueIds, ScopeOf;
    hide CauseOf, Accumulated, IsPersistent;
  }
}
