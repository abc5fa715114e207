/** Decisions in terms of the evidence they rest on (src/detection.cpp,
    src/intervention.cpp): when an evaluation is refused, when a component is
    confirmed and eligible, whom its contributors name, and when it gets the
    plainest intent. */
module EvidenceTheorems {
  import opened Base
  import opened Model
  import opened Ordering
  import opened Checked
  import opened Totals
  import opened Snapshots
  import opened TopologyIndex
  import opened References
  import opened Classification
  import opened SaturationHistory
  import opened SaturatedComponents
  import opened SaturationSearch
  import opened DemandAttribution
  import opened Detection
  import opened DetectionTheorems
  import opened ReadingTheorems
  import opened Detector
  import opened Intervention
  import opened Locality

  // ----- refusal ------------------------------------------------------------------------

  /** Present, in its validity window, recent, and of one topology and capacity
      generation. */
  predicate Bound(e: Evidence, th: Thresholds, now: Millis) {
    && e.topology.Some? && e.capacity.Some? && e.signals.Some?
    && (e.topology.value.validUntil == 0 || e.topology.value.validUntil >= now)
    && e.capacity.value.topologyGeneration == e.topology.value.generation == e.signals.value.topologyGeneration
    && WithinAge(e.capacity.value.observedAt, now, th.maxCapacityAge)
    && e.signals.value.capacityGeneration == e.capacity.value.generation
  }

  /** Paths of that topology generation, recent, and traffic over them. */
  predicate PathsBound(e: Evidence, th: Thresholds, now: Millis) {
    && e.topology.Some? && e.paths.Some?
    && e.paths.value.topologyGeneration == e.topology.value.generation
    && WithinAge(e.paths.value.observedAt, now, th.maxPathAge)
  }

  predicate TrafficBound(e: Evidence, th: Thresholds, now: Millis) {
    PathsBound(e, th, now) && e.traffic.Some? && e.traffic.value.pathGeneration == e.paths.value.generation
  }

  lemma BoundExactly(e: Evidence, th: Thresholds, now: Millis)
    requires Governs(e, th)
    ensures Bound(e, th, now) <==> e.topology.Some? && TopologyFresh(e.topology.value, now) && SignalsOk(e, now)
    ensures PathsBound(e, th, now) <==> PathsOk(e, now)
    ensures TrafficBound(e, th, now) <==> TrafficOk(e, now)
  {
    if e.capacity.Some? {
      AgeExactly(e.capacity.value.observedAt, now, th.maxCapacityAge);
    }
    if e.paths.Some? {
      AgeExactly(e.paths.value.observedAt, now, th.maxPathAge);
    }
    hide AgeMs, WithinAge;
  }

  ghost predicate Named(rs: seq<Resource>, id: U64) { exists x :: 0 <= x < |rs| && rs[x].id == id }

  /** Every resource that capacity, telemetry and bound paths name is one of the
      topology's. */
  ghost predicate AllNamed(e: Evidence, th: Thresholds, now: Millis)
    requires e.topology.Some? && e.capacity.Some? && e.signals.Some?
  {
    var rs := e.topology.value.content.resources;
    && (forall c :: c in e.capacity.value.entries ==> Named(rs, c.resource))
    && (forall s :: s in e.signals.value.records ==> Named(rs, s.resource))
    && (PathsBound(e, th, now) ==>
          forall p, hop :: p in e.paths.value.paths && hop in p.hops ==> hop != 0 && Named(rs, hop))
  }

  lemma NamedExactly(e: Evidence, th: Thresholds, now: Millis)
    requires ValidEvidence(e) && Governs(e, th) && e.topology.Some? && e.capacity.Some? && e.signals.Some?
    ensures AllNamed(e, th, now) <==> ReferencesResolve(e, now)
  {
    BoundExactly(e, th, now);
    hide PathsBound, PathsOk;
    CapacityNamed(e.topology.value.content, e.capacity.value.entries);
    SignalsNamed(e.topology.value.content, e.signals.value.records);
    if e.paths.Some? {
      PathsNamed(e.topology.value.content, e.paths.value.paths);
    }
    hide CapacityResolves, SignalsResolve, PathsResolve, Named;
  }

  lemma CapacityNamed(c: TopologyContent, es: seq<CapacityEntry>)
    ensures CapacityResolves(c, es) <==> forall x :: x in es ==> Named(c.resources, x.resource)
  {
    if CapacityResolves(c, es) {
      forall x | x in es ensures Named(c.resources, x.resource) {
        var k :| 0 <= k < |es| && es[k] == x;
        assert Defines(c.resources, CapacityKey(es[k]));
      }
    }
    if forall x :: x in es ==> Named(c.resources, x.resource) {
      forall k | 0 <= k < |es| ensures Defines(c.resources, CapacityKey(es[k])) {
        assert Named(c.resources, es[k].resource);
      }
    }
  }

  lemma SignalsNamed(c: TopologyContent, ss: seq<SignalRecord>)
    ensures SignalsResolve(c, ss) <==> forall x :: x in ss ==> Named(c.resources, x.resource)
  {
    if SignalsResolve(c, ss) {
      forall x | x in ss ensures Named(c.resources, x.resource) {
        var k :| 0 <= k < |ss| && ss[k] == x;
        assert Defines(c.resources, SignalKey(ss[k]));
      }
    }
    if forall x :: x in ss ==> Named(c.resources, x.resource) {
      forall k | 0 <= k < |ss| ensures Defines(c.resources, SignalKey(ss[k])) {
        assert Named(c.resources, ss[k].resource);
      }
    }
  }

  lemma ResourceNamed(c: TopologyContent, id: U64)
    requires ValidTopology(c)
    ensures HasResource(c.resources, id) <==> id != 0 && Named(c.resources, id)
  {
    hide ValidRegions, ValidLinks;
    if Named(c.resources, id) {
      var x :| 0 <= x < |c.resources| && c.resources[x].id == id;
      assert ResourceKey(c.resources[x]) == id;
    }
  }

  lemma PathsNamed(c: TopologyContent, ps: seq<PathRecord>)
    requires ValidTopology(c)
    ensures PathsResolve(c, ps) <==>
            forall p, hop :: p in ps && hop in p.hops ==> hop != 0 && Named(c.resources, hop)
  {
    hide ValidTopology, HasResource, Named;
    forall id: U64 ensures HasResource(c.resources, id) <==> id != 0 && Named(c.resources, id) {
      ResourceNamed(c, id);
    }
    if PathsResolve(c, ps) {
      forall p, hop | p in ps && hop in p.hops ensures HasResource(c.resources, hop) {
        var a :| 0 <= a < |ps| && ps[a] == p;
        var b :| 0 <= b < |p.hops| && p.hops[b] == hop;
        assert HasResource(c.resources, ps[a].hops[b]);
      }
    }
    if forall p, hop :: p in ps && hop in p.hops ==> HasResource(c.resources, hop) {
      forall a, b | 0 <= a < |ps| && 0 <= b < |ps[a].hops| ensures HasResource(c.resources, ps[a].hops[b]) {
        assert ps[a] in ps && ps[a].hops[b] in ps[a].hops;
      }
    }
  }

  /** A total as the saturating accumulation holds it. */
  function Clamped(n: nat): U64 { Min(n, U64_MAX) }

  /** The resources with usable capacity, and the believed and whole capacity,
      reach the coverage floor. */
  ghost predicate Dense(rs: seq<Reading>, floor: U32) {
    && Total(rs, FabricUnits) > 0
    && (|rs| - Count(rs, IsUnusable)) * PPM_SCALE >= floor * |rs|
    && Reaches(Clamped(Total(rs, AdmissibleUnits)), Clamped(Total(rs, FabricUnits)), floor)
  }

  lemma DenseExactly(rs: seq<Reading>, th: Thresholds)
    requires 0 < |rs| <= MAX_RESOURCES
    ensures CoverageOk(th, |rs|, CensusOf(rs)) <==> Dense(rs, th.minCoveragePpm)
  {
    hide Accumulated, Total, Count, Pressures, Ppm, Reaches;
    var fabric, believed := Total(rs, FabricUnits), Total(rs, AdmissibleUnits);
    AccumulatedIsClampedTotal(rs, FabricUnits);
    AccumulatedIsClampedTotal(rs, AdmissibleUnits);
    PpmReaches(|rs| - Count(rs, IsUnusable), |rs|, th.minCoveragePpm);
    ScalesReaches(|rs| - Count(rs, IsUnusable), |rs|, th.minCoveragePpm);
    PpmReaches(Clamped(believed), Clamped(fabric), th.minCoveragePpm);
  }

  /** An evaluation is refused exactly when its evidence is missing, stale or
      unbound, names an unknown resource without having been verified before, or
      covers less of the resources or of the capacity than the policy asks. */
  lemma RefusedOverEvidence(i: Input, h: Option<History>, th: Thresholds)
    requires ValidInput(i) && Governs(i.evidence, th)
    ensures var e := i.evidence;
            Detect(i, h).refused <==>
              || !Bound(e, th, i.now) || e.topology.value.content.resources == []
              || (!i.preverified && !AllNamed(e, th, i.now))
              || !Dense(ReadingsOf(e, i.now), th.minCoveragePpm)
  {
    RefusedExactly(i, h);
    var e := i.evidence;
    BoundExactly(e, th, i.now);
    GoverningThresholds(e, th);
    if Bound(e, th, i.now) {
      NamedExactly(e, th, i.now);
      if e.topology.value.content.resources != [] {
        SizesAgree(i);
        DenseExactly(ReadingsOf(e, i.now), th);
      }
    }
    hide Detect, Dense, ReadingsOf, ReferencesResolve, SignalsOk, TopologyFresh, ValidInput, Total, AllNamed;
  }

  lemma SizesAgree(i: Input)
    requires ValidInput(i) && i.evidence.topology.Some? && i.evidence.capacity.Some? && i.evidence.signals.Some?
    ensures |ReadingsOf(i.evidence, i.now)| == |i.evidence.topology.value.content.resources| <= MAX_RESOURCES
  {
    hide Read, ValidRegions, ValidLinks;
  }

  // ----- confirmation and eligibility ----------------------------------------------------------

  /** A history whose entries all say when they began. */
  ghost predicate Dated(h: Option<History>) {
    h.Some? ==> forall id :: id in h.value ==> h.value[id].first != NO_TIME
  }

  /** This evaluation included, the resource has been saturated often and long
      enough. */
  predicate Ripe(h: Option<History>, now: Millis, th: Thresholds, id: U64) {
    var e := EntryNow(h, now, id);
    e.samples >= th.minSamples && ElapsedMs(e.first, now) >= th.persistenceWindow
  }

  ghost predicate AllRipe(h: Option<History>, now: Millis, th: Thresholds, m: seq<Reading>) {
    forall k :: 0 <= k < |m| ==> Ripe(h, now, th, m[k].id)
  }

  lemma {:induction false} FewestAttained(h: Option<History>, now: Millis, m: seq<Reading>)
    requires |m| > 0
    ensures exists k :: 0 <= k < |m| && FewestSamples(h, now, m) == EntryNow(h, now, m[k].id).samples
  {
    hide EntryNow;
    if |m| == 1 {
      assert FewestSamples(h, now, m) == EntryNow(h, now, m[0].id).samples;
    } else {
      var init := m[..|m| - 1];
      FewestAttained(h, now, init);
      var k :| 0 <= k < |init| && FewestSamples(h, now, init) == EntryNow(h, now, init[k].id).samples;
      assert m[k] == init[k];
      assert FewestSamples(h, now, m) == EntryNow(h, now, m[k].id).samples
             || FewestSamples(h, now, m) == EntryNow(h, now, m[|m| - 1].id).samples;
    }
  }

  lemma {:induction false} LatestAttained(h: Option<History>, now: Millis, m: seq<Reading>)
    requires |m| > 0
    ensures exists k :: 0 <= k < |m| && LatestFirst(h, now, m) == EntryNow(h, now, m[k].id).first
  {
    hide EntryNow;
    var last := EntryNow(h, now, m[|m| - 1].id).first;
    if |m| == 1 {
      LatestOfOne(h, now, m);
    } else {
      var init := m[..|m| - 1];
      LatestAttained(h, now, init);
      var k :| 0 <= k < |init| && LatestFirst(h, now, init) == EntryNow(h, now, init[k].id).first;
      assert m[k] == init[k];
      assert LatestFirst(h, now, m) == EntryNow(h, now, m[k].id).first || LatestFirst(h, now, m) == last;
    }
  }

  lemma LatestOfOne(h: Option<History>, now: Millis, m: seq<Reading>)
    requires |m| == 1
    ensures LatestFirst(h, now, m) == EntryNow(h, now, m[0].id).first
  {
    hide EntryNow;
    assert LatestFirst(h, now, m[..0]) == NO_TIME;
  }

  /** A component is confirmed exactly when a tracker was given and every member
      of it is ripe. */
  lemma PersistentExactly(s: Scene, m: seq<Reading>)
    requires |m| > 0 && Dated(s.history) && s.now != NO_TIME
    ensures HotspotOf(s, m).persistent <==> s.history.Some? && AllRipe(s.history, s.now, s.th, m)
  {
    var first, samples := LatestFirst(s.history, s.now, m), FewestSamples(s.history, s.now, m);
    PersistentIs(s, m);
    FewestAttained(s.history, s.now, m);
    LatestAttained(s.history, s.now, m);
    var a :| 0 <= a < |m| && samples == EntryNow(s.history, s.now, m[a].id).samples;
    var b :| 0 <= b < |m| && first == EntryNow(s.history, s.now, m[b].id).first;
    forall k | 0 <= k < |m|
      ensures samples <= EntryNow(s.history, s.now, m[k].id).samples
      ensures ElapsedMs(EntryNow(s.history, s.now, m[k].id).first, s.now) >= ElapsedMs(first, s.now)
    {
      HistoryBounds(s.history, s.now, m, k);
      EntryDated(s.history, s.now, m[k].id);
      ElapsedAntitone(EntryNow(s.history, s.now, m[k].id).first, first, s.now);
    }
    hide HotspotOf, EntryNow, LatestFirst, FewestSamples, ElapsedMs;
    if AllRipe(s.history, s.now, s.th, m) {
      assert Ripe(s.history, s.now, s.th, m[a].id) && Ripe(s.history, s.now, s.th, m[b].id);
    }
  }

  lemma EntryDated(h: Option<History>, now: Millis, id: U64)
    requires Dated(h) && now != NO_TIME
    ensures EntryNow(h, now, id).first != NO_TIME
  {
  }

  lemma PersistentIs(s: Scene, m: seq<Reading>)
    ensures HotspotOf(s, m).persistent <==>
            && s.history.Some? && FewestSamples(s.history, s.now, m) >= s.th.minSamples
            && ElapsedMs(LatestFirst(s.history, s.now, m), s.now) >= s.th.persistenceWindow
  {
    hide BlameFrom, TallyOf, HealthyAround, RegionsOf, LatestFirst, FewestSamples, Peak, UniqueIds, ScopeOf;
    hide CauseOf, Accumulated;
  }

  /** A component is eligible for local mitigation exactly when the policy is
      live, every member is ripe, saturation has not broken locality, and it
      either spans several regions within the per-intent share or is confined and
      has a healthy neighbour to compare with. */
  lemma EligibleExactly(s: Scene, k: nat)
    requires ValidScene(s) && k < |ComponentsOf(s)| && Within(ComponentsOf(s), |s.readings|)
    requires Dated(s.history) && s.now != NO_TIME
    ensures var m := Pick(s.readings, ComponentsOf(s)[k]);
            var share, regions := Ppm(Accumulated(m, FabricUnits), s.census.fabric), |RegionsOf(m)|;
            HotspotOf(s, m).remediation == Eligible <==>
              && s.policyLive && s.history.Some? && AllRipe(s.history, s.now, s.th, m)
              && share < s.th.globalSharePpm && regions <= s.th.maxRegionalRegions && !AllSaturated(s.readings)
              && (if regions > s.th.maxLocalRegions then share <= s.budget.maxScopeShare else Comparable(s, m))
  {
    ComponentClass(s, k);
    ScopeMeaning(s, k);
    var m := Pick(s.readings, ComponentsOf(s)[k]);
    hide ComponentsOf, ValidTopology, Nested, CensusOf, Joined;
    PersistentExactly(s, m);
    RemediationIs(s, m);
    hide HotspotOf, AllRipe, AllSaturated, Comparable, RegionsOf, Ppm;
  }

  lemma RemediationIs(s: Scene, m: seq<Reading>)
    ensures var h := HotspotOf(s, m);
            && h.extent.share == Ppm(Accumulated(m, FabricUnits), s.census.fabric)
            && (h.remediation == Eligible <==>
                  && s.policyLive && h.persistent
                  && (h.scope == Localized || (h.scope == Regional && h.extent.share <= s.budget.maxScopeShare)))
  {
    hide BlameFrom, TallyOf, HealthyAround, RegionsOf, LatestFirst, FewestSamples, Peak, UniqueIds, CauseOf;
    hide Accumulated;
  }

  // ----- contributors -----------------------------------------------------------------------------

  /** A hotspot names a flow only on bound traffic, and exactly when the flow has
      fresh demand on a path through a member, unless a bound on the number of
      flows was hit. */
  lemma ContributorsExactly(s: Scene, m: seq<Reading>, flow: U64)
    ensures var b := HotspotOf(s, m).blame;
            && (s.flows.None? ==> b.attributed == 0 && b.contributors == [] && !b.usable)
            && (s.flows.Some? ==>
                  var f := Freshness(s.now, s.th.maxTrafficAge);
                  var backed := Backed(f, IdsOf(m), s.flows.value.paths, s.flows.value.traffic, flow);
                  && (NamesFlow(b.contributors, flow) ==> backed)
                  && (backed && !TallyOf(s, IdsOf(m)).incomplete && !b.contributorsTruncated ==>
                      NamesFlow(b.contributors, flow)))
  {
    BlameIs(s, m);
    if s.flows.Some? {
      var f := Freshness(s.now, s.th.maxTrafficAge);
      ContributorsBacked(f, IdsOf(m), s.flows.value.paths, s.flows.value.traffic, flow);
    } else {
      NothingCollected();
    }
    hide HotspotOf, Contributors, AddAll, Incidences, Backed;
  }

  lemma BlameIs(s: Scene, m: seq<Reading>)
    ensures HotspotOf(s, m).blame == BlameFrom(s, TallyOf(s, IdsOf(m)))
  {
    hide BlameFrom, TallyOf, ExtentOf, ScopeOf, CauseOf, RemediationOf, IsPersistent;
  }

  lemma NothingCollected()
    ensures Contributors(EMPTY_TALLY) == Collected([], 0, false)
  {
    assert SortBy(EMPTY_TALLY.accs, AccumulatorKey) == [];
  }

  /** Contributors of a confirmed hotspot rest on path and traffic evidence bound
      to the topology. */
  lemma ConfirmedContributors(i: Input, h: Option<History>, a: nat, flow: U64) returns (k: nat)
    requires ValidInput(i) && a < |Detect(i, h).hotspots|
        && NamesFlow(Detect(i, h).hotspots[a].blame.contributors, flow)
    ensures TrafficOk(i.evidence, i.now)
    ensures var s := SceneOf(i, h);
            && |s.readings| == |s.topology.resources|
            && k < |ComponentsOf(s)| && Within(ComponentsOf(s), |s.readings|)
            && Detect(i, h).hotspots[a] == HotspotOf(s, Pick(s.readings, ComponentsOf(s)[k]))
            && Backed(Freshness(i.now, s.th.maxTrafficAge), IdsOf(Pick(s.readings, ComponentsOf(s)[k])),
                      i.evidence.paths.value.paths, i.evidence.traffic.value.records, flow)
  {
    DetectAdmitted(i, h);
    AssessmentRestsOnEvidence(i, h);
    hide Detect, Refusal, HotspotOf, Backed, NamesFlow;
    var s := SceneOf(i, h);
    k := ConfirmedComponent(s, a);
    NoNames(flow);
    ContributorsExactly(s, Pick(s.readings, ComponentsOf(s)[k]), flow);
  }

  lemma NoNames(flow: U64)
    ensures !NamesFlow([], flow)
  {
  }

  // ----- the plainest intent ------------------------------------------------------------------------

  /** What the planner works on after detection on the same evidence. */
  ghost function PlanningGround(i: Input, h: Option<History>): Ground
    requires ValidInput(i) && i.evidence.topology.Some? && i.evidence.policy.Some?
  {
    GroundOf(Detect(i, h), i.evidence.topology.value.content, EntriesOf(i.evidence), i.evidence.policy.value)
  }

  lemma ResourcesAscend(c: TopologyContent, a: nat, b: nat)
    requires ValidTopology(c) && a < b < |c.resources|
    ensures c.resources[a].id < c.resources[b].id
  {
    hide ValidRegions, ValidLinks;
    assert ResourceKey(c.resources[a]) < ResourceKey(c.resources[b]);
  }

  lemma ResourceHeld(c: TopologyContent, a: nat)
    requires ValidTopology(c) && a < |c.resources|
    ensures HasResource(c.resources, c.resources[a].id)
  {
    hide ValidRegions, ValidLinks;
    assert ResourceKey(c.resources[a]) == c.resources[a].id;
  }

  lemma ComponentIdsAscend(s: Scene, k: nat)
    requires ValidScene(s) && k < |ComponentsOf(s)| && Within(ComponentsOf(s), |s.readings|)
    ensures Ascending(IdsOf(Pick(s.readings, ComponentsOf(s)[k])))
    ensures ScopeKnown(s.topology, IdsOf(Pick(s.readings, ComponentsOf(s)[k])))
  {
    hide ComponentsOf, Nested, CensusOf, Joined, ValidTopology, HasResource;
    ComponentClass(s, k);
    var c := ComponentsOf(s)[k];
    var ids := IdsOf(Pick(s.readings, c));
    forall a, b | 0 <= a < b < |ids| ensures ids[a] < ids[b] {
      ResourcesAscend(s.topology, c[a], c[b]);
    }
    forall a | 0 <= a < |ids| ensures HasResource(s.topology.resources, ids[a]) {
      ResourceHeld(s.topology, c[a]);
    }
  }

  lemma AscendingUnchanged(ids: seq<U64>)
    requires Ascending(ids)
    ensures UniqueIds(ids) == ids
  {
    SortAscendingIsIdentity(ids);
    UniqueAscendingIsIdentity(ids);
  }

  lemma {:induction false} SameUnits(es: seq<CapacityEntry>, m: seq<Reading>)
    requires CapacityKnown(es, m)
    ensures Accumulated(IdsOf(m), UnitsIn(es)) == Accumulated(m, FabricUnits)
  {
    hide FindCapacity, SatAdd;
    if |m| == 0 {
      assert IdsOf(m) == [];
    } else {
      var init := m[..|m| - 1];
      SameUnits(es, init);
      assert IdsOf(m)[..|m| - 1] == IdsOf(init);
    }
  }

  lemma AdmissionDraft(g: Ground, h: Hotspot)
    ensures DraftOf(g, h, AdmissionReduction) == Some(Draft(h.extent.resources, [], [], 0))
    ensures UniqueIds([]) == []
  {
  }

  lemma TakenExactly(g: Ground, h: Hotspot, planShare: U32)
    ensures Try(g, h, AdmissionReduction, planShare).Fits? <==>
      var ids := UniqueIds(h.extent.resources);
      && g.budget.allowAdmission && |ids| <= g.budget.maxResources && |ids| <= MAX_INTENT_RESOURCES
      && ScopeKnown(g.topology, ids)
      && ShareOf(g.capacity, ids, g.fabric) <= Min(g.budget.maxScopeShare, g.budget.maxPlanShare - planShare)
  {
    AdmissionDraft(g, h);
    hide DraftOf, UniqueIds, ScopeKnown, ShareOf;
  }

  /** Admission reduction, which every cause lists, is taken for a component
      exactly when the budget allows it, the component is within the resource
      bounds, and its own share of the fabric fits the intent and what is left of
      the plan: nothing else about the evidence can stop it. */
  lemma AdmissionReductionExactly(i: Input, h: Option<History>, k: nat, planShare: U32)
    requires ValidInput(i) && Refusal(i).None? && i.evidence.policy.Some?
    requires |SceneOf(i, h).readings| == |SceneOf(i, h).topology.resources| && k < |ComponentsOf(SceneOf(i, h))|
    requires Within(ComponentsOf(SceneOf(i, h)), |SceneOf(i, h).readings|)
    ensures var s, b := SceneOf(i, h), i.evidence.policy.value.budget;
            var m := Pick(s.readings, ComponentsOf(s)[k]);
            var share := Ppm(Accumulated(m, FabricUnits), s.census.fabric);
            Try(PlanningGround(i, h), HotspotOf(s, m), AdmissionReduction, planShare).Fits? <==>
              && b.allowAdmission && |m| <= b.maxResources && |m| <= MAX_INTENT_RESOURCES
              && share <= Min(b.maxScopeShare, b.maxPlanShare - planShare)
  {
    hide Detect, Refusal, ComponentsOf, ValidScene, CapacityKnown, ScopeKnown, HotspotOf, Try, PlanningGround;
    hide ValidInput, ReadingsOf, Accumulated, Ascending, IdsOf;
    AdmittedPresent(i);
    SceneIsValid(i, h);
    var s := SceneOf(i, h);
    GroundFacts(i, h);
    MembersKnown(i, h, k);
    ComponentIdsAscend(s, k);
    var m, g := Pick(s.readings, ComponentsOf(s)[k]), PlanningGround(i, h);
    AdmissionForComponent(g, s, m, i.evidence.capacity.value.entries, planShare);
  }

  lemma AdmittedPresent(i: Input)
    requires Refusal(i).None?
    ensures i.evidence.topology.Some? && i.evidence.capacity.Some? && i.evidence.signals.Some?
  {
    hide CensusOf, CoverageOk, ReferencesResolve, ReadingsOf;
  }

  lemma GroundFacts(i: Input, h: Option<History>)
    requires ValidInput(i) && Refusal(i).None? && i.evidence.policy.Some?
    ensures var s, g := SceneOf(i, h), PlanningGround(i, h);
            && i.evidence.capacity.Some? && g.budget == i.evidence.policy.value.budget && g.topology == s.topology
            && g.capacity == Some(i.evidence.capacity.value.entries)
            && g.fabric == s.census.fabric
  {
    hide ComponentsOf, FileAll, Hotspots, CensusOf, CoverageOk, ReferencesResolve, Widest, Escalates;
  }

  lemma AdmissionForComponent(g: Ground, s: Scene, m: seq<Reading>, es: seq<CapacityEntry>, planShare: U32)
    requires g.topology == s.topology && g.capacity == Some(es) && g.fabric == s.census.fabric
    requires CapacityKnown(es, m) && Ascending(IdsOf(m)) && ScopeKnown(s.topology, IdsOf(m))
    ensures var share := Ppm(Accumulated(m, FabricUnits), s.census.fabric);
            Try(g, HotspotOf(s, m), AdmissionReduction, planShare).Fits? <==>
              && g.budget.allowAdmission && |m| <= g.budget.maxResources && |m| <= MAX_INTENT_RESOURCES
              && share <= Min(g.budget.maxScopeShare, g.budget.maxPlanShare - planShare)
  {
    hide HotspotOf, Try, UniqueIds, ScopeKnown, Accumulated, CapacityKnown, Ppm, UnitsIn, Ascending;
    var h, ids := HotspotOf(s, m), IdsOf(m);
    TakenExactly(g, h, planShare);
    ListedResources(s, m);
    SameUnits(es, m);
    ShortIsListed(ids);
    ListedUnchanged(ids);
  }

  lemma ShortIsListed(ids: seq<U64>)
    ensures |ids| <= MAX_INTENT_RESOURCES ==> Take(ids, MAX_HOTSPOT_RESOURCES) == ids
    ensures |ids| > MAX_INTENT_RESOURCES ==> |Take(ids, MAX_HOTSPOT_RESOURCES)| > MAX_INTENT_RESOURCES
  {
  }

  lemma ListedUnchanged(ids: seq<U64>)
    requires Ascending(ids)
    ensures UniqueIds(Take(ids, MAX_HOTSPOT_RESOURCES)) == Take(ids, MAX_HOTSPOT_RESOURCES)
  {
    hide UniqueIds;
    AscendingUnchanged(Take(ids, MAX_HOTSPOT_RESOURCES));
  }
}
