/** Which intent a hotspot gets (src/intervention.cpp): the kinds a policy enables,
    the order a cause prefers them in, and, in terms of the evidence, when a kind
    is taken. */
module PlanTheorems {
  import opened Base
  import opened Model
  import opened Ordering
  import opened Checked
  import opened Totals
  import opened Snapshots
  import opened TopologyIndex
  import opened Classification
  import opened SaturationHistory
  import opened SaturatedComponents
  import opened SaturationSearch
  import opened DemandAttribution
  import opened AttributionTheorems
  import opened Detection
  import opened DetectionTheorems
  import opened ReadingTheorems
  import opened Detector
  import opened Intervention
  import opened Locality
  import opened EvidenceTheorems
  import opened AssessmentTheorems

  // ----- kinds -----------------------------------------------------------------------------

  /** The policy's switch for a kind. */
  predicate Enabled(b: Budget, k: Kind) {
    && (k == FlowRelocation ==> b.allowRelocation) && (k == PathRebalance ==> b.allowRebalance)
    && (k == AdmissionReduction ==> b.allowAdmission) && (k == RatePacingChange ==> b.allowRate)
    && (k == ResourceIsolation ==> b.allowIsolation) && (k == EscalateGlobalCongestion ==> b.allowEscalation)
    && k != NoKind
  }

  /** When a cause considers a kind, counted from its first choice. */
  function Turn(c: Cause, k: Kind): Option<nat> {
    match k
    case FlowRelocation => if c == FanInContention then Some(0) else if c == CapacityExhaustion then Some(2) else None
    case PathRebalance =>
      if c == StructuralConvergence then Some(0)
      else if c == FanInContention then Some(1)
      else if c == QueueBuildup then Some(2)
      else None
    case RatePacingChange =>
      if c == QueueBuildup then Some(0)
      else if c == CapacityExhaustion then Some(1)
      else if c == Microburst || c == UnknownCause then None
      else Some(2)
    case AdmissionReduction =>
      if c == FanInContention then Some(3)
      else if c == StructuralConvergence || c == QueueBuildup then Some(1)
      else Some(0)
    case ResourceIsolation =>
      if c == BufferExhaustion then Some(1) else if c == CapacityExhaustion then Some(3) else None
    case _ => None
  }

  lemma PriorityTurns(c: Cause, k: Kind)
    ensures k in Priority(c) <==> Turn(c, k).Some?
    ensures Turn(c, k).Some? ==> Turn(c, k).value < |Priority(c)| && Priority(c)[Turn(c, k).value] == k
  {
  }

  lemma EnabledExactly(b: Budget, k: Kind)
    ensures Allows(b, k) <==> Enabled(b, k)
  {
  }

  /** The hotspot an intent is for, and how much of the plan was spent before it. */
  lemma ChosenFor(g: Ground, hs: seq<Hotspot>, a: nat) returns (j: nat, planShare: U32)
    requires a < |PlanAll(g, hs).intents|
    ensures j < |hs| && hs[j].remediation == Eligible && planShare == PlanAll(g, hs[..j]).share
    ensures FirstFitIs(g, hs[j], planShare, PlanAll(g, hs).intents[a])
  {
    IntentsAreFirstFits(g, hs);
    hide PlanAll, Try, Priority, Origins, FirstFitIs;
    j := Origins(g, hs)[a];
    planShare := PlanAll(g, hs[..j]).share;
  }

  /** Every kind the cause prefers to this one was tried first and did not fit. */
  ghost predicate Preferred(g: Ground, h: Hotspot, planShare: U32, k: Kind) {
    && Turn(h.cause, k).Some?
    && forall other :: Turn(h.cause, other).Some? && Turn(h.cause, other).value < Turn(h.cause, k).value ==>
         !Try(g, h, other, planShare).Fits?
  }

  lemma FirstFitPreferred(g: Ground, h: Hotspot, planShare: U32, i: Intent)
    requires FirstFitIs(g, h, planShare, i)
    ensures Preferred(g, h, planShare, i.kind) && i == Try(g, h, i.kind, planShare).intent
    ensures Try(g, h, i.kind, planShare).Fits?
  {
    hide Try, Priority, Turn;
    var kinds := Priority(h.cause);
    var k: nat :| IsFirstFit(g, h, kinds, planShare, k) && i == Try(g, h, kinds[k], planShare).intent;
    FitsWithinPlan(g, h, kinds[k], planShare);
    PriorityTurns(h.cause, kinds[k]);
    PrioritiesDiffer(h.cause, k, Turn(h.cause, kinds[k]).value);
    forall other | Turn(h.cause, other).Some? && Turn(h.cause, other).value < k
      ensures !Try(g, h, other, planShare).Fits?
    {
      PriorityTurns(h.cause, other);
      assert !FitsAt(g, h, kinds, planShare, Turn(h.cause, other).value);
    }
  }

  lemma PrioritiesDiffer(c: Cause, a: nat, b: nat)
    requires a < |Priority(c)| && b < |Priority(c)| && Priority(c)[a] == Priority(c)[b]
    ensures a == b
  {
  }

  /** Every intent of a decision is of a kind its policy enables; a local one is
      the first kind of its hotspot's cause that fits what the plan has left. */
  lemma IntentPreferred(i: Input, h: Option<History>, a: nat) returns (j: nat, planShare: U32)
    requires ValidInput(i) && a < |Decide(i, h).intents|
    ensures i.evidence.topology.Some? && i.evidence.policy.Some?
    ensures Enabled(i.evidence.policy.value.budget, Decide(i, h).intents[a].kind)
    ensures IsLocal(Decide(i, h).intents[a]) ==>
              && j < |Detect(i, h).hotspots| && Detect(i, h).hotspots[j].remediation == Eligible
              && Decide(i, h).intents[a].hotspot == Some(Detect(i, h).hotspots[j].id)
              && Preferred(PlanningGround(i, h), Detect(i, h).hotspots[j], planShare, Decide(i, h).intents[a].kind)
  {
    hide Detect, Decide, PlanAll, LocalityBroken, InForce, Try, Mentioned, Enabled, Preferred, ValidInput;
    DecisionExactly(i, h, ThresholdsOf(i.evidence), BudgetOf(i.evidence));
    var d := Detect(i, h);
    j, planShare := 0, 0;
    if !d.refused && LocalityBroken(d, ThresholdsOf(i.evidence), BudgetOf(i.evidence)) {
      EscalationEnabled(i.evidence.policy.value.budget);
    } else {
      j, planShare := PlannedPreferred(PlanningGround(i, h), d.hotspots, a);
    }
  }

  lemma PlannedPreferred(g: Ground, hs: seq<Hotspot>, a: nat) returns (j: nat, planShare: U32)
    requires a < |PlanAll(g, hs).intents|
    ensures var i := PlanAll(g, hs).intents[a];
            && j < |hs| && hs[j].remediation == Eligible && Enabled(g.budget, i.kind)
            && i.hotspot == Some(hs[j].id) && Preferred(g, hs[j], planShare, i.kind)
  {
    hide PlanAll, Try, Priority, Enabled, Preferred, FirstFitIs;
    j, planShare := ChosenFor(g, hs, a);
    var i := PlanAll(g, hs).intents[a];
    FirstFitPreferred(g, hs[j], planShare, i);
    FitsWithinPlan(g, hs[j], i.kind, planShare);
    FitsEnabled(g, hs[j], i.kind, planShare);
  }

  lemma EscalationEnabled(b: Budget)
    ensures b.allowEscalation ==> Enabled(b, EscalateGlobalCongestion)
  {
  }

  lemma FitsEnabled(g: Ground, h: Hotspot, k: Kind, planShare: U32)
    requires Try(g, h, k, planShare).Fits?
    ensures Enabled(g.budget, k)
  {
    hide DraftOf, Canonical, SizeOk, ScopeKnown, ShareOf;
    EnabledExactly(g.budget, k);
  }

  // ----- when a kind is taken ----------------------------------------------------------------

  predicate Planned(k: Kind) { k != NoKind && k != EscalateGlobalCongestion }

  /** What a kind itself needs of a hotspot. */
  ghost predicate Applicable(g: Ground, h: Hotspot, k: Kind) {
    && (k == PathRebalance || (k == FlowRelocation && g.budget.requireAttribution) ==> AttributionUsable(g, h))
    && (k == RatePacingChange ==> Max(h.extent.peakUtilization, h.extent.peakPressure) > g.th.saturationPpm)
    && (k == ResourceIsolation ==> DropsSeen(g.pressures))
  }

  function NamedAt(g: Ground, h: Hotspot, k: Kind): seq<Contributor> {
    if DraftNames(g, h, k) then h.blame.contributors else []
  }

  lemma FitExactly(g: Ground, h: Hotspot, k: Kind, planShare: U32)
    requires Planned(k) && |h.blame.contributors| <= MAX_CONTRIBUTORS
    ensures var ids, cs := UniqueIds(Touched(h.extent, k)), NamedAt(g, h, k);
            Try(g, h, k, planShare).Fits? <==>
              && Enabled(g.budget, k) && Applicable(g, h, k)
              && |ids| <= g.budget.maxResources && |ids| <= MAX_INTENT_RESOURCES && ScopeKnown(g.topology, ids)
              && |UniqueIds(PathsOf(cs))| <= g.budget.maxPaths && |UniqueIds(FlowsOf(cs))| <= g.budget.maxFlows
              && ShareOf(g.capacity, ids, g.fabric) <= Min(g.budget.maxScopeShare, g.budget.maxPlanShare - planShare)
  {
    EnabledExactly(g.budget, k);
    DraftExactly(g, h, k);
    hide Allows, Enabled, DraftOf, Touched, UniqueIds, ScopeKnown, ShareOf, Applicable, PathsOf, FlowsOf, NamedAt;
    var cs := NamedAt(g, h, k);
    NamedFew(g, h, k);
    UniqueFew(PathsOf(cs));
    UniqueFew(FlowsOf(cs));
  }

  lemma NamedFew(g: Ground, h: Hotspot, k: Kind)
    requires |h.blame.contributors| <= MAX_CONTRIBUTORS
    ensures |NamedAt(g, h, k)| <= MAX_CONTRIBUTORS
  {
  }

  lemma UniqueFew(ids: seq<U64>)
    ensures |UniqueIds(ids)| <= |ids|
  {
  }

  lemma DraftExactly(g: Ground, h: Hotspot, k: Kind)
    requires Planned(k) && |h.blame.contributors| <= MAX_CONTRIBUTORS
    ensures DraftOf(g, h, k).Some? <==> Applicable(g, h, k)
    ensures DraftOf(g, h, k).Some? ==>
              var d := DraftOf(g, h, k).value;
              && d.resources == Touched(h.extent, k)
              && d.paths == PathsOf(NamedAt(g, h, k)) && d.flows == FlowsOf(NamedAt(g, h, k))
  {
    if DraftOf(g, h, k).Some? {
      DraftContents(g, h, k);
    }
    assert PathsOf([]) == [] && FlowsOf([]) == [];
    hide AttributionUsable, DropsSeen, WithTargets, PathsOf, FlowsOf;
  }

  /** The distinct members of a vector. */
  ghost function Members(s: seq<int>): set<int> { set x | x in s }

  lemma UniqueCount(s: seq<U64>)
    ensures |UniqueIds(s)| == |Members(s)|
  {
    AscendingCardinality(UniqueIds(s));
    assert Members(UniqueIds(s)) == Members(s);
  }

  // ----- in terms of the evidence ----------------------------------------------------------------

  /** Attribution that intents may rely on: contributors, and enough of the demand
      met is fresh. */
  ghost predicate Attributed(i: Input, th: Thresholds, ids: seq<U64>, b: Blame) {
    && TrafficBound(i.evidence, th, i.now) && b.contributors != []
    && var j := EvidenceJoin(i, th, ids);
       th.minAttributionPpm == 0 || (Countable(j) && Reaches(FreshSum(j), AllDemand(j), th.minAttributionPpm))
  }

  /** Some resource whose records show saturation dropped traffic. */
  ghost predicate DropsShown(d: Records, rs: seq<Resource>) {
    exists x, c, s :: 0 <= x < |rs| && Sighted(d, rs[x].id, c, s)
      && Believed(d.th, c, s) && Loaded(d.th, c, s) && s.drops > 0
  }

  /** What each kind needs of the evidence. */
  ghost predicate Warranted(i: Input, p: Policy, ids: seq<U64>, b: Blame, k: Kind)
    requires Complete(i.evidence)
  {
    var d := RecordsIn(i, p.thresholds);
    && (k == PathRebalance || (k == FlowRelocation && p.budget.requireAttribution) ==>
          Attributed(i, p.thresholds, ids, b))
    && (k == RatePacingChange ==> AnyExceeds(d, ids, p.thresholds.saturationPpm))
    && (k == ResourceIsolation ==> DropsShown(d, ResourcesIn(i)))
  }

  lemma AttributedExactly(i: Input, h: Option<History>, k: nat, g: Ground)
    requires AtComponent(i, h, k) && i.evidence.policy.Some? && g.th == i.evidence.policy.value.thresholds
    requires TrafficBound(i.evidence, g.th, i.now) ==>
               AllDemand(EvidenceJoin(i, g.th, MembersOf(i, h, k))) <= U64_MAX
    ensures AttributionUsable(g, JudgementOf(i, h, k))
            <==> Attributed(i, g.th, MembersOf(i, h, k), JudgementOf(i, h, k).blame)
  {
    var s, ids := SceneOf(i, h), MembersOf(i, h, k);
    var m := Pick(s.readings, ComponentsOf(s)[k]);
    hide AtComponent, SceneOf, ComponentsOf, HotspotOf, AllDemand, FreshSum, Countable, Reaches, TrafficBound, IdsOf;
    SceneFlows(i, h, g.th, ids);
    UsableExactly(s, m, g.th.minAttributionPpm);
    ContributorsExactly(s, m, 0);
  }

  lemma RateExactly(i: Input, h: Option<History>, k: nat, th: Thresholds)
    requires AtComponent(i, h, k) && Governs(i.evidence, th)
    ensures var x := JudgementOf(i, h, k).extent;
            Max(x.peakUtilization, x.peakPressure) > th.saturationPpm <==>
              AnyExceeds(RecordsIn(i, th), MembersOf(i, h, k), th.saturationPpm)
  {
    hide ComponentsOf, HotspotOf, SomeReaches, IdsOf, ValidInput, ReadingsOf;
    if th.saturationPpm < U32_MAX {
      PeaksOverEvidence(i, h, th, k, th.saturationPpm + 1);
      AnyGauge(RecordsIn(i, th), MembersOf(i, h, k), th.saturationPpm + 1);
      hide SceneOf;
    }
  }

  lemma DropsExactly(i: Input, h: Option<History>, th: Thresholds)
    requires ValidInput(i) && Complete(i.evidence) && Governs(i.evidence, th)
    requires Count(SceneOf(i, h).readings, Remarkable) <= MAX_PRESSURES
    ensures DropsSeen(SceneOf(i, h).census.pressures) <==> DropsShown(RecordsIn(i, th), ResourcesIn(i))
  {
    var s, d, rs := SceneOf(i, h), RecordsIn(i, th), ResourcesIn(i);
    SceneIsValid(i, h);
    SizesAgree(i);
    assert s.census.pressures == Pressures(s.readings);
    hide ReadingsOf, ValidInput, ReadingIn, CensusOf, ValidTopology, Pressures, Sighted, Believed, Loaded;
    forall x | 0 <= x < |rs|
      ensures !(s.readings[x].cell.admissible && s.readings[x].cell.contradictory)
      ensures (s.readings[x].cell.saturated && s.readings[x].drops > 0) <==> DropsAt(d, rs[x].id)
    {
      EvidenceReading(i, h, th, x);
      ReadingDrops(d, rs[x]);
    }
    PressuresShown(s.readings);
    assert DropsShown(d, rs) <==> exists x :: 0 <= x < |rs| && DropsAt(d, rs[x].id);
  }

  ghost predicate DropsAt(d: Records, id: U64) {
    exists c, s :: Sighted(d, id, c, s) && Believed(d.th, c, s) && Loaded(d.th, c, s) && s.drops > 0
  }

  lemma ReadingDrops(d: Records, r: Resource)
    requires ValidRecords(d) && r.id != 0
    ensures var x := ReadingIn(d, r);
            && !(x.cell.admissible && x.cell.contradictory)
            && (x.cell.saturated && x.drops > 0 <==> DropsAt(d, r.id))
  {
    CellCoherent(d, r);
    NestedReading(d, r);
    hide Read, Sense, Believed, Loaded, ValidRecords, Sighted;
    var x := ReadingIn(d, r);
    forall c, s | Sighted(d, r.id, c, s)
      ensures x.drops == s.drops && (x.cell.saturated <==> Believed(d.th, c, s) && Loaded(d.th, c, s))
    {
      SightedReading(d, r, c, s);
      SenseExactly(d.th, c, s);
    }
    if x.cell.saturated {
      var c, s := CoveredSighted(d, r);
      assert Sighted(d, r.id, c, s);
    }
  }

  lemma CellCoherent(d: Records, r: Resource)
    ensures var x := ReadingIn(d, r).cell; !(x.admissible && x.contradictory)
  {
    hide FindCapacity, FindSignal;
  }

  // ----- everything together -----------------------------------------------------------------------

  lemma ContributorsFew(s: Scene, m: seq<Reading>)
    ensures |HotspotOf(s, m).blame.contributors| <= MAX_CONTRIBUTORS
  {
    BlameIs(s, m);
    var t := TallyOf(s, IdsOf(m));
    CollectMeaning(SortBy(t.accs, AccumulatorKey), t.freshBps);
    hide HotspotOf, TallyOf, Collect, SortBy;
  }

  lemma HealthyListed(s: Scene, m: seq<Reading>, x: U64)
    requires ValidTopology(s.topology) && x in HotspotOf(s, m).extent.healthy
    ensures HasResource(s.topology.resources, x)
  {
    HealthyNeighbour(s, m, x);
    hide HotspotOf, ValidRegions, ValidLinks, Linked;
    var at := IndexOfResource(s.topology, x);
    assert s.topology.resources[at.value].id == x;
  }

  lemma TouchedKnown(s: Scene, k: nat, kind: Kind)
    requires ValidScene(s) && k < |ComponentsOf(s)| && Within(ComponentsOf(s), |s.readings|)
    ensures ScopeKnown(s.topology, UniqueIds(Touched(HotspotOf(s, Pick(s.readings, ComponentsOf(s)[k])).extent, kind)))
  {
    var m := Pick(s.readings, ComponentsOf(s)[k]);
    ComponentIdsAscend(s, k);
    ListedResources(s, m);
    var x := HotspotOf(s, m).extent;
    forall id | id in x.healthy ensures HasResource(s.topology.resources, id) {
      HealthyListed(s, m, id);
    }
    hide HotspotOf, ComponentsOf, ValidScene, HasResource, UniqueIds;
    var ids := UniqueIds(Touched(x, kind));
    forall a | 0 <= a < |ids| ensures HasResource(s.topology.resources, ids[a]) {
      assert ids[a] in ids;
      TouchedMember(x, kind, ids[a]);
      if ids[a] in x.resources {
        var b :| 0 <= b < |x.resources| && x.resources[b] == ids[a];
        assert x.resources[b] == IdsOf(m)[b];
      }
    }
  }

  lemma TouchedMember(x: Extent, kind: Kind, id: U64)
    requires id in UniqueIds(Touched(x, kind))
    ensures id in x.resources || id in x.healthy
  {
    hide UniqueIds;
    DraftMember(Touched(x, kind), id);
    assert forall y :: y in Take(x.healthy, 64 - Min(64, |x.resources|)) ==> y in x.healthy;
  }

  lemma ShareIs(es: seq<CapacityEntry>, ids: seq<U64>, fabric: U64)
    ensures ShareOf(Some(es), ids, fabric) == Ppm(Clamped(Total(ids, UnitsIn(es))), fabric)
  {
    hide Ppm, Total, Accumulated;
    AccumulatedIsClampedTotal(ids, UnitsIn(es));
    NoFabric(Clamped(Total(ids, UnitsIn(es))));
  }

  lemma NoFabric(part: U64)
    ensures Ppm(part, 0) == 0
  {
  }

  /** A kind is taken for a component exactly when the policy enables it, the
      evidence warrants it, what it touches and names is within the policy's and the
      hard bounds, and the capacity it touches is within the per-intent share and
      what is left of the plan's. */
  lemma KindTakenExactly(i: Input, h: Option<History>, k: nat, kind: Kind, planShare: U32)
    requires AtComponent(i, h, k) && Refusal(i).None? && i.evidence.policy.Some? && Planned(kind)
    requires var th := i.evidence.policy.value.thresholds;
             TrafficBound(i.evidence, th, i.now) ==> AllDemand(EvidenceJoin(i, th, MembersOf(i, h, k))) <= U64_MAX
    requires kind == ResourceIsolation ==> Count(SceneOf(i, h).readings, Remarkable) <= MAX_PRESSURES
    ensures var p, x, b := i.evidence.policy.value, JudgementOf(i, h, k).extent, JudgementOf(i, h, k).blame;
            var ids := UniqueIds(Touched(x, kind));
            var names := (kind == FlowRelocation || kind == PathRebalance)
                && Attributed(i, p.thresholds, MembersOf(i, h, k), b);
            var cs := if names then b.contributors else [];
            var fabric := SceneOf(i, h).census.fabric;
            Try(PlanningGround(i, h), JudgementOf(i, h, k), kind, planShare).Fits? <==>
              && Enabled(p.budget, kind) && Warranted(i, p, MembersOf(i, h, k), b, kind)
              && |Members(Touched(x, kind))| <= Min(p.budget.maxResources, 64)
              && |Members(PathsOf(cs))| <= p.budget.maxPaths && |Members(FlowsOf(cs))| <= p.budget.maxFlows
              && Ppm(Clamped(Total(ids, UnitsIn(i.evidence.capacity.value.entries))), fabric)
                 <= Min(p.budget.maxScopeShare, p.budget.maxPlanShare - planShare)
  {
    hide ReadingsOf, ValidInput, HotspotOf, ComponentsOf, Refusal, PlanningGround, IdsOf, Touched, UniqueIds, Total;
    hide Ppm, Try, Enabled, TrafficBound, AllDemand, Members, PathsOf, FlowsOf, UnitsIn, Attributed, Warranted;
    hide AttributionUsable, Applicable, ScopeKnown, Countable, Reaches, FreshSum, CensusOf;
    var g, j := PlanningGround(i, h), JudgementOf(i, h, k);
    GroundKnown(i, h, k, kind);
    WarrantedExactly(i, h, k, kind, g);
    hide SceneOf, JudgementOf, MembersOf, AtComponent;
    KindFits(g, j, kind, planShare, i.evidence.capacity.value.entries);
  }

  lemma KindFits(g: Ground, h: Hotspot, k: Kind, planShare: U32, es: seq<CapacityEntry>)
    requires Planned(k) && |h.blame.contributors| <= MAX_CONTRIBUTORS && g.capacity == Some(es)
    requires ScopeKnown(g.topology, UniqueIds(Touched(h.extent, k)))
    ensures var ids, b := UniqueIds(Touched(h.extent, k)), g.budget;
            var cs := if (k == FlowRelocation || k == PathRebalance) && AttributionUsable(g, h)
                then h.blame.contributors else [];
            Try(g, h, k, planShare).Fits? <==>
              && Enabled(b, k) && Applicable(g, h, k)
              && |Members(Touched(h.extent, k))| <= Min(b.maxResources, 64)
              && |Members(PathsOf(cs))| <= b.maxPaths && |Members(FlowsOf(cs))| <= b.maxFlows
              && Ppm(Clamped(Total(ids, UnitsIn(es))), g.fabric) <= Min(b.maxScopeShare, b.maxPlanShare - planShare)
  {
    hide UniqueIds, Total, Ppm, ScopeKnown, Try, Enabled, Members, PathsOf, FlowsOf, UnitsIn, Touched, ShareOf;
    hide AttributionUsable, Applicable;
    FitExactly(g, h, k, planShare);
    var ids, cs := UniqueIds(Touched(h.extent, k)), NamedAt(g, h, k);
    UniqueCount(Touched(h.extent, k));
    UniqueCount(PathsOf(cs));
    UniqueCount(FlowsOf(cs));
    ShareIs(es, ids, g.fabric);
  }

  lemma WarrantedExactly(i: Input, h: Option<History>, k: nat, kind: Kind, g: Ground)
    requires AtComponent(i, h, k) && i.evidence.policy.Some? && g.th == i.evidence.policy.value.thresholds
    requires g.budget == i.evidence.policy.value.budget && g.pressures == SceneOf(i, h).census.pressures
    requires TrafficBound(i.evidence, g.th, i.now) ==>
               AllDemand(EvidenceJoin(i, g.th, MembersOf(i, h, k))) <= U64_MAX
    requires kind == ResourceIsolation ==> Count(SceneOf(i, h).readings, Remarkable) <= MAX_PRESSURES
    ensures var j, ids := JudgementOf(i, h, k), MembersOf(i, h, k);
            && (AttributionUsable(g, j) <==> Attributed(i, g.th, ids, j.blame))
            && (Applicable(g, j, kind) <==> Warranted(i, i.evidence.policy.value, ids, j.blame, kind))
  {
    hide ReadingsOf, ValidInput, HotspotOf, ComponentsOf, IdsOf, TrafficBound, AllDemand, DropsSeen, DropsShown;
    hide AnyExceeds, Attributed, AttributionUsable, CensusOf, Count;
    AttributedExactly(i, h, k, g);
    RateExactly(i, h, k, g.th);
    if kind == ResourceIsolation {
      DropsExactly(i, h, g.th);
    }
    hide SceneOf, JudgementOf, MembersOf;
  }

  lemma GroundKnown(i: Input, h: Option<History>, k: nat, kind: Kind)
    requires AtComponent(i, h, k) && Refusal(i).None? && i.evidence.policy.Some?
    ensures var g, j, p := PlanningGround(i, h), JudgementOf(i, h, k), i.evidence.policy.value;
            && g.th == p.thresholds && g.budget == p.budget && g.pressures == SceneOf(i, h).census.pressures
            && g.capacity == Some(i.evidence.capacity.value.entries) && g.fabric == SceneOf(i, h).census.fabric
            && |j.blame.contributors| <= MAX_CONTRIBUTORS
            && ScopeKnown(g.topology, UniqueIds(Touched(j.extent, kind)))
  {
    hide ReadingsOf, HotspotOf, ComponentsOf, Refusal, PlanningGround, Touched, UniqueIds, ScopeKnown, CensusOf;
    var s := SceneOf(i, h);
    SceneIsValid(i, h);
    hide ValidInput, ValidScene;
    TouchedKnown(s, k, kind);
    ContributorsFew(s, Pick(s.readings, ComponentsOf(s)[k]));
    GroundFacts(i, h);
    GroundPolicy(i, h);
  }

  lemma GroundPolicy(i: Input, h: Option<History>)
    requires ValidInput(i) && Refusal(i).None? && i.evidence.policy.Some?
    ensures i.evidence.topology.Some? && i.evidence.capacity.Some? && i.evidence.signals.Some?
    ensures var s, g := SceneOf(i, h), PlanningGround(i, h);
            g.th == i.evidence.policy.value.thresholds && g.pressures == s.census.pressures
  {
    AdmittedComplete(i);
    AdmittedConcludes(i, h);
    hide Detect, Refusal, ReadingsOf, CensusOf, ReportOf, Widest, Escalates, Ppm;
  }

  // ----- what is recorded ----------------------------------------------------------------------------

  /** A record of this kind for the hotspot, unless all records are used. */
  ghost predicate Recorded(plan: Plan, k: Kind, id: HotspotId) {
    Suppression(k, Some(id)) in plan.suppressed || |plan.suppressed| >= MAX_SUPPRESSED
  }

  lemma RecordedStays(before: Plan, after: Plan, k: Kind, id: HotspotId)
    requires Recorded(before, k, id) && before.suppressed <= after.suppressed
    ensures Recorded(after, k, id)
  {
    if Suppression(k, Some(id)) in before.suppressed {
      var j :| 0 <= j < |before.suppressed| && before.suppressed[j] == Suppression(k, Some(id));
      assert after.suppressed[j] == before.suppressed[j];
    }
  }

  lemma {:induction false} KindsRecorded(g: Ground, h: Hotspot, plan: Plan, kinds: seq<Kind>, j: nat)
    requires j < |kinds|
    ensures IsFirstFit(g, h, kinds, plan.share, j) || Recorded(AfterKinds(g, h, plan, kinds).plan, kinds[j], h.id)
  {
    hide Try, NoneFits, Note, IsFirstFit, Recorded;
    var init, last := kinds[..|kinds| - 1], kinds[|kinds| - 1];
    var s, n := AfterKinds(g, h, plan, init), AfterKinds(g, h, plan, kinds);
    KindsAreTried(g, h, plan, init);
    NoteKeeps(s.plan, Suppression(last, Some(h.id)));
    assert kinds == init + [last];
    if j < |init| {
      KindsRecorded(g, h, plan, init, j);
      FirstFitLonger(g, h, init, last, plan.share, j);
      if Recorded(s.plan, kinds[j], h.id) {
        RecordedStays(s.plan, n.plan, kinds[j], h.id);
      }
    } else if !s.emitted && Try(g, h, last, s.plan.share).Fits? {
      FirstFitFound(g, h, init, last, plan.share);
    } else {
      NotedKind(s.plan, last, h.id);
      RecordedStays(Note(s.plan, Suppression(last, Some(h.id))), n.plan, last, h.id);
    }
  }

  lemma NotedKind(plan: Plan, k: Kind, id: HotspotId)
    ensures Recorded(Note(plan, Suppression(k, Some(id))), k, id)
  {
  }

  lemma FirstFitLonger(g: Ground, h: Hotspot, kinds: seq<Kind>, more: Kind, planShare: U32, j: nat)
    requires j < |kinds|
    ensures IsFirstFit(g, h, kinds, planShare, j) ==> IsFirstFit(g, h, kinds + [more], planShare, j)
  {
    hide Try;
    var longer := kinds + [more];
    assert forall i :: 0 <= i <= j ==> longer[i] == kinds[i];
    if IsFirstFit(g, h, kinds, planShare, j) {
      assert FitsAt(g, h, kinds, planShare, j);
      forall i | 0 <= i < j ensures !FitsAt(g, h, longer, planShare, i) {
        assert !FitsAt(g, h, kinds, planShare, i);
      }
    }
  }

  /** What a hotspot is served with, at the share spent when its turn came. */
  ghost predicate ServedWith(g: Ground, hs: seq<Hotspot>, j: nat, k: Kind)
    requires j < |hs|
  {
    Preferred(g, hs[j], PlanAll(g, hs[..j]).share, k) && Try(g, hs[j], k, PlanAll(g, hs[..j]).share).Fits?
  }

  lemma {:induction false} SuppressedGrow(g: Ground, hs: seq<Hotspot>, j: nat)
    requires j <= |hs|
    ensures PlanAll(g, hs[..j]).suppressed <= PlanAll(g, hs).suppressed
  {
    hide PlanHotspot, Handled;
    if j == |hs| {
      assert hs[..j] == hs;
    } else {
      var init, h := hs[..|hs| - 1], hs[|hs| - 1];
      SuppressedGrow(g, init, j);
      assert init[..j] == hs[..j];
      HotspotHandled(g, PlanAll(g, init), h);
      HandledGrows(g, PlanAll(g, init), h, PlanHotspot(g, PlanAll(g, init), h));
    }
  }

  /** Every kind a served hotspot's cause considers is accounted for: it is the one
      the hotspot was served with, or a record says that it was not taken. */
  lemma EveryKindAccountedFor(g: Ground, hs: seq<Hotspot>, j: nat, k: Kind)
    requires j < |hs| && hs[j].remediation == Eligible && Turn(hs[j].cause, k).Some?
    requires |PlanAll(g, hs[..j]).intents| < g.budget.maxIntents
    ensures ServedWith(g, hs, j, k) || Recorded(PlanAll(g, hs), k, hs[j].id)
  {
    hide Try, Priority, Turn, NoneFits, Recorded, PlanAll, Note, AfterKinds;
    var h, before := hs[j], PlanAll(g, hs[..j]);
    PriorityTurns(h.cause, k);
    var t := Turn(h.cause, k).value;
    KindsRecorded(g, h, before, Priority(h.cause), t);
    if IsFirstFit(g, h, Priority(h.cause), before.share, t) {
      FirstFitServes(g, h, before.share, t);
    } else {
      RecordedOne(g, before, h, k);
      PlanStep(g, hs, j);
      SuppressedGrow(g, hs, j + 1);
      RecordedStays(PlanAll(g, hs[..j + 1]), PlanAll(g, hs), k, h.id);
    }
  }

  lemma PlanStep(g: Ground, hs: seq<Hotspot>, j: nat)
    requires j < |hs|
    ensures PlanAll(g, hs[..j + 1]) == PlanHotspot(g, PlanAll(g, hs[..j]), hs[j])
  {
    hide PlanHotspot;
    assert hs[..j + 1][..j] == hs[..j];
  }

  lemma RecordedOne(g: Ground, before: Plan, h: Hotspot, k: Kind)
    requires h.remediation == Eligible && |before.intents| < g.budget.maxIntents
    requires Recorded(AfterKinds(g, h, before, Priority(h.cause)).plan, k, h.id)
    ensures Recorded(PlanHotspot(g, before, h), k, h.id)
  {
    hide Try, Priority, AfterKinds, Recorded, Note;
    var s := AfterKinds(g, h, before, Priority(h.cause));
    NoteKeeps(s.plan, Suppression(NoKind, Some(h.id)));
    RecordedStays(s.plan, PlanHotspot(g, before, h), k, h.id);
  }

  lemma FirstFitServes(g: Ground, h: Hotspot, planShare: U32, t: nat)
    requires IsFirstFit(g, h, Priority(h.cause), planShare, t)
    ensures Preferred(g, h, planShare, Priority(h.cause)[t])
    ensures Try(g, h, Priority(h.cause)[t], planShare).Fits?
  {
    hide Try, Priority, Turn;
    var kinds := Priority(h.cause);
    FitsWithinPlan(g, h, kinds[t], planShare);
    var i := Try(g, h, kinds[t], planShare).intent;
    assert FirstFitIs(g, h, planShare, i);
    FirstFitPreferred(g, h, planShare, i);
  }

  // ----- how much was rejected ------------------------------------------------------------------------

  /** The kinds refused for the whole plan's share before one fitted. */
  ghost function OverPlanAt(g: Ground, h: Hotspot, kinds: seq<Kind>, planShare: U32): set<nat> {
    set j: nat | j < |kinds| && Try(g, h, kinds[j], planShare).OverPlan?
      && forall i :: 0 <= i < j ==> !FitsAt(g, h, kinds, planShare, i)
  }

  lemma OverPlanSnoc(g: Ground, h: Hotspot, kinds: seq<Kind>, more: Kind, planShare: U32)
    ensures OverPlanAt(g, h, kinds + [more], planShare)
            == OverPlanAt(g, h, kinds, planShare)
               + (if NoneFits(g, h, kinds, planShare) && Try(g, h, more, planShare).OverPlan? then {|kinds|} else {})
  {
    hide Try;
    var longer := kinds + [more];
    assert forall i :: 0 <= i < |kinds| ==> (FitsAt(g, h, longer, planShare, i) <==> FitsAt(g, h, kinds, planShare, i));
  }

  lemma {:induction false} KindsRejected(g: Ground, h: Hotspot, plan: Plan, kinds: seq<Kind>)
    ensures AfterKinds(g, h, plan, kinds).plan.rejected
            == plan.rejected + |OverPlanAt(g, h, kinds, plan.share)|
    ensures AfterKinds(g, h, plan, kinds).emitted <==> !NoneFits(g, h, kinds, plan.share)
  {
    hide Try, Note, OverPlanAt;
    if |kinds| == 0 {
      NoKinds(g, h, plan.share);
    } else {
      var init, last := kinds[..|kinds| - 1], kinds[|kinds| - 1];
      var s := AfterKinds(g, h, plan, init);
      KindsRejected(g, h, plan, init);
      KindsAreTried(g, h, plan, init);
      assert kinds == init + [last];
      OverPlanSnoc(g, h, init, last, plan.share);
      OverPlanBelow(g, h, init, plan.share);
      NoteKeeps(s.plan, Suppression(last, Some(h.id)));
      NoneFitsSnoc(g, h, init, last, plan.share);
      hide NoneFits;
    }
  }

  lemma NoKinds(g: Ground, h: Hotspot, planShare: U32)
    ensures OverPlanAt(g, h, [], planShare) == {} && NoneFits(g, h, [], planShare)
  {
  }

  lemma OverPlanBelow(g: Ground, h: Hotspot, kinds: seq<Kind>, planShare: U32)
    ensures |kinds| !in OverPlanAt(g, h, kinds, planShare)
  {
    hide Try;
  }

  lemma NoneFitsSnoc(g: Ground, h: Hotspot, kinds: seq<Kind>, more: Kind, planShare: U32)
    ensures NoneFits(g, h, kinds + [more], planShare)
            <==> NoneFits(g, h, kinds, planShare) && !Try(g, h, more, planShare).Fits?
  {
    hide Try;
    var longer := kinds + [more];
    assert forall i :: 0 <= i < |kinds| ==> (FitsAt(g, h, longer, planShare, i) <==> FitsAt(g, h, kinds, planShare, i));
    assert FitsAt(g, h, longer, planShare, |kinds|) <==> Try(g, h, more, planShare).Fits?;
  }

  /** What one hotspot adds to the count of rejections: one when no intent is left
      for it or none of its kinds fits, and one for every kind that only the whole
      plan's share refused. */
  ghost function Rejections(g: Ground, h: Hotspot, before: Plan): nat {
    if h.remediation != Eligible then 0
    else if |before.intents| >= g.budget.maxIntents then 1
    else
      |OverPlanAt(g, h, Priority(h.cause), before.share)|
      + (if NoneFits(g, h, Priority(h.cause), before.share) then 1 else 0)
  }

  ghost function AllRejections(g: Ground, hs: seq<Hotspot>): nat {
    if |hs| == 0 then 0
    else AllRejections(g, hs[..|hs| - 1]) + Rejections(g, hs[|hs| - 1], PlanAll(g, hs[..|hs| - 1]))
  }

  lemma HotspotRejects(g: Ground, h: Hotspot, plan: Plan)
    ensures PlanHotspot(g, plan, h).rejected == plan.rejected + Rejections(g, h, plan)
  {
    hide AfterKinds, OverPlanAt, NoneFits, Priority, Note;
    KindsRejected(g, h, plan, Priority(h.cause));
    NoteKeeps(plan, Suppression(AdmissionReduction, Some(h.id)));
    NoteKeeps(AfterKinds(g, h, plan, Priority(h.cause)).plan, Suppression(NoKind, Some(h.id)));
  }

  /** A plan counts exactly those rejections. */
  lemma {:induction false} RejectedExactly(g: Ground, hs: seq<Hotspot>)
    ensures PlanAll(g, hs).rejected == AllRejections(g, hs)
  {
    hide PlanHotspot, Rejections;
    if |hs| == 0 {
    } else {
      RejectedExactly(g, hs[..|hs| - 1]);
      HotspotRejects(g, hs[|hs| - 1], PlanAll(g, hs[..|hs| - 1]));
    }
  }
}
