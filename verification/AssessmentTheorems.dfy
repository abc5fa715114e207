/** What an assessment concludes, in terms of the evidence (src/detection.cpp,
    src/intervention.cpp): usable attribution, cause, eligibility and escalation,
    and the plan that follows. */
module AssessmentTheorems {
  import opened Base
  import opened Model
  import opened Ordering
  import opened Checked
  import opened Totals
  import opened Snapshots
  import opened TopologyIndex
  import opened Classification
  import opened SaturationHistory
  import opened SaturatedComponents
  import opened SaturationSearch
  import opened DemandAttribution
  import opened AttributionTheorems
  import opened Detection
  import opened DetectionTheorems
  import opened ReadingTheorems
  import opened Intervention
  import opened Locality
  import opened EvidenceTheorems

  // ----- attribution ----------------------------------------------------------------------

  /** Demand on the paths through some resources, as attribution weighs it. */
  datatype Join = Join(f: Freshness, ids: seq<U64>, paths: seq<PathRecord>, traffic: seq<TrafficRecord>)

  function AllDemand(j: Join): nat { Weighted(Demanded, j.ids, j.paths, j.traffic) }
  function FreshSum(j: Join): nat { Weighted(FreshIn(j.f), j.ids, j.paths, j.traffic) }
  function FreshRecords(j: Join): nat { Weighted(OneIn(j.f), j.ids, j.paths, j.traffic) }

  /** No more flows than can be told apart. */
  ghost predicate Countable(j: Join) { |FlowsThrough(j.ids, j.paths, j.traffic)| <= MAX_ACCUMULATORS }

  ghost predicate SomeDominates(j: Join, floor: U32) {
    exists flow :: Dominates(j.f, j.ids, j.paths, j.traffic, flow, floor)
  }

  function JoinOf(s: Scene, ids: seq<U64>): Join
    requires s.flows.Some?
  {
    Join(Freshness(s.now, s.th.maxTrafficAge), ids, s.flows.value.paths, s.flows.value.traffic)
  }

  lemma TallyAccounts(s: Scene, ids: seq<U64>)
    requires s.flows.Some? && AllDemand(JoinOf(s, ids)) <= U64_MAX
    ensures var t, j := TallyOf(s, ids), JoinOf(s, ids);
            && (t.incomplete <==> !Countable(j))
            && FreshSum(j) <= AllDemand(j)
            && (!t.incomplete ==>
                  && t.freshBps == FreshSum(j) && t.freshBps + t.staleBps == AllDemand(j)
                  && t.freshCount == FreshRecords(j) % 0x1_0000_0000)
  {
    hide AddAll, Incidences, Weighted, FlowsThrough, Total;
    var j := JoinOf(s, ids);
    IncompleteExactly(j.f, ids, j.paths, j.traffic);
    IncidencesWeighted(Demanded, ids, j.paths, j.traffic);
    IncidencesWeighted(FreshIn(j.f), ids, j.paths, j.traffic);
    DemandSplits(j.f, Incidences(ids, j.paths, j.traffic));
    if !TallyOf(s, ids).incomplete {
      DemandAccounted(j.f, ids, j.paths, j.traffic);
    }
  }

  /** Absent 64-bit saturation, what a hotspot does not attribute is what is not
      fresh; its attribution is usable exactly when traffic is bound, no flow was
      left out, and fresh demand reaches the floor of all demand met. */
  lemma UsableExactly(s: Scene, m: seq<Reading>, floor: U32)
    requires s.flows.Some? ==> AllDemand(JoinOf(s, IdsOf(m))) <= U64_MAX
    ensures var b := HotspotOf(s, m).blame;
            && (s.flows.None? ==> !b.usable && b.attributed == b.unattributed == b.confidence == 0)
            && (s.flows.Some? ==>
                  var j := JoinOf(s, IdsOf(m));
                  && (Countable(j) ==> b.attributed == FreshSum(j) && b.attributed + b.unattributed == AllDemand(j)
                                       && b.freshCount == FreshRecords(j) % 0x1_0000_0000)
                  && (b.usable <==> Countable(j) && Reaches(FreshSum(j), AllDemand(j), s.th.minAttributionPpm))
                  && (b.confidence >= floor <==>
                      floor == 0 || (Countable(j) && Reaches(FreshSum(j), AllDemand(j), floor))))
  {
    BlameIs(s, m);
    hide HotspotOf, Contributors, AddAll, AllDemand, FreshSum, FreshRecords, Countable, Reaches, Ppm, Incidences;
    var t := TallyOf(s, IdsOf(m));
    if s.flows.Some? {
      TallyAccounts(s, IdsOf(m));
      PpmReaches(t.freshBps, SatAdd(t.freshBps, t.staleBps), s.th.minAttributionPpm);
      PpmReaches(t.freshBps, SatAdd(t.freshBps, t.staleBps), floor);
    } else {
      NoRatio();
    }
  }

  lemma NoRatio()
    ensures Ppm(0, 0) == 0
  {
  }

  /** Demand fits in 64 bits, and if some contributor is not listed it also scales. */
  predicate Measurable(j: Join, b: Blame) {
    AllDemand(j) <= U64_MAX && (b.contributorsTruncated ==> FreshSum(j) * PPM_SCALE <= U64_MAX)
  }

  /** One flow dominates, told from the first contributor. */
  lemma DominatedExactly(s: Scene, m: seq<Reading>, floor: U32)
    requires s.flows.Some? && Measurable(JoinOf(s, IdsOf(m)), HotspotOf(s, m).blame)
    requires Countable(JoinOf(s, IdsOf(m)))
    ensures var b := HotspotOf(s, m).blame;
            |b.contributors| > 0 && b.contributors[0].share >= floor <==> SomeDominates(JoinOf(s, IdsOf(m)), floor)
  {
    BlameIs(s, m);
    hide HotspotOf, Contributors, AddAll, Incidences, Weighted, Countable, Dominates;
    var j := JoinOf(s, IdsOf(m));
    TallyAccounts(s, IdsOf(m));
    DominanceExactly(j.f, j.ids, j.paths, j.traffic, floor);
  }

  // ----- cause ------------------------------------------------------------------------------

  /** Ids of the members of a component. */
  ghost function MembersOf(i: Input, h: Option<History>, k: nat): seq<U64>
    requires AtComponent(i, h, k)
  {
    IdsOf(Pick(SceneOf(i, h).readings, ComponentsOf(SceneOf(i, h))[k]))
  }

  ghost function JudgementOf(i: Input, h: Option<History>, k: nat): Hotspot
    requires AtComponent(i, h, k)
  {
    HotspotOf(SceneOf(i, h), Pick(SceneOf(i, h).readings, ComponentsOf(SceneOf(i, h))[k]))
  }

  /** Evidence that was admitted, and one of its components. */
  ghost predicate AtComponent(i: Input, h: Option<History>, k: nat) {
    && ValidInput(i) && Complete(i.evidence)
    && var s := SceneOf(i, h);
       && |s.readings| == |s.topology.resources| && Within(ComponentsOf(s), |s.readings|)
       && k < |ComponentsOf(s)|
  }

  /** The join of bound traffic with a component. */
  function EvidenceJoin(i: Input, th: Thresholds, ids: seq<U64>): Join
    requires TrafficBound(i.evidence, th, i.now)
  {
    Join(Freshness(i.now, th.maxTrafficAge), ids, i.evidence.paths.value.paths, i.evidence.traffic.value.records)
  }

  ghost predicate Usable(i: Input, th: Thresholds, ids: seq<U64>) {
    && TrafficBound(i.evidence, th, i.now)
    && var j := EvidenceJoin(i, th, ids);
       Countable(j) && Reaches(FreshSum(j), AllDemand(j), th.minAttributionPpm)
  }

  ghost predicate Dominated(i: Input, th: Thresholds, ids: seq<U64>) {
    Usable(i, th, ids) && SomeDominates(EvidenceJoin(i, th, ids), th.dominantPpm)
  }

  ghost predicate Converging(i: Input, th: Thresholds, ids: seq<U64>)
    requires Complete(i.evidence)
  {
    && Usable(i, th, ids) && FreshRecords(EvidenceJoin(i, th, ids)) % 0x1_0000_0000 >= 8
    && SomeReaches(RecordsIn(i, th), ids, Utilization, 1_000_000)
  }

  /** Every cause, by what capacity, telemetry, paths and traffic say of the
      members: one flow dominates the fresh demand, eight fresh records or more
      converge on an exhausted member, or the first kind of pressure reached. */
  ghost predicate CauseShown(i: Input, th: Thresholds, ids: seq<U64>, cause: Cause)
    requires Complete(i.evidence)
  {
    var d := RecordsIn(i, th);
    var dominated, converging := Dominated(i, th, ids), Converging(i, th, ids);
    var exhausted := SomeReaches(d, ids, Utilization, 1_000_000);
    var queued, buffered := SomeReaches(d, ids, Queue, th.queuePpm), SomeReaches(d, ids, Buffer, th.bufferPpm);
    && (cause == FanInContention <==> dominated)
    && (cause == StructuralConvergence <==> !dominated && converging)
    && (cause == CapacityExhaustion <==> !dominated && !converging && exhausted)
    && (cause == QueueBuildup <==> !dominated && !exhausted && queued)
    && (cause == BufferExhaustion <==> !dominated && !exhausted && !queued && buffered)
    && cause != Microburst
  }

  lemma SceneFlows(i: Input, h: Option<History>, th: Thresholds, ids: seq<U64>)
    requires Complete(i.evidence) && Governs(i.evidence, th)
    ensures SceneOf(i, h).flows.Some? <==> TrafficBound(i.evidence, th, i.now)
    ensures SceneOf(i, h).flows.Some? ==> JoinOf(SceneOf(i, h), ids) == EvidenceJoin(i, th, ids)
    ensures SceneOf(i, h).th == th && SceneOf(i, h).now == i.now
  {
    hide CensusOf, ReadingsOf, TrafficOk;
    BoundExactly(i.evidence, th, i.now);
    BoundTraffic(i.evidence, i.now);
  }

  lemma BoundTraffic(e: Evidence, now: Millis)
    ensures TrafficOk(e, now) ==> e.paths.Some? && e.traffic.Some?
  {
  }

  lemma BlameOverEvidence(i: Input, h: Option<History>, th: Thresholds, k: nat)
    requires AtComponent(i, h, k) && Governs(i.evidence, th)
    requires TrafficBound(i.evidence, th, i.now) ==>
               Measurable(EvidenceJoin(i, th, MembersOf(i, h, k)), JudgementOf(i, h, k).blame)
    ensures var b, ids := JudgementOf(i, h, k).blame, MembersOf(i, h, k);
            && (b.usable <==> Usable(i, th, ids))
            && (b.usable && |b.contributors| > 0 && b.contributors[0].share >= th.dominantPpm
                <==> Dominated(i, th, ids))
            && (b.usable && b.freshCount >= 8 <==>
                Usable(i, th, ids) && FreshRecords(EvidenceJoin(i, th, ids)) % 0x1_0000_0000 >= 8)
  {
    var s, ids := SceneOf(i, h), MembersOf(i, h, k);
    var m := Pick(s.readings, ComponentsOf(s)[k]);
    hide AtComponent, SceneOf, ComponentsOf, HotspotOf, AllDemand, FreshSum, FreshRecords, Countable, SomeDominates;
    hide Reaches, TrafficBound, IdsOf;
    SceneFlows(i, h, th, ids);
    UsableExactly(s, m, 0);
    if s.flows.Some? && Countable(JoinOf(s, ids)) {
      DominatedExactly(s, m, th.dominantPpm);
    }
  }

  /** The cause a component is given is the one its evidence shows. */
  lemma CauseOverEvidence(i: Input, h: Option<History>, th: Thresholds, k: nat)
    requires AtComponent(i, h, k) && Governs(i.evidence, th)
    requires TrafficBound(i.evidence, th, i.now) ==>
               Measurable(EvidenceJoin(i, th, MembersOf(i, h, k)), JudgementOf(i, h, k).blame)
    ensures CauseShown(i, th, MembersOf(i, h, k), JudgementOf(i, h, k).cause)
  {
    hide Usable, Dominated, Converging, SomeReaches, TrafficBound, CauseShown, ReadingsOf, ComponentsOf, ValidInput;
    hide HotspotOf, Measurable, IdsOf;
    BlameOverEvidence(i, h, th, k);
    ComponentNotEmpty(i, h, th, k);
    GaugesOverEvidence(i, h, th, k);
    SceneFlows(i, h, th, MembersOf(i, h, k));
    var s := SceneOf(i, h);
    hide SceneOf;
    CauseByFacts(s, Pick(s.readings, ComponentsOf(s)[k]), i, th, MembersOf(i, h, k));
  }

  lemma ComponentNotEmpty(i: Input, h: Option<History>, th: Thresholds, k: nat)
    requires AtComponent(i, h, k) && Governs(i.evidence, th)
    ensures |Pick(SceneOf(i, h).readings, ComponentsOf(SceneOf(i, h))[k])| > 0
  {
    ComponentTaken(i, h, th, k);
  }

  lemma GaugesOverEvidence(i: Input, h: Option<History>, th: Thresholds, k: nat)
    requires AtComponent(i, h, k) && Governs(i.evidence, th)
    ensures var x, d, ids := JudgementOf(i, h, k).extent, RecordsIn(i, th), MembersOf(i, h, k);
            && (x.peakUtilization >= 1_000_000 <==> SomeReaches(d, ids, Utilization, 1_000_000))
            && (x.peakQueue >= th.queuePpm <==> SomeReaches(d, ids, Queue, th.queuePpm))
            && (x.peakBuffer >= th.bufferPpm <==> SomeReaches(d, ids, Buffer, th.bufferPpm))
  {
    PeaksOverEvidence(i, h, th, k, 1_000_000);
    PeaksOverEvidence(i, h, th, k, th.queuePpm);
    PeaksOverEvidence(i, h, th, k, th.bufferPpm);
    hide SceneOf, ComponentsOf, HotspotOf, SomeReaches, IdsOf;
  }

  lemma CauseByFacts(s: Scene, m: seq<Reading>, i: Input, th: Thresholds, ids: seq<U64>)
    requires |m| > 0 && Complete(i.evidence) && s.th == th
    requires var b := HotspotOf(s, m).blame;
             && (b.usable && |b.contributors| > 0 && b.contributors[0].share >= th.dominantPpm
                 <==> Dominated(i, th, ids))
             && (b.usable && b.freshCount >= 8 <==>
                 Usable(i, th, ids) && FreshRecords(EvidenceJoin(i, th, ids)) % 0x1_0000_0000 >= 8)
    requires var x, d := HotspotOf(s, m).extent, RecordsIn(i, th);
             && (x.peakUtilization >= 1_000_000 <==> SomeReaches(d, ids, Utilization, 1_000_000))
             && (x.peakQueue >= th.queuePpm <==> SomeReaches(d, ids, Queue, th.queuePpm))
             && (x.peakBuffer >= th.bufferPpm <==> SomeReaches(d, ids, Buffer, th.bufferPpm))
    ensures CauseShown(i, th, ids, HotspotOf(s, m).cause)
  {
    hide HotspotOf, Usable, Dominated, SomeReaches, Peak, Reached, FreshRecords;
    CauseMeaning(s, m);
    PeaksReported(s, m);
    PeakReaches(m, UtilizationAt, 1_000_000);
    PeakReaches(m, QueueAt, th.queuePpm);
    PeakReaches(m, BufferAt, th.bufferPpm);
  }

  // ----- eligibility ---------------------------------------------------------------------------

  /** A neighbour counts as healthy exactly when its records are believed and do
      not show saturation. */
  lemma HealthyOverEvidence(i: Input, h: Option<History>, th: Thresholds, id: U64)
    requires ValidInput(i) && Complete(i.evidence) && Governs(i.evidence, th) && id != 0
    ensures HealthyId(SceneOf(i, h), id) <==>
            && Named(ResourcesIn(i), id)
            && ShowsBelief(RecordsIn(i, th), id) && !ShowsSaturation(RecordsIn(i, th), id)
  {
    var s, at := SceneOf(i, h), Find(ResourcesIn(i), ResourceKey, id);
    PlacedAt(i.evidence.topology.value.content, id);
    SizesAgree(i);
    if at.Some? {
      EvidenceReading(i, h, th, at.value);
      ReadingExactly(RecordsIn(i, th), ResourcesIn(i)[at.value]);
      hide ReadingsOf, ShowsBelief, ShowsSaturation, ValidInput, ReadingIn, ValidRecords, CensusOf;
    }
  }

  lemma PlacedAt(c: TopologyContent, id: U64)
    requires ValidTopology(c)
    ensures Find(c.resources, ResourceKey, id).Some? <==> Named(c.resources, id)
    ensures Find(c.resources, ResourceKey, id).Some? ==>
              c.resources[Find(c.resources, ResourceKey, id).value].id == id
  {
    hide ValidRegions, ValidLinks;
    if Named(c.resources, id) {
      var x :| 0 <= x < |c.resources| && c.resources[x].id == id;
      assert ResourceKey(c.resources[x]) == id;
    }
  }

  /** A component of an evaluation is eligible for local mitigation exactly when a
      policy is in force, a tracker was given, every member is ripe, saturation has
      not broken locality, and the component either spans several regions within
      the per-intent share or is confined with a healthy neighbour. */
  lemma EligibleOverEvidence(i: Input, h: Option<History>, k: nat)
    requires AtComponent(i, h, k) && Dated(h) && i.now != NO_TIME
    ensures JudgementOf(i, h, k).remediation == Eligible <==>
              && i.evidence.policy.Some? && InForce(i.evidence.policy.value, i.now) && h.Some?
              && var p, s := i.evidence.policy.value, SceneOf(i, h);
                 var m := Pick(s.readings, ComponentsOf(s)[k]);
                 var share, regions := JudgementOf(i, h, k).extent.share, |RegionsOf(m)|;
                 && AllRipe(h, i.now, p.thresholds, m)
                 && share < p.thresholds.globalSharePpm && regions <= p.thresholds.maxRegionalRegions
                 && !AllSaturated(s.readings)
                 && (if regions > p.thresholds.maxLocalRegions then share <= p.budget.maxScopeShare
                     else Comparable(s, m))
  {
    var s := SceneOf(i, h);
    var m := Pick(s.readings, ComponentsOf(s)[k]);
    SceneIsValid(i, h);
    SceneHeld(i, h);
    if i.evidence.policy.Some? {
      ExpiredExactly(i.evidence.policy.value, i.now);
    }
    EligibleExactly(s, k);
    RemediationIs(s, m);
    hide AtComponent, SceneOf, ComponentsOf, HotspotOf, AllRipe, AllSaturated, Comparable, RegionsOf, ValidScene;
  }

  lemma SceneHeld(i: Input, h: Option<History>)
    requires Complete(i.evidence)
    ensures var s := SceneOf(i, h);
            && s.now == i.now && s.history == h && (s.policyLive <==> PolicyLive(i.evidence, i.now))
            && (i.evidence.policy.Some? ==>
                  s.th == i.evidence.policy.value.thresholds && s.budget == i.evidence.policy.value.budget)
  {
    hide CensusOf, ReadingsOf, TrafficOk, PolicyLive;
  }

  // ----- escalation ----------------------------------------------------------------------------

  /** The budget in force: the policy's, or the built-in one without one. */
  predicate Funds(e: Evidence, b: Budget) {
    (e.policy.Some? ==> b == e.policy.value.budget) && (e.policy.None? ==> b == DEFAULT_BUDGET)
  }

  /** Locality is broken: a confirmed hotspot is global, something is confirmed
      while the saturated share of the fabric reaches the global threshold, or more
      hotspots are confirmed than a plan may serve and together they hold as much
      as a plan may touch. */
  ghost predicate LocalityBroken(a: Assessment, th: Thresholds, b: Budget) {
    || (exists k :: 0 <= k < |a.hotspots| && a.hotspots[k].scope == Global)
    || (a.hotspots != [] && Reaches(a.census.saturated, a.census.fabric, th.globalSharePpm))
    || (|a.hotspots| > b.maxIntents && Total(a.hotspots, ShareBps) >= b.maxPlanShare)
  }

  /** An evaluation escalates exactly when it was not refused and locality is
      broken, and it proves localization exactly when it was not refused and a
      confirmed hotspot is localized. */
  lemma EscalationExactly(i: Input, h: Option<History>, th: Thresholds, b: Budget)
    requires ValidInput(i) && Governs(i.evidence, th) && Funds(i.evidence, b)
    ensures var a := Detect(i, h);
            && (a.escalation <==> !a.refused && LocalityBroken(a, th, b))
            && (a.localizationProven <==>
                !a.refused && exists k :: 0 <= k < |a.hotspots| && a.hotspots[k].scope == Localized)
  {
    hide LocalityBroken, Detect, Refusal;
    if Refusal(i).Some? {
      RefusedQuietly(i, h);
    } else {
      AdmittedComplete(i);
      AdmittedConcludes(i, h);
      SceneHeld(i, h);
      GoverningThresholds(i.evidence, th);
      SceneBudget(i, h, b);
      var s := SceneOf(i, h);
      hide SceneOf, Conclude;
      var r := ReportOf(i, h);
      ConcludesBroken(s, r);
    }
  }

  lemma SceneBudget(i: Input, h: Option<History>, b: Budget)
    requires Complete(i.evidence) && Funds(i.evidence, b)
    ensures SceneOf(i, h).budget == b && SceneOf(i, h).th == ThresholdsOf(i.evidence)
  {
    hide CensusOf, ReadingsOf, TrafficOk, PolicyLive, ThresholdsOf;
  }

  lemma RefusedQuietly(i: Input, h: Option<History>)
    requires ValidInput(i) && Refusal(i).Some?
    ensures var a := Detect(i, h); a.refused && !a.escalation && !a.localizationProven && a.hotspots == []
  {
    hide Refusal, CensusOf, ReadingsOf, CensusTaken;
  }

  ghost function ReportOf(i: Input, h: Option<History>): Report
    requires ValidInput(i) && Complete(i.evidence)
  {
    SceneIsValid(i, h);
    ComponentsWithin(SceneOf(i, h));
    FileAll(Hotspots(SceneOf(i, h), ComponentsOf(SceneOf(i, h))))
  }

  lemma AdmittedConcludes(i: Input, h: Option<History>)
    requires ValidInput(i) && Complete(i.evidence) && Refusal(i).None?
    ensures Detect(i, h) == Conclude(SceneOf(i, h), ReportOf(i, h))
  {
    hide Refusal, CensusOf, ReadingsOf, Conclude, FileAll, Hotspots, ComponentsOf;
  }

  lemma ConcludesBroken(s: Scene, r: Report)
    ensures var a := Conclude(s, r);
            && !a.refused && a.hotspots == r.hotspots
            && (a.escalation <==> LocalityBroken(a, s.th, s.budget))
            && (a.localizationProven <==> exists k :: 0 <= k < |a.hotspots| && a.hotspots[k].scope == Localized)
  {
    hide Widest, Ppm, Total, Accumulated, Reaches;
    QuietVerdict(r.hotspots);
    PpmReaches(s.census.saturated, s.census.fabric, s.th.globalSharePpm);
    AccumulatedIsClampedTotal(r.hotspots, ShareBps);
  }

  // ----- the plan ---------------------------------------------------------------------------------

  /** What an evaluation plans. Without a topology or without a policy in force,
      nothing. When it escalates, the one escalation intent if the budget allows
      it, every eligible hotspot being recorded as withheld. Otherwise exactly the
      hotspot-by-hotspot plan. */
  lemma DecisionExactly(i: Input, h: Option<History>, th: Thresholds, b: Budget)
    requires ValidInput(i) && Governs(i.evidence, th) && Funds(i.evidence, b)
    ensures var a, plan, e := Detect(i, h), Decide(i, h), i.evidence;
            var live := e.topology.Some? && e.policy.Some? && InForce(e.policy.value, i.now);
            var broken := !a.refused && LocalityBroken(a, th, b);
            && (!live ==> plan == EMPTY_PLAN)
            && (live && broken ==>
                  && plan.share == 0 && Escalated(plan, a, b)
                  && forall k :: 0 <= k < |a.hotspots| && a.hotspots[k].remediation == Eligible ==>
                       Mentioned(plan, a.hotspots[k].id) || |plan.suppressed| >= MAX_SUPPRESSED)
            && (live && !broken ==>
                  plan == PlanAll(GroundOf(a, e.topology.value.content, EntriesOf(e), e.policy.value), a.hotspots))
  {
    hide Detect, LocalityBroken, Expired, InForce, PlanAll, PlanFor, Escalated, Mentioned;
    EscalationExactly(i, h, th, b);
    BoundTopology(i, h);
    var e := i.evidence;
    if e.policy.Some? {
      ExpiredExactly(e.policy.value, i.now);
      if e.topology.Some? && InForce(e.policy.value, i.now) {
        PlanShape(Detect(i, h), e.topology.value.content, EntriesOf(e), e.policy.value, i.now);
      }
    }
    NoPlan(Detect(i, h), ContentOf(e), EntriesOf(e), e.policy, i.now);
  }

  lemma NoPlan(a: Assessment, t: Option<TopologyContent>, c: Option<seq<CapacityEntry>>, p: Option<Policy>, now: Millis)
    ensures t.None? || p.None? || Expired(p.value, now) ==> PlanFor(a, t, c, p, now) == EMPTY_PLAN
  {
    hide Expired, PlanAll, EscalationPlan;
  }

  lemma PlanShape(a: Assessment, t: TopologyContent, c: Option<seq<CapacityEntry>>, p: Policy, now: Millis)
    requires a.binding.topology == Some(t) && !Expired(p, now)
    ensures var plan := PlanFor(a, Some(t), c, Some(p), now);
            && (a.escalation ==>
                  && plan.share == 0 && Escalated(plan, a, p.budget)
                  && forall k :: 0 <= k < |a.hotspots| && a.hotspots[k].remediation == Eligible ==>
                       Mentioned(plan, a.hotspots[k].id) || |plan.suppressed| >= MAX_SUPPRESSED)
            && (!a.escalation ==> plan == PlanAll(GroundOf(a, t, c, p), a.hotspots))
  {
    hide Expired, PlanAll, EscalationPlan, Escalated, Mentioned;
    if a.escalation {
      EscalationShape(a, p.budget);
    }
  }

  lemma EscalationShape(a: Assessment, b: Budget)
    ensures var plan := EscalationPlan(b, a);
            && plan.share == 0 && Escalated(plan, a, b)
            && forall k :: 0 <= k < |a.hotspots| && a.hotspots[k].remediation == Eligible ==>
                 Mentioned(plan, a.hotspots[k].id) || |plan.suppressed| >= MAX_SUPPRESSED
  {
    hide NoteWithheld, Mentioned;
    WithheldHasNoIntents(a.hotspots);
    WithheldShare(a.hotspots);
    forall k | 0 <= k < |a.hotspots| && a.hotspots[k].remediation == Eligible
      ensures Mentioned(EscalationPlan(b, a), a.hotspots[k].id)
              || |EscalationPlan(b, a).suppressed| >= MAX_SUPPRESSED
    {
      WithheldMentioned(a.hotspots, k);
      MentionStays(NoteWithheld(a.hotspots), EscalationPlan(b, a), a.hotspots[k].id);
    }
  }

  /** Exactly the escalation intent, touching no resource, if it is allowed. */
  predicate Escalated(plan: Plan, a: Assessment, b: Budget) {
    if b.allowEscalation then
      && |plan.intents| == 1 && plan.intents[0].kind == EscalateGlobalCongestion && plan.intents[0].resources == []
      && plan.intents[0].scope == a.scope && (a.hotspots != [] ==> plan.intents[0].hotspot == Some(a.hotspots[0].id))
    else plan.intents == []
  }

  lemma BoundTopology(i: Input, h: Option<History>)
    requires ValidInput(i)
    ensures Detect(i, h).binding.topology == ContentOf(i.evidence)
  {
    hide ComponentsOf, FileAll, Hotspots, CensusOf, Refusal, ReadingsOf, Widest, Escalates;
  }

  lemma {:induction false} WithheldShare(hs: seq<Hotspot>)
    ensures NoteWithheld(hs).share == 0
  {
    if |hs| == 0 {
    } else {
      WithheldShare(hs[..|hs| - 1]);
    }
  }

  lemma MentionStays(before: Plan, after: Plan, id: HotspotId)
    requires Mentioned(before, id) || |before.suppressed| >= MAX_SUPPRESSED
    requires before.suppressed <= after.suppressed
    ensures Mentioned(after, id) || |after.suppressed| >= MAX_SUPPRESSED
  {
    if Mentioned(before, id) {
      var k :| 0 <= k < |before.suppressed| && before.suppressed[k].hotspot == Some(id);
      assert after.suppressed[k].hotspot == Some(id);
    }
  }

  lemma {:induction false} WithheldMentioned(hs: seq<Hotspot>, k: nat)
    requires k < |hs| && hs[k].remediation == Eligible
    ensures Mentioned(NoteWithheld(hs), hs[k].id) || |NoteWithheld(hs).suppressed| >= MAX_SUPPRESSED
  {
    hide Note, Mentioned;
    var init, last := hs[..|hs| - 1], hs[|hs| - 1];
    NoteKeeps(NoteWithheld(init), Suppression(AdmissionReduction, Some(last.id)));
    Noted(NoteWithheld(init), AdmissionReduction, last.id);
    if k < |init| {
      WithheldMentioned(init, k);
      MentionStays(NoteWithheld(init), NoteWithheld(hs), hs[k].id);
    }
  }

  // ----- identity ---------------------------------------------------------------------------------

  /** A generation, zero for what is absent. */
  function GenerationIn<T>(x: Option<T>, generation: T -> U64): U64 { if x.Some? then generation(x.value) else 0 }

  /** Topology, capacity, telemetry, paths, traffic, policy. */
  function GenerationsIn(e: Evidence): seq<U64> {
    [GenerationIn(e.topology, (x: Topology) => x.generation), GenerationIn(e.capacity, (x: Capacity) => x.generation),
     GenerationIn(e.signals, (x: Signals) => x.generation), GenerationIn(e.paths, (x: Paths) => x.generation),
     GenerationIn(e.traffic, (x: Traffic) => x.generation), GenerationIn(e.policy, (x: Policy) => x.generation)]
  }

  predicate SameGenerations(a: Evidence, b: Evidence) { GenerationsIn(a) == GenerationsIn(b) }

  /** As many members, the same first 32, and the same last one of those listed. */
  predicate SameOutline(a: seq<U64>, b: seq<U64>) {
    && |a| == |b| && (forall k :: 0 <= k < |a| && k < 32 ==> a[k] == b[k])
    && (|a| > 0 ==> a[Min(|a|, MAX_HOTSPOT_RESOURCES) - 1] == b[Min(|b|, MAX_HOTSPOT_RESOURCES) - 1])
  }

  lemma IdentityIs(s: Scene, m: seq<Reading>)
    ensures var h, listed := HotspotOf(s, m), Take(IdsOf(m), MAX_HOTSPOT_RESOURCES);
            h.id == HotspotId(s.binding.generations, h.scope, h.cause, |m|, Take(listed, 32),
                              if |listed| == 0 then 0 else listed[|listed| - 1])
  {
    hide BlameFrom, TallyOf, HealthyAround, RegionsOf, LatestFirst, FewestSamples, Peak, UniqueIds, ScopeOf;
    hide CauseOf, Accumulated, IsPersistent;
  }

  lemma OutlineExactly(a: seq<U64>, b: seq<U64>)
    ensures var p, q := Take(a, MAX_HOTSPOT_RESOURCES), Take(b, MAX_HOTSPOT_RESOURCES);
            && (|a| == |b| && Take(p, 32) == Take(q, 32)
                && (if |p| == 0 then 0 else p[|p| - 1]) == (if |q| == 0 then 0 else q[|q| - 1])
                <==> SameOutline(a, b))
  {
    var p, q := Take(a, MAX_HOTSPOT_RESOURCES), Take(b, MAX_HOTSPOT_RESOURCES);
    if |a| == |b| && Take(p, 32) == Take(q, 32) {
      assert forall k :: 0 <= k < |a| && k < 32 ==> Take(p, 32)[k] == a[k] && Take(q, 32)[k] == b[k];
    }
  }

  lemma SceneBinding(i: Input, h: Option<History>, j: Input, g: Option<History>)
    requires Complete(i.evidence) && Complete(j.evidence)
    ensures SceneOf(i, h).binding.generations == SceneOf(j, g).binding.generations
            <==> SameGenerations(i.evidence, j.evidence)
  {
    hide CensusOf, ReadingsOf, TrafficOk, PolicyLive;
  }

  /** Components of any two evaluations have the same identity exactly when the
      evidence is of the same generations, scope and cause agree, and the members
      have the same outline; up to 33 members that means the same members. */
  lemma IdentityExactly(i: Input, h: Option<History>, a: nat, j: Input, g: Option<History>, b: nat)
    requires AtComponent(i, h, a) && AtComponent(j, g, b)
    ensures var x, y, m, n := JudgementOf(i, h, a), JudgementOf(j, g, b), MembersOf(i, h, a), MembersOf(j, g, b);
            && (x.id == y.id <==>
                  && SameGenerations(i.evidence, j.evidence) && x.scope == y.scope && x.cause == y.cause
                  && SameOutline(m, n))
            && (x.id == y.id && |m| <= 33 ==> m == n)
  {
    hide ReadingsOf, ValidInput, HotspotOf, ComponentsOf, CensusOf, SameGenerations, Take;
    var s, t := SceneOf(i, h), SceneOf(j, g);
    IdentityIs(s, Pick(s.readings, ComponentsOf(s)[a]));
    IdentityIs(t, Pick(t.readings, ComponentsOf(t)[b]));
    SceneBinding(i, h, j, g);
    OutlineExactly(MembersOf(i, h, a), MembersOf(j, g, b));
    hide SceneOf;
  }

  // ----- what every assessment reports -----------------------------------------------------------

  /** A refused assessment reports no hotspot and no verdict, none for a topology
      without resources, and the capacity figures exactly when it got as far as
      reading the resources. */
  lemma RefusalReport(i: Input, h: Option<History>, th: Thresholds)
    requires ValidInput(i) && Governs(i.evidence, th) && Detect(i, h).refused
    ensures var a, e := Detect(i, h), i.evidence;
            var bound := Bound(e, th, i.now);
            && a.hotspots == [] && a.candidates == [] && !a.escalation && !a.localizationProven
            && a.scope == (if bound && e.topology.value.content.resources == [] then Quiet else Unknown)
            && a.census == (if bound && e.topology.value.content.resources != []
                               && (i.preverified || AllNamed(e, th, i.now))
                            then CensusOf(ReadingsOf(e, i.now)) else Census(0, 0, 0, 0, 0, 0, 0, []))
  {
    var e := i.evidence;
    BoundExactly(e, th, i.now);
    if Bound(e, th, i.now) {
      NamedExactly(e, th, i.now);
    }
    RefusedAs(i, h);
    hide Detect, Refusal, CensusOf, ReadingsOf, ReferencesResolve, AllNamed, SignalsOk, TopologyFresh, ValidInput;
  }

  lemma RefusedAs(i: Input, h: Option<History>)
    requires ValidInput(i) && Detect(i, h).refused
    ensures var a, e := Detect(i, h), i.evidence;
            var bound := e.topology.Some? && TopologyFresh(e.topology.value, i.now) && SignalsOk(e, i.now);
            && a.hotspots == [] && a.candidates == [] && !a.escalation && !a.localizationProven
            && a.scope == (if bound && e.topology.value.content.resources == [] then Quiet else Unknown)
            && a.census == (if bound && e.topology.value.content.resources != []
                               && (i.preverified || ReferencesResolve(e, i.now))
                            then CensusOf(ReadingsOf(e, i.now)) else Census(0, 0, 0, 0, 0, 0, 0, []))
  {
    hide CensusOf, ReadingsOf, ReferencesResolve, Conclude, FileAll, Hotspots, ComponentsOf, TopologyFresh, CoverageOk;
    assert Refusal(i).Some? by {
      if Refusal(i).None? {
        AdmittedComplete(i);
        AdmittedConcludes(i, h);
        ConcludesBroken(SceneOf(i, h), ReportOf(i, h));
      }
    }
  }

  /** Every assessment is bound to the topology and the generations it was made
      from, and its share of saturated capacity is that of its figures. */
  lemma AssessmentBound(i: Input, h: Option<History>, floor: U32)
    requires ValidInput(i)
    ensures var a, e := Detect(i, h), i.evidence;
            var g := a.binding.generations;
            && a.binding.topology == ContentOf(e)
            && GenerationsIn(e) == [g.topology, g.capacity, g.signals, g.paths, g.traffic, g.policy]
            && (a.globalShare >= floor <==> Reaches(a.census.saturated, a.census.fabric, floor))
  {
    hide ComponentsOf, FileAll, Hotspots, CensusOf, Refusal, ReadingsOf, Widest, Escalates, CensusTaken, Ppm, Reaches;
    var a := Detect(i, h);
    PpmReaches(a.census.saturated, a.census.fabric, floor);
  }

  /** Nothing is planned on a topology other than the one the assessment is bound
      to, nor without a topology or a policy in force at that time. */
  lemma PlanNeedsBinding(a: Assessment, t: Option<TopologyContent>, c: Option<seq<CapacityEntry>>, p: Option<Policy>,
                         now: Millis)
    requires PlanFor(a, t, c, p, now) != EMPTY_PLAN
    ensures t.Some? && (a.binding.topology.Some? ==> a.binding.topology == t)
    ensures p.Some? && InForce(p.value, now)
  {
    hide Expired, InForce, PlanAll, EscalationPlan;
    if p.Some? {
      ExpiredExactly(p.value, now);
    }
  }
}
