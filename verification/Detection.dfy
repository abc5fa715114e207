/** Localized saturation detection (src/detection.cpp): what one evaluation
    concludes from one consistent set of evidence. */
module Detection {
  import opened Base
  import opened Model
  import opened Ordering
  import opened Checked
  import opened Totals
  import opened Snapshots
  import opened TopologyIndex
  import opened PathIndex
  import opened References
  import opened Classification
  import opened SaturationHistory
  import opened SaturatedComponents
  import opened SaturationSearch
  import opened DemandAttribution

  // ----- vocabulary -----------------------------------------------------------------

  datatype Scope = Unknown | Quiet | Localized | Regional | Global

  datatype Cause =
    | UnknownCause | CapacityExhaustion | QueueBuildup | BufferExhaustion | Microburst | FanInContention
    | StructuralConvergence

  datatype Remediation = Eligible | Suppressed | NotApplicable

  /** The snapshots an evaluation may see, each absent or built. */
  datatype Evidence = Evidence(
    topology: Option<Topology>, capacity: Option<Capacity>, signals: Option<Signals>,
    paths: Option<Paths>, traffic: Option<Traffic>, policy: Option<Policy>)

  datatype Input = Input(evidence: Evidence, now: Millis, preverified: bool)

  ghost predicate ValidEvidence(e: Evidence) {
    && (e.topology.Some? ==> ValidTopology(e.topology.value.content))
    && (e.capacity.Some? ==> ValidCapacity(e.capacity.value.entries))
    && (e.signals.Some? ==> ValidSignals(e.signals.value.records))
    && (e.paths.Some? ==> ValidPaths(e.paths.value.paths))
    && (e.traffic.Some? ==> ValidTraffic(e.traffic.value.records))
  }

  datatype Generations = Generations(
    topology: U64, capacity: U64, signals: U64, paths: U64, traffic: U64, policy: U64)

  /** Content of the topology an assessment is bound to, and all generations. */
  datatype Binding = Binding(topology: Option<TopologyContent>, generations: Generations)

  function BindingOf(e: Evidence): Binding {
    Binding(
      if e.topology.Some? then Some(e.topology.value.content) else None,
      Generations(
        if e.topology.Some? then e.topology.value.generation else 0,
        if e.capacity.Some? then e.capacity.value.generation else 0,
        if e.signals.Some? then e.signals.value.generation else 0,
        if e.paths.Some? then e.paths.value.generation else 0,
        if e.traffic.Some? then e.traffic.value.generation else 0,
        if e.policy.Some? then e.policy.value.generation else 0))
  }

  // ----- admission of evidence ----------------------------------------------------------

  function ThresholdsOf(e: Evidence): Thresholds {
    if e.policy.Some? then e.policy.value.thresholds else DEFAULT_THRESHOLDS
  }

  function BudgetOf(e: Evidence): Budget {
    if e.policy.Some? then e.policy.value.budget else DEFAULT_BUDGET
  }

  predicate PolicyLive(e: Evidence, now: Millis) { e.policy.Some? && !Expired(e.policy.value, now) }

  predicate TopologyFresh(t: Topology, now: Millis) { t.validUntil == 0 || now <= t.validUntil }

  predicate CapacityOk(e: Evidence, now: Millis) {
    && e.topology.Some? && e.capacity.Some?
    && e.capacity.value.topologyGeneration == e.topology.value.generation
    && AgeMs(e.capacity.value.observedAt, now) <= ThresholdsOf(e).maxCapacityAge
  }

  predicate SignalsOk(e: Evidence, now: Millis) {
    && CapacityOk(e, now) && e.signals.Some?
    && e.signals.value.topologyGeneration == e.topology.value.generation
    && e.signals.value.capacityGeneration == e.capacity.value.generation
  }

  predicate PathsOk(e: Evidence, now: Millis) {
    && e.topology.Some? && e.paths.Some?
    && e.paths.value.topologyGeneration == e.topology.value.generation
    && AgeMs(e.paths.value.observedAt, now) <= ThresholdsOf(e).maxPathAge
  }

  predicate TrafficOk(e: Evidence, now: Millis) {
    PathsOk(e, now) && e.traffic.Some? && e.traffic.value.pathGeneration == e.paths.value.generation
  }

  /** The references detect looks at. */
  predicate ReferencesResolve(e: Evidence, now: Millis)
    requires e.topology.Some? && e.capacity.Some? && e.signals.Some?
  {
    && CapacityResolves(e.topology.value.content, e.capacity.value.entries)
    && SignalsResolve(e.topology.value.content, e.signals.value.records)
    && (PathsOk(e, now) ==> PathsResolve(e.topology.value.content, e.paths.value.paths))
  }

  function ReadingsOf(e: Evidence, now: Millis): seq<Reading>
    requires e.topology.Some? && e.capacity.Some? && e.signals.Some?
  {
    ReadAll(ThresholdsOf(e), now, e.capacity.value.entries, e.signals.value.records, e.topology.value.content.resources)
  }

  /** Enough of the fabric is covered by believable evidence. */
  predicate CoverageOk(th: Thresholds, n: nat, t: Census) {
    && t.unusableCount <= n <= U64_MAX && t.fabric != 0
    && Ppm(n - t.unusableCount, n) >= th.minCoveragePpm
    && Ppm(t.admissible, t.fabric) >= th.minCoveragePpm
  }

  /** The scope reported when the evidence cannot be admitted. */
  function Refusal(i: Input): Option<Scope> {
    var e, now := i.evidence, i.now;
    if e.topology.None? || !TopologyFresh(e.topology.value, now) then Some(Unknown)
    else if !SignalsOk(e, now) then Some(Unknown)
    else if |e.topology.value.content.resources| == 0 then Some(Quiet)
    else if !i.preverified && !ReferencesResolve(e, now) then Some(Unknown)
    else if !CoverageOk(ThresholdsOf(e), |e.topology.value.content.resources|,
        CensusOf(ReadingsOf(e, now))) then Some(Unknown)
    else None
  }

  // ----- one component ---------------------------------------------------------------------

  datatype Flows = Flows(paths: seq<PathRecord>, traffic: seq<TrafficRecord>)

  /** Everything the analysis of a component depends on. */
  datatype Scene = Scene(
    now: Millis, th: Thresholds, budget: Budget, policyLive: bool, topology: TopologyContent,
    readings: seq<Reading>, census: Census, flows: Option<Flows>, history: Option<History>, binding: Binding)

  function SceneOf(i: Input, h: Option<History>): Scene
    requires i.evidence.topology.Some? && i.evidence.capacity.Some? && i.evidence.signals.Some?
  {
    var e, now := i.evidence, i.now;
    Scene(now, ThresholdsOf(e), BudgetOf(e), PolicyLive(e, now), e.topology.value.content,
          ReadingsOf(e, now), CensusOf(ReadingsOf(e, now)),
          if TrafficOk(e, now) then Some(Flows(e.paths.value.paths, e.traffic.value.records)) else None,
          h, BindingOf(e))
  }

  function Pick(readings: seq<Reading>, c: seq<nat>): (m: seq<Reading>)
    requires forall k :: 0 <= k < |c| ==> c[k] < |readings|
    ensures |m| == |c| && forall k :: 0 <= k < |c| ==> m[k] == readings[c[k]]
  {
    seq(|c|, k requires 0 <= k < |c| => readings[c[k]])
  }

  function IdsOf(m: seq<Reading>): (ids: seq<U64>)
    ensures |ids| == |m| && forall k :: 0 <= k < |m| ==> ids[k] == m[k].id
  {
    seq(|m|, k requires 0 <= k < |m| => m[k].id)
  }

  function Peak(m: seq<Reading>, f: Reading -> U32): U32
  {
    if |m| == 0 then 0
    else Max(Peak(m[..|m| - 1], f), f(m[|m| - 1]))
  }

  function PressureAt(r: Reading): U32 { r.cell.pressure }
  function UtilizationAt(r: Reading): U32 { r.cell.utilization }
  function QueueAt(r: Reading): U32 { r.cell.queue }
  function BufferAt(r: Reading): U32 { r.cell.buffer }

  /** The history entry a saturated resource gets from this evaluation. */
  function EntryNow(h: Option<History>, now: Millis, id: U64): Entry {
    Continue(if h.Some? then Carry(h.value, id) else NO_ENTRY, now)
  }

  /** When the member saturated last began, and the fewest samples of a member. */
  function LatestFirst(h: Option<History>, now: Millis, m: seq<Reading>): Millis
  {
    if |m| == 0 then NO_TIME else Max(LatestFirst(h, now, m[..|m| - 1]), EntryNow(h, now, m[|m| - 1].id).first)
  }

  function FewestSamples(h: Option<History>, now: Millis, m: seq<Reading>): U32
  {
    if |m| == 0 then 0
    else
      var last := EntryNow(h, now, m[|m| - 1].id).samples;
      if |m| == 1 then last else Min(FewestSamples(h, now, m[..|m| - 1]), last)
  }

  /** A neighbour counts as healthy on admissible evidence only. */
  predicate HealthyId(s: Scene, id: U64) {
    var at := IndexOfResource(s.topology, id);
    at.Some? && at.value < |s.readings| && s.readings[at.value].cell.admissible && !s.readings[at.value].cell.saturated
  }

  function HealthyAmong(s: Scene, ids: seq<U64>): seq<U64> {
    if |ids| == 0 then []
    else HealthyAmong(s, ids[..|ids| - 1]) + (if HealthyId(s, ids[|ids| - 1]) then [ids[|ids| - 1]] else [])
  }

  function HealthyAround(s: Scene, m: seq<Reading>): seq<U64> {
    if |m| == 0 then []
    else HealthyAround(s, m[..|m| - 1]) + HealthyAmong(s, Partners(s.topology.links, m[|m| - 1].id))
  }

  function RegionsOf(m: seq<Reading>): seq<U64> {
    var k := Min(|m|, MAX_REGIONS);
    UniqueIds(seq(k, i requires 0 <= i < k => m[i].region))
  }

  /** What a hotspot covers and how it measures. */
  datatype Extent = Extent(
    resources: seq<U64>, count: nat, truncated: bool, capacity: U64, share: U32,
    peakPressure: U32, peakUtilization: U32, peakQueue: U32, peakBuffer: U32,
    healthy: seq<U64>, healthyCount: nat, healthyTruncated: bool, regions: seq<U64>,
    first: Millis, samples: U32)

  function Take<T>(s: seq<T>, n: nat): (r: seq<T>)
    ensures |r| == Min(|s|, n) && r <= s
  {
    if |s| <= n then s else s[..n]
  }

  function ExtentOf(s: Scene, m: seq<Reading>): Extent {
    var healthy := UniqueIds(HealthyAround(s, m));
    var capacity := Accumulated(m, FabricUnits);
    Extent(
      Take(IdsOf(m), MAX_HOTSPOT_RESOURCES), |m|, |m| > MAX_HOTSPOT_RESOURCES,
      capacity, Ppm(capacity, s.census.fabric),
      Peak(m, PressureAt), Peak(m, UtilizationAt), Peak(m, QueueAt), Peak(m, BufferAt),
      Take(healthy, MAX_HOTSPOT_RESOURCES), |healthy|, |healthy| > MAX_HOTSPOT_RESOURCES, RegionsOf(m),
      LatestFirst(s.history, s.now, m), FewestSamples(s.history, s.now, m))
  }

  /** Whose demand meets the hotspot. */
  datatype Blame = Blame(
    attributed: U64, unattributed: U64, confidence: U32, contributors: seq<Contributor>,
    contributorCount: nat, contributorsTruncated: bool, freshCount: U32, usable: bool)

  function TallyOf(s: Scene, ids: seq<U64>): Tally {
    if s.flows.None? then EMPTY_TALLY
    else AddAll(Freshness(s.now, s.th.maxTrafficAge), Incidences(ids, s.flows.value.paths, s.flows.value.traffic))
  }

  function BlameFrom(s: Scene, t: Tally): Blame {
    var confidence := if t.incomplete then 0 else Ppm(t.freshBps, SatAdd(t.freshBps, t.staleBps));
    var collected := Contributors(t);
    Blame(t.freshBps, t.staleBps, confidence, collected.listed, collected.count, collected.truncated, t.freshCount,
          s.flows.Some? && !t.incomplete && confidence >= s.th.minAttributionPpm)
  }

  function ScopeOf(s: Scene, x: Extent): Scope {
    if x.share >= s.th.globalSharePpm || |x.regions| > s.th.maxRegionalRegions then Global
    else if s.census.admissibleCount != 0 && s.census.saturatedCount == s.census.admissibleCount then Global
    else if |x.regions| > s.th.maxLocalRegions then Regional
    else if x.healthyCount == 0 then Unknown
    else Localized
  }

  function PressureCause(th: Thresholds, x: Extent): Cause {
    if x.peakUtilization >= PPM_SCALE then CapacityExhaustion
    else if x.peakQueue >= th.queuePpm then QueueBuildup
    else if x.peakBuffer >= th.bufferPpm then BufferExhaustion
    else UnknownCause
  }

  function CauseOf(th: Thresholds, x: Extent, b: Blame): Cause {
    var cause := PressureCause(th, x);
    if b.usable && |b.contributors| > 0 && b.contributors[0].share >= th.dominantPpm then FanInContention
    else if b.usable && b.freshCount >= 8 && cause == CapacityExhaustion then StructuralConvergence
    else cause
  }

  predicate IsPersistent(s: Scene, x: Extent) {
    && s.history.Some? && x.samples >= s.th.minSamples
    && ElapsedMs(x.first, s.now) >= s.th.persistenceWindow
  }

  function RemediationOf(s: Scene, scope: Scope, x: Extent): Remediation {
    if !s.policyLive then Suppressed
    else if !IsPersistent(s, x) then NotApplicable
    else if scope == Unknown || scope == Global then Suppressed
    else if scope == Regional && x.share > s.budget.maxScopeShare then Suppressed
    else Eligible
  }

  /** What a hotspot's identity is computed from. */
  datatype HotspotId = HotspotId(
    generations: Generations, scope: Scope, cause: Cause, count: nat, leading: seq<U64>, last: U64)

  datatype Hotspot = Hotspot(
    id: HotspotId, scope: Scope, cause: Cause, extent: Extent, blame: Blame,
    persistent: bool, remediation: Remediation)

  function Judge(s: Scene, x: Extent, b: Blame): Hotspot {
    var scope, cause := ScopeOf(s, x), CauseOf(s.th, x, b);
    var id := HotspotId(s.binding.generations, scope, cause, x.count, Take(x.resources, 32),
                        if |x.resources| == 0 then 0 else x.resources[|x.resources| - 1]);
    Hotspot(id, scope, cause, x, b, IsPersistent(s, x), RemediationOf(s, scope, x))
  }

  function HotspotOf(s: Scene, m: seq<Reading>): Hotspot {
    Judge(s, ExtentOf(s, m), BlameFrom(s, TallyOf(s, IdsOf(m))))
  }

  // ----- the whole evaluation ------------------------------------------------------------

  datatype Report = Report(hotspots: seq<Hotspot>, candidates: seq<Hotspot>, dropped: nat)

  /** Persistent hotspots are confirmed, the others are candidates, each list
      within its reporting bound. */
  function FileOne(r: Report, h: Hotspot): Report {
    if h.persistent then
      if |r.hotspots| < MAX_HOTSPOTS then r.(hotspots := r.hotspots + [h]) else r.(dropped := r.dropped + 1)
    else if |r.candidates| < MAX_HOTSPOTS then r.(candidates := r.candidates + [h])
    else r.(dropped := r.dropped + 1)
  }

  function FileAll(hs: seq<Hotspot>): Report {
    if |hs| == 0 then Report([], [], 0) else FileOne(FileAll(hs[..|hs| - 1]), hs[|hs| - 1])
  }

  function Rank(s: Scope): nat {
    match s case Unknown => 0 case Quiet => 1 case Localized => 2 case Regional => 3 case Global => 4
  }

  /** The widest scope, starting from no congestion. */
  function Widest(hs: seq<Hotspot>): Scope {
    if |hs| == 0 then Quiet
    else
      var w := Widest(hs[..|hs| - 1]);
      if Rank(hs[|hs| - 1].scope) > Rank(w) then hs[|hs| - 1].scope else w
  }

  function ShareBps(h: Hotspot): U64 { h.extent.share }

  datatype Assessment = Assessment(
    scope: Scope, refused: bool, hotspots: seq<Hotspot>, candidates: seq<Hotspot>, census: Census,
    globalShare: U32, localizationProven: bool, escalation: bool, binding: Binding)

  const NO_CENSUS := Census(0, 0, 0, 0, 0, 0, 0, [])

  predicate Escalates(s: Scene, scope: Scope, globalShare: U32, hs: seq<Hotspot>) {
    || scope == Global
    || (globalShare >= s.th.globalSharePpm && |hs| > 0)
    || (|hs| > s.budget.maxIntents && Accumulated(hs, ShareBps) >= s.budget.maxPlanShare)
  }

  function Conclude(s: Scene, r: Report): Assessment {
    var scope := Widest(r.hotspots);
    var globalShare := Ppm(s.census.saturated, s.census.fabric);
    Assessment(scope, false, r.hotspots, r.candidates, s.census, globalShare,
               exists k :: 0 <= k < |r.hotspots| && r.hotspots[k].scope == Localized,
               Escalates(s, scope, globalShare, r.hotspots), s.binding)
  }

  /** How far a refused evaluation got before it was refused. */
  predicate CensusTaken(i: Input) {
    && i.evidence.topology.Some? && TopologyFresh(i.evidence.topology.value, i.now) && SignalsOk(i.evidence, i.now)
    && |i.evidence.topology.value.content.resources| > 0 && (i.preverified || ReferencesResolve(i.evidence, i.now))
  }

  function RefusedAssessment(i: Input, scope: Scope): Assessment {
    var census := if CensusTaken(i) then CensusOf(ReadingsOf(i.evidence, i.now)) else NO_CENSUS;
    Assessment(scope, true, [], [], census, Ppm(census.saturated, census.fabric), false, false, BindingOf(i.evidence))
  }

  function SaturatedFlags(readings: seq<Reading>): (r: seq<bool>)
    ensures |r| == |readings| && forall i :: 0 <= i < |r| ==> r[i] == readings[i].cell.saturated
  {
    seq(|readings|, i requires 0 <= i < |readings| => readings[i].cell.saturated)
  }

  /** The scene's components: connected saturated resources. */
  ghost function ComponentsOf(s: Scene): (cs: seq<seq<nat>>)
    requires |s.readings| == |s.topology.resources|
  {
    Components(Adjacency(s.topology), SaturatedFlags(s.readings), |s.readings|)
  }

  ghost function Hotspots(s: Scene, cs: seq<seq<nat>>): (hs: seq<Hotspot>)
    requires Within(cs, |s.readings|)
    ensures |hs| == |cs| && forall k :: 0 <= k < |cs| ==> hs[k] == HotspotOf(s, Pick(s.readings, cs[k]))
  {
    seq(|cs|, k requires 0 <= k < |cs| => HotspotOf(s, Pick(s.readings, cs[k])))
  }

  ghost predicate ValidInput(i: Input) { ValidEvidence(i.evidence) }

  /** detect: refuse, or judge every component of the saturated subgraph. */
  ghost function Detect(i: Input, h: Option<History>): Assessment
    requires ValidInput(i)
  {
    var refusal := Refusal(i);
    if refusal.Some? then RefusedAssessment(i, refusal.value)
    else
      var s := SceneOf(i, h);
      ComponentsWithin(s);
      Conclude(s, FileAll(Hotspots(s, ComponentsOf(s))))
  }

  lemma ComponentsWithin(s: Scene)
    requires |s.readings| == |s.topology.resources| && ValidTopology(s.topology)
    ensures Within(ComponentsOf(s), |s.readings|)
  {
    hide ValidTopology, Components, Adjacency, ValidGraph, Symmetric;
    var adj, sat, cs := Adjacency(s.topology), SaturatedFlags(s.readings), ComponentsOf(s);
    AdjacencyMeaning(s.topology);
    ComponentsAreClasses(adj, sat);
    forall k | 0 <= k < |cs| ensures forall m :: 0 <= m < |cs[k]| ==> cs[k][m] < |s.readings| {
      ComponentIsClass(adj, sat, k);
      ClassRange(adj, sat, cs[k]);
    }
  }

  /** What the evaluation contributes to the saturation history. */
  function Observe(i: Input): Observation {
    if Refusal(i).Some? then Refused else Saw(i.now, SaturatedIds(ReadingsOf(i.evidence, i.now)))
  }

  function SaturatedIds(readings: seq<Reading>): set<U64> {
    set k | 0 <= k < |readings| && readings[k].cell.saturated :: readings[k].id
  }
}
