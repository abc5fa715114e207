/** Mitigation planning (src/intervention.cpp): at most one bounded intent per
    confirmed hotspot, under per-intent and whole-plan budgets. */
module Intervention {
  import opened Base
  import opened Model
  import opened Ordering
  import opened Checked
  import opened Totals
  import opened Snapshots
  import opened TopologyIndex
  import opened Classification
  import opened DemandAttribution
  import opened Detection

  datatype Kind =
    | NoKind | FlowRelocation | PathRebalance | AdmissionReduction | RatePacingChange | ResourceIsolation
    | EscalateGlobalCongestion

  datatype Intent = Intent(
    kind: Kind, hotspot: Option<HotspotId>, scope: Scope, resources: seq<U64>, paths: seq<U64>, flows: seq<U64>,
    rateDelta: int, share: U32)

  datatype Suppression = Suppression(kind: Kind, hotspot: Option<HotspotId>)

  datatype Plan = Plan(intents: seq<Intent>, suppressed: seq<Suppression>, share: U32, rejected: nat)

  const EMPTY_PLAN := Plan([], [], 0, 0)

  /** Everything planning reads besides the hotspot itself. */
  datatype Ground = Ground(
    th: Thresholds, budget: Budget, topology: TopologyContent, capacity: Option<seq<CapacityEntry>>,
    fabric: U64, pressures: seq<Pressure>)

  // ----- one candidate kind -------------------------------------------------------------

  function Priority(c: Cause): seq<Kind> {
    match c
    case FanInContention => [FlowRelocation, PathRebalance, RatePacingChange, AdmissionReduction]
    case StructuralConvergence => [PathRebalance, AdmissionReduction, RatePacingChange]
    case CapacityExhaustion => [AdmissionReduction, RatePacingChange, FlowRelocation, ResourceIsolation]
    case QueueBuildup => [RatePacingChange, AdmissionReduction, PathRebalance]
    case BufferExhaustion => [AdmissionReduction, ResourceIsolation, RatePacingChange]
    case Microburst => [AdmissionReduction]
    case UnknownCause => [AdmissionReduction]
  }

  predicate Allows(b: Budget, k: Kind) {
    match k
    case FlowRelocation => b.allowRelocation
    case PathRebalance => b.allowRebalance
    case AdmissionReduction => b.allowAdmission
    case RatePacingChange => b.allowRate
    case ResourceIsolation => b.allowIsolation
    case EscalateGlobalCongestion => b.allowEscalation
    case NoKind => false
  }

  predicate AttributionUsable(g: Ground, h: Hotspot) {
    h.blame.confidence >= g.th.minAttributionPpm && |h.blame.contributors| > 0
  }

  /** Relocation targets are appended while the hard bound leaves room. */
  function WithTargets(resources: seq<U64>, healthy: seq<U64>): seq<U64> {
    if |resources| >= MAX_INTENT_RESOURCES then resources
    else resources + Take(healthy, MAX_INTENT_RESOURCES - |resources|)
  }

  function FlowsOf(cs: seq<Contributor>): (r: seq<U64>)
    ensures |r| == |cs| && forall k :: 0 <= k < |cs| ==> r[k] == cs[k].flow
  {
    seq(|cs|, k requires 0 <= k < |cs| => cs[k].flow)
  }

  function PathsOf(cs: seq<Contributor>): (r: seq<U64>)
    ensures |r| == |cs| && forall k :: 0 <= k < |cs| ==> r[k] == cs[k].path
  {
    seq(|cs|, k requires 0 <= k < |cs| => cs[k].path)
  }

  /** How far above the target the hotspot runs: utilization first, pressure else. */
  function RateExcess(g: Ground, x: Extent): U32 {
    if x.peakUtilization > g.th.saturationPpm then x.peakUtilization - g.th.saturationPpm
    else if x.peakPressure > g.th.saturationPpm then x.peakPressure - g.th.saturationPpm
    else 0
  }

  predicate DropsSeen(ps: seq<Pressure>) { exists k :: 0 <= k < |ps| && ps[k].saturated && ps[k].drops > 0 }

  datatype Draft = Draft(resources: seq<U64>, paths: seq<U64>, flows: seq<U64>, rateDelta: int)

  /** What a kind would touch, or None when its own precondition fails. */
  function DraftOf(g: Ground, h: Hotspot, k: Kind): Option<Draft> {
    var resources, named := h.extent.resources, Take(h.blame.contributors, MAX_INTENT_FLOWS);
    match k
    case FlowRelocation =>
      if g.budget.requireAttribution && !AttributionUsable(g, h) then None
      else if AttributionUsable(g, h) then
        Some(Draft(WithTargets(resources, h.extent.healthy), PathsOf(named), FlowsOf(named), 0))
      else Some(Draft(WithTargets(resources, h.extent.healthy), [], [], 0))
    case PathRebalance =>
      if !AttributionUsable(g, h) then None else Some(Draft(resources, PathsOf(named), FlowsOf(named), 0))
    case RatePacingChange =>
      if RateExcess(g, h.extent) == 0 then None
      else Some(Draft(resources, [], [], -Min(RateExcess(g, h.extent), g.budget.maxRateDelta)))
    case ResourceIsolation => if !DropsSeen(g.pressures) then None else Some(Draft(resources, [], [], 0))
    case _ => Some(Draft(resources, [], [], 0))
  }

  function Canonical(d: Draft): Draft {
    d.(resources := UniqueIds(d.resources), paths := UniqueIds(d.paths), flows := UniqueIds(d.flows))
  }

  predicate SizeOk(b: Budget, d: Draft) {
    && |d.resources| <= b.maxResources && |d.paths| <= b.maxPaths && |d.flows| <= b.maxFlows
    && |d.resources| <= MAX_INTENT_RESOURCES && |d.paths| <= MAX_INTENT_PATHS && |d.flows| <= MAX_INTENT_FLOWS
  }

  predicate ScopeKnown(c: TopologyContent, ids: seq<U64>) {
    forall k :: 0 <= k < |ids| ==> HasResource(c.resources, ids[k])
  }

  function UnitsIn(es: seq<CapacityEntry>): U64 -> U64 {
    (id: U64) => var e := FindCapacity(es, id); if e.Some? then e.value.units else 0
  }

  function ShareOf(capacity: Option<seq<CapacityEntry>>, ids: seq<U64>, fabric: U64): U32 {
    if capacity.None? || fabric == 0 then 0 else Ppm(Accumulated(ids, UnitsIn(capacity.value)), fabric)
  }

  datatype Attempt = Unfit | OverPlan | Fits(intent: Intent)

  /** One candidate kind at the current plan share. */
  function Try(g: Ground, h: Hotspot, k: Kind, planShare: U32): Attempt {
    if !Allows(g.budget, k) then Unfit
    else
      var draft := DraftOf(g, h, k);
      if draft.None? then Unfit
      else
        var d := Canonical(draft.value);
        var share := ShareOf(g.capacity, d.resources, g.fabric);
        if !SizeOk(g.budget, d) || !ScopeKnown(g.topology, d.resources) || share > g.budget.maxScopeShare then Unfit
        else if planShare + share > g.budget.maxPlanShare then OverPlan
        else Fits(Intent(k, Some(h.id), h.scope, d.resources, d.paths, d.flows, d.rateDelta, share))
  }

  // ----- the plan, step by step ------------------------------------------------------------

  function Note(plan: Plan, s: Suppression): Plan {
    if |plan.suppressed| >= MAX_SUPPRESSED || s in plan.suppressed then plan
    else plan.(suppressed := plan.suppressed + [s])
  }

  datatype Step = Step(plan: Plan, emitted: bool)

  function NextKind(g: Ground, h: Hotspot, s: Step, k: Kind): Step {
    if s.emitted then s.(plan := Note(s.plan, Suppression(k, Some(h.id))))
    else
      match Try(g, h, k, s.plan.share)
      case Unfit => s.(plan := Note(s.plan, Suppression(k, Some(h.id))))
      case OverPlan => s.(plan := Note(s.plan, Suppression(k, Some(h.id))).(rejected := s.plan.rejected + 1))
      case Fits(intent) =>
        FitsWithinPlan(g, h, k, s.plan.share);
        Step(s.plan.(share := s.plan.share + intent.share, intents := s.plan.intents + [intent]), true)
  }

  lemma FitsWithinPlan(g: Ground, h: Hotspot, k: Kind, planShare: U32)
    requires Try(g, h, k, planShare).Fits?
    ensures var i := Try(g, h, k, planShare).intent;
            && planShare + i.share <= g.budget.maxPlanShare && i.share <= g.budget.maxScopeShare
            && i.kind == k && i.hotspot == Some(h.id) && i.scope == h.scope
            && 0 - g.budget.maxRateDelta <= i.rateDelta <= 0
            && |i.resources| <= Min(g.budget.maxResources, MAX_INTENT_RESOURCES)
            && |i.paths| <= Min(g.budget.maxPaths, MAX_INTENT_PATHS)
            && |i.flows| <= Min(g.budget.maxFlows, MAX_INTENT_FLOWS)
            && ScopeKnown(g.topology, i.resources)
  {
    hide UniqueIds, ShareOf, ScopeKnown, DropsSeen;
  }

  /** Utilization above the target, or pressure when utilization is not. */
  function Excess(th: Thresholds, x: Extent): int {
    (if x.peakUtilization > th.saturationPpm then x.peakUtilization else x.peakPressure) - th.saturationPpm
  }

  /** The resources a kind touches: the hotspot's, and for relocation as many
      healthy neighbours as the hard bound leaves room for. */
  function Touched(x: Extent, k: Kind): seq<U64> {
    if k == FlowRelocation && |x.resources| < 64 then x.resources + Take(x.healthy, 64 - |x.resources|)
    else x.resources
  }

  /** What a taken kind carries: exactly the resources it touches, flows and paths
      only with usable attribution and then exactly those of the listed
      contributors, a rate change only for rate pacing and then the measured excess
      up to its bound. */
  lemma IntentContents(g: Ground, h: Hotspot, k: Kind, planShare: U32)
    requires Try(g, h, k, planShare).Fits? && |h.blame.contributors| <= MAX_CONTRIBUTORS
    ensures var i := Try(g, h, k, planShare).intent;
            var names := (k == FlowRelocation || k == PathRebalance) && AttributionUsable(g, h);
            && (forall x :: x in i.resources <==> x in Touched(h.extent, k))
            && (forall x :: x in i.flows <==> names && NamesFlow(h.blame.contributors, x))
            && (forall x :: x in i.paths <==> names && NamesPath(h.blame.contributors, x))
            && (k != RatePacingChange ==> i.rateDelta == 0)
            && (k == RatePacingChange ==>
                  && 0 - i.rateDelta == Min(g.budget.maxRateDelta, Excess(g.th, h.extent))
                  && (g.budget.maxRateDelta > 0 ==> i.rateDelta < 0))
  {
    DraftContents(g, h, k);
    TakenDraft(g, h, k, planShare);
    hide Try, DraftOf, UniqueIds, AttributionUsable, FlowsOf, PathsOf, Touched;
    var draft := DraftOf(g, h, k).value;
    forall x: U64 ensures x in UniqueIds(draft.flows) <==> DraftNames(g, h, k) && NamesFlow(h.blame.contributors, x) {
      FlowNamed(h.blame.contributors, x);
    }
    forall x: U64 ensures x in UniqueIds(draft.paths) <==> DraftNames(g, h, k) && NamesPath(h.blame.contributors, x) {
      PathNamed(h.blame.contributors, x);
    }
  }

  ghost predicate NamesPath(cs: seq<Contributor>, path: U64) { exists k :: 0 <= k < |cs| && cs[k].path == path }

  predicate DraftNames(g: Ground, h: Hotspot, k: Kind) {
    (k == FlowRelocation || k == PathRebalance) && AttributionUsable(g, h)
  }

  lemma TakenDraft(g: Ground, h: Hotspot, k: Kind, planShare: U32)
    requires Try(g, h, k, planShare).Fits?
    ensures DraftOf(g, h, k).Some?
    ensures var i, d := Try(g, h, k, planShare).intent, DraftOf(g, h, k).value;
            && i.resources == UniqueIds(d.resources) && i.flows == UniqueIds(d.flows)
            && i.paths == UniqueIds(d.paths) && i.rateDelta == d.rateDelta
  {
    hide DraftOf, UniqueIds, SizeOk, ScopeKnown, ShareOf;
  }

  lemma DraftContents(g: Ground, h: Hotspot, k: Kind)
    requires DraftOf(g, h, k).Some? && |h.blame.contributors| <= MAX_CONTRIBUTORS
    ensures var d := DraftOf(g, h, k).value;
            && d.resources == Touched(h.extent, k)
            && d.flows == (if DraftNames(g, h, k) then FlowsOf(h.blame.contributors) else [])
            && d.paths == (if DraftNames(g, h, k) then PathsOf(h.blame.contributors) else [])
            && (k == RatePacingChange ==> d.rateDelta == 0 - Min(RateExcess(g, h.extent), g.budget.maxRateDelta))
            && (k != RatePacingChange ==> d.rateDelta == 0)
            && (k == RatePacingChange ==> RateExcess(g, h.extent) > 0)
  {
    hide AttributionUsable, DropsSeen, FlowsOf, PathsOf, RateExcess;
    assert Take(h.blame.contributors, MAX_INTENT_FLOWS) == h.blame.contributors;
  }

  lemma FlowNamed(cs: seq<Contributor>, x: int)
    ensures x in FlowsOf(cs) <==> exists j :: 0 <= j < |cs| && cs[j].flow == x
  {
    var flows := FlowsOf(cs);
    if x in flows {
      var j :| 0 <= j < |flows| && flows[j] == x;
      assert cs[j].flow == x;
    }
    if exists j :: 0 <= j < |cs| && cs[j].flow == x {
      var j :| 0 <= j < |cs| && cs[j].flow == x;
      assert flows[j] == x;
    }
  }

  lemma PathNamed(cs: seq<Contributor>, x: int)
    ensures x in PathsOf(cs) <==> exists j :: 0 <= j < |cs| && cs[j].path == x
  {
    var paths := PathsOf(cs);
    if x in paths {
      var j :| 0 <= j < |paths| && paths[j] == x;
      assert cs[j].path == x;
    }
    if exists j :: 0 <= j < |cs| && cs[j].path == x {
      var j :| 0 <= j < |cs| && cs[j].path == x;
      assert paths[j] == x;
    }
  }

  function AfterKinds(g: Ground, h: Hotspot, plan: Plan, kinds: seq<Kind>): Step {
    if |kinds| == 0 then Step(plan, false)
    else NextKind(g, h, AfterKinds(g, h, plan, kinds[..|kinds| - 1]), kinds[|kinds| - 1])
  }

  function PlanHotspot(g: Ground, plan: Plan, h: Hotspot): Plan {
    if h.remediation != Eligible then Note(plan, Suppression(AdmissionReduction, Some(h.id)))
    else if |plan.intents| >= g.budget.maxIntents then
      Note(plan, Suppression(AdmissionReduction, Some(h.id))).(rejected := plan.rejected + 1)
    else
      var s := AfterKinds(g, h, plan, Priority(h.cause));
      if s.emitted then s.plan
      else Note(s.plan, Suppression(NoKind, Some(h.id))).(rejected := s.plan.rejected + 1)
  }

  function PlanAll(g: Ground, hs: seq<Hotspot>): Plan {
    if |hs| == 0 then EMPTY_PLAN else PlanHotspot(g, PlanAll(g, hs[..|hs| - 1]), hs[|hs| - 1])
  }

  function NoteWithheld(hs: seq<Hotspot>): Plan {
    if |hs| == 0 then EMPTY_PLAN
    else
      var plan, h := NoteWithheld(hs[..|hs| - 1]), hs[|hs| - 1];
      if h.remediation == Eligible then Note(plan, Suppression(AdmissionReduction, Some(h.id))) else plan
  }

  function EscalationPlan(budget: Budget, a: Assessment): Plan {
    var plan := NoteWithheld(a.hotspots);
    if budget.allowEscalation then
      plan.(intents := [Intent(EscalateGlobalCongestion, if |a.hotspots| == 0 then None else Some(a.hotspots[0].id),
          a.scope, [], [], [], 0, 0)])
    else Note(plan, Suppression(EscalateGlobalCongestion, None))
  }

  function GroundOf(a: Assessment, topology: TopologyContent, capacity: Option<seq<CapacityEntry>>,
      policy: Policy): Ground {
    Ground(policy.thresholds, policy.budget, topology, capacity, a.census.fabric, a.census.pressures)
  }

  /** plan_interventions. */
  function PlanFor(a: Assessment, topology: Option<TopologyContent>, capacity: Option<seq<CapacityEntry>>,
                   policy: Option<Policy>, now: Millis): Plan {
    if topology.None? || (a.binding.topology.Some? && a.binding.topology != topology) then EMPTY_PLAN
    else if policy.None? || Expired(policy.value, now) then EMPTY_PLAN
    else if a.escalation then EscalationPlan(policy.value.budget, a)
    else PlanAll(GroundOf(a, topology.value, capacity, policy.value), a.hotspots)
  }

  // ----- what a plan guarantees ----------------------------------------------------------------

  predicate FitsAt(g: Ground, h: Hotspot, kinds: seq<Kind>, planShare: U32, k: nat)
    requires k < |kinds|
  {
    Try(g, h, kinds[k], planShare).Fits?
  }

  /** The first kind that passes every check at the given plan share. */
  predicate IsFirstFit(g: Ground, h: Hotspot, kinds: seq<Kind>, planShare: U32, k: nat) {
    k < |kinds| && FitsAt(g, h, kinds, planShare, k) && forall j :: 0 <= j < k ==> !FitsAt(g, h, kinds, planShare, j)
  }

  predicate NoneFits(g: Ground, h: Hotspot, kinds: seq<Kind>, planShare: U32) {
    forall j :: 0 <= j < |kinds| ==> !FitsAt(g, h, kinds, planShare, j)
  }

  lemma NoteKeeps(plan: Plan, s: Suppression)
    ensures var q := Note(plan, s);
            && q.intents == plan.intents && q.share == plan.share && q.rejected == plan.rejected
            && plan.suppressed <= q.suppressed
            && (|plan.suppressed| <= MAX_SUPPRESSED ==> |q.suppressed| <= MAX_SUPPRESSED)
            && (s in q.suppressed || |q.suppressed| >= MAX_SUPPRESSED)
  {
  }

  /** What trying kinds in order did to the plan: nothing but notes, or the first
      fitting kind's intent. */
  ghost predicate KindsTried(g: Ground, h: Hotspot, plan: Plan, kinds: seq<Kind>, s: Step) {
    && plan.suppressed <= s.plan.suppressed
    && (|plan.suppressed| <= MAX_SUPPRESSED ==> |s.plan.suppressed| <= MAX_SUPPRESSED)
    && (!s.emitted ==>
          s.plan.intents == plan.intents && s.plan.share == plan.share && NoneFits(g, h, kinds, plan.share))
    && (s.emitted ==> exists k :: FirstFitEmitted(g, h, plan, kinds, s.plan, k))
  }

  ghost predicate FirstFitEmitted(g: Ground, h: Hotspot, plan: Plan, kinds: seq<Kind>, after: Plan, k: nat) {
    && IsFirstFit(g, h, kinds, plan.share, k)
    && var intent := Try(g, h, kinds[k], plan.share).intent;
       after.intents == plan.intents + [intent] && after.share == plan.share + intent.share
  }

  lemma FirstFitStays(g: Ground, h: Hotspot, plan: Plan, kinds: seq<Kind>, more: Kind, after: Plan, k: nat)
    requires FirstFitEmitted(g, h, plan, kinds, after, k)
    ensures FirstFitEmitted(g, h, plan, kinds + [more], after, k)
  {
    hide Try;
    var longer := kinds + [more];
    assert forall j :: 0 <= j <= k ==> longer[j] == kinds[j];
    assert FitsAt(g, h, kinds, plan.share, k);
    forall j | 0 <= j < k ensures !FitsAt(g, h, longer, plan.share, j) {
      assert !FitsAt(g, h, kinds, plan.share, j);
    }
  }

  lemma FirstFitFound(g: Ground, h: Hotspot, kinds: seq<Kind>, more: Kind, planShare: U32)
    requires NoneFits(g, h, kinds, planShare)
    ensures Try(g, h, more, planShare).Fits? ==> IsFirstFit(g, h, kinds + [more], planShare, |kinds|)
    ensures !Try(g, h, more, planShare).Fits? ==> NoneFits(g, h, kinds + [more], planShare)
  {
    hide Try;
    var longer := kinds + [more];
    forall j | 0 <= j < |kinds| ensures !FitsAt(g, h, longer, planShare, j) {
      assert !FitsAt(g, h, kinds, planShare, j);
    }
  }

  lemma NextKindTried(g: Ground, h: Hotspot, plan: Plan, kinds: seq<Kind>, s: Step, more: Kind)
    requires KindsTried(g, h, plan, kinds, s)
    ensures KindsTried(g, h, plan, kinds + [more], NextKind(g, h, s, more))
  {
    hide Try, IsFirstFit, NoneFits, Note;
    NoteKeeps(s.plan, Suppression(more, Some(h.id)));
    if s.emitted {
      var k :| FirstFitEmitted(g, h, plan, kinds, s.plan, k);
      FirstFitStays(g, h, plan, kinds, more, s.plan, k);
      var after := NextKind(g, h, s, more).plan;
      assert FirstFitEmitted(g, h, plan, kinds + [more], after, k);
    } else {
      FirstFitFound(g, h, kinds, more, plan.share);
      if Try(g, h, more, plan.share).Fits? {
        assert FirstFitEmitted(g, h, plan, kinds + [more], NextKind(g, h, s, more).plan, |kinds|);
      }
    }
  }

  lemma {:induction false} KindsAreTried(g: Ground, h: Hotspot, plan: Plan, kinds: seq<Kind>)
    ensures KindsTried(g, h, plan, kinds, AfterKinds(g, h, plan, kinds))
  {
    hide NextKind, Try;
    if |kinds| == 0 {
    } else {
      var init, last := kinds[..|kinds| - 1], kinds[|kinds| - 1];
      KindsAreTried(g, h, plan, init);
      hide KindsTried;
      NextKindTried(g, h, plan, init, AfterKinds(g, h, plan, init), last);
      assert kinds == init + [last];
    }
  }

  /** A hotspot left without an intent, and why. */
  ghost predicate Passed(g: Ground, before: Plan, h: Hotspot, after: Plan) {
    && after.intents == before.intents && after.share == before.share
    && (Mentioned(after, h.id) || |after.suppressed| >= MAX_SUPPRESSED)
    && (h.remediation != Eligible || |before.intents| >= g.budget.maxIntents
        || NoneFits(g, h, Priority(h.cause), before.share))
  }

  ghost predicate Mentioned(plan: Plan, id: HotspotId) {
    exists k :: 0 <= k < |plan.suppressed| && plan.suppressed[k].hotspot == Some(id)
  }

  /** A hotspot that got its intent: the first fitting kind of its cause's list. */
  ghost predicate Served(g: Ground, before: Plan, h: Hotspot, after: Plan) {
    && h.remediation == Eligible && |before.intents| < g.budget.maxIntents
    && exists k :: FirstFitEmitted(g, h, before, Priority(h.cause), after, k)
  }

  ghost predicate Handled(g: Ground, before: Plan, h: Hotspot, after: Plan) {
    && before.suppressed <= after.suppressed
    && (|before.suppressed| <= MAX_SUPPRESSED ==> |after.suppressed| <= MAX_SUPPRESSED)
    && (Passed(g, before, h, after) || Served(g, before, h, after))
  }

  lemma Noted(plan: Plan, k: Kind, id: HotspotId)
    ensures var after := Note(plan, Suppression(k, Some(id)));
            Mentioned(after, id) || |after.suppressed| >= MAX_SUPPRESSED
  {
    var after := Note(plan, Suppression(k, Some(id)));
    NoteKeeps(plan, Suppression(k, Some(id)));
    if Suppression(k, Some(id)) in after.suppressed {
      var j :| 0 <= j < |after.suppressed| && after.suppressed[j] == Suppression(k, Some(id));
      assert after.suppressed[j].hotspot == Some(id);
    }
  }

  /** Each hotspot gets at most one intent, of the first kind in its cause's
      list that passes every check at the current plan share, or a record. */
  lemma HotspotHandled(g: Ground, plan: Plan, h: Hotspot)
    ensures Handled(g, plan, h, PlanHotspot(g, plan, h))
  {
    hide AfterKinds, Priority, NoneFits, FirstFitEmitted;
    NoteKeeps(plan, Suppression(AdmissionReduction, Some(h.id)));
    Noted(plan, AdmissionReduction, h.id);
    KindsAreTried(g, h, plan, Priority(h.cause));
    var s := AfterKinds(g, h, plan, Priority(h.cause));
    NoteKeeps(s.plan, Suppression(NoKind, Some(h.id)));
    Noted(s.plan, NoKind, h.id);
    hide Note;
  }

  function IntentShare(i: Intent): U64 { i.share }

  ghost predicate IntentOk(g: Ground, i: Intent) {
    && i.share <= g.budget.maxScopeShare && 0 - g.budget.maxRateDelta <= i.rateDelta <= 0
    && |i.resources| <= Min(g.budget.maxResources, MAX_INTENT_RESOURCES)
    && |i.paths| <= Min(g.budget.maxPaths, MAX_INTENT_PATHS)
    && |i.flows| <= Min(g.budget.maxFlows, MAX_INTENT_FLOWS)
    && ScopeKnown(g.topology, i.resources)
  }

  ghost predicate WithinBudget(g: Ground, plan: Plan) {
    && |plan.intents| <= g.budget.maxIntents
    && plan.share == Total(plan.intents, IntentShare) && plan.share <= g.budget.maxPlanShare
    && (forall a :: 0 <= a < |plan.intents| ==> IntentOk(g, plan.intents[a]))
    && |plan.suppressed| <= MAX_SUPPRESSED
  }

  lemma ServedWithinBudget(g: Ground, before: Plan, h: Hotspot, after: Plan, k: nat)
    requires WithinBudget(g, before) && |before.intents| < g.budget.maxIntents && |after.suppressed| <= MAX_SUPPRESSED
    requires FirstFitEmitted(g, h, before, Priority(h.cause), after, k)
    ensures WithinBudget(g, after)
    ensures after.intents[|before.intents|].hotspot == Some(h.id)
  {
    hide Try, Priority;
    FitsWithinPlan(g, h, Priority(h.cause)[k], before.share);
    hide ScopeKnown;
    assert after.intents[..|before.intents|] == before.intents;
  }

  /** Every plan that does not escalate stays within its budgets: intent count,
      whole-plan share (the sum of its intents' shares), each intent's share,
      size, rate change and scope. */
  lemma {:induction false} PlanWithinBudget(g: Ground, hs: seq<Hotspot>)
    ensures WithinBudget(g, PlanAll(g, hs))
  {
    hide PlanHotspot, Try, FirstFitEmitted, NoneFits, IntentOk;
    if |hs| == 0 {
    } else {
      var init, h := hs[..|hs| - 1], hs[|hs| - 1];
      PlanWithinBudget(g, init);
      var before := PlanAll(g, init);
      var after := PlanHotspot(g, before, h);
      HotspotHandled(g, before, h);
      if Served(g, before, h, after) {
        var k :| FirstFitEmitted(g, h, before, Priority(h.cause), after, k);
        ServedWithinBudget(g, before, h, after, k);
      }
    }
  }

  ghost predicate HasIntent(plan: Plan, id: HotspotId) {
    exists a :: 0 <= a < |plan.intents| && plan.intents[a].hotspot == Some(id)
  }

  /** The intents of a plan are emitted in hotspot order: number a was emitted
      for the hotspot at position origin[a]. */
  ghost function Origins(g: Ground, hs: seq<Hotspot>): seq<nat> {
    if |hs| == 0 then []
    else
      var init := hs[..|hs| - 1];
      Origins(g, init) + (if |PlanAll(g, hs).intents| > |PlanAll(g, init).intents| then [|hs| - 1] else [])
  }

  ghost predicate OriginatesFrom(g: Ground, hs: seq<Hotspot>, origins: seq<nat>, intents: seq<Intent>) {
    && |origins| == |intents| && Ascending(origins)
    && forall a :: 0 <= a < |origins| ==>
         && origins[a] < |hs| && hs[origins[a]].remediation == Eligible
         && EmittedFor(g, hs, origins[a], intents[a])
  }

  /** The intent of the first fitting kind at a plan share. */
  ghost predicate FirstFitIs(g: Ground, h: Hotspot, planShare: U32, i: Intent) {
    exists k: nat :: IsFirstFit(g, h, Priority(h.cause), planShare, k)
      && i == Try(g, h, Priority(h.cause)[k], planShare).intent
  }

  ghost predicate EmittedFor(g: Ground, hs: seq<Hotspot>, j: nat, i: Intent)
    requires j < |hs|
  {
    FirstFitIs(g, hs[j], PlanAll(g, hs[..j]).share, i)
  }

  lemma EmittedStays(g: Ground, hs: seq<Hotspot>, h: Hotspot, j: nat, i: Intent)
    requires j < |hs| && EmittedFor(g, hs, j, i)
    ensures EmittedFor(g, hs + [h], j, i)
  {
    hide FirstFitIs, PlanAll;
    assert (hs + [h])[..j] == hs[..j];
  }

  lemma EmittedLast(g: Ground, hs: seq<Hotspot>, h: Hotspot, k: nat, after: Plan)
    requires FirstFitEmitted(g, h, PlanAll(g, hs), Priority(h.cause), after, k)
    ensures EmittedFor(g, hs + [h], |hs|, after.intents[|after.intents| - 1])
  {
    hide Try, Priority, PlanAll;
    var share := PlanAll(g, hs).share;
    assert (hs + [h])[..|hs|] == hs;
    assert IsFirstFit(g, h, Priority(h.cause), share, k);
    hide IsFirstFit;
    assert FirstFitIs(g, h, share, Try(g, h, Priority(h.cause)[k], share).intent);
  }

  /** The planner refines its specification: every intent belongs to one
      eligible hotspot, at most one per hotspot, in order, and is the first kind
      of that hotspot's list that passes all checks. */
  lemma {:induction false} IntentsAreFirstFits(g: Ground, hs: seq<Hotspot>)
    ensures OriginatesFrom(g, hs, Origins(g, hs), PlanAll(g, hs).intents)
  {
    hide PlanHotspot, Try, EmittedFor, Priority;
    if |hs| == 0 {
    } else {
      var init, h := hs[..|hs| - 1], hs[|hs| - 1];
      assert hs == init + [h];
      IntentsAreFirstFits(g, init);
      var before := PlanAll(g, init);
      var after := PlanHotspot(g, before, h);
      HotspotHandled(g, before, h);
      hide FirstFitEmitted;
      OriginsMore(g, init, h, after);
    }
  }

  lemma OriginsMore(g: Ground, init: seq<Hotspot>, h: Hotspot, after: Plan)
    requires OriginatesFrom(g, init, Origins(g, init), PlanAll(g, init).intents)
    requires Passed(g, PlanAll(g, init), h, after) || Served(g, PlanAll(g, init), h, after)
    ensures OriginatesFrom(g, init + [h],
      Origins(g, init) + (if |after.intents| > |PlanAll(g, init).intents| then [|init|] else []), after.intents)
  {
    hide PlanAll, Try, EmittedFor, Priority, IsFirstFit, Origins, NoneFits, Mentioned;
    var before, hs := PlanAll(g, init), init + [h];
    forall a | 0 <= a < |before.intents| ensures EmittedFor(g, hs, Origins(g, init)[a], before.intents[a]) {
      EmittedStays(g, init, h, Origins(g, init)[a], before.intents[a]);
    }
    if Served(g, before, h, after) {
      var k :| FirstFitEmitted(g, h, before, Priority(h.cause), after, k);
      EmittedLast(g, init, h, k, after);
    }
  }

  ghost predicate AccountedFor(plan: Plan, id: HotspotId) {
    HasIntent(plan, id) || Mentioned(plan, id) || |plan.suppressed| >= MAX_SUPPRESSED
  }

  lemma AccountedStays(before: Plan, after: Plan, id: HotspotId)
    requires AccountedFor(before, id) && before.intents <= after.intents && before.suppressed <= after.suppressed
    ensures AccountedFor(after, id)
  {
    if HasIntent(before, id) {
      var a :| 0 <= a < |before.intents| && before.intents[a].hotspot == Some(id);
      assert after.intents[a].hotspot == Some(id);
    } else if Mentioned(before, id) {
      var k :| 0 <= k < |before.suppressed| && before.suppressed[k].hotspot == Some(id);
      assert after.suppressed[k].hotspot == Some(id);
    }
  }

  lemma HandledGrows(g: Ground, before: Plan, h: Hotspot, after: Plan)
    requires Handled(g, before, h, after)
    ensures before.intents <= after.intents && before.suppressed <= after.suppressed && AccountedFor(after, h.id)
  {
    hide Priority, NoneFits, IsFirstFit;
    if Served(g, before, h, after) {
      var k :| FirstFitEmitted(g, h, before, Priority(h.cause), after, k);
      ServedIntent(g, h, before, after, k);
      assert after.intents[|before.intents|].hotspot == Some(h.id);
    }
  }

  lemma ServedIntent(g: Ground, h: Hotspot, before: Plan, after: Plan, k: nat)
    requires FirstFitEmitted(g, h, before, Priority(h.cause), after, k)
    ensures |after.intents| == |before.intents| + 1 && after.intents[|before.intents|].hotspot == Some(h.id)
  {
    hide Try;
    FitsWithinPlan(g, h, Priority(h.cause)[k], before.share);
  }

  /** No hotspot is passed over in silence: it has an intent or a suppression
      record, unless the list of records is full. */
  lemma {:induction false} EveryHotspotAccountedFor(g: Ground, hs: seq<Hotspot>, j: nat)
    requires j < |hs|
    ensures AccountedFor(PlanAll(g, hs), hs[j].id)
  {
    hide PlanHotspot, Handled, AccountedFor;
    var init, h := hs[..|hs| - 1], hs[|hs| - 1];
    var before := PlanAll(g, init);
    HotspotHandled(g, before, h);
    HandledGrows(g, before, h, PlanHotspot(g, before, h));
    if j < |init| {
      EveryHotspotAccountedFor(g, init, j);
      AccountedStays(before, PlanHotspot(g, before, h), hs[j].id);
    }
  }

  // ----- suppression records --------------------------------------------------------------

  ghost predicate NoRepeats(ss: seq<Suppression>) {
    forall i, j :: 0 <= i < j < |ss| ==> ss[i] != ss[j]
  }

  lemma NoteNoRepeats(plan: Plan, s: Suppression)
    requires NoRepeats(plan.suppressed)
    ensures NoRepeats(Note(plan, s).suppressed)
  {
  }

  lemma {:induction false} KindsNoRepeats(g: Ground, h: Hotspot, plan: Plan, kinds: seq<Kind>)
    requires NoRepeats(plan.suppressed)
    ensures NoRepeats(AfterKinds(g, h, plan, kinds).plan.suppressed)
  {
    hide Try, NoRepeats, Note;
    if |kinds| == 0 {
      assert AfterKinds(g, h, plan, kinds).plan == plan;
    } else {
      var init, last := kinds[..|kinds| - 1], kinds[|kinds| - 1];
      KindsNoRepeats(g, h, plan, init);
      NoteNoRepeats(AfterKinds(g, h, plan, init).plan, Suppression(last, Some(h.id)));
    }
  }

  lemma {:induction false} PlanNoRepeats(g: Ground, hs: seq<Hotspot>)
    ensures NoRepeats(PlanAll(g, hs).suppressed)
  {
    hide AfterKinds, Priority, NoRepeats, Note;
    if |hs| == 0 {
      NothingRepeats();
    } else {
      var init, h := hs[..|hs| - 1], hs[|hs| - 1];
      PlanNoRepeats(g, init);
      var plan := PlanAll(g, init);
      NoteNoRepeats(plan, Suppression(AdmissionReduction, Some(h.id)));
      KindsNoRepeats(g, h, plan, Priority(h.cause));
      NoteNoRepeats(AfterKinds(g, h, plan, Priority(h.cause)).plan, Suppression(NoKind, Some(h.id)));
    }
  }

  lemma NothingRepeats()
    ensures NoRepeats([])
  {
  }

  lemma {:induction false} WithheldNoRepeats(hs: seq<Hotspot>)
    ensures NoRepeats(NoteWithheld(hs).suppressed)
  {
    hide NoRepeats, Note;
    if |hs| == 0 {
      NothingRepeats();
    } else {
      var init, h := hs[..|hs| - 1], hs[|hs| - 1];
      WithheldNoRepeats(init);
      NoteNoRepeats(NoteWithheld(init), Suppression(AdmissionReduction, Some(h.id)));
    }
  }

  /** No plan records the same suppression twice. */
  lemma SuppressionsNeverRepeat(a: Assessment, topology: Option<TopologyContent>, capacity: Option<seq<CapacityEntry>>,
                                policy: Option<Policy>, now: Millis)
    ensures NoRepeats(PlanFor(a, topology, capacity, policy, now).suppressed)
  {
    hide NoRepeats, Note, PlanAll, Expired;
    NothingRepeats();
    WithheldNoRepeats(a.hotspots);
    NoteNoRepeats(NoteWithheld(a.hotspots), Suppression(EscalateGlobalCongestion, None));
    if topology.Some? && policy.Some? {
      PlanNoRepeats(GroundOf(a, topology.value, capacity, policy.value), a.hotspots);
    }
  }
}
