/** The loops of plan_interventions (src/intervention.cpp), proved against
    Intervention. */
module Planner {
  import opened Base
  import opened Model
  import opened Ordering
  import opened Checked
  import opened Totals
  import opened Snapshots
  import opened TopologyIndex
  import opened Classification
  import opened DemandAttribution
  import opened Detection
  import opened Intervention

  /** note_suppression: bounded, and never the same record twice. */
  method NoteSuppression(plan: Plan, s: Suppression) returns (r: Plan)
    ensures r == Note(plan, s)
  {
    if |plan.suppressed| >= MAX_SUPPRESSED {
      return plan;
    }
    for k := 0 to |plan.suppressed|
      invariant s !in plan.suppressed[..k]
    {
      if plan.suppressed[k] == s {
        return plan;
      }
    }
    assert plan.suppressed[..|plan.suppressed|] == plan.suppressed;
    r := plan.(suppressed := plan.suppressed + [s]);
  }

  method ComputeShare(capacity: Option<seq<CapacityEntry>>, ids: seq<U64>, fabric: U64) returns (share: U32)
    ensures share == ShareOf(capacity, ids, fabric)
  {
    if capacity.None? || fabric == 0 {
      return 0;
    }
    hide FindCapacity, SatAdd, Ppm;
    var total: U64 := 0;
    for k := 0 to |ids|
      invariant total == Accumulated(ids[..k], UnitsIn(capacity.value))
    {
      assert ids[..k + 1] == ids[..k] + [ids[k]];
      AccumulatedSnoc(ids[..k], ids[k], UnitsIn(capacity.value));
      var entry := FindCapacity(capacity.value, ids[k]);
      if entry.Some? {
        total := SatAdd(total, entry.value.units);
      } else {
        SatAddNothing(total);
      }
    }
    assert ids[..|ids|] == ids;
    share := Ppm(total, fabric);
  }

  lemma SatAddNothing(a: U64)
    ensures SatAdd(a, 0) == a
  {
  }

  method AppendTargets(resources: seq<U64>, healthy: seq<U64>) returns (r: seq<U64>)
    ensures r == WithTargets(resources, healthy)
  {
    r := resources;
    var k := 0;
    while k < |healthy| && |r| < MAX_INTENT_RESOURCES
      invariant 0 <= k <= |healthy| && r == resources + healthy[..k]
      invariant k > 0 ==> |r| <= MAX_INTENT_RESOURCES
    {
      r := r + [healthy[k]];
      k := k + 1;
    }
    assert healthy[..|healthy|] == healthy;
  }

  method NameContributors(cs: seq<Contributor>) returns (paths: seq<U64>, flows: seq<U64>)
    ensures paths == PathsOf(Take(cs, MAX_INTENT_FLOWS)) && flows == FlowsOf(Take(cs, MAX_INTENT_FLOWS))
  {
    paths, flows := [], [];
    var k := 0;
    while k < |cs| && |flows| < MAX_INTENT_FLOWS
      invariant 0 <= k <= |cs| && |flows| == |paths| == k <= MAX_INTENT_FLOWS
      invariant forall j :: 0 <= j < k ==> flows[j] == cs[j].flow && paths[j] == cs[j].path
    {
      flows := flows + [cs[k].flow];
      if |paths| < MAX_INTENT_PATHS {
        paths := paths + [cs[k].path];
      }
      k := k + 1;
    }
    assert |Take(cs, MAX_INTENT_FLOWS)| == k;
    assert paths == PathsOf(Take(cs, MAX_INTENT_FLOWS));
    assert flows == FlowsOf(Take(cs, MAX_INTENT_FLOWS));
  }

  method SeeDrops(ps: seq<Pressure>) returns (seen: bool)
    ensures seen == DropsSeen(ps)
  {
    for k := 0 to |ps|
      invariant forall j :: 0 <= j < k ==> !(ps[j].saturated && ps[j].drops > 0)
    {
      if ps[k].saturated && ps[k].drops > 0 {
        return true;
      }
    }
    seen := false;
  }

  method KnowScope(c: TopologyContent, ids: seq<U64>) returns (known: bool)
    ensures known == ScopeKnown(c, ids)
  {
    hide HasResource;
    for k := 0 to |ids|
      invariant forall j :: 0 <= j < k ==> HasResource(c.resources, ids[j])
    {
      if !HasResource(c.resources, ids[k]) {
        return false;
      }
    }
    known := true;
  }

  method MakeDraft(g: Ground, h: Hotspot, k: Kind) returns (d: Option<Draft>)
    ensures d == DraftOf(g, h, k)
  {
    hide WithTargets, PathsOf, FlowsOf, DropsSeen, Take;
    var usable := h.blame.confidence >= g.th.minAttributionPpm && |h.blame.contributors| > 0;
    var resources, paths, flows, delta := h.extent.resources, [], [], 0;
    match k {
      case FlowRelocation =>
        if g.budget.requireAttribution && !usable {
          return None;
        }
        resources := AppendTargets(resources, h.extent.healthy);
        if usable {
          paths, flows := NameContributors(h.blame.contributors);
        }
      case PathRebalance =>
        if !usable {
          return None;
        }
        paths, flows := NameContributors(h.blame.contributors);
      case RatePacingChange =>
        var target := g.th.saturationPpm;
        var excess := if h.extent.peakUtilization > target then h.extent.peakUtilization - target else 0;
        if excess == 0 {
          excess := if h.extent.peakPressure > target then h.extent.peakPressure - target else 0;
        }
        if excess == 0 {
          return None;
        }
        delta := 0 - Min(excess, g.budget.maxRateDelta);
      case ResourceIsolation =>
        var seen := SeeDrops(g.pressures);
        if !seen {
          return None;
        }
      case _ =>
    }
    d := Some(Draft(resources, paths, flows, delta));
  }

  /** Draft, then validate one kind. */
  method Attempted(g: Ground, h: Hotspot, k: Kind, planShare: U32) returns (t: Attempt)
    ensures t == Try(g, h, k, planShare)
  {
    hide DraftOf, Canonical, ScopeKnown, ShareOf, SizeOk;
    if !Allows(g.budget, k) {
      return Unfit;
    }
    var draft := MakeDraft(g, h, k);
    if draft.None? {
      return Unfit;
    }
    var d := Canonical(draft.value);
    if !SizeOk(g.budget, d) {
      return Unfit;
    }
    var known := KnowScope(g.topology, d.resources);
    if !known {
      return Unfit;
    }
    var share := ComputeShare(g.capacity, d.resources, g.fabric);
    if share > g.budget.maxScopeShare {
      return Unfit;
    }
    if planShare + share > g.budget.maxPlanShare {
      return OverPlan;
    }
    t := Fits(Intent(k, Some(h.id), h.scope, d.resources, d.paths, d.flows, d.rateDelta, share));
  }

  /** The candidate loop of one hotspot. */
  method TryKinds(g: Ground, h: Hotspot, plan0: Plan, kinds: seq<Kind>) returns (plan: Plan, emitted: bool)
    ensures Step(plan, emitted) == AfterKinds(g, h, plan0, kinds)
  {
    hide Try, Note;
    plan, emitted := plan0, false;
    for k := 0 to |kinds|
      invariant Step(plan, emitted) == AfterKinds(g, h, plan0, kinds[..k])
    {
      assert kinds[..k + 1][..k] == kinds[..k];
      if emitted {
        plan := NoteSuppression(plan, Suppression(kinds[k], Some(h.id)));
        continue;
      }
      var t := Attempted(g, h, kinds[k], plan.share);
      match t {
        case Unfit =>
          plan := NoteSuppression(plan, Suppression(kinds[k], Some(h.id)));
        case OverPlan =>
          var rejected := plan.rejected + 1;
          plan := NoteSuppression(plan, Suppression(kinds[k], Some(h.id)));
          plan := plan.(rejected := rejected);
        case Fits(intent) =>
          FitsWithinPlan(g, h, kinds[k], plan.share);
          plan := plan.(share := plan.share + intent.share, intents := plan.intents + [intent]);
          emitted := true;
      }
    }
    assert kinds[..|kinds|] == kinds;
  }

  /** The loop over confirmed hotspots. */
  method PlanHotspots(g: Ground, hs: seq<Hotspot>) returns (plan: Plan)
    ensures plan == PlanAll(g, hs)
  {
    hide AfterKinds, Note, Priority;
    plan := EMPTY_PLAN;
    for k := 0 to |hs|
      invariant plan == PlanAll(g, hs[..k])
    {
      assert hs[..k + 1][..k] == hs[..k];
      var h := hs[k];
      var rejected := plan.rejected + 1;
      if h.remediation != Eligible {
        plan := NoteSuppression(plan, Suppression(AdmissionReduction, Some(h.id)));
        continue;
      }
      if |plan.intents| >= g.budget.maxIntents {
        plan := NoteSuppression(plan, Suppression(AdmissionReduction, Some(h.id)));
        plan := plan.(rejected := rejected);
        continue;
      }
      var emitted;
      plan, emitted := TryKinds(g, h, plan, Priority(h.cause));
      if !emitted {
        rejected := plan.rejected + 1;
        plan := NoteSuppression(plan, Suppression(NoKind, Some(h.id)));
        plan := plan.(rejected := rejected);
      }
    }
    assert hs[..|hs|] == hs;
  }

  /** plan_interventions, refining its specification. */
  method PlanInterventions(a: Assessment, topology: Option<TopologyContent>, capacity: Option<seq<CapacityEntry>>,
                           policy: Option<Policy>, now: Millis) returns (plan: Plan)
    ensures plan == PlanFor(a, topology, capacity, policy, now)
  {
    hide PlanAll, Note, Expired;
    if topology.None? || (a.binding.topology.Some? && a.binding.topology != topology)
       || policy.None? || Expired(policy.value, now) {
      return EMPTY_PLAN;
    }
    var budget := policy.value.budget;
    if a.escalation {
      plan := EMPTY_PLAN;
      for k := 0 to |a.hotspots|
        invariant plan == NoteWithheld(a.hotspots[..k])
      {
        assert a.hotspots[..k + 1][..k] == a.hotspots[..k];
        if a.hotspots[k].remediation == Eligible {
          plan := NoteSuppression(plan, Suppression(AdmissionReduction, Some(a.hotspots[k].id)));
        }
      }
      assert a.hotspots[..|a.hotspots|] == a.hotspots;
      if budget.allowEscalation {
        var first := if |a.hotspots| == 0 then None else Some(a.hotspots[0].id);
        plan := plan.(intents := [Intent(EscalateGlobalCongestion, first, a.scope, [], [], [], 0, 0)]);
      } else {
        plan := NoteSuppression(plan, Suppression(EscalateGlobalCongestion, None));
      }
      return;
    }
    plan := PlanHotspots(GroundOf(a, topology.value, capacity, policy.value), a.hotspots);
  }
}
