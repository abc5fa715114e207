/** Detection and planning together (src/detection.cpp, src/intervention.cpp):
    local mitigation covers its whole hotspot and never coexists with broken
    locality. */
module Locality {
  import opened Base
  import opened Model
  import opened Ordering
  import opened Checked
  import opened TopologyIndex
  import opened Classification
  import opened SaturationHistory
  import opened SaturatedComponents
  import opened SaturationSearch
  import opened Detection
  import opened DetectionTheorems
  import opened Intervention

  // ----- the whole hotspot -----------------------------------------------------------

  lemma DistinctFits(a: seq<U64>, b: seq<U64>)
    requires Distinct(a) && Ascending(b) && forall k :: 0 <= k < |a| ==> a[k] in b
    ensures |a| <= |b|
  {
    AscendingCardinality(b);
    DistinctWithin(a, set x | x in b);
  }

  /** A draft starts from the listed resources and adds healthy neighbours only. */
  lemma DraftResources(g: Ground, h: Hotspot, k: Kind)
    requires DraftOf(g, h, k).Some?
    ensures var r := DraftOf(g, h, k).value.resources;
            && h.extent.resources <= r
            && forall x :: x in r ==> x in h.extent.resources || x in h.extent.healthy
  {
    hide PathsOf, FlowsOf, DropsSeen, AttributionUsable, RateExcess;
    var own, targets := h.extent.resources, h.extent.healthy;
    if |own| < MAX_INTENT_RESOURCES {
      var some := Take(targets, MAX_INTENT_RESOURCES - |own|);
      assert forall x :: x in some ==> x in targets;
    }
  }

  ghost predicate Covers(resources: seq<U64>, m: seq<Reading>, healthy: seq<U64>) {
    && (forall k :: 0 <= k < |m| ==> m[k].id in resources)
    && (forall x :: x in resources ==> x in healthy || exists k :: 0 <= k < |m| && m[k].id == x)
  }

  lemma FittingDraft(g: Ground, h: Hotspot, k: Kind, planShare: U32)
    requires Try(g, h, k, planShare).Fits?
    ensures DraftOf(g, h, k).Some?
    ensures Try(g, h, k, planShare).intent.resources == UniqueIds(DraftOf(g, h, k).value.resources)
    ensures |Try(g, h, k, planShare).intent.resources| <= MAX_INTENT_RESOURCES
  {
    hide DraftOf, UniqueIds, ScopeKnown, ShareOf;
  }

  /** What is listed survives into the canonical draft, so it fits the bound. */
  lemma ListedFits(listed: seq<U64>, draft: seq<U64>)
    requires Distinct(listed) && listed <= draft && |UniqueIds(draft)| <= MAX_INTENT_RESOURCES
    ensures |listed| <= MAX_INTENT_RESOURCES
    ensures forall j :: 0 <= j < |listed| ==> listed[j] in UniqueIds(draft)
  {
    hide SortedUnique;
    var final := UniqueIds(draft);
    forall j | 0 <= j < |listed| ensures listed[j] in final {
      assert draft[j] == listed[j];
    }
    DistinctFits(listed, final);
  }

  lemma DraftMember(draft: seq<U64>, x: int)
    ensures x in UniqueIds(draft) <==> x in draft
  {
  }

  lemma DraftCovers(m: seq<Reading>, healthy: seq<U64>, draft: seq<U64>)
    requires Distinct(IdsOf(m)) && Take(IdsOf(m), MAX_HOTSPOT_RESOURCES) <= draft
    requires forall x :: x in draft ==> x in Take(IdsOf(m), MAX_HOTSPOT_RESOURCES) || x in healthy
    requires |UniqueIds(draft)| <= MAX_INTENT_RESOURCES
    ensures |m| <= MAX_INTENT_RESOURCES
    ensures Covers(UniqueIds(draft), m, healthy)
  {
    hide UniqueIds;
    var ids, final := IdsOf(m), UniqueIds(draft);
    ListedFits(Take(ids, MAX_HOTSPOT_RESOURCES), draft);
    assert Take(ids, MAX_HOTSPOT_RESOURCES) == ids;
    forall x | x in final ensures x in healthy || exists j :: 0 <= j < |m| && m[j].id == x {
      DraftMember(draft, x);
      if x in ids {
        var j :| 0 <= j < |ids| && ids[j] == x;
        assert m[j].id == x;
      }
    }
    assert forall j :: 0 <= j < |m| ==> ids[j] == m[j].id;
  }

  /** An intent's resources are the entire component and nothing beyond it and
      its healthy neighbours: a component too large to be listed in full exceeds
      the hard bound and gets no intent. */
  lemma IntentCoversHotspot(g: Ground, s: Scene, m: seq<Reading>, k: Kind, planShare: U32)
    requires Distinct(IdsOf(m)) && Try(g, HotspotOf(s, m), k, planShare).Fits?
    ensures |m| <= MAX_INTENT_RESOURCES
    ensures Covers(Try(g, HotspotOf(s, m), k, planShare).intent.resources, m, HotspotOf(s, m).extent.healthy)
  {
    var h := HotspotOf(s, m);
    hide HotspotOf, Try, DraftOf, UniqueIds, Covers, IdsOf, Take, Distinct;
    ListedResources(s, m);
    FittingDraft(g, h, k, planShare);
    DraftResources(g, h, k);
    DraftCovers(m, h.extent.healthy, DraftOf(g, h, k).value.resources);
  }

  lemma ListedResources(s: Scene, m: seq<Reading>)
    ensures HotspotOf(s, m).extent.resources == Take(IdsOf(m), MAX_HOTSPOT_RESOURCES)
  {
    hide BlameFrom, TallyOf, HealthyAround, RegionsOf, LatestFirst, FewestSamples, Peak, UniqueIds, ScopeOf, CauseOf;
  }

  lemma ComponentIdsDistinct(s: Scene, k: nat)
    requires ValidScene(s) && k < |ComponentsOf(s)| && Within(ComponentsOf(s), |s.readings|)
    ensures Distinct(IdsOf(Pick(s.readings, ComponentsOf(s)[k])))
  {
    hide ValidTopology, Nested, CensusOf, ComponentsOf, Joined;
    ComponentClass(s, k);
    var c := ComponentsOf(s)[k];
    var ids := IdsOf(Pick(s.readings, c));
    forall i, j | 0 <= i < j < |ids| ensures ids[i] != ids[j] {
      ResourcesDiffer(s.topology, c[i], c[j]);
    }
  }

  // ----- locality ---------------------------------------------------------------------------

  function ContentOf(e: Evidence): Option<TopologyContent> {
    if e.topology.Some? then Some(e.topology.value.content) else None
  }

  function EntriesOf(e: Evidence): Option<seq<CapacityEntry>> {
    if e.capacity.Some? then Some(e.capacity.value.entries) else None
  }

  /** What an evaluation decides: detect, then plan on the same evidence. */
  ghost function Decide(i: Input, h: Option<History>): Plan
    requires ValidInput(i)
  {
    PlanFor(Detect(i, h), ContentOf(i.evidence), EntriesOf(i.evidence), i.evidence.policy, i.now)
  }

  predicate IsLocal(i: Intent) { i.kind != EscalateGlobalCongestion }

  lemma {:induction false} WithheldHasNoIntents(hs: seq<Hotspot>)
    ensures NoteWithheld(hs).intents == []
  {
    if |hs| == 0 {
    } else {
      WithheldHasNoIntents(hs[..|hs| - 1]);
    }
  }

  /** When escalation is required the plan holds at most the single escalation
      intent, which touches no resource. */
  lemma EscalationIsAlone(i: Input, h: Option<History>)
    requires ValidInput(i) && Detect(i, h).escalation
    ensures |Decide(i, h).intents| <= 1
    ensures forall a :: 0 <= a < |Decide(i, h).intents| ==>
      !IsLocal(Decide(i, h).intents[a]) && Decide(i, h).intents[a].resources == []
  {
    hide Detect, Expired;
    WithheldHasNoIntents(Detect(i, h).hotspots);
  }

  /** A plan with a local intent was planned hotspot by hotspot. */
  lemma LocalPlan(i: Input, h: Option<History>, a: nat)
    requires ValidInput(i) && a < |Decide(i, h).intents| && IsLocal(Decide(i, h).intents[a])
    ensures PolicyLive(i.evidence, i.now) && !Detect(i, h).escalation && i.evidence.topology.Some?
    ensures Decide(i, h)
            == PlanAll(GroundOf(Detect(i, h), i.evidence.topology.value.content, EntriesOf(i.evidence),
                i.evidence.policy.value),
                       Detect(i, h).hotspots)
  {
    hide Detect, Expired;
    if Detect(i, h).escalation {
      EscalationIsAlone(i, h);
    }
  }

  lemma DetectAdmitted(i: Input, h: Option<History>)
    requires ValidInput(i) && |Detect(i, h).hotspots| > 0
    ensures Refusal(i).None? && ValidScene(SceneOf(i, h))
        && Within(ComponentsOf(SceneOf(i, h)), |SceneOf(i, h).readings|)
    ensures Detect(i, h) == Conclude(SceneOf(i, h), FileAll(Hotspots(SceneOf(i, h), ComponentsOf(SceneOf(i, h)))))
  {
    if Refusal(i).None? {
      SceneIsValid(i, h);
      ComponentsWithin(SceneOf(i, h));
    }
    hide Refusal, ValidScene, ComponentsOf, FileAll, Hotspots, Conclude, SceneOf;
  }

  /** Without escalation no confirmed hotspot is global and the saturated share
      of the fabric is below the global threshold. */
  lemma NoEscalationMeansLocality(s: Scene, r: Report)
    requires !Conclude(s, r).escalation && |r.hotspots| > 0
    ensures forall j :: 0 <= j < |r.hotspots| ==> r.hotspots[j].scope != Global
    ensures Conclude(s, r).globalShare < s.th.globalSharePpm
  {
    hide Widest, Ppm;
    QuietVerdict(r.hotspots);
  }

  ghost function RegionSet(m: seq<Reading>): set<int> { set k | 0 <= k < |m| :: m[k].region }

  lemma RegionCount(m: seq<Reading>)
    requires |m| <= MAX_REGIONS
    ensures |RegionSet(m)| == |RegionsOf(m)|
  {
    hide RegionsOf;
    RegionsComplete(m);
    AscendingCardinality(RegionsOf(m));
    var listed := set x | x in RegionsOf(m);
    forall x ensures x in listed <==> x in RegionSet(m) {
      if x in RegionSet(m) {
        var k :| 0 <= k < |m| && m[k].region == x;
        assert x in RegionsOf(m);
      }
    }
    assert listed == RegionSet(m);
  }

  /** What a local intent stands for. */
  ghost predicate LocalIntentOk(s: Scene, i: Intent, m: seq<Reading>) {
    var h := HotspotOf(s, m);
    && i.hotspot == Some(h.id) && h.persistent && (h.scope == Localized || h.scope == Regional)
    && |RegionSet(m)| <= s.th.maxRegionalRegions && h.extent.share < s.th.globalSharePpm
    && Covers(i.resources, m, h.extent.healthy)
  }

  lemma FitMeansLocal(g: Ground, s: Scene, m: seq<Reading>, kind: Kind, planShare: U32)
    requires Distinct(IdsOf(m)) && HotspotOf(s, m).remediation == Eligible
    requires Try(g, HotspotOf(s, m), kind, planShare).Fits?
    ensures LocalIntentOk(s, Try(g, HotspotOf(s, m), kind, planShare).intent, m)
  {
    IntentCoversHotspot(g, s, m, kind, planShare);
    EligibleMeaning(s, m);
    RegionCount(m);
    ListedRegions(s, m);
    FitsWithinPlan(g, HotspotOf(s, m), kind, planShare);
    hide HotspotOf, Try, IdsOf, RegionSet, RegionsOf, Covers;
  }

  lemma ListedRegions(s: Scene, m: seq<Reading>)
    ensures HotspotOf(s, m).extent.regions == RegionsOf(m)
  {
    hide BlameFrom, TallyOf, HealthyAround, RegionsOf, LatestFirst, FewestSamples, Peak, UniqueIds, ScopeOf, CauseOf;
  }

  lemma OriginOf(g: Ground, hs: seq<Hotspot>, a: nat) returns (j: nat, kind: Kind, planShare: U32)
    requires a < |PlanAll(g, hs).intents|
    ensures j < |hs| && hs[j].remediation == Eligible
    ensures Try(g, hs[j], kind, planShare).Fits? && PlanAll(g, hs).intents[a] == Try(g, hs[j], kind, planShare).intent
  {
    IntentsAreFirstFits(g, hs);
    hide PlanAll, Try, Priority, Origins;
    j := Origins(g, hs)[a];
    planShare := PlanAll(g, hs[..j]).share;
    var k: nat :| IsFirstFit(g, hs[j], Priority(hs[j].cause), planShare, k)
      && PlanAll(g, hs).intents[a] == Try(g, hs[j], Priority(hs[j].cause)[k], planShare).intent;
    kind := Priority(hs[j].cause)[k];
  }

  /** Through detect and plan, a local intent implies a policy in force, a persistent
      Localized or Regional hotspot within the allowed regions which it covers
      entirely, no confirmed Global hotspot, and a saturated share of the fabric
      below the global threshold. */
  lemma LocalIntentMeansLocality(i: Input, h: Option<History>, a: nat) returns (k: nat)
    requires ValidInput(i) && a < |Decide(i, h).intents| && IsLocal(Decide(i, h).intents[a])
    ensures i.evidence.policy.Some? && InForce(i.evidence.policy.value, i.now) && Refusal(i).None?
    ensures forall j :: 0 <= j < |Detect(i, h).hotspots| ==> Detect(i, h).hotspots[j].scope != Global
    ensures Detect(i, h).globalShare < i.evidence.policy.value.thresholds.globalSharePpm
    ensures var s := SceneOf(i, h);
            && |s.readings| == |s.topology.resources| && Within(ComponentsOf(s), |s.readings|)
            && k < |ComponentsOf(s)|
            && LocalIntentOk(s, Decide(i, h).intents[a], Pick(s.readings, ComponentsOf(s)[k]))
  {
    LocalPlan(i, h, a);
    ExpiredExactly(i.evidence.policy.value, i.now);
    var d := Detect(i, h);
    var g := GroundOf(d, i.evidence.topology.value.content, EntriesOf(i.evidence), i.evidence.policy.value);
    hide Decide, Try, PlanAll;
    var j, kind, planShare := OriginOf(g, d.hotspots, a);
    DetectAdmitted(i, h);
    hide Detect, Refusal;
    var s := SceneOf(i, h);
    var r := FileAll(Hotspots(s, ComponentsOf(s)));
    NoEscalationMeansLocality(s, r);
    k := ConfirmedComponent(s, j);
    ComponentIdsDistinct(s, k);
    FitMeansLocal(g, s, Pick(s.readings, ComponentsOf(s)[k]), kind, planShare);
  }

  // ----- at most one intent per hotspot -------------------------------------------------------

  lemma IntentOwner(g: Ground, hs: seq<Hotspot>, a: nat)
    requires a < |PlanAll(g, hs).intents|
    ensures |Origins(g, hs)| == |PlanAll(g, hs).intents| && Ascending(Origins(g, hs)) && Origins(g, hs)[a] < |hs|
    ensures PlanAll(g, hs).intents[a].hotspot == Some(hs[Origins(g, hs)[a]].id)
  {
    IntentsAreFirstFits(g, hs);
    hide PlanAll, Try, Priority, Origins;
    var j := Origins(g, hs)[a];
    var planShare := PlanAll(g, hs[..j]).share;
    var k: nat :| IsFirstFit(g, hs[j], Priority(hs[j].cause), planShare, k)
      && PlanAll(g, hs).intents[a] == Try(g, hs[j], Priority(hs[j].cause)[k], planShare).intent;
    FitsWithinPlan(g, hs[j], Priority(hs[j].cause)[k], planShare);
  }

  lemma PlannedByHotspot(i: Input, h: Option<History>)
    requires ValidInput(i) && |Decide(i, h).intents| > 1
    ensures i.evidence.topology.Some? && i.evidence.policy.Some? && !Detect(i, h).escalation
    ensures Decide(i, h)
            == PlanAll(GroundOf(Detect(i, h), i.evidence.topology.value.content, EntriesOf(i.evidence),
                i.evidence.policy.value),
                       Detect(i, h).hotspots)
  {
    hide Detect, Expired;
    WithheldHasNoIntents(Detect(i, h).hotspots);
  }

  lemma ConfirmedDiffer(i: Input, h: Option<History>, x: nat, y: nat)
    requires ValidInput(i) && x < y < |Detect(i, h).hotspots|
    ensures Detect(i, h).hotspots[x].id != Detect(i, h).hotspots[y].id
  {
    DetectAdmitted(i, h);
    hide Detect, Refusal, ValidScene, ComponentsOf, Hotspots, FileAll;
    ConfirmedIdentitiesDiffer(SceneOf(i, h), x, y);
  }

  /** No hotspot gets two intents: the intents of one decision name different
      hotspots. */
  lemma OneIntentPerHotspot(i: Input, h: Option<History>, a: nat, b: nat)
    requires ValidInput(i) && a < b < |Decide(i, h).intents|
    ensures Decide(i, h).intents[a].hotspot != Decide(i, h).intents[b].hotspot
  {
    PlannedByHotspot(i, h);
    hide Detect, Decide, PlanAll, Origins;
    var d := Detect(i, h);
    var g := GroundOf(d, i.evidence.topology.value.content, EntriesOf(i.evidence), i.evidence.policy.value);
    IntentOwner(g, d.hotspots, a);
    IntentOwner(g, d.hotspots, b);
    ConfirmedDiffer(i, h, Origins(g, d.hotspots)[a], Origins(g, d.hotspots)[b]);
  }
}
