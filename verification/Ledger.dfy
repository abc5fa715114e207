/** The durable record of decisions (src/governor.cpp): confirmed hotspots by
    identity, the oldest dropped when full, and the latest interventions. */
module DecisionLedger {
  import opened Base
  import opened Detection
  import opened Intervention
  import opened DurableSnapshot

  /** What an entry says that no decision reads: hashed identities, severity. */
  datatype Labels = Labels(hotspot: HotspotId -> U64, intent: Intent -> U64, severity: Hotspot -> U8)

  // ----- entries ----------------------------------------------------------------------

  function HexDigit(d: nat): Byte
    requires d < 16
  {
    if d < 10 then 0x30 + d else 0x61 + (d - 10)
  }

  /** Lower-case hexadecimal, the given number of digits. */
  function Hex(x: nat, digits: nat): (b: Bytes)
    ensures |b| == digits
    decreases digits
  {
    if digits == 0 then [] else Hex(x / 16, digits - 1) + [HexDigit(x % 16)]
  }

  function KeyOf(id: U64): (b: Bytes)
    ensures |b| == 19
  {
    [0x68, 0x73, 0x2D] + Hex(id, 16)
  }

  function CauseCode(c: Cause): U8 {
    match c
    case UnknownCause => 0
    case CapacityExhaustion => 1
    case QueueBuildup => 2
    case BufferExhaustion => 3
    case Microburst => 4
    case FanInContention => 5
    case StructuralConvergence => 6
  }

  function KindCode(k: Kind): U8 {
    match k
    case NoKind => 0
    case FlowRelocation => 1
    case PathRebalance => 2
    case AdmissionReduction => 3
    case RatePacingChange => 4
    case ResourceIsolation => 5
    case EscalateGlobalCongestion => 6
  }

  function EntryOf(l: Labels, h: Hotspot, now: Millis): DurableHotspot {
    var id := l.hotspot(h.id);
    DurableHotspot(id, KeyOf(id), Rank(h.scope), l.severity(h), CauseCode(h.cause),
                   ElapsedMs(h.extent.first, now), now, Min(h.extent.count, U64_MAX))
  }

  function InterventionFor(l: Labels, i: Intent, now: Millis): DurableIntervention {
    DurableIntervention(l.intent(i), KindCode(i.kind), if i.hotspot.Some? then l.hotspot(i.hotspot.value) else 0, now,
                        i.share, i.kind == EscalateGlobalCongestion)
  }

  function EntriesFor(l: Labels, hs: seq<Hotspot>, now: Millis): (r: seq<DurableHotspot>)
    ensures |r| == |hs| && forall k :: 0 <= k < |hs| ==> r[k] == EntryOf(l, hs[k], now)
  {
    seq(|hs|, k requires 0 <= k < |hs| => EntryOf(l, hs[k], now))
  }

  function InterventionsFor(l: Labels, is': seq<Intent>, now: Millis): (r: seq<DurableIntervention>)
    ensures |r| == |is'| && forall k :: 0 <= k < |is'| ==> r[k] == InterventionFor(l, is'[k], now)
  {
    seq(|is'|, k requires 0 <= k < |is'| => InterventionFor(l, is'[k], now))
  }

  // ----- recording -----------------------------------------------------------------------

  /** std::find_if by identity. */
  function PlaceOf(es: seq<DurableHotspot>, id: U64): (r: Option<nat>)
    ensures r.Some? ==> r.value < |es| && es[r.value].id == id
    ensures r.None? ==> forall k :: 0 <= k < |es| ==> es[k].id != id
  {
    if |es| == 0 then None
    else
      var r := PlaceOf(es[..|es| - 1], id);
      if r.Some? then r else if es[|es| - 1].id == id then Some(|es| - 1) else None
  }

  function Limit(maxHistory: nat): nat { Min(maxHistory, MAX_DURABLE_HOTSPOTS) }

  /** One confirmed hotspot: its entry is replaced, or appended after dropping the
      oldest when full. None: the code would drop from an empty vector. */
  function Record(es: seq<DurableHotspot>, e: DurableHotspot, limit: nat): Option<seq<DurableHotspot>> {
    var at := PlaceOf(es, e.id);
    if at.Some? then Some(es[at.value := e])
    else if |es| < limit then Some(es + [e])
    else if |es| == 0 then None
    else Some(es[1..] + [e])
  }

  function RecordAll(es: seq<DurableHotspot>, more: seq<DurableHotspot>, limit: nat): Option<seq<DurableHotspot>> {
    if |more| == 0 then Some(es)
    else
      var before := RecordAll(es, more[..|more| - 1], limit);
      if before.None? then None else Record(before.value, more[|more| - 1], limit)
  }

  /** The latest interventions, as many as are kept. */
  function Latest(ns: seq<DurableIntervention>): (r: seq<DurableIntervention>)
    ensures |r| == Min(|ns|, MAX_DURABLE_INTERVENTIONS) && r == ns[|ns| - |r|..]
  {
    if |ns| > MAX_DURABLE_INTERVENTIONS then ns[|ns| - MAX_DURABLE_INTERVENTIONS..] else ns
  }

  function Recorded(l: Labels, d: DurableState, a: Assessment, plan: Plan, now: Millis,
      maxHistory: nat): Option<DurableState> {
    var hotspots := RecordAll(d.hotspots, EntriesFor(l, a.hotspots, now), Limit(maxHistory));
    if hotspots.None? then None
    else Some(d.(hotspots := hotspots.value,
        interventions := Latest(d.interventions + InterventionsFor(l, plan.intents, now))))
  }

  // ----- when recording is defined ------------------------------------------------------------

  lemma {:induction false} RecordAllDefined(es: seq<DurableHotspot>, more: seq<DurableHotspot>, limit: nat)
    ensures RecordAll(es, more, limit).Some? <==> limit > 0 || es != [] || more == []
    ensures RecordAll(es, more, limit).Some? && (es != [] || more != []) ==> RecordAll(es, more, limit).value != []
  {
    if |more| == 0 {
      assert RecordAll(es, more, limit) == Some(es);
    } else {
      RecordAllDefined(es, more[..|more| - 1], limit);
    }
  }

  /** Recording a decision is defined exactly when a history of some length is
      allowed, or something is recorded already, or nothing was confirmed:
      otherwise the code drops the first entry of an empty vector. */
  lemma RecordingDefined(l: Labels, d: DurableState, a: Assessment, plan: Plan, now: Millis, maxHistory: nat)
    ensures Recorded(l, d, a, plan, now, maxHistory).Some? <==> maxHistory > 0 || d.hotspots != [] || a.hotspots == []
  {
    RecordAllDefined(d.hotspots, EntriesFor(l, a.hotspots, now), Limit(maxHistory));
  }

  // ----- what recording keeps -------------------------------------------------------------------

  ghost predicate OnePerIdentity(es: seq<DurableHotspot>) {
    forall i, j :: 0 <= i < j < |es| ==> es[i].id != es[j].id
  }

  ghost predicate KeysBounded(es: seq<DurableHotspot>) {
    forall k :: 0 <= k < |es| ==> |es[k].key| <= MAX_KEY_BYTES
  }

  lemma RecordKeeps(es: seq<DurableHotspot>, e: DurableHotspot, limit: nat)
    requires Record(es, e, limit).Some? && KeysBounded(es) && |e.key| <= MAX_KEY_BYTES
    ensures var r := Record(es, e, limit).value;
            && KeysBounded(r) && |r| <= (if |es| < limit then limit else |es|)
            && (OnePerIdentity(es) ==> OnePerIdentity(r))
            && e in r
  {
    hide PlaceOf;
    var at, r := PlaceOf(es, e.id), Record(es, e, limit).value;
    if at.Some? {
      assert r[at.value] == e;
    } else {
      assert r[|r| - 1] == e;
    }
  }

  lemma {:induction false} RecordAllKeeps(es: seq<DurableHotspot>, more: seq<DurableHotspot>, limit: nat)
    requires RecordAll(es, more, limit).Some? && KeysBounded(es) && KeysBounded(more)
    ensures var r := RecordAll(es, more, limit).value;
            && KeysBounded(r) && |r| <= (if |es| < limit then limit else |es|)
            && (OnePerIdentity(es) ==> OnePerIdentity(r))
            && (more != [] ==> more[|more| - 1] in r)
  {
    hide Record, OnePerIdentity;
    if |more| == 0 {
      assert RecordAll(es, more, limit) == Some(es);
    } else {
      var init, last := more[..|more| - 1], more[|more| - 1];
      RecordAllKeeps(es, init, limit);
      RecordKeeps(RecordAll(es, init, limit).value, last, limit);
    }
  }

  /** What a recorded decision leaves is always something commit accepts: bounded
      counts and keys, and one entry per identity when there was one before. */
  lemma RecordingValidated(l: Labels, d: DurableState, a: Assessment, plan: Plan, now: Millis, maxHistory: nat)
    requires Validated(d) && Recorded(l, d, a, plan, now, maxHistory).Some?
    ensures var r := Recorded(l, d, a, plan, now, maxHistory).value;
            && Validated(r) && (OnePerIdentity(d.hotspots) ==> OnePerIdentity(r.hotspots))
            && (a.hotspots != [] ==> EntryOf(l, a.hotspots[|a.hotspots| - 1], now) in r.hotspots)
            && r == d.(hotspots := r.hotspots, interventions := r.interventions)
  {
    hide RecordAll, OnePerIdentity, EntryOf;
    var more := EntriesFor(l, a.hotspots, now);
    forall k | 0 <= k < |more| ensures |more[k].key| <= MAX_KEY_BYTES {
      EntryKey(l, a.hotspots[k], now);
    }
    RecordAllKeeps(d.hotspots, more, Limit(maxHistory));
  }

  lemma EntryKey(l: Labels, h: Hotspot, now: Millis)
    ensures |EntryOf(l, h, now).key| == 19
  {
  }

  datatype Decision = Decision(assessment: Assessment, plan: Plan, now: Millis)

  ghost function RecordRun(l: Labels, d: DurableState, ds: seq<Decision>, maxHistory: nat): Option<DurableState> {
    if |ds| == 0 then Some(d)
    else
      var before, last := RecordRun(l, d, ds[..|ds| - 1], maxHistory), ds[|ds| - 1];
      if before.None? then None else Recorded(l, before.value, last.assessment, last.plan, last.now, maxHistory)
  }

  /** Over every run of decisions, starting from a state commit accepts, recording
      stays defined and the state stays acceptable, as long as a history of some
      length is allowed. */
  lemma {:induction false} RunValidated(l: Labels, d: DurableState, ds: seq<Decision>, maxHistory: nat)
    requires Validated(d) && OnePerIdentity(d.hotspots) && maxHistory > 0
    ensures var r := RecordRun(l, d, ds, maxHistory);
            r.Some? && Validated(r.value) && OnePerIdentity(r.value.hotspots)
  {
    hide Recorded, OnePerIdentity, Validated;
    if |ds| == 0 {
      assert RecordRun(l, d, ds, maxHistory) == Some(d);
    } else {
      var last := ds[|ds| - 1];
      RunValidated(l, d, ds[..|ds| - 1], maxHistory);
      var before := RecordRun(l, d, ds[..|ds| - 1], maxHistory).value;
      RecordingDefined(l, before, last.assessment, last.plan, last.now, maxHistory);
      RecordingValidated(l, before, last.assessment, last.plan, last.now, maxHistory);
    }
  }

  // ----- the loops ---------------------------------------------------------------------------------

  /** std::find_if. */
  method FindEntry(es: seq<DurableHotspot>, id: U64) returns (at: nat)
    ensures at <= |es| && (at < |es| ==> es[at].id == id) && forall k :: 0 <= k < at ==> es[k].id != id
  {
    at := 0;
    while at < |es| && es[at].id != id
      invariant at <= |es| && forall k :: 0 <= k < at ==> es[k].id != id
    {
      at := at + 1;
    }
  }

  lemma {:induction false} FirstPlace(es: seq<DurableHotspot>, id: U64, at: nat)
    requires at <= |es| && (at < |es| ==> es[at].id == id) && forall k :: 0 <= k < at ==> es[k].id != id
    ensures PlaceOf(es, id) == if at < |es| then Some(at) else None
  {
    if |es| == 0 {
      assert PlaceOf(es, id) == None;
    } else {
      FirstPlace(es[..|es| - 1], id, if at < |es| then Min(at, |es| - 1) else |es| - 1);
    }
  }

  /** One confirmed hotspot, where recording it is defined. */
  method RecordOne(es: seq<DurableHotspot>, e: DurableHotspot, limit: nat) returns (r: seq<DurableHotspot>)
    requires limit > 0 || es != []
    ensures Some(r) == Record(es, e, limit)
  {
    hide PlaceOf;
    var at := FindEntry(es, e.id);
    FirstPlace(es, e.id, at);
    if at < |es| {
      r := es[at := e];
    } else {
      r := es;
      if |r| >= limit {
        r := r[1..];
      }
      r := r + [e];
    }
  }

  method RecordHotspots(l: Labels, es: seq<DurableHotspot>, hs: seq<Hotspot>, now: Millis, limit: nat)
    returns (r: seq<DurableHotspot>)
    requires limit > 0 || es != [] || hs == []
    ensures Some(r) == RecordAll(es, EntriesFor(l, hs, now), limit)
  {
    hide Record, EntryOf;
    ghost var entries := EntriesFor(l, hs, now);
    r := es;
    for k := 0 to |hs|
      invariant RecordAll(es, entries[..k], limit) == Some(r)
    {
      RecordAllDefined(es, entries[..k], limit);
      r := RecordOne(r, EntryOf(l, hs[k], now), limit);
      assert entries[..k + 1][..k] == entries[..k];
    }
    assert entries[..|entries|] == entries;
  }

  /** record_decision, where it is defined. */
  method RecordDecision(l: Labels, d: DurableState, a: Assessment, plan: Plan, now: Millis, maxHistory: nat)
    returns (r: DurableState)
    requires maxHistory > 0 || d.hotspots != [] || a.hotspots == []
    ensures Some(r) == Recorded(l, d, a, plan, now, maxHistory)
  {
    hide RecordAll, InterventionFor;
    var hotspots := RecordHotspots(l, d.hotspots, a.hotspots, now, Limit(maxHistory));
    var more: seq<DurableIntervention> := [];
    for k := 0 to |plan.intents|
      invariant |more| == k && forall j :: 0 <= j < k ==> more[j] == InterventionFor(l, plan.intents[j], now)
    {
      more := more + [InterventionFor(l, plan.intents[k], now)];
    }
    assert more == InterventionsFor(l, plan.intents, now);
    r := d.(hotspots := hotspots, interventions := Latest(d.interventions + more));
  }
}
