/** What the durable record holds after any run of decisions (src/governor.cpp):
    the identities that entered last, in the order they entered, each with its
    latest entry, and the latest interventions. */
module LedgerTheorems {
  import opened Base
  import opened Totals
  import opened Ordering
  import opened Classification
  import opened Detection
  import opened Intervention
  import opened DurableSnapshot
  import opened DecisionLedger

  // ----- the simple form -----------------------------------------------------------------

  /** The identity is among the last of these recordings, as many as are kept. */
  ghost predicate Holds(es: seq<DurableHotspot>, at: seq<nat>, limit: nat, id: U64) {
    exists j :: 0 <= j < |at| && |at| - limit <= j && at[j] < |es| && es[at[j]].id == id
  }

  /** The recordings that entered: those whose identity was not among the last ones
      to have entered, as many as are kept. */
  ghost function Entered(es: seq<DurableHotspot>, limit: nat): (at: seq<nat>)
    ensures forall k :: 0 <= k < |at| ==> at[k] < |es|
  {
    if |es| == 0 then []
    else
      var init := es[..|es| - 1];
      var at := Entered(init, limit);
      if Holds(init, at, limit, es[|es| - 1].id) then at else at + [|es| - 1]
  }

  /** The latest recording of an identity. */
  function LatestOf(es: seq<DurableHotspot>, id: U64): (r: Option<DurableHotspot>)
    ensures r.Some? ==> r.value in es && r.value.id == id
  {
    if |es| == 0 then None
    else if es[|es| - 1].id == id then Some(es[|es| - 1])
    else LatestOf(es[..|es| - 1], id)
  }

  /** Entries in the order of entering, each as last recorded. */
  ghost predicate IsWindow(es: seq<DurableHotspot>, limit: nat, r: seq<DurableHotspot>) {
    && |r| == Min(|Entered(es, limit)|, limit)
    && (forall k :: 0 <= k < |r| ==> EnteredAs(es, limit, |r| - k, r[k].id))
    && (forall k :: 0 <= k < |r| ==> LatestOf(es, r[k].id) == Some(r[k]))
  }

  /** The n-th last identity to have entered. */
  ghost predicate EnteredAs(es: seq<DurableHotspot>, limit: nat, n: nat, id: U64) {
    var at := Entered(es, limit);
    0 < n <= |at| && es[at[|at| - n]].id == id
  }

  // ----- recording computes it -----------------------------------------------------------------

  lemma HeldIsPlaced(es: seq<DurableHotspot>, limit: nat, r: seq<DurableHotspot>, id: U64)
    requires IsWindow(es, limit, r)
    ensures PlaceOf(r, id).Some? <==> Holds(es, Entered(es, limit), limit, id)
  {
    hide Entered, LatestOf;
    var at := Entered(es, limit);
    if PlaceOf(r, id).Some? {
      var k := PlaceOf(r, id).value;
      assert EnteredAs(es, limit, |r| - k, id);
      assert es[at[|at| - (|r| - k)]].id == id;
    }
    if Holds(es, at, limit, id) {
      var j :| 0 <= j < |at| && |at| - limit <= j && at[j] < |es| && es[at[j]].id == id;
      var k := |r| - (|at| - j);
      assert EnteredAs(es, limit, |r| - k, r[k].id);
      assert r[k].id == id;
    }
  }

  lemma LatestSnoc(es: seq<DurableHotspot>, e: DurableHotspot, id: U64)
    ensures LatestOf(es + [e], id) == if e.id == id then Some(e) else LatestOf(es, id)
  {
    assert (es + [e])[..|es|] == es;
  }

  lemma EnteredSnoc(es: seq<DurableHotspot>, e: DurableHotspot, limit: nat)
    ensures var at := Entered(es, limit);
            Entered(es + [e], limit) == if Holds(es, at, limit, e.id) then at else at + [|es|]
  {
    hide Holds;
    assert (es + [e])[..|es|] == es;
  }

  lemma Earlier(es: seq<DurableHotspot>, e: DurableHotspot, k: nat)
    requires k < |es|
    ensures (es + [e])[k] == es[k]
  {
  }

  lemma EnteredAsSnoc(es: seq<DurableHotspot>, e: DurableHotspot, limit: nat, n: nat, id: U64)
    requires EnteredAs(es, limit, n, id)
    ensures EnteredAs(es + [e], limit, if Holds(es, Entered(es, limit), limit, e.id) then n else n + 1, id)
  {
    hide Holds, Entered;
    EnteredSnoc(es, e, limit);
    Earlier(es, e, Entered(es, limit)[|Entered(es, limit)| - n]);
  }

  /** The identity was recorded already: its entry is replaced where it is. */
  lemma Replaces(es: seq<DurableHotspot>, e: DurableHotspot, limit: nat, r: seq<DurableHotspot>)
    requires IsWindow(es, limit, r) && OnePerIdentity(r) && PlaceOf(r, e.id).Some?
    ensures IsWindow(es + [e], limit, r[PlaceOf(r, e.id).value := e])
  {
    hide Entered, LatestOf, PlaceOf, Holds, EnteredAs;
    HeldIsPlaced(es, limit, r, e.id);
    EnteredSnoc(es, e, limit);
    var p := PlaceOf(r, e.id).value;
    var q := r[p := e];
    forall k | 0 <= k < |q|
      ensures EnteredAs(es + [e], limit, |q| - k, q[k].id) && LatestOf(es + [e], q[k].id) == Some(q[k])
    {
      assert EnteredAs(es, limit, |r| - k, r[k].id);
      EnteredAsSnoc(es, e, limit, |r| - k, r[k].id);
      LatestSnoc(es, e, q[k].id);
    }
  }

  lemma LastEntered(es: seq<DurableHotspot>, e: DurableHotspot, limit: nat)
    requires !Holds(es, Entered(es, limit), limit, e.id)
    ensures EnteredAs(es + [e], limit, 1, e.id)
  {
    hide Holds, Entered;
    EnteredSnoc(es, e, limit);
  }

  /** What is held stays where it is when a new identity enters. */
  lemma StaysBehind(es: seq<DurableHotspot>, e: DurableHotspot, limit: nat, r: seq<DurableHotspot>, j: nat)
    requires IsWindow(es, limit, r) && PlaceOf(r, e.id).None? && j < |r|
    ensures EnteredAs(es + [e], limit, |r| - j + 1, r[j].id) && LatestOf(es + [e], r[j].id) == Some(r[j])
  {
    hide Entered, LatestOf, PlaceOf, Holds, EnteredAs;
    HeldIsPlaced(es, limit, r, e.id);
    EnteredAsSnoc(es, e, limit, |r| - j, r[j].id);
    LatestSnoc(es, e, r[j].id);
  }

  /** A new identity enters at the end, and the first one leaves when full. */
  lemma Enters(es: seq<DurableHotspot>, e: DurableHotspot, limit: nat, r: seq<DurableHotspot>, cut: nat)
    requires IsWindow(es, limit, r) && PlaceOf(r, e.id).None? && limit > 0
    requires cut == if |r| < limit then 0 else 1
    ensures IsWindow(es + [e], limit, r[cut..] + [e])
  {
    hide Entered, LatestOf, PlaceOf, EnteredAs;
    EntersSize(es, e, limit, r);
    var q := r[cut..] + [e];
    forall k | 0 <= k < |q|
      ensures EnteredAs(es + [e], limit, |q| - k, q[k].id) && LatestOf(es + [e], q[k].id) == Some(q[k])
    {
      if k < |q| - 1 {
        StaysBehind(es, e, limit, r, k + cut);
        assert q[k] == r[k + cut] && |r| - (k + cut) + 1 == |q| - k;
      } else {
        LatestSnoc(es, e, e.id);
      }
    }
  }

  lemma EntersSize(es: seq<DurableHotspot>, e: DurableHotspot, limit: nat, r: seq<DurableHotspot>)
    requires IsWindow(es, limit, r) && PlaceOf(r, e.id).None?
    ensures |Entered(es + [e], limit)| == |Entered(es, limit)| + 1 && EnteredAs(es + [e], limit, 1, e.id)
  {
    hide Entered, LatestOf, PlaceOf, Holds;
    HeldIsPlaced(es, limit, r, e.id);
    EnteredSnoc(es, e, limit);
    LastEntered(es, e, limit);
  }

  lemma RecordWindow(es: seq<DurableHotspot>, e: DurableHotspot, limit: nat, r: seq<DurableHotspot>)
    requires IsWindow(es, limit, r) && OnePerIdentity(r) && limit > 0
    ensures Record(r, e, limit).Some? && IsWindow(es + [e], limit, Record(r, e, limit).value)
    ensures OnePerIdentity(Record(r, e, limit).value)
  {
    hide IsWindow, PlaceOf;
    if PlaceOf(r, e.id).Some? {
      Replaces(es, e, limit, r);
    } else {
      WindowSize(es, limit, r);
      Enters(es, e, limit, r, if |r| < limit then 0 else 1);
      assert r[0..] == r;
    }
  }

  lemma WindowSize(es: seq<DurableHotspot>, limit: nat, r: seq<DurableHotspot>)
    requires IsWindow(es, limit, r)
    ensures |r| <= limit
  {
    hide Entered, LatestOf;
  }

  lemma {:induction false} RecordedFromNothing(es: seq<DurableHotspot>, limit: nat)
    requires limit > 0
    ensures RecordAll([], es, limit).Some? && IsWindow(es, limit, RecordAll([], es, limit).value)
    ensures OnePerIdentity(RecordAll([], es, limit).value)
  {
    hide Record, IsWindow, OnePerIdentity;
    if |es| == 0 {
      NothingEntered(limit);
    } else {
      var init, last := es[..|es| - 1], es[|es| - 1];
      RecordedFromNothing(init, limit);
      RecordWindow(init, last, limit, RecordAll([], init, limit).value);
      assert es == init + [last];
    }
  }

  lemma NothingEntered(limit: nat)
    ensures RecordAll([], [], limit) == Some([]) && IsWindow([], limit, []) && OnePerIdentity([])
  {
  }

  // ----- starting from a recovered state ------------------------------------------------------------

  lemma {:induction false} RecordConcat(a: seq<DurableHotspot>, more: seq<DurableHotspot>, es: seq<DurableHotspot>,
                                        limit: nat)
    requires RecordAll(es, a, limit).Some?
    ensures RecordAll(es, a + more, limit) == RecordAll(RecordAll(es, a, limit).value, more, limit)
  {
    hide Record;
    if |more| == 0 {
      assert a + more == a;
    } else {
      RecordConcat(a, more[..|more| - 1], es, limit);
      assert (a + more)[..|a + more| - 1] == a + more[..|more| - 1];
    }
  }

  lemma {:induction false} DistinctEnter(es: seq<DurableHotspot>, limit: nat)
    requires OnePerIdentity(es) && |es| <= limit
    ensures RecordAll([], es, limit) == Some(es)
  {
    if |es| == 0 {
    } else {
      DistinctEnter(es[..|es| - 1], limit);
      assert es[..|es| - 1] + [es[|es| - 1]] == es;
    }
  }

  /** How many identities are held: the limit, or what was recovered if that is more. */
  function Room(es: seq<DurableHotspot>, limit: nat): nat { if |es| > limit then |es| else limit }

  lemma {:induction false} RoomSuffices(es: seq<DurableHotspot>, more: seq<DurableHotspot>, limit: nat)
    requires Room(es, limit) > 0
    ensures RecordAll(es, more, limit) == RecordAll(es, more, Room(es, limit))
    ensures RecordAll(es, more, limit).Some?
    ensures |es| <= |RecordAll(es, more, limit).value| <= Room(es, limit)
  {
    if |more| == 0 {
    } else {
      RoomSuffices(es, more[..|more| - 1], limit);
    }
  }

  /** Recording on top of what was recovered is recording all of it in order. */
  lemma RecordedWindow(es: seq<DurableHotspot>, more: seq<DurableHotspot>, limit: nat)
    requires OnePerIdentity(es) && Room(es, limit) > 0
    ensures RecordAll(es, more, limit).Some?
    ensures IsWindow(es + more, Room(es, limit), RecordAll(es, more, limit).value)
  {
    hide RecordAll, IsWindow, OnePerIdentity;
    var room := Room(es, limit);
    RoomSuffices(es, more, limit);
    DistinctEnter(es, room);
    RecordConcat(es, more, [], room);
    RecordedFromNothing(es + more, room);
  }

  // ----- runs -----------------------------------------------------------------------------------------

  /** Everything a run of decisions recorded, in order. */
  ghost function AllEntries(l: Labels, ds: seq<Decision>): seq<DurableHotspot> {
    if |ds| == 0 then []
    else
      var d := ds[|ds| - 1];
      AllEntries(l, ds[..|ds| - 1]) + EntriesFor(l, d.assessment.hotspots, d.now)
  }

  ghost function AllInterventions(l: Labels, ds: seq<Decision>): seq<DurableIntervention> {
    if |ds| == 0 then []
    else
      var d := ds[|ds| - 1];
      AllInterventions(l, ds[..|ds| - 1]) + InterventionsFor(l, d.plan.intents, d.now)
  }

  lemma {:induction false} RunRecords(l: Labels, d: DurableState, ds: seq<Decision>, maxHistory: nat)
    requires OnePerIdentity(d.hotspots) && Room(d.hotspots, Limit(maxHistory)) > 0
    requires |d.interventions| <= MAX_DURABLE_INTERVENTIONS
    ensures var r := RecordRun(l, d, ds, maxHistory);
            && r.Some? && RecordAll(d.hotspots, AllEntries(l, ds), Limit(maxHistory)) == Some(r.value.hotspots)
            && r.value.interventions == Latest(d.interventions + AllInterventions(l, ds))
            && r.value == d.(hotspots := r.value.hotspots, interventions := r.value.interventions)
  {
    hide RecordAll, Latest, EntriesFor, InterventionsFor, OnePerIdentity;
    if |ds| == 0 {
      NothingRecorded(d, Limit(maxHistory));
      assert d.interventions + [] == d.interventions;
    } else {
      var init, last := ds[..|ds| - 1], ds[|ds| - 1];
      RunRecords(l, d, init, maxHistory);
      var entries := EntriesFor(l, last.assessment.hotspots, last.now);
      RecordConcat(AllEntries(l, init), entries, d.hotspots, Limit(maxHistory));
      RoomSuffices(d.hotspots, AllEntries(l, init) + entries, Limit(maxHistory));
      var more := InterventionsFor(l, last.plan.intents, last.now);
      LatestAgain(d.interventions + AllInterventions(l, init), more);
      assert d.interventions + AllInterventions(l, init) + more == d.interventions + (AllInterventions(l, init) + more);
    }
  }

  lemma NothingRecorded(d: DurableState, limit: nat)
    requires |d.interventions| <= MAX_DURABLE_INTERVENTIONS
    ensures RecordAll(d.hotspots, [], limit) == Some(d.hotspots) && Latest(d.interventions) == d.interventions
  {
  }

  lemma LatestAgain(a: seq<DurableIntervention>, b: seq<DurableIntervention>)
    ensures Latest(Latest(a) + b) == Latest(a + b)
  {
    hide Latest;
    var kept := Latest(a);
    var d, all, less := |a| - |kept|, a + b, kept + b;
    CutBefore(a, b, d);
    CutTwice(all, d, |less| - |Latest(less)|);
    assert |Latest(less)| == |Latest(all)|;
  }

  lemma CutBefore(a: seq<DurableIntervention>, b: seq<DurableIntervention>, d: nat)
    requires d <= |a|
    ensures (a + b)[d..] == a[d..] + b
  {
  }

  lemma CutTwice(a: seq<DurableIntervention>, d: nat, e: nat)
    requires d + e <= |a|
    ensures a[d..][e..] == a[d + e..]
  {
  }

  /** After every run of decisions the record holds the identities that entered
      last, in the order they entered, each with its latest entry, and the latest
      interventions: the oldest identity leaves when a new one needs its place. */
  lemma RunHoldsLatest(l: Labels, d: DurableState, ds: seq<Decision>, maxHistory: nat)
    requires OnePerIdentity(d.hotspots) && Room(d.hotspots, Limit(maxHistory)) > 0 && Validated(d)
    ensures var r := RecordRun(l, d, ds, maxHistory);
            && r.Some?
            && IsWindow(d.hotspots + AllEntries(l, ds), Room(d.hotspots, Limit(maxHistory)), r.value.hotspots)
            && r.value.interventions == Latest(d.interventions + AllInterventions(l, ds))
            && r.value == d.(hotspots := r.value.hotspots, interventions := r.value.interventions)
  {
    hide RecordAll, Latest, AllEntries, AllInterventions, RecordRun, IsWindow, OnePerIdentity;
    RunRecords(l, d, ds, maxHistory);
    RecordedWindow(d.hotspots, AllEntries(l, ds), Limit(maxHistory));
  }

  // ----- what an entry says -------------------------------------------------------------------------

  /** An entry tells scope and cause apart, names its hotspot, and holds how long its
      members had all been saturated when it was recorded: for a confirmed hotspot at
      least the persistence window. */
  lemma EntrySays(l: Labels, s: Scene, m: seq<Reading>, t: Scene, n: seq<Reading>)
    ensures var h, g := Detection.HotspotOf(s, m), Detection.HotspotOf(t, n);
            var e, d := EntryOf(l, h, s.now), EntryOf(l, g, t.now);
            && (e.scope == d.scope ==> h.scope == g.scope) && (e.cause == d.cause ==> h.cause == g.cause)
            && e.id == l.hotspot(h.id) && e.severity == l.severity(h) && e.lastObserved == s.now
            && e.persistence == ElapsedMs(LatestFirst(s.history, s.now, m), s.now)
            && (h.persistent ==> e.persistence >= s.th.persistenceWindow)
            && (|m| <= U64_MAX ==> e.resources == |m|)
  {
    hide Detection.HotspotOf, LatestFirst, ElapsedMs, EntryOf, Rank, CauseCode;
    EntryFields(l, s, m);
    EntryFields(l, t, n);
    RanksTell(Detection.HotspotOf(s, m).scope, Detection.HotspotOf(t, n).scope);
    CodesTell(Detection.HotspotOf(s, m).cause, Detection.HotspotOf(t, n).cause);
  }

  lemma RanksTell(a: Scope, b: Scope)
    ensures Rank(a) == Rank(b) ==> a == b
  {
  }

  lemma CodesTell(a: Cause, b: Cause)
    ensures CauseCode(a) == CauseCode(b) ==> a == b
  {
  }

  lemma EntryFields(l: Labels, s: Scene, m: seq<Reading>)
    ensures var h := Detection.HotspotOf(s, m);
            var e := EntryOf(l, h, s.now);
            && e.id == l.hotspot(h.id) && e.scope == Rank(h.scope) && e.severity == l.severity(h)
            && e.cause == CauseCode(h.cause) && e.lastObserved == s.now
            && e.persistence == ElapsedMs(LatestFirst(s.history, s.now, m), s.now)
            && (h.persistent ==> e.persistence >= s.th.persistenceWindow)
            && (|m| <= U64_MAX ==> e.resources == |m|)
  {
    hide BlameFrom, TallyOf, HealthyAround, RegionsOf, LatestFirst, FewestSamples, Peak, UniqueIds, ScopeOf;
    hide CauseOf, Accumulated, ElapsedMs, Hex;
  }

  /** An intervention entry tells its kind, its hotspot and its share. */
  lemma InterventionSays(l: Labels, a: Intent, b: Intent, now: Millis)
    ensures var e, d := InterventionFor(l, a, now), InterventionFor(l, b, now);
            && (e.kind == d.kind ==> a.kind == b.kind) && e.share == a.share && e.at == now && e.id == l.intent(a)
            && (a.hotspot.Some? ==> e.hotspot == l.hotspot(a.hotspot.value))
            && (e.escalation <==> a.kind == EscalateGlobalCongestion)
  {
  }
}
