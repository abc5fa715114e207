/** What attribution says of the demand recorded (src/detection.cpp): stale demand
    and counts beside the fresh demand, when the population bound was hit, and
    which path, share and time stand for a contributor. */
module AttributionTheorems {
  import opened Base
  import opened Model
  import opened Ordering
  import opened Checked
  import opened Totals
  import opened Snapshots
  import opened PathIndex
  import opened DemandAttribution

  // ----- fresh and stale ----------------------------------------------------------------

  /** A record is fresh when it is recent enough and healthy or degraded. */
  lemma FreshExactly(f: Freshness, r: TrafficRecord)
    ensures Fresh(f, r) <==> WithinAge(r.observedAt, f.now, f.maxAge) && (r.quality == 3 || r.quality == 4)
  {
    AgeExactly(r.observedAt, f.now, f.maxAge);
  }

  /** Measures of a record: its demand, its demand unless fresh, one if fresh. */
  function Demanded(r: TrafficRecord): U64 { r.demand }

  function StaleIn(f: Freshness): TrafficRecord -> U64 { (r: TrafficRecord) => if Fresh(f, r) then 0 else r.demand }

  function OneIn(f: Freshness): TrafficRecord -> U64 { (r: TrafficRecord) => if Fresh(f, r) then 1 else 0 }

  lemma {:induction false} DemandSplits(f: Freshness, rs: seq<TrafficRecord>)
    ensures Total(rs, Demanded) == TotalFresh(f, rs) + Total(rs, StaleIn(f))
  {
    hide Fresh;
    if |rs| == 0 {
    } else {
      DemandSplits(f, rs[..|rs| - 1]);
    }
  }

  predicate Refused(t: Tally, r: TrafficRecord) { SlotOf(t.accs, r.flow).None? && |t.accs| >= MAX_ACCUMULATORS }

  /** What one record adds to the totals. */
  lemma AddTotals(f: Freshness, t: Tally, r: TrafficRecord)
    ensures var u := Add(f, t, r);
            && (u.incomplete <==> t.incomplete || Refused(t, r))
            && (Refused(t, r) ==> u == t.(incomplete := true))
            && (!Refused(t, r) ==>
                  && u.staleBps == SatAdd(t.staleBps, StaleIn(f)(r))
                  && u.freshCount == (t.freshCount + OneIn(f)(r)) % 0x1_0000_0000)
  {
    hide Fresh, SlotOf;
  }

  /** Stale demand and the number of fresh records, as long as nothing was
      refused by the population bound. */
  lemma {:induction false} StaleConserved(f: Freshness, rs: seq<TrafficRecord>)
    requires Total(rs, Demanded) <= U64_MAX && !AddAll(f, rs).incomplete
    ensures AddAll(f, rs).staleBps == Total(rs, StaleIn(f))
    ensures AddAll(f, rs).freshCount == Total(rs, OneIn(f)) % 0x1_0000_0000
  {
    hide Add, Fresh, SatAdd;
    if |rs| == 0 {
    } else {
      var init, last := rs[..|rs| - 1], rs[|rs| - 1];
      AddTotals(f, AddAll(f, init), last);
      StaleConserved(f, init);
      DemandSplits(f, rs);
      SatAddExact(AddAll(f, init).staleBps, StaleIn(f)(last));
    }
  }

  /** Attribution accounts for all demand recorded on paths through the resources,
      fresh or stale, once per resource crossed. */
  lemma DemandAccounted(f: Freshness, ids: seq<U64>, ps: seq<PathRecord>, traffic: seq<TrafficRecord>)
    requires Weighted(Demanded, ids, ps, traffic) <= U64_MAX
    requires !AddAll(f, Incidences(ids, ps, traffic)).incomplete
    ensures var t := AddAll(f, Incidences(ids, ps, traffic));
            && t.freshBps == Weighted(FreshIn(f), ids, ps, traffic)
            && t.staleBps == Weighted(StaleIn(f), ids, ps, traffic)
            && t.freshBps + t.staleBps == Weighted(Demanded, ids, ps, traffic)
            && t.freshCount == Weighted(OneIn(f), ids, ps, traffic) % 0x1_0000_0000
  {
    hide AddAll, Incidences, Weighted, Total, Fresh;
    var rs := Incidences(ids, ps, traffic);
    IncidencesWeighted(Demanded, ids, ps, traffic);
    IncidencesWeighted(FreshIn(f), ids, ps, traffic);
    IncidencesWeighted(StaleIn(f), ids, ps, traffic);
    IncidencesWeighted(OneIn(f), ids, ps, traffic);
    DemandSplits(f, rs);
    StaleConserved(f, rs);
    AttributionConserves(f, rs);
  }

  // ----- the population bound --------------------------------------------------------------

  ghost function FlowsMet(rs: seq<TrafficRecord>): set<U64> { set r | r in rs :: r.flow }

  ghost function FlowsHeld(accs: seq<Accumulator>): set<U64> { set a | a in accs :: a.flow }

  ghost predicate Populated(rs: seq<TrafficRecord>, t: Tally) {
    && FlowsDistinct(t.accs) && |t.accs| <= MAX_ACCUMULATORS && FlowsHeld(t.accs) <= FlowsMet(rs)
    && (!t.incomplete ==> FlowsHeld(t.accs) == FlowsMet(rs))
    && (t.incomplete ==> |t.accs| == MAX_ACCUMULATORS && FlowsHeld(t.accs) != FlowsMet(rs))
  }

  lemma SlotHeld(accs: seq<Accumulator>, flow: U64)
    ensures SlotOf(accs, flow).Some? <==> flow in FlowsHeld(accs)
  {
    if flow in FlowsHeld(accs) {
      var a :| a in accs && a.flow == flow;
    }
    if SlotOf(accs, flow).Some? {
      assert accs[SlotOf(accs, flow).value] in accs;
    }
  }

  lemma FlowsMetSnoc(rs: seq<TrafficRecord>, r: TrafficRecord)
    ensures FlowsMet(rs + [r]) == FlowsMet(rs) + {r.flow}
  {
    forall x ensures x in FlowsMet(rs + [r]) <==> x in FlowsMet(rs) + {r.flow} {
      if x in FlowsMet(rs) {
        var q :| q in rs && q.flow == x;
        assert q in rs + [r];
      }
      assert r in rs + [r];
    }
  }

  /** Adding a record holds its flow, unless refused. */
  lemma AddHolds(f: Freshness, t: Tally, r: TrafficRecord)
    requires !Refused(t, r) && FlowsDistinct(t.accs)
    ensures var u := Add(f, t, r);
            && FlowsHeld(u.accs) == FlowsHeld(t.accs) + {r.flow} && FlowsDistinct(u.accs)
            && (|t.accs| <= MAX_ACCUMULATORS ==> |u.accs| <= MAX_ACCUMULATORS) && |u.accs| >= |t.accs|
            && u.incomplete == t.incomplete
            && (SlotOf(t.accs, r.flow).Some? ==> |u.accs| == |t.accs|)
  {
    hide Fresh, FlowsHeld;
    var u, slot := Add(f, t, r), SlotOf(t.accs, r.flow);
    SlotHeld(t.accs, r.flow);
    if slot.Some? {
      SameFlows(t.accs, u.accs);
      assert FlowsHeld(t.accs) + {r.flow} == FlowsHeld(t.accs);
    } else {
      var grown := t.accs + [Accumulator(r.flow, r.path, 0, 0, 0, NO_TIME)];
      SameFlows(grown, u.accs);
      HeldSnoc(t.accs, Accumulator(r.flow, r.path, 0, 0, 0, NO_TIME));
    }
  }

  lemma SameFlows(a: seq<Accumulator>, b: seq<Accumulator>)
    requires |a| == |b| && forall i :: 0 <= i < |a| ==> a[i].flow == b[i].flow
    ensures FlowsHeld(a) == FlowsHeld(b)
  {
    forall x ensures x in FlowsHeld(a) <==> x in FlowsHeld(b) {
      if x in FlowsHeld(a) {
        var i :| 0 <= i < |a| && a[i].flow == x;
        assert b[i] in b;
      }
      if x in FlowsHeld(b) {
        var i :| 0 <= i < |b| && b[i].flow == x;
        assert a[i] in a;
      }
    }
  }

  lemma HeldSnoc(accs: seq<Accumulator>, a: Accumulator)
    ensures FlowsHeld(accs + [a]) == FlowsHeld(accs) + {a.flow}
  {
    assert forall x :: x in accs ==> x in accs + [a];
    assert a in accs + [a];
  }

  lemma AddPopulated(f: Freshness, rs: seq<TrafficRecord>, t: Tally, r: TrafficRecord)
    requires Populated(rs, t)
    ensures Populated(rs + [r], Add(f, t, r))
  {
    hide FlowsDistinct, FlowsMet, FlowsHeld, Add, SlotOf;
    AddTotals(f, t, r);
    FlowsMetSnoc(rs, r);
    SlotHeld(t.accs, r.flow);
    if !Refused(t, r) {
      AddHolds(f, t, r);
      if t.incomplete {
        assert FlowsHeld(t.accs) + {r.flow} == FlowsHeld(t.accs);
        assert exists x :: x in FlowsMet(rs) && x !in FlowsHeld(t.accs);
      }
    }
  }

  lemma {:induction false} TallyPopulated(f: Freshness, rs: seq<TrafficRecord>)
    ensures Populated(rs, AddAll(f, rs))
  {
    hide Add;
    if |rs| == 0 {
      assert AddAll(f, rs) == EMPTY_TALLY;
    } else {
      var init, last := rs[..|rs| - 1], rs[|rs| - 1];
      TallyPopulated(f, init);
      AddPopulated(f, init, AddAll(f, init), last);
      assert rs == init + [last];
      hide Populated;
    }
  }

  lemma {:induction false} HeldCount(accs: seq<Accumulator>)
    requires FlowsDistinct(accs)
    ensures |FlowsHeld(accs)| == |accs|
  {
    if |accs| == 0 {
      assert FlowsHeld(accs) == {};
    } else {
      var init, a := accs[..|accs| - 1], accs[|accs| - 1];
      HeldCount(init);
      assert forall x :: x in init ==> x in accs;
      assert accs == init + [a];
      assert FlowsHeld(accs) == FlowsHeld(init) + {a.flow};
      assert a.flow !in FlowsHeld(init);
    }
  }

  /** The flows with records on paths through the resources. */
  ghost function FlowsThrough(ids: seq<U64>, ps: seq<PathRecord>, traffic: seq<TrafficRecord>): set<U64> {
    set r | r in traffic && Carries(ps, ids, r) :: r.flow
  }

  lemma MetThrough(ids: seq<U64>, ps: seq<PathRecord>, traffic: seq<TrafficRecord>)
    ensures FlowsMet(Incidences(ids, ps, traffic)) == FlowsThrough(ids, ps, traffic)
  {
    hide Carries, Incidences;
    var rs := Incidences(ids, ps, traffic);
    forall r: TrafficRecord ensures r in rs <==> r in traffic && Carries(ps, ids, r) {
      IncidenceMembers(ids, ps, traffic, r);
    }
  }

  /** Attribution is incomplete exactly when more flows have records on paths
      through the resources than accumulators are allowed. */
  lemma IncompleteExactly(f: Freshness, ids: seq<U64>, ps: seq<PathRecord>, traffic: seq<TrafficRecord>)
    ensures AddAll(f, Incidences(ids, ps, traffic)).incomplete
            <==> |FlowsThrough(ids, ps, traffic)| > MAX_ACCUMULATORS
  {
    hide AddAll, Incidences, FlowsThrough, FlowsMet, FlowsHeld, FlowsDistinct;
    var rs := Incidences(ids, ps, traffic);
    var t := AddAll(f, rs);
    TallyPopulated(f, rs);
    MetThrough(ids, ps, traffic);
    HeldCount(t.accs);
    ProperlyWithin(FlowsHeld(t.accs), FlowsMet(rs));
  }

  lemma ProperlyWithin(a: set<U64>, b: set<U64>)
    requires a <= b
    ensures |a| <= |b| && (a != b ==> |a| < |b|)
  {
    assert b == a + (b - a);
    assert |b| == |a| + |b - a|;
  }

  // ----- what stands for a flow --------------------------------------------------------------

  predicate FreshOf(f: Freshness, r: TrafficRecord, flow: U64) { Fresh(f, r) && r.flow == flow }

  /** The flow's first record of greatest fresh demand is at position k. */
  ghost predicate BestAt(f: Freshness, rs: seq<TrafficRecord>, flow: U64, k: nat) {
    && k < |rs| && FreshOf(f, rs[k], flow)
    && (forall j :: 0 <= j < |rs| && FreshOf(f, rs[j], flow) ==> rs[j].demand <= rs[k].demand)
    && (forall j :: 0 <= j < k && FreshOf(f, rs[j], flow) ==> rs[j].demand < rs[k].demand)
  }

  ghost predicate BestPath(f: Freshness, rs: seq<TrafficRecord>, a: Accumulator) {
    && (a.best == 0 ==> forall j :: 0 <= j < |rs| && FreshOf(f, rs[j], a.flow) ==> rs[j].demand == 0)
    && (a.best > 0 ==> exists k: nat :: BestAt(f, rs, a.flow, k) && rs[k].demand == a.best && rs[k].path == a.path)
  }

  ghost predicate LatestFresh(f: Freshness, rs: seq<TrafficRecord>, a: Accumulator) {
    && (forall j :: 0 <= j < |rs| && FreshOf(f, rs[j], a.flow) ==> rs[j].observedAt <= a.observedAt)
    && (a.observedAt == NO_TIME
        || exists k :: 0 <= k < |rs| && FreshOf(f, rs[k], a.flow) && rs[k].observedAt == a.observedAt)
  }

  ghost predicate Stands(f: Freshness, rs: seq<TrafficRecord>, a: Accumulator) {
    BestPath(f, rs, a) && LatestFresh(f, rs, a)
  }

  lemma OtherBest(f: Freshness, rs: seq<TrafficRecord>, r: TrafficRecord, a: Accumulator)
    requires BestPath(f, rs, a) && !FreshOf(f, r, a.flow)
    ensures BestPath(f, rs + [r], a)
  {
    hide FreshOf;
    var all := rs + [r];
    if a.best > 0 {
      var k: nat :| BestAt(f, rs, a.flow, k) && rs[k].demand == a.best && rs[k].path == a.path;
      assert BestAt(f, all, a.flow, k) && all[k] == rs[k];
    }
  }

  lemma OtherLatest(f: Freshness, rs: seq<TrafficRecord>, r: TrafficRecord, a: Accumulator)
    requires LatestFresh(f, rs, a) && !FreshOf(f, r, a.flow)
    ensures LatestFresh(f, rs + [r], a)
  {
    hide FreshOf;
    var all := rs + [r];
    if a.observedAt != NO_TIME {
      var k :| 0 <= k < |rs| && FreshOf(f, rs[k], a.flow) && rs[k].observedAt == a.observedAt;
      assert all[k] == rs[k];
    }
  }

  lemma FreshBest(f: Freshness, rs: seq<TrafficRecord>, r: TrafficRecord, a: Accumulator)
    requires BestPath(f, rs, a) && FreshOf(f, r, a.flow)
    ensures BestPath(f, rs + [r], AddFresh(a, r))
  {
    hide FreshOf, SatAdd;
    var all, b := rs + [r], AddFresh(a, r);
    assert all[|rs|] == r;
    if r.demand > a.best {
      if a.best > 0 {
        var k: nat :| BestAt(f, rs, a.flow, k) && rs[k].demand == a.best && rs[k].path == a.path;
      }
      assert BestAt(f, all, b.flow, |rs|);
    } else if a.best > 0 {
      var k: nat :| BestAt(f, rs, a.flow, k) && rs[k].demand == a.best && rs[k].path == a.path;
      assert BestAt(f, all, b.flow, k) && all[k] == rs[k];
    }
  }

  lemma FreshLatest(f: Freshness, rs: seq<TrafficRecord>, r: TrafficRecord, a: Accumulator)
    requires LatestFresh(f, rs, a) && FreshOf(f, r, a.flow)
    ensures LatestFresh(f, rs + [r], AddFresh(a, r))
  {
    hide FreshOf, SatAdd;
    var all, b := rs + [r], AddFresh(a, r);
    assert all[|rs|] == r;
    if b.observedAt == a.observedAt && a.observedAt != NO_TIME {
      var k :| 0 <= k < |rs| && FreshOf(f, rs[k], a.flow) && rs[k].observedAt == a.observedAt;
      assert all[k] == rs[k];
    }
  }

  ghost predicate AllStand(f: Freshness, rs: seq<TrafficRecord>, accs: seq<Accumulator>) {
    forall i :: 0 <= i < |accs| ==> Stands(f, rs, accs[i])
  }

  lemma OpenStands(f: Freshness, rs: seq<TrafficRecord>, r: TrafficRecord)
    requires r.flow !in FlowsMet(rs)
    ensures Stands(f, rs, Accumulator(r.flow, r.path, 0, 0, 0, NO_TIME))
  {
    forall j | 0 <= j < |rs| ensures !FreshOf(f, rs[j], r.flow) {
      assert rs[j] in rs;
    }
  }

  lemma StepStands(f: Freshness, rs: seq<TrafficRecord>, r: TrafficRecord, a: Accumulator)
    requires Stands(f, rs, a)
    ensures a.flow != r.flow ==> Stands(f, rs + [r], a)
    ensures a.flow == r.flow ==> Stands(f, rs + [r], if Fresh(f, r) then AddFresh(a, r) else AddStale(a, r))
  {
    hide Fresh, BestPath, LatestFresh;
    if FreshOf(f, r, a.flow) {
      FreshBest(f, rs, r, a);
      FreshLatest(f, rs, r, a);
    } else {
      OtherBest(f, rs, r, a);
      OtherLatest(f, rs, r, a);
      if a.flow == r.flow {
        StaleStands(f, rs + [r], a, r);
      }
    }
  }

  lemma StaleStands(f: Freshness, rs: seq<TrafficRecord>, a: Accumulator, r: TrafficRecord)
    requires Stands(f, rs, a)
    ensures Stands(f, rs, AddStale(a, r))
  {
    hide Fresh;
  }

  /** A record added to its slot. */
  lemma FillStands(f: Freshness, rs: seq<TrafficRecord>, u: Tally, slot: nat, r: TrafficRecord)
    requires AllStand(f, rs, u.accs) && FlowsDistinct(u.accs) && slot < |u.accs| && u.accs[slot].flow == r.flow
    ensures AllStand(f, rs + [r], AddTo(f, u, slot, r).accs)
  {
    hide Stands, Fresh, AddFresh, AddStale;
    var v := AddTo(f, u, slot, r);
    forall i | 0 <= i < |v.accs| ensures Stands(f, rs + [r], v.accs[i]) {
      StepStands(f, rs, r, u.accs[i]);
    }
  }

  lemma AddStands(f: Freshness, rs: seq<TrafficRecord>, t: Tally, r: TrafficRecord)
    requires AllStand(f, rs, t.accs) && Populated(rs, t)
    ensures AllStand(f, rs + [r], Add(f, t, r).accs)
  {
    hide Stands, Fresh, AddTo, SlotOf, FlowsMet, FlowsHeld;
    SlotHeld(t.accs, r.flow);
    var slot := SlotOf(t.accs, r.flow);
    if slot.Some? {
      FillStands(f, rs, t, slot.value, r);
    } else if |t.accs| >= MAX_ACCUMULATORS {
      forall i | 0 <= i < |t.accs| ensures Stands(f, rs + [r], t.accs[i]) {
        StepStands(f, rs, r, t.accs[i]);
      }
    } else {
      OpenStands(f, rs, r);
      FillStands(f, rs, t.(accs := t.accs + [Accumulator(r.flow, r.path, 0, 0, 0, NO_TIME)]), |t.accs|, r);
    }
  }

  lemma {:induction false} TallyStands(f: Freshness, rs: seq<TrafficRecord>)
    ensures AllStand(f, rs, AddAll(f, rs).accs)
  {
    hide Add, Stands, Populated;
    if |rs| == 0 {
      assert AddAll(f, rs) == EMPTY_TALLY;
    } else {
      var init, last := rs[..|rs| - 1], rs[|rs| - 1];
      TallyStands(f, init);
      TallyPopulated(f, init);
      AddStands(f, init, AddAll(f, init), last);
      assert rs == init + [last];
      hide AllStand;
    }
  }

  // ----- contributors -------------------------------------------------------------------------

  /** The accumulator a contributor was made from. */
  ghost predicate MadeFrom(t: Tally, c: Contributor, a: Accumulator) {
    a in t.accs && a.freshBps > 0 && c == ContributorOf(a, t.freshBps)
  }

  lemma {:induction false} CollectedFrom(accs: seq<Accumulator>, whole: U64, c: Contributor)
    requires c in Collect(accs, whole).listed
    ensures exists a :: a in accs && a.freshBps > 0 && c == ContributorOf(a, whole)
  {
    hide ContributorOf;
    if |accs| == 0 {
      assert false;
    } else {
      var init, last := accs[..|accs| - 1], accs[|accs| - 1];
      if c in Collect(init, whole).listed {
        CollectedFrom(init, whole, c);
        var a :| a in init && a.freshBps > 0 && c == ContributorOf(a, whole);
        assert a in accs;
      } else {
        assert last in accs && last.freshBps > 0 && c == ContributorOf(last, whole);
      }
    }
  }

  lemma ContributorMade(t: Tally, c: Contributor)
    requires c in Contributors(t).listed
    ensures exists a :: MadeFrom(t, c, a)
  {
    hide SortBy, Collect, ContributorOf;
    var sorted := SortBy(t.accs, AccumulatorKey);
    var listed := Collect(sorted, t.freshBps).listed;
    SortMembers(listed, ContributorKey);
    SortMembers(t.accs, AccumulatorKey);
    CollectedFrom(sorted, t.freshBps, c);
    var a :| a in sorted && a.freshBps > 0 && c == ContributorOf(a, t.freshBps);
    assert MadeFrom(t, c, a);
  }

  /** The record a contributor points at: fresh, of its flow, on a path through
      the resources, and none of the flow's demands more. */
  ghost predicate Points(f: Freshness, ids: seq<U64>, ps: seq<PathRecord>, traffic: seq<TrafficRecord>,
                         c: Contributor, r: TrafficRecord) {
    && r in traffic && Carries(ps, ids, r) && FreshOf(f, r, c.flow) && r.path == c.path && r.demand > 0
    && forall q :: q in traffic && Carries(ps, ids, q) && FreshOf(f, q, c.flow) ==>
         q.demand <= r.demand && q.observedAt <= c.observedAt
  }

  /** Absent 64-bit saturation a contributor holds its flow's fresh demand, once
      per crossing, reports it as a share of all fresh demand, and names the path
      of the flow's greatest record. */
  lemma ContributorContents(f: Freshness, ids: seq<U64>, ps: seq<PathRecord>, traffic: seq<TrafficRecord>,
                            c: Contributor, floor: U32)
    requires c in Contributors(AddAll(f, Incidences(ids, ps, traffic))).listed
    requires Weighted(FreshIn(f), ids, ps, traffic) <= U64_MAX
    ensures c.demand == Weighted(FlowIn(f, c.flow), ids, ps, traffic) > 0
    ensures !AddAll(f, Incidences(ids, ps, traffic)).incomplete ==>
              (c.share >= floor <==> Reaches(c.demand, Weighted(FreshIn(f), ids, ps, traffic), floor))
    ensures exists r :: Points(f, ids, ps, traffic, c, r)
  {
    hide AddAll, Incidences, Weighted, Contributors, Total, Fresh, Points, Stands, Reaches, Ppm;
    var rs := Incidences(ids, ps, traffic);
    var t := AddAll(f, rs);
    ContributorMade(t, c);
    var a :| MadeFrom(t, c, a);
    IncidencesWeighted(FreshIn(f), ids, ps, traffic);
    IncidencesWeighted(FlowIn(f, c.flow), ids, ps, traffic);
    AttributionConserves(f, rs);
    PpmReaches(a.freshBps, t.freshBps, floor);
    TallyStands(f, rs);
    var i :| 0 <= i < |t.accs| && t.accs[i] == a;
    assert Stands(f, rs, a);
    BestNonzero(f, rs, a);
    PointsAtBest(f, ids, ps, traffic, c, a);
  }

  lemma {:induction false} NoFreshDemand(f: Freshness, rs: seq<TrafficRecord>, flow: U64)
    requires forall j :: 0 <= j < |rs| && FreshOf(f, rs[j], flow) ==> rs[j].demand == 0
    ensures FlowFresh(f, rs, flow) == 0
  {
    hide Fresh;
    if |rs| == 0 {
    } else {
      NoFreshDemand(f, rs[..|rs| - 1], flow);
    }
  }

  lemma BestNonzero(f: Freshness, rs: seq<TrafficRecord>, a: Accumulator)
    requires Stands(f, rs, a) && FlowFresh(f, rs, a.flow) > 0
    ensures a.best > 0
  {
    hide Fresh, FlowFresh;
    if a.best == 0 {
      NoFreshDemand(f, rs, a.flow);
    }
  }

  lemma PointsAtBest(f: Freshness, ids: seq<U64>, ps: seq<PathRecord>, traffic: seq<TrafficRecord>,
                     c: Contributor, a: Accumulator)
    requires Stands(f, Incidences(ids, ps, traffic), a) && a.best > 0
    requires c.flow == a.flow && c.path == a.path && c.observedAt == a.observedAt
    ensures exists r :: Points(f, ids, ps, traffic, c, r)
  {
    hide Incidences, Fresh, Carries;
    var rs := Incidences(ids, ps, traffic);
    var k: nat :| BestAt(f, rs, a.flow, k) && rs[k].demand == a.best && rs[k].path == a.path;
    assert rs[k] in rs;
    IncidenceMembers(ids, ps, traffic, rs[k]);
    forall q | q in traffic && Carries(ps, ids, q) && FreshOf(f, q, c.flow)
      ensures q.demand <= rs[k].demand && q.observedAt <= c.observedAt
    {
      IncidenceMembers(ids, ps, traffic, q);
      var j :| 0 <= j < |rs| && rs[j] == q;
    }
    assert Points(f, ids, ps, traffic, c, rs[k]);
  }

  // ----- the dominant flow ---------------------------------------------------------------------

  lemma {:induction false} CollectFirst(accs: seq<Accumulator>, whole: U64)
    requires |accs| > 0 && accs[0].freshBps > 0
    ensures ContributorOf(accs[0], whole) in Collect(accs, whole).listed
  {
    hide ContributorOf;
    if |accs| == 1 {
      assert Collect(accs[..0], whole).listed == [];
    } else {
      CollectFirst(accs[..|accs| - 1], whole);
    }
  }

  lemma KeyOrdersDemand(a: Accumulator, b: Accumulator)
    requires AccumulatorKey(a) <= AccumulatorKey(b)
    ensures a.freshBps >= b.freshBps
  {
  }

  /** Some listed contributor demands at least as much as any accumulator. */
  lemma GreatestListed(t: Tally, a: Accumulator) returns (c: Contributor)
    requires a in t.accs && a.freshBps > 0
    ensures c in Contributors(t).listed && c.demand >= a.freshBps
  {
    hide SortBy, Collect;
    var sorted := SortBy(t.accs, AccumulatorKey);
    SortMembers(t.accs, AccumulatorKey);
    var k :| 0 <= k < |sorted| && sorted[k] == a;
    assert k == 0 || AccumulatorKey(sorted[0]) <= AccumulatorKey(sorted[k]);
    KeyOrdersDemand(sorted[0], a);
    CollectFirst(sorted, t.freshBps);
    c := ContributorOf(sorted[0], t.freshBps);
    SortMembers(Collect(sorted, t.freshBps).listed, ContributorKey);
  }

  /** A flow with fresh demand has an accumulator that holds it. */
  lemma FlowHeld(f: Freshness, rs: seq<TrafficRecord>, flow: U64) returns (a: Accumulator)
    requires TotalFresh(f, rs) <= U64_MAX && !AddAll(f, rs).incomplete && FlowFresh(f, rs, flow) > 0
    ensures a in AddAll(f, rs).accs && a.flow == flow && a.freshBps == FlowFresh(f, rs, flow)
  {
    hide AddAll, Fresh, FlowFresh, TotalFresh, SlotOf;
    var t := AddAll(f, rs);
    AttributionConserves(f, rs);
    TallyRepresents(f, rs);
    if forall k :: 0 <= k < |rs| ==> rs[k].flow != flow {
      FlowAbsent(f, rs, flow);
    }
    var k :| 0 <= k < |rs| && rs[k].flow == flow;
    a := t.accs[SlotOf(t.accs, rs[k].flow).value];
  }

  /** The flow's fresh demand is at least that share of all fresh demand. */
  predicate Dominates(f: Freshness, ids: seq<U64>, ps: seq<PathRecord>, traffic: seq<TrafficRecord>, flow: U64,
                      floor: U32) {
    var part := Weighted(FlowIn(f, flow), ids, ps, traffic);
    part > 0 && Reaches(part, Weighted(FreshIn(f), ids, ps, traffic), floor)
  }

  lemma ReachesMore(part: nat, more: nat, whole: nat, floor: nat)
    requires part <= more && 0 < whole && whole * PPM_SCALE <= U64_MAX && Reaches(part, whole, floor)
    ensures Reaches(more, whole, floor)
  {
    ScalesReaches(part, whole, floor);
    ScalesReaches(more, whole, floor);
    MulMono(PPM_SCALE, part, more);
    hide Reaches;
  }

  /** The first contributor reaches a share exactly when some flow's fresh demand
      does: always when all contributors are listed, and when the fresh demand
      scales in 64 bits also when some are not. */
  lemma DominanceExactly(f: Freshness, ids: seq<U64>, ps: seq<PathRecord>, traffic: seq<TrafficRecord>, floor: U32)
    requires Weighted(FreshIn(f), ids, ps, traffic) <= U64_MAX
    requires !AddAll(f, Incidences(ids, ps, traffic)).incomplete
    requires !Contributors(AddAll(f, Incidences(ids, ps, traffic))).truncated
             || Weighted(FreshIn(f), ids, ps, traffic) * PPM_SCALE <= U64_MAX
    ensures var cs := Contributors(AddAll(f, Incidences(ids, ps, traffic))).listed;
            |cs| > 0 && cs[0].share >= floor <==> exists flow :: Dominates(f, ids, ps, traffic, flow, floor)
  {
    hide AddAll, Incidences, Weighted, Contributors, Fresh, Dominates, Reaches, Points;
    var t := AddAll(f, Incidences(ids, ps, traffic));
    var cs := Contributors(t).listed;
    if |cs| > 0 && cs[0].share >= floor {
      assert cs[0] in cs;
      ContributorContents(f, ids, ps, traffic, cs[0], floor);
      ShareDominates(f, ids, ps, traffic, cs[0], floor);
    }
    if exists flow :: Dominates(f, ids, ps, traffic, flow, floor) {
      var flow :| Dominates(f, ids, ps, traffic, flow, floor);
      var k := DominantListed(f, ids, ps, traffic, flow, floor);
      DominantFirst(t, k);
    }
  }

  lemma ShareDominates(f: Freshness, ids: seq<U64>, ps: seq<PathRecord>, traffic: seq<TrafficRecord>, c: Contributor,
                       floor: U32)
    requires c.demand == Weighted(FlowIn(f, c.flow), ids, ps, traffic) > 0
    requires Reaches(c.demand, Weighted(FreshIn(f), ids, ps, traffic), floor)
    ensures Dominates(f, ids, ps, traffic, c.flow, floor)
  {
    hide Weighted, Reaches;
  }

  lemma DominantListed(f: Freshness, ids: seq<U64>, ps: seq<PathRecord>, traffic: seq<TrafficRecord>, flow: U64,
                       floor: U32) returns (k: nat)
    requires Weighted(FreshIn(f), ids, ps, traffic) <= U64_MAX && Dominates(f, ids, ps, traffic, flow, floor)
    requires !AddAll(f, Incidences(ids, ps, traffic)).incomplete
    requires !Contributors(AddAll(f, Incidences(ids, ps, traffic))).truncated
             || Weighted(FreshIn(f), ids, ps, traffic) * PPM_SCALE <= U64_MAX
    ensures var cs := Contributors(AddAll(f, Incidences(ids, ps, traffic))).listed;
            k < |cs| && cs[k].share >= floor
  {
    hide AddAll, Incidences, Weighted, Fresh, Reaches, Points, Total, Contributors;
    var rs, whole := Incidences(ids, ps, traffic), Weighted(FreshIn(f), ids, ps, traffic);
    var t := AddAll(f, rs);
    var cs := Contributors(t).listed;
    IncidencesWeighted(FreshIn(f), ids, ps, traffic);
    IncidencesWeighted(FlowIn(f, flow), ids, ps, traffic);
    var a := FlowHeld(f, rs, flow);
    FlowWithinTotal(f, rs, flow);
    if !Contributors(t).truncated {
      k := HeldListed(t, a);
      ContributorContents(f, ids, ps, traffic, cs[k], floor);
    } else {
      var c := GreatestListed(t, a);
      k :| 0 <= k < |cs| && cs[k] == c;
      ContributorContents(f, ids, ps, traffic, c, floor);
      ReachesMore(a.freshBps, c.demand, whole, floor);
    }
  }

  lemma HeldListed(t: Tally, a: Accumulator) returns (k: nat)
    requires a in t.accs && a.freshBps > 0 && !Contributors(t).truncated
    ensures k < |Contributors(t).listed| && Contributors(t).listed[k].flow == a.flow
  {
    hide SortBy, Collect;
    var sorted := SortBy(t.accs, AccumulatorKey);
    assert Holds(t.accs, a.flow) by {
      var j :| 0 <= j < |t.accs| && t.accs[j] == a;
    }
    HoldsSorted(t.accs, a.flow);
    CollectNames(sorted, t.freshBps, a.flow);
    NamesSorted(Collect(sorted, t.freshBps).listed, a.flow);
    k :| 0 <= k < |Contributors(t).listed| && Contributors(t).listed[k].flow == a.flow;
  }
}
