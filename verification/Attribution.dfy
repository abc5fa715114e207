/** Attribution of demand to flows (src/detection.cpp): paths through a hotspot
    joined with per-flow demand, accumulated per flow under a population bound. */
module DemandAttribution {
  import opened Base
  import opened Model
  import opened Ordering
  import opened Checked
  import opened Snapshots
  import opened PathIndex
  import opened Totals

  /** When a record counts as fresh. */
  datatype Freshness = Freshness(now: Millis, maxAge: U32)

  predicate Fresh(f: Freshness, r: TrafficRecord) {
    AgeMs(r.observedAt, f.now) <= f.maxAge && (r.quality == QUALITY_HEALTHY || r.quality == QUALITY_DEGRADED)
  }

  // ----- what is joined, in order -----------------------------------------------------

  /** The records of one path. */
  function RecordsOf(traffic: seq<TrafficRecord>, path: U64): seq<TrafficRecord> {
    if |traffic| == 0 then []
    else
      var last := traffic[|traffic| - 1];
      RecordsOf(traffic[..|traffic| - 1], path) + (if last.path == path then [last] else [])
  }

  /** The records of the listed paths, path after path. */
  function JoinPaths(ps: seq<PathRecord>, traffic: seq<TrafficRecord>, through: seq<nat>): seq<TrafficRecord>
    requires forall k :: 0 <= k < |through| ==> through[k] < |ps|
  {
    if |through| == 0 then []
    else JoinPaths(ps, traffic, through[..|through| - 1]) + RecordsOf(traffic, ps[through[|through| - 1]].id)
  }

  function PathsAt(ps: seq<PathRecord>, id: U64): (r: seq<nat>)
    ensures r == Through(ps, id)
    ensures forall k :: 0 <= k < |r| ==> r[k] < |ps|
  {
    ThroughMeaning(ps, id);
    var r := Through(ps, id);
    assert forall k :: 0 <= k < |r| ==> r[k] in r;
    r
  }

  /** Every meeting of a component resource, a path through it and a record of
      that path: a path crossing k resources appears k times. */
  function Incidences(ids: seq<U64>, ps: seq<PathRecord>, traffic: seq<TrafficRecord>): seq<TrafficRecord> {
    if |ids| == 0 then []
    else Incidences(ids[..|ids| - 1], ps, traffic) + JoinPaths(ps, traffic, PathsAt(ps, ids[|ids| - 1]))
  }

  // ----- accumulation ---------------------------------------------------------------------

  datatype Accumulator = Accumulator(flow: U64, path: U64, freshBps: U64, staleBps: U64, best: U64, observedAt: Millis)

  datatype Tally = Tally(accs: seq<Accumulator>, freshBps: U64, staleBps: U64, freshCount: U32, incomplete: bool)

  const EMPTY_TALLY := Tally([], 0, 0, 0, false)

  /** The accumulator of a flow. */
  function SlotOf(accs: seq<Accumulator>, flow: U64): (r: Option<nat>)
    ensures r.Some? ==> r.value < |accs| && accs[r.value].flow == flow
    ensures r.None? ==> forall i :: 0 <= i < |accs| ==> accs[i].flow != flow
  {
    if |accs| == 0 then None
    else if accs[|accs| - 1].flow == flow then Some(|accs| - 1)
    else SlotOf(accs[..|accs| - 1], flow)
  }

  function AddFresh(a: Accumulator, r: TrafficRecord): Accumulator {
    var b := a.(freshBps := SatAdd(a.freshBps, r.demand), observedAt := Max(a.observedAt, r.observedAt));
    if r.demand > a.best then b.(best := r.demand, path := r.path) else b
  }

  function AddStale(a: Accumulator, r: TrafficRecord): Accumulator { a.(staleBps := SatAdd(a.staleBps, r.demand)) }

  /** Adds a record to the accumulator in a slot, and to the totals. */
  function AddTo(f: Freshness, t: Tally, slot: nat, r: TrafficRecord): Tally
    requires slot < |t.accs|
  {
    if Fresh(f, r) then
      t.(accs := t.accs[slot := AddFresh(t.accs[slot], r)], freshBps := SatAdd(t.freshBps, r.demand),
         freshCount := (t.freshCount + 1) % 0x1_0000_0000)
    else
      t.(accs := t.accs[slot := AddStale(t.accs[slot], r)], staleBps := SatAdd(t.staleBps, r.demand))
  }

  /** One record: find or open the flow's accumulator, unless the population
      bound refuses a new one. */
  function Add(f: Freshness, t: Tally, r: TrafficRecord): Tally {
    var slot := SlotOf(t.accs, r.flow);
    if slot.Some? then AddTo(f, t, slot.value, r)
    else if |t.accs| >= MAX_ACCUMULATORS then t.(incomplete := true)
    else AddTo(f, t.(accs := t.accs + [Accumulator(r.flow, r.path, 0, 0, 0, NO_TIME)]), |t.accs|, r)
  }

  function AddAll(f: Freshness, rs: seq<TrafficRecord>): Tally {
    if |rs| == 0 then EMPTY_TALLY else Add(f, AddAll(f, rs[..|rs| - 1]), rs[|rs| - 1])
  }

  // ----- sums ---------------------------------------------------------------------------------

  function FreshDemand(f: Freshness, r: TrafficRecord): U64 { if Fresh(f, r) then r.demand else 0 }

  /** Measures of a record: its fresh demand, and that of one flow only. */
  function FreshIn(f: Freshness): TrafficRecord -> U64 { (r: TrafficRecord) => FreshDemand(f, r) }

  function FlowIn(f: Freshness, flow: U64): TrafficRecord -> U64 {
    (r: TrafficRecord) => if r.flow == flow then FreshDemand(f, r) else 0
  }

  /** The true fresh demand of records, of one flow, and held by accumulators. */
  function TotalFresh(f: Freshness, rs: seq<TrafficRecord>): nat { Total(rs, FreshIn(f)) }

  function FlowFresh(f: Freshness, rs: seq<TrafficRecord>, flow: U64): nat { Total(rs, FlowIn(f, flow)) }

  function HeldBy(a: Accumulator): U64 { a.freshBps }

  function Held(accs: seq<Accumulator>): nat { Total(accs, HeldBy) }

  lemma {:induction false} FlowWithinTotal(f: Freshness, rs: seq<TrafficRecord>, flow: U64)
    ensures FlowFresh(f, rs, flow) <= TotalFresh(f, rs)
  {
    hide FreshDemand;
    if |rs| == 0 {
    } else {
      FlowWithinTotal(f, rs[..|rs| - 1], flow);
    }
  }

  ghost predicate FlowsDistinct(accs: seq<Accumulator>) {
    forall i, j :: 0 <= i < j < |accs| ==> accs[i].flow != accs[j].flow
  }

  /** What the accumulators mean after the records rs: one per flow, holding
      exactly that flow's fresh demand; the total is their sum; and as long as
      the bound was not hit, it is the fresh demand of all records. */
  ghost predicate Conserved(f: Freshness, rs: seq<TrafficRecord>, t: Tally) {
    && FlowsDistinct(t.accs) && |t.accs| <= MAX_ACCUMULATORS
    && (forall i :: 0 <= i < |t.accs| ==> t.accs[i].freshBps == FlowFresh(f, rs, t.accs[i].flow))
    && t.freshBps == Held(t.accs) && t.freshBps <= TotalFresh(f, rs)
    && (!t.incomplete ==> t.freshBps == TotalFresh(f, rs))
    && (|t.accs| < MAX_ACCUMULATORS ==> !t.incomplete && AllSlotted(rs, t.accs))
  }

  lemma {:induction false} FlowAbsent(f: Freshness, rs: seq<TrafficRecord>, flow: U64)
    requires forall k :: 0 <= k < |rs| ==> rs[k].flow != flow
    ensures FlowFresh(f, rs, flow) == 0
  {
    hide FreshDemand;
    if |rs| == 0 {
    } else {
      FlowAbsent(f, rs[..|rs| - 1], flow);
    }
  }

  /** Opening an accumulator for a flow not seen before keeps everything. */
  lemma OpenSlot(f: Freshness, rs: seq<TrafficRecord>, t: Tally, r: TrafficRecord)
    requires Conserved(f, rs, t) && SlotOf(t.accs, r.flow).None? && |t.accs| < MAX_ACCUMULATORS
    ensures var a := Accumulator(r.flow, r.path, 0, 0, 0, NO_TIME);
            var u := t.(accs := t.accs + [a]);
            && FlowsDistinct(u.accs)
            && (forall i :: 0 <= i < |u.accs| ==> u.accs[i].freshBps == FlowFresh(f, rs, u.accs[i].flow))
            && u.freshBps == Held(u.accs)
  {
    hide FlowFresh, Fresh;
    var a := Accumulator(r.flow, r.path, 0, 0, 0, NO_TIME);
    forall k | 0 <= k < |rs| ensures rs[k].flow != r.flow {
      assert SlotOf(t.accs, rs[k].flow).Some?;
    }
    FlowAbsent(f, rs, r.flow);
    assert (t.accs + [a])[..|t.accs|] == t.accs;
  }

  /** Adding a record to its flow's accumulator. */
  lemma FillSlot(f: Freshness, rs: seq<TrafficRecord>, u: Tally, slot: nat, r: TrafficRecord)
    requires FlowsDistinct(u.accs) && slot < |u.accs| && u.accs[slot].flow == r.flow
    requires forall i :: 0 <= i < |u.accs| ==> u.accs[i].freshBps == FlowFresh(f, rs, u.accs[i].flow)
    requires u.freshBps == Held(u.accs) && u.freshBps <= TotalFresh(f, rs)
    requires TotalFresh(f, rs + [r]) <= U64_MAX
    ensures var v := AddTo(f, u, slot, r);
            && FlowsDistinct(v.accs) && |v.accs| == |u.accs|
            && (forall i :: 0 <= i < |v.accs| ==> v.accs[i].flow == u.accs[i].flow)
            && (forall i :: 0 <= i < |v.accs| ==> v.accs[i].freshBps == FlowFresh(f, rs + [r], v.accs[i].flow))
            && v.freshBps == Held(v.accs) == u.freshBps + FreshDemand(f, r) && v.freshBps <= TotalFresh(f, rs + [r])
            && v.incomplete == u.incomplete
  {
    hide Fresh, SatAdd;
    assert (rs + [r])[..|rs|] == rs;
    FlowWithinTotal(f, rs, r.flow);
    SatAddExact(u.accs[slot].freshBps, r.demand);
    SatAddExact(u.freshBps, r.demand);
    TotalUpdate(u.accs, slot, if Fresh(f, r) then AddFresh(u.accs[slot], r) else AddStale(u.accs[slot], r), HeldBy);
  }

  lemma SatAddExact(a: U64, b: U64)
    ensures a + b <= U64_MAX ==> SatAdd(a, b) == a + b
  {
  }

  lemma AddConserves(f: Freshness, rs: seq<TrafficRecord>, t: Tally, r: TrafficRecord)
    requires Conserved(f, rs, t) && TotalFresh(f, rs + [r]) <= U64_MAX
    ensures Conserved(f, rs + [r], Add(f, t, r))
  {
    hide Fresh, FlowFresh, AddTo, Held, SlotOf;
    assert (rs + [r])[..|rs|] == rs;
    var slot := SlotOf(t.accs, r.flow);
    if slot.Some? {
      FillSlot(f, rs, t, slot.value, r);
      SlotsKept(rs, r, t.accs, AddTo(f, t, slot.value, r).accs);
    } else if |t.accs| >= MAX_ACCUMULATORS {
      RefusedRecord(f, rs, t, r);
    } else {
      OpenSlot(f, rs, t, r);
      var u := t.(accs := t.accs + [Accumulator(r.flow, r.path, 0, 0, 0, NO_TIME)]);
      FillSlot(f, rs, u, |t.accs|, r);
      SlotsKept(rs, r, t.accs, AddTo(f, u, |t.accs|, r).accs);
    }
  }

  /** A record refused by the bound belongs to a flow without accumulator. */
  lemma RefusedRecord(f: Freshness, rs: seq<TrafficRecord>, t: Tally, r: TrafficRecord)
    requires SlotOf(t.accs, r.flow).None?
    ensures forall i :: 0 <= i < |t.accs| ==> FlowFresh(f, rs + [r], t.accs[i].flow) == FlowFresh(f, rs, t.accs[i].flow)
    ensures TotalFresh(f, rs) <= TotalFresh(f, rs + [r])
  {
    hide Fresh;
    assert (rs + [r])[..|rs|] == rs;
  }

  ghost predicate AllSlotted(rs: seq<TrafficRecord>, accs: seq<Accumulator>) {
    forall k :: 0 <= k < |rs| ==> SlotOf(accs, rs[k].flow).Some?
  }

  lemma SlotsKept(rs: seq<TrafficRecord>, r: TrafficRecord, before: seq<Accumulator>, after: seq<Accumulator>)
    requires |before| <= |after| && forall i :: 0 <= i < |before| ==> after[i].flow == before[i].flow
    requires exists i :: 0 <= i < |after| && after[i].flow == r.flow
    ensures AllSlotted(rs, before) ==> AllSlotted(rs + [r], after)
  {
    if AllSlotted(rs, before) {
      forall k | 0 <= k < |rs + [r]| ensures SlotOf(after, (rs + [r])[k].flow).Some? {
        if k < |rs| {
          var i := SlotOf(before, rs[k].flow).value;
          assert after[i].flow == rs[k].flow;
        }
      }
    }
  }

  /** Conservation: as long as the fresh demand fits in 64 bits, accumulators
      and total account for it exactly. */
  lemma {:induction false} AttributionConserves(f: Freshness, rs: seq<TrafficRecord>)
    requires TotalFresh(f, rs) <= U64_MAX
    ensures Conserved(f, rs, AddAll(f, rs))
  {
    hide Fresh, Add;
    if |rs| == 0 {
    } else {
      var init, last := rs[..|rs| - 1], rs[|rs| - 1];
      assert rs == init + [last];
      AttributionConserves(f, init);
      AddConserves(f, init, AddAll(f, init), last);
    }
  }

  // ----- the join against the simple double sum ---------------------------------------

  lemma {:induction false} TotalConcat<T>(a: seq<T>, b: seq<T>, w: T -> U64)
    ensures Total(a + b, w) == Total(a, w) + Total(b, w)
  {
    if |b| == 0 {
      assert a + b == a;
    } else {
      TotalConcat(a, b[..|b| - 1], w);
      assert (a + b)[..|a + b| - 1] == a + b[..|b| - 1];
    }
  }

  /** What is recorded for one path, by any measure of a record. */
  function PathTotal(w: TrafficRecord -> U64, traffic: seq<TrafficRecord>, path: U64): nat {
    Total(RecordsOf(traffic, path), w)
  }

  /** How many of the resources a path traverses. */
  function Crossings(ids: seq<U64>, hops: seq<U64>): nat {
    if |ids| == 0 then 0 else Crossings(ids[..|ids| - 1], hops) + (if ids[|ids| - 1] in hops then 1 else 0)
  }

  /** Every path's total, once per resource of the component it crosses. */
  function Weighted(w: TrafficRecord -> U64, ids: seq<U64>, ps: seq<PathRecord>, traffic: seq<TrafficRecord>): nat {
    if |ps| == 0 then 0
    else
      var last := ps[|ps| - 1];
      Weighted(w, ids, ps[..|ps| - 1], traffic) + Crossings(ids, last.hops) * PathTotal(w, traffic, last.id)
  }

  lemma {:induction false} JoinPrefix(ps: seq<PathRecord>, more: seq<PathRecord>, traffic: seq<TrafficRecord>,
      through: seq<nat>)
    requires forall k :: 0 <= k < |through| ==> through[k] < |ps|
    ensures JoinPaths(ps + more, traffic, through) == JoinPaths(ps, traffic, through)
  {
    if |through| == 0 {
    } else {
      JoinPrefix(ps, more, traffic, through[..|through| - 1]);
    }
  }

  function Crossed(w: TrafficRecord -> U64, id: U64, ps: seq<PathRecord>, traffic: seq<TrafficRecord>): nat {
    if |ps| == 0 then 0
    else
      var last := ps[|ps| - 1];
      Crossed(w, id, ps[..|ps| - 1], traffic) + (if id in last.hops then PathTotal(w, traffic, last.id) else 0)
  }

  lemma {:induction false} JoinIsCrossed(w: TrafficRecord -> U64, id: U64, ps: seq<PathRecord>,
      traffic: seq<TrafficRecord>)
    ensures Total(JoinPaths(ps, traffic, PathsAt(ps, id)), w) == Crossed(w, id, ps, traffic)
  {
    hide Total, RecordsOf;
    if |ps| == 0 {
      assert PathsAt(ps, id) == [];
      TotalOfNothing(JoinPaths(ps, traffic, PathsAt(ps, id)), w);
    } else {
      var init, last := ps[..|ps| - 1], ps[|ps| - 1];
      JoinIsCrossed(w, id, init, traffic);
      assert ps == init + [last];
      JoinPrefix(init, [last], traffic, PathsAt(init, id));
      if id in last.hops {
        var at := PathsAt(ps, id);
        assert at[..|at| - 1] == PathsAt(init, id);
        TotalConcat(JoinPaths(ps, traffic, PathsAt(init, id)), RecordsOf(traffic, last.id), w);
      } else {
        assert PathsAt(ps, id) == PathsAt(init, id);
      }
    }
  }

  lemma {:induction false} WeightedSnoc(w: TrafficRecord -> U64, ids: seq<U64>, id: U64, ps: seq<PathRecord>,
      traffic: seq<TrafficRecord>)
    ensures Weighted(w, ids + [id], ps, traffic) == Weighted(w, ids, ps, traffic) + Crossed(w, id, ps, traffic)
  {
    hide PathTotal;
    if |ps| == 0 {
    } else {
      var last := ps[|ps| - 1];
      WeightedSnoc(w, ids, id, ps[..|ps| - 1], traffic);
      assert (ids + [id])[..|ids|] == ids;
      Distribute(Crossings(ids, last.hops), if id in last.hops then 1 else 0, PathTotal(w, traffic, last.id));
    }
  }

  lemma {:induction false} WeightedNothing(w: TrafficRecord -> U64, ps: seq<PathRecord>, traffic: seq<TrafficRecord>)
    ensures Weighted(w, [], ps, traffic) == 0
  {
    hide PathTotal;
    if |ps| == 0 {
    } else {
      WeightedNothing(w, ps[..|ps| - 1], traffic);
    }
  }

  /** What the join meets, by any measure of a record, is the incidence-weighted
      sum over paths: a path crossing k resources of the component counts k times. */
  lemma {:induction false} IncidencesWeighted(w: TrafficRecord -> U64, ids: seq<U64>, ps: seq<PathRecord>,
      traffic: seq<TrafficRecord>)
    ensures Total(Incidences(ids, ps, traffic), w) == Weighted(w, ids, ps, traffic)
  {
    if |ids| == 0 {
      WeightedNothing(w, ps, traffic);
    } else {
      var init, last := ids[..|ids| - 1], ids[|ids| - 1];
      IncidencesWeighted(w, init, ps, traffic);
      hide Total;
      assert ids == init + [last];
      WeightedSnoc(w, init, last, ps, traffic);
      JoinIsCrossed(w, last, ps, traffic);
      TotalConcat(Incidences(init, ps, traffic), JoinPaths(ps, traffic, PathsAt(ps, last)), w);
    }
  }

  // ----- which flows an accumulator stands for ---------------------------------------------

  /** The records hold fresh demand of the flow. */
  ghost predicate HasFresh(f: Freshness, rs: seq<TrafficRecord>, flow: U64) {
    exists k :: 0 <= k < |rs| && rs[k].flow == flow && FreshDemand(f, rs[k]) > 0
  }

  lemma HasFreshSnoc(f: Freshness, rs: seq<TrafficRecord>, r: TrafficRecord, flow: U64)
    ensures HasFresh(f, rs + [r], flow) <==> HasFresh(f, rs, flow) || (r.flow == flow && FreshDemand(f, r) > 0)
  {
    hide FreshDemand;
    var all := rs + [r];
    assert all[|rs|] == r;
    if HasFresh(f, rs, flow) {
      var k :| 0 <= k < |rs| && rs[k].flow == flow && FreshDemand(f, rs[k]) > 0;
      assert all[k] == rs[k];
    }
  }

  /** Every accumulator holds demand exactly when its flow has fresh demand, and
      until the population bound is hit every flow has one; saturation included. */
  ghost predicate Represents(f: Freshness, rs: seq<TrafficRecord>, t: Tally) {
    && FlowsDistinct(t.accs)
    && (forall i :: 0 <= i < |t.accs| ==> (t.accs[i].freshBps > 0 <==> HasFresh(f, rs, t.accs[i].flow)))
    && (|t.accs| < MAX_ACCUMULATORS ==> AllSlotted(rs, t.accs))
    && (!t.incomplete ==> AllSlotted(rs, t.accs))
  }

  lemma FillRepresents(f: Freshness, rs: seq<TrafficRecord>, u: Tally, slot: nat, r: TrafficRecord)
    requires FlowsDistinct(u.accs) && slot < |u.accs| && u.accs[slot].flow == r.flow
    requires forall i :: 0 <= i < |u.accs| ==> (u.accs[i].freshBps > 0 <==> HasFresh(f, rs, u.accs[i].flow))
    ensures var v := AddTo(f, u, slot, r);
            && FlowsDistinct(v.accs) && |v.accs| == |u.accs| && v.incomplete == u.incomplete
            && (forall i :: 0 <= i < |v.accs| ==> v.accs[i].flow == u.accs[i].flow)
            && (forall i :: 0 <= i < |v.accs| ==> (v.accs[i].freshBps > 0 <==> HasFresh(f, rs + [r], v.accs[i].flow)))
  {
    var v := AddTo(f, u, slot, r);
    forall i | 0 <= i < |v.accs| ensures v.accs[i].freshBps > 0 <==> HasFresh(f, rs + [r], v.accs[i].flow) {
      HasFreshSnoc(f, rs, r, u.accs[i].flow);
    }
    hide HasFresh, Fresh;
  }

  lemma OpenRepresents(f: Freshness, rs: seq<TrafficRecord>, t: Tally, r: TrafficRecord)
    requires Represents(f, rs, t) && SlotOf(t.accs, r.flow).None? && |t.accs| < MAX_ACCUMULATORS
    ensures var u := t.(accs := t.accs + [Accumulator(r.flow, r.path, 0, 0, 0, NO_TIME)]);
            && FlowsDistinct(u.accs)
            && forall i :: 0 <= i < |u.accs| ==> (u.accs[i].freshBps > 0 <==> HasFresh(f, rs, u.accs[i].flow))
  {
    assert !HasFresh(f, rs, r.flow);
    hide HasFresh, AllSlotted;
  }

  lemma AddRepresents(f: Freshness, rs: seq<TrafficRecord>, t: Tally, r: TrafficRecord)
    requires Represents(f, rs, t)
    ensures Represents(f, rs + [r], Add(f, t, r))
  {
    hide HasFresh, AddTo, SlotOf;
    var slot := SlotOf(t.accs, r.flow);
    if slot.Some? {
      FillRepresents(f, rs, t, slot.value, r);
      SlotsKept(rs, r, t.accs, AddTo(f, t, slot.value, r).accs);
    } else if |t.accs| >= MAX_ACCUMULATORS {
      forall i | 0 <= i < |t.accs| ensures HasFresh(f, rs + [r], t.accs[i].flow) <==> HasFresh(f, rs, t.accs[i].flow) {
        HasFreshSnoc(f, rs, r, t.accs[i].flow);
      }
    } else {
      OpenRepresents(f, rs, t, r);
      var u := t.(accs := t.accs + [Accumulator(r.flow, r.path, 0, 0, 0, NO_TIME)]);
      FillRepresents(f, rs, u, |t.accs|, r);
      SlotsKept(rs, r, t.accs, AddTo(f, u, |t.accs|, r).accs);
    }
  }

  lemma {:induction false} TallyRepresents(f: Freshness, rs: seq<TrafficRecord>)
    ensures Represents(f, rs, AddAll(f, rs))
  {
    hide Add, HasFresh;
    if |rs| == 0 {
      assert AddAll(f, rs) == EMPTY_TALLY;
    } else {
      var init, last := rs[..|rs| - 1], rs[|rs| - 1];
      TallyRepresents(f, init);
      AddRepresents(f, init, AddAll(f, init), last);
      assert rs == init + [last];
      hide Represents;
    }
  }

  // ----- what the join meets -------------------------------------------------------------------

  lemma {:induction false} RecordsOfMembers(traffic: seq<TrafficRecord>, path: U64, r: TrafficRecord)
    ensures r in RecordsOf(traffic, path) <==> r in traffic && r.path == path
  {
    if |traffic| == 0 {
      assert RecordsOf(traffic, path) == [];
    } else {
      RecordsOfMembers(traffic[..|traffic| - 1], path, r);
      assert traffic == traffic[..|traffic| - 1] + [traffic[|traffic| - 1]];
    }
  }

  ghost predicate OnListed(ps: seq<PathRecord>, through: seq<nat>, r: TrafficRecord) {
    exists k :: 0 <= k < |through| && through[k] < |ps| && ps[through[k]].id == r.path
  }

  lemma OnListedSnoc(ps: seq<PathRecord>, through: seq<nat>, p: nat, r: TrafficRecord)
    requires p < |ps|
    ensures OnListed(ps, through + [p], r) <==> OnListed(ps, through, r) || ps[p].id == r.path
  {
    var all := through + [p];
    assert all[|through|] == p;
    if OnListed(ps, through, r) {
      var k :| 0 <= k < |through| && through[k] < |ps| && ps[through[k]].id == r.path;
      assert all[k] == through[k];
    }
  }

  lemma {:induction false} JoinMembers(
    ps: seq<PathRecord>, traffic: seq<TrafficRecord>, through: seq<nat>, r: TrafficRecord)
    requires forall k :: 0 <= k < |through| ==> through[k] < |ps|
    ensures r in JoinPaths(ps, traffic, through) <==> r in traffic && OnListed(ps, through, r)
  {
    if |through| == 0 {
      assert JoinPaths(ps, traffic, through) == [];
    } else {
      hide OnListed, RecordsOf;
      var init, last := through[..|through| - 1], through[|through| - 1];
      JoinMembers(ps, traffic, init, r);
      RecordsOfMembers(traffic, ps[last].id, r);
      OnListedSnoc(ps, init, last, r);
      assert through == init + [last];
    }
  }

  /** A path of the record's that traverses one of the resources. */
  ghost predicate Carries(ps: seq<PathRecord>, ids: seq<U64>, r: TrafficRecord) {
    exists p, i :: 0 <= p < |ps| && 0 <= i < |ids| && ps[p].id == r.path && ids[i] in ps[p].hops
  }

  ghost predicate CarriedAt(ps: seq<PathRecord>, id: U64, r: TrafficRecord) {
    exists p :: 0 <= p < |ps| && ps[p].id == r.path && id in ps[p].hops
  }

  lemma CarriesSnoc(ps: seq<PathRecord>, ids: seq<U64>, id: U64, r: TrafficRecord)
    ensures Carries(ps, ids + [id], r) <==>
            Carries(ps, ids, r) || CarriedAt(ps, id, r)
  {
    var all := ids + [id];
    assert all[|ids|] == id;
    if Carries(ps, ids, r) {
      var p, i :| 0 <= p < |ps| && 0 <= i < |ids| && ps[p].id == r.path && ids[i] in ps[p].hops;
      assert all[i] == ids[i];
    }
  }

  /** The join meets exactly the records of paths through the resources. */
  lemma {:induction false} IncidenceMembers(
    ids: seq<U64>, ps: seq<PathRecord>, traffic: seq<TrafficRecord>, r: TrafficRecord)
    ensures r in Incidences(ids, ps, traffic) <==> r in traffic && Carries(ps, ids, r)
  {
    if |ids| == 0 {
      assert Incidences(ids, ps, traffic) == [];
    } else {
      hide Carries, CarriedAt, JoinPaths, PathsAt;
      var init, last := ids[..|ids| - 1], ids[|ids| - 1];
      IncidenceMembers(init, ps, traffic, r);
      JoinedAt(ps, traffic, last, r);
      CarriesSnoc(ps, init, last, r);
      assert ids == init + [last];
    }
  }

  lemma JoinedAt(ps: seq<PathRecord>, traffic: seq<TrafficRecord>, id: U64, r: TrafficRecord)
    ensures r in JoinPaths(ps, traffic, PathsAt(ps, id)) <==>
            r in traffic && CarriedAt(ps, id, r)
  {
    hide JoinPaths, Through;
    var through := PathsAt(ps, id);
    JoinMembers(ps, traffic, through, r);
    ThroughMeaning(ps, id);
    if p :| 0 <= p < |ps| && ps[p].id == r.path && id in ps[p].hops {
      assert p in through;
      var k :| 0 <= k < |through| && through[k] == p;
    }
    forall k | 0 <= k < |through| ensures id in ps[through[k]].hops {
      assert through[k] in through;
    }
  }

  /** The flow has fresh demand on a path through one of the resources. */
  ghost predicate Backed(f: Freshness, ids: seq<U64>, ps: seq<PathRecord>, traffic: seq<TrafficRecord>, flow: U64) {
    exists r :: r in traffic && r.flow == flow && FreshDemand(f, r) > 0 && Carries(ps, ids, r)
  }

  lemma BackedByJoin(f: Freshness, ids: seq<U64>, ps: seq<PathRecord>, traffic: seq<TrafficRecord>, flow: U64)
    ensures HasFresh(f, Incidences(ids, ps, traffic), flow) <==> Backed(f, ids, ps, traffic, flow)
  {
    hide Incidences, Carries, FreshDemand;
    var rs := Incidences(ids, ps, traffic);
    if HasFresh(f, rs, flow) {
      var k :| 0 <= k < |rs| && rs[k].flow == flow && FreshDemand(f, rs[k]) > 0;
      assert rs[k] in rs;
      IncidenceMembers(ids, ps, traffic, rs[k]);
    }
    if Backed(f, ids, ps, traffic, flow) {
      var r :| r in traffic && r.flow == flow && FreshDemand(f, r) > 0 && Carries(ps, ids, r);
      IncidenceMembers(ids, ps, traffic, r);
      var k :| 0 <= k < |rs| && rs[k] == r;
      assert HasFresh(f, rs, flow);
    }
  }

  // ----- the loops of detect ------------------------------------------------------------

  lemma AddAllSnoc(f: Freshness, rs: seq<TrafficRecord>, r: TrafficRecord)
    ensures AddAll(f, rs + [r]) == Add(f, AddAll(f, rs), r)
  {
    assert (rs + [r])[..|rs|] == rs;
  }

  lemma {:induction false} NoRecordsBelow(traffic: seq<TrafficRecord>, k: nat, path: U64)
    requires k <= |traffic| && forall j :: 0 <= j < k ==> traffic[j].path != path
    ensures RecordsOf(traffic[..k], path) == []
  {
    if k == 0 {
    } else {
      assert traffic[..k][..k - 1] == traffic[..k - 1];
      NoRecordsBelow(traffic, k - 1, path);
    }
  }

  lemma {:induction false} NoRecordsAbove(traffic: seq<TrafficRecord>, k: nat, path: U64)
    requires k <= |traffic| && forall j :: k <= j < |traffic| ==> traffic[j].path != path
    ensures RecordsOf(traffic, path) == RecordsOf(traffic[..k], path)
    decreases |traffic|
  {
    if k < |traffic| {
      NoRecordsAbove(traffic[..|traffic| - 1], k, path);
      assert traffic[..|traffic| - 1][..k] == traffic[..k];
    } else {
      assert traffic[..k] == traffic;
    }
  }

  /** Which slot holds which flow, as the hash map of detect knows it. */
  ghost predicate MapsFlows(accs: seq<Accumulator>, slots: map<U64, nat>) {
    && (forall i :: 0 <= i < |accs| ==> accs[i].flow in slots && slots[accs[i].flow] == i)
    && (forall flow :: flow in slots ==> slots[flow] < |accs| && accs[slots[flow]].flow == flow)
  }

  /** One record, with the flow's slot found through the map. */
  method AddRecord(f: Freshness, t0: Tally, slots0: map<U64, nat>, r: TrafficRecord)
      returns (t: Tally, slots: map<U64, nat>)
    requires MapsFlows(t0.accs, slots0)
    ensures MapsFlows(t.accs, slots) && t == Add(f, t0, r)
  {
    hide Fresh;
    t, slots := t0, slots0;
    ghost var known := SlotOf(t0.accs, r.flow);
    assert known.Some? <==> r.flow in slots;
    assert known.Some? ==> slots[r.flow] == known.value;
    var slot := 0;
    if r.flow !in slots {
      if |t.accs| >= MAX_ACCUMULATORS {
        t := t.(incomplete := true);
        return;
      }
      slot := |t.accs|;
      slots := slots[r.flow := slot];
      t := t.(accs := t.accs + [Accumulator(r.flow, r.path, 0, 0, 0, NO_TIME)]);
    } else {
      slot := slots[r.flow];
    }
    t := AddTo(f, t, slot, r);
  }

  /** The records of one path: a lower_bound, then on while the path matches. */
  method AddPath(f: Freshness, traffic: seq<TrafficRecord>, path: U64, t0: Tally, slots0: map<U64, nat>,
                 ghost met: seq<TrafficRecord>) returns (t: Tally, slots: map<U64, nat>)
    requires SortedBy(traffic, TrafficPath) && MapsFlows(t0.accs, slots0) && t0 == AddAll(f, met)
    ensures MapsFlows(t.accs, slots) && t == AddAll(f, met + RecordsOf(traffic, path))
  {
    hide Add, MapsFlows, AddAll;
    t, slots := t0, slots0;
    var at: nat := LowerBound(traffic, TrafficPath, path);
    assert forall j :: 0 <= j < at ==> TrafficPath(traffic[j]) < path;
    NoRecordsBelow(traffic, at, path);
    assert met + [] == met;
    while at < |traffic| && traffic[at].path == path
      invariant at <= |traffic| && MapsFlows(t.accs, slots)
      invariant at < |traffic| ==> path <= TrafficPath(traffic[at])
      invariant t == AddAll(f, met + RecordsOf(traffic[..at], path))
    {
      ghost var seen := RecordsOf(traffic[..at], path);
      t, slots := AddRecord(f, t, slots, traffic[at]);
      AddAllSnoc(f, met + seen, traffic[at]);
      assert traffic[..at + 1][..at] == traffic[..at];
      assert met + (seen + [traffic[at]]) == met + seen + [traffic[at]];
      assert at + 1 < |traffic| ==> TrafficPath(traffic[at]) <= TrafficPath(traffic[at + 1]);
      at := at + 1;
    }
    forall j | at <= j < |traffic| ensures traffic[j].path != path {
      assert j == at || TrafficPath(traffic[at]) <= TrafficPath(traffic[j]);
    }
    NoRecordsAbove(traffic, at, path);
  }

  /** The paths through one resource. */
  method AddResource(f: Freshness, ps: seq<PathRecord>, traffic: seq<TrafficRecord>, through: seq<U64>, t0: Tally,
                     slots0: map<U64, nat>, ghost met: seq<TrafficRecord>) returns (t: Tally, slots: map<U64, nat>)
    requires SortedBy(traffic, TrafficPath) && MapsFlows(t0.accs, slots0) && t0 == AddAll(f, met)
    requires forall j :: 0 <= j < |through| ==> through[j] < |ps|
    ensures MapsFlows(t.accs, slots) && t == AddAll(f, met + JoinPaths(ps, traffic, through))
  {
    hide MapsFlows, AddAll, RecordsOf;
    t, slots := t0, slots0;
    assert met + [] == met;
    for k := 0 to |through|
      invariant MapsFlows(t.accs, slots) && t == AddAll(f, met + JoinPaths(ps, traffic, through[..k]))
    {
      ghost var joined := JoinPaths(ps, traffic, through[..k]);
      ghost var more := RecordsOf(traffic, ps[through[k]].id);
      t, slots := AddPath(f, traffic, ps[through[k]].id, t, slots, met + joined);
      assert through[..k + 1][..k] == through[..k];
      assert met + joined + more == met + (joined + more);
    }
    assert through[..|through|] == through;
  }

  /** The attribution loops: component resources, paths through each, records. */
  method Accumulate(f: Freshness, ids: seq<U64>, ps: seq<PathRecord>, ix: ReverseIndex, traffic: seq<TrafficRecord>)
    returns (t: Tally)
    requires ValidPaths(ps) && ReverseOf(ps, ix) && SortedBy(traffic, TrafficPath)
    ensures t == AddAll(f, Incidences(ids, ps, traffic))
  {
    hide MapsFlows, AddAll, ValidPaths, ReverseOf, RecordsOf, JoinPaths, Through, SortedBy;
    var slots: map<U64, nat> := map[];
    t := EMPTY_TALLY;
    NothingTallied(f);
    for i := 0 to |ids|
      invariant MapsFlows(t.accs, slots) && t == AddAll(f, Incidences(ids[..i], ps, traffic))
    {
      var through := PathsThrough(ps, ix, ids[i]);
      assert through == PathsAt(ps, ids[i]);
      t, slots := AddResource(f, ps, traffic, through, t, slots, Incidences(ids[..i], ps, traffic));
      assert ids[..i + 1][..i] == ids[..i];
    }
    assert ids[..|ids|] == ids;
  }

  lemma NothingTallied(f: Freshness)
    ensures AddAll(f, []) == EMPTY_TALLY && MapsFlows(EMPTY_TALLY.accs, map[])
  {
  }

  // ----- contributors ---------------------------------------------------------------------

  datatype Contributor = Contributor(flow: U64, path: U64, demand: U64, share: U32, observedAt: Millis)

  /** Greatest fresh demand first, then flow; flows differ, so paths never decide. */
  function AccumulatorKey(a: Accumulator): int {
    (U64_MAX - a.freshBps) * 0x1_0000_0000_0000_0000 + a.flow
  }

  function ContributorKey(c: Contributor): int {
    (U32_MAX - c.share) * 0x1_0000_0000_0000_0000 + c.flow
  }

  function ContributorOf(a: Accumulator, whole: U64): Contributor {
    Contributor(a.flow, a.path, a.freshBps, Ppm(a.freshBps, whole), a.observedAt)
  }

  datatype Collected = Collected(listed: seq<Contributor>, count: nat, truncated: bool)

  /** Accumulators with fresh demand, as many as fit. */
  function Collect(accs: seq<Accumulator>, whole: U64): Collected {
    if |accs| == 0 then Collected([], 0, false)
    else
      var c, a := Collect(accs[..|accs| - 1], whole), accs[|accs| - 1];
      if a.freshBps == 0 then c
      else if |c.listed| >= MAX_CONTRIBUTORS then c.(count := c.count + 1, truncated := true)
      else c.(listed := c.listed + [ContributorOf(a, whole)], count := c.count + 1)
  }

  function Contributors(t: Tally): Collected {
    var c := Collect(SortBy(t.accs, AccumulatorKey), t.freshBps);
    c.(listed := SortBy(c.listed, ContributorKey))
  }

  function ShareBy(c: Contributor): U64 { c.share }

  function Positive(accs: seq<Accumulator>): nat {
    if |accs| == 0 then 0 else Positive(accs[..|accs| - 1]) + (if accs[|accs| - 1].freshBps > 0 then 1 else 0)
  }

  lemma {:induction false} CollectCounts(accs: seq<Accumulator>, whole: U64)
    ensures var c := Collect(accs, whole);
            && c.count == Positive(accs)
            && |c.listed| == Min(c.count, MAX_CONTRIBUTORS)
            && (c.truncated <==> c.count > MAX_CONTRIBUTORS)
  {
    hide Ppm;
    if |accs| == 0 {
    } else {
      CollectCounts(accs[..|accs| - 1], whole);
    }
  }

  /** One more listed share, scaled back, costs no more than its demand. */
  lemma ShareStep(shares: nat, held: nat, part: U64, whole: U64)
    requires shares * whole <= held * PPM_SCALE
    ensures (shares + Ppm(part, whole)) * whole <= (held + part) * PPM_SCALE
    ensures shares * whole <= (held + part) * PPM_SCALE
  {
    Distribute(held, part, PPM_SCALE);
    Distribute(shares, Ppm(part, whole), whole);
    if whole != 0 {
      RatioScaledBack(part, whole);
    }
  }

  lemma TotalSnoc<T>(s: seq<T>, x: T, w: T -> U64)
    ensures Total(s + [x], w) == Total(s, w) + w(x)
  {
    assert (s + [x])[..|s|] == s;
  }

  lemma {:induction false} CollectShares(accs: seq<Accumulator>, whole: U64)
    ensures Total(Collect(accs, whole).listed, ShareBy) * whole <= Held(accs) * PPM_SCALE
  {
    hide Ppm;
    if |accs| == 0 {
      TotalOfNothing(Collect(accs, whole).listed, ShareBy);
    } else {
      var init, a := accs[..|accs| - 1], accs[|accs| - 1];
      CollectShares(init, whole);
      hide Total;
      var c := Collect(init, whole);
      ShareStep(Total(c.listed, ShareBy), Held(init), a.freshBps, whole);
      TotalSnoc(c.listed, ContributorOf(a, whole), ShareBy);
      TotalSnoc(init, a, HeldBy);
      assert accs == init + [a];
    }
  }

  /** Counting, listing and truncating agree, and listed shares scaled back
      stay within the demand held. */
  lemma CollectMeaning(accs: seq<Accumulator>, whole: U64)
    ensures var c := Collect(accs, whole);
            && c.count == Positive(accs)
            && |c.listed| == Min(c.count, MAX_CONTRIBUTORS)
            && (c.truncated <==> c.count > MAX_CONTRIBUTORS)
            && Total(c.listed, ShareBy) * whole <= Held(accs) * PPM_SCALE
  {
    hide Collect, Positive, Total;
    CollectCounts(accs, whole);
    CollectShares(accs, whole);
  }

  /** Absent 64-bit saturation, contributor shares add up to at most one
      million, however many contributors were left out. */
  lemma ContributorSharesBounded(f: Freshness, rs: seq<TrafficRecord>)
    requires TotalFresh(f, rs) <= U64_MAX
    ensures Total(Contributors(AddAll(f, rs)).listed, ShareBy) <= PPM_SCALE
  {
    hide Fresh, AddAll, Collect, SortBy, Total;
    var t := AddAll(f, rs);
    AttributionConserves(f, rs);
    var sorted := SortBy(t.accs, AccumulatorKey);
    var c := Collect(sorted, t.freshBps);
    TotalSort(t.accs, AccumulatorKey, HeldBy);
    TotalSort(c.listed, ContributorKey, ShareBy);
    CollectMeaning(sorted, t.freshBps);
    if t.freshBps == 0 {
      NoDemandNoContributors(sorted, t.freshBps);
      TotalOfNothing(c.listed, ShareBy);
    } else {
      CancelWhole(Total(c.listed, ShareBy), t.freshBps, t.freshBps, PPM_SCALE);
    }
  }

  lemma {:induction false} NoDemandNoContributors(accs: seq<Accumulator>, whole: U64)
    requires Held(accs) == 0
    ensures Collect(accs, whole).listed == []
  {
    if |accs| == 0 {
    } else {
      NoDemandNoContributors(accs[..|accs| - 1], whole);
    }
  }

  /** The first contributor has the greatest share. */
  lemma DominantFirst(t: Tally, k: nat)
    requires k < |Contributors(t).listed|
    ensures Contributors(t).listed[k].share <= Contributors(t).listed[0].share
  {
    hide Collect, SortBy;
    var listed := Contributors(t).listed;
    assert k > 0 ==> ContributorKey(listed[0]) <= ContributorKey(listed[k]);
  }

  // ----- whom the contributors name -------------------------------------------------------------

  ghost predicate NamesFlow(cs: seq<Contributor>, flow: U64) { exists k :: 0 <= k < |cs| && cs[k].flow == flow }

  ghost predicate Holds(accs: seq<Accumulator>, flow: U64) {
    exists k :: 0 <= k < |accs| && accs[k].flow == flow && accs[k].freshBps > 0
  }

  lemma {:induction false} CollectNames(accs: seq<Accumulator>, whole: U64, flow: U64)
    ensures var c := Collect(accs, whole);
            && (NamesFlow(c.listed, flow) ==> Holds(accs, flow))
            && (!c.truncated && Holds(accs, flow) ==> NamesFlow(c.listed, flow))
  {
    hide Ppm;
    if |accs| == 0 {
      assert Collect(accs, whole).listed == [];
    } else {
      var init, a := accs[..|accs| - 1], accs[|accs| - 1];
      CollectNames(init, whole, flow);
      var c, d := Collect(init, whole), Collect(accs, whole);
      assert forall k :: 0 <= k < |init| ==> init[k] == accs[k];
      if d.listed != c.listed {
        assert d.listed == c.listed + [ContributorOf(a, whole)];
        assert forall k :: 0 <= k < |c.listed| ==> d.listed[k] == c.listed[k];
        assert d.listed[|c.listed|].flow == a.flow;
      }
    }
  }

  lemma HoldsSorted(accs: seq<Accumulator>, flow: U64)
    ensures Holds(SortBy(accs, AccumulatorKey), flow) <==> Holds(accs, flow)
  {
    hide SortBy;
    SortMembers(accs, AccumulatorKey);
    var sorted := SortBy(accs, AccumulatorKey);
    if Holds(accs, flow) {
      var k :| 0 <= k < |accs| && accs[k].flow == flow && accs[k].freshBps > 0;
      assert accs[k] in sorted;
    }
    if Holds(sorted, flow) {
      var k :| 0 <= k < |sorted| && sorted[k].flow == flow && sorted[k].freshBps > 0;
      assert sorted[k] in accs;
    }
  }

  lemma NamesSorted(cs: seq<Contributor>, flow: U64)
    ensures NamesFlow(SortBy(cs, ContributorKey), flow) <==> NamesFlow(cs, flow)
  {
    hide SortBy;
    SortMembers(cs, ContributorKey);
    var sorted := SortBy(cs, ContributorKey);
    if NamesFlow(cs, flow) {
      var k :| 0 <= k < |cs| && cs[k].flow == flow;
      assert cs[k] in sorted;
    }
    if NamesFlow(sorted, flow) {
      var k :| 0 <= k < |sorted| && sorted[k].flow == flow;
      assert sorted[k] in cs;
    }
  }

  /** Contributors are flows with fresh demand on paths through the resources;
      and all of them are listed unless a bound on their number was hit. */
  lemma ContributorsBacked(f: Freshness, ids: seq<U64>, ps: seq<PathRecord>, traffic: seq<TrafficRecord>, flow: U64)
    ensures var t := AddAll(f, Incidences(ids, ps, traffic));
            var c := Contributors(t);
            && (NamesFlow(c.listed, flow) ==> Backed(f, ids, ps, traffic, flow))
            && (!t.incomplete && !c.truncated && Backed(f, ids, ps, traffic, flow) ==> NamesFlow(c.listed, flow))
  {
    hide AddAll, Incidences, SortBy, Collect, HasFresh, Backed, NamesFlow, Holds, SlotOf;
    var rs := Incidences(ids, ps, traffic);
    var t := AddAll(f, rs);
    TallyRepresents(f, rs);
    BackedByJoin(f, ids, ps, traffic, flow);
    HeldMeansFresh(f, rs, t, flow);
    var sorted := SortBy(t.accs, AccumulatorKey);
    HoldsSorted(t.accs, flow);
    CollectNames(sorted, t.freshBps, flow);
    NamesSorted(Collect(sorted, t.freshBps).listed, flow);
  }

  lemma HeldMeansFresh(f: Freshness, rs: seq<TrafficRecord>, t: Tally, flow: U64)
    requires Represents(f, rs, t)
    ensures Holds(t.accs, flow) ==> HasFresh(f, rs, flow)
    ensures !t.incomplete && HasFresh(f, rs, flow) ==> Holds(t.accs, flow)
  {
    if !t.incomplete && HasFresh(f, rs, flow) {
      var k :| 0 <= k < |rs| && rs[k].flow == flow && FreshDemand(f, rs[k]) > 0;
      var slot := SlotOf(t.accs, rs[k].flow);
      assert t.accs[slot.value].flow == flow;
    }
  }
}
