/** Classification of every resource from capacity and signal evidence
    (src/detection.cpp): pressure, coverage, admissibility, saturation. */
module Classification {
  import opened Base
  import opened Model
  import opened Ordering
  import opened Checked
  import opened Totals
  import opened Snapshots

  datatype Cell = Cell(utilization: U32, queue: U32, buffer: U32, pressure: U32,
                       covered: bool, admissible: bool, saturated: bool, contradictory: bool, stale: bool)

  const BLANK := Cell(0, 0, 0, 0, false, false, false, false, false)

  /** A resource as one evaluation sees it; units is 0 without usable capacity. */
  datatype Reading = Reading(id: U64, region: U64, units: U64, drops: U64, cell: Cell)

  predicate Trusted(quality: U8) { quality == QUALITY_HEALTHY || quality == QUALITY_DEGRADED }

  /** Occupancy pressure with no load behind it, or offered load with nothing
      observed on the resource. */
  predicate Contradicts(th: Thresholds, utilization: U32, pressed: bool, s: SignalRecord) {
    || (utilization < th.contradictionPpm && pressed)
    || (s.offered > 0 && s.utilized == 0 && s.queueDepth == 0 && s.drops == 0)
  }

  function Sense(th: Thresholds, e: CapacityEntry, s: SignalRecord): (c: Cell)
    ensures c.covered && !c.stale && (c.saturated ==> c.admissible) && !(c.admissible && c.contradictory)
  {
    var utilization, queue, buffer := Ppm(s.utilized, e.units), Ppm(s.queueDepth, e.queueLimit),
        Ppm(s.bufferUsed, e.bufferLimit);
    var queuePressed := e.queueLimit != 0 && queue >= th.queuePpm;
    var bufferPressed := e.bufferLimit != 0 && buffer >= th.bufferPpm;
    var saturated := utilization >= th.saturationPpm || queuePressed || bufferPressed;
    var contradictory := Contradicts(th, utilization, queuePressed || bufferPressed, s);
    var admissible := Trusted(s.quality) && s.confidence >= th.minConfidencePpm && !contradictory;
    Cell(utilization, queue, buffer, Max(utilization, Max(queue, buffer)),
         true, admissible, admissible && saturated, contradictory, false)
  }

  predicate Usable(e: Option<CapacityEntry>) { e.Some? && e.value.usable && e.value.units != 0 }

  function Read(th: Thresholds, now: Millis, es: seq<CapacityEntry>, ss: seq<SignalRecord>, r: Resource): Reading {
    var e, s := FindCapacity(es, r.id), FindSignal(ss, r.id);
    if !Usable(e) then Reading(r.id, r.region, 0, 0, BLANK)
    else if s.None? then Reading(r.id, r.region, e.value.units, 0, BLANK)
    else if AgeMs(s.value.observedAt, now) > th.maxSignalAge || s.value.quality == QUALITY_MISSING then
      Reading(r.id, r.region, e.value.units, 0, BLANK.(stale := true))
    else Reading(r.id, r.region, e.value.units, s.value.drops, Sense(th, e.value, s.value))
  }

  function ReadAll(th: Thresholds, now: Millis, es: seq<CapacityEntry>, ss: seq<SignalRecord>,
      rs: seq<Resource>): (r: seq<Reading>)
    ensures |r| == |rs| && forall i :: 0 <= i < |rs| ==> r[i] == Read(th, now, es, ss, rs[i])
  {
    seq(|rs|, i requires 0 <= i < |rs| => Read(th, now, es, ss, rs[i]))
  }

  // ----- totals -----------------------------------------------------------------------

  function FabricUnits(r: Reading): U64 { r.units }
  function CoveredUnits(r: Reading): U64 { if r.cell.covered then r.units else 0 }
  function AdmissibleUnits(r: Reading): U64 { if r.cell.admissible then r.units else 0 }
  function SaturatedUnits(r: Reading): U64 { if r.cell.saturated then r.units else 0 }

  function Count(rs: seq<Reading>, p: Reading -> bool): (n: nat)
    ensures n <= |rs|
  {
    if |rs| == 0 then 0 else Count(rs[..|rs| - 1], p) + (if p(rs[|rs| - 1]) then 1 else 0)
  }

  predicate IsAdmissible(r: Reading) { r.cell.admissible }
  predicate IsSaturated(r: Reading) { r.cell.saturated }
  predicate IsUnusable(r: Reading) { r.units == 0 }

  /** What the planner can see of a resource. */
  datatype Pressure = Pressure(resource: U64, drops: U64, saturated: bool, admissible: bool, contradictory: bool)

  predicate Notable(c: Cell) { c.covered && (c.saturated || c.contradictory || !c.admissible) }

  function Pressures(rs: seq<Reading>): (ps: seq<Pressure>)
    ensures |ps| <= MAX_PRESSURES
  {
    if |rs| == 0 then []
    else
      var ps, r := Pressures(rs[..|rs| - 1]), rs[|rs| - 1];
      if Notable(r.cell) && |ps| < MAX_PRESSURES
      then ps + [Pressure(r.id, r.drops, r.cell.saturated, r.cell.admissible, r.cell.contradictory)]
      else ps
  }

  datatype Census = Census(
    fabric: U64, covered: U64, admissible: U64, saturated: U64,
    admissibleCount: nat, saturatedCount: nat, unusableCount: nat, pressures: seq<Pressure>)

  function CensusOf(rs: seq<Reading>): Census {
    Census(Accumulated(rs, FabricUnits), Accumulated(rs, CoveredUnits), Accumulated(rs, AdmissibleUnits),
           Accumulated(rs, SaturatedUnits), Count(rs, IsAdmissible), Count(rs, IsSaturated), Count(rs, IsUnusable),
           Pressures(rs))
  }

  /** The classification loop. */
  method Classify(th: Thresholds, now: Millis, es: seq<CapacityEntry>, ss: seq<SignalRecord>, rs: seq<Resource>)
    returns (readings: seq<Reading>, t: Census)
    ensures readings == ReadAll(th, now, es, ss, rs) && t == CensusOf(readings)
  {
    hide Sense, SatAdd, FindCapacity, FindSignal, CensusOf;
    NothingCounted();
    readings, t := [], Census(0, 0, 0, 0, 0, 0, 0, []);
    for i := 0 to |rs|
      invariant |readings| == i && (forall j :: 0 <= j < i ==> readings[j] == Read(th, now, es, ss, rs[j]))
      invariant t == CensusOf(readings)
    {
      var r := rs[i];
      ghost var before := readings;
      var entry := FindCapacity(es, r.id);
      if entry.None? || !entry.value.usable || entry.value.units == 0 {
        readings := readings + [Reading(r.id, r.region, 0, 0, BLANK)];
        t := t.(unusableCount := t.unusableCount + 1);
        CensusStep(before, Reading(r.id, r.region, 0, 0, BLANK));
        continue;
      }
      var units := entry.value.units;
      t := t.(fabric := SatAdd(t.fabric, units));
      var sample := FindSignal(ss, r.id);
      if sample.None? {
        readings := readings + [Reading(r.id, r.region, units, 0, BLANK)];
        CensusStep(before, Reading(r.id, r.region, units, 0, BLANK));
        continue;
      }
      if AgeMs(sample.value.observedAt, now) > th.maxSignalAge || sample.value.quality == QUALITY_MISSING {
        readings := readings + [Reading(r.id, r.region, units, 0, BLANK.(stale := true))];
        CensusStep(before, Reading(r.id, r.region, units, 0, BLANK.(stale := true)));
        continue;
      }
      var cell := Sense(th, entry.value, sample.value);
      t := t.(covered := SatAdd(t.covered, units));
      if cell.admissible {
        t := t.(admissible := SatAdd(t.admissible, units), admissibleCount := t.admissibleCount + 1);
        if cell.saturated {
          t := t.(saturated := SatAdd(t.saturated, units), saturatedCount := t.saturatedCount + 1);
        }
      }
      if (cell.saturated || cell.contradictory || !cell.admissible) && |t.pressures| < MAX_PRESSURES {
        t := t.(pressures := t.pressures
          + [Pressure(r.id, sample.value.drops, cell.saturated, cell.admissible, cell.contradictory)]);
      }
      readings := readings + [Reading(r.id, r.region, units, sample.value.drops, cell)];
      CensusStep(before, Reading(r.id, r.region, units, sample.value.drops, cell));
    }
    assert readings == ReadAll(th, now, es, ss, rs);
  }

  lemma NothingCounted()
    ensures CensusOf([]) == Census(0, 0, 0, 0, 0, 0, 0, [])
  {
  }

  lemma CensusStep(rs: seq<Reading>, r: Reading)
    ensures var t, u := CensusOf(rs), CensusOf(rs + [r]);
            && u.fabric == SatAdd(t.fabric, r.units)
            && u.covered == SatAdd(t.covered, CoveredUnits(r))
            && u.admissible == SatAdd(t.admissible, AdmissibleUnits(r))
            && u.saturated == SatAdd(t.saturated, SaturatedUnits(r))
            && u.admissibleCount == t.admissibleCount + (if r.cell.admissible then 1 else 0)
            && u.saturatedCount == t.saturatedCount + (if r.cell.saturated then 1 else 0)
            && u.unusableCount == t.unusableCount + (if r.units == 0 then 1 else 0)
            && u.pressures == (if Notable(r.cell) && |t.pressures| < MAX_PRESSURES
                               then t.pressures + [Pressure(r.id, r.drops, r.cell.saturated, r.cell.admissible,
                                   r.cell.contradictory)]
                               else t.pressures)
    ensures forall a: U64 :: SatAdd(a, 0) == a
  {
    assert (rs + [r])[..|rs|] == rs;
  }

  // ----- what the figures mean -----------------------------------------------------------

  ghost predicate Nested(rs: seq<Reading>) {
    forall i :: 0 <= i < |rs| ==>
      var c := rs[i].cell;
      (c.saturated ==> c.admissible) && (c.admissible ==> c.covered) && (c.covered ==> rs[i].units > 0)
  }

  lemma ReadingsNested(th: Thresholds, now: Millis, es: seq<CapacityEntry>, ss: seq<SignalRecord>, rs: seq<Resource>)
    ensures Nested(ReadAll(th, now, es, ss, rs))
  {
    hide FindCapacity, FindSignal;
    var readings := ReadAll(th, now, es, ss, rs);
    forall i | 0 <= i < |readings|
      ensures var c := readings[i].cell;
              (c.saturated ==> c.admissible) && (c.admissible ==> c.covered) && (c.covered ==> readings[i].units > 0)
    {
      assert readings[i] == Read(th, now, es, ss, rs[i]);
    }
  }

  /** saturated <= admissible <= covered <= fabric, saturating sums included,
      so no coverage figure exceeds one million. */
  lemma CoverageBounded(rs: seq<Reading>)
    requires Nested(rs)
    ensures var t := CensusOf(rs);
            && t.saturated <= t.admissible <= t.covered <= t.fabric
            && Ppm(t.saturated, t.fabric) <= PPM_SCALE
            && Ppm(t.admissible, t.fabric) <= PPM_SCALE
            && Ppm(t.covered, t.fabric) <= PPM_SCALE
            && (|rs| <= MAX_RESOURCES ==> Ppm(|rs| - t.unusableCount, |rs|) <= PPM_SCALE)
  {
    hide Accumulated, Count, Pressures, RatioPpm;
    var t := CensusOf(rs);
    AccumulatedMonotone(rs, SaturatedUnits, AdmissibleUnits);
    AccumulatedMonotone(rs, AdmissibleUnits, CoveredUnits);
    AccumulatedMonotone(rs, CoveredUnits, FabricUnits);
    PpmWithinScale(t.saturated, t.fabric);
    PpmWithinScale(t.admissible, t.fabric);
    PpmWithinScale(t.covered, t.fabric);
    if |rs| <= MAX_RESOURCES {
      PpmWithinScale(|rs| - t.unusableCount, |rs|);
    }
  }
}
