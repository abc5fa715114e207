/** Readings in terms of the records they come from (src/detection.cpp): what
    capacity and telemetry must say for a resource to be believed, saturated and
    part of a component. */
module ReadingTheorems {
  import opened Base
  import opened Model
  import opened Ordering
  import opened Checked
  import opened Totals
  import opened Snapshots
  import opened TopologyIndex
  import opened Classification
  import opened SaturationHistory
  import opened SaturatedComponents
  import opened SaturationSearch
  import opened Detection
  import opened DetectionTheorems
  import opened Intervention

  // ----- policy -----------------------------------------------------------------

  /** The thresholds in force: the policy's, or the built-in ones without one. */
  predicate Governs(e: Evidence, th: Thresholds) {
    && (e.policy.Some? ==> th == e.policy.value.thresholds)
    && (e.policy.None? ==> th == DEFAULT_THRESHOLDS)
  }

  lemma GoverningThresholds(e: Evidence, th: Thresholds)
    requires Governs(e, th)
    ensures ThresholdsOf(e) == th
  {
  }

  // ----- one sample --------------------------------------------------------------------------

  /** Occupancy of something that has a limit reaches its threshold. */
  predicate Pressed(part: U64, limit: U64, floor: U32) { limit > 0 && Reaches(part, limit, floor) }

  predicate Occupied(th: Thresholds, c: CapacityEntry, s: SignalRecord) {
    Pressed(s.queueDepth, c.queueLimit, th.queuePpm) || Pressed(s.bufferUsed, c.bufferLimit, th.bufferPpm)
  }

  predicate Loaded(th: Thresholds, c: CapacityEntry, s: SignalRecord) {
    Reaches(s.utilized, c.units, th.saturationPpm) || Occupied(th, c, s)
  }

  /** Neither occupancy without load behind it nor load that leaves no trace. */
  predicate Coherent(th: Thresholds, c: CapacityEntry, s: SignalRecord) {
    && (Occupied(th, c, s) ==> Reaches(s.utilized, c.units, th.contradictionPpm))
    && (s.offered > 0 ==> s.utilized + s.queueDepth + s.drops > 0)
  }

  predicate Believed(th: Thresholds, c: CapacityEntry, s: SignalRecord) {
    && (s.quality == 3 || s.quality == 4) && s.confidence >= th.minConfidencePpm && Coherent(th, c, s)
  }

  /** A sample is admissible exactly when it is believed, and saturated exactly
      when it is believed and loaded. */
  lemma SenseExactly(th: Thresholds, c: CapacityEntry, s: SignalRecord)
    ensures var x := Sense(th, c, s);
            && (x.admissible <==> Believed(th, c, s))
            && (x.saturated <==> Believed(th, c, s) && Loaded(th, c, s))
            && (x.contradictory <==> !Coherent(th, c, s))
  {
    PpmReaches(s.utilized, c.units, th.saturationPpm);
    PpmReaches(s.utilized, c.units, th.contradictionPpm);
    PpmReaches(s.queueDepth, c.queueLimit, th.queuePpm);
    PpmReaches(s.bufferUsed, c.bufferLimit, th.bufferPpm);
    hide Ppm, Reaches;
  }

  /** Every gauge of a sample is the ratio it stands for, threshold by threshold;
      pressure is the worst of the three. */
  lemma GaugesExactly(th: Thresholds, c: CapacityEntry, s: SignalRecord, t: U32)
    ensures var x := Sense(th, c, s);
            && (x.utilization >= t <==> Reaches(s.utilized, c.units, t))
            && (x.queue >= t <==> Reaches(s.queueDepth, c.queueLimit, t))
            && (x.buffer >= t <==> Reaches(s.bufferUsed, c.bufferLimit, t))
            && (x.pressure >= t <==> x.utilization >= t || x.queue >= t || x.buffer >= t)
  {
    PpmReaches(s.utilized, c.units, t);
    PpmReaches(s.queueDepth, c.queueLimit, t);
    PpmReaches(s.bufferUsed, c.bufferLimit, t);
    hide Ppm, Reaches;
  }

  // ----- one resource ---------------------------------------------------------------------------

  /** What detection looks at: the records, the thresholds in force and the time. */
  datatype Records = Records(
    capacity: seq<CapacityEntry>, signals: seq<SignalRecord>, th: Thresholds, now: Millis)

  predicate Provides(c: CapacityEntry, id: U64) { c.resource == id && c.usable && c.units > 0 }

  predicate Current(d: Records, s: SignalRecord, id: U64) {
    s.resource == id && s.quality != 1 && WithinAge(s.observedAt, d.now, d.th.maxSignalAge)
  }

  /** The usable capacity and the current sample of a resource. */
  ghost predicate Sighted(d: Records, id: U64, c: CapacityEntry, s: SignalRecord) {
    c in d.capacity && Provides(c, id) && s in d.signals && Current(d, s, id)
  }

  ghost predicate ShowsBelief(d: Records, id: U64) {
    exists c, s :: Sighted(d, id, c, s) && Believed(d.th, c, s)
  }

  ghost predicate ShowsSaturation(d: Records, id: U64) {
    exists c, s :: Sighted(d, id, c, s) && Believed(d.th, c, s) && Loaded(d.th, c, s)
  }

  ghost predicate ValidRecords(d: Records) { ValidCapacity(d.capacity) && ValidSignals(d.signals) }

  lemma CapacityFound(es: seq<CapacityEntry>, id: U64, c: CapacityEntry)
    requires ValidCapacity(es) && id != 0
    ensures FindCapacity(es, id) == Some(c) <==> c in es && c.resource == id
    ensures FindCapacity(es, id).Some? ==> FindCapacity(es, id).value in es && FindCapacity(es, id).value.resource == id
  {
    if c in es && c.resource == id {
      var i :| 0 <= i < |es| && es[i] == c;
      assert CapacityKey(es[i]) == id;
    }
  }

  lemma SignalFound(ss: seq<SignalRecord>, id: U64, s: SignalRecord)
    requires ValidSignals(ss) && id != 0
    ensures FindSignal(ss, id) == Some(s) <==> s in ss && s.resource == id
    ensures FindSignal(ss, id).Some? ==> FindSignal(ss, id).value in ss && FindSignal(ss, id).value.resource == id
  {
    if s in ss && s.resource == id {
      var i :| 0 <= i < |ss| && ss[i] == s;
      assert SignalKey(ss[i]) == id;
    }
  }

  function ReadingIn(d: Records, r: Resource): Reading { Read(d.th, d.now, d.capacity, d.signals, r) }

  /** A sighted resource is read from exactly those two records. */
  lemma SightedReading(d: Records, r: Resource, c: CapacityEntry, s: SignalRecord)
    requires ValidRecords(d) && r.id != 0 && Sighted(d, r.id, c, s)
    ensures ReadingIn(d, r) == Reading(r.id, r.region, c.units, s.drops, Sense(d.th, c, s))
  {
    hide ValidCapacity, ValidSignals, FindCapacity, FindSignal, Sense;
    CapacityFound(d.capacity, r.id, c);
    SignalFound(d.signals, r.id, s);
    AgeExactly(s.observedAt, d.now, d.th.maxSignalAge);
  }

  /** A resource covered by a reading is sighted. */
  lemma CoveredSighted(d: Records, r: Resource) returns (c: CapacityEntry, s: SignalRecord)
    requires ValidRecords(d) && r.id != 0 && ReadingIn(d, r).cell.covered
    ensures Sighted(d, r.id, c, s)
  {
    hide ValidCapacity, ValidSignals, FindCapacity, FindSignal, Sense;
    c, s := FindCapacity(d.capacity, r.id).value, FindSignal(d.signals, r.id).value;
    CapacityFound(d.capacity, r.id, c);
    SignalFound(d.signals, r.id, s);
    AgeExactly(s.observedAt, d.now, d.th.maxSignalAge);
  }

  /** A resource is believed exactly when its records show it, and saturated
      exactly when they show that. */
  lemma ReadingExactly(d: Records, r: Resource)
    requires ValidRecords(d) && r.id != 0
    ensures ReadingIn(d, r).cell.covered <==> exists c, s :: Sighted(d, r.id, c, s)
    ensures ReadingIn(d, r).cell.admissible <==> ShowsBelief(d, r.id)
    ensures ReadingIn(d, r).cell.saturated <==> ShowsSaturation(d, r.id)
  {
    NestedReading(d, r);
    hide Read, Sense, Believed, Loaded, ValidRecords, Sighted;
    var x := ReadingIn(d, r);
    forall c, s | Sighted(d, r.id, c, s)
      ensures x.cell == Sense(d.th, c, s) && x.cell.covered
      ensures x.cell.admissible <==> Believed(d.th, c, s)
      ensures x.cell.saturated <==> Believed(d.th, c, s) && Loaded(d.th, c, s)
    {
      SightedReading(d, r, c, s);
      SenseExactly(d.th, c, s);
    }
    if x.cell.covered {
      var c, s := CoveredSighted(d, r);
      assert Sighted(d, r.id, c, s);
    }
  }

  lemma NestedReading(d: Records, r: Resource)
    ensures var x := ReadingIn(d, r).cell; (x.saturated ==> x.admissible) && (x.admissible ==> x.covered)
  {
    hide FindCapacity, FindSignal;
  }

  /** Capacity counts for a resource exactly when it is usable. */
  lemma UnitsExactly(d: Records, r: Resource)
    requires ValidRecords(d) && r.id != 0
    ensures forall c :: c in d.capacity && Provides(c, r.id) ==> ReadingIn(d, r).units == c.units
    ensures ReadingIn(d, r).units > 0 <==> exists c :: c in d.capacity && Provides(c, r.id)
    ensures ReadingIn(d, r).id == r.id && ReadingIn(d, r).region == r.region
  {
    hide ValidCapacity, ValidSignals, FindCapacity, FindSignal, Sense;
    forall c | c in d.capacity && Provides(c, r.id) ensures ReadingIn(d, r).units == c.units {
      CapacityFound(d.capacity, r.id, c);
    }
    if ReadingIn(d, r).units > 0 {
      var c := FindCapacity(d.capacity, r.id).value;
      CapacityFound(d.capacity, r.id, c);
      assert c in d.capacity && Provides(c, r.id);
    }
  }

  // ----- one evaluation ---------------------------------------------------------------------------

  predicate Complete(e: Evidence) { e.topology.Some? && e.capacity.Some? && e.signals.Some? }

  function RecordsIn(i: Input, th: Thresholds): Records
    requires Complete(i.evidence)
  {
    Records(i.evidence.capacity.value.entries, i.evidence.signals.value.records, th, i.now)
  }

  function ResourcesIn(i: Input): seq<Resource>
    requires Complete(i.evidence)
  {
    i.evidence.topology.value.content.resources
  }

  lemma EvidenceReading(i: Input, h: Option<History>, th: Thresholds, x: nat)
    requires ValidInput(i) && Complete(i.evidence) && Governs(i.evidence, th) && x < |ResourcesIn(i)|
    ensures ValidRecords(RecordsIn(i, th)) && ResourcesIn(i)[x].id != 0
    ensures |SceneOf(i, h).readings| == |ResourcesIn(i)|
    ensures SceneOf(i, h).readings[x] == ReadingIn(RecordsIn(i, th), ResourcesIn(i)[x])
  {
    hide Read, ValidRegions, ValidLinks, CensusOf, ValidCapacity, ValidSignals;
  }

  ghost predicate InComponent(s: Scene, x: nat)
    requires |s.readings| == |s.topology.resources|
  {
    exists k :: 0 <= k < |ComponentsOf(s)| && x in ComponentsOf(s)[k]
  }

  lemma SaturatedInComponent(s: Scene, x: nat)
    requires ValidScene(s) && x < |s.readings|
    ensures InComponent(s, x) <==> s.readings[x].cell.saturated
  {
    hide ValidTopology, Nested, CensusOf, ComponentsOf, Joined, Apart;
    DetectFindsComponents(s);
    if InComponent(s, x) {
      var k :| 0 <= k < |ComponentsOf(s)| && x in ComponentsOf(s)[k];
      MemberInRange(s, k, x);
    }
  }

  /** A resource of the topology is in some component exactly when its capacity
      and telemetry show saturation. */
  lemma ComponentsOverEvidence(i: Input, h: Option<History>, th: Thresholds, x: nat)
    requires ValidInput(i) && Complete(i.evidence) && Governs(i.evidence, th) && x < |ResourcesIn(i)|
    ensures |SceneOf(i, h).readings| == |SceneOf(i, h).topology.resources|
    ensures InComponent(SceneOf(i, h), x) <==> ShowsSaturation(RecordsIn(i, th), ResourcesIn(i)[x].id)
  {
    hide ComponentsOf, ReadingsOf, ShowsSaturation, ValidInput, InComponent, ReadingIn;
    EvidenceReading(i, h, th, x);
    SceneIsValid(i, h);
    hide ValidRecords, CensusOf;
    SaturatedInComponent(SceneOf(i, h), x);
    ReadingExactly(RecordsIn(i, th), ResourcesIn(i)[x]);
  }

  /** With no more components than may be reported, every judgement is. */
  lemma {:induction false} AllFiled(hs: seq<Hotspot>, k: nat)
    requires k < |hs| <= MAX_HOTSPOTS
    ensures hs[k] in (if hs[k].persistent then FileAll(hs).hotspots else FileAll(hs).candidates)
    ensures |FileAll(hs).hotspots| + |FileAll(hs).candidates| <= |hs|
  {
    var init, last := hs[..|hs| - 1], hs[|hs| - 1];
    hide FileAll;
    FileLast(hs);
    if |init| == 0 {
      FileNothing();
    } else {
      AllFiled(init, if k < |init| then k else 0);
    }
  }

  lemma FileLast(hs: seq<Hotspot>)
    requires |hs| > 0
    ensures FileAll(hs) == FileOne(FileAll(hs[..|hs| - 1]), hs[|hs| - 1])
  {
    hide FileOne;
  }

  lemma FileNothing()
    ensures FileAll([]) == Report([], [], 0)
  {
  }

  /** The component of a resource and its judgement are in the assessment, among
      the confirmed hotspots or the candidates. */
  ghost predicate Reported(a: Assessment, s: Scene, x: nat)
    requires |s.readings| == |s.topology.resources|
  {
    exists k :: 0 <= k < |ComponentsOf(s)| && x in ComponentsOf(s)[k] && Listed(a, s, ComponentsOf(s)[k])
  }

  ghost predicate Listed(a: Assessment, s: Scene, c: seq<nat>) {
    && (forall j :: 0 <= j < |c| ==> c[j] < |s.readings|)
    && var h := HotspotOf(s, Pick(s.readings, c)); h in (if h.persistent then a.hotspots else a.candidates)
  }

  lemma ComponentListed(i: Input, h: Option<History>, k: nat)
    requires ValidInput(i) && Refusal(i).None? && Complete(i.evidence)
    requires var s := SceneOf(i, h);
             |s.readings| == |s.topology.resources| && k < |ComponentsOf(s)| <= MAX_HOTSPOTS
    ensures Listed(Detect(i, h), SceneOf(i, h), ComponentsOf(SceneOf(i, h))[k])
  {
    var s := SceneOf(i, h);
    SceneIsValid(i, h);
    ComponentsWithin(s);
    AllFiled(Hotspots(s, ComponentsOf(s)), k);
    hide ComponentsOf, HotspotOf, ReadingsOf, FileAll, Refusal, ValidInput, CensusOf, Escalates, Widest;
  }

  /** While there are no more components than may be reported, an admitted
      evaluation reports a resource's component exactly when the resource's records
      show saturation: nothing is missed and nothing is made up. */
  lemma SaturationReported(i: Input, h: Option<History>, th: Thresholds, x: nat)
    requires ValidInput(i) && Refusal(i).None? && Complete(i.evidence) && Governs(i.evidence, th)
    requires x < |ResourcesIn(i)|
    requires var s := SceneOf(i, h); |s.readings| == |s.topology.resources| && |ComponentsOf(s)| <= MAX_HOTSPOTS
    ensures Reported(Detect(i, h), SceneOf(i, h), x)
            <==> ShowsSaturation(RecordsIn(i, th), ResourcesIn(i)[x].id)
  {
    hide Detect, Refusal, ValidInput, ComponentsOf, SceneOf, ShowsSaturation, Listed;
    ComponentsOverEvidence(i, h, th, x);
    var s := SceneOf(i, h);
    if InComponent(s, x) {
      var k :| 0 <= k < |ComponentsOf(s)| && x in ComponentsOf(s)[k];
      ComponentListed(i, h, k);
    }
  }

  /** What an evaluation tells the tracker: nothing when refused, else exactly the
      resources of the topology whose records show saturation. */
  lemma ObservedOverEvidence(i: Input, th: Thresholds, id: U64)
    requires ValidInput(i) && Governs(i.evidence, th) && id != 0
    ensures Refusal(i).None? ==> Complete(i.evidence)
    ensures Saturated(Observe(i), id) <==>
            && Refusal(i).None?
            && (exists x :: 0 <= x < |ResourcesIn(i)| && ResourcesIn(i)[x].id == id)
            && ShowsSaturation(RecordsIn(i, th), id)
  {
    hide Refusal, ReadingsOf, ValidInput, ShowsSaturation, SaturatedIds;
    if Refusal(i).None? {
      AdmittedComplete(i);
      ReadingCount(i);
      var rs := ReadingsOf(i.evidence, i.now);
      forall x | 0 <= x < |rs| ensures rs[x].id == ResourcesIn(i)[x].id
          && (rs[x].cell.saturated <==> ShowsSaturation(RecordsIn(i, th), rs[x].id)) {
        SaturatedReading(i, th, x);
      }
      SaturatedNamed(rs, ResourcesIn(i), RecordsIn(i, th), id);
    }
  }

  lemma SaturatedNamed(rs: seq<Reading>, resources: seq<Resource>, d: Records, id: U64)
    requires |rs| == |resources|
    requires forall x :: 0 <= x < |rs| ==>
               rs[x].id == resources[x].id && (rs[x].cell.saturated <==> ShowsSaturation(d, rs[x].id))
    ensures id in SaturatedIds(rs) <==>
            (exists x :: 0 <= x < |resources| && resources[x].id == id) && ShowsSaturation(d, id)
  {
    hide ShowsSaturation;
    if id in SaturatedIds(rs) {
      var x :| 0 <= x < |rs| && rs[x].cell.saturated && rs[x].id == id;
      assert resources[x].id == id;
    }
    if exists x :: 0 <= x < |resources| && resources[x].id == id {
      var x :| 0 <= x < |resources| && resources[x].id == id;
      assert rs[x].id == id;
    }
  }

  lemma AdmittedComplete(i: Input)
    requires Refusal(i).None?
    ensures Complete(i.evidence)
  {
    hide CensusOf, CoverageOk, ReferencesResolve, ReadingsOf;
  }

  lemma ReadingCount(i: Input)
    requires Complete(i.evidence)
    ensures |ReadingsOf(i.evidence, i.now)| == |ResourcesIn(i)|
  {
    hide Read;
  }

  lemma SaturatedReading(i: Input, th: Thresholds, x: nat)
    requires ValidInput(i) && Complete(i.evidence) && Governs(i.evidence, th)
    requires x < |ResourcesIn(i)| == |ReadingsOf(i.evidence, i.now)|
    ensures var r := ReadingsOf(i.evidence, i.now)[x];
            && r.id == ResourcesIn(i)[x].id
            && (r.cell.saturated <==> ShowsSaturation(RecordsIn(i, th), r.id))
  {
    hide ReadingsOf, ShowsSaturation, ValidInput, ReadingIn, CensusOf;
    EvidenceReading(i, None, th, x);
    ReadingExactly(RecordsIn(i, th), ResourcesIn(i)[x]);
    UnitsExactly(RecordsIn(i, th), ResourcesIn(i)[x]);
  }

  // ----- peaks ----------------------------------------------------------------------------------------

  datatype Gauge = Utilization | Queue | Buffer

  predicate GaugeReaches(g: Gauge, c: CapacityEntry, s: SignalRecord, t: U32) {
    match g
    case Utilization => Reaches(s.utilized, c.units, t)
    case Queue => Reaches(s.queueDepth, c.queueLimit, t)
    case Buffer => Reaches(s.bufferUsed, c.bufferLimit, t)
  }

  /** One of the resources is sighted with that gauge at or above the level. */
  ghost predicate SomeReaches(d: Records, ids: seq<U64>, g: Gauge, t: U32) {
    exists a, c, s :: 0 <= a < |ids| && Sighted(d, ids[a], c, s) && GaugeReaches(g, c, s, t)
  }

  ghost predicate AnyReaches(d: Records, ids: seq<U64>, t: U32) { exists g :: SomeReaches(d, ids, g, t) }

  /** Some gauge of one of the resources is above the level. */
  ghost predicate AnyExceeds(d: Records, ids: seq<U64>, level: U32) {
    level < U32_MAX && AnyReaches(d, ids, level + 1)
  }

  function CellGauge(g: Gauge): Reading -> U32 {
    match g case Utilization => UtilizationAt case Queue => QueueAt case Buffer => BufferAt
  }

  /** Readings taken from the records, of resources that were covered. */
  ghost predicate TakenFrom(d: Records, m: seq<Reading>) {
    forall a :: 0 <= a < |m| ==> m[a].cell.covered && TakenAt(d, m[a])
  }

  ghost predicate TakenAt(d: Records, x: Reading) { exists r: Resource :: r.id != 0 && x == ReadingIn(d, r) }

  lemma MemberGauge(d: Records, x: Reading, g: Gauge, t: U32) returns (c: CapacityEntry, s: SignalRecord)
    requires ValidRecords(d) && x.cell.covered && TakenAt(d, x)
    ensures Sighted(d, x.id, c, s)
    ensures forall c', s' :: Sighted(d, x.id, c', s') ==> (CellGauge(g)(x) >= t <==> GaugeReaches(g, c', s', t))
    ensures x.cell.pressure >= t
            <==> UtilizationAt(x) >= t || QueueAt(x) >= t || BufferAt(x) >= t
  {
    var r: Resource :| r.id != 0 && x == ReadingIn(d, r);
    UnitsExactly(d, r);
    c, s := CoveredSighted(d, r);
    SightedReading(d, r, c, s);
    GaugesExactly(d.th, c, s, t);
    hide Sense, Read, Sighted, Reaches;
    forall c', s' | Sighted(d, x.id, c', s') ensures CellGauge(g)(x) >= t <==> GaugeReaches(g, c', s', t) {
      SightedReading(d, r, c', s');
      GaugesExactly(d.th, c', s', t);
    }
  }

  lemma PeakOverRecords(d: Records, m: seq<Reading>, g: Gauge, t: U32)
    requires ValidRecords(d) && |m| > 0 && TakenFrom(d, m)
    ensures Peak(m, CellGauge(g)) >= t <==> SomeReaches(d, IdsOf(m), g, t)
  {
    PeakReaches(m, CellGauge(g), t);
    hide Peak, ValidRecords, Sighted, CellGauge, TakenAt, GaugeReaches;
    var ids := IdsOf(m);
    if Peak(m, CellGauge(g)) >= t {
      var a :| 0 <= a < |m| && CellGauge(g)(m[a]) >= t;
      var c, s := MemberGauge(d, m[a], g, t);
      assert Sighted(d, ids[a], c, s) && GaugeReaches(g, c, s, t);
    }
    if SomeReaches(d, ids, g, t) {
      var a, c, s :| 0 <= a < |ids| && Sighted(d, ids[a], c, s) && GaugeReaches(g, c, s, t);
      var _, _ := MemberGauge(d, m[a], g, t);
      assert Reached(m, CellGauge(g), t);
    }
  }

  lemma PressureIsWorst(d: Records, m: seq<Reading>, t: U32)
    requires ValidRecords(d) && |m| > 0 && TakenFrom(d, m)
    ensures Peak(m, PressureAt) >= t <==>
            Peak(m, UtilizationAt) >= t || Peak(m, QueueAt) >= t || Peak(m, BufferAt) >= t
  {
    PeakReaches(m, PressureAt, t);
    PeakReaches(m, UtilizationAt, t);
    PeakReaches(m, QueueAt, t);
    PeakReaches(m, BufferAt, t);
    hide Peak, ValidRecords, Sighted, TakenAt;
    forall a | 0 <= a < |m|
      ensures PressureAt(m[a]) >= t <==> UtilizationAt(m[a]) >= t || QueueAt(m[a]) >= t || BufferAt(m[a]) >= t
    {
      var _, _ := MemberGauge(d, m[a], Utilization, t);
    }
  }

  lemma ComponentTaken(i: Input, h: Option<History>, th: Thresholds, k: nat)
    requires ValidInput(i) && Complete(i.evidence) && Governs(i.evidence, th)
    requires var s := SceneOf(i, h); |s.readings| == |s.topology.resources| && k < |ComponentsOf(s)|
    ensures ValidRecords(RecordsIn(i, th)) && ComponentsOf(SceneOf(i, h))[k] != []
    ensures forall a :: 0 <= a < |ComponentsOf(SceneOf(i, h))[k]| ==>
              ComponentsOf(SceneOf(i, h))[k][a] < |SceneOf(i, h).readings|
    ensures TakenFrom(RecordsIn(i, th), Pick(SceneOf(i, h).readings, ComponentsOf(SceneOf(i, h))[k]))
  {
    hide ComponentsOf, ReadingsOf, ValidInput, ReadingIn, CensusOf, Joined, ValidTopology, ValidScene, ValidRecords;
    var s, d := SceneOf(i, h), RecordsIn(i, th);
    SceneIsValid(i, h);
    ComponentCovered(s, k);
    var c := ComponentsOf(s)[k];
    EvidenceReading(i, h, th, c[0]);
    var m := Pick(s.readings, c);
    forall a | 0 <= a < |m| ensures m[a].cell.covered && TakenAt(d, m[a]) {
      EvidenceReading(i, h, th, c[a]);
      TakenHere(d, ResourcesIn(i)[c[a]]);
    }
  }

  lemma TakenHere(d: Records, r: Resource)
    requires r.id != 0
    ensures TakenAt(d, ReadingIn(d, r))
  {
    hide ReadingIn;
  }

  lemma ComponentCovered(s: Scene, k: nat)
    requires ValidScene(s) && k < |ComponentsOf(s)|
    ensures ComponentsOf(s)[k] != []
    ensures forall a :: 0 <= a < |ComponentsOf(s)[k]| ==>
              ComponentsOf(s)[k][a] < |s.readings| && s.readings[ComponentsOf(s)[k][a]].cell.covered
  {
    ComponentClass(s, k);
    hide ComponentsOf, CensusOf, Joined, ValidTopology;
  }

  /** The peaks a hotspot reports are its members' gauges: each reaches a level
      exactly when some member's records do, and pressure is the worst of them. */
  lemma PeaksOverEvidence(i: Input, h: Option<History>, th: Thresholds, k: nat, t: U32)
    requires ValidInput(i) && Complete(i.evidence) && Governs(i.evidence, th)
    requires var s := SceneOf(i, h); |s.readings| == |s.topology.resources| && k < |ComponentsOf(s)|
    requires Within(ComponentsOf(SceneOf(i, h)), |SceneOf(i, h).readings|)
    ensures var s, d := SceneOf(i, h), RecordsIn(i, th);
            var m := Pick(s.readings, ComponentsOf(s)[k]);
            var x, ids := HotspotOf(s, m).extent, IdsOf(m);
            && (x.peakUtilization >= t <==> SomeReaches(d, ids, Utilization, t))
            && (x.peakQueue >= t <==> SomeReaches(d, ids, Queue, t))
            && (x.peakBuffer >= t <==> SomeReaches(d, ids, Buffer, t))
            && (x.peakPressure >= t <==> AnyReaches(d, ids, t))
  {
    hide ComponentsOf, ReadingsOf, ValidInput, SceneOf, HotspotOf, TakenFrom, SomeReaches, Peak, IdsOf, ValidRecords;
    ComponentTaken(i, h, th, k);
    var s, d := SceneOf(i, h), RecordsIn(i, th);
    var m := Pick(s.readings, ComponentsOf(s)[k]);
    PeakOverRecords(d, m, Utilization, t);
    PeakOverRecords(d, m, Queue, t);
    PeakOverRecords(d, m, Buffer, t);
    PressureIsWorst(d, m, t);
    PeaksReported(s, m);
    AnyGauge(d, IdsOf(m), t);
  }

  lemma AnyGauge(d: Records, ids: seq<U64>, t: U32)
    ensures AnyReaches(d, ids, t) <==>
            SomeReaches(d, ids, Utilization, t) || SomeReaches(d, ids, Queue, t) || SomeReaches(d, ids, Buffer, t)
  {
    hide SomeReaches;
    if AnyReaches(d, ids, t) {
      var g :| SomeReaches(d, ids, g, t);
      assert g == Utilization || g == Queue || g == Buffer;
    }
  }

  lemma PeaksReported(s: Scene, m: seq<Reading>)
    ensures var x := HotspotOf(s, m).extent;
            && x.peakUtilization == Peak(m, UtilizationAt) && x.peakQueue == Peak(m, QueueAt)
            && x.peakBuffer == Peak(m, BufferAt) && x.peakPressure == Peak(m, PressureAt)
  {
    hide BlameFrom, TallyOf, HealthyAround, RegionsOf, LatestFirst, FewestSamples, Peak, UniqueIds, ScopeOf;
    hide CauseOf, Accumulated, IsPersistent;
  }

  // ----- drops -----------------------------------------------------------------------------------------

  /** A reading that is covered, and saturated or not believed. */
  predicate Remarkable(r: Reading) { r.cell.covered && (r.cell.saturated || !r.cell.admissible) }

  ghost predicate Drops(rs: seq<Reading>) { exists x :: 0 <= x < |rs| && rs[x].cell.saturated && rs[x].drops > 0 }

  lemma {:induction false} PressuresShown(rs: seq<Reading>)
    requires Nested(rs) && (forall x :: 0 <= x < |rs| ==> !(rs[x].cell.admissible && rs[x].cell.contradictory))
    ensures DropsSeen(Pressures(rs)) ==> Drops(rs)
    ensures |Pressures(rs)| == Min(Count(rs, Remarkable), MAX_PRESSURES)
    ensures Count(rs, Remarkable) <= MAX_PRESSURES && Drops(rs) ==> DropsSeen(Pressures(rs))
  {
    if |rs| == 0 {
      assert Pressures(rs) == [];
    } else {
      var init, r := rs[..|rs| - 1], rs[|rs| - 1];
      assert forall x :: 0 <= x < |init| ==> init[x] == rs[x];
      PressuresShown(init);
      var ps, all := Pressures(init), Pressures(rs);
      assert forall k :: 0 <= k < |ps| ==> all[k] == ps[k];
      assert Drops(init) ==> Drops(rs);
      if all != ps && r.cell.saturated && r.drops > 0 {
        assert all[|ps|].saturated && all[|ps|].drops > 0;
      }
      if DropsSeen(all) && !DropsSeen(ps) {
        var k :| 0 <= k < |all| && all[k].saturated && all[k].drops > 0;
        assert k == |ps|;
        assert rs[|rs| - 1].cell.saturated;
      }
    }
  }

  // ----- totals -----------------------------------------------------------------------------------------

  lemma {:induction false} TotalPointwise<A, B>(a: seq<A>, b: seq<B>, v: A -> U64, w: B -> U64)
    requires |a| == |b| && forall i :: 0 <= i < |a| ==> v(a[i]) == w(b[i])
    ensures Total(a, v) == Total(b, w)
  {
    if |a| == 0 {
    } else {
      TotalPointwise(a[..|a| - 1], b[..|b| - 1], v, w);
    }
  }

  /** The units of a resource's usable capacity, none without one. */
  ghost function Offered(d: Records, id: U64): U64 {
    if c :| c in d.capacity && Provides(c, id) then c.units else 0
  }

  ghost predicate Covered(d: Records, id: U64) { exists c, s :: Sighted(d, id, c, s) }

  /** Measures of a resource: its units, always or only where its records show it
      covered, believed or saturated. */
  ghost function FabricIn(d: Records): Resource -> U64 { (r: Resource) => Offered(d, r.id) }

  ghost function CoveredIn(d: Records): Resource -> U64 {
    (r: Resource) => if Covered(d, r.id) then Offered(d, r.id) else 0
  }

  ghost function BelievedIn(d: Records): Resource -> U64 {
    (r: Resource) => if ShowsBelief(d, r.id) then Offered(d, r.id) else 0
  }

  ghost function SaturatedIn(d: Records): Resource -> U64 {
    (r: Resource) => if ShowsSaturation(d, r.id) then Offered(d, r.id) else 0
  }

  lemma ReadingUnits(d: Records, r: Resource)
    requires ValidRecords(d) && r.id != 0
    ensures var x := ReadingIn(d, r);
            && FabricUnits(x) == FabricIn(d)(r) && CoveredUnits(x) == CoveredIn(d)(r)
            && AdmissibleUnits(x) == BelievedIn(d)(r) && SaturatedUnits(x) == SaturatedIn(d)(r)
  {
    hide ReadingIn, ValidRecords, Sighted, ShowsBelief, ShowsSaturation;
    UnitsExactly(d, r);
    ReadingExactly(d, r);
  }

  /** The capacity figures of an evaluation are the sums of the units of the
      resources whose records show it, clamped. */
  lemma CensusOverEvidence(i: Input, h: Option<History>, th: Thresholds)
    requires ValidInput(i) && Complete(i.evidence) && Governs(i.evidence, th)
    ensures var t, d, rs := SceneOf(i, h).census, RecordsIn(i, th), ResourcesIn(i);
            && t.fabric == Min(Total(rs, FabricIn(d)), U64_MAX)
            && t.covered == Min(Total(rs, CoveredIn(d)), U64_MAX)
            && t.admissible == Min(Total(rs, BelievedIn(d)), U64_MAX)
            && t.saturated == Min(Total(rs, SaturatedIn(d)), U64_MAX)
  {
    hide ReadingsOf, ValidInput, ReadingIn, ValidRecords, Total, Accumulated, FabricIn, CoveredIn, BelievedIn;
    hide SaturatedIn, Count, Pressures;
    var s, d, rs := SceneOf(i, h), RecordsIn(i, th), ResourcesIn(i);
    ReadingCount(i);
    forall x | 0 <= x < |rs|
      ensures FabricUnits(s.readings[x]) == FabricIn(d)(rs[x]) && CoveredUnits(s.readings[x]) == CoveredIn(d)(rs[x])
      ensures AdmissibleUnits(s.readings[x]) == BelievedIn(d)(rs[x])
      ensures SaturatedUnits(s.readings[x]) == SaturatedIn(d)(rs[x])
    {
      EvidenceReading(i, h, th, x);
      ReadingUnits(d, rs[x]);
    }
    hide FabricUnits, CoveredUnits, AdmissibleUnits, SaturatedUnits;
    TotalPointwise(s.readings, rs, FabricUnits, FabricIn(d));
    TotalPointwise(s.readings, rs, CoveredUnits, CoveredIn(d));
    TotalPointwise(s.readings, rs, AdmissibleUnits, BelievedIn(d));
    TotalPointwise(s.readings, rs, SaturatedUnits, SaturatedIn(d));
    AccumulatedIsClampedTotal(s.readings, FabricUnits);
    AccumulatedIsClampedTotal(s.readings, CoveredUnits);
    AccumulatedIsClampedTotal(s.readings, AdmissibleUnits);
    AccumulatedIsClampedTotal(s.readings, SaturatedUnits);
  }
}
