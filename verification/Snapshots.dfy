/** Capacity, signal and traffic evidence (src/capacity.cpp, src/signals.cpp,
    src/traffic.cpp): validation, canonical order and lookup. */
module Snapshots {
  import opened Base
  import opened Model
  import opened Ordering
  import opened Building

  // ----- capacity ----------------------------------------------------------------

  function CapacityKey(e: CapacityEntry): int { e.resource }

  function CheckCapacity(before: Option<CapacityEntry>, e: CapacityEntry): Option<ErrorCode> {
    if e.resource == 0 || (before.Some? && before.value.resource == e.resource) || (e.units == 0 && e.usable)
    then Some(InvalidArgument)
    else None
  }

  function BuildCapacity(raw: seq<CapacityEntry>): Result<seq<CapacityEntry>> {
    if |raw| > MAX_CAPACITY_ENTRIES then Err(BoundExceeded) else BuildSorted(raw, CapacityKey, CheckCapacity)
  }

  ghost predicate ValidCapacity(es: seq<CapacityEntry>) {
    StrictBy(es, CapacityKey) && |es| <= MAX_CAPACITY_ENTRIES
  }

  lemma BuildCapacityMeaning(raw: seq<CapacityEntry>)
    requires BuildCapacity(raw).Ok?
    ensures var es := BuildCapacity(raw).value;
            ValidCapacity(es) && multiset(es) == multiset(raw) && BuildCapacity(es) == Ok(es)
  {
    hide SortBy;
    BuildSortedMeaning(raw, CapacityKey, CheckCapacity);
  }

  function FindCapacity(es: seq<CapacityEntry>, id: U64): Option<CapacityEntry> {
    if id == 0 then None
    else
      var at := Find(es, CapacityKey, id);
      if at.None? then None else Some(es[at.value])
  }

  // ----- signals --------------------------------------------------------------------

  function SignalKey(r: SignalRecord): int { r.resource }

  function CheckSignal(before: Option<SignalRecord>, r: SignalRecord): Option<ErrorCode> {
    if r.resource == 0 || (before.Some? && before.value.resource == r.resource) then Some(InvalidArgument)
    else if r.confidence > 1_000_000 then Some(OutOfRange)
    else if r.admitted > r.offered && r.offered != 0 then Some(ContradictoryEvidence)
    else None
  }

  function BuildSignals(raw: seq<SignalRecord>): Result<seq<SignalRecord>> {
    if |raw| > MAX_SIGNAL_RECORDS then Err(BoundExceeded) else BuildSorted(raw, SignalKey, CheckSignal)
  }

  ghost predicate ValidSignals(rs: seq<SignalRecord>) {
    StrictBy(rs, SignalKey) && |rs| <= MAX_SIGNAL_RECORDS
  }

  lemma BuildSignalsMeaning(raw: seq<SignalRecord>)
    requires BuildSignals(raw).Ok?
    ensures var rs := BuildSignals(raw).value;
            ValidSignals(rs) && multiset(rs) == multiset(raw) && BuildSignals(rs) == Ok(rs)
  {
    hide SortBy;
    BuildSortedMeaning(raw, SignalKey, CheckSignal);
  }

  function FindSignal(rs: seq<SignalRecord>, id: U64): Option<SignalRecord> {
    if id == 0 then None
    else
      var at := Find(rs, SignalKey, id);
      if at.None? then None else Some(rs[at.value])
  }

  // ----- traffic ----------------------------------------------------------------------

  /** Lexicographic order on (path, flow). */
  function TrafficKey(r: TrafficRecord): int { r.path * 0x1_0000_0000_0000_0000 + r.flow }

  function TrafficPath(r: TrafficRecord): int { r.path }

  function CheckTraffic(before: Option<TrafficRecord>, r: TrafficRecord): Option<ErrorCode> {
    if r.path == 0 || (before.Some? && before.value.path == r.path && before.value.flow == r.flow)
    then Some(InvalidArgument)
    else None
  }

  function BuildTraffic(raw: seq<TrafficRecord>): Result<seq<TrafficRecord>> {
    if |raw| > MAX_TRAFFIC_RECORDS then Err(BoundExceeded) else BuildSorted(raw, TrafficKey, CheckTraffic)
  }

  ghost predicate ValidTraffic(rs: seq<TrafficRecord>) {
    StrictBy(rs, TrafficKey) && SortedBy(rs, TrafficPath) && |rs| <= MAX_TRAFFIC_RECORDS
  }

  lemma BuildTrafficMeaning(raw: seq<TrafficRecord>)
    requires BuildTraffic(raw).Ok?
    ensures var rs := BuildTraffic(raw).value;
            ValidTraffic(rs) && multiset(rs) == multiset(raw) && BuildTraffic(rs) == Ok(rs)
  {
    hide SortBy, TrafficKey;
    forall p: TrafficRecord, c: TrafficRecord | TrafficKey(p) == TrafficKey(c) ensures CheckTraffic(Some(p), c).Some? {
      TrafficKeyOrders(p, c);
    }
    BuildSortedMeaning(raw, TrafficKey, CheckTraffic);
    var rs := BuildTraffic(raw).value;
    forall i, j | 0 <= i < j < |rs| ensures TrafficPath(rs[i]) <= TrafficPath(rs[j]) {
      TrafficKeyOrders(rs[i], rs[j]);
    }
  }

  lemma TrafficKeyOrders(p: TrafficRecord, c: TrafficRecord)
    ensures TrafficKey(p) == TrafficKey(c) ==> p.path == c.path && p.flow == c.flow
    ensures TrafficKey(p) < TrafficKey(c) ==> p.path <= c.path
  {
  }
}
