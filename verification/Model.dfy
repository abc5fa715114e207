/** The evidence the governor reasons about: topology, capacity, signals, paths,
    traffic and policy, as the values their snapshots carry. Identity 0 is
    reserved for "absent" everywhere. */
module Model {
  import opened Base

  // ----- bounds (include/hgm/limits.hpp) -------------------------------------

  const MAX_RESOURCES: nat := 0x10_0000
  const MAX_REGIONS: nat := 0x1_0000
  const MAX_LINKS: nat := 0x20_0000
  const MAX_NEIGHBORS: nat := 4096
  const MAX_NAME_BYTES: nat := 128
  const MAX_CAPACITY_ENTRIES: nat := 0x10_0000
  const MAX_SIGNAL_RECORDS: nat := 0x10_0000
  const MAX_PATHS: nat := 0x10_0000
  const MAX_HOPS: nat := 256
  const MAX_TRAFFIC_RECORDS: nat := 0x10_0000
  const MAX_HOTSPOTS: nat := 4096
  const MAX_HOTSPOT_RESOURCES: nat := 256
  const MAX_CONTRIBUTORS: nat := 256
  const MAX_INTENT_RESOURCES: nat := 64
  const MAX_INTENT_PATHS: nat := 256
  const MAX_INTENT_FLOWS: nat := 256
  const MAX_SUPPRESSED: nat := 64
  const MAX_PRESSURES: nat := 8192
  const MAX_ACCUMULATORS: nat := 4096
  const MAX_HISTORY: nat := 0x10_0000
  const MAX_PUBLISHERS: nat := 512

  // ----- topology --------------------------------------------------------------

  datatype Region = Region(id: U64, parent: U64, name: Bytes)
  datatype Resource = Resource(id: U64, region: U64, kind: U8, name: Bytes)
  datatype Link = Link(id: U64, a: U64, b: U64)

  /** What a topology's content identity covers. */
  datatype TopologyContent = TopologyContent(regions: seq<Region>, resources: seq<Resource>, links: seq<Link>)

  datatype Topology = Topology(
    content: TopologyContent, generation: U64, validFrom: Millis, validUntil: Millis, publisher: U64)

  // ----- capacity and signals ----------------------------------------------------

  datatype CapacityEntry = CapacityEntry(resource: U64, units: U64, queueLimit: U64, bufferLimit: U64, usable: bool)

  datatype Capacity = Capacity(
    entries: seq<CapacityEntry>, generation: U64, topologyGeneration: U64, observedAt: Millis, publisher: U64)

  // Telemetry quality as the byte on the wire.
  const QUALITY_MISSING: U8 := 1
  const QUALITY_DEGRADED: U8 := 3
  const QUALITY_HEALTHY: U8 := 4

  datatype SignalRecord = SignalRecord(
    resource: U64, utilized: U64, queueDepth: U64, bufferUsed: U64, offered: U64, admitted: U64, drops: U64,
    confidence: U32, quality: U8, observedAt: Millis)

  datatype Signals = Signals(
    records: seq<SignalRecord>, generation: U64, topologyGeneration: U64, capacityGeneration: U64,
    windowStart: Millis, windowEnd: Millis, publisher: U64)

  // ----- paths and traffic -----------------------------------------------------------

  datatype PathRecord = PathRecord(id: U64, flow: U64, hops: seq<U64>)

  datatype Paths = Paths(
    paths: seq<PathRecord>, generation: U64, topologyGeneration: U64, observedAt: Millis, publisher: U64)

  datatype TrafficRecord = TrafficRecord(flow: U64, path: U64, demand: U64, quality: U8, observedAt: Millis)

  datatype Traffic = Traffic(records: seq<TrafficRecord>, generation: U64, pathGeneration: U64, publisher: U64)

  // ----- policy --------------------------------------------------------------------------

  datatype Thresholds = Thresholds(
    saturationPpm: U32, queuePpm: U32, bufferPpm: U32, minConfidencePpm: U32,
    maxSignalAge: U32, maxCapacityAge: U32, maxTopologyAge: U32, maxPathAge: U32, maxTrafficAge: U32,
    persistenceWindow: U32, minSamples: U32,
    maxLocalSharePpm: U32, globalSharePpm: U32, maxLocalRegions: U32, maxRegionalRegions: U32,
    minCoveragePpm: U32, minAttributionPpm: U32, dominantPpm: U32, contradictionPpm: U32)

  datatype Budget = Budget(
    maxResources: U32, maxPaths: U32, maxFlows: U32, maxRateDelta: U32,
    maxScopeShare: U32, maxPlanShare: U32, maxIntents: U32,
    allowRelocation: bool, allowRebalance: bool, allowAdmission: bool, allowRate: bool,
    allowIsolation: bool, allowEscalation: bool, requireAttribution: bool)

  datatype Bands = Bands(low: U32, moderate: U32, high: U32, critical: U32)

  datatype Policy = Policy(
    id: U64, generation: U64, issuedAt: Millis, ttl: U32,
    thresholds: Thresholds, budget: Budget, bands: Bands, publisher: U64)

  const DEFAULT_THRESHOLDS: Thresholds := Thresholds(
    900000, 850000, 900000, 700000, 5000, 30000, 60000, 30000, 5000, 2000, 3,
    250000, 600000, 1, 4, 600000, 500000, 500000, 400000)

  const DEFAULT_BUDGET: Budget := Budget(
    16, 32, 32, 250000, 250000, 400000, 8, true, true, true, true, true, true, true)

  /** A policy that never expires does not exist: a zero lifetime, a missing
      issue time and a clock that moved backwards all count as expired. */
  predicate Expired(p: Policy, now: Millis) {
    p.ttl == 0 || p.issuedAt == NO_TIME || now < p.issuedAt || ElapsedMs(p.issuedAt, now) > p.ttl
  }

  /** From its issue on, for as long as its lifetime. */
  predicate InForce(p: Policy, now: Millis) {
    0 < p.ttl && p.issuedAt != NO_TIME && p.issuedAt <= now <= p.issuedAt + p.ttl
  }

  lemma ExpiredExactly(p: Policy, now: Millis)
    ensures Expired(p, now) <==> !InForce(p, now)
  {
  }
}
