/** The governor's protocol (src/governor.cpp): fenced authority, admission of
    evidence, the verification stamp and evaluation, as transitions. */
module GovernorProtocol {
  import opened Base
  import opened Model
  import Framing
  import opened TopologyIndex
  import opened PathIndex
  import opened Snapshots
  import opened References
  import opened SaturationHistory
  import opened Detection

  // ----- state -----------------------------------------------------------------------

  datatype Publisher = Publisher(
    incarnation: U64, boot: U64, epoch: U64, lastSequence: U64, generations: map<Framing.Stream, U64>, alive: bool)

  function GenerationOf(p: Publisher, s: Framing.Stream): U64 { if s in p.generations then p.generations[s] else 0 }

  /** Content identities are the contents themselves; None is identity 0. */
  datatype Stamp = Stamp(
    topology: Option<TopologyContent>, capacity: Option<seq<CapacityEntry>>, signals: Option<seq<SignalRecord>>,
    paths: Option<seq<PathRecord>>)

  datatype Gov = Gov(
    epoch: U64, boot: U64, publishers: map<U64, Publisher>, evidence: Evidence, stamp: Stamp, history: History)

  datatype Config = Config(initialEpoch: U64, dropOnDeath: bool, crc: Framing.Checksum)

  const NO_EVIDENCE := Evidence(None, None, None, None, None, None)

  const FRESH := Gov(0, 0, map[], NO_EVIDENCE, Stamp(None, None, None, None), map[])

  /** How opening and recovering the durable store ended. */
  datatype Recovery = NoStore | StoreFailed(error: ErrorCode) | NothingStored | Restored(lastEpoch: U64)

  datatype Event =
    | Recover(outcome: Recovery, boot: U64)
    | InstallEpoch(epoch: U64, coordinatorBoot: U64, failure: Option<ErrorCode>)
    | Register(publisher: U64, incarnation: U64, boot: U64)
    | NoteDeath(publisher: U64, failure: Option<ErrorCode>)
    | Admit(frame: Framing.Frame)
    | Evaluate(now: Millis)

  datatype Outcome = Outcome(gov: Gov, error: Option<ErrorCode>)

  // ----- authority ---------------------------------------------------------------------

  /** Live authority is never restored: publishers, evidence and history of the
      previous process are dropped, and the epoch moves past the recovered one. */
  function Restarted(cfg: Config, g: Gov, outcome: Recovery, boot: U64): Gov {
    var started := g.(boot := boot, epoch := if cfg.initialEpoch != 0 then cfg.initialEpoch else 1);
    if outcome.Restored? then
      started.(epoch := if outcome.lastEpoch == 0 then started.epoch
                        else if outcome.lastEpoch == U64_MAX then U64_MAX else outcome.lastEpoch + 1,
               publishers := map[], evidence := NO_EVIDENCE, history := map[])
    else started
  }

  function Fence(p: Publisher, epoch: U64): Publisher {
    if p.epoch != epoch then p.(alive := false, generations := map[], lastSequence := 0) else p
  }

  function FenceAll(ps: map<U64, Publisher>, epoch: U64): (r: map<U64, Publisher>)
    ensures r.Keys == ps.Keys && forall id :: id in ps ==> r[id] == Fence(ps[id], epoch)
  {
    map id | id in ps :: Fence(ps[id], epoch)
  }

  /** install_epoch; failure is the error of the durable commit, if one was
      needed and failed. */
  function Installed(g: Gov, epoch: U64, coordinatorBoot: U64, failure: Option<ErrorCode>): Outcome {
    if epoch == 0 then Outcome(g, Some(InvalidArgument))
    else if epoch < g.epoch then Outcome(g, Some(StaleEpoch))
    else if failure.Some? then Outcome(g, failure)
    else
      Outcome(g.(epoch := epoch, boot := if coordinatorBoot != 0 then coordinatorBoot else g.boot,
                 publishers := FenceAll(g.publishers, epoch)), None)
  }

  function Registered(g: Gov, id: U64, incarnation: U64, boot: U64): Outcome {
    if id == 0 || incarnation == 0 || boot == 0 then Outcome(g, Some(InvalidArgument))
    else if g.epoch == 0 then Outcome(g, Some(NotStarted))
    else if id in g.publishers then
      var p := g.publishers[id];
      if incarnation < p.incarnation
          || (incarnation == p.incarnation && boot != p.boot) then Outcome(g, Some(StaleIncarnation))
      else if incarnation == p.incarnation then
        Outcome(g.(publishers := g.publishers[id := p.(alive := true, epoch := g.epoch)]), None)
      else Outcome(g.(publishers := g.publishers[id := Publisher(incarnation, boot, g.epoch, 0, map[], true)]), None)
    else if |g.publishers| >= MAX_PUBLISHERS then Outcome(g, Some(BoundExceeded))
    else Outcome(g.(publishers := g.publishers[id := Publisher(incarnation, boot, g.epoch, 0, map[], true)]), None)
  }

  /** Only the evidence the dead publisher owned is dropped. */
  function WithoutOwner(e: Evidence, id: U64): Evidence {
    Evidence(
      if e.topology.Some? && e.topology.value.publisher == id then None else e.topology,
      if e.capacity.Some? && e.capacity.value.publisher == id then None else e.capacity,
      if e.signals.Some? && e.signals.value.publisher == id then None else e.signals,
      if e.paths.Some? && e.paths.value.publisher == id then None else e.paths,
      if e.traffic.Some? && e.traffic.value.publisher == id then None else e.traffic,
      if e.policy.Some? && e.policy.value.publisher == id then None else e.policy)
  }

  function Buried(cfg: Config, g: Gov, id: U64, failure: Option<ErrorCode>): Outcome {
    if id !in g.publishers then Outcome(g, Some(UnknownPublisher))
    else if failure.Some? then Outcome(g, failure)
    else if !g.publishers[id].alive then Outcome(g, None)
    else
      Outcome(g.(publishers := g.publishers[id := g.publishers[id].(alive := false)],
                 evidence := if cfg.dropOnDeath then WithoutOwner(g.evidence, id) else g.evidence), None)
  }

  // ----- admission ------------------------------------------------------------------------

  const HEARTBEAT: U16 := 20

  function StreamOf(kind: U16): Option<Framing.Stream> {
    if kind == 10 then Some(Framing.TopologyStream)
    else if kind == 11 then Some(Framing.CapacityStream)
    else if kind == 12 then Some(Framing.SignalStream)
    else if kind == 13 then Some(Framing.PathStream)
    else if kind == 14 then Some(Framing.TrafficStream)
    else if kind == 15 then Some(Framing.PolicyStream)
    else None
  }

  /** A heartbeat is fenced by incarnation, liveness and sequence, not by epoch. */
  function HeartbeatAdmitted(g: Gov, h: Framing.FrameHeader): Outcome {
    if h.publisher !in g.publishers then Outcome(g, Some(UnknownPublisher))
    else
      var p := g.publishers[h.publisher];
      if h.incarnation != p.incarnation || h.boot != p.boot then Outcome(g, Some(StaleIncarnation))
      else if !p.alive then Outcome(g, Some(UnknownPublisher))
      else if h.sequence != 0 && h.sequence <= p.lastSequence then
        Outcome(g, Some(if h.sequence == p.lastSequence then DuplicateFrame else OutOfOrderSequence))
      else if h.sequence != 0 then
        Outcome(g.(publishers := g.publishers[h.publisher := p.(lastSequence := h.sequence)]), None)
      else Outcome(g, None)
  }

  /** Decodes a payload and installs it over the evidence held. */
  function Install(e: Evidence, s: Framing.Stream, payload: Bytes, owner: U64): Result<Evidence> {
    match s
    case TopologyStream =>
      var r := Framing.DecodeTopology(payload);
      if r.Err? then Err(r.error)
      else if e.topology.Some? && r.value.generation <= e.topology.value.generation then Err(StaleGeneration)
      else Ok(e.(topology := Some(r.value.(publisher := owner))))
    case CapacityStream =>
      var r := Framing.DecodeCapacity(payload);
      if r.Err? then Err(r.error) else Ok(e.(capacity := Some(r.value.(publisher := owner))))
    case SignalStream =>
      var r := Framing.DecodeSignals(payload);
      if r.Err? then Err(r.error) else Ok(e.(signals := Some(r.value.(publisher := owner))))
    case PathStream =>
      var r := Framing.DecodePaths(payload);
      if r.Err? then Err(r.error) else Ok(e.(paths := Some(r.value.(publisher := owner))))
    case TrafficStream =>
      var r := Framing.DecodeTraffic(payload);
      if r.Err? then Err(r.error) else Ok(e.(traffic := Some(r.value.(publisher := owner))))
    case PolicyStream =>
      var r := Framing.DecodePolicy(payload);
      if r.Err? then Err(r.error) else Ok(e.(policy := Some(r.value.(publisher := owner))))
  }

  /** verify_references: everything installed, against the installed topology. */
  predicate AllResolve(e: Evidence) {
    e.topology.Some? ==>
      var c := e.topology.value.content;
      && (e.capacity.Some? ==> CapacityResolves(c, e.capacity.value.entries))
      && (e.signals.Some? ==> SignalsResolve(c, e.signals.value.records))
      && (e.paths.Some? ==> PathsResolve(c, e.paths.value.paths))
  }

  function StampOf(e: Evidence): Stamp {
    Stamp(if e.topology.Some? then Some(e.topology.value.content) else None,
          if e.capacity.Some? then Some(e.capacity.value.entries) else None,
          if e.signals.Some? then Some(e.signals.value.records) else None,
          if e.paths.Some? then Some(e.paths.value.paths) else None)
  }

  /** What a stream frame must satisfy before its payload is looked at. */
  function StreamRefusal(g: Gov, h: Framing.FrameHeader): Option<ErrorCode> {
    if g.epoch == 0 then Some(NotStarted)
    else if h.epoch < g.epoch then Some(StaleEpoch)
    else if h.epoch > g.epoch then Some(UnknownEpoch)
    else if h.publisher !in g.publishers then Some(UnknownPublisher)
    else
      var p := g.publishers[h.publisher];
      if h.incarnation != p.incarnation || h.boot != p.boot then Some(StaleIncarnation)
      else if !p.alive then Some(UnknownPublisher)
      else None
  }

  /** The in-place reset of a live publisher from another epoch. */
  function Refreshed(p: Publisher, epoch: U64): Publisher {
    if p.epoch != epoch then p.(epoch := epoch, lastSequence := 0, generations := map[]) else p
  }

  function OrderRefusal(p: Publisher, h: Framing.FrameHeader, s: Framing.Stream): Option<ErrorCode> {
    if h.sequence == p.lastSequence then Some(DuplicateFrame)
    else if h.sequence < p.lastSequence then Some(OutOfOrderSequence)
    else if h.generation == 0 then Some(InvalidArgument)
    else if h.generation == GenerationOf(p, s) then Some(DuplicateFrame)
    else if h.generation < GenerationOf(p, s) then Some(StaleGeneration)
    else None
  }

  function StreamAdmitted(g: Gov, f: Framing.Frame, s: Framing.Stream): Outcome {
    var h := f.header;
    var refusal := StreamRefusal(g, h);
    if refusal.Some? then Outcome(g, refusal)
    else
      var p := Refreshed(g.publishers[h.publisher], g.epoch);
      var g1 := g.(publishers := g.publishers[h.publisher := p]);
      var order := OrderRefusal(p, h, s);
      if order.Some? then Outcome(g1, order)
      else
        var installed := Install(g.evidence, s, f.payload, h.publisher);
        if installed.Err? then Outcome(g1, Some(installed.error))
        else
          var g2 := g1.(evidence := installed.value);
          if !AllResolve(g2.evidence) then Outcome(g2, Some(UnknownResource))
          else
            Outcome(g2.(stamp := StampOf(g2.evidence),
                        publishers := g2.publishers[h.publisher :=
                          p.(lastSequence := h.sequence, generations := p.generations[s := h.generation])]), None)
  }

  function Admitted(cfg: Config, g: Gov, f: Framing.Frame): Outcome {
    var damaged := Framing.VerifyPayload(f.header, f.payload, cfg.crc);
    if damaged.Some? then Outcome(g, damaged)
    else if f.header.kind == HEARTBEAT then HeartbeatAdmitted(g, f.header)
    else
      var s := StreamOf(f.header.kind);
      if s.None? then Outcome(g, Some(MalformedFrame)) else StreamAdmitted(g, f, s.value)
  }

  // ----- evaluation ---------------------------------------------------------------------------

  /** references_preverified: everything installed is what was last verified. */
  predicate Preverified(g: Gov) { g.evidence.topology.Some? && g.stamp == StampOf(g.evidence) }

  function InputAt(g: Gov, now: Millis): Input { Input(g.evidence, now, Preverified(g)) }

  // ----- runs -----------------------------------------------------------------------------------

  ghost function Next(cfg: Config, g: Gov, e: Event): (r: Outcome)
    requires ValidEvidence(g.evidence)
    ensures ValidEvidence(r.gov.evidence)
  {
    match e
    case Recover(outcome, boot) =>
      Outcome(Restarted(cfg, g, outcome, boot), if outcome.StoreFailed? then Some(outcome.error) else None)
    case InstallEpoch(epoch, boot, failure) => Installed(g, epoch, boot, failure)
    case Register(id, incarnation, boot) => Registered(g, id, incarnation, boot)
    case NoteDeath(id, failure) => Buried(cfg, g, id, failure)
    case Admit(f) => AdmittedValid(cfg, g, f); Admitted(cfg, g, f)
    case Evaluate(now) => Outcome(g.(history := Track(g.history, Observe(InputAt(g, now)))), None)
  }

  lemma InstallValid(e: Evidence, s: Framing.Stream, payload: Bytes, owner: U64)
    requires ValidEvidence(e) && Install(e, s, payload, owner).Ok?
    ensures ValidEvidence(Install(e, s, payload, owner).value)
  {
    hide Framing.DecodePayload, Framing.RawTopology, Framing.Map;
    match s
    case TopologyStream =>
      DecodedTopologyValid(payload);
    case CapacityStream =>
      DecodedCapacityValid(payload);
    case SignalStream =>
      DecodedSignalsValid(payload);
    case PathStream =>
      DecodedPathsValid(payload);
    case TrafficStream =>
      DecodedTrafficValid(payload);
    case PolicyStream =>
  }

  lemma DecodedTopologyValid(b: Bytes)
    requires Framing.DecodeTopology(b).Ok?
    ensures ValidTopology(Framing.DecodeTopology(b).value.content)
  {
    hide Framing.DecodePayload, Framing.RawTopology, BuildTopology, ValidTopology;
    var v := Framing.DecodePayload(Framing.TopologyStream, b).value;
    BuildTopologyMeaning(Framing.RawTopology(Framing.Snd(v)));
  }

  lemma DecodedCapacityValid(b: Bytes)
    requires Framing.DecodeCapacity(b).Ok?
    ensures ValidCapacity(Framing.DecodeCapacity(b).value.entries)
  {
    hide Framing.DecodePayload, Framing.Map, BuildCapacity, ValidCapacity;
    var v := Framing.DecodePayload(Framing.CapacityStream, b).value;
    BuildCapacityMeaning(Framing.Map(Framing.CapacityOf, Framing.ItemsOf(Framing.Snd(v))));
  }

  lemma DecodedSignalsValid(b: Bytes)
    requires Framing.DecodeSignals(b).Ok?
    ensures ValidSignals(Framing.DecodeSignals(b).value.records)
  {
    hide Framing.DecodePayload, Framing.Map, BuildSignals, ValidSignals;
    var v := Framing.DecodePayload(Framing.SignalStream, b).value;
    BuildSignalsMeaning(Framing.Map(Framing.SignalOf, Framing.ItemsOf(Framing.Snd(v))));
  }

  lemma DecodedPathsValid(b: Bytes)
    requires Framing.DecodePaths(b).Ok?
    ensures ValidPaths(Framing.DecodePaths(b).value.paths)
  {
    hide Framing.DecodePayload, Framing.Map, BuildPaths, ValidPaths;
    var v := Framing.DecodePayload(Framing.PathStream, b).value;
    BuildPathsMeaning(Framing.Map(Framing.PathOf, Framing.ItemsOf(Framing.Snd(v))));
  }

  lemma DecodedTrafficValid(b: Bytes)
    requires Framing.DecodeTraffic(b).Ok?
    ensures ValidTraffic(Framing.DecodeTraffic(b).value.records)
  {
    hide Framing.DecodePayload, Framing.Map, BuildTraffic, ValidTraffic;
    var v := Framing.DecodePayload(Framing.TrafficStream, b).value;
    BuildTrafficMeaning(Framing.Map(Framing.TrafficOf, Framing.ItemsOf(Framing.Snd(v))));
  }

  lemma AdmittedValid(cfg: Config, g: Gov, f: Framing.Frame)
    requires ValidEvidence(g.evidence)
    ensures ValidEvidence(Admitted(cfg, g, f).gov.evidence)
  {
    hide Install, ValidEvidence, AllResolve, Framing.VerifyPayload;
    var s := StreamOf(f.header.kind);
    if s.Some? && Install(g.evidence, s.value, f.payload, f.header.publisher).Ok? {
      InstallValid(g.evidence, s.value, f.payload, f.header.publisher);
    }
  }

  ghost function Run(cfg: Config, events: seq<Event>): (g: Gov)
    ensures ValidEvidence(g.evidence)
  {
    if |events| == 0 then FRESH else Next(cfg, Run(cfg, events[..|events| - 1]), events[|events| - 1]).gov
  }
}
