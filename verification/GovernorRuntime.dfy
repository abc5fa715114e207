/** The governor object (src/governor.cpp): its methods change its fields in
    place and refine the transitions of GovernorProtocol. */
module GovernorRuntime {
  import opened Base
  import opened Model
  import opened Ordering
  import Framing
  import Codec
  import opened WireIo
  import opened TopologyIndex
  import opened PathIndex
  import opened Snapshots
  import opened References
  import opened SaturationHistory
  import opened Detection
  import opened Detector
  import opened Intervention
  import opened Planner
  import opened Locality
  import opened GovernorProtocol

  /** Drops the snapshots a publisher owned, one stream after the other. */
  method DropOwned(held: Evidence, id: U64) returns (e: Evidence)
    ensures e == WithoutOwner(held, id)
  {
    e := held;
    if e.topology.Some? && e.topology.value.publisher == id {
      e := e.(topology := None);
    }
    if e.capacity.Some? && e.capacity.value.publisher == id {
      e := e.(capacity := None);
    }
    if e.signals.Some? && e.signals.value.publisher == id {
      e := e.(signals := None);
    }
    if e.paths.Some? && e.paths.value.publisher == id {
      e := e.(paths := None);
    }
    if e.traffic.Some? && e.traffic.value.publisher == id {
      e := e.(traffic := None);
    }
    if e.policy.Some? && e.policy.value.publisher == id {
      e := e.(policy := None);
    }
  }

  /** verify_references: three walks over the installed evidence. */
  method VerifyReferences(e: Evidence) returns (ok: bool)
    requires ValidEvidence(e)
    ensures ok <==> AllResolve(e)
  {
    hide Resolves, PathsResolve, ValidRegions, ValidLinks;
    if e.topology.None? {
      return true;
    }
    var c := e.topology.value.content;
    ok := true;
    if e.capacity.Some? {
      assert SortedBy(e.capacity.value.entries, CapacityKey);
      ok := MergeResolves(c.resources, e.capacity.value.entries, CapacityKey);
    }
    if ok && e.signals.Some? {
      assert SortedBy(e.signals.value.records, SignalKey);
      ok := MergeResolves(c.resources, e.signals.value.records, SignalKey);
    }
    if ok && e.paths.Some? {
      ok := PathReferencesResolve(c, e.paths.value.paths);
    }
  }

  class Governor {
    const config: Config
    const tracker: SaturationTracker
    var epoch: U64
    var boot: U64
    var publishers: map<U64, Publisher>
    var evidence: Evidence
    var stamp: Stamp
    var adjacency: Index
    var reverse: ReverseIndex

    ghost predicate Indexed()
      reads this
    {
      && (evidence.topology.Some? ==> IndexOf(evidence.topology.value.content, adjacency))
      && (evidence.paths.Some? ==> ReverseOf(evidence.paths.value.paths, reverse))
    }

    ghost predicate Valid()
      reads this, tracker
    {
      tracker.Valid() && ValidEvidence(evidence) && Indexed()
    }

    ghost function State(): Gov
      reads this, tracker
    {
      Gov(epoch, boot, publishers, evidence, stamp, tracker.View())
    }

    constructor (config: Config)
      ensures Valid() && State() == FRESH && this.config == config && fresh(tracker)
    {
      this.config := config;
      tracker := new SaturationTracker();
      epoch, boot, publishers := 0, 0, map[];
      evidence, stamp := NO_EVIDENCE, Stamp(None, None, None, None);
      adjacency, reverse := Index([], [], [], []), ReverseIndex([], [], []);
    }

    method RecoverFrom(outcome: Recovery, newBoot: U64)
      requires Valid()
      modifies this, tracker
      ensures Valid() && State() == Restarted(config, old(State()), outcome, newBoot)
    {
      boot := newBoot;
      epoch := if config.initialEpoch != 0 then config.initialEpoch else 1;
      if outcome.Restored? {
        if outcome.lastEpoch != 0 {
          epoch := if outcome.lastEpoch == U64_MAX then U64_MAX else outcome.lastEpoch + 1;
        }
        publishers := map[];
        evidence := NO_EVIDENCE;
        tracker.Clear();
      }
    }

    /** Fences every publisher registered under another epoch, one by one. */
    method FencePublishers()
      modifies this`publishers
      ensures publishers == FenceAll(old(publishers), epoch)
    {
      var todo := publishers.Keys;
      while todo != {}
        invariant todo <= publishers.Keys == old(publishers).Keys
        invariant forall id :: id in publishers ==>
          publishers[id] == if id in todo then old(publishers)[id] else Fence(old(publishers)[id], epoch)
      {
        var id :| id in todo;
        if publishers[id].epoch != epoch {
          publishers := publishers[id := publishers[id].(alive := false, generations := map[], lastSequence := 0)];
        }
        todo := todo - {id};
      }
    }

    method InstallEpoch(newEpoch: U64, coordinatorBoot: U64, failure: Option<ErrorCode>)
        returns (error: Option<ErrorCode>)
      requires Valid()
      modifies this
      ensures Valid() && Outcome(State(), error) == Installed(old(State()), newEpoch, coordinatorBoot, failure)
    {
      if newEpoch == 0 {
        return Some(InvalidArgument);
      }
      if newEpoch < epoch {
        return Some(StaleEpoch);
      }
      if failure.Some? {
        return failure;
      }
      epoch := newEpoch;
      if coordinatorBoot != 0 {
        boot := coordinatorBoot;
      }
      FencePublishers();
      error := None;
    }

    method RegisterPublisher(id: U64, incarnation: U64, publisherBoot: U64) returns (error: Option<ErrorCode>)
      requires Valid()
      modifies this`publishers
      ensures Valid() && Outcome(State(), error) == Registered(old(State()), id, incarnation, publisherBoot)
    {
      if id == 0 || incarnation == 0 || publisherBoot == 0 {
        return Some(InvalidArgument);
      }
      if epoch == 0 {
        return Some(NotStarted);
      }
      if id in publishers {
        var p := publishers[id];
        if incarnation < p.incarnation {
          return Some(StaleIncarnation);
        }
        if incarnation == p.incarnation {
          if publisherBoot != p.boot {
            return Some(StaleIncarnation);
          }
          publishers := publishers[id := p.(alive := true, epoch := epoch)];
        } else {
          publishers := publishers[id := Publisher(incarnation, publisherBoot, epoch, 0, map[], true)];
        }
      } else {
        if |publishers| >= MAX_PUBLISHERS {
          return Some(BoundExceeded);
        }
        publishers := publishers[id := Publisher(incarnation, publisherBoot, epoch, 0, map[], true)];
      }
      error := None;
    }

    method NotePublisherDeath(id: U64, failure: Option<ErrorCode>) returns (error: Option<ErrorCode>)
      requires Valid()
      modifies this`publishers, this`evidence
      ensures Valid() && Outcome(State(), error) == Buried(config, old(State()), id, failure)
    {
      if id !in publishers {
        return Some(UnknownPublisher);
      }
      if failure.Some? {
        return failure;
      }
      if !publishers[id].alive {
        return None;
      }
      publishers := publishers[id := publishers[id].(alive := false)];
      if config.dropOnDeath {
        evidence := DropOwned(evidence, id);
      }
      error := None;
    }

    method AdmitHeartbeat(h: Framing.FrameHeader) returns (error: Option<ErrorCode>)
      requires Valid()
      modifies this`publishers
      ensures Valid() && Outcome(State(), error) == HeartbeatAdmitted(old(State()), h)
    {
      if h.publisher !in publishers {
        return Some(UnknownPublisher);
      }
      var p := publishers[h.publisher];
      if h.incarnation != p.incarnation || h.boot != p.boot {
        return Some(StaleIncarnation);
      }
      if !p.alive {
        return Some(UnknownPublisher);
      }
      if h.sequence != 0 && h.sequence <= p.lastSequence {
        return Some(if h.sequence == p.lastSequence then DuplicateFrame else OutOfOrderSequence);
      }
      if h.sequence != 0 {
        publishers := publishers[h.publisher := p.(lastSequence := h.sequence)];
      }
      error := None;
    }

    /** A topology payload: rebuilt, newer than the live one, and indexed. */
    method InstallTopology(v: Codec.Value, owner: U64) returns (error: Option<ErrorCode>)
      requires Valid()
      modifies this`evidence, this`adjacency
      ensures Valid()
      ensures var r := TopologyInstalled(old(evidence), v, owner);
              if r.Ok? then error == None && evidence == r.value
              else error == Some(r.error) && evidence == old(evidence)
    {
      hide IndexOf, ReverseOf, ValidTopology, BuildTopology, Framing.RawTopology, ValidCapacity, ValidSignals;
      hide ValidPaths;
      var raw := Framing.RawTopology(Framing.Snd(v));
      var built := BuildContent(raw);
      if built.Err? {
        return Some(built.error);
      }
      var h := Framing.Fst(v);
      var generation := Framing.AsU64(Framing.Num(h, 0));
      if evidence.topology.Some? && generation <= evidence.topology.value.generation {
        return Some(StaleGeneration);
      }
      BuildTopologyMeaning(raw);
      var from, until := Codec.Signed(Framing.AsU64(Framing.Num(h, 1))), Codec.Signed(Framing.AsU64(Framing.Num(h, 2)));
      evidence := evidence.(topology := Some(Topology(built.value, generation, from, until, owner)));
      adjacency := BuildIndex(built.value);
      error := None;
    }

    /** A path payload: rebuilt and indexed. */
    method InstallPaths(v: Codec.Value, owner: U64) returns (error: Option<ErrorCode>)
      requires Valid()
      modifies this`evidence, this`reverse
      ensures Valid()
      ensures var r := PathsInstalled(old(evidence), v, owner);
              if r.Ok? then error == None && evidence == r.value
              else error == Some(r.error) && evidence == old(evidence)
    {
      hide IndexOf, ReverseOf, ValidTopology, BuildPaths, Framing.Map, ValidPaths, ValidCapacity, ValidSignals;
      var read := Framing.PathsFrom(v);
      if read.Err? {
        return Some(read.error);
      }
      BuildPathsMeaning(Framing.Map(Framing.PathOf, Framing.ItemsOf(Framing.Snd(v))));
      evidence := evidence.(paths := Some(read.value.(publisher := owner)));
      reverse := BuildReverse(read.value.paths);
      error := None;
    }

    /** Reads a payload field by field, installs and indexes it; on an error
        nothing changes. */
    method InstallPayload(s: Framing.Stream, payload: Bytes, owner: U64) returns (error: Option<ErrorCode>)
      requires Valid()
      modifies this`evidence, this`adjacency, this`reverse
      ensures Valid()
      ensures var r := Install(old(evidence), s, payload, owner);
              if r.Ok? then error == None && evidence == r.value
              else error == Some(r.error) && evidence == old(evidence)
    {
      hide IndexOf, ReverseOf, ValidEvidence, Framing.TopologyFrom, Framing.CapacityFrom, Framing.SignalsFrom;
      hide Framing.PathsFrom, Framing.TrafficFrom, Framing.PolicyFrom, Framing.DecodePayload;
      var v := ReadPayload(s, payload);
      if v.Err? {
        return Some(v.error);
      }
      if s == Framing.TopologyStream {
        error := InstallTopology(v.value, owner);
      } else if s == Framing.PathStream {
        error := InstallPaths(v.value, owner);
      } else {
        var e := FlatInstalled(evidence, s, v.value, owner);
        if e.Err? {
          return Some(e.error);
        }
        InstallValid(evidence, s, payload, owner);
        evidence := e.value;
        error := None;
      }
    }

    /** Epoch, registration, incarnation and liveness. */
    method CheckFences(h: Framing.FrameHeader) returns (error: Option<ErrorCode>)
      requires Valid()
      ensures error == StreamRefusal(State(), h)
    {
      if epoch == 0 {
        return Some(NotStarted);
      }
      if h.epoch != epoch {
        return Some(if h.epoch < epoch then StaleEpoch else UnknownEpoch);
      }
      if h.publisher !in publishers {
        return Some(UnknownPublisher);
      }
      var p := publishers[h.publisher];
      if h.incarnation != p.incarnation || h.boot != p.boot {
        return Some(StaleIncarnation);
      }
      error := if p.alive then None else Some(UnknownPublisher);
    }

    /** What is installed now has been verified together. */
    method SetStamp()
      modifies this`stamp
      ensures stamp == StampOf(evidence)
    {
      stamp := Stamp(
        if evidence.topology.Some? then Some(evidence.topology.value.content) else None,
        if evidence.capacity.Some? then Some(evidence.capacity.value.entries) else None,
        if evidence.signals.Some? then Some(evidence.signals.value.records) else None,
        if evidence.paths.Some? then Some(evidence.paths.value.paths) else None);
    }

    /** A stream frame: fenced, decoded, installed, verified, stamped. */
    method AdmitStream(f: Framing.Frame, s: Framing.Stream) returns (error: Option<ErrorCode>)
      requires Valid()
      modifies this
      ensures Valid() && Outcome(State(), error) == StreamAdmitted(old(State()), f, s)
    {
      hide IndexOf, ReverseOf, ValidEvidence, Install, AllResolve, OrderRefusal, StreamRefusal, StampOf;
      var h := f.header;
      error := CheckFences(h);
      if error.Some? {
        return;
      }
      RefusalMeansKnown(State(), h);
      var p := publishers[h.publisher];
      if p.epoch != epoch {
        p := p.(epoch := epoch, lastSequence := 0, generations := map[]);
      }
      publishers := publishers[h.publisher := p];
      error := CheckOrder(p, h, s);
      if error.Some? {
        return;
      }
      error := InstallPayload(s, f.payload, h.publisher);
      if error.Some? {
        return;
      }
      var resolved := VerifyReferences(evidence);
      if !resolved {
        return Some(UnknownResource);
      }
      SetStamp();
      publishers := publishers[h.publisher := p.(lastSequence := h.sequence,
          generations := p.generations[s := h.generation])];
    }

    method AdmitFrame(f: Framing.Frame) returns (error: Option<ErrorCode>)
      requires Valid()
      modifies this
      ensures Valid() && Outcome(State(), error) == Admitted(config, old(State()), f)
    {
      hide StreamAdmitted, HeartbeatAdmitted, ValidEvidence, Framing.VerifyPayload;
      var damaged := Framing.VerifyPayload(f.header, f.payload, config.crc);
      if damaged.Some? {
        return damaged;
      }
      if f.header.kind == HEARTBEAT {
        error := AdmitHeartbeat(f.header);
        return;
      }
      var s := StreamOf(f.header.kind);
      if s.None? {
        return Some(MalformedFrame);
      }
      error := AdmitStream(f, s.value);
    }

    /** evaluate: detect and plan on the installed evidence, skipping the
        reference walks when the stamp vouches for them. */
    method Evaluate(now: Millis) returns (a: Assessment, plan: Plan)
      requires Valid()
      modifies tracker
      ensures Valid()
      ensures a == Detect(InputAt(old(State()), now), Some(old(State()).history))
      ensures plan == Decide(InputAt(old(State()), now), Some(old(State()).history))
      ensures State() == old(State()).(history := Track(old(State()).history, Observe(InputAt(old(State()), now))))
    {
      hide IndexOf, ReverseOf, ValidEvidence, Detect, Observe, PlanFor, Track;
      var preverified := evidence.topology.Some? && stamp == StampOf(evidence);
      var input := Input(evidence, now, preverified);
      assert input == InputAt(State(), now);
      a := RunDetect(input, adjacency, reverse, tracker);
      plan := PlanInterventions(a, ContentOf(evidence), EntriesOf(evidence), evidence.policy, now);
    }
  }

  lemma RefusalMeansKnown(g: Gov, h: Framing.FrameHeader)
    requires StreamRefusal(g, h).None?
    ensures h.publisher in g.publishers
  {
  }

  /** Sequence, then the stream's generation. */
  method CheckOrder(p: Publisher, h: Framing.FrameHeader, s: Framing.Stream) returns (error: Option<ErrorCode>)
    ensures error == OrderRefusal(p, h, s)
  {
    if h.sequence <= p.lastSequence {
      return Some(if h.sequence == p.lastSequence then DuplicateFrame else OutOfOrderSequence);
    }
    if h.generation == 0 {
      return Some(InvalidArgument);
    }
    var live := if s in p.generations then p.generations[s] else 0;
    if h.generation > live {
      return None;
    }
    error := Some(if h.generation == live then DuplicateFrame else StaleGeneration);
  }

  /** What Install does with a decoded topology. */
  function TopologyInstalled(e: Evidence, v: Codec.Value, owner: U64): Result<Evidence> {
    var r := Framing.TopologyFrom(v);
    if r.Err? then Err(r.error)
    else if e.topology.Some? && r.value.generation <= e.topology.value.generation then Err(StaleGeneration)
    else Ok(e.(topology := Some(r.value.(publisher := owner))))
  }

  function PathsInstalled(e: Evidence, v: Codec.Value, owner: U64): Result<Evidence> {
    var r := Framing.PathsFrom(v);
    if r.Err? then Err(r.error) else Ok(e.(paths := Some(r.value.(publisher := owner))))
  }

  /** The streams without an index. */
  function FlatInstalled(e: Evidence, s: Framing.Stream, v: Codec.Value, owner: U64): Result<Evidence>
    requires s != Framing.TopologyStream && s != Framing.PathStream
  {
    match s
    case CapacityStream =>
      var r := Framing.CapacityFrom(v);
      if r.Err? then Err(r.error) else Ok(e.(capacity := Some(r.value.(publisher := owner))))
    case SignalStream =>
      var r := Framing.SignalsFrom(v);
      if r.Err? then Err(r.error) else Ok(e.(signals := Some(r.value.(publisher := owner))))
    case TrafficStream =>
      var r := Framing.TrafficFrom(v);
      if r.Err? then Err(r.error) else Ok(e.(traffic := Some(r.value.(publisher := owner))))
    case PolicyStream => Ok(e.(policy := Some(Framing.PolicyFrom(v).(publisher := owner))))
  }
}
