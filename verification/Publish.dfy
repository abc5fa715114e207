/** From a publisher to the governor (src/frame.cpp, src/governor.cpp): a built
    snapshot is encoded, framed, admitted and installed as it was built. */
module Publish {
  import opened Base
  import opened Model
  import Codec
  import Framing
  import opened WireIo
  import opened Detection
  import opened GovernorProtocol
  import opened GovernorRuntime

  datatype Snapshot =
    | OfTopology(topology: Topology)
    | OfCapacity(capacity: Capacity)
    | OfSignals(signals: Signals)
    | OfPaths(paths: Paths)
    | OfTraffic(traffic: Traffic)
    | OfPolicy(policy: Policy)

  function StreamFor(x: Snapshot): Framing.Stream {
    match x
    case OfTopology(_) => Framing.TopologyStream
    case OfCapacity(_) => Framing.CapacityStream
    case OfSignals(_) => Framing.SignalStream
    case OfPaths(_) => Framing.PathStream
    case OfTraffic(_) => Framing.TrafficStream
    case OfPolicy(_) => Framing.PolicyStream
  }

  function KindFor(x: Snapshot): (k: U16)
    ensures StreamOf(k) == Some(StreamFor(x)) && k != HEARTBEAT
  {
    match x
    case OfTopology(_) => 10
    case OfCapacity(_) => 11
    case OfSignals(_) => 12
    case OfPaths(_) => 13
    case OfTraffic(_) => 14
    case OfPolicy(_) => 15
  }

  function PayloadOf(x: Snapshot): Codec.Value {
    match x
    case OfTopology(t) => Framing.TopologyPayload(t)
    case OfCapacity(c) => Framing.CapacityPayload(c)
    case OfSignals(s) => Framing.SignalPayload(s)
    case OfPaths(p) => Framing.PathPayload(p)
    case OfTraffic(t) => Framing.TrafficPayload(t)
    case OfPolicy(p) => Framing.PolicyPayload(p)
  }

  ghost predicate Built(x: Snapshot) {
    match x
    case OfTopology(t) => Framing.BuiltTopology(t)
    case OfCapacity(c) => Framing.BuiltCapacity(c)
    case OfSignals(s) => Framing.BuiltSignals(s)
    case OfPaths(p) => Framing.BuiltPaths(p)
    case OfTraffic(t) => Framing.BuiltTraffic(t)
    case OfPolicy(p) => true
  }

  /** The evidence with this snapshot in its place, owned by its sender. */
  function With(e: Evidence, x: Snapshot, owner: U64): Evidence {
    match x
    case OfTopology(t) => e.(topology := Some(t.(publisher := owner)))
    case OfCapacity(c) => e.(capacity := Some(c.(publisher := owner)))
    case OfSignals(s) => e.(signals := Some(s.(publisher := owner)))
    case OfPaths(p) => e.(paths := Some(p.(publisher := owner)))
    case OfTraffic(t) => e.(traffic := Some(t.(publisher := owner)))
    case OfPolicy(p) => e.(policy := Some(p.(publisher := owner)))
  }

  /** A topology must be newer than the live one. */
  predicate Newer(e: Evidence, x: Snapshot) {
    x.OfTopology? && e.topology.Some? ==> x.topology.generation > e.topology.value.generation
  }

  lemma PayloadFits(x: Snapshot)
    requires Built(x)
    ensures Codec.Fits(Framing.LayoutOf(StreamFor(x)), PayloadOf(x))
  {
    hide Codec.Fits, Framing.LayoutOf, Framing.EncodePayload;
    match x
    case OfTopology(t) => Framing.TopologyRoundTrip(t);
    case OfCapacity(c) => Framing.CapacityRoundTrip(c);
    case OfSignals(s) => Framing.SignalsRoundTrip(s);
    case OfPaths(p) => Framing.PathsRoundTrip(p);
    case OfTraffic(t) => Framing.TrafficRoundTrip(t);
    case OfPolicy(p) => Framing.PolicyRoundTrip(p);
  }

  lemma TopologyPublished(e: Evidence, x: Snapshot, owner: U64)
    requires x.OfTopology? && Built(x) && Codec.Fits(Framing.LayoutOf(StreamFor(x)), PayloadOf(x))
    ensures var payload := Framing.EncodePayload(StreamFor(x), PayloadOf(x));
            Install(e, StreamFor(x), payload, owner)
            == if Newer(e, x) then Ok(With(e, x, owner)) else Err(StaleGeneration)
  {
    hide Codec.Fits, Framing.LayoutOf, Framing.EncodePayload, Framing.DecodeTopology, Framing.BuiltTopology;
    hide Framing.TopologyPayload;
    Framing.TopologyRoundTrip(x.topology);
  }

  lemma FlatPublished(e: Evidence, x: Snapshot, owner: U64)
    requires (x.OfCapacity? || x.OfSignals? || x.OfPolicy?) && Built(x)
    requires Codec.Fits(Framing.LayoutOf(StreamFor(x)), PayloadOf(x))
    ensures var payload := Framing.EncodePayload(StreamFor(x), PayloadOf(x));
            Install(e, StreamFor(x), payload, owner) == Ok(With(e, x, owner))
  {
    hide Codec.Fits, Framing.LayoutOf, Framing.EncodePayload, Framing.DecodeCapacity, Framing.DecodeSignals;
    hide Framing.DecodePolicy, Framing.BuiltCapacity, Framing.BuiltSignals, Framing.CapacityPayload;
    hide Framing.SignalPayload, Framing.PolicyPayload;
    match x
    case OfCapacity(c) => Framing.CapacityRoundTrip(c);
    case OfSignals(s) => Framing.SignalsRoundTrip(s);
    case OfPolicy(p) => Framing.PolicyRoundTrip(p);
  }

  lemma PathsPublished(e: Evidence, x: Snapshot, owner: U64)
    requires (x.OfPaths? || x.OfTraffic?) && Built(x)
    requires Codec.Fits(Framing.LayoutOf(StreamFor(x)), PayloadOf(x))
    ensures var payload := Framing.EncodePayload(StreamFor(x), PayloadOf(x));
            Install(e, StreamFor(x), payload, owner) == Ok(With(e, x, owner))
  {
    hide Codec.Fits, Framing.LayoutOf, Framing.EncodePayload, Framing.DecodePaths, Framing.DecodeTraffic;
    hide Framing.BuiltPaths, Framing.BuiltTraffic, Framing.PathPayload, Framing.TrafficPayload;
    match x
    case OfPaths(p) => Framing.PathsRoundTrip(p);
    case OfTraffic(t) => Framing.TrafficRoundTrip(t);
  }

  /** What a publisher built is what the governor installs, exactly. */
  lemma PublishedIsInstalled(e: Evidence, x: Snapshot, owner: U64)
    requires Built(x) && Codec.Fits(Framing.LayoutOf(StreamFor(x)), PayloadOf(x))
    ensures var payload := Framing.EncodePayload(StreamFor(x), PayloadOf(x));
            Install(e, StreamFor(x), payload, owner)
            == if Newer(e, x) then Ok(With(e, x, owner)) else Err(StaleGeneration)
  {
    hide Codec.Fits, Framing.LayoutOf, Framing.EncodePayload, Install, Built, With, PayloadOf, StreamFor;
    if x.OfTopology? {
      TopologyPublished(e, x, owner);
    } else if x.OfPaths? || x.OfTraffic? {
      PathsPublished(e, x, owner);
    } else {
      FlatPublished(e, x, owner);
    }
  }

  /** Publishing to a governor: when the frame is accepted, the installed evidence
      is the published snapshot beside everything else as it was. */
  method Send(g: Governor, x: Snapshot, from: Provenance) returns (error: Option<ErrorCode>)
    requires g.Valid() && Built(x)
    modifies g
    ensures g.Valid()
    ensures error.None? ==> g.evidence == With(old(g.evidence), x, from.publisher)
    ensures error.None? ==> from.epoch == g.epoch && from.publisher in g.publishers
                            && g.publishers[from.publisher].lastSequence == from.sequence
  {
    hide Codec.Fits, Framing.LayoutOf, Framing.EncodePayload, Framing.DecodePayload, Install, Framing.VerifyPayload;
    hide AllResolve, Built, With, OrderRefusal;
    PayloadFits(x);
    var f := MakeFrame(KindFor(x), StreamFor(x), PayloadOf(x), from, g.config.crc);
    PublishedIsInstalled(g.evidence, x, from.publisher);
    error := g.AdmitFrame(f);
  }
}
