/** A run of the governor (src/governor.cpp) in which a refused frame stays. */
module GovernorExamples {
  import opened Base
  import opened Model
  import Codec
  import Framing
  import TopologyIndex
  import Snapshots
  import Ordering
  import Building
  import References
  import opened Detection
  import opened GovernorProtocol
  import opened Heartbeats
  import opened Publish

  /** A topology without resources, and capacity for a resource it lacks. */
  const EMPTY_TOPOLOGY: Snapshot := OfTopology(Topology(TopologyContent([], [], []), 1, 0, 0, 0))
  const STRANGER: CapacityEntry := CapacityEntry(1, 10, 0, 0, true)
  const STRANGE_CAPACITY: Snapshot := OfCapacity(Capacity([STRANGER], 1, 1, 0, 0))

  lemma EmptyTopologyBuilds()
    ensures Built(EMPTY_TOPOLOGY)
  {
  }

  lemma StrangeCapacityBuilds()
    ensures Built(STRANGE_CAPACITY)
  {
    var es := [STRANGER];
    assert Ordering.StrictBy(es, Snapshots.CapacityKey);
    Ordering.SortStrictIsIdentity(es, Snapshots.CapacityKey);
    assert Snapshots.CheckCapacity(Building.Before(es, 0), es[0]).None?;
  }

  lemma EmptyTopologyIsShort()
    requires Codec.Fits(Framing.LayoutOf(Framing.TopologyStream), PayloadOf(EMPTY_TOPOLOGY))
    ensures |Framing.EncodePayload(Framing.TopologyStream, PayloadOf(EMPTY_TOPOLOGY))| <= 100
  {
    var v := PayloadOf(EMPTY_TOPOLOGY);
    Framing.NumsLength([8, 8, 8], v.fst.ns);
    assert v.snd.fst.items == [] && v.snd.snd.fst.items == [] && v.snd.snd.snd.items == [];
  }

  lemma OneItem(item: Codec.Layout, v: Codec.Value)
    requires Codec.Fits(item, v)
    ensures Codec.EncodeItems(item, [v]) == Codec.Encode(item, v)
  {
    hide Codec.Encode, Codec.Fits;
    assert [v][1..] == [];
    assert Codec.EncodeItems(item, []) == [];
  }

  lemma StrangerIsShort()
    requires Codec.Fits(Framing.CAPACITY_LAYOUT, Framing.CapacityValue(STRANGER))
    ensures |Codec.Encode(Framing.CAPACITY_LAYOUT, Framing.CapacityValue(STRANGER))| == 33
  {
    hide Codec.EncodeNums;
    Framing.NumsLength([8, 8, 8, 8, 1], Framing.CapacityValue(STRANGER).ns);
    Framing.TotalFour(8, 8, 8, 8);
    Framing.TotalOne(1);
    Framing.TotalConcat([8, 8, 8, 8], [1]);
    assert [8, 8, 8, 8, 1] == [8, 8, 8, 8] + [1];
  }

  lemma StrangeCapacityIsShort()
    requires Codec.Fits(Framing.LayoutOf(Framing.CapacityStream), PayloadOf(STRANGE_CAPACITY))
    ensures |Framing.EncodePayload(Framing.CapacityStream, PayloadOf(STRANGE_CAPACITY))| <= 100
  {
    var v := PayloadOf(STRANGE_CAPACITY);
    var c := v.snd.items;
    assert c == [Framing.CapacityValue(STRANGER)];
    assert Codec.Fits(Framing.CAPACITY_LAYOUT, c[0]);
    HeaderIsShort(v.fst.ns);
    StrangerIsShort();
    OneItem(Framing.CAPACITY_LAYOUT, c[0]);
    hide Codec.EncodeNums, Codec.EncodeItems, Codec.Fits;
  }

  lemma HeaderIsShort(ns: seq<nat>)
    requires |ns| == 3
    ensures |Codec.EncodeNums([8, 8, 8], ns)| == 24
  {
    hide Codec.EncodeNums;
    Framing.NumsLength([8, 8, 8], ns);
  }

  /** A frame of publisher 1 at epoch 5. */
  function FrameFor(cfg: Config, x: Snapshot, sequence: U64): Framing.Frame {
    var fits := Codec.Fits(Framing.LayoutOf(StreamFor(x)), PayloadOf(x));
    var payload := if fits then Framing.EncodePayload(StreamFor(x), PayloadOf(x)) else [];
    Framing.Frame(Framing.FrameHeader(1, KindFor(x), 0, Framing.AsU32(|payload|), 5, 1, 1, 1, sequence, 1, 0,
                                      cfg.crc(payload), 0), payload)
  }

  lemma FrameIntact(cfg: Config, x: Snapshot, sequence: U64)
    requires Codec.Fits(Framing.LayoutOf(StreamFor(x)), PayloadOf(x))
    requires |Framing.EncodePayload(StreamFor(x), PayloadOf(x))| <= 100
    ensures var f := FrameFor(cfg, x, sequence); Framing.VerifyPayload(f.header, f.payload, cfg.crc).None?
  {
    hide Codec.Fits, Framing.LayoutOf, Framing.EncodePayload;
  }

  lemma BothFit()
    ensures Built(EMPTY_TOPOLOGY) && Built(STRANGE_CAPACITY)
    ensures Codec.Fits(Framing.LayoutOf(StreamFor(EMPTY_TOPOLOGY)), PayloadOf(EMPTY_TOPOLOGY))
    ensures Codec.Fits(Framing.LayoutOf(StreamFor(STRANGE_CAPACITY)), PayloadOf(STRANGE_CAPACITY))
  {
    hide Built, Codec.Fits, Framing.LayoutOf;
    EmptyTopologyBuilds();
    StrangeCapacityBuilds();
    PayloadFits(EMPTY_TOPOLOGY);
    PayloadFits(STRANGE_CAPACITY);
  }

  /** The topology frame is accepted. */
  lemma TopologyAccepted(cfg: Config, g: Gov)
    requires g.epoch == 5 && g.publishers == map[1 := Publisher(1, 1, 5, 0, map[], true)] && g.evidence == NO_EVIDENCE
    ensures var r := Admitted(cfg, g, FrameFor(cfg, EMPTY_TOPOLOGY, 1));
            && r.error.None? && r.gov.epoch == 5 && r.gov.evidence == With(NO_EVIDENCE, EMPTY_TOPOLOGY, 1)
            && r.gov.publishers == map[1 := Publisher(1, 1, 5, 1, map[Framing.TopologyStream := 1], true)]
            && r.gov.stamp == StampOf(r.gov.evidence)
  {
    hide Codec.Fits, Framing.LayoutOf, Framing.EncodePayload, Install, Framing.VerifyPayload;
    BothFit();
    EmptyTopologyIsShort();
    FrameIntact(cfg, EMPTY_TOPOLOGY, 1);
    PublishedIsInstalled(NO_EVIDENCE, EMPTY_TOPOLOGY, 1);
  }

  /** The capacity frame is refused, and its snapshot is installed. */
  lemma CapacityRefused(cfg: Config, g: Gov)
    requires g.epoch == 5 && g.evidence == With(NO_EVIDENCE, EMPTY_TOPOLOGY, 1)
    requires g.publishers == map[1 := Publisher(1, 1, 5, 1, map[Framing.TopologyStream := 1], true)]
    ensures var r := Admitted(cfg, g, FrameFor(cfg, STRANGE_CAPACITY, 2));
            && r.error == Some(UnknownResource) && r.gov.stamp == g.stamp
            && r.gov.evidence == With(g.evidence, STRANGE_CAPACITY, 1)
  {
    hide Codec.Fits, Framing.LayoutOf, Framing.EncodePayload, Install, Framing.VerifyPayload;
    BothFit();
    StrangeCapacityIsShort();
    FrameIntact(cfg, STRANGE_CAPACITY, 2);
    PublishedIsInstalled(g.evidence, STRANGE_CAPACITY, 1);
    Unresolved(g.evidence);
  }

  lemma Unresolved(e: Evidence)
    requires e == With(NO_EVIDENCE, EMPTY_TOPOLOGY, 1)
    ensures !AllResolve(With(e, STRANGE_CAPACITY, 1))
  {
    var es := [STRANGER];
    assert Snapshots.CapacityKey(es[0]) == 1;
    assert !References.Defines([], Snapshots.CapacityKey(es[0]));
    assert !References.CapacityResolves(TopologyContent([], [], []), es);
  }

  /** A reachable governor refuses a capacity frame for its references and keeps
      its snapshot all the same; the stamp no longer vouches for what is held. */
  lemma RefusedCapacityStays(cfg: Config)
    requires cfg.initialEpoch == 0
    ensures var before := REGISTERED + [Admit(FrameFor(cfg, EMPTY_TOPOLOGY, 1))];
            var last := Admit(FrameFor(cfg, STRANGE_CAPACITY, 2));
            var g := Run(cfg, before + [last]);
            && Admitted(cfg, Run(cfg, before), last.frame).error == Some(UnknownResource)
            && g.evidence.capacity == Some(STRANGE_CAPACITY.capacity.(publisher := 1)) && !Preverified(g)
  {
    hide Codec.Fits, Framing.LayoutOf, Run, Admitted, FrameFor;
    var before := REGISTERED + [Admit(FrameFor(cfg, EMPTY_TOPOLOGY, 1))];
    RegisteredRun(cfg);
    RunNext(cfg, REGISTERED, Admit(FrameFor(cfg, EMPTY_TOPOLOGY, 1)));
    TopologyAccepted(cfg, Run(cfg, REGISTERED));
    RunNext(cfg, before, Admit(FrameFor(cfg, STRANGE_CAPACITY, 2)));
    CapacityRefused(cfg, Run(cfg, before));
  }
}
