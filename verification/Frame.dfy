/** Wire framing (src/frame.cpp): the fixed header and the payloads of the six
    evidence streams. The checksum is any function of the bytes. */
module Framing {
  import opened Base
  import opened Model
  import opened Codec
  import TopologyIndex
  import PathIndex
  import Snapshots

  type Checksum = Bytes -> U64

  // ----- header ------------------------------------------------------------------

  const FRAME_MAGIC: U32 := 0x464D4748
  const PROTOCOL_VERSION: U16 := 1
  const HEADER_BYTES: nat := 88
  const MAX_FRAME_BYTES: nat := 0x100_0000

  datatype FrameHeader = FrameHeader(
    version: U16, kind: U16, flags: U32, payloadLength: U32, epoch: U64, publisher: U64, incarnation: U64,
    boot: U64, sequence: U64, generation: U64, emittedAt: I64, payloadCrc: U64, headerCrc: U64)

  datatype Frame = Frame(header: FrameHeader, payload: Bytes)

  const HEADER_WIDTHS: seq<nat> := [4, 2, 2, 4, 4, 8, 8, 8, 8, 8, 8, 8, 8]

  function HeaderFields(h: FrameHeader): seq<nat> {
    [FRAME_MAGIC, h.version, h.kind, h.flags, h.payloadLength, h.epoch, h.publisher, h.incarnation, h.boot,
     h.sequence, h.generation, Unsigned(h.emittedAt), h.payloadCrc]
  }

  /** Everything the header checksum covers. */
  function HeaderPrefix(h: FrameHeader): Bytes {
    EncodeNums(HEADER_WIDTHS, HeaderFields(h))
  }

  function EncodeHeader(h: FrameHeader, crc: Checksum): Bytes {
    HeaderPrefix(h) + EncodeLe(crc(HeaderPrefix(h)), 8)
  }

  function AsU16(n: nat): U16 { n % 0x1_0000 }
  function AsU32(n: nat): U32 { n % 0x1_0000_0000 }
  function AsU64(n: nat): U64 { n % 0x1_0000_0000_0000_0000 }
  function AsU8(n: nat): U8 { n % 0x100 }

  function HeaderOf(ns: seq<nat>, headerCrc: U64): FrameHeader
    requires |ns| == |HEADER_WIDTHS|
  {
    FrameHeader(AsU16(ns[1]), AsU16(ns[2]), AsU32(ns[3]), AsU32(ns[4]), AsU64(ns[5]), AsU64(ns[6]), AsU64(ns[7]),
                AsU64(ns[8]), AsU64(ns[9]), AsU64(ns[10]), Signed(AsU64(ns[11])), AsU64(ns[12]), headerCrc)
  }

  function DecodeHeader(bytes: Bytes, crc: Checksum): Result<FrameHeader> {
    if |bytes| < HEADER_BYTES then Err(TruncatedFrame)
    else
      var fields := DecodeNums(HEADER_WIDTHS, bytes[..80]);
      if fields.Err? || |fields.value.value| != |HEADER_WIDTHS| then Err(MalformedFrame)
      else
        var ns := fields.value.value;
        var headerCrc := AsU64(DecodeLe(bytes[80..88]));
        if ns[0] != FRAME_MAGIC then Err(MalformedFrame)
        else if ns[1] != PROTOCOL_VERSION then Err(UnsupportedVersion)
        else if ns[4] > MAX_FRAME_BYTES then Err(FrameTooLarge)
        else if headerCrc != crc(bytes[..80]) then Err(IntegrityMismatch)
        else Ok(HeaderOf(ns, headerCrc))
  }

  function VerifyPayload(h: FrameHeader, payload: Bytes, crc: Checksum): Option<ErrorCode> {
    if |payload| != h.payloadLength then Some(TruncatedFrame)
    else if |payload| > MAX_FRAME_BYTES then Some(FrameTooLarge)
    else if crc(payload) != h.payloadCrc then Some(IntegrityMismatch)
    else None
  }

  function EncodeFrame(f: Frame, crc: Checksum): Result<Bytes> {
    if |f.payload| > MAX_FRAME_BYTES then Err(FrameTooLarge)
    else
      var version := if f.header.version == 0 then PROTOCOL_VERSION else f.header.version;
      var h := f.header.(payloadLength := |f.payload|, payloadCrc := crc(f.payload), version := version);
      Ok(EncodeHeader(h, crc) + f.payload)
  }

  lemma HeaderLength(h: FrameHeader)
    ensures |HeaderPrefix(h)| == 80
  {
    NumsLength(HEADER_WIDTHS, HeaderFields(h));
    WidthsTotal();
  }

  function WidthSum(ws: seq<nat>): nat {
    if |ws| == 0 then 0 else ws[0] + WidthSum(ws[1..])
  }

  lemma {:induction false} NumsLength(ws: seq<nat>, ns: seq<nat>)
    requires |ns| == |ws|
    ensures |EncodeNums(ws, ns)| == WidthSum(ws)
  {
    if |ws| == 0 {
    } else {
      NumsLength(ws[1..], ns[1..]);
    }
  }

  lemma {:induction false} TotalConcat(a: seq<nat>, b: seq<nat>)
    ensures WidthSum(a + b) == WidthSum(a) + WidthSum(b)
  {
    if |a| == 0 {
      assert a + b == b;
    } else {
      assert (a + b)[1..] == a[1..] + b;
      TotalConcat(a[1..], b);
    }
  }

  lemma TotalTwo(x: nat, y: nat)
    ensures WidthSum([x, y]) == x + y
  {
    TotalOne(x);
    TotalOne(y);
    TotalConcat([x], [y]);
    assert [x] + [y] == [x, y];
  }

  lemma TotalFour(x: nat, y: nat, z: nat, w: nat)
    ensures WidthSum([x, y, z, w]) == x + y + z + w
  {
    hide WidthSum;
    TotalTwo(x, y);
    TotalTwo(z, w);
    TotalConcat([x, y], [z, w]);
    assert [x, y] + [z, w] == [x, y, z, w];
  }

  lemma WidthsTotal()
    ensures WidthSum(HEADER_WIDTHS) == 80
  {
    hide WidthSum;
    TotalFour(4, 2, 2, 4);
    TotalFour(8, 8, 8, 8);
    TotalConcat([8, 8, 8, 8], [8, 8, 8, 8]);
    TotalConcat([4, 2, 2, 4], [4] + ([8, 8, 8, 8] + [8, 8, 8, 8]));
    TotalConcat([4], [8, 8, 8, 8] + [8, 8, 8, 8]);
    TotalOne(4);
    assert HEADER_WIDTHS == [4, 2, 2, 4] + ([4] + ([8, 8, 8, 8] + [8, 8, 8, 8]));
  }

  lemma TotalOne(x: nat)
    ensures WidthSum([x]) == x
  {
  }

  lemma HeaderFits(h: FrameHeader)
    ensures FitsNums(HEADER_WIDTHS, HeaderFields(h))
    ensures HeaderOf(HeaderFields(h), h.headerCrc) == h
  {
    Pow256Values();
  }

  /** A header survives the wire; its own checksum is filled in on the way. */
  lemma HeaderRoundTrip(h: FrameHeader, rest: Bytes, crc: Checksum)
    requires h.version == PROTOCOL_VERSION && h.payloadLength <= MAX_FRAME_BYTES
    ensures |EncodeHeader(h, crc)| == HEADER_BYTES
    ensures DecodeHeader(EncodeHeader(h, crc) + rest, crc) == Ok(h.(headerCrc := crc(HeaderPrefix(h))))
  {
    hide EncodeNums, DecodeNums, EncodeLe, DecodeLe, Pow256;
    var prefix := HeaderPrefix(h);
    var c := crc(prefix);
    var bytes := EncodeHeader(h, crc) + rest;
    HeaderLength(h);
    assert bytes[..80] == prefix && bytes[80..88] == EncodeLe(c, 8);
    HeaderFits(h.(headerCrc := c));
    NumsRoundTrip(HEADER_WIDTHS, HeaderFields(h), []);
    assert prefix + [] == prefix;
    Pow256Values();
    DecodeEncodeLe(c, 8);
  }

  /** A frame survives the wire: the header decodes to the sender's header with
      length and checksums filled in, and the payload after it verifies. */
  lemma FrameRoundTrip(f: Frame, crc: Checksum)
    requires |f.payload| <= MAX_FRAME_BYTES && (f.header.version == 0 || f.header.version == PROTOCOL_VERSION)
    ensures EncodeFrame(f, crc).Ok?
    ensures var wire := EncodeFrame(f, crc).value;
            var h := DecodeHeader(wire, crc);
            && |wire| == HEADER_BYTES + |f.payload| && wire[HEADER_BYTES..] == f.payload
            && h.Ok? && VerifyPayload(h.value, wire[HEADER_BYTES..], crc).None?
            && h.value.(payloadLength := 0, payloadCrc := 0, headerCrc := 0, version := 0)
               == f.header.(payloadLength := 0, payloadCrc := 0, headerCrc := 0, version := 0)
  {
    hide EncodeHeader, DecodeHeader;
    var h := f.header.(payloadLength := |f.payload|, payloadCrc := crc(f.payload), version := PROTOCOL_VERSION);
    HeaderRoundTrip(h, f.payload, crc);
    assert (EncodeHeader(h, crc) + f.payload)[HEADER_BYTES..] == f.payload;
  }

  // ----- payloads ------------------------------------------------------------------

  datatype Stream = TopologyStream | CapacityStream | SignalStream | PathStream | TrafficStream | PolicyStream

  /** The stream kind every payload starts with. */
  function StreamCode(s: Stream): U16 {
    match s
    case TopologyStream => 1
    case CapacityStream => 2
    case SignalStream => 3
    case PathStream => 4
    case TrafficStream => 5
    case PolicyStream => 6
  }

  const REGION_LAYOUT := Pair(Nums([8, 8]), Text(MAX_NAME_BYTES))
  const RESOURCE_LAYOUT := Pair(Nums([8, 8, 1]), Text(MAX_NAME_BYTES))
  const LINK_LAYOUT := Nums([8, 8, 8])
  const CAPACITY_LAYOUT := Nums([8, 8, 8, 8, 1])
  const SIGNAL_LAYOUT := Nums([8, 8, 8, 8, 8, 8, 8, 4, 1, 8])
  const PATH_LAYOUT := Pair(Nums([8, 8]), List(MAX_HOPS, Nums([8])))
  const TRAFFIC_LAYOUT := Nums([8, 8, 8, 1, 8])

  /** What follows the stream kind: generation and time first, then the
      bindings, then the records. */
  function LayoutOf(s: Stream): Layout {
    match s
    case TopologyStream =>
      Pair(Nums([8, 8, 8]),
           Pair(List(MAX_REGIONS, REGION_LAYOUT),
               Pair(List(MAX_RESOURCES, RESOURCE_LAYOUT), List(MAX_LINKS, LINK_LAYOUT))))
    case CapacityStream => Pair(Nums([8, 8, 8]), List(MAX_CAPACITY_ENTRIES, CAPACITY_LAYOUT))
    case SignalStream => Pair(Nums([8, 8, 8, 8, 8]), List(MAX_SIGNAL_RECORDS, SIGNAL_LAYOUT))
    case PathStream => Pair(Nums([8, 8, 8]), List(MAX_PATHS, PATH_LAYOUT))
    case TrafficStream => Pair(Nums([8, 8, 8]), List(MAX_TRAFFIC_RECORDS, TRAFFIC_LAYOUT))
    case PolicyStream =>
      Pair(Nums([8, 8, 8, 8, 4]),
           Pair(Nums([4, 4, 4, 4, 4, 4, 4, 4, 4, 4, 4, 4, 4, 4, 4, 4, 4, 4, 4]),
                Pair(Nums([4, 4, 4, 4, 4, 4, 4]), Pair(Nums([1, 1, 1, 1, 1, 1, 1]), Nums([4, 4, 4, 4])))))
  }

  function EncodePayload(s: Stream, v: Value): Bytes
    requires Fits(LayoutOf(s), v)
  {
    EncodeLe(StreamCode(s), 2) + Encode(LayoutOf(s), v)
  }

  function DecodePayload(s: Stream, b: Bytes): Result<Value> {
    if |b| < 2 then Err(TruncatedFrame)
    else if DecodeLe(b[..2]) != StreamCode(s) then Err(MalformedFrame)
    else DecodeAll(LayoutOf(s), b[2..])
  }

  lemma PayloadRoundTrip(s: Stream, v: Value)
    requires Fits(LayoutOf(s), v)
    ensures DecodePayload(s, EncodePayload(s, v)) == Ok(v)
  {
    hide LayoutOf, Encode, Decode, EncodeLe, DecodeLe;
    Pow256Values();
    DecodeEncodeLe(StreamCode(s), 2);
    DecodeAllRoundTrip(LayoutOf(s), v);
    assert EncodePayload(s, v)[2..] == Encode(LayoutOf(s), v);
  }

  /** No proper extension of an accepted payload is accepted, so no strict
      prefix of an accepted payload is either. */
  lemma PayloadPrefixFree(s: Stream, b: Bytes, more: Bytes)
    requires DecodePayload(s, b).Ok? && |more| > 0
    ensures DecodePayload(s, b + more).Err?
  {
    hide LayoutOf, Encode, Decode, DecodeLe;
    assert (b + more)[..2] == b[..2] && (b + more)[2..] == b[2..] + more;
    DecodeAllPrefixFree(LayoutOf(s), b[2..], more);
  }

  function Num(v: Value, i: nat): nat { if v.Tuple? && i < |v.ns| then v.ns[i] else 0 }

  function Fst(v: Value): Value { if v.Both? then v.fst else v }

  function Snd(v: Value): Value { if v.Both? then v.snd else v }

  function TextOf(v: Value): Bytes { if v.Str? then v.text else [] }

  function ItemsOf(v: Value): seq<Value> { if v.Items? then v.items else [] }

  function Map<A, B>(f: A -> B, s: seq<A>): (r: seq<B>)
    ensures |r| == |s| && forall i :: 0 <= i < |s| ==> r[i] == f(s[i])
  {
    seq(|s|, i requires 0 <= i < |s| => f(s[i]))
  }

  lemma NumsFit(ws: seq<nat>, ns: seq<nat>)
    requires FitsNums(ws, ns)
    ensures Fits(Nums(ws), Tuple(ns))
  {
  }

  lemma TextFits(max: U32, text: Bytes)
    requires |text| <= max
    ensures Fits(Text(max), Str(text))
  {
  }

  lemma ListFits(max: U32, item: Layout, vs: seq<Value>)
    requires |vs| <= max && forall i :: 0 <= i < |vs| ==> Fits(item, vs[i])
    ensures Fits(List(max, item), Items(vs))
  {
    hide FitsNums;
  }

  lemma PairFits(p: Layout, q: Layout, v: Value, w: Value)
    requires Fits(p, v) && Fits(q, w)
    ensures Fits(Pair(p, q), Both(v, w))
  {
    hide FitsNums;
  }

  /** Records that each survive their own layout survive as a counted list. */
  lemma RecordsFit<T>(max: U32, item: Layout, f: T -> Value, g: Value -> T, s: seq<T>)
    requires |s| <= max && forall i :: 0 <= i < |s| ==> Fits(item, f(s[i])) && g(f(s[i])) == s[i]
    ensures Fits(List(max, item), Items(Map(f, s)))
    ensures Map(g, Map(f, s)) == s
  {
    hide Fits;
    ListFits(max, item, Map(f, s));
  }

  // ----- capacity

  function CapacityValue(e: CapacityEntry): Value {
    Tuple([e.resource, e.units, e.queueLimit, e.bufferLimit, if e.usable then 1 else 0])
  }

  function CapacityOf(v: Value): CapacityEntry {
    CapacityEntry(AsU64(Num(v, 0)), AsU64(Num(v, 1)), AsU64(Num(v, 2)), AsU64(Num(v, 3)), Num(v, 4) != 0)
  }

  lemma CapacityEntryFits(e: CapacityEntry)
    ensures Fits(CAPACITY_LAYOUT, CapacityValue(e)) && CapacityOf(CapacityValue(e)) == e
  {
    hide Pow256;
    Pow256Values();
  }

  function CapacityPayload(c: Capacity): Value {
    Both(Tuple([c.generation, Unsigned(c.observedAt), c.topologyGeneration]), Items(Map(CapacityValue, c.entries)))
  }

  function DecodeCapacity(b: Bytes): Result<Capacity> {
    var r := DecodePayload(CapacityStream, b);
    if r.Err? then Err(r.error) else CapacityFrom(r.value)
  }

  function CapacityFrom(v: Value): Result<Capacity> {
    var built := Snapshots.BuildCapacity(Map(CapacityOf, ItemsOf(Snd(v))));
    if built.Err? then Err(built.error)
    else
      var h := Fst(v);
      Ok(Capacity(built.value, AsU64(Num(h, 0)), AsU64(Num(h, 2)), Signed(AsU64(Num(h, 1))), 0))
  }

  ghost predicate BuiltCapacity(c: Capacity) {
    |c.entries| <= MAX_CAPACITY_ENTRIES && Snapshots.BuildCapacity(c.entries) == Ok(c.entries)
  }

  lemma CapacityFits(c: Capacity)
    requires |c.entries| <= MAX_CAPACITY_ENTRIES
    ensures Fits(LayoutOf(CapacityStream), CapacityPayload(c))
    ensures Map(CapacityOf, Map(CapacityValue, c.entries)) == c.entries
  {
    hide Fits, Pow256, CapacityOf, CapacityValue;
    forall i | 0 <= i < |c.entries|
      ensures Fits(CAPACITY_LAYOUT, CapacityValue(c.entries[i]))
          && CapacityOf(CapacityValue(c.entries[i])) == c.entries[i]
    {
      CapacityEntryFits(c.entries[i]);
    }
    RecordsFit(MAX_CAPACITY_ENTRIES, CAPACITY_LAYOUT, CapacityValue, CapacityOf, c.entries);
    Pow256Values();
    var v := CapacityPayload(c);
    NumsFit([8, 8, 8], v.fst.ns);
    PairFits(Nums([8, 8, 8]), List(MAX_CAPACITY_ENTRIES, CAPACITY_LAYOUT), v.fst, v.snd);
  }

  /** A built capacity snapshot decodes to itself. */
  lemma CapacityRoundTrip(c: Capacity)
    requires BuiltCapacity(c)
    ensures Fits(LayoutOf(CapacityStream), CapacityPayload(c))
    ensures DecodeCapacity(EncodePayload(CapacityStream, CapacityPayload(c))) == Ok(c.(publisher := 0))
  {
    hide EncodePayload, DecodePayload, Fits, LayoutOf, Map, Snapshots.BuildCapacity;
    CapacityFits(c);
    PayloadRoundTrip(CapacityStream, CapacityPayload(c));
  }

  // ----- signals

  function SignalValue(r: SignalRecord): Value {
    Tuple([r.resource, r.utilized, r.queueDepth, r.bufferUsed, r.offered, r.admitted, r.drops, r.confidence,
           r.quality, Unsigned(r.observedAt)])
  }

  function SignalOf(v: Value): SignalRecord {
    SignalRecord(AsU64(Num(v, 0)), AsU64(Num(v, 1)), AsU64(Num(v, 2)), AsU64(Num(v, 3)), AsU64(Num(v, 4)),
                 AsU64(Num(v, 5)), AsU64(Num(v, 6)), AsU32(Num(v, 7)), AsU8(Num(v, 8)), Signed(AsU64(Num(v, 9))))
  }

  lemma SignalRecordFits(r: SignalRecord)
    ensures Fits(SIGNAL_LAYOUT, SignalValue(r)) && SignalOf(SignalValue(r)) == r
  {
    hide Pow256;
    Pow256Values();
  }

  function SignalPayload(s: Signals): Value {
    Both(Tuple([s.generation, Unsigned(s.windowEnd), s.topologyGeneration, s.capacityGeneration,
        Unsigned(s.windowStart)]),
         Items(Map(SignalValue, s.records)))
  }

  function SignalsFrom(v: Value): Result<Signals> {
    var built := Snapshots.BuildSignals(Map(SignalOf, ItemsOf(Snd(v))));
    if built.Err? then Err(built.error)
    else
      var h := Fst(v);
      Ok(Signals(built.value, AsU64(Num(h, 0)), AsU64(Num(h, 2)), AsU64(Num(h, 3)),
                 Signed(AsU64(Num(h, 4))), Signed(AsU64(Num(h, 1))), 0))
  }

  function DecodeSignals(b: Bytes): Result<Signals> {
    var r := DecodePayload(SignalStream, b);
    if r.Err? then Err(r.error) else SignalsFrom(r.value)
  }

  ghost predicate BuiltSignals(s: Signals) {
    |s.records| <= MAX_SIGNAL_RECORDS && Snapshots.BuildSignals(s.records) == Ok(s.records)
  }

  lemma SignalsFit(s: Signals)
    requires |s.records| <= MAX_SIGNAL_RECORDS
    ensures Fits(LayoutOf(SignalStream), SignalPayload(s))
    ensures Map(SignalOf, Map(SignalValue, s.records)) == s.records
  {
    hide Fits, Pow256, SignalOf, SignalValue;
    forall i | 0 <= i < |s.records|
      ensures Fits(SIGNAL_LAYOUT, SignalValue(s.records[i])) && SignalOf(SignalValue(s.records[i])) == s.records[i]
    {
      SignalRecordFits(s.records[i]);
    }
    RecordsFit(MAX_SIGNAL_RECORDS, SIGNAL_LAYOUT, SignalValue, SignalOf, s.records);
    Pow256Values();
    var v := SignalPayload(s);
    NumsFit([8, 8, 8, 8, 8], v.fst.ns);
    PairFits(Nums([8, 8, 8, 8, 8]), List(MAX_SIGNAL_RECORDS, SIGNAL_LAYOUT), v.fst, v.snd);
  }

  /** A built signal snapshot decodes to itself. */
  lemma SignalsRoundTrip(s: Signals)
    requires BuiltSignals(s)
    ensures Fits(LayoutOf(SignalStream), SignalPayload(s))
    ensures DecodeSignals(EncodePayload(SignalStream, SignalPayload(s))) == Ok(s.(publisher := 0))
  {
    hide EncodePayload, DecodePayload, Fits, LayoutOf, Map, Snapshots.BuildSignals;
    SignalsFit(s);
    PayloadRoundTrip(SignalStream, SignalPayload(s));
  }

  // ----- traffic

  function TrafficValue(r: TrafficRecord): Value {
    Tuple([r.flow, r.path, r.demand, r.quality, Unsigned(r.observedAt)])
  }

  function TrafficOf(v: Value): TrafficRecord {
    TrafficRecord(AsU64(Num(v, 0)), AsU64(Num(v, 1)), AsU64(Num(v, 2)), AsU8(Num(v, 3)), Signed(AsU64(Num(v, 4))))
  }

  lemma TrafficRecordFits(r: TrafficRecord)
    ensures Fits(TRAFFIC_LAYOUT, TrafficValue(r)) && TrafficOf(TrafficValue(r)) == r
  {
    hide Pow256;
    Pow256Values();
  }

  /** Traffic carries no time of its own: the time slot holds "no time". */
  function TrafficPayload(t: Traffic): Value {
    Both(Tuple([t.generation, Unsigned(NO_TIME), t.pathGeneration]), Items(Map(TrafficValue, t.records)))
  }

  function TrafficFrom(v: Value): Result<Traffic> {
    var built := Snapshots.BuildTraffic(Map(TrafficOf, ItemsOf(Snd(v))));
    if built.Err? then Err(built.error)
    else
      var h := Fst(v);
      Ok(Traffic(built.value, AsU64(Num(h, 0)), AsU64(Num(h, 2)), 0))
  }

  function DecodeTraffic(b: Bytes): Result<Traffic> {
    var r := DecodePayload(TrafficStream, b);
    if r.Err? then Err(r.error) else TrafficFrom(r.value)
  }

  ghost predicate BuiltTraffic(t: Traffic) {
    |t.records| <= MAX_TRAFFIC_RECORDS && Snapshots.BuildTraffic(t.records) == Ok(t.records)
  }

  lemma TrafficFits(t: Traffic)
    requires |t.records| <= MAX_TRAFFIC_RECORDS
    ensures Fits(LayoutOf(TrafficStream), TrafficPayload(t))
    ensures Map(TrafficOf, Map(TrafficValue, t.records)) == t.records
  {
    hide Fits, Pow256, TrafficOf, TrafficValue;
    forall i | 0 <= i < |t.records|
      ensures Fits(TRAFFIC_LAYOUT, TrafficValue(t.records[i])) && TrafficOf(TrafficValue(t.records[i])) == t.records[i]
    {
      TrafficRecordFits(t.records[i]);
    }
    RecordsFit(MAX_TRAFFIC_RECORDS, TRAFFIC_LAYOUT, TrafficValue, TrafficOf, t.records);
    Pow256Values();
    var v := TrafficPayload(t);
    NumsFit([8, 8, 8], v.fst.ns);
    PairFits(Nums([8, 8, 8]), List(MAX_TRAFFIC_RECORDS, TRAFFIC_LAYOUT), v.fst, v.snd);
  }

  /** A built traffic snapshot decodes to itself. */
  lemma TrafficRoundTrip(t: Traffic)
    requires BuiltTraffic(t)
    ensures Fits(LayoutOf(TrafficStream), TrafficPayload(t))
    ensures DecodeTraffic(EncodePayload(TrafficStream, TrafficPayload(t))) == Ok(t.(publisher := 0))
  {
    hide EncodePayload, DecodePayload, Fits, LayoutOf, Map, Snapshots.BuildTraffic;
    TrafficFits(t);
    PayloadRoundTrip(TrafficStream, TrafficPayload(t));
  }

  // ----- paths

  function HopValue(x: U64): Value { Tuple([x]) }

  function HopOf(v: Value): U64 { AsU64(Num(v, 0)) }

  function PathValue(p: PathRecord): Value {
    Both(Tuple([p.id, p.flow]), Items(Map(HopValue, p.hops)))
  }

  function PathOf(v: Value): PathRecord {
    PathRecord(AsU64(Num(Fst(v), 0)), AsU64(Num(Fst(v), 1)), Map(HopOf, ItemsOf(Snd(v))))
  }

  lemma PathRecordFits(p: PathRecord)
    requires |p.hops| <= MAX_HOPS
    ensures Fits(PATH_LAYOUT, PathValue(p)) && PathOf(PathValue(p)) == p
  {
    hide Pow256, Fits;
    Pow256Values();
    forall i | 0 <= i < |p.hops| ensures Fits(Nums([8]), HopValue(p.hops[i]))
        && HopOf(HopValue(p.hops[i])) == p.hops[i] {
      NumsFit([8], [p.hops[i]]);
    }
    RecordsFit(MAX_HOPS, Nums([8]), HopValue, HopOf, p.hops);
    NumsFit([8, 8], [p.id, p.flow]);
    PairFits(Nums([8, 8]), List(MAX_HOPS, Nums([8])), Tuple([p.id, p.flow]), Items(Map(HopValue, p.hops)));
  }

  function PathPayload(p: Paths): Value {
    Both(Tuple([p.generation, Unsigned(p.observedAt), p.topologyGeneration]), Items(Map(PathValue, p.paths)))
  }

  function PathsFrom(v: Value): Result<Paths> {
    var built := PathIndex.BuildPaths(Map(PathOf, ItemsOf(Snd(v))));
    if built.Err? then Err(built.error)
    else
      var h := Fst(v);
      Ok(Paths(built.value, AsU64(Num(h, 0)), AsU64(Num(h, 2)), Signed(AsU64(Num(h, 1))), 0))
  }

  function DecodePaths(b: Bytes): Result<Paths> {
    var r := DecodePayload(PathStream, b);
    if r.Err? then Err(r.error) else PathsFrom(r.value)
  }

  ghost predicate BuiltPaths(p: Paths) {
    PathIndex.ValidPaths(p.paths) && PathIndex.BuildPaths(p.paths) == Ok(p.paths)
  }

  lemma PathsFit(p: Paths)
    requires PathIndex.ValidPaths(p.paths)
    ensures Fits(LayoutOf(PathStream), PathPayload(p))
    ensures Map(PathOf, Map(PathValue, p.paths)) == p.paths
  {
    hide Fits, Pow256, PathOf, PathValue;
    forall i | 0 <= i < |p.paths|
      ensures Fits(PATH_LAYOUT, PathValue(p.paths[i])) && PathOf(PathValue(p.paths[i])) == p.paths[i]
    {
      PathRecordFits(p.paths[i]);
    }
    RecordsFit(MAX_PATHS, PATH_LAYOUT, PathValue, PathOf, p.paths);
    Pow256Values();
    var v := PathPayload(p);
    NumsFit([8, 8, 8], v.fst.ns);
    PairFits(Nums([8, 8, 8]), List(MAX_PATHS, PATH_LAYOUT), v.fst, v.snd);
  }

  /** A built path snapshot decodes to itself. */
  lemma PathsRoundTrip(p: Paths)
    requires BuiltPaths(p)
    ensures Fits(LayoutOf(PathStream), PathPayload(p))
    ensures DecodePaths(EncodePayload(PathStream, PathPayload(p))) == Ok(p.(publisher := 0))
  {
    hide EncodePayload, DecodePayload, Fits, LayoutOf, Map, PathIndex.BuildPaths, PathIndex.ValidPaths;
    PathsFit(p);
    PayloadRoundTrip(PathStream, PathPayload(p));
  }

  // ----- topology

  function RegionValue(r: Region): Value { Both(Tuple([r.id, r.parent]), Str(r.name)) }

  function RegionOf(v: Value): Region {
    Region(AsU64(Num(Fst(v), 0)), AsU64(Num(Fst(v), 1)), TextOf(Snd(v)))
  }

  function ResourceValue(r: Resource): Value { Both(Tuple([r.id, r.region, r.kind]), Str(r.name)) }

  function ResourceOf(v: Value): Resource {
    Resource(AsU64(Num(Fst(v), 0)), AsU64(Num(Fst(v), 1)), AsU8(Num(Fst(v), 2)), TextOf(Snd(v)))
  }

  function LinkValue(l: Link): Value { Tuple([l.id, l.a, l.b]) }

  function LinkOf(v: Value): Link { Link(AsU64(Num(v, 0)), AsU64(Num(v, 1)), AsU64(Num(v, 2))) }

  lemma RegionFits(r: Region)
    requires |r.name| <= MAX_NAME_BYTES
    ensures Fits(REGION_LAYOUT, RegionValue(r)) && RegionOf(RegionValue(r)) == r
  {
    hide Pow256, Fits;
    Pow256Values();
    NumsFit([8, 8], [r.id, r.parent]);
    TextFits(MAX_NAME_BYTES, r.name);
    PairFits(Nums([8, 8]), Text(MAX_NAME_BYTES), Tuple([r.id, r.parent]), Str(r.name));
  }

  lemma ResourceFits(r: Resource)
    requires |r.name| <= MAX_NAME_BYTES
    ensures Fits(RESOURCE_LAYOUT, ResourceValue(r)) && ResourceOf(ResourceValue(r)) == r
  {
    hide Pow256, Fits;
    Pow256Values();
    NumsFit([8, 8, 1], [r.id, r.region, r.kind]);
    TextFits(MAX_NAME_BYTES, r.name);
    PairFits(Nums([8, 8, 1]), Text(MAX_NAME_BYTES), Tuple([r.id, r.region, r.kind]), Str(r.name));
  }

  lemma LinkFits(l: Link)
    ensures Fits(LINK_LAYOUT, LinkValue(l)) && LinkOf(LinkValue(l)) == l
  {
    hide Pow256;
    Pow256Values();
  }

  function TopologyPayload(t: Topology): Value {
    Both(Tuple([t.generation, Unsigned(t.validFrom), Unsigned(t.validUntil)]),
         Both(Items(Map(RegionValue, t.content.regions)),
              Both(Items(Map(ResourceValue, t.content.resources)), Items(Map(LinkValue, t.content.links)))))
  }

  function RawTopology(v: Value): TopologyContent {
    TopologyContent(Map(RegionOf, ItemsOf(Fst(v))), Map(ResourceOf, ItemsOf(Fst(Snd(v)))),
        Map(LinkOf, ItemsOf(Snd(Snd(v)))))
  }

  function TopologyFrom(v: Value): Result<Topology> {
    var built := TopologyIndex.BuildTopology(RawTopology(Snd(v)));
    if built.Err? then Err(built.error)
    else
      var h := Fst(v);
      Ok(Topology(built.value, AsU64(Num(h, 0)), Signed(AsU64(Num(h, 1))), Signed(AsU64(Num(h, 2))), 0))
  }

  function DecodeTopology(b: Bytes): Result<Topology> {
    var r := DecodePayload(TopologyStream, b);
    if r.Err? then Err(r.error) else TopologyFrom(r.value)
  }

  ghost predicate BuiltTopology(t: Topology) { TopologyIndex.BuildTopology(t.content) == Ok(t.content) }

  lemma RegionsFit(rs: seq<Region>)
    requires |rs| <= MAX_REGIONS && forall i :: 0 <= i < |rs| ==> |rs[i].name| <= MAX_NAME_BYTES
    ensures Fits(List(MAX_REGIONS, REGION_LAYOUT), Items(Map(RegionValue, rs)))
        && Map(RegionOf, Map(RegionValue, rs)) == rs
  {
    hide Fits, RegionOf, RegionValue;
    forall i | 0 <= i < |rs| ensures Fits(REGION_LAYOUT, RegionValue(rs[i])) && RegionOf(RegionValue(rs[i])) == rs[i] {
      RegionFits(rs[i]);
    }
    RecordsFit(MAX_REGIONS, REGION_LAYOUT, RegionValue, RegionOf, rs);
  }

  lemma ResourcesFit(rs: seq<Resource>)
    requires |rs| <= MAX_RESOURCES && forall i :: 0 <= i < |rs| ==> |rs[i].name| <= MAX_NAME_BYTES
    ensures Fits(List(MAX_RESOURCES, RESOURCE_LAYOUT), Items(Map(ResourceValue, rs)))
    ensures Map(ResourceOf, Map(ResourceValue, rs)) == rs
  {
    hide Fits, ResourceOf, ResourceValue;
    forall i | 0 <= i < |rs| ensures Fits(RESOURCE_LAYOUT, ResourceValue(rs[i]))
        && ResourceOf(ResourceValue(rs[i])) == rs[i] {
      ResourceFits(rs[i]);
    }
    RecordsFit(MAX_RESOURCES, RESOURCE_LAYOUT, ResourceValue, ResourceOf, rs);
  }

  lemma LinksFit(ls: seq<Link>)
    requires |ls| <= MAX_LINKS
    ensures Fits(List(MAX_LINKS, LINK_LAYOUT), Items(Map(LinkValue, ls))) && Map(LinkOf, Map(LinkValue, ls)) == ls
  {
    hide Fits, LinkOf, LinkValue;
    forall i | 0 <= i < |ls| ensures Fits(LINK_LAYOUT, LinkValue(ls[i])) && LinkOf(LinkValue(ls[i])) == ls[i] {
      LinkFits(ls[i]);
    }
    RecordsFit(MAX_LINKS, LINK_LAYOUT, LinkValue, LinkOf, ls);
  }

  lemma TopologyFits(t: Topology)
    requires BuiltTopology(t)
    ensures Fits(LayoutOf(TopologyStream), TopologyPayload(t))
    ensures RawTopology(Snd(TopologyPayload(t))) == t.content
  {
    hide Fits, Pow256, TopologyIndex.BuildTopology, Map;
    TopologyIndex.BuiltWithinLimits(t.content);
    RegionsFit(t.content.regions);
    ResourcesFit(t.content.resources);
    LinksFit(t.content.links);
    Pow256Values();
    var v := TopologyPayload(t);
    NumsFit([8, 8, 8], v.fst.ns);
    PairFits(List(MAX_RESOURCES, RESOURCE_LAYOUT), List(MAX_LINKS, LINK_LAYOUT), v.snd.snd.fst, v.snd.snd.snd);
    PairFits(List(MAX_REGIONS, REGION_LAYOUT), Pair(List(MAX_RESOURCES, RESOURCE_LAYOUT), List(MAX_LINKS, LINK_LAYOUT)),
             v.snd.fst, v.snd.snd);
    PairFits(Nums([8, 8, 8]), LayoutOf(TopologyStream).second, v.fst, v.snd);
  }

  /** A built topology decodes to itself. */
  lemma TopologyRoundTrip(t: Topology)
    requires BuiltTopology(t)
    ensures Fits(LayoutOf(TopologyStream), TopologyPayload(t))
    ensures DecodeTopology(EncodePayload(TopologyStream, TopologyPayload(t))) == Ok(t.(publisher := 0))
  {
    hide EncodePayload, DecodePayload, Fits, LayoutOf, Map, TopologyIndex.BuildTopology, RawTopology;
    TopologyFits(t);
    PayloadRoundTrip(TopologyStream, TopologyPayload(t));
  }

  // ----- policy

  function Flag(b: bool): nat { if b then 1 else 0 }

  function ThresholdNums(t: Thresholds): (r: seq<U32>)
    ensures |r| == 19
  {
    [t.saturationPpm, t.queuePpm, t.bufferPpm, t.minConfidencePpm, t.maxSignalAge, t.maxCapacityAge, t.maxTopologyAge,
     t.maxPathAge, t.maxTrafficAge, t.persistenceWindow, t.minSamples, t.maxLocalSharePpm, t.globalSharePpm,
     t.maxLocalRegions, t.maxRegionalRegions, t.minCoveragePpm, t.minAttributionPpm, t.dominantPpm, t.contradictionPpm]
  }

  function ThresholdsOf(v: Value): Thresholds {
    Thresholds(
      AsU32(Num(v, 0)), AsU32(Num(v, 1)), AsU32(Num(v, 2)), AsU32(Num(v, 3)), AsU32(Num(v, 4)), AsU32(Num(v, 5)),
      AsU32(Num(v, 6)), AsU32(Num(v, 7)), AsU32(Num(v, 8)), AsU32(Num(v, 9)), AsU32(Num(v, 10)), AsU32(Num(v, 11)),
      AsU32(Num(v, 12)), AsU32(Num(v, 13)), AsU32(Num(v, 14)), AsU32(Num(v, 15)), AsU32(Num(v, 16)),
      AsU32(Num(v, 17)), AsU32(Num(v, 18)))
  }

  function BudgetNums(b: Budget): (r: seq<U32>)
    ensures |r| == 7
  {
    [b.maxResources, b.maxPaths, b.maxFlows, b.maxRateDelta, b.maxScopeShare, b.maxPlanShare, b.maxIntents]
  }

  function BudgetFlags(b: Budget): (r: seq<nat>)
    ensures |r| == 7 && forall i :: 0 <= i < 7 ==> r[i] <= 1
  {
    [Flag(b.allowRelocation), Flag(b.allowRebalance), Flag(b.allowAdmission), Flag(b.allowRate),
     Flag(b.allowIsolation), Flag(b.allowEscalation), Flag(b.requireAttribution)]
  }

  function BudgetOf(v: Value, f: Value): Budget {
    Budget(
      AsU32(Num(v, 0)), AsU32(Num(v, 1)), AsU32(Num(v, 2)), AsU32(Num(v, 3)), AsU32(Num(v, 4)), AsU32(Num(v, 5)),
      AsU32(Num(v, 6)), Num(f, 0) != 0, Num(f, 1) != 0, Num(f, 2) != 0, Num(f, 3) != 0, Num(f, 4) != 0,
      Num(f, 5) != 0, Num(f, 6) != 0)
  }

  function BandNums(b: Bands): (r: seq<U32>)
    ensures |r| == 4
  {
    [b.low, b.moderate, b.high, b.critical]
  }

  function BandsOf(v: Value): Bands {
    Bands(AsU32(Num(v, 0)), AsU32(Num(v, 1)), AsU32(Num(v, 2)), AsU32(Num(v, 3)))
  }

  /** The issue time is written twice; the reader uses the second. */
  function PolicyPayload(p: Policy): Value {
    Both(Tuple([p.generation, Unsigned(p.issuedAt), p.id, Unsigned(p.issuedAt), p.ttl]),
         Both(Tuple(ThresholdNums(p.thresholds)),
              Both(Tuple(BudgetNums(p.budget)), Both(Tuple(BudgetFlags(p.budget)), Tuple(BandNums(p.bands))))))
  }

  function PolicyFrom(v: Value): Policy {
    var h, rest := Fst(v), Snd(Snd(v));
    Policy(AsU64(Num(h, 2)), AsU64(Num(h, 0)), Signed(AsU64(Num(h, 3))), AsU32(Num(h, 4)),
           ThresholdsOf(Fst(Snd(v))), BudgetOf(Fst(rest), Fst(Snd(rest))), BandsOf(Snd(Snd(rest))), 0)
  }

  function DecodePolicy(b: Bytes): Result<Policy> {
    var r := DecodePayload(PolicyStream, b);
    if r.Err? then Err(r.error) else Ok(PolicyFrom(r.value))
  }

  /** A run of fields of one width. */
  lemma UniformFits(ws: seq<nat>, ns: seq<nat>, w: nat, bound: nat)
    requires |ns| == |ws| && bound <= Pow256(w)
    requires forall i :: 0 <= i < |ws| ==> ws[i] == w
    requires forall i :: 0 <= i < |ns| ==> ns[i] < bound
    ensures Fits(Nums(ws), Tuple(ns))
  {
  }

  lemma PolicyFits(p: Policy)
    ensures Fits(LayoutOf(PolicyStream), PolicyPayload(p))
  {
    hide Fits, Pow256, ThresholdNums, BudgetNums, BudgetFlags, BandNums;
    Pow256Values();
    var v, l := PolicyPayload(p), LayoutOf(PolicyStream);
    NumsFit([8, 8, 8, 8, 4], v.fst.ns);
    UniformFits(l.second.first.widths, ThresholdNums(p.thresholds), 4, 0x1_0000_0000);
    UniformFits(l.second.second.first.widths, BudgetNums(p.budget), 4, 0x1_0000_0000);
    UniformFits(l.second.second.second.first.widths, BudgetFlags(p.budget), 1, 0x100);
    UniformFits(l.second.second.second.second.widths, BandNums(p.bands), 4, 0x1_0000_0000);
    PairFits(l.second.second.second.first, l.second.second.second.second, v.snd.snd.snd.fst, v.snd.snd.snd.snd);
    PairFits(l.second.second.first, l.second.second.second, v.snd.snd.fst, v.snd.snd.snd);
    PairFits(l.second.first, l.second.second, v.snd.fst, v.snd.snd);
    PairFits(l.first, l.second, v.fst, v.snd);
  }

  lemma ThresholdsInverse(t: Thresholds)
    ensures ThresholdsOf(Tuple(ThresholdNums(t))) == t
  {
  }

  lemma BudgetInverse(b: Budget)
    ensures BudgetOf(Tuple(BudgetNums(b)), Tuple(BudgetFlags(b))) == b
  {
  }

  lemma BandsInverse(b: Bands)
    ensures BandsOf(Tuple(BandNums(b))) == b
  {
  }

  /** Every policy decodes to itself. */
  lemma PolicyRoundTrip(p: Policy)
    ensures Fits(LayoutOf(PolicyStream), PolicyPayload(p))
    ensures DecodePolicy(EncodePayload(PolicyStream, PolicyPayload(p))) == Ok(p.(publisher := 0))
  {
    hide EncodePayload, DecodePayload, Fits, LayoutOf, ThresholdNums, ThresholdsOf, BudgetNums, BudgetFlags;
    hide BudgetOf, BandNums, BandsOf;
    PolicyFits(p);
    PayloadRoundTrip(PolicyStream, PolicyPayload(p));
    ThresholdsInverse(p.thresholds);
    BudgetInverse(p.budget);
    BandsInverse(p.bands);
  }
}
