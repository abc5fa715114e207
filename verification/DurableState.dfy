/** The durable state and its snapshot file (src/store.cpp): codec, framing,
    read-back and the epoch recovered from snapshot and journal. */
module DurableSnapshot {
  import opened Base
  import opened Codec
  import opened Framing
  import opened JournalLog

  const MAX_DURABLE_HOTSPOTS: U32 := 4096
  const MAX_DURABLE_INTERVENTIONS: U32 := 16384
  const MAX_KEY_BYTES: U32 := 512
  const SNAPSHOT_MAGIC: U32 := 0x31534748
  const SNAPSHOT_HEADER_BYTES: nat := 32
  const EPOCH_ADVANCE: U32 := 2

  datatype DurableHotspot = DurableHotspot(
    id: U64, key: Bytes, scope: U8, severity: U8, cause: U8, persistence: I64, lastObserved: I64, resources: U64)

  datatype DurableIntervention = DurableIntervention(id: U64, kind: U8, hotspot: U64, at: I64, share: U32,
      escalation: bool)

  datatype DurableState = DurableState(
    formatVersion: U32, boot: U64, epoch: U64, evaluations: U64, journalSequence: U64, writtenAt: I64,
    hotspots: seq<DurableHotspot>, interventions: seq<DurableIntervention>)

  /** What commit demands before it writes anything. */
  predicate Validated(s: DurableState) {
    && |s.hotspots| <= MAX_DURABLE_HOTSPOTS && |s.interventions| <= MAX_DURABLE_INTERVENTIONS
    && forall i :: 0 <= i < |s.hotspots| ==> |s.hotspots[i].key| <= MAX_KEY_BYTES
  }

  // ----- body ----------------------------------------------------------------------

  const HOTSPOT_LAYOUT := Pair(Nums([8]), Pair(Text(MAX_KEY_BYTES), Nums([1, 1, 1, 8, 8, 8])))
  const INTERVENTION_LAYOUT := Nums([8, 1, 8, 8, 4, 1])
  const STATE_LAYOUT :=
    Pair(Nums([4, 8, 8, 8, 8, 8]),
         Pair(List(MAX_DURABLE_HOTSPOTS, HOTSPOT_LAYOUT), List(MAX_DURABLE_INTERVENTIONS, INTERVENTION_LAYOUT)))

  function HotspotValue(h: DurableHotspot): Value {
    Both(Tuple([h.id]),
         Both(Str(h.key), Tuple([h.scope, h.severity, h.cause, Unsigned(h.persistence), Unsigned(h.lastObserved),
             h.resources])))
  }

  function HotspotOf(v: Value): DurableHotspot {
    var t := Snd(Snd(v));
    DurableHotspot(AsU64(Num(Fst(v), 0)), TextOf(Fst(Snd(v))), AsU8(Num(t, 0)), AsU8(Num(t, 1)), AsU8(Num(t, 2)),
                   Signed(AsU64(Num(t, 3))), Signed(AsU64(Num(t, 4))), AsU64(Num(t, 5)))
  }

  function InterventionValue(i: DurableIntervention): Value {
    Tuple([i.id, i.kind, i.hotspot, Unsigned(i.at), i.share, Flag(i.escalation)])
  }

  function InterventionOf(v: Value): DurableIntervention {
    DurableIntervention(AsU64(Num(v, 0)), AsU8(Num(v, 1)), AsU64(Num(v, 2)), Signed(AsU64(Num(v, 3))),
                        AsU32(Num(v, 4)), Num(v, 5) != 0)
  }

  function StateValue(s: DurableState): Value {
    Both(Tuple([s.formatVersion, s.boot, s.epoch, s.evaluations, s.journalSequence, Unsigned(s.writtenAt)]),
         Both(Items(Map(HotspotValue, s.hotspots)), Items(Map(InterventionValue, s.interventions))))
  }

  function StateOf(v: Value): DurableState {
    var h := Fst(v);
    DurableState(AsU32(Num(h, 0)), AsU64(Num(h, 1)), AsU64(Num(h, 2)), AsU64(Num(h, 3)), AsU64(Num(h, 4)),
                 Signed(AsU64(Num(h, 5))), Map(HotspotOf, ItemsOf(Fst(Snd(v)))),
                     Map(InterventionOf, ItemsOf(Snd(Snd(v)))))
  }

  lemma HotspotFits(h: DurableHotspot)
    requires |h.key| <= MAX_KEY_BYTES
    ensures Fits(HOTSPOT_LAYOUT, HotspotValue(h)) && HotspotOf(HotspotValue(h)) == h
  {
    hide Pow256, Fits;
    Pow256Values();
    var v := HotspotValue(h);
    NumsFit([8], v.fst.ns);
    TextFits(MAX_KEY_BYTES, h.key);
    NumsFit([1, 1, 1, 8, 8, 8], v.snd.snd.ns);
    PairFits(Text(MAX_KEY_BYTES), Nums([1, 1, 1, 8, 8, 8]), v.snd.fst, v.snd.snd);
    PairFits(Nums([8]), HOTSPOT_LAYOUT.second, v.fst, v.snd);
  }

  lemma InterventionFits(i: DurableIntervention)
    ensures Fits(INTERVENTION_LAYOUT, InterventionValue(i)) && InterventionOf(InterventionValue(i)) == i
  {
    hide Pow256;
    Pow256Values();
  }

  lemma HotspotsFit(hs: seq<DurableHotspot>)
    requires |hs| <= MAX_DURABLE_HOTSPOTS && forall i :: 0 <= i < |hs| ==> |hs[i].key| <= MAX_KEY_BYTES
    ensures Fits(List(MAX_DURABLE_HOTSPOTS, HOTSPOT_LAYOUT), Items(Map(HotspotValue, hs)))
    ensures Map(HotspotOf, Map(HotspotValue, hs)) == hs
  {
    hide Fits, HotspotOf, HotspotValue;
    forall i | 0 <= i < |hs| ensures Fits(HOTSPOT_LAYOUT, HotspotValue(hs[i]))
        && HotspotOf(HotspotValue(hs[i])) == hs[i] {
      HotspotFits(hs[i]);
    }
    RecordsFit(MAX_DURABLE_HOTSPOTS, HOTSPOT_LAYOUT, HotspotValue, HotspotOf, hs);
  }

  lemma InterventionsFit(ns: seq<DurableIntervention>)
    requires |ns| <= MAX_DURABLE_INTERVENTIONS
    ensures Fits(List(MAX_DURABLE_INTERVENTIONS, INTERVENTION_LAYOUT), Items(Map(InterventionValue, ns)))
    ensures Map(InterventionOf, Map(InterventionValue, ns)) == ns
  {
    hide Fits, InterventionOf, InterventionValue;
    forall i | 0 <= i < |ns|
      ensures Fits(INTERVENTION_LAYOUT, InterventionValue(ns[i])) && InterventionOf(InterventionValue(ns[i])) == ns[i]
    {
      InterventionFits(ns[i]);
    }
    RecordsFit(MAX_DURABLE_INTERVENTIONS, INTERVENTION_LAYOUT, InterventionValue, InterventionOf, ns);
  }

  lemma StateHeaderFits(s: DurableState)
    ensures Fits(STATE_LAYOUT.first, StateValue(s).fst)
  {
    hide Pow256;
    Pow256Values();
  }

  lemma StateFits(s: DurableState)
    requires Validated(s)
    ensures Fits(STATE_LAYOUT, StateValue(s)) && StateOf(StateValue(s)) == s
  {
    hide Pow256, Fits, Map, HotspotValue, InterventionValue, HotspotOf, InterventionOf;
    HotspotsFit(s.hotspots);
    InterventionsFit(s.interventions);
    var v := StateValue(s);
    StateHeaderFits(s);
    PairFits(STATE_LAYOUT.second.first, STATE_LAYOUT.second.second, v.snd.fst, v.snd.snd);
    PairFits(STATE_LAYOUT.first, STATE_LAYOUT.second, v.fst, v.snd);
  }

  function EncodeState(s: DurableState): Bytes
    requires Validated(s)
  {
    StateFits(s);
    Encode(STATE_LAYOUT, StateValue(s))
  }

  function DecodeState(b: Bytes): Result<DurableState> {
    var r := DecodeAll(STATE_LAYOUT, b);
    if r.Err? then Err(if r.error == TruncatedFrame then PersistenceTruncated else PersistenceCorrupt)
    else Ok(StateOf(r.value))
  }

  lemma StateRoundTrip(s: DurableState)
    requires Validated(s)
    ensures DecodeState(EncodeState(s)) == Ok(s)
  {
    hide Fits, Encode, DecodeAll, StateValue, StateOf;
    StateFits(s);
    DecodeAllRoundTrip(STATE_LAYOUT, StateValue(s));
  }

  // ----- snapshot file ---------------------------------------------------------------

  const SNAPSHOT_WIDTHS: seq<nat> := [4, 4, 4, 4, 8]

  function SnapshotPrefix(body: Bytes, crc: Checksum): Bytes {
    EncodeNums(SNAPSHOT_WIDTHS, [SNAPSHOT_MAGIC, FORMAT_VERSION, AsU32(|body|), 0, crc(body)])
  }

  function FrameBody(body: Bytes, crc: Checksum): Bytes {
    SnapshotPrefix(body, crc) + EncodeLe(crc(SnapshotPrefix(body, crc)), 8) + body
  }

  /** The file write_snapshot replaces the snapshot with. */
  function SnapshotFile(s: DurableState, crc: Checksum): Bytes
    requires Validated(s)
  {
    FrameBody(EncodeState(s), crc)
  }

  function ReadSnapshot(b: Bytes, maxBytes: U64, crc: Checksum): Result<DurableState> {
    if |b| > maxBytes then Err(DurableGrowthExceeded)
    else if |b| < SNAPSHOT_HEADER_BYTES then Err(PersistenceTruncated)
    else
      var fields := DecodeNums(SNAPSHOT_WIDTHS, b[..24]);
      if fields.Err? || |fields.value.value| != |SNAPSHOT_WIDTHS| then Err(PersistenceTruncated)
      else
        var ns := fields.value.value;
        if ns[0] != SNAPSHOT_MAGIC then Err(PersistenceCorrupt)
        else if ns[1] != FORMAT_VERSION then Err(PersistenceVersionUnsupported)
        else if DecodeLe(b[24..32]) != crc(b[..24]) then Err(PersistenceCorrupt)
        else if ns[2] != |b| - SNAPSHOT_HEADER_BYTES then Err(PersistenceTruncated)
        else if crc(b[32..]) != ns[4] then Err(PersistenceCorrupt)
        else DecodeState(b[32..])
  }

  lemma SnapshotPrefixLength(body: Bytes, crc: Checksum)
    ensures |SnapshotPrefix(body, crc)| == 24
    ensures |FrameBody(body, crc)| == SNAPSHOT_HEADER_BYTES + |body|
  {
    hide WidthSum, EncodeNums, EncodeLe;
    NumsLength(SNAPSHOT_WIDTHS, [SNAPSHOT_MAGIC, FORMAT_VERSION, AsU32(|body|), 0, crc(body)]);
    TotalFour(4, 4, 4, 4);
    TotalOne(8);
    TotalConcat([4, 4, 4, 4], [8]);
    assert SNAPSHOT_WIDTHS == [4, 4, 4, 4] + [8];
  }

  /** Framing bytes read back: every check passes and the body is returned. */
  lemma FrameReadsBack(body: Bytes, maxBytes: U64, crc: Checksum)
    requires |body| <= U32_MAX && SNAPSHOT_HEADER_BYTES + |body| <= maxBytes
    ensures ReadSnapshot(FrameBody(body, crc), maxBytes, crc) == DecodeState(body)
  {
    hide Pow256, EncodeNums, DecodeNums, EncodeLe, DecodeLe, DecodeState;
    var prefix, b := SnapshotPrefix(body, crc), FrameBody(body, crc);
    SnapshotPrefixLength(body, crc);
    assert b[..24] == prefix && b[24..32] == EncodeLe(crc(prefix), 8) && b[32..] == body;
    Pow256Values();
    var ns := [SNAPSHOT_MAGIC, FORMAT_VERSION, AsU32(|body|), 0, crc(body)];
    assert FitsNums(SNAPSHOT_WIDTHS, ns);
    NumsRoundTrip(SNAPSHOT_WIDTHS, ns, []);
    assert prefix + [] == prefix;
    DecodeEncodeLe(crc(prefix), 8);
  }

  // ----- how large a validated state can be ----------------------------------------------

  function MaxLength(s: Layout): nat {
    match s
    case Nums(ws) => WidthSum(ws)
    case Text(max) => 4 + max
    case List(max, item) => 4 + max * MaxLength(item)
    case Pair(a, b) => MaxLength(a) + MaxLength(b)
  }

  lemma {:induction false} EncodedLength(s: Layout, v: Value)
    requires Fits(s, v)
    ensures |Encode(s, v)| <= MaxLength(s)
    decreases s, 0
  {
    hide EncodeLe, Pow256;
    match s
    case Nums(ws) => NumsLength(ws, v.ns);
    case Text(_) =>
    case List(max, item) =>
      ItemsLength(item, v.items);
      MulAtMost(|v.items|, max, MaxLength(item));
    case Pair(a, b) =>
      EncodedLength(a, v.fst);
      EncodedLength(b, v.snd);
  }

  lemma {:induction false} ItemsLength(item: Layout, vs: seq<Value>)
    requires forall i :: 0 <= i < |vs| ==> Fits(item, vs[i])
    ensures |EncodeItems(item, vs)| <= |vs| * MaxLength(item)
    decreases item, 1, |vs|
  {
    hide Encode, Fits, MaxLength;
    if |vs| == 0 {
    } else {
      EncodedLength(item, vs[0]);
      ItemsLength(item, vs[1..]);
      assert |vs| * MaxLength(item) == MaxLength(item) + |vs[1..]| * MaxLength(item);
    }
  }

  lemma MulAtMost(n: nat, m: nat, k: nat)
    requires n <= m
    ensures n * k <= m * k
  {
  }

  const MAX_STATE_BYTES: nat := 2_748_468

  lemma StateLayoutLength()
    ensures MaxLength(STATE_LAYOUT) == MAX_STATE_BYTES
  {
    hide WidthSum;
    TotalOne(8);
    TotalTwo(4, 8);
    TotalFour(8, 8, 8, 8);
    TotalConcat([4, 8], [8, 8, 8, 8]);
    assert [4, 8] + [8, 8, 8, 8] == [4, 8, 8, 8, 8, 8];
    TotalTwo(1, 1);
    TotalFour(1, 8, 8, 8);
    TotalConcat([1, 1], [1, 8, 8, 8]);
    assert [1, 1] + [1, 8, 8, 8] == [1, 1, 1, 8, 8, 8];
    TotalTwo(8, 1);
    TotalFour(8, 8, 4, 1);
    TotalConcat([8, 1], [8, 8, 4, 1]);
    assert [8, 1] + [8, 8, 4, 1] == [8, 1, 8, 8, 4, 1];
    assert MaxLength(HOTSPOT_LAYOUT) == 8 + (4 + 512 + 27);
    assert MaxLength(INTERVENTION_LAYOUT) == 30;
    assert MaxLength(STATE_LAYOUT.second.first) == 4 + 4096 * 551;
    assert MaxLength(STATE_LAYOUT.second.second) == 4 + 16384 * 30;
    assert MaxLength(STATE_LAYOUT.second) == 8 + 4096 * 551 + 16384 * 30;
  }

  lemma StateBytesBounded(s: DurableState)
    requires Validated(s)
    ensures |EncodeState(s)| <= MAX_STATE_BYTES
  {
    hide Fits, Encode, StateValue, MaxLength;
    StateFits(s);
    EncodedLength(STATE_LAYOUT, StateValue(s));
    StateLayoutLength();
  }

  /** A committed snapshot reads back as exactly the committed state, if and
      only if header and body together fit the configured bound. The writer
      checks the body alone, so a body within 32 bytes of the bound is written
      and then refused on every recovery; the default bound leaves room for
      every validated state. */
  lemma SnapshotReadBack(s: DurableState, maxBytes: U64, crc: Checksum)
    requires Validated(s)
    ensures ReadSnapshot(SnapshotFile(s, crc), maxBytes, crc) == Ok(s) <==> |EncodeState(s)| + 32 <= maxBytes
    ensures |EncodeState(s)| + 32 > maxBytes ==>
        ReadSnapshot(SnapshotFile(s, crc), maxBytes, crc) == Err(DurableGrowthExceeded)
    ensures maxBytes >= MAX_STATE_BYTES + 32 ==> ReadSnapshot(SnapshotFile(s, crc), maxBytes, crc) == Ok(s)
  {
    hide EncodeState, DecodeState, FrameBody, DecodeNums, DecodeLe;
    StateBytesBounded(s);
    StateRoundTrip(s);
    SnapshotPrefixLength(EncodeState(s), crc);
    if |EncodeState(s)| + 32 <= maxBytes {
      FrameReadsBack(EncodeState(s), maxBytes, crc);
    }
  }

  // ----- the recovered epoch ------------------------------------------------------------

  /** A journal record the snapshot does not already cover. */
  predicate Applies(s: DurableState, r: Record) { r.sequence > s.journalSequence }

  function AdvanceOf(r: Record): U64 {
    if r.kind == EPOCH_ADVANCE && |r.payload| >= 8 then AsU64(DecodeLe(r.payload[..8])) else 0
  }

  /** The highest epoch of the snapshot and of the applied advance records. */
  function RecoveredEpoch(s: DurableState, rs: seq<Record>): U64 {
    if |rs| == 0 then s.epoch
    else
      var last := rs[|rs| - 1];
      var before := RecoveredEpoch(s, rs[..|rs| - 1]);
      if Applies(s, last) then Max(before, AdvanceOf(last)) else before
  }

  function RecoveredSequence(s: DurableState, rs: seq<Record>): U64 {
    if |rs| == 0 then s.journalSequence else Max(RecoveredSequence(s, rs[..|rs| - 1]), rs[|rs| - 1].sequence)
  }

  lemma {:induction false} RecoveredEpochAtLeast(s: DurableState, rs: seq<Record>)
    ensures RecoveredEpoch(s, rs) >= s.epoch
  {
    hide AdvanceOf;
    if |rs| == 0 {
    } else {
      RecoveredEpochAtLeast(s, rs[..|rs| - 1]);
    }
  }

  /** The recovered epoch comes from the snapshot or from one applied record. */
  lemma {:induction false} RecoveredEpochSource(s: DurableState, rs: seq<Record>)
    ensures RecoveredEpoch(s, rs) == s.epoch
            || exists i :: 0 <= i < |rs| && Applies(s, rs[i]) && AdvanceOf(rs[i]) == RecoveredEpoch(s, rs)
  {
    hide AdvanceOf;
    if |rs| == 0 {
    } else {
      var init := rs[..|rs| - 1];
      RecoveredEpochSource(s, init);
      if RecoveredEpoch(s, init) != s.epoch {
        var i :| 0 <= i < |init| && Applies(s, init[i]) && AdvanceOf(init[i]) == RecoveredEpoch(s, init);
        assert rs[i] == init[i];
      }
    }
  }

  /** The replay loop of recover(). */
  method ReplayOnTop(s: DurableState, rs: seq<Record>) returns (lastEpoch: U64, highest: U64, applied: nat)
    ensures lastEpoch == RecoveredEpoch(s, rs)
    ensures highest == RecoveredSequence(s, rs)
    ensures applied <= |rs| && (applied == 0 <==> forall i :: 0 <= i < |rs| ==> !Applies(s, rs[i]))
  {
    hide AdvanceOf;
    lastEpoch, highest, applied := s.epoch, s.journalSequence, 0;
    for k := 0 to |rs|
      invariant lastEpoch == RecoveredEpoch(s, rs[..k])
      invariant highest == RecoveredSequence(s, rs[..k]) && highest >= s.journalSequence
      invariant applied <= k && (applied == 0 <==> forall i :: 0 <= i < k ==> !Applies(s, rs[i]))
    {
      assert rs[..k + 1][..k] == rs[..k];
      if rs[k].sequence > s.journalSequence {
        lastEpoch := Max(lastEpoch, AdvanceOf(rs[k]));
        highest := Max(highest, rs[k].sequence);
        applied := applied + 1;
      }
    }
    assert rs[..|rs|] == rs;
  }

  /** Some record the snapshot does not cover advances to this epoch or beyond. */
  ghost predicate AdvancesTo(s: DurableState, rs: seq<Record>, e: int) {
    exists i :: 0 <= i < |rs| && Applies(s, rs[i]) && AdvanceOf(rs[i]) >= e
  }

  lemma AdvancesToSnoc(s: DurableState, rs: seq<Record>, r: Record, e: int)
    ensures AdvancesTo(s, rs + [r], e) <==> AdvancesTo(s, rs, e) || (Applies(s, r) && AdvanceOf(r) >= e)
  {
    hide AdvanceOf;
    var all := rs + [r];
    assert all[|rs|] == r;
    if AdvancesTo(s, rs, e) {
      var i :| 0 <= i < |rs| && Applies(s, rs[i]) && AdvanceOf(rs[i]) >= e;
      assert all[i] == rs[i];
    }
  }

  /** Recovery reaches an epoch exactly when the snapshot has reached it or some
      record of the journal that the snapshot does not cover advances to it. */
  lemma {:induction false} RecoveredEpochExactly(s: DurableState, rs: seq<Record>, e: int)
    ensures RecoveredEpoch(s, rs) >= e <==> s.epoch >= e || AdvancesTo(s, rs, e)
  {
    hide AdvanceOf;
    if |rs| == 0 {
      assert !AdvancesTo(s, rs, e);
    } else {
      var init, last := rs[..|rs| - 1], rs[|rs| - 1];
      RecoveredEpochExactly(s, init, e);
      AdvancesToSnoc(s, init, last, e);
      assert rs == init + [last];
      hide AdvancesTo;
    }
  }

  /** Some record of the journal is numbered so high. */
  ghost predicate NumberedTo(rs: seq<Record>, n: int) { exists i :: 0 <= i < |rs| && rs[i].sequence >= n }

  /** The sequence recovered reaches a number exactly when the snapshot's does or
      some record of the journal has it or a higher one. */
  lemma {:induction false} RecoveredSequenceExactly(s: DurableState, rs: seq<Record>, n: int)
    ensures RecoveredSequence(s, rs) >= n <==> s.journalSequence >= n || NumberedTo(rs, n)
  {
    if |rs| == 0 {
      assert !NumberedTo(rs, n);
    } else {
      var init := rs[..|rs| - 1];
      RecoveredSequenceExactly(s, init, n);
      if NumberedTo(init, n) {
        var i :| 0 <= i < |init| && init[i].sequence >= n;
        assert rs[i] == init[i];
      }
      assert rs[|rs| - 1].sequence >= n ==> NumberedTo(rs, n);
      assert NumberedTo(rs, n) ==> NumberedTo(init, n) || rs[|rs| - 1].sequence >= n by {
        if NumberedTo(rs, n) {
          var i :| 0 <= i < |rs| && rs[i].sequence >= n;
          assert i < |init| ==> init[i] == rs[i];
        }
      }
    }
  }
}
