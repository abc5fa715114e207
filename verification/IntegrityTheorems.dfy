/** What readers accept (src/frame.cpp, src/journal.cpp, src/store.cpp): exactly
    the bytes a writer with the same checksum produces, so that every check on the
    way in matters. */
module IntegrityTheorems {
  import opened Base
  import opened Codec
  import opened Framing
  import opened JournalLog
  import opened DurableSnapshot

  // ----- fixed-width fields --------------------------------------------------------------

  /** Fields that fill the bytes exactly are the encoding of what they read as. */
  lemma FieldsCanonical(ws: seq<nat>, b: Bytes)
    requires DecodeNums(ws, b).Ok? && |b| == WidthSum(ws)
    ensures var ns := DecodeNums(ws, b).value.value;
            FitsNums(ws, ns) && |ns| == |ws| && b == EncodeNums(ws, ns)
  {
    hide DecodeNums, EncodeNums;
    NumsCanonical(ws, b);
    var p := DecodeNums(ws, b).value;
    NumsLength(ws, p.value);
    assert p.rest == [];
  }

  lemma WordCanonical(b: Bytes, v: U64)
    requires |b| == 8 && DecodeLe(b) == v
    ensures b == EncodeLe(v, 8)
  {
    EncodeDecodeLe(b);
  }

  lemma WordBelow(b: Bytes)
    requires |b| == 8
    ensures AsU64(DecodeLe(b)) == DecodeLe(b)
  {
    hide EncodeLe;
    Pow256Values();
    DecodeLeBelow(b);
  }

  lemma {:induction false} DecodeLeBelow(b: Bytes)
    ensures DecodeLe(b) < Pow256(|b|)
  {
    if |b| == 0 {
    } else {
      DecodeLeBelow(b[1..]);
    }
  }

  /** Where a field starts. */
  function Offset(ws: seq<nat>, k: nat): nat
    requires k <= |ws|
  {
    if k == 0 then 0 else Offset(ws, k - 1) + ws[k - 1]
  }

  lemma {:induction false} OffsetCons(ws: seq<nat>, k: nat)
    requires 0 < k <= |ws|
    ensures Offset(ws, k) == ws[0] + Offset(ws[1..], k - 1)
  {
    if k == 1 {
      assert Offset(ws, 0) == 0 && Offset(ws[1..], 0) == 0;
    } else {
      OffsetCons(ws, k - 1);
    }
  }

  /** Every field stands at its offset, least significant byte first. */
  lemma {:induction false} FieldAt(ws: seq<nat>, ns: seq<nat>, k: nat)
    requires |ns| == |ws| && k < |ws|
    ensures Offset(ws, k) + ws[k] <= |EncodeNums(ws, ns)|
    ensures EncodeNums(ws, ns)[Offset(ws, k)..Offset(ws, k) + ws[k]] == EncodeLe(ns[k], ws[k])
  {
    hide EncodeLe, Offset;
    var head, tail := EncodeLe(ns[0], ws[0]), EncodeNums(ws[1..], ns[1..]);
    assert EncodeNums(ws, ns) == head + tail;
    if k == 0 {
      NoOffset(ws);
    } else {
      FieldAt(ws[1..], ns[1..], k - 1);
      OffsetCons(ws, k);
      var at := Offset(ws[1..], k - 1);
      assert (head + tail)[ws[0] + at..ws[0] + at + ws[k]] == tail[at..at + ws[k]];
    }
  }

  lemma NoOffset(ws: seq<nat>)
    ensures Offset(ws, 0) == 0
  {
  }

  // ----- frames -----------------------------------------------------------------------------------

  lemma FieldsOfHeader(ns: seq<nat>, headerCrc: U64)
    requires FitsNums(HEADER_WIDTHS, ns) && ns[0] == FRAME_MAGIC
    ensures HeaderFields(HeaderOf(ns, headerCrc)) == ns
  {
    Pow256Values();
  }

  lemma HeaderOffsets()
    ensures forall k :: 0 <= k < 13 ==>
              Offset(HEADER_WIDTHS, k) == [0, 4, 6, 8, 12, 16, 24, 32, 40, 48, 56, 64, 72][k]
  {
    forall k | 0 <= k < 13 ensures Offset(HEADER_WIDTHS, k) == [0, 4, 6, 8, 12, 16, 24, 32, 40, 48, 56, 64, 72][k] {
      HeaderOffset(k);
    }
  }

  lemma {:induction false} HeaderOffset(k: nat)
    requires k < 13
    ensures Offset(HEADER_WIDTHS, k) == [0, 4, 6, 8, 12, 16, 24, 32, 40, 48, 56, 64, 72][k]
  {
    if k > 0 {
      HeaderOffset(k - 1);
    }
  }

  /** The wire format of a header: every field at its place. */
  lemma HeaderFormat(h: FrameHeader, crc: Checksum)
    ensures |EncodeHeader(h, crc)| == 88
    ensures var b := EncodeHeader(h, crc);
            && b[0..4] == EncodeLe(0x464D4748, 4) && b[4..6] == EncodeLe(h.version, 2)
            && b[6..8] == EncodeLe(h.kind, 2) && b[8..12] == EncodeLe(h.flags, 4)
            && b[12..16] == EncodeLe(h.payloadLength, 4) && b[16..24] == EncodeLe(h.epoch, 8)
            && b[24..32] == EncodeLe(h.publisher, 8) && b[32..40] == EncodeLe(h.incarnation, 8)
            && b[40..48] == EncodeLe(h.boot, 8) && b[48..56] == EncodeLe(h.sequence, 8)
            && b[56..64] == EncodeLe(h.generation, 8) && b[64..72] == EncodeLe(Unsigned(h.emittedAt), 8)
            && b[72..80] == EncodeLe(h.payloadCrc, 8) && b[80..88] == EncodeLe(crc(b[..80]), 8)
  {
    hide EncodeLe, EncodeNums, Offset;
    EncodedLength88(h, crc);
    HeaderLength(h);
    HeaderOffsets();
    var b, prefix := EncodeHeader(h, crc), HeaderPrefix(h);
    assert b[..80] == prefix;
    forall k | 0 <= k < 13
      ensures var at := Offset(HEADER_WIDTHS, k);
              && at + HEADER_WIDTHS[k] <= 80
              && b[at..at + HEADER_WIDTHS[k]] == EncodeLe(HeaderFields(h)[k], HEADER_WIDTHS[k])
    {
      FieldAt(HEADER_WIDTHS, HeaderFields(h), k);
      var at := Offset(HEADER_WIDTHS, k);
      assert b[at..at + HEADER_WIDTHS[k]] == prefix[at..at + HEADER_WIDTHS[k]];
    }
    assert Offset(HEADER_WIDTHS, 0) == 0 && Offset(HEADER_WIDTHS, 1) == 4 && Offset(HEADER_WIDTHS, 2) == 6;
    assert Offset(HEADER_WIDTHS, 3) == 8 && Offset(HEADER_WIDTHS, 4) == 12 && Offset(HEADER_WIDTHS, 5) == 16;
    assert Offset(HEADER_WIDTHS, 6) == 24 && Offset(HEADER_WIDTHS, 7) == 32 && Offset(HEADER_WIDTHS, 8) == 40;
    assert Offset(HEADER_WIDTHS, 9) == 48 && Offset(HEADER_WIDTHS, 10) == 56 && Offset(HEADER_WIDTHS, 11) == 64;
    assert Offset(HEADER_WIDTHS, 12) == 72;
  }

  /** A header is accepted exactly when the bytes are the encoding of a header of
      this version and of a bounded payload, its own checksum included. */
  lemma HeaderAcceptedExactly(b: Bytes, h: FrameHeader, crc: Checksum)
    ensures DecodeHeader(b, crc) == Ok(h) <==>
            && |b| >= HEADER_BYTES && b[..HEADER_BYTES] == EncodeHeader(h, crc)
            && h.version == PROTOCOL_VERSION && h.payloadLength <= MAX_FRAME_BYTES
            && h.headerCrc == crc(HeaderPrefix(h))
  {
    hide HeaderPrefix, EncodeHeader, DecodeHeader;
    if DecodeHeader(b, crc) == Ok(h) {
      AcceptedHeader(b, h, crc);
    }
    if |b| >= HEADER_BYTES && b[..HEADER_BYTES] == EncodeHeader(h, crc) && h.version == PROTOCOL_VERSION
        && h.payloadLength <= MAX_FRAME_BYTES && h.headerCrc == crc(HeaderPrefix(h)) {
      assert b == EncodeHeader(h, crc) + b[HEADER_BYTES..];
      HeaderRoundTrip(h, b[HEADER_BYTES..], crc);
    }
  }

  lemma AcceptedHeader(b: Bytes, h: FrameHeader, crc: Checksum)
    requires DecodeHeader(b, crc) == Ok(h)
    ensures |b| >= HEADER_BYTES && b[..HEADER_BYTES] == EncodeHeader(h, crc)
    ensures h.version == PROTOCOL_VERSION && h.payloadLength <= MAX_FRAME_BYTES && h.headerCrc == crc(HeaderPrefix(h))
  {
    hide DecodeNums, EncodeNums, DecodeLe, EncodeLe, FitsNums, WidthSum, Pow256;
    WidthsTotal();
    FieldsCanonical(HEADER_WIDTHS, b[..80]);
    var ns := DecodeNums(HEADER_WIDTHS, b[..80]).value.value;
    FieldsOfHeader(ns, h.headerCrc);
    WordBelow(b[80..88]);
    WordCanonical(b[80..88], h.headerCrc);
    HeaderNumbers(ns, h.headerCrc);
    assert b[..88] == b[..80] + b[80..88];
  }

  lemma HeaderNumbers(ns: seq<nat>, headerCrc: U64)
    requires FitsNums(HEADER_WIDTHS, ns)
    ensures HeaderOf(ns, headerCrc).version == ns[1] && HeaderOf(ns, headerCrc).payloadLength == ns[4]
  {
    Pow256Values();
  }

  /** A receiver accepts exactly the frames a sender makes: header and payload pass
      if and only if the bytes are an encoded frame. */
  lemma FrameAcceptedExactly(b: Bytes, h: FrameHeader, crc: Checksum)
    requires |b| >= HEADER_BYTES
    ensures DecodeHeader(b, crc) == Ok(h) && VerifyPayload(h, b[HEADER_BYTES..], crc).None? <==>
            && EncodeFrame(Frame(h, b[HEADER_BYTES..]), crc) == Ok(b)
            && h.version == PROTOCOL_VERSION && h.headerCrc == crc(HeaderPrefix(h))
            && h.payloadLength == |b| - HEADER_BYTES && h.payloadCrc == crc(b[HEADER_BYTES..])
  {
    hide DecodeHeader, HeaderPrefix, EncodeHeader;
    HeaderAcceptedExactly(b, h, crc);
    var payload := b[HEADER_BYTES..];
    assert b == b[..HEADER_BYTES] + payload;
    EncodedLength88(h, crc);
    if h.payloadLength == |payload| && h.payloadCrc == crc(payload) && h.version == PROTOCOL_VERSION {
      assert h.(payloadLength := |payload|, payloadCrc := crc(payload), version := h.version) == h;
      assert (EncodeHeader(h, crc) + payload)[..HEADER_BYTES] == EncodeHeader(h, crc);
    }
  }

  lemma EncodedLength88(h: FrameHeader, crc: Checksum)
    ensures |EncodeHeader(h, crc)| == HEADER_BYTES
  {
    hide EncodeNums, EncodeLe;
    HeaderLength(h);
  }

  // ----- journal ----------------------------------------------------------------------------------

  lemma RecordFields(ns: seq<nat>, payload: Bytes, crc: Checksum)
    requires FitsNums(PREFIX_WIDTHS, ns) && ns[0] == JOURNAL_MAGIC && ns[1] == FORMAT_VERSION
    requires ns[3] == |payload| && ns[6] == crc(payload)
    ensures PrefixFields(Record(AsU32(ns[2]), AsU64(ns[4]), Signed(AsU64(ns[5])), payload), crc) == ns
  {
    Pow256Values();
  }

  lemma PrefixWidths()
    ensures WidthSum(PREFIX_WIDTHS) == 40
  {
    hide WidthSum;
    TotalFour(4, 4, 4, 4);
    TotalTwo(8, 8);
    TotalOne(8);
    TotalConcat([8, 8], [8]);
    TotalConcat([4, 4, 4, 4], [8, 8] + [8]);
    assert PREFIX_WIDTHS == [4, 4, 4, 4] + ([8, 8] + [8]);
  }

  lemma {:induction false} PrefixOffset(k: nat)
    requires k < 7
    ensures Offset(PREFIX_WIDTHS, k) == [0, 4, 8, 12, 16, 24, 32][k]
  {
    if k > 0 {
      PrefixOffset(k - 1);
    }
  }

  /** The format of a journal record: every field at its place. */
  lemma RecordFormat(r: Record, crc: Checksum)
    ensures |EncodeRecord(r, crc)| == 48 + |r.payload|
    ensures var b := EncodeRecord(r, crc);
            && b[0..4] == EncodeLe(0x314A4748, 4) && b[4..8] == EncodeLe(1, 4) && b[8..12] == EncodeLe(r.kind, 4)
            && b[12..16] == EncodeLe(|r.payload|, 4) && b[16..24] == EncodeLe(r.sequence, 8)
            && b[24..32] == EncodeLe(Unsigned(r.at), 8) && b[32..40] == EncodeLe(crc(r.payload), 8)
            && b[40..48] == EncodeLe(crc(b[..40]), 8) && b[48..] == r.payload
  {
    hide EncodeLe, EncodeNums, Offset;
    PrefixLength(r, crc);
    var b, prefix := EncodeRecord(r, crc), RecordPrefix(r, crc);
    assert b[..40] == prefix;
    forall k | 0 <= k < 7
      ensures var at := [0, 4, 8, 12, 16, 24, 32][k];
              && at + PREFIX_WIDTHS[k] <= 40
              && b[at..at + PREFIX_WIDTHS[k]] == EncodeLe(PrefixFields(r, crc)[k], PREFIX_WIDTHS[k])
    {
      PrefixOffset(k);
      FieldAt(PREFIX_WIDTHS, PrefixFields(r, crc), k);
      var at := Offset(PREFIX_WIDTHS, k);
      assert b[at..at + PREFIX_WIDTHS[k]] == prefix[at..at + PREFIX_WIDTHS[k]];
    }
    var places := [0, 4, 8, 12, 16, 24, 32];
    assert places[0] == 0 && places[1] == 4 && places[2] == 8 && places[3] == 12 && places[4] == 16;
    assert places[5] == 24 && places[6] == 32;
  }

  lemma AcceptedRecord(b: Bytes, crc: Checksum)
    requires DecodeRecord(b, crc).Some?
    ensures var r, n := DecodeRecord(b, crc).value.record, DecodeRecord(b, crc).value.consumed;
            Bounded(r) && n == |EncodeRecord(r, crc)| && b[..n] == EncodeRecord(r, crc)
  {
    hide DecodeNums, EncodeNums, DecodeLe, EncodeLe, FitsNums, WidthSum, Pow256;
    PrefixWidths();
    FieldsCanonical(PREFIX_WIDTHS, b[..40]);
    var ns := DecodeNums(PREFIX_WIDTHS, b[..40]).value.value;
    var r, n := DecodeRecord(b, crc).value.record, DecodeRecord(b, crc).value.consumed;
    RecordFields(ns, r.payload, crc);
    PrefixLength(r, crc);
    WordCanonical(b[40..48], crc(b[..40]));
    assert b[..n] == b[..40] + b[40..48] + b[48..n];
  }

  /** A record is read exactly when the bytes begin with the encoding of a record
      that append accepts. */
  lemma RecordAcceptedExactly(b: Bytes, r: Record, n: nat, crc: Checksum)
    ensures DecodeRecord(b, crc) == Some(Read(r, n)) <==>
            Bounded(r) && n == |EncodeRecord(r, crc)| <= |b| && b[..n] == EncodeRecord(r, crc)
  {
    hide DecodeRecord, EncodeRecord;
    if DecodeRecord(b, crc).Some? {
      AcceptedRecord(b, crc);
    }
    if Bounded(r) && n == |EncodeRecord(r, crc)| <= |b| && b[..n] == EncodeRecord(r, crc) {
      assert b == EncodeRecord(r, crc) + b[n..];
      RecordRoundTrip(r, b[n..], crc);
    }
  }

  /** For any bytes at all, what the scan keeps is exactly the encoding of the
      records it returns, and no record follows. */
  lemma {:induction false} ScanExactly(b: Bytes, crc: Checksum)
    ensures var rs, n := Scan(b, crc), ScanLength(b, crc);
            && b[..n] == EncodeAll(rs, crc) && (forall k :: 0 <= k < |rs| ==> Bounded(rs[k]))
            && DecodeRecord(b[n..], crc).None?
    decreases |b|
  {
    hide DecodeRecord, EncodeRecord;
    var r := DecodeRecord(b, crc);
    if r.None? {
      assert b[0..] == b;
    } else {
      AcceptedRecord(b, crc);
      var c := r.value.consumed;
      ScanExactly(b[c..], crc);
      var rest, n := b[c..], ScanLength(b, crc);
      var rs := Scan(b, crc);
      assert rs[1..] == Scan(rest, crc);
      assert b[..n] == b[..c] + rest[..n - c] && b[n..] == rest[n - c..];
    }
  }

  // ----- snapshot -----------------------------------------------------------------------------------

  /** What a snapshot file must hold besides its body. The reserved word is free. */
  predicate Framed(b: Bytes, reserved: nat, crc: Checksum)
    requires |b| >= SNAPSHOT_HEADER_BYTES
  {
    && b[..24] == EncodeNums(SNAPSHOT_WIDTHS, [SNAPSHOT_MAGIC, FORMAT_VERSION, |b| - 32, reserved, crc(b[32..])])
    && b[24..32] == EncodeLe(crc(b[..24]), 8)
  }

  lemma SnapshotWidths()
    ensures WidthSum(SNAPSHOT_WIDTHS) == 24
  {
    hide WidthSum;
    TotalFour(4, 4, 4, 4);
    TotalOne(8);
    TotalConcat([4, 4, 4, 4], [8]);
    assert SNAPSHOT_WIDTHS == [4, 4, 4, 4] + [8];
  }

  /** A snapshot is read only if the file is within its bound, both checksums and
      the length are right and the body decodes: damage anywhere but in the reserved
      word shows in a checksum. */
  lemma SnapshotAccepted(b: Bytes, maxBytes: U64, crc: Checksum)
    requires ReadSnapshot(b, maxBytes, crc).Ok?
    ensures 32 <= |b| <= maxBytes && exists reserved: nat :: Framed(b, reserved, crc)
    ensures ReadSnapshot(b, maxBytes, crc) == DecodeState(b[32..])
  {
    hide DecodeNums, EncodeNums, DecodeLe, EncodeLe, FitsNums, WidthSum, DecodeState;
    SnapshotWidths();
    FieldsCanonical(SNAPSHOT_WIDTHS, b[..24]);
    var ns := DecodeNums(SNAPSHOT_WIDTHS, b[..24]).value.value;
    WordCanonical(b[24..32], crc(b[..24]));
    assert ns == [SNAPSHOT_MAGIC, FORMAT_VERSION, |b| - 32, ns[3], crc(b[32..])];
    assert Framed(b, ns[3], crc);
  }
}
