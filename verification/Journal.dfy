/** The write-ahead journal (src/journal.cpp): record codec, torn-tail scan,
    append, replay and reset. The checksum is any function of the bytes. */
module JournalLog {
  import opened Base
  import opened Codec
  import opened Framing

  const JOURNAL_MAGIC: U32 := 0x314A4748
  const FORMAT_VERSION: U32 := 1
  const RECORD_HEADER_BYTES: nat := 48
  const MAX_RECORD_BYTES: nat := 0x10_0000

  datatype Record = Record(kind: U32, sequence: U64, at: I64, payload: Bytes)

  const PREFIX_WIDTHS: seq<nat> := [4, 4, 4, 4, 8, 8, 8]

  function PrefixFields(r: Record, crc: Checksum): seq<nat> {
    [JOURNAL_MAGIC, FORMAT_VERSION, r.kind, |r.payload|, r.sequence, Unsigned(r.at), crc(r.payload)]
  }

  function RecordPrefix(r: Record, crc: Checksum): Bytes {
    EncodeNums(PREFIX_WIDTHS, PrefixFields(r, crc))
  }

  /** A record that append accepts. */
  predicate Bounded(r: Record) { |r.payload| <= MAX_RECORD_BYTES }

  function EncodeRecord(r: Record, crc: Checksum): Bytes {
    RecordPrefix(r, crc) + EncodeLe(crc(RecordPrefix(r, crc)), 8) + r.payload
  }

  datatype Read = Read(record: Record, consumed: nat)

  /** One record from the front of a buffer, or None when the buffer does not
      hold a complete, intact record. */
  function DecodeRecord(b: Bytes, crc: Checksum): (r: Option<Read>)
    ensures r.Some? ==> RECORD_HEADER_BYTES <= r.value.consumed <= |b|
  {
    if |b| < RECORD_HEADER_BYTES then None
    else
      var fields := DecodeNums(PREFIX_WIDTHS, b[..40]);
      if fields.Err? || |fields.value.value| != |PREFIX_WIDTHS| then None
      else
        var ns := fields.value.value;
        var total := RECORD_HEADER_BYTES + ns[3];
        if ns[0] != JOURNAL_MAGIC || ns[1] != FORMAT_VERSION || ns[3] > MAX_RECORD_BYTES || |b| < total then None
        else if DecodeLe(b[40..48]) != crc(b[..40]) then None
        else if crc(b[48..total]) != ns[6] then None
        else Some(Read(Record(AsU32(ns[2]), AsU64(ns[4]), Signed(AsU64(ns[5])), b[48..total]), total))
  }

  lemma PrefixLength(r: Record, crc: Checksum)
    ensures |RecordPrefix(r, crc)| == 40
    ensures |EncodeRecord(r, crc)| == RECORD_HEADER_BYTES + |r.payload|
  {
    hide WidthSum, EncodeNums, EncodeLe;
    NumsLength(PREFIX_WIDTHS, PrefixFields(r, crc));
    TotalFour(4, 4, 4, 4);
    TotalTwo(8, 8);
    TotalOne(8);
    TotalConcat([8, 8], [8]);
    TotalConcat([4, 4, 4, 4], [8, 8] + [8]);
    assert PREFIX_WIDTHS == [4, 4, 4, 4] + ([8, 8] + [8]);
  }

  /** The header of an encoded record reads back, whatever follows it. */
  lemma PrefixReadsBack(r: Record, b: Bytes, crc: Checksum)
    requires |r.payload| <= U32_MAX && |b| >= 40 && b[..40] == RecordPrefix(r, crc)
    ensures DecodeNums(PREFIX_WIDTHS, b[..40]) == Ok(Parsed(PrefixFields(r, crc), []))
  {
    hide Pow256, EncodeNums, DecodeNums;
    Pow256Values();
    assert FitsNums(PREFIX_WIDTHS, PrefixFields(r, crc));
    NumsRoundTrip(PREFIX_WIDTHS, PrefixFields(r, crc), []);
    assert RecordPrefix(r, crc) + [] == RecordPrefix(r, crc);
  }

  lemma RecordRoundTrip(r: Record, rest: Bytes, crc: Checksum)
    requires Bounded(r)
    ensures DecodeRecord(EncodeRecord(r, crc) + rest, crc) == Some(Read(r, |EncodeRecord(r, crc)|))
  {
    hide Pow256, EncodeNums, DecodeNums, EncodeLe, DecodeLe, RecordPrefix;
    var b := EncodeRecord(r, crc) + rest;
    var prefix := RecordPrefix(r, crc);
    PrefixLength(r, crc);
    assert b[..40] == prefix && b[40..48] == EncodeLe(crc(prefix), 8) && b[48..48 + |r.payload|] == r.payload;
    PrefixReadsBack(r, b, crc);
    Pow256Values();
    DecodeEncodeLe(crc(prefix), 8);
  }

  /** A torn record is never taken for a record, whatever the checksum. */
  lemma TornRecordRefused(r: Record, k: nat, crc: Checksum)
    requires |r.payload| <= U32_MAX && k < |EncodeRecord(r, crc)|
    ensures DecodeRecord(EncodeRecord(r, crc)[..k], crc).None?
  {
    hide Pow256, EncodeNums, DecodeNums, EncodeLe, DecodeLe, RecordPrefix;
    var b := EncodeRecord(r, crc)[..k];
    PrefixLength(r, crc);
    if k >= RECORD_HEADER_BYTES {
      assert b[..40] == RecordPrefix(r, crc);
      PrefixReadsBack(r, b, crc);
    }
  }

  // ----- scanning --------------------------------------------------------------------

  function EncodeAll(rs: seq<Record>, crc: Checksum): Bytes {
    if |rs| == 0 then [] else EncodeRecord(rs[0], crc) + EncodeAll(rs[1..], crc)
  }

  /** The records read from the front until the first damaged one. */
  function Scan(b: Bytes, crc: Checksum): (rs: seq<Record>)
    decreases |b|
  {
    var r := DecodeRecord(b, crc);
    if r.None? then [] else [r.value.record] + Scan(b[r.value.consumed..], crc)
  }

  /** How many bytes those records take. */
  function ScanLength(b: Bytes, crc: Checksum): (n: nat)
    ensures n <= |b|
    decreases |b|
  {
    var r := DecodeRecord(b, crc);
    if r.None? then 0 else r.value.consumed + ScanLength(b[r.value.consumed..], crc)
  }

  lemma {:induction false} ScanAll(rs: seq<Record>, tail: Bytes, crc: Checksum)
    requires forall i :: 0 <= i < |rs| ==> Bounded(rs[i])
    requires DecodeRecord(tail, crc).None?
    ensures Scan(EncodeAll(rs, crc) + tail, crc) == rs
    ensures ScanLength(EncodeAll(rs, crc) + tail, crc) == |EncodeAll(rs, crc)|
  {
    hide EncodeRecord, DecodeRecord;
    var b := EncodeAll(rs, crc) + tail;
    if |rs| == 0 {
      assert b == tail;
    } else {
      var rest := EncodeAll(rs[1..], crc) + tail;
      assert b == EncodeRecord(rs[0], crc) + rest;
      RecordRoundTrip(rs[0], rest, crc);
      assert b[|EncodeRecord(rs[0], crc)|..] == rest;
      ScanAll(rs[1..], tail, crc);
      assert [rs[0]] + rs[1..] == rs;
    }
  }

  /** Complete records followed by any strict prefix of another: the scan
      recovers exactly the complete ones, ends at their exact byte boundary,
      and scanning what is kept finds the same records and nothing to discard. */
  lemma TornTailExact(rs: seq<Record>, torn: Record, k: nat, crc: Checksum)
    requires forall i :: 0 <= i < |rs| ==> Bounded(rs[i])
    requires |torn.payload| <= U32_MAX && k < |EncodeRecord(torn, crc)|
    ensures var b := EncodeAll(rs, crc) + EncodeRecord(torn, crc)[..k];
            && Scan(b, crc) == rs
            && b[..ScanLength(b, crc)] == EncodeAll(rs, crc)
            && Scan(b[..ScanLength(b, crc)], crc) == rs
            && ScanLength(b[..ScanLength(b, crc)], crc) == |b[..ScanLength(b, crc)]|
  {
    hide EncodeRecord, DecodeRecord, EncodeAll, Scan, ScanLength;
    TornRecordRefused(torn, k, crc);
    ScanAll(rs, EncodeRecord(torn, crc)[..k], crc);
    NothingDecodes(crc);
    ScanAll(rs, [], crc);
    assert EncodeAll(rs, crc) + [] == EncodeAll(rs, crc);
  }

  lemma NothingDecodes(crc: Checksum)
    ensures DecodeRecord([], crc).None?
  {
  }

  function HighestSequence(rs: seq<Record>): U64 {
    if |rs| == 0 then 0 else Max(HighestSequence(rs[..|rs| - 1]), rs[|rs| - 1].sequence)
  }

  /** For any bytes at all, cutting at the scan boundary keeps the records. */
  lemma {:induction false} ScanCut(b: Bytes, crc: Checksum)
    ensures Scan(b[..ScanLength(b, crc)], crc) == Scan(b, crc)
    ensures ScanLength(b[..ScanLength(b, crc)], crc) == ScanLength(b, crc)
    decreases |b|
  {
    hide DecodeRecord;
    var n := ScanLength(b, crc);
    var r := DecodeRecord(b, crc);
    if r.None? {
      NothingDecodes(crc);
      assert b[..0] == [];
    } else {
      var c := r.value.consumed;
      ScanCut(b[c..], crc);
      DecodeCut(b, n, crc);
      assert b[..n][c..] == b[c..][..n - c];
    }
  }

  /** A record appended to intact records is read after them. */
  lemma {:induction false} ScanSnoc(b: Bytes, r: Record, crc: Checksum)
    requires ScanLength(b, crc) == |b| && Bounded(r)
    ensures Scan(b + EncodeRecord(r, crc), crc) == Scan(b, crc) + [r]
    ensures ScanLength(b + EncodeRecord(r, crc), crc) == |b| + |EncodeRecord(r, crc)|
    ensures HighestSequence(Scan(b, crc) + [r]) == Max(HighestSequence(Scan(b, crc)), r.sequence)
    decreases |b|
  {
    hide DecodeRecord, EncodeRecord, HighestSequence, Scan, ScanLength;
    HighestSnoc(Scan(b, crc), r);
    if |b| == 0 {
      ScanFirst(b, r, crc);
    } else {
      ScanStep(b, crc);
      var c := DecodeRecord(b, crc).value.consumed;
      ScanSnoc(b[c..], r, crc);
      ScanBehind(b, r, crc);
    }
  }

  lemma HighestSnoc(rs: seq<Record>, r: Record)
    ensures HighestSequence(rs + [r]) == Max(HighestSequence(rs), r.sequence)
  {
    assert (rs + [r])[..|rs|] == rs;
  }

  /** The first record of a file. */
  lemma ScanFirst(b: Bytes, r: Record, crc: Checksum)
    requires |b| == 0 && Bounded(r)
    ensures Scan(b, crc) == [] && Scan(b + EncodeRecord(r, crc), crc) == [r]
    ensures ScanLength(b + EncodeRecord(r, crc), crc) == |EncodeRecord(r, crc)|
  {
    hide EncodeRecord, DecodeRecord;
    var e := EncodeRecord(r, crc);
    assert b + e == e + [];
    RecordRoundTrip(r, [], crc);
    NothingDecodes(crc);
    assert (b + e)[|e|..] == [];
  }

  /** Reading goes on behind the first record. */
  lemma ScanStep(b: Bytes, crc: Checksum)
    requires |b| > 0 && ScanLength(b, crc) == |b|
    ensures DecodeRecord(b, crc).Some?
    ensures var c := DecodeRecord(b, crc).value.consumed;
            && ScanLength(b[c..], crc) == |b[c..]|
            && Scan(b, crc) == [DecodeRecord(b, crc).value.record] + Scan(b[c..], crc)
  {
    hide DecodeRecord;
  }

  /** What is appended does not change how the first record is read. */
  lemma ScanBehind(b: Bytes, r: Record, crc: Checksum)
    requires DecodeRecord(b, crc).Some?
    ensures var c, e := DecodeRecord(b, crc).value.consumed, EncodeRecord(r, crc);
            && Scan(b + e, crc) == [DecodeRecord(b, crc).value.record] + Scan(b[c..] + e, crc)
            && ScanLength(b + e, crc) == c + ScanLength(b[c..] + e, crc)
  {
    hide DecodeRecord, EncodeRecord;
    var c, e := DecodeRecord(b, crc).value.consumed, EncodeRecord(r, crc);
    DecodeExtended(b, e, crc);
    assert (b + e)[c..] == b[c..] + e;
  }

  /** More bytes behind an intact record do not change how it is read. */
  lemma DecodeExtended(b: Bytes, more: Bytes, crc: Checksum)
    requires DecodeRecord(b, crc).Some?
    ensures DecodeRecord(b + more, crc) == DecodeRecord(b, crc)
  {
    hide DecodeNums, DecodeLe;
    var total := DecodeRecord(b, crc).value.consumed;
    assert (b + more)[..40] == b[..40] && (b + more)[40..48] == b[40..48] && (b + more)[48..total] == b[48..total];
  }

  lemma DecodeCut(b: Bytes, n: nat, crc: Checksum)
    requires n <= |b| && DecodeRecord(b, crc).Some? && DecodeRecord(b, crc).value.consumed <= n
    ensures DecodeRecord(b[..n], crc) == DecodeRecord(b, crc)
  {
    hide DecodeNums, DecodeLe;
    var total := DecodeRecord(b, crc).value.consumed;
    assert b[..n][..40] == b[..40] && b[..n][40..48] == b[40..48] && b[..n][48..total] == b[48..total];
  }

  // ----- the journal object ----------------------------------------------------------

  /** What an append did to the file when the write failed: any part of the
      record may have reached it, even all of it. */
  datatype AppendIo = Wrote | Failed(reached: nat)

  class Journal {
    const maxBytes: U64
    const crc: Checksum
    /** The file as the process sees it; None before it exists. */
    var file: Option<Bytes>
    var bytes: nat
    var lastSequence: U64
    var open: bool
    var discarded: nat

    constructor (maxBytes: U64, crc: Checksum, file: Option<Bytes>)
      ensures this.maxBytes == maxBytes && this.crc == crc && this.file == file && !open
    {
      this.maxBytes, this.crc, this.file := maxBytes, crc, file;
      this.bytes, this.lastSequence, this.open, this.discarded := 0, 0, false, 0;
    }

    function Content(): Bytes
      reads this
    {
      if file.None? then [] else file.value
    }

    /** An open journal's file holds intact records only, as many bytes as
        the object believes, and no sequence above its counter. */
    ghost predicate Valid()
      reads this
    {
      open ==>
        && file.Some? && bytes == |Content()| == ScanLength(Content(), crc)
        && HighestSequence(Scan(Content(), crc)) <= lastSequence
    }

    /** Scans, cuts the torn tail off, and remembers the highest sequence. */
    method Open() returns (error: Option<ErrorCode>)
      requires !open
      modifies this
      ensures error.None? <==> |old(Content())| <= maxBytes
      ensures error.Some? ==> unchanged(this)
      ensures error.None? ==> open && Valid()
      ensures error.None? ==> Content() == old(Content())[..ScanLength(old(Content()), crc)]
      ensures error.None? ==> Scan(Content(), crc) == Scan(old(Content()), crc)
      ensures error.None? ==> lastSequence == HighestSequence(Scan(Content(), crc))
      ensures error.None? ==> discarded + |Content()| == |old(Content())|
    {
      hide Scan, ScanLength, DecodeRecord;
      var b := Content();
      if |b| > maxBytes {
        return Some(DurableGrowthExceeded);
      }
      var offset, last := ScanLoop(b, crc);
      file := Some(b[..offset]);
      discarded := |b| - offset;
      bytes, lastSequence, open := offset, last, true;
      ScanCut(b, crc);
      return None;
    }

    /** Appends one record with the next sequence number. A failed write may
        leave a torn record behind; nothing is counted then. */
    method Append(kind: U32, payload: Bytes, at: I64, io: AppendIo) returns (error: Option<ErrorCode>)
      requires open
      requires io.Failed? ==> io.reached <= RECORD_HEADER_BYTES + |payload|
      modifies this
      ensures open
      ensures var r := Record(kind, (old(lastSequence) + 1) % 0x1_0000_0000_0000_0000, at, payload);
              var e := EncodeRecord(r, crc);
              if |payload| > MAX_RECORD_BYTES then error == Some(BoundExceeded) && unchanged(this)
              else if old(bytes) + |e| > maxBytes then error == Some(DurableGrowthExceeded) && unchanged(this)
              else match io
                case Wrote =>
                  && error.None? && Content() == old(Content()) + e
                  && bytes == old(bytes) + |e| && lastSequence == r.sequence
                case Failed(n) =>
                  && error == Some(PersistenceIoError) && n <= |e| && Content() == old(Content()) + e[..n]
                  && bytes == old(bytes) && lastSequence == old(lastSequence)
      ensures old(Valid()) && error.None? && old(lastSequence) < U64_MAX ==>
        Valid() && Scan(Content(), crc) == old(Scan(Content(), crc)) + [Record(kind, lastSequence, at, payload)]
    {
      hide EncodeRecord, Scan, ScanLength, HighestSequence, DecodeRecord;
      if |payload| > MAX_RECORD_BYTES {
        return Some(BoundExceeded);
      }
      var record := Record(kind, (lastSequence + 1) % 0x1_0000_0000_0000_0000, at, payload);
      var encoded := EncodeRecord(record, crc);
      PrefixLength(record, crc);
      if bytes + |encoded| > maxBytes {
        return Some(DurableGrowthExceeded);
      }
      match io {
        case Failed(n) =>
          file := Some(Content() + encoded[..n]);
          return Some(PersistenceIoError);
        case Wrote =>
          if bytes == |Content()| == ScanLength(Content(), crc) {
            ScanSnoc(Content(), record, crc);
          }
          file := Some(Content() + encoded);
          bytes := bytes + |encoded|;
          lastSequence := record.sequence;
          return None;
      }
    }

    /** Drops all records; the sequence counter goes on in memory. A failure is
        reported before or after the file was emptied, and counts nothing. */
    method Reset(io: AppendIo) returns (error: Option<ErrorCode>)
      requires open
      modifies this
      ensures open && lastSequence == old(lastSequence)
      ensures io.Wrote? ==> error.None? && Content() == [] && bytes == 0 && Valid()
      ensures io.Failed? ==>
        && error == Some(PersistenceIoError) && bytes == old(bytes)
        && Content() == if io.reached == 0 then old(Content()) else []
    {
      if io.Failed? {
        if io.reached > 0 {
          file := Some([]);
        }
        return Some(PersistenceIoError);
      }
      file := Some([]);
      bytes := 0;
      NothingDecodes(crc);
      error := None;
    }

    /** Every intact record from the front, up to a limit. */
    method Replay(maxRecords: nat) returns (records: seq<Record>)
      ensures records == Scan(Content(), crc)[..Min(maxRecords, |Scan(Content(), crc)|)]
    {
      hide DecodeRecord;
      records := [];
      var b, offset := Content(), 0;
      while offset < |b| && |records| < maxRecords
        invariant offset <= |b|
        invariant |records| <= maxRecords
        invariant Scan(b, crc) == records + Scan(b[offset..], crc)
        decreases |b| - offset
      {
        var r := DecodeRecord(b[offset..], crc);
        if r.None? {
          break;
        }
        assert b[offset..][r.value.consumed..] == b[offset + r.value.consumed..];
        offset := offset + r.value.consumed;
        records := records + [r.value.record];
      }
      if offset >= |b| {
        assert b[offset..] == [];
        NothingDecodes(crc);
      }
    }
  }

  /** The loop of open(): total length and highest sequence of the intact
      records at the front. */
  method ScanLoop(b: Bytes, crc: Checksum) returns (offset: nat, last: U64)
    ensures offset == ScanLength(b, crc)
    ensures last == HighestSequence(Scan(b, crc))
  {
    hide DecodeRecord;
    offset, last := 0, 0;
    ghost var done: seq<Record> := [];
    while offset < |b|
      invariant offset <= |b|
      invariant ScanLength(b, crc) == offset + ScanLength(b[offset..], crc)
      invariant Scan(b, crc) == done + Scan(b[offset..], crc)
      invariant last == HighestSequence(done)
      decreases |b| - offset
    {
      var r := DecodeRecord(b[offset..], crc);
      if r.None? {
        assert done + [] == done;
        return;
      }
      assert b[offset..][r.value.consumed..] == b[offset + r.value.consumed..];
      offset := offset + r.value.consumed;
      last := Max(last, r.value.record.sequence);
      assert (done + [r.value.record])[..|done|] == done;
      done := done + [r.value.record];
    }
    assert b[offset..] == [];
    NothingDecodes(crc);
    assert done + [] == done;
  }
}
