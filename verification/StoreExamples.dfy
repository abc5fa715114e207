/** Runs of the store (src/store.cpp, src/journal.cpp) that lose something: each
    is a list of events and what it leads to. */
module StoreExamples {
  import opened Base
  import Codec
  import opened Framing
  import opened JournalLog
  import opened DurableSnapshot
  import opened StoreCrash
  import opened StoreGrowth
  import opened StoreAdvance

  // ----- whole commits ------------------------------------------------------------------

  function Proceeds(n: nat): seq<Event> { seq(n, _ => Proceed) }

  lemma ProceedOnce(c: Config, s: System, n: nat)
    ensures RunFrom(c, s, Proceeds(n + 1)) == ProceedCommit(c, RunFrom(c, s, Proceeds(n)))
  {
    hide ProceedCommit;
    assert Proceeds(n + 1) == Proceeds(n) + [Proceed];
    RunSnoc(c, s, Proceeds(n), Proceed);
  }

  lemma ProceedNone(c: Config, s: System)
    ensures RunFrom(c, s, Proceeds(0)) == s
  {
  }

  /** A commit whose records are journalled, ready to be completed. */
  ghost predicate Completable(c: Config, s: System) {
    && s.process.Some? && s.process.value.phase == Journalling([]) && |s.attempts| > 0
    && Validated(s.process.value.candidate) && |EncodeState(s.process.value.candidate)| <= c.maxBytes
  }

  /** What completing it leads to. */
  ghost function Completed(c: Config, s: System): System
    requires Completable(c, s)
  {
    var p := s.process.value;
    s.(snapshot := Some(SnapshotFile(p.candidate, c.crc)), temp := None, journal := File([], []),
       tempSynced := false, snapshotSynced := true,
       process := Some(p.(phase := Idle, journalBytes := 0, epoch := p.candidate.epoch, durable := p.candidate)),
       installed := Some(|s.attempts| - 1), acked := s.acked + [|s.attempts| - 1])
  }

  /** Sync, temporary file, its sync, rename, reset and the last sync. */
  lemma CompleteCommit(c: Config, s: System)
    requires Completable(c, s)
    ensures RunFrom(c, s, Proceeds(6)) == Completed(c, s)
  {
    hide EncodeState, SnapshotFile, Validated, RunFrom, ProceedCommit;
    ProceedNone(c, s);
    ProceedOnce(c, s, 0);
    ProceedOnce(c, s, 1);
    ProceedOnce(c, s, 2);
    ProceedOnce(c, s, 3);
    CompleteSnapshot(c, s);
    var m := RunFrom(c, s, Proceeds(4));
    CompleteReset(c, m);
    ProceedOnce(c, s, 4);
    ProceedOnce(c, s, 5);
  }

  lemma CompleteSnapshot(c: Config, s: System)
    requires Completable(c, s)
    ensures var p := s.process.value;
            ProceedCommit(c, ProceedCommit(c, ProceedCommit(c, ProceedCommit(c, s))))
            == s.(journal := Synced(s.journal), snapshot := Some(SnapshotFile(p.candidate, c.crc)), temp := None,
                  tempSynced := false, snapshotSynced := true, installed := Some(|s.attempts| - 1),
                  process := Some(p.(phase := Resetting)))
  {
    hide EncodeState, SnapshotFile, Validated, ApplyAll;
  }

  lemma CompleteReset(c: Config, s: System)
    requires s.process.Some? && s.process.value.phase.Resetting? && |s.attempts| > 0
    ensures var p := s.process.value;
            ProceedCommit(c, ProceedCommit(c, s))
            == s.(journal := File([], []), acked := s.acked + [|s.attempts| - 1],
                  process := Some(p.(phase := Idle, journalBytes := 0, epoch := p.candidate.epoch,
                      durable := p.candidate)))
  {
    ViewWritten(s.journal, CutTo(0));
  }

  /** A commit begins, and its only append fails part-way. */
  lemma TornAppend(c: Config, s: System, candidate: DurableState, entry: Entry, reached: nat)
    requires s.process.Some? && s.process.value.phase.Idle?
    requires Validated(candidate.(journalSequence := s.process.value.lastSequence))
    requires candidate.epoch >= s.process.value.epoch && Appendable(c, s.process.value, entry)
    ensures var p := s.process.value;
            var state := candidate.(journalSequence := p.lastSequence);
            RunFrom(c, s, [Begin(candidate, [entry]), Refuse(reached)])
            == s.(journal := Written(s.journal, AppendBytes(Reached(c, p, entry, reached))),
                  process := Some(p.(candidate := state)), attempts := s.attempts + [state])
  {
    hide Validated, EncodeRecord, RunFrom;
    RunTwo(c, s, Begin(candidate, [entry]), Refuse(reached));
  }

  lemma RunTwo(c: Config, s: System, a: Event, b: Event)
    ensures RunFrom(c, s, [a, b]) == Next(c, Next(c, s, a), b)
  {
    hide Next, RunFrom;
    assert [a, b] == [a] + [b];
    RunConcat(c, s, [a], [b]);
    RunOne(c, s, a);
    RunOne(c, RunFrom(c, s, [a]), b);
  }

  // ----- a journal that outgrows its bound -----------------------------------------------

  /** A first start: nothing on disk, nothing in the journal. */
  ghost function Started(c: Config, boot: U64): System {
    var durable := EmptyState(StartEpoch(c)).(boot := boot);
    Init().(process := Some(Process(StartEpoch(c), durable, 0, 0, Idle, durable)))
  }

  lemma FirstStart(c: Config, boot: U64)
    ensures Run(c, [Restart(boot)]) == Started(c, boot)
  {
    RunOne(c, Init(), Restart(boot));
    NothingScanned(c.crc);
    hide Scan, ScanLength, DecodeRecord;
    assert View(Init().journal) == [];
  }

  lemma NothingScanned(crc: Checksum)
    ensures Scan([], crc) == [] && ScanLength([], crc) == 0
  {
    NothingDecodes(crc);
  }

  function Zeros(n: nat): (b: Bytes)
    ensures |b| == n
  {
    seq(n, _ => 0)
  }

  const BIG_ENTRY: Entry := Entry(0, Zeros(MAX_RECORD_BYTES), 0)

  const TORN: seq<Event> := [Begin(EmptyState(7), [BIG_ENTRY]), Refuse(MAX_RECORD_BYTES)]

  /** One acknowledged commit at epoch 7, then three commits whose append fails
      after a mebibyte. */
  function Outgrowing(): seq<Event> {
    CommitOnce() + TORN + TORN + TORN
  }

  /** The same, and the power goes. */
  function OutgrownRun(c: Config): seq<Event> {
    Outgrowing() + [Crash(View(Run(c, Outgrowing()).journal), None)]
  }

  lemma EmptyStateValid(epoch: U64)
    ensures Validated(EmptyState(epoch)) && |EncodeState(EmptyState(epoch))| <= MAX_STATE_BYTES
  {
    StateBytesBounded(EmptyState(epoch));
  }

  /** One acknowledged commit at epoch 7, without journal records. */
  function CommitOnce(): seq<Event> { [Restart(1)] + [Begin(EmptyState(7), [])] + Proceeds(6) }

  lemma FirstCommit(c: Config)
    requires c.maxBytes >= |EncodeState(EmptyState(7))| && c.initialEpoch == 0
    ensures Validated(EmptyState(7))
    ensures var s := Run(c, CommitOnce());
            && s.snapshot == Some(SnapshotFile(EmptyState(7), c.crc)) && s.installed == Some(0)
            && s.process.Some? && s.acked == [0] && s.journal == File([], []) && s.attempts == [EmptyState(7)]
            && s.process.value.phase.Idle? && s.process.value.journalBytes == 0 && s.process.value.lastSequence == 0
            && s.process.value.epoch == 7
  {
    hide EncodeState, Validated, SnapshotFile, RunFrom;
    EmptyStateValid(7);
    FirstStart(c, 1);
    var a, b := [Restart(1)], [Begin(EmptyState(7), [])];
    RunConcat(c, Init(), a, b);
    RunOne(c, Started(c, 1), Begin(EmptyState(7), []));
    RunConcat(c, Init(), a + b, Proceeds(6));
    CompleteCommit(c, RunFrom(c, Started(c, 1), b));
  }

  /** What three torn appends leave of an idle store. */
  lemma TornOnce(c: Config, s: System)
    requires c.maxBytes == MAX_STATE_BYTES + 32 && s.process.Some? && s.process.value.phase.Idle?
    requires s.process.value.journalBytes == 0 && s.process.value.lastSequence == 0 && s.process.value.epoch == 7
    ensures var n := RunFrom(c, s, TORN);
            && n.process.Some? && n.process.value.phase.Idle? && n.process.value.journalBytes == 0
            && n.process.value.lastSequence == 0 && n.process.value.epoch == 7 && n.acked == s.acked
            && |View(n.journal)| == |View(s.journal)| + MAX_RECORD_BYTES
  {
    hide EncodeState, Validated, SnapshotFile, RunFrom, EncodeRecord;
    EmptyStateValid(7);
    PrefixLength(NextRecord(s.process.value, BIG_ENTRY), c.crc);
    TornAppend(c, s, EmptyState(7), BIG_ENTRY, MAX_RECORD_BYTES);
    ViewWritten(s.journal, AppendBytes(Reached(c, s.process.value, BIG_ENTRY, MAX_RECORD_BYTES)));
  }

  /** A run with an acknowledged commit after which no restart succeeds: failed
      appends left more in the journal than open() accepts. */
  lemma RestartRefusedAfterTornAppends(c: Config, boot: U64)
    requires c.maxBytes == MAX_STATE_BYTES + 32 && c.initialEpoch == 0
    ensures var s := Run(c, OutgrownRun(c));
            && s.acked == [0] && s.process.None? && AllReadBack(c, s.attempts)
            && |View(s.journal)| == 3 * MAX_RECORD_BYTES && RestartStore(c, s, boot).process.None?
  {
    hide RunFrom, ReadsBack, ApplyAll, Recover, Scan, ScanLength, HighestSequence;
    var first := CommitOnce();
    EmptyStateValid(7);
    FirstCommit(c);
    var s0 := Run(c, first);
    NothingWritten();
    TornOnce(c, s0);
    var s1 := RunFrom(c, s0, TORN);
    TornOnce(c, s1);
    var s2 := RunFrom(c, s1, TORN);
    TornOnce(c, s2);
    RunConcat(c, Init(), first, TORN);
    RunConcat(c, Init(), first + TORN, TORN);
    RunConcat(c, Init(), first + TORN + TORN, TORN);
    var s3 := Run(c, Outgrowing());
    RunSnoc(c, Init(), Outgrowing(), Crash(View(s3.journal), None));
    RunFlushed(c, Outgrowing());
    PowerLoss(c, s3);
    LargeBoundReadsBack(c, OutgrownRun(c));
  }

  lemma NothingWritten()
    ensures View(File([], [])) == []
  {
  }

  /** A crash may leave everything written. */
  lemma PowerLoss(c: Config, s: System)
    requires s.snapshotSynced
    ensures var n := Next(c, s, Crash(View(s.journal), None));
            n == s.(journal := File(View(s.journal), []), temp := None, tempSynced := false, process := None)
            && View(n.journal) == View(s.journal)
  {
    assert s.journal.pending[..|s.journal.pending|] == s.journal.pending;
  }

  // ----- an advance that was synced and is skipped ------------------------------------------

  const NOTE: Entry := Entry(0, [], 0)
  const ADVANCE: Entry := Entry(EPOCH_ADVANCE, EncodeEpoch(100), 0)

  /** A commit with one journal record. */
  function OneRecordCommit(candidate: DurableState, entry: Entry): seq<Event> {
    [Begin(candidate, [entry])] + Proceeds(1) + Proceeds(6)
  }

  lemma OneRecordCommitted(c: Config, s: System, candidate: DurableState, entry: Entry)
    requires Accepts(c, s, candidate, entry)
    requires |EncodeState(candidate.(journalSequence := s.process.value.lastSequence))| <= c.maxBytes
    ensures var n := RunFrom(c, s, OneRecordCommit(candidate, entry));
            var p, state := s.process.value, candidate.(journalSequence := s.process.value.lastSequence);
            && n.snapshot == Some(SnapshotFile(state, c.crc)) && n.journal == File([], [])
            && n.attempts == s.attempts + [state] && n.installed == Some(|s.attempts|)
            && n.acked == s.acked + [|s.attempts|]
            && n.process == Some(p.(phase := Idle, journalBytes := 0, epoch := state.epoch, durable := state,
                candidate := state,
                                    lastSequence := NextRecord(p, entry).sequence))
  {
    hide EncodeState, Validated, SnapshotFile, RunFrom, EncodeRecord;
    var begin := [Begin(candidate, [entry])];
    RunOne(c, s, Begin(candidate, [entry]));
    RunConcat(c, s, begin, Proceeds(1));
    var begun := RunFrom(c, s, begin);
    ProceedNone(c, begun);
    ProceedOnce(c, begun, 0);
    assert [entry][1..] == [];
    RunConcat(c, s, begin + Proceeds(1), Proceeds(6));
    CompleteCommit(c, RunFrom(c, begun, Proceeds(1)));
  }

  /** Two one-record commits at epoch 5, a crash and a restart. */
  function Renumbered(): seq<Event> {
    TwoCommits() + [Crash([], None)] + [Restart(2)]
  }

  /** Then an advance to epoch 100 is appended and synced, and the power goes. */
  function SkippedRun(c: Config): seq<Event> {
    Renumbered() + CutShort(c, Run(c, Renumbered()), EmptyState(100), ADVANCE)
  }

  lemma EmptyStateAccepted(c: Config, s: System, epoch: U64, entry: Entry)
    requires c.maxBytes >= MAX_STATE_BYTES + 32 && s.process.Some? && s.process.value.phase.Idle?
    requires epoch >= s.process.value.epoch && s.process.value.journalBytes == 0 && |entry.payload| <= 8
    ensures Accepts(c, s, EmptyState(epoch), entry)
    ensures |EncodeState(EmptyState(epoch).(journalSequence := s.process.value.lastSequence))| + 32 <= c.maxBytes
  {
    hide EncodeState, EncodeRecord;
    PrefixLength(NextRecord(s.process.value, entry), c.crc);
    StateBytesBounded(EmptyState(epoch).(journalSequence := s.process.value.lastSequence));
  }

  function TwoCommits(): seq<Event> {
    [Restart(1)] + OneRecordCommit(EmptyState(5), NOTE) + OneRecordCommit(EmptyState(5), NOTE)
  }

  lemma TwoCommitted(c: Config)
    requires c.maxBytes >= MAX_STATE_BYTES + 32 && c.initialEpoch == 0
    ensures var s, a := Run(c, TwoCommits()), EmptyState(5).(journalSequence := 1);
            && s.journal == File([], []) && Validated(a) && s.snapshot == Some(SnapshotFile(a, c.crc))
            && |EncodeState(a)| + 32 <= c.maxBytes && s.installed == Some(1) && s.acked == [0, 1]
            && s.attempts == [EmptyState(5), a]
  {
    hide RunFrom, EncodeState, SnapshotFile, Validated, EncodeRecord, Appendable;
    var one := OneRecordCommit(EmptyState(5), NOTE);
    FirstStart(c, 1);
    var s0 := Started(c, 1);
    EmptyStateAccepted(c, s0, 5, NOTE);
    OneRecordCommitted(c, s0, EmptyState(5), NOTE);
    RunConcat(c, Init(), [Restart(1)], one);
    var s1 := RunFrom(c, s0, one);
    EmptyStateAccepted(c, s1, 5, NOTE);
    OneRecordCommitted(c, s1, EmptyState(5), NOTE);
    RunConcat(c, Init(), [Restart(1)] + one, one);
  }

  /** After the restart the journal counts from the start again, while the
      snapshot on disk still covers the first record. */
  lemma RenumberedState(c: Config)
    requires c.maxBytes >= MAX_STATE_BYTES + 32 && c.initialEpoch == 0
    ensures var s := Run(c, Renumbered());
            && s.process.Some? && s.process.value.phase.Idle? && s.process.value.lastSequence == 0
            && s.process.value.epoch == 6 && s.process.value.journalBytes == 0 && View(s.journal) == []
            && s.installed == Some(1) && s.acked == [0, 1]
            && s.attempts == [EmptyState(5), EmptyState(5).(journalSequence := 1)]
            && !Disturbed(c, Renumbered())
  {
    hide RunFrom, EncodeState, SnapshotFile, Validated, Scan, ScanLength, HighestSequence, OneRecordCommit;
    hide RestartStore;
    TwoCommitted(c);
    var before := TwoCommits() + [Crash([], None)];
    var s := Run(c, TwoCommits());
    RunSnoc(c, Init(), TwoCommits(), Crash([], None));
    NothingWritten();
    RunFlushed(c, TwoCommits());
    PowerLoss(c, s);
    RunSnoc(c, Init(), before, Restart(2));
    RestartOver(c, Run(c, before), 2, EmptyState(5).(journalSequence := 1));
    assert Renumbered()[..|Renumbered()| - 1] == before;
  }

  /** A restart over a snapshot and an empty journal. */
  lemma RestartOver(c: Config, s: System, boot: U64, a: DurableState)
    requires s.process.None? && s.journal == File([], []) && Validated(a) && s.snapshot == Some(SnapshotFile(a, c.crc))
    requires |EncodeState(a)| + 32 <= c.maxBytes && 0 < a.epoch < U64_MAX
    ensures var n := RestartStore(c, s, boot);
            && n.process.Some? && n.process.value.phase.Idle? && n.process.value.lastSequence == 0
            && n.process.value.epoch == a.epoch + 1 && n.process.value.journalBytes == 0
            && n == s.(temp := None, tempSynced := false, process := n.process)
  {
    hide EncodeState, SnapshotFile, ReadSnapshot, Scan, ScanLength, Validated;
    NothingWritten();
    NothingScanned(c.crc);
    SnapshotReadBack(a, c.maxBytes, c.crc);
  }

  /** An advance to epoch 100 that the journal held, synced, when the power went,
      and a restart at epoch 6. */
  lemma AdvanceSkippedAfterRestart(c: Config, boot: U64)
    requires c.maxBytes >= MAX_STATE_BYTES + 32 && c.initialEpoch == 0 && c.maxRecords > 0
    ensures var s := Run(c, SkippedRun(c));
            && s.process.None? && AllReadBack(c, s.attempts)
            && (exists r :: Scan(View(s.journal), c.crc) == [r] && AdvanceOf(r) == 100)
            && RestartStore(c, s, boot).process.Some? && RestartStore(c, s, boot).process.value.epoch == 6
  {
    hide RunFrom, EncodeState, Validated, EncodeRecord, Scan, HighestSequence, RestartStore, Disturbed, AdvanceOf;
    hide Recover, Appendable, AdvancesTo, CutShort, ReadsBack;
    RenumberedState(c);
    var s := Run(c, Renumbered());
    EmptyStateAccepted(c, s, 100, ADVANCE);
    var r := NextRecord(s.process.value, ADVANCE);
    EncodedEpochReads(100, r);
    NothingScanned(c.crc);
    LargeBoundReadsBack(c, SkippedRun(c));
    RunConcat(c, Init(), Renumbered(), CutShort(c, s, EmptyState(100), ADVANCE));
    RunFlushed(c, Renumbered());
    CutShortLeaves(c, s, EmptyState(100), ADVANCE);
    SyncedDisk(c, Renumbered(), EmptyState(100), ADVANCE, 100);
    var n := Run(c, SkippedRun(c));
    assert Scan(View(n.journal), c.crc) == [r];
    var a := EmptyState(5).(journalSequence := 1);
    HighestOfOne(r);
    NoneApplies(a, [r], 1, 6);
    RestartEpochExactly(c, SkippedRun(c), boot, 5);
    RestartEpochExactly(c, SkippedRun(c), boot, 6);
    assert Readable(c, n) == [r];
  }

  lemma HighestOfOne(r: Record)
    ensures HighestSequence([r]) == r.sequence
  {
    assert [r][..0] == [];
  }

  // ----- an advance behind a stray byte ------------------------------------------------------

  /** A commit with one record, an append that leaves one byte, and then an
      advance to epoch 100 that is appended and synced before the power goes. */
  function StrayByte(): seq<Event> {
    [Restart(1)] + OneRecordCommit(EmptyState(5), NOTE) + [Begin(EmptyState(5), [NOTE]), Refuse(1)]
  }

  function BehindStrayByte(c: Config): seq<Event> {
    StrayByte() + CutShort(c, Run(c, StrayByte()), EmptyState(100), ADVANCE)
  }

  lemma PrefixStarts(r: Record, crc: Checksum)
    requires |r.payload| <= U32_MAX
    ensures EncodeRecord(r, crc)[..4] == [0x48, 0x47, 0x4A, 0x31]
  {
    var ws, ns := PREFIX_WIDTHS, PrefixFields(r, crc);
    PrefixLength(r, crc);
    assert RecordPrefix(r, crc) == Codec.EncodeLe(JOURNAL_MAGIC, 4) + Codec.EncodeNums(ws[1..], ns[1..]);
    MagicBytes();
  }

  lemma MagicBytes()
    ensures Codec.EncodeLe(JOURNAL_MAGIC, 4) == [0x48, 0x47, 0x4A, 0x31]
  {
  }

  /** A record behind one byte of another is not read. */
  lemma ShiftedRecordRefused(x: Record, r: Record, crc: Checksum)
    requires |x.payload| <= U32_MAX && |r.payload| <= U32_MAX
    ensures DecodeRecord(EncodeRecord(x, crc)[..1] + EncodeRecord(r, crc), crc).None?
  {
    hide EncodeRecord, Codec.EncodeLe;
    PrefixLength(x, crc);
    PrefixLength(r, crc);
    PrefixStarts(x, crc);
    PrefixStarts(r, crc);
    var e := EncodeRecord(r, crc);
    var b := EncodeRecord(x, crc)[..1] + e;
    assert b[0] == EncodeRecord(x, crc)[..4][0];
    assert b[1] == e[..4][0] && b[2] == e[..4][1] && b[3] == e[..4][2];
    assert b[..40][..4] == [0x48, 0x48, 0x47, 0x4A];
    ShiftedMagic();
  }

  lemma ShiftedMagic()
    ensures Codec.DecodeLe([0x48, 0x48, 0x47, 0x4A]) == 0x4A474848
  {
  }

  ghost predicate FirstByteOf(b: Bytes, x: Record, crc: Checksum) {
    x.payload == [] && |EncodeRecord(x, crc)| > 0 && b == EncodeRecord(x, crc)[..1]
  }

  lemma StrayByteState(c: Config)
    requires c.maxBytes >= MAX_STATE_BYTES + 32 && c.initialEpoch == 0
    ensures var s := Run(c, StrayByte());
            && s.process.Some? && s.process.value.phase.Idle? && s.process.value.lastSequence == 1
            && s.process.value.epoch == 5 && s.process.value.journalBytes == 0 && s.installed == Some(0)
            && s.attempts == [EmptyState(5), EmptyState(5).(journalSequence := 1)]
            && exists x: Record :: FirstByteOf(View(s.journal), x, c.crc)
  {
    hide RunFrom, EncodeState, SnapshotFile, Validated, EncodeRecord, Appendable, ApplyAll;
    var one, torn := OneRecordCommit(EmptyState(5), NOTE), [Begin(EmptyState(5), [NOTE]), Refuse(1)];
    FirstStart(c, 1);
    var s0 := Started(c, 1);
    EmptyStateAccepted(c, s0, 5, NOTE);
    OneRecordCommitted(c, s0, EmptyState(5), NOTE);
    RunConcat(c, Init(), [Restart(1)], one);
    var s1 := RunFrom(c, s0, one);
    EmptyStateAccepted(c, s1, 5, NOTE);
    TornAppend(c, s1, EmptyState(5), NOTE, 1);
    RunConcat(c, Init(), [Restart(1)] + one, torn);
    var x := NextRecord(s1.process.value, NOTE);
    PrefixLength(x, c.crc);
    ViewWritten(s1.journal, AppendBytes(Reached(c, s1.process.value, NOTE, 1)));
    NothingWritten();
    assert [] + EncodeRecord(x, c.crc)[..1] == EncodeRecord(x, c.crc)[..1];
    assert FirstByteOf(View(Run(c, StrayByte()).journal), x, c.crc);
  }

  /** The advance is numbered above what the snapshot covers, it was synced, and
      it is lost: recovery stops reading at the stray byte. */
  lemma AdvanceLostBehindStrayByte(c: Config, boot: U64)
    requires c.maxBytes >= MAX_STATE_BYTES + 32 && c.initialEpoch == 0
    ensures var s := Run(c, BehindStrayByte(c));
            && Stands(Run(c, StrayByte()), 100) && s.process.None? && AllReadBack(c, s.attempts)
            && RestartStore(c, s, boot).process.Some? && RestartStore(c, s, boot).process.value.epoch == 6
  {
    hide RunFrom, EncodeState, Validated, EncodeRecord, RestartStore, AdvanceOf, Appendable, CutShort, ReadsBack;
    StrayByteState(c);
    var s := Run(c, StrayByte());
    EmptyStateAccepted(c, s, 100, ADVANCE);
    var r := NextRecord(s.process.value, ADVANCE);
    var x: Record :| FirstByteOf(View(s.journal), x, c.crc);
    LargeBoundReadsBack(c, BehindStrayByte(c));
    RunConcat(c, Init(), StrayByte(), CutShort(c, s, EmptyState(100), ADVANCE));
    RunFlushed(c, StrayByte());
    CutShortLeaves(c, s, EmptyState(100), ADVANCE);
    PrefixLength(x, c.crc);
    PrefixLength(r, c.crc);
    ShiftedRecordRefused(x, r, c.crc);
    hide DecodeRecord, AdvancesTo;
    var n := Run(c, BehindStrayByte(c));
    assert Scan(View(n.journal), c.crc) == [];
    assert Readable(c, n) == [];
    NoAdvance(n.attempts[0], 6);
    RestartEpochExactly(c, BehindStrayByte(c), boot, 5);
    RestartEpochExactly(c, BehindStrayByte(c), boot, 6);
  }

  lemma NoAdvance(a: DurableState, e: int)
    ensures !AdvancesTo(a, [], e)
  {
  }

  // ----- a snapshot that is written and never read ---------------------------------------------

  /** With room for the body and not for its header, the commit is acknowledged
      at epoch 7 and the restart runs at epoch 1 without its history. */
  lemma OversizeSnapshotRun(c: Config, boot: U64)
    requires |EncodeState(EmptyState(7))| <= c.maxBytes < |EncodeState(EmptyState(7))| + 32 && c.initialEpoch == 0
    ensures var s := Run(c, CommitOnce() + [Crash([], None)]);
            && s.acked == [0] && s.attempts == [EmptyState(7)]
            && RestartStore(c, s, boot).process.Some? && RestartStore(c, s, boot).process.value.epoch == 1
  {
    hide RunFrom, EncodeState, SnapshotFile, ReadSnapshot, Scan, ScanLength, HighestSequence, Validated;
    FirstCommit(c);
    var s := Run(c, CommitOnce());
    RunSnoc(c, Init(), CommitOnce(), Crash([], None));
    NothingWritten();
    RunFlushed(c, CommitOnce());
    PowerLoss(c, s);
    NothingScanned(c.crc);
    SnapshotReadBack(EmptyState(7), c.maxBytes, c.crc);
  }
}
