/** Commit and recovery under crashes (src/store.cpp, src/governor.cpp): the
    steps of a commit, any of which may succeed, fail or be cut off by a crash,
    and the restart that follows. */
module StoreCrash {
  import opened Base
  import Codec
  import opened Framing
  import opened JournalLog
  import opened DurableSnapshot

  // ----- files -------------------------------------------------------------------

  datatype WriteOp = AppendBytes(bytes: Bytes) | CutTo(size: nat)

  /** A file written without a durability barrier yet: what is stable, and the
      writes still on their way, in order. */
  datatype File = File(stable: Bytes, pending: seq<WriteOp>)

  function Apply(b: Bytes, op: WriteOp): Bytes {
    match op
    case AppendBytes(bytes) => b + bytes
    case CutTo(size) => if size <= |b| then b[..size] else b
  }

  function ApplyAll(b: Bytes, ops: seq<WriteOp>): Bytes {
    if |ops| == 0 then b else Apply(ApplyAll(b, ops[..|ops| - 1]), ops[|ops| - 1])
  }

  /** What the process reads. */
  function View(f: File): Bytes { ApplyAll(f.stable, f.pending) }

  function Synced(f: File): File { File(View(f), []) }

  function Written(f: File, op: WriteOp): File { f.(pending := f.pending + [op]) }

  /** What a crash may leave behind: some of the pending writes, in order, the
      last of them possibly torn. */
  predicate CrashImage(f: File, image: Bytes) {
    exists k :: 0 <= k <= |f.pending| && (
      || image == ApplyAll(f.stable, f.pending[..k])
      || (k < |f.pending| && f.pending[k].AppendBytes?
          && TornBy(ApplyAll(f.stable, f.pending[..k]), f.pending[k].bytes, image)))
  }

  predicate TornBy(base: Bytes, bytes: Bytes, image: Bytes) {
    exists j :: 0 <= j <= |bytes| && image == base + bytes[..j]
  }

  // ----- the running process ---------------------------------------------------------

  datatype Entry = Entry(kind: U32, payload: Bytes, at: I64)

  /** Where a commit stands. */
  datatype Phase =
    | Idle
    | Journalling(todo: seq<Entry>)
    | WritingTemp
    | SyncingTemp
    | Renaming
    | Resetting
    | FinalSync

  /** The governor's durable side while it runs. */
  datatype Process = Process(
    epoch: U64, durable: DurableState, lastSequence: U64, journalBytes: nat, phase: Phase, candidate: DurableState)

  datatype Config = Config(maxBytes: U64, maxRecords: nat, initialEpoch: U64, crc: Checksum)

  /** Disk, process and, for stating what must hold, the history: every state a
      commit was attempted with, which attempts were acknowledged, and which
      attempt the snapshot on disk was written by. The flags say whether the bytes
      of the temporary file and of the snapshot have reached the disk. */
  datatype System = System(
    snapshot: Option<Bytes>, temp: Option<Bytes>, journal: File, process: Option<Process>,
    attempts: seq<DurableState>, acked: seq<nat>, installed: Option<nat>, tempSynced: bool, snapshotSynced: bool)

  datatype Event =
    /** install_epoch, note_publisher_death or commit_durable starts a commit. */
    | Begin(candidate: DurableState, entries: seq<Entry>)
    /** The next step of the commit succeeds. */
    | Proceed
    /** The next step fails and commit returns; some bytes may have got out. */
    | Refuse(reached: nat)
    /** Power loss: what is left of the journal, and of the file last written as
        temporary, which is the snapshot if it was renamed before it was synced. */
    | Crash(image: Bytes, temp: Option<Bytes>)
    /** A new process, with its own boot id, opens the store and recovers. */
    | Restart(boot: U64)

  function StartEpoch(c: Config): U64 { if c.initialEpoch != 0 then c.initialEpoch else 1 }

  function EmptyState(epoch: U64): DurableState {
    DurableState(FORMAT_VERSION, 0, epoch, 0, 0, NO_TIME, [], [])
  }

  function Init(): System { System(None, None, File([], []), None, [], [], None, false, true) }

  function SetPhase(s: System, phase: Phase): System
    requires s.process.Some?
  {
    s.(process := Some(s.process.value.(phase := phase)))
  }

  /** A commit starts only between commits, with a validated state whose epoch
      is not below the live one and whose sequence is the journal's. */
  function BeginCommit(s: System, candidate: DurableState, entries: seq<Entry>): System {
    if s.process.None? || s.process.value.phase != Idle then s
    else
      var p := s.process.value;
      var state := candidate.(journalSequence := p.lastSequence);
      if !Validated(state) || state.epoch < p.epoch then s
      else s.(process := Some(p.(phase := Journalling(entries), candidate := state)), attempts := s.attempts + [state])
  }

  function NextRecord(p: Process, e: Entry): Record {
    Record(e.kind, (p.lastSequence + 1) % 0x1_0000_0000_0000_0000, e.at, e.payload)
  }

  /** The bounds append checks before it writes. */
  predicate Appendable(c: Config, p: Process, e: Entry) {
    var r := NextRecord(p, e);
    Bounded(r) && p.journalBytes + |EncodeRecord(r, c.crc)| <= c.maxBytes
  }

  /** What a failed append left in the file: any part of the record, even all. */
  function Reached(c: Config, p: Process, e: Entry, reached: nat): Bytes {
    var b := EncodeRecord(NextRecord(p, e), c.crc);
    if reached < |b| then b[..reached] else b
  }

  function AppendNext(c: Config, s: System, todo: seq<Entry>): System
    requires s.process.Some? && |todo| > 0
  {
    var p := s.process.value;
    if !Appendable(c, p, todo[0]) then SetPhase(s, Idle)
    else
      var r := NextRecord(p, todo[0]);
      var e := EncodeRecord(r, c.crc);
      s.(journal := Written(s.journal, AppendBytes(e)),
         process := Some(p.(lastSequence := r.sequence, journalBytes := p.journalBytes + |e|,
                            phase := Journalling(todo[1..]))))
  }

  function ProceedCommit(c: Config, s: System): System {
    if s.process.None? then s
    else
      var p := s.process.value;
      match p.phase
      case Idle => s
      case Journalling(todo) =>
        if |todo| > 0 then AppendNext(c, s, todo)
        else SetPhase(s, WritingTemp).(journal := Synced(s.journal))
      case WritingTemp =>
        if !Validated(p.candidate) || |EncodeState(p.candidate)| > c.maxBytes then SetPhase(s, Idle)
        else SetPhase(s, SyncingTemp).(temp := Some(SnapshotFile(p.candidate, c.crc)), tempSynced := false)
      case SyncingTemp => SetPhase(s, Renaming).(tempSynced := true)
      case Renaming =>
        SetPhase(s, Resetting).(snapshot := s.temp, temp := None, snapshotSynced := s.tempSynced, tempSynced := false,
                                installed := if |s.attempts| == 0 then None else Some(|s.attempts| - 1))
      case Resetting =>
        s.(journal := Written(s.journal, CutTo(0)), process := Some(p.(phase := FinalSync, journalBytes := 0)))
      case FinalSync =>
        s.(journal := Synced(s.journal),
           process := Some(p.(phase := Idle, epoch := p.candidate.epoch, durable := p.candidate)),
           acked := if |s.attempts| == 0 then s.acked else s.acked + [|s.attempts| - 1])
  }

  function RefuseCommit(c: Config, s: System, reached: nat): System {
    if s.process.None? then s
    else
      var p := s.process.value;
      var idle := SetPhase(s, Idle);
      match p.phase
      case Journalling(todo) =>
        if |todo| == 0 || !Appendable(c, p, todo[0]) then idle
        else idle.(journal := Written(s.journal, AppendBytes(Reached(c, p, todo[0], reached))))
      case WritingTemp =>
        if !Validated(p.candidate) then idle
        else
          var f := SnapshotFile(p.candidate, c.crc);
          idle.(temp := Some(if reached < |f| then f[..reached] else f), tempSynced := false)
      case Resetting => if reached == 0 then idle else idle.(journal := Written(s.journal, CutTo(0)))
      case _ => idle
  }

  function Succ(epoch: U64): U64 { if epoch == U64_MAX then epoch else epoch + 1 }

  /** The state recovered from disk, and the epoch the governor then runs at. */
  datatype Recovered = Recovered(state: Option<DurableState>, epoch: U64)

  function Recover(c: Config, snapshot: Option<Bytes>, records: seq<Record>): Recovered {
    if snapshot.None? then Recovered(None, StartEpoch(c))
    else
      var r := ReadSnapshot(snapshot.value, c.maxBytes, c.crc);
      if r.Err? then Recovered(None, StartEpoch(c))
      else
        var rs := records[..Min(|records|, c.maxRecords)];
        var last := RecoveredEpoch(r.value, rs);
        Recovered(Some(r.value.(journalSequence := RecoveredSequence(r.value, rs))),
                  if last != 0 then Succ(last) else StartEpoch(c))
  }

  /** Opening cuts the journal's torn tail and drops a leftover temporary file;
      an oversized journal cannot be opened at all. */
  function RestartStore(c: Config, s: System, boot: U64): System {
    if s.process.Some? || |View(s.journal)| > c.maxBytes then s
    else
      var b := View(s.journal);
      var n, rs := ScanLength(b, c.crc), Scan(b, c.crc);
      var r := Recover(c, s.snapshot, rs);
      var durable := (if r.state.Some? then r.state.value else EmptyState(r.epoch)).(boot := boot, epoch := r.epoch);
      s.(temp := None, tempSynced := false,
         journal := if n < |b| then Written(s.journal, CutTo(n)) else s.journal,
         process := Some(Process(r.epoch, durable, HighestSequence(rs), n, Idle, durable)))
  }

  function Next(c: Config, s: System, e: Event): System {
    match e
    case Begin(candidate, entries) => BeginCommit(s, candidate, entries)
    case Proceed => ProceedCommit(c, s)
    case Refuse(reached) => RefuseCommit(c, s, reached)
    case Crash(image, temp) =>
      if !CrashImage(s.journal, image) then s
      else
        s.(journal := File(image, []), process := None, temp := if s.snapshotSynced then temp else None,
           tempSynced := false, snapshot := if s.snapshotSynced then s.snapshot else temp, snapshotSynced := true)
    case Restart(boot) => RestartStore(c, s, boot)
  }

  function RunFrom(c: Config, s: System, events: seq<Event>): System {
    if |events| == 0 then s else Next(c, RunFrom(c, s, events[..|events| - 1]), events[|events| - 1])
  }

  function Run(c: Config, events: seq<Event>): System { RunFrom(c, Init(), events) }

  lemma {:induction false} RunConcat(c: Config, s: System, a: seq<Event>, b: seq<Event>)
    ensures RunFrom(c, s, a + b) == RunFrom(c, RunFrom(c, s, a), b)
  {
    hide Next;
    if |b| == 0 {
      assert a + b == a;
    } else {
      RunConcat(c, s, a, b[..|b| - 1]);
      assert (a + b)[..|a + b| - 1] == a + b[..|b| - 1];
    }
  }

  lemma RunSnoc(c: Config, s: System, a: seq<Event>, e: Event)
    ensures RunFrom(c, s, a + [e]) == Next(c, RunFrom(c, s, a), e)
  {
    hide Next;
    assert (a + [e])[..|a|] == a;
  }

  lemma RunOne(c: Config, s: System, a: Event)
    ensures RunFrom(c, s, [a]) == Next(c, s, a)
  {
    hide Next;
    assert [a] == [] + [a];
    RunSnoc(c, s, [], a);
  }

  // ----- what every step keeps ----------------------------------------------------------

  /** The snapshot reader accepts what the writer wrote. */
  predicate ReadsBack(c: Config, s: DurableState) { Validated(s) && |EncodeState(s)| + 32 <= c.maxBytes }

  ghost predicate AllReadBack(c: Config, attempts: seq<DurableState>) {
    forall i :: 0 <= i < |attempts| ==> ReadsBack(c, attempts[i])
  }

  /** Acknowledged attempts exist, and none has an epoch above the given one. */
  ghost predicate AckedUpTo(s: System, epoch: U64) {
    forall k :: 0 <= k < |s.acked| ==> s.acked[k] < |s.attempts| && s.attempts[s.acked[k]].epoch <= epoch
  }

  /** Every acknowledged attempt is at or before the given one. */
  ghost predicate AckedBefore(s: System, i: nat) {
    forall k :: 0 <= k < |s.acked| ==> s.acked[k] <= i
  }

  ghost predicate SnapshotSound(c: Config, s: System) {
    match s.installed
    case None => s.snapshot.None? && s.snapshotSynced && s.acked == []
    case Some(i) =>
      && s.snapshotSynced && i < |s.attempts| && Validated(s.attempts[i])
      && s.snapshot == Some(SnapshotFile(s.attempts[i], c.crc))
      && AckedBefore(s, i) && AckedUpTo(s, s.attempts[i].epoch)
  }

  ghost predicate ProcessSound(c: Config, s: System) {
    s.process.Some? ==>
      var p := s.process.value;
      && AckedUpTo(s, p.epoch)
      && (p.phase != Idle ==>
            && |s.attempts| > 0 && p.candidate == s.attempts[|s.attempts| - 1]
            && Validated(p.candidate) && p.candidate.epoch >= p.epoch)
      && (p.phase == SyncingTemp || p.phase == Renaming ==> s.temp == Some(SnapshotFile(p.candidate, c.crc)))
      && (p.phase == Renaming ==> s.tempSynced)
      && (p.phase == Resetting || p.phase == FinalSync ==> s.installed == Some(|s.attempts| - 1))
  }

  ghost predicate Sound(c: Config, s: System) { SnapshotSound(c, s) && ProcessSound(c, s) }

  lemma BeginSound(c: Config, s: System, candidate: DurableState, entries: seq<Entry>)
    requires Sound(c, s)
    ensures Sound(c, BeginCommit(s, candidate, entries))
  {
    hide EncodeState, SnapshotFile, Validated;
  }

  /** Steps that change neither the snapshot nor what is acknowledged. */
  lemma JournalSound(c: Config, s: System)
    requires Sound(c, s) && s.process.Some? && s.process.value.phase.Journalling?
    ensures Sound(c, ProceedCommit(c, s))
  {
    hide EncodeState, SnapshotFile, Validated, EncodeRecord, ApplyAll;
  }

  /** The rename installs the latest attempt. */
  lemma RenameSound(c: Config, s: System)
    requires Sound(c, s) && s.process.Some? && s.process.value.phase.Renaming?
    ensures Sound(c, ProceedCommit(c, s))
  {
    hide EncodeState, SnapshotFile, Validated, EncodeRecord, ApplyAll;
  }

  /** The last sync acknowledges it. */
  lemma AcknowledgeSound(c: Config, s: System)
    requires Sound(c, s) && s.process.Some? && s.process.value.phase.FinalSync?
    ensures Sound(c, ProceedCommit(c, s))
  {
    hide EncodeState, SnapshotFile, Validated, EncodeRecord, ApplyAll;
  }

  lemma TempSound(c: Config, s: System)
    requires Sound(c, s) && s.process.Some?
    requires s.process.value.phase in {WritingTemp, SyncingTemp, Resetting, Idle}
    ensures Sound(c, ProceedCommit(c, s))
  {
    hide EncodeState, SnapshotFile, Validated, EncodeRecord, ApplyAll;
  }

  lemma ProceedSound(c: Config, s: System)
    requires Sound(c, s)
    ensures Sound(c, ProceedCommit(c, s))
  {
    if s.process.Some? {
      hide Sound, ProceedCommit;
      match s.process.value.phase
      case Journalling(todo) => JournalSound(c, s);
      case Renaming => RenameSound(c, s);
      case FinalSync => AcknowledgeSound(c, s);
      case _ => TempSound(c, s);
    }
  }

  lemma RefuseSound(c: Config, s: System, reached: nat)
    requires Sound(c, s)
    ensures Sound(c, RefuseCommit(c, s, reached))
  {
    hide EncodeState, SnapshotFile, Validated, EncodeRecord, ApplyAll;
  }

  /** Recovery over a sound disk: the installed attempt's history, at an epoch
      not below, and strictly above unless the counter is exhausted. */
  lemma RecoverSound(c: Config, s: System, records: seq<Record>)
    requires SnapshotSound(c, s) && s.installed.Some? && ReadsBack(c, s.attempts[s.installed.value])
    ensures var a := s.attempts[s.installed.value];
            var r := Recover(c, s.snapshot, records);
            && r.state.Some? && r.state.value.(journalSequence := a.journalSequence) == a
            && r.epoch >= a.epoch && (a.epoch < U64_MAX ==> r.epoch > a.epoch)
  {
    hide EncodeState, SnapshotFile, ReadSnapshot, RecoveredEpoch, RecoveredSequence;
    var a := s.attempts[s.installed.value];
    SnapshotReadBack(a, c.maxBytes, c.crc);
    RecoveredEpochAtLeast(a, records[..Min(|records|, c.maxRecords)]);
  }

  lemma RestartSound(c: Config, s: System, boot: U64)
    requires Sound(c, s) && AllReadBack(c, s.attempts)
    ensures Sound(c, RestartStore(c, s, boot))
  {
    hide EncodeState, SnapshotFile, ReadsBack, Scan, ScanLength, HighestSequence, ApplyAll, Recover, Validated;
    if s.process.None? && s.installed.Some? {
      RecoverSound(c, s, Scan(View(s.journal), c.crc));
    }
  }

  lemma NextSound(c: Config, s: System, e: Event)
    requires Sound(c, s) && AllReadBack(c, s.attempts)
    ensures Sound(c, Next(c, s, e))
  {
    hide BeginCommit, ProceedCommit, RefuseCommit, RestartStore, SnapshotFile, Validated, CrashImage;
    match e
    case Begin(candidate, entries) => BeginSound(c, s, candidate, entries);
    case Proceed => ProceedSound(c, s);
    case Refuse(reached) => RefuseSound(c, s, reached);
    case Crash(image, temp) =>
    case Restart(boot) => RestartSound(c, s, boot);
  }

  /** Attempts are only ever added. */
  lemma AttemptsGrow(c: Config, s: System, e: Event)
    ensures s.attempts <= Next(c, s, e).attempts
  {
    hide EncodeState, SnapshotFile, Validated, EncodeRecord, ApplyAll, CrashImage, Recover, Scan, ScanLength;
    hide HighestSequence;
  }

  lemma {:induction false} RunSound(c: Config, events: seq<Event>)
    requires AllReadBack(c, Run(c, events).attempts)
    ensures Sound(c, Run(c, events))
  {
    hide Next, ReadsBack, SnapshotFile, Validated;
    if |events| == 0 {
      assert Run(c, events) == Init();
    } else {
      var before := events[..|events| - 1];
      AttemptsGrow(c, Run(c, before), events[|events| - 1]);
      RunSound(c, before);
      NextSound(c, Run(c, before), events[|events| - 1]);
    }
  }

  /** The snapshot's bytes are on the disk, and so are the temporary file's when it
      is about to replace it. */
  ghost predicate Flushed(s: System) {
    s.snapshotSynced && (s.process.Some? && s.process.value.phase.Renaming? ==> s.tempSynced)
  }

  lemma NextFlushed(c: Config, s: System, e: Event)
    requires Flushed(s)
    ensures Flushed(Next(c, s, e))
  {
    hide EncodeState, SnapshotFile, Validated, EncodeRecord, ApplyAll, CrashImage, Recover, Scan, ScanLength;
    hide HighestSequence;
  }

  /** In every run the rename never exposes bytes that a crash could still tear. */
  lemma {:induction false} RunFlushed(c: Config, events: seq<Event>)
    ensures Flushed(Run(c, events))
  {
    hide Next, Flushed;
    if |events| == 0 {
      InitFlushed();
    } else {
      RunFlushed(c, events[..|events| - 1]);
      NextFlushed(c, Run(c, events[..|events| - 1]), events[|events| - 1]);
    }
  }

  lemma InitFlushed()
    ensures Flushed(Init())
  {
  }

  /** Equal but for the fields a restart rewrites. */
  predicate SameHistory(a: DurableState, b: DurableState) {
    a.(journalSequence := 0, epoch := 0, boot := 0) == b.(journalSequence := 0, epoch := 0, boot := 0)
  }

  /** The process runs at an epoch strictly above every acknowledged commit's,
      as long as the counter is not exhausted. */
  ghost predicate AboveAcked(s: System, p: Process) {
    forall k :: 0 <= k < |s.acked| ==>
      s.acked[k] < |s.attempts|
      && (s.attempts[s.acked[k]].epoch < U64_MAX ==> s.attempts[s.acked[k]].epoch < p.epoch)
  }

  /** The process holds the history of this attempt, which is the last
      acknowledged one or one after it. */
  ghost predicate Restores(s: System, p: Process, i: nat) {
    i < |s.attempts| && AckedBefore(s, i) && SameHistory(p.durable, s.attempts[i])
  }

  /** The process has no history to go by: nothing was ever installed. */
  ghost predicate StartsEmpty(c: Config, s: System, p: Process) {
    s.acked == [] && p.epoch == StartEpoch(c) && p.durable.hotspots == [] && p.durable.interventions == []
  }

  /** Crash safety. After any run of commits, failures, crashes and restarts, a
      restart that finds its files within their bounds succeeds. It recovers the
      history of exactly one attempted commit, never older than the last
      acknowledged one, or, when nothing was acknowledged, possibly none; and the
      governor then runs at an epoch above every acknowledged commit's. */
  lemma CrashSafety(c: Config, events: seq<Event>, boot: U64)
    requires AllReadBack(c, Run(c, events).attempts) && Run(c, events).process.None?
    requires |View(Run(c, events).journal)| <= c.maxBytes
    ensures var s := Run(c, events);
            var r := RestartStore(c, s, boot);
            && r.process.Some? && AboveAcked(s, r.process.value)
            && (StartsEmpty(c, s, r.process.value) || exists i: nat :: Restores(s, r.process.value, i))
  {
    hide EncodeState, SnapshotFile, ReadsBack, Scan, ScanLength, HighestSequence, ApplyAll, Recover, Validated, Run;
    var s := Run(c, events);
    RunSound(c, events);
    if s.installed.Some? {
      RecoverSound(c, s, Scan(View(s.journal), c.crc));
      assert Restores(s, RestartStore(c, s, boot).process.value, s.installed.value);
    } else {
      NothingToRecover(c, s, Scan(View(s.journal), c.crc));
    }
  }

  lemma NothingToRecover(c: Config, s: System, records: seq<Record>)
    requires s.snapshot.None?
    ensures Recover(c, s.snapshot, records) == Recovered(None, StartEpoch(c))
  {
  }

  /** A bound that leaves room for the largest validated state reads back every
      commit a run can attempt. */
  lemma {:induction false} LargeBoundReadsBack(c: Config, events: seq<Event>)
    requires c.maxBytes >= MAX_STATE_BYTES + 32
    ensures AllReadBack(c, Run(c, events).attempts)
  {
    hide Next, EncodeState, Validated;
    if |events| == 0 {
      assert Run(c, events) == Init();
    } else {
      var before, last := events[..|events| - 1], events[|events| - 1];
      LargeBoundReadsBack(c, before);
      AttemptsValidated(c, Run(c, before), last);
      var s, n := Run(c, before), Next(c, Run(c, before), last);
      if n.attempts != s.attempts {
        StateBytesBounded(n.attempts[|n.attempts| - 1]);
      }
    }
  }

  lemma AttemptsValidated(c: Config, s: System, e: Event)
    ensures var n := Next(c, s, e);
            n.attempts == s.attempts
            || (|n.attempts| == |s.attempts| + 1 && n.attempts[..|s.attempts|] == s.attempts
                && Validated(n.attempts[|s.attempts|]))
  {
    hide EncodeState, SnapshotFile, Validated, EncodeRecord, ApplyAll, CrashImage, Recover, Scan, ScanLength;
    hide HighestSequence;
  }

  /** The read-back condition is needed: a snapshot the reader refuses is
      forgotten, and the governor starts over at its configured epoch. */
  lemma OversizeSnapshotForgotten(c: Config, s: System, records: seq<Record>)
    requires SnapshotSound(c, s) && s.installed.Some? && !ReadsBack(c, s.attempts[s.installed.value])
    ensures Recover(c, s.snapshot, records) == Recovered(None, StartEpoch(c))
  {
    hide EncodeState, SnapshotFile, ReadSnapshot, RecoveredEpoch, RecoveredSequence, Validated;
    SnapshotReadBack(s.attempts[s.installed.value], c.maxBytes, c.crc);
  }

  function EncodeEpoch(epoch: U64): Bytes { Codec.EncodeLe(epoch, 8) }

  lemma EncodedEpochReads(epoch: U64, r: Record)
    requires r.kind == EPOCH_ADVANCE && r.payload == EncodeEpoch(epoch)
    ensures AdvanceOf(r) == epoch
  {
    hide Codec.EncodeLe, Codec.DecodeLe;
    Codec.Pow256Values();
    Codec.DecodeEncodeLe(epoch, 8);
    assert EncodeEpoch(epoch)[..8] == EncodeEpoch(epoch);
  }
}
