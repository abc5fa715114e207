/** Which epoch a restart runs at (src/store.cpp, src/governor.cpp): what becomes
    of an epoch advance that was journalled and synced when the power goes before
    the snapshot is replaced. */
module StoreAdvance {
  import opened Base
  import opened Framing
  import opened JournalLog
  import opened DurableSnapshot
  import opened StoreCrash
  import opened StoreGrowth

  // ----- for every run -------------------------------------------------------------------

  /** The journal records recovery looks at. */
  function Readable(c: Config, s: System): seq<Record> {
    var rs := Scan(View(s.journal), c.crc);
    rs[..Min(|rs|, c.maxRecords)]
  }

  /** The disk leads recovery to this epoch: the snapshot has reached it, or a
      readable record that the snapshot does not cover advances to it. */
  ghost predicate Reaches(c: Config, s: System, e: U64) {
    match s.installed
    case None => StartEpoch(c) > e
    case Some(i) => i < |s.attempts| && (s.attempts[i].epoch >= e || AdvancesTo(s.attempts[i], Readable(c, s), e))
  }

  /** After every run, a restart runs above an epoch exactly when the disk leads
      recovery to it. */
  lemma RestartEpochExactly(c: Config, events: seq<Event>, boot: U64, e: U64)
    requires AllReadBack(c, Run(c, events).attempts) && Run(c, events).process.None?
    requires |View(Run(c, events).journal)| <= c.maxBytes && e < U64_MAX
    ensures var s := Run(c, events);
            var r := RestartStore(c, s, boot);
            r.process.Some? && (r.process.value.epoch > e <==> Reaches(c, s, e))
  {
    hide EncodeState, SnapshotFile, ReadsBack, Scan, ScanLength, HighestSequence, ApplyAll, Recover, Validated, Run;
    hide AdvancesTo;
    var s := Run(c, events);
    RunSound(c, events);
    EpochsPositive(c, events);
    if s.installed.Some? {
      RecoveredFrom(c, s, e);
    } else {
      NothingToRecover(c, s, Scan(View(s.journal), c.crc));
    }
  }

  /** No process runs, and no commit is attempted, at the reserved epoch 0. */
  ghost predicate Positive(s: System) {
    && (s.process.Some? ==> s.process.value.epoch > 0 && s.process.value.candidate.epoch > 0)
    && forall i :: 0 <= i < |s.attempts| ==> s.attempts[i].epoch > 0
  }

  lemma NextPositive(c: Config, s: System, e: Event)
    requires Positive(s)
    ensures Positive(Next(c, s, e))
  {
    hide EncodeState, SnapshotFile, Validated, EncodeRecord, ApplyAll, CrashImage, Scan, ScanLength, HighestSequence;
    hide ReadSnapshot, RecoveredEpoch, RecoveredSequence, Appendable, Reached;
  }

  lemma {:induction false} EpochsPositive(c: Config, events: seq<Event>)
    ensures Positive(Run(c, events))
  {
    hide Next;
    if |events| == 0 {
      assert Run(c, events) == Init();
    } else {
      EpochsPositive(c, events[..|events| - 1]);
      NextPositive(c, Run(c, events[..|events| - 1]), events[|events| - 1]);
    }
  }

  lemma RecoveredFrom(c: Config, s: System, e: U64)
    requires SnapshotSound(c, s) && s.installed.Some? && ReadsBack(c, s.attempts[s.installed.value]) && e < U64_MAX
    requires s.attempts[s.installed.value].epoch > 0
    ensures Recover(c, s.snapshot, Scan(View(s.journal), c.crc)).epoch > e <==> Reaches(c, s, e)
  {
    hide EncodeState, SnapshotFile, ReadSnapshot, RecoveredEpoch, RecoveredSequence, AdvancesTo, Scan, Validated;
    var a := s.attempts[s.installed.value];
    SnapshotReadBackHere(c, a);
    RecoveredEpochAtLeast(a, Readable(c, s));
    RecoveredEpochExactly(a, Readable(c, s), e);
  }

  lemma SnapshotReadBackHere(c: Config, a: DurableState)
    requires ReadsBack(c, a)
    ensures ReadSnapshot(SnapshotFile(a, c.crc), c.maxBytes, c.crc) == Ok(a)
  {
    hide EncodeState, SnapshotFile, ReadSnapshot;
    SnapshotReadBack(a, c.maxBytes, c.crc);
  }

  // ----- an undisturbed journal ------------------------------------------------------------

  /** Whether, since the journal was last opened or emptied, an append failed
      part-way or the sequence counter wrapped. */
  function DisturbedAfter(c: Config, s: System, disturbed: bool, e: Event): bool {
    match e
    case Proceed =>
      if s.process.Some? && s.process.value.phase.Resetting? then false
      else disturbed || Wraps(s)
    case Refuse(reached) => disturbed || StrayOf(c, s, reached) > 0
    case Restart(boot) => disturbed && !(s.process.None? && RestartStore(c, s, boot).process.Some?)
    case _ => disturbed
  }

  predicate Wraps(s: System) {
    && s.process.Some? && s.process.value.phase.Journalling? && |s.process.value.phase.todo| > 0
    && s.process.value.lastSequence == U64_MAX
  }

  function Disturbed(c: Config, events: seq<Event>): bool {
    if |events| == 0 then false
    else
      var before := events[..|events| - 1];
      DisturbedAfter(c, Run(c, before), Disturbed(c, before), events[|events| - 1])
  }

  /** The file holds intact records only, all of them counted, none numbered
      above the counter. */
  ghost predicate Intact(c: Config, s: System) {
    s.process.Some? ==>
      var b := View(s.journal);
      && ScanLength(b, c.crc) == |b| <= s.process.value.journalBytes
      && HighestSequence(Scan(b, c.crc)) <= s.process.value.lastSequence
  }

  lemma ProceedIntact(c: Config, s: System)
    requires Intact(c, s) && !Wraps(s)
    ensures Intact(c, ProceedCommit(c, s))
  {
    hide ApplyAll, EncodeState, SnapshotFile, Validated, EncodeRecord, Scan, ScanLength, HighestSequence;
    if s.process.Some? {
      var p := s.process.value;
      SettledView(View(s.journal));
      match p.phase
      case Journalling(todo) =>
        if |todo| > 0 && Appendable(c, p, todo[0]) {
          var r := NextRecord(p, todo[0]);
          ViewWritten(s.journal, AppendBytes(EncodeRecord(r, c.crc)));
          ScanSnoc(View(s.journal), r, c.crc);
        }
      case Resetting => ResetIntact(c, s);
      case _ =>
    }
  }

  lemma SettledView(b: Bytes)
    ensures View(File(b, [])) == b
  {
  }

  lemma ResetIntact(c: Config, s: System)
    ensures var w := Written(s.journal, CutTo(0));
            View(w) == [] && ScanLength(View(w), c.crc) == 0 && HighestSequence(Scan(View(w), c.crc)) == 0
  {
    ViewWritten(s.journal, CutTo(0));
    NothingDecodes(c.crc);
  }

  lemma RefuseIntact(c: Config, s: System, reached: nat)
    requires Intact(c, s) && StrayOf(c, s, reached) == 0
    ensures Intact(c, RefuseCommit(c, s, reached))
  {
    hide ApplyAll, EncodeState, SnapshotFile, Validated, Scan, ScanLength, HighestSequence, Reached, Appendable;
    if s.process.Some? {
      var p := s.process.value;
      match p.phase
      case Journalling(todo) =>
        if |todo| > 0 && Appendable(c, p, todo[0]) {
          ViewWritten(s.journal, AppendBytes(Reached(c, p, todo[0], reached)));
          assert View(s.journal) + [] == View(s.journal);
        }
      case Resetting => ResetIntact(c, s);
      case _ =>
    }
  }

  lemma RestartIntact(c: Config, s: System, boot: U64)
    requires s.process.None?
    ensures Intact(c, RestartStore(c, s, boot))
  {
    hide ApplyAll, Scan, ScanLength, HighestSequence, Recover;
    var b := View(s.journal);
    if |b| <= c.maxBytes {
      var n := ScanLength(b, c.crc);
      ScanCut(b, c.crc);
      ViewWritten(s.journal, CutTo(n));
      assert n == |b| ==> b[..n] == b;
    }
  }

  lemma NextIntact(c: Config, s: System, disturbed: bool, e: Event)
    requires !disturbed ==> Intact(c, s)
    ensures !DisturbedAfter(c, s, disturbed, e) ==> Intact(c, Next(c, s, e))
  {
    hide Intact, ProceedCommit, RefuseCommit, RestartStore, StrayOf;
    match e
    case Begin(candidate, entries) => BeginIntact(c, s, candidate, entries);
    case Proceed =>
      if s.process.Some? && s.process.value.phase.Resetting? {
        ResettingIntact(c, s);
      } else if !disturbed && !Wraps(s) {
        ProceedIntact(c, s);
      }
    case Refuse(reached) =>
      if !disturbed && StrayOf(c, s, reached) == 0 {
        RefuseIntact(c, s, reached);
      }
    case Crash(image, temp) => CrashIntact(c, s, e);
    case Restart(boot) =>
      if s.process.None? {
        RestartIntact(c, s, boot);
      } else {
        AlreadyRunning(c, s, boot);
      }
  }

  lemma AlreadyRunning(c: Config, s: System, boot: U64)
    requires s.process.Some?
    ensures RestartStore(c, s, boot) == s
  {
  }

  lemma BeginIntact(c: Config, s: System, candidate: DurableState, entries: seq<Entry>)
    ensures Intact(c, s) ==> Intact(c, BeginCommit(s, candidate, entries))
  {
    hide ApplyAll, Scan, ScanLength, HighestSequence, Validated;
  }

  lemma ResettingIntact(c: Config, s: System)
    requires s.process.Some? && s.process.value.phase.Resetting?
    ensures Intact(c, ProceedCommit(c, s))
  {
    hide ApplyAll, Scan, ScanLength, HighestSequence;
    ResetIntact(c, s);
  }

  lemma CrashIntact(c: Config, s: System, e: Event)
    requires e.Crash?
    ensures Intact(c, s) ==> Intact(c, Next(c, s, e))
  {
    hide ApplyAll, Scan, ScanLength, HighestSequence, CrashImage;
  }

  /** In every run an undisturbed journal is intact. */
  lemma {:induction false} UndisturbedIntact(c: Config, events: seq<Event>)
    ensures !Disturbed(c, events) ==> Intact(c, Run(c, events))
  {
    hide Next, DisturbedAfter, Intact;
    if |events| == 0 {
      assert Run(c, events) == Init();
      CleanStart(c);
    } else {
      var before, last := events[..|events| - 1], events[|events| - 1];
      UndisturbedIntact(c, before);
      NextIntact(c, Run(c, before), Disturbed(c, before), last);
    }
  }

  lemma CleanStart(c: Config)
    ensures Intact(c, Init())
  {
  }

  // ----- the synced advance ------------------------------------------------------------------

  /** A commit begins with one journal record, which is appended and synced; then
      the power goes. */
  function CutShort(c: Config, s: System, candidate: DurableState, entry: Entry): seq<Event> {
    AppendedAndSynced(candidate, entry)
    + [Crash(View(RunFrom(c, s, AppendedAndSynced(candidate, entry)).journal), None)]
  }

  function AppendedAndSynced(candidate: DurableState, entry: Entry): seq<Event> {
    [Begin(candidate, [entry]), Proceed, Proceed]
  }

  /** A commit the store accepts, whose record the journal accepts. */
  ghost predicate Accepts(c: Config, s: System, candidate: DurableState, entry: Entry) {
    && s.process.Some? && s.process.value.phase.Idle?
    && Validated(candidate.(journalSequence := s.process.value.lastSequence))
    && candidate.epoch >= s.process.value.epoch && Appendable(c, s.process.value, entry)
  }

  /** The disk afterwards: the same snapshot, and the record behind the others. */
  lemma CutShortLeaves(c: Config, s: System, candidate: DurableState, entry: Entry)
    requires Accepts(c, s, candidate, entry) && s.snapshotSynced
    ensures var n := RunFrom(c, s, CutShort(c, s, candidate, entry));
            var p := s.process.value;
            && n.process.None? && n.installed == s.installed && n.snapshot == s.snapshot && n.acked == s.acked
            && n.attempts == s.attempts + [candidate.(journalSequence := p.lastSequence)]
            && View(n.journal) == View(s.journal) + EncodeRecord(NextRecord(p, entry), c.crc)
  {
    hide ApplyAll, Validated, EncodeRecord, RunFrom;
    assert [entry][1..] == [];
    var p, r := s.process.value, NextRecord(s.process.value, entry);
    RunThree(c, s, Begin(candidate, [entry]), Proceed, Proceed);
    var m := RunFrom(c, s, [Begin(candidate, [entry]), Proceed, Proceed]);
    ViewWritten(s.journal, AppendBytes(EncodeRecord(r, c.crc)));
    SettledView(View(s.journal) + EncodeRecord(r, c.crc));
    RunSnoc(c, s, [Begin(candidate, [entry]), Proceed, Proceed], Crash(View(m.journal), None));
    EverythingLeft(m.journal);
    SettledView(View(m.journal));
  }

  lemma EverythingLeft(f: File)
    ensures CrashImage(f, View(f))
  {
    assert f.pending[..|f.pending|] == f.pending;
  }

  lemma RunThree(c: Config, s: System, x: Event, y: Event, z: Event)
    ensures RunFrom(c, s, [x, y, z]) == Next(c, Next(c, Next(c, s, x), y), z)
  {
    hide Next;
    RunSnoc(c, s, [], x);
    RunSnoc(c, s, [x], y);
    RunSnoc(c, s, [x, y], z);
    assert [] + [x] == [x] && [x] + [y] == [x, y] && [x, y] + [z] == [x, y, z];
  }

  /** The installed snapshot leaves this advance standing: it has reached its
      epoch already, or it was written before the journal's numbering got here. */
  ghost predicate Stands(s: System, e: U64) {
    && s.process.Some? && s.installed.Some? && s.installed.value < |s.attempts|
    && var a := s.attempts[s.installed.value];
       a.epoch >= e || s.process.value.lastSequence >= a.journalSequence
  }

  /** What a record with the highest number leads recovery to. */
  lemma LastAdvance(a: DurableState, rs: seq<Record>, r: Record, e: U64)
    requires HighestSequence(rs) <= r.sequence && AdvanceOf(r) == e
    ensures AdvancesTo(a, rs + [r], e) || a.epoch >= e <==> Applies(a, r) || a.epoch >= e
  {
    hide AdvanceOf, AdvancesTo;
    AdvancesToSnoc(a, rs, r, e);
    if !Applies(a, r) {
      NoneApplies(a, rs, r.sequence, e);
    }
  }

  lemma {:induction false} NoneApplies(a: DurableState, rs: seq<Record>, n: U64, e: U64)
    requires HighestSequence(rs) <= n <= a.journalSequence
    ensures !AdvancesTo(a, rs, e)
  {
    hide AdvanceOf;
    if |rs| == 0 {
    } else {
      var init, last := rs[..|rs| - 1], rs[|rs| - 1];
      NoneApplies(a, init, n, e);
      AdvancesToSnoc(a, init, last, e);
      assert rs == init + [last];
    }
  }

  /** The conditions under which an advance is followed through a crash: the
      store accepts its commit and nothing disturbed the journal before. */
  ghost predicate Followed(c: Config, events: seq<Event>, candidate: DurableState, entry: Entry, e: U64) {
    var s := Run(c, events);
    && Accepts(c, s, candidate, entry) && s.process.value.lastSequence < U64_MAX
    && !Disturbed(c, events) && |Scan(View(s.journal), c.crc)| < c.maxRecords
    && AdvanceOf(NextRecord(s.process.value, entry)) == e < U64_MAX
    && AllReadBack(c, s.attempts + [candidate.(journalSequence := s.process.value.lastSequence)])
  }

  /** The disk after the crash: the advance is the last record, with the highest
      number, in a file within its bound. */
  lemma SyncedDisk(c: Config, events: seq<Event>, candidate: DurableState, entry: Entry, e: U64)
    requires Followed(c, events, candidate, entry, e)
    ensures var s := Run(c, events);
            var n := Run(c, events + CutShort(c, s, candidate, entry));
            var r := NextRecord(s.process.value, entry);
            && n.process.None? && n.installed == s.installed && n.snapshot == s.snapshot
            && s.attempts <= n.attempts && AllReadBack(c, n.attempts) && |View(n.journal)| <= c.maxBytes
            && Scan(View(n.journal), c.crc) == Scan(View(s.journal), c.crc) + [r]
            && HighestSequence(Scan(View(s.journal), c.crc)) <= r.sequence
  {
    hide ApplyAll, Validated, EncodeRecord, Scan, ScanLength, HighestSequence, RunFrom, Disturbed, AdvanceOf;
    hide ReadsBack, CutShort;
    var s := Run(c, events);
    RunConcat(c, Init(), events, CutShort(c, s, candidate, entry));
    RunFlushed(c, events);
    CutShortLeaves(c, s, candidate, entry);
    UndisturbedIntact(c, events);
    ScanSnoc(View(s.journal), NextRecord(s.process.value, entry), c.crc);
  }

  lemma InstalledBefore(c: Config, events: seq<Event>, more: seq<DurableState>)
    requires Run(c, events).attempts <= more && AllReadBack(c, more)
    ensures SnapshotSound(c, Run(c, events))
  {
    hide ReadsBack, SnapshotFile, Validated, RunFrom;
    RunSound(c, events);
  }

  /** What a crash may leave of the journal once the record was synced. */
  ghost predicate MayBeLeft(c: Config, s: System, candidate: DurableState, entry: Entry, image: Bytes) {
    CrashImage(RunFrom(c, s, AppendedAndSynced(candidate, entry)).journal, image)
  }

  lemma SettledImage(f: File, image: Bytes)
    requires f.pending == [] && CrashImage(f, image)
    ensures image == View(f)
  {
  }

  /** The sync leaves the crash no choice: everything written is on the disk. */
  lemma SyncedImage(c: Config, s: System, candidate: DurableState, entry: Entry, image: Bytes)
    requires Accepts(c, s, candidate, entry) && MayBeLeft(c, s, candidate, entry, image)
    ensures image == View(RunFrom(c, s, AppendedAndSynced(candidate, entry)).journal)
  {
    hide ApplyAll, Validated, EncodeRecord, RunFrom, CrashImage;
    assert [entry][1..] == [];
    RunThree(c, s, Begin(candidate, [entry]), Proceed, Proceed);
    SettledImage(RunFrom(c, s, AppendedAndSynced(candidate, entry)).journal, image);
  }

  /** What is left of the temporary file does not matter to a restart. */
  lemma TempForgotten(c: Config, s: System, image: Bytes, temp: Option<Bytes>, boot: U64)
    requires s.snapshotSynced && CrashImage(s.journal, image)
    ensures Next(c, s, Crash(image, temp)).process.None?
    ensures RestartStore(c, Next(c, s, Crash(image, temp)), boot)
            == (var n := RestartStore(c, Next(c, s, Crash(image, None)), boot);
                if n.process.Some? then n else n.(temp := temp))
  {
    hide ApplyAll, CrashImage, Recover, Scan, ScanLength, HighestSequence;
  }

  lemma BeganFlushed(c: Config, s: System, candidate: DurableState, entry: Entry)
    requires Accepts(c, s, candidate, entry) && s.snapshotSynced
    ensures RunFrom(c, s, AppendedAndSynced(candidate, entry)).snapshotSynced
  {
    hide ApplyAll, Validated, EncodeRecord, RunFrom, Appendable;
    assert [entry][1..] == [];
    RunThree(c, s, Begin(candidate, [entry]), Proceed, Proceed);
  }

  /** An epoch advance that was journalled and synced before the power went
      survives the restart exactly when the installed snapshot leaves it standing,
      whatever the crash leaves behind; without a snapshot the journal is not looked
      at, and the restart runs at the configured epoch. This is over every run whose
      journal is undisturbed and within the number of records recovery replays. */
  lemma SyncedAdvanceSurvives(c: Config, events: seq<Event>, candidate: DurableState, entry: Entry, image: Bytes,
                              temp: Option<Bytes>, boot: U64, e: U64)
    requires Followed(c, events, candidate, entry, e) && MayBeLeft(c, Run(c, events), candidate, entry, image)
    ensures var s := Run(c, events);
            var n := Run(c, events + AppendedAndSynced(candidate, entry) + [Crash(image, temp)]);
            var r := RestartStore(c, n, boot);
            && n.process.None? && r.process.Some?
            && (s.installed.Some? ==> (r.process.value.epoch > e <==> Stands(s, e)))
            && (s.installed.None? ==> r.process.value.epoch == StartEpoch(c))
  {
    hide ApplyAll, EncodeRecord, Scan, RunFrom, Disturbed, AdvanceOf, RestartStore, CutShort, AllReadBack;
    hide SnapshotFile, Validated, Appendable, CrashImage;
    var s, steps := Run(c, events), AppendedAndSynced(candidate, entry);
    AdvanceThroughCut(c, events, candidate, entry, boot, e);
    SyncedImage(c, s, candidate, entry, image);
    RunFlushed(c, events);
    BeganFlushed(c, s, candidate, entry);
    var m := RunFrom(c, s, steps);
    TempForgotten(c, m, image, temp, boot);
    RunConcat(c, Init(), events, steps);
    RunSnoc(c, Init(), events + steps, Crash(image, temp));
    CutIs(c, events, candidate, entry);
  }

  lemma CutIs(c: Config, events: seq<Event>, candidate: DurableState, entry: Entry)
    ensures var s, steps := Run(c, events), AppendedAndSynced(candidate, entry);
            Run(c, events + CutShort(c, s, candidate, entry))
            == Next(c, RunFrom(c, s, steps), Crash(View(RunFrom(c, s, steps).journal), None))
  {
    hide ApplyAll, RunFrom, Next;
    var s, steps := Run(c, events), AppendedAndSynced(candidate, entry);
    RunConcat(c, Init(), events, CutShort(c, s, candidate, entry));
    RunSnoc(c, s, steps, Crash(View(RunFrom(c, s, steps).journal), None));
  }

  lemma AdvanceThroughCut(c: Config, events: seq<Event>, candidate: DurableState, entry: Entry, boot: U64, e: U64)
    requires Followed(c, events, candidate, entry, e)
    ensures var s := Run(c, events);
            var n := Run(c, events + CutShort(c, s, candidate, entry));
            var r := RestartStore(c, n, boot);
            && n.process.None? && r.process.Some?
            && (s.installed.Some? ==> (r.process.value.epoch > e <==> Stands(s, e)))
            && (s.installed.None? ==> r.process.value.epoch == StartEpoch(c))
  {
    hide ApplyAll, EncodeRecord, Scan, HighestSequence, RunFrom, Disturbed, AdvanceOf, AdvancesTo, RestartStore;
    hide CutShort, AllReadBack, SnapshotFile, Validated, Appendable;
    var s := Run(c, events);
    var n := Run(c, events + CutShort(c, s, candidate, entry));
    SyncedDisk(c, events, candidate, entry, e);
    InstalledBefore(c, events, n.attempts);
    if s.installed.Some? {
      var r := NextRecord(s.process.value, entry);
      RestartEpochExactly(c, events + CutShort(c, s, candidate, entry), boot, e);
      LastAdvance(s.attempts[s.installed.value], Scan(View(s.journal), c.crc), r, e);
      ReachesLast(c, s, n, r, e);
    } else {
      StartsOver(c, n, boot);
    }
  }

  lemma ReachesLast(c: Config, s: System, n: System, r: Record, e: U64)
    requires s.installed.Some? && s.installed.value < |s.attempts| && n.installed == s.installed
    requires |s.attempts| <= |n.attempts| && n.attempts[..|s.attempts|] == s.attempts
    requires Scan(View(n.journal), c.crc) == Scan(View(s.journal), c.crc) + [r]
    requires |Scan(View(s.journal), c.crc)| < c.maxRecords
    ensures var a := s.attempts[s.installed.value];
            Reaches(c, n, e) <==> a.epoch >= e || AdvancesTo(a, Scan(View(s.journal), c.crc) + [r], e)
  {
    hide ApplyAll, Scan, AdvancesTo;
    var rs := Scan(View(n.journal), c.crc);
    assert rs[..|rs|] == rs;
    assert n.attempts[s.installed.value] == n.attempts[..|s.attempts|][s.installed.value];
  }

  lemma StartsOver(c: Config, s: System, boot: U64)
    requires s.process.None? && s.snapshot.None? && |View(s.journal)| <= c.maxBytes
    ensures RestartStore(c, s, boot).process.Some? && RestartStore(c, s, boot).process.value.epoch == StartEpoch(c)
  {
    hide Scan, ScanLength, HighestSequence, ApplyAll;
  }

  // ----- what an acknowledgement leaves --------------------------------------------------------

  /** Once the journal is to be retired for good, it reads as empty. */
  ghost predicate Retired(s: System) {
    s.process.Some? && s.process.value.phase.FinalSync? ==> View(s.journal) == []
  }

  lemma NextRetired(c: Config, s: System, e: Event)
    requires Retired(s)
    ensures Retired(Next(c, s, e))
  {
    hide ApplyAll, EncodeState, SnapshotFile, Validated, EncodeRecord, CrashImage, Recover, Scan, ScanLength;
    hide HighestSequence;
    ViewWritten(s.journal, CutTo(0));
  }

  lemma {:induction false} RunRetired(c: Config, events: seq<Event>)
    ensures Retired(Run(c, events))
  {
    hide Next;
    if |events| == 0 {
      assert Run(c, events) == Init();
    } else {
      RunRetired(c, events[..|events| - 1]);
      NextRetired(c, Run(c, events[..|events| - 1]), events[|events| - 1]);
    }
  }

  /** In every run, the step that acknowledges a commit leaves a journal that no
      crash brings back: whatever is left afterwards, it is empty. */
  lemma AcknowledgedRetires(c: Config, events: seq<Event>, image: Bytes)
    requires var s := Run(c, events); s.process.Some? && s.process.value.phase.FinalSync? && |s.attempts| > 0
    ensures var s, n := Run(c, events), Run(c, events + [Proceed]);
            && n.acked == s.acked + [|s.attempts| - 1]
            && (CrashImage(n.journal, image) ==> image == [])
  {
    hide RunFrom, CrashImage, ApplyAll;
    RunRetired(c, events);
    RunSnoc(c, Init(), events, Proceed);
    var n := Run(c, events + [Proceed]);
    SettledView([]);
    if CrashImage(n.journal, image) {
      SettledImage(n.journal, image);
    }
  }
}
