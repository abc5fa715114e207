/** How large the journal file can grow (src/journal.cpp, src/store.cpp). A
    failed append may leave bytes in the file that the journal does not count,
    so the file can outgrow the bound that open() enforces. */
module StoreGrowth {
  import opened Base
  import opened Framing
  import opened JournalLog
  import opened DurableSnapshot
  import opened StoreCrash

  // ----- stray bytes ------------------------------------------------------------------

  /** Bytes a refused step leaves in the file uncounted. */
  function StrayOf(c: Config, s: System, reached: nat): nat {
    if s.process.Some? && s.process.value.phase.Journalling? && |s.process.value.phase.todo| > 0
       && Appendable(c, s.process.value, s.process.value.phase.todo[0])
    then |Reached(c, s.process.value, s.process.value.phase.todo[0], reached)|
    else 0
  }

  /** Opening starts counting anew; only refused appends leave stray bytes. */
  function StrayAfter(c: Config, s: System, stray: nat, e: Event): nat {
    match e
    case Refuse(reached) => stray + StrayOf(c, s, reached)
    case Restart(boot) => if s.process.None? && RestartStore(c, s, boot).process.Some? then 0 else stray
    case _ => stray
  }

  /** Stray bytes written since the store was last opened. */
  function Stray(c: Config, events: seq<Event>): nat {
    if |events| == 0 then 0
    else
      var before := events[..|events| - 1];
      StrayAfter(c, Run(c, before), Stray(c, before), events[|events| - 1])
  }

  // ----- what a crash can leave ---------------------------------------------------------

  /** Every state the file passes through on its way to the latest is this short. */
  ghost predicate ImagesWithin(f: File, n: nat) {
    forall k :: 0 <= k <= |f.pending| ==> |ApplyAll(f.stable, f.pending[..k])| <= n
  }

  lemma CrashImageWithin(f: File, n: nat, image: Bytes)
    requires ImagesWithin(f, n) && CrashImage(f, image)
    ensures |image| <= n
  {
    hide ApplyAll;
    var k :| 0 <= k <= |f.pending| && (
      || image == ApplyAll(f.stable, f.pending[..k])
      || (k < |f.pending| && f.pending[k].AppendBytes?
          && TornBy(ApplyAll(f.stable, f.pending[..k]), f.pending[k].bytes, image)));
    if image != ApplyAll(f.stable, f.pending[..k]) {
      ApplyNext(f, k);
      assert |ApplyAll(f.stable, f.pending[..k + 1])| <= n;
    }
  }

  lemma ApplyNext(f: File, k: nat)
    requires k < |f.pending|
    ensures ApplyAll(f.stable, f.pending[..k + 1]) == Apply(ApplyAll(f.stable, f.pending[..k]), f.pending[k])
  {
    assert f.pending[..k + 1][..k] == f.pending[..k];
  }

  lemma ViewWithin(f: File, n: nat)
    requires ImagesWithin(f, n)
    ensures |View(f)| <= n
  {
    assert f.pending[..|f.pending|] == f.pending;
  }

  lemma ViewWritten(f: File, op: WriteOp)
    ensures View(Written(f, op)) == Apply(View(f), op)
  {
    assert (f.pending + [op])[..|f.pending|] == f.pending;
  }

  lemma WrittenWithin(f: File, op: WriteOp, n: nat)
    requires ImagesWithin(f, n) && |Apply(View(f), op)| <= n
    ensures ImagesWithin(Written(f, op), n)
  {
    var w := Written(f, op);
    forall k | 0 <= k <= |w.pending| ensures |ApplyAll(w.stable, w.pending[..k])| <= n {
      if k < |w.pending| {
        assert w.pending[..k] == f.pending[..k];
      } else {
        assert w.pending[..k] == w.pending;
        ViewWritten(f, op);
      }
    }
  }

  lemma SettledWithin(b: Bytes, n: nat)
    requires |b| <= n
    ensures ImagesWithin(File(b, []), n) && View(File(b, [])) == b
  {
  }

  lemma WithinMore(f: File, n: nat, m: nat)
    requires ImagesWithin(f, n) && n <= m
    ensures ImagesWithin(f, m)
  {
    hide ApplyAll;
  }

  // ----- what every step keeps -----------------------------------------------------------

  /** With so many stray bytes: the file, and whatever a crash leaves of it, is
      within the bound plus the stray bytes; while a process runs, it is within
      what the process counts plus the stray bytes. */
  ghost predicate Grown(c: Config, s: System, stray: nat) {
    && ImagesWithin(s.journal, c.maxBytes + stray)
    && (s.process.None? ==> s.journal.pending == [])
    && (s.process.Some? ==>
          s.process.value.journalBytes <= c.maxBytes && |View(s.journal)| <= s.process.value.journalBytes + stray)
  }

  lemma ProceedGrown(c: Config, s: System, stray: nat)
    requires Grown(c, s, stray)
    ensures Grown(c, ProceedCommit(c, s), stray)
  {
    hide ImagesWithin, ApplyAll, EncodeState, SnapshotFile, Validated, EncodeRecord;
    if s.process.Some? {
      var p := s.process.value;
      ViewWithin(s.journal, c.maxBytes + stray);
      SettledWithin(View(s.journal), c.maxBytes + stray);
      match p.phase
      case Journalling(todo) =>
        if |todo| > 0 && Appendable(c, p, todo[0]) {
          var e := AppendBytes(EncodeRecord(NextRecord(p, todo[0]), c.crc));
          ViewWritten(s.journal, e);
          WrittenWithin(s.journal, e, c.maxBytes + stray);
        }
      case Resetting =>
        ViewWritten(s.journal, CutTo(0));
        WrittenWithin(s.journal, CutTo(0), c.maxBytes + stray);
      case _ =>
    }
  }

  lemma RefuseGrown(c: Config, s: System, stray: nat, reached: nat)
    requires Grown(c, s, stray)
    ensures Grown(c, RefuseCommit(c, s, reached), stray + StrayOf(c, s, reached))
  {
    hide ImagesWithin, ApplyAll, EncodeState, SnapshotFile, Validated, Reached, Appendable;
    if s.process.Some? {
      var p, n := s.process.value, c.maxBytes + stray + StrayOf(c, s, reached);
      WithinMore(s.journal, c.maxBytes + stray, n);
      match p.phase
      case Journalling(todo) =>
        if |todo| > 0 && Appendable(c, p, todo[0]) {
          var e := AppendBytes(Reached(c, p, todo[0], reached));
          ViewWritten(s.journal, e);
          WrittenWithin(s.journal, e, n);
        }
      case Resetting =>
        ViewWritten(s.journal, CutTo(0));
        WrittenWithin(s.journal, CutTo(0), n);
      case _ =>
    }
  }

  lemma RestartGrown(c: Config, s: System, stray: nat, boot: U64)
    requires Grown(c, s, stray)
    ensures Grown(c, RestartStore(c, s, boot), StrayAfter(c, s, stray, Restart(boot)))
  {
    hide ImagesWithin, ApplyAll, Scan, ScanLength, HighestSequence, Recover;
    var b := View(s.journal);
    if s.process.None? && |b| <= c.maxBytes {
      SettledIs(s.journal);
      SettledWithin(b, c.maxBytes);
      var n := ScanLength(b, c.crc);
      ViewWritten(s.journal, CutTo(n));
      WrittenWithin(s.journal, CutTo(n), c.maxBytes);
    }
  }

  lemma SettledIs(f: File)
    requires f.pending == []
    ensures f == File(View(f), [])
  {
  }

  lemma NextGrown(c: Config, s: System, stray: nat, e: Event)
    requires Grown(c, s, stray)
    ensures Grown(c, Next(c, s, e), StrayAfter(c, s, stray, e))
  {
    hide ImagesWithin, ProceedCommit, RefuseCommit, RestartStore, CrashImage, ApplyAll, Validated;
    match e
    case Begin(candidate, entries) =>
    case Proceed => ProceedGrown(c, s, stray);
    case Refuse(reached) => RefuseGrown(c, s, stray, reached);
    case Crash(image, temp) =>
      if CrashImage(s.journal, image) {
        CrashImageWithin(s.journal, c.maxBytes + stray, image);
        SettledWithin(image, c.maxBytes + stray);
      }
    case Restart(boot) => RestartGrown(c, s, stray, boot);
  }

  /** In every run the journal file exceeds its bound by at most the stray bytes
      written since the store was last opened. */
  lemma {:induction false} JournalGrowth(c: Config, events: seq<Event>)
    ensures Grown(c, Run(c, events), Stray(c, events))
    ensures |View(Run(c, events).journal)| <= c.maxBytes + Stray(c, events)
  {
    hide Next, StrayAfter, ImagesWithin;
    if |events| == 0 {
      SettledWithin([], c.maxBytes);
    } else {
      var before, last := events[..|events| - 1], events[|events| - 1];
      JournalGrowth(c, before);
      NextGrown(c, Run(c, before), Stray(c, before), last);
    }
    ViewWithin(Run(c, events).journal, c.maxBytes + Stray(c, events));
  }

  // ----- when a restart succeeds ------------------------------------------------------------

  /** A restart succeeds exactly when the journal file is within its bound; and
      it always is when no append failed part-way since the store was opened. */
  lemma RestartSucceeds(c: Config, events: seq<Event>, boot: U64)
    requires Run(c, events).process.None?
    ensures RestartStore(c, Run(c, events), boot).process.Some? <==> |View(Run(c, events).journal)| <= c.maxBytes
    ensures Stray(c, events) == 0 ==> RestartStore(c, Run(c, events), boot).process.Some?
  {
    hide Run, Stray, Recover, Scan, ScanLength, HighestSequence;
    JournalGrowth(c, events);
  }

  /** Crash safety without looking at the file: enough room for every state, and
      no append that failed part-way since the store was opened. */
  lemma CrashSafetyWithoutStrayBytes(c: Config, events: seq<Event>, boot: U64)
    requires c.maxBytes >= MAX_STATE_BYTES + 32 && Stray(c, events) == 0 && Run(c, events).process.None?
    ensures var s := Run(c, events);
            var r := RestartStore(c, s, boot);
            && r.process.Some? && AboveAcked(s, r.process.value)
            && (StartsEmpty(c, s, r.process.value) || exists i: nat :: Restores(s, r.process.value, i))
  {
    hide Run, Stray, RestartStore;
    LargeBoundReadsBack(c, events);
    JournalGrowth(c, events);
    CrashSafety(c, events, boot);
  }
}
