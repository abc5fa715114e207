/** The store object (src/store.cpp): it drives a journal object and a snapshot
    file, and every call is a run of the steps of StoreCrash. */
module StoreRuntime {
  import opened Base
  import opened Framing
  import opened JournalLog
  import opened DurableSnapshot
  import opened StoreCrash
  import opened StoreGrowth

  /** How each input/output step of a commit ends, in order. */
  type Outcomes = nat -> AppendIo

  class Store {
    const config: Config
    const journal: Journal
    var snapshot: Option<Bytes>
    var temp: Option<Bytes>
    /** The state of the crash machine this object stands for. */
    ghost var state: System

    ghost predicate Valid()
      reads this, journal
    {
      && journal.crc == config.crc && journal.maxBytes == config.maxBytes
      && journal.Content() == View(state.journal) && snapshot == state.snapshot && temp == state.temp
      && (journal.open <==> state.process.Some?)
      && (journal.open ==>
            && journal.bytes == state.process.value.journalBytes
            && journal.lastSequence == state.process.value.lastSequence)
    }

    /** A new process over what is on disk. */
    constructor (config: Config, disk: System)
      requires disk.process.None?
      ensures Valid() && state == disk && this.config == config && fresh(journal)
    {
      this.config := config;
      journal := new Journal(config.maxBytes, config.crc, Some(View(disk.journal)));
      snapshot, temp, state := disk.snapshot, disk.temp, disk;
    }

    /** open and recover: the restart of the crash machine, with the epoch and
        the history the governor goes on with. */
    method OpenAndRecover(boot: U64) returns (r: Option<Recovered>)
      requires Valid() && state.process.None?
      modifies this, journal
      ensures Valid() && state == RestartStore(config, old(state), boot)
      ensures r.Some? <==> state.process.Some?
      ensures r.Some? ==> r.value == Recover(config, old(state).snapshot, Scan(View(old(state).journal), config.crc))
    {
      hide Scan, ScanLength, HighestSequence, ApplyAll, ReadSnapshot, RecoveredEpoch, RecoveredSequence;
      ghost var b := View(state.journal);
      var error := journal.Open();
      if error.Some? {
        return None;
      }
      temp := None;
      var n := ScanLength(b, config.crc);
      ViewWritten(state.journal, CutTo(n));
      assert n == |b| ==> b[..n] == b;
      state := RestartStore(config, state, boot);
      if snapshot.None? {
        return Some(Recovered(None, StartEpoch(config)));
      }
      var read := ReadSnapshot(snapshot.value, config.maxBytes, config.crc);
      if read.Err? {
        return Some(Recovered(None, StartEpoch(config)));
      }
      var records := journal.Replay(config.maxRecords);
      var last, highest, applied := ReplayOnTop(read.value, records);
      r := Some(Recovered(Some(read.value.(journalSequence := highest)),
          if last != 0 then Succ(last) else StartEpoch(config)));
    }

    /** The commit in progress, as the crash machine sees it. */
    ghost predicate In(phase: Phase)
      reads this, journal
    {
      Valid() && state.process.Some? && state.process.value.phase == phase
    }

    /** One journal record: appended, refused by a bound, or failed part-way. */
    method AppendStep(ghost todo: seq<Entry>, e: Entry, io: AppendIo) returns (ok: bool, ghost event: Event)
      requires In(Journalling(todo)) && |todo| > 0 && todo[0] == e
      requires io.Failed? ==> io.reached <= RECORD_HEADER_BYTES + |e.payload|
      modifies this, journal
      ensures event == Proceed || event.Refuse?
      ensures state == Next(config, old(state), event)
      ensures if ok then In(Journalling(todo[1..])) else In(Idle)
      ensures Unacknowledged(old(state), state)
    {
      hide ApplyAll, EncodeRecord;
      ghost var p := state.process.value;
      ghost var r := NextRecord(p, e);
      PrefixLength(r, config.crc);
      var error := journal.Append(e.kind, e.payload, e.at, io);
      event := if io.Failed? && Appendable(config, p, e) then Refuse(io.reached) else Proceed;
      ghost var bytes := if event.Refuse? then Reached(config, p, e, io.reached) else EncodeRecord(r, config.crc);
      ViewWritten(state.journal, AppendBytes(bytes));
      assert io.Failed? ==> EncodeRecord(r, config.crc)[..io.reached] == Reached(config, p, e, io.reached);
      state := Next(config, state, event);
      ok := error.None?;
    }

    /** A step that only moves the commit on, or gives it up: a sync or the
        rename of the temporary file. */
    method SettleStep(ghost phase: Phase, works: bool) returns (ghost event: Event)
      requires In(phase) && phase in {Journalling([]), SyncingTemp, FinalSync} && |state.attempts| > 0
      modifies this
      ensures event == (if works then Proceed else Refuse(0)) && state == Next(config, old(state), event)
      ensures works ==> In(match phase case Journalling(_) => WritingTemp case SyncingTemp => Renaming case _ => Idle)
      ensures !works ==> In(Idle)
      ensures if works && phase == FinalSync then Acknowledged(old(state), state) else Unacknowledged(old(state), state)
    {
      hide ApplyAll;
      SettledWithin(View(state.journal), |View(state.journal)|);
      event := if works then Proceed else Refuse(0);
      state := Next(config, state, event);
    }

    /** The temporary snapshot: written, too large, or written in part. */
    method WriteTempStep(candidate: DurableState, io: AppendIo) returns (ok: bool, ghost event: Event)
      requires In(WritingTemp) && state.process.value.candidate == candidate && Validated(candidate)
      modifies this
      ensures event == Proceed || event.Refuse?
      ensures state == Next(config, old(state), event)
      ensures Unacknowledged(old(state), state)
      ensures In(if ok then SyncingTemp else Idle)
    {
      hide ApplyAll, EncodeState, SnapshotFile, Validated;
      if |EncodeState(candidate)| > config.maxBytes {
        event := Proceed;
        ok := false;
      } else {
        var file := SnapshotFile(candidate, config.crc);
        match io {
          case Wrote =>
            temp := Some(file);
            event := Proceed;
            ok := true;
          case Failed(reached) =>
            temp := Some(if reached < |file| then file[..reached] else file);
            event := Refuse(reached);
            ok := false;
        }
      }
      state := Next(config, state, event);
    }

    /** The atomic rename. */
    method RenameStep(works: bool) returns (ghost event: Event)
      requires In(Renaming)
      modifies this
      ensures event == (if works then Proceed else Refuse(0)) && state == Next(config, old(state), event)
      ensures In(if works then Resetting else Idle)
      ensures Unacknowledged(old(state), state)
    {
      hide ApplyAll;
      if works {
        snapshot, temp := temp, None;
      }
      event := if works then Proceed else Refuse(0);
      state := Next(config, state, event);
    }

    /** Retiring the journal. */
    method ResetStep(io: AppendIo) returns (ok: bool, ghost event: Event)
      requires In(Resetting)
      modifies this, journal
      ensures event == (if io.Wrote? then Proceed else Refuse(io.reached)) && state == Next(config, old(state), event)
      ensures ok == io.Wrote? && In(if ok then FinalSync else Idle)
      ensures Unacknowledged(old(state), state)
    {
      hide ApplyAll;
      ViewWritten(state.journal, CutTo(0));
      var error := journal.Reset(io);
      event := if io.Wrote? then Proceed else Refuse(io.reached);
      state := Next(config, state, event);
      ok := error.None?;
    }

    /** Step 1 of commit: every record, until one is refused. */
    method JournalEntries(entries: seq<Entry>, io: Outcomes) returns (ok: bool, ghost events: seq<Event>)
      requires In(Journalling(entries))
      modifies this, journal
      ensures state == RunFrom(config, old(state), events) && Steps(events)
      ensures In(if ok then Journalling([]) else Idle)
      ensures Unacknowledged(old(state), state)
    {
      hide RunFrom, Next, View;
      events, ok := [], true;
      ghost var first := state;
      RunNothing(config, state);
      for k := 0 to |entries|
        invariant In(Journalling(entries[k..])) && Steps(events) && ok
        invariant state == RunFrom(config, first, events) && Unacknowledged(first, state)
      {
        ghost var event;
        ok, event := AppendStep(entries[k..], entries[k], Clip(io(k), RECORD_HEADER_BYTES + |entries[k].payload|));
        assert entries[k..][1..] == entries[k + 1..];
        RunSnoc(config, first, events, event);
        events := events + [event];
        if !ok {
          return;
        }
      }
    }

    /** Step 2 of commit: sync the journal, write the snapshot beside the old
        one, sync it and rename it. */
    method ReplaceSnapshot(candidate: DurableState, io: Outcomes) returns (ok: bool, ghost events: seq<Event>)
      requires In(Journalling([])) && |state.attempts| > 0
      requires state.process.value.candidate == candidate && Validated(candidate)
      modifies this
      ensures state == RunFrom(config, old(state), events) && Steps(events)
      ensures In(if ok then Resetting else Idle)
      ensures Unacknowledged(old(state), state)
    {
      hide RunFrom, Next, Validated, View;
      ok, events := false, [];
      ghost var first, event := state, Proceed;
      RunNothing(config, state);
      event := SettleStep(Journalling([]), io(0).Wrote?);
      RunSnoc(config, first, events, event);
      events := events + [event];
      if io(0).Failed? {
        return;
      }
      ok, event := WriteTempStep(candidate, io(1));
      RunSnoc(config, first, events, event);
      events := events + [event];
      if !ok {
        return;
      }
      event := SettleStep(SyncingTemp, io(2).Wrote?);
      RunSnoc(config, first, events, event);
      events := events + [event];
      if io(2).Failed? {
        return false, events;
      }
      event := RenameStep(io(3).Wrote?);
      RunSnoc(config, first, events, event);
      events := events + [event];
      ok := io(3).Wrote?;
    }

    /** Step 3 of commit: retire the journal and sync it. */
    method RetireJournal(io: Outcomes) returns (ok: bool, ghost events: seq<Event>)
      requires In(Resetting) && |state.attempts| > 0
      modifies this, journal
      ensures state == RunFrom(config, old(state), events) && Steps(events) && In(Idle)
      ensures if ok then Acknowledged(old(state), state) else Unacknowledged(old(state), state)
    {
      hide RunFrom, Next, View;
      events := [];
      ghost var first, event := state, Proceed;
      RunNothing(config, state);
      ok, event := ResetStep(io(0));
      RunSnoc(config, first, events, event);
      events := events + [event];
      if !ok {
        return;
      }
      event := SettleStep(FinalSync, io(1).Wrote?);
      RunSnoc(config, first, events, event);
      events := events + [event];
      ok := io(1).Wrote?;
    }

    /** commit: one Begin of the crash machine and its steps up to the first that
        does not go through; it succeeds exactly when the attempt is
        acknowledged. */
    method Commit(candidate: DurableState, entries: seq<Entry>, journalIo: Outcomes, snapshotIo: Outcomes,
        retireIo: Outcomes)
      returns (ok: bool, ghost events: seq<Event>)
      requires In(Idle) && candidate.epoch >= state.process.value.epoch
      requires candidate.journalSequence == journal.lastSequence
      modifies this, journal
      ensures In(Idle) && state == RunFrom(config, old(state), [Begin(candidate, entries)] + events) && Steps(events)
      ensures state.attempts == old(state).attempts + if Validated(candidate) then [candidate] else []
      ensures state.acked == old(state).acked + if ok then [|old(state).attempts|] else []
      ensures state.process.value.epoch == if ok then candidate.epoch else old(state).process.value.epoch
      ensures ok ==> Validated(candidate)
    {
      hide RunFrom, Validated, View, ProceedCommit, RefuseCommit;
      ghost var first := state;
      ok, events := false, [];
      RunOne(config, first, Begin(candidate, entries));
      state := BeginCommit(state, candidate, entries);
      if !Validated(candidate) {
        assert [Begin(candidate, entries)] + events == [Begin(candidate, entries)];
        return;
      }
      ghost var more: seq<Event>;
      ok, events := JournalEntries(entries, journalIo);
      RunConcat(config, first, [Begin(candidate, entries)], events);
      if !ok {
        return;
      }
      ok, more := ReplaceSnapshot(candidate, snapshotIo);
      RunMore(config, first, Begin(candidate, entries), events, more);
      events := events + more;
      if !ok {
        return;
      }
      ok, more := RetireJournal(retireIo);
      RunMore(config, first, Begin(candidate, entries), events, more);
      events := events + more;
    }
  }

  lemma RunMore(c: Config, s: System, begin: Event, events: seq<Event>, more: seq<Event>)
    ensures RunFrom(c, s, [begin] + (events + more)) == RunFrom(c, RunFrom(c, s, [begin] + events), more)
  {
    hide RunFrom;
    RunConcat(c, s, [begin] + events, more);
    assert [begin] + (events + more) == [begin] + events + more;
  }

  /** Steps of a commit: going on, or giving up. */
  ghost predicate Steps(events: seq<Event>) {
    forall k :: 0 <= k < |events| ==> events[k] == Proceed || events[k].Refuse?
  }

  function Clip(io: AppendIo, n: nat): (r: AppendIo)
    ensures r.Failed? ==> r.reached <= n
  {
    if io.Failed? && io.reached > n then Failed(n) else io
  }

  lemma RunNothing(c: Config, s: System)
    ensures RunFrom(c, s, []) == s
  {
  }

  /** The commit goes on or is given up, and nothing is acknowledged. */
  ghost predicate Unacknowledged(s: System, n: System) {
    && n.attempts == s.attempts && n.acked == s.acked && s.process.Some? && n.process.Some?
    && n.process.value.candidate == s.process.value.candidate && n.process.value.epoch == s.process.value.epoch
  }

  /** The latest attempt is acknowledged and its epoch is the store's. */
  ghost predicate Acknowledged(s: System, n: System) {
    && n.attempts == s.attempts && n.acked == s.acked + [|s.attempts| - 1] && s.process.Some? && n.process.Some?
    && n.process.value.candidate == s.process.value.candidate
        && n.process.value.epoch == s.process.value.candidate.epoch
  }
}
