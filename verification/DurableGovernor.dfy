/** The governor over its store (src/governor.cpp, src/store.cpp): an epoch is
    durable before it is live, and after a crash no frame of an acknowledged
    epoch is accepted again. */
module DurableGovernor {
  import opened Base
  import Framing
  import Detection
  import JournalLog
  import opened DurableSnapshot
  import opened StoreCrash
  import opened StoreRuntime
  import Protocol = GovernorProtocol
  import Theorems = GovernorTheorems
  import Runtime = GovernorRuntime

  // ----- what recovery tells the governor ------------------------------------------------

  /** recover() of the store, as the governor sees it: the recovered epoch, or
      none when there is no snapshot it can read. */
  function RecoveryOf(c: Config, s: System): Protocol.Recovery {
    if s.snapshot.None? then Protocol.Restored(0)
    else
      var r := ReadSnapshot(s.snapshot.value, c.maxBytes, c.crc);
      var rs := JournalLog.Scan(View(s.journal), c.crc);
      Protocol.Restored(if r.Err? then 0 else RecoveredEpoch(r.value, rs[..Min(|rs|, c.maxRecords)]))
  }

  /** The governor takes up the epoch the restarted store stands at. */
  lemma SameEpoch(c: Config, s: System, cfg: Protocol.Config, g: Protocol.Gov, boot: U64)
    requires cfg.initialEpoch == c.initialEpoch
    ensures Protocol.Restarted(cfg, g, RecoveryOf(c, s), boot).epoch
            == Recover(c, s.snapshot, JournalLog.Scan(View(s.journal), c.crc)).epoch
  {
    hide ReadSnapshot, RecoveredEpoch, RecoveredSequence, JournalLog.Scan, View;
  }

  /** A governor started over this disk, and everything it does until its next
      restart. */
  function After(c: Config, s: System, boot: U64, more: seq<Protocol.Event>): seq<Protocol.Event> {
    [Protocol.Recover(RecoveryOf(c, s), boot)] + more
  }

  lemma StartedEpoch(c: Config, s: System, cfg: Protocol.Config, boot: U64, more: seq<Protocol.Event>)
    requires cfg.initialEpoch == c.initialEpoch && Theorems.NoRecover(more)
    ensures Protocol.Run(cfg, After(c, s, boot, more)).epoch
            >= Recover(c, s.snapshot, JournalLog.Scan(View(s.journal), c.crc)).epoch
  {
    hide Recover, RecoveryOf, Protocol.Next, View, JournalLog.Scan;
    var events := After(c, s, boot, more);
    assert events[1..] == more;
    Theorems.RunAdvances(cfg, events, 1);
    SameEpoch(c, s, cfg, Protocol.FRESH, boot);
    FirstEvent(cfg, events);
  }

  lemma FirstEvent(cfg: Protocol.Config, events: seq<Protocol.Event>)
    requires |events| > 0 && events[0].Recover?
    ensures Protocol.Run(cfg, events[..1]).epoch
            == Protocol.Restarted(cfg, Protocol.FRESH, events[0].outcome, events[0].boot).epoch
  {
    hide Detection.ValidEvidence, Detection.Observe;
    var first := events[..1];
    assert first == [events[0]] && first[..0] == [];
    assert Protocol.Run(cfg, first[..0]) == Protocol.FRESH;
  }

  /** A commit at an epoch was acknowledged, and the power went. However long the
      restarted governor runs, it refuses every stream frame of that epoch and is
      not changed by it. */
  lemma AcknowledgedEpochFenced(c: Config, events: seq<Event>, k: nat, cfg: Protocol.Config, boot: U64,
                                more: seq<Protocol.Event>, f: Framing.Frame)
    requires AllReadBack(c, Run(c, events).attempts) && Run(c, events).process.None?
    requires |View(Run(c, events).journal)| <= c.maxBytes && cfg.initialEpoch == c.initialEpoch
    requires k < |Run(c, events).acked| && Theorems.NoRecover(more) && Protocol.StreamOf(f.header.kind).Some?
    requires var s := Run(c, events); s.acked[k] < |s.attempts| ==>
        f.header.epoch == s.attempts[s.acked[k]].epoch < U64_MAX
    ensures var g := Protocol.Run(cfg, After(c, Run(c, events), boot, more));
            var r := Protocol.Admitted(cfg, g, f);
            && r.error.Some? && r.gov == g
            && (Framing.VerifyPayload(f.header, f.payload, cfg.crc).None? ==> r.error == Some(StaleEpoch))
  {
    hide Run, Recover, After, Protocol.Run, Framing.VerifyPayload, JournalLog.Scan, JournalLog.ScanLength;
    hide JournalLog.HighestSequence, AllReadBack, View, Protocol.Install, Protocol.AllResolve;
    var s := Run(c, events);
    CrashSafety(c, events, boot);
    StartedEpoch(c, s, cfg, boot, more);
    assert AboveAcked(s, RestartStore(c, s, boot).process.value);
  }

  // ----- durable before live -------------------------------------------------------------------

  /** The store is idle at the governor's epoch. */
  ghost predicate Linked(g: Runtime.Governor, store: Store)
    reads g, g.tracker, store, store.journal
  {
    g.Valid() && store.In(Idle) && store.state.process.value.epoch == g.epoch
  }

  /** install_epoch with a store: the advance is journalled and the state with the
      new epoch committed first. The epoch becomes live only once a commit at that
      epoch is acknowledged; if the commit fails, the governor is unchanged. */
  method InstallDurably(g: Runtime.Governor, store: Store, durable: DurableState, epoch: U64, coordinatorBoot: U64,
                        now: I64, journalIo: Outcomes, snapshotIo: Outcomes, retireIo: Outcomes)
    returns (error: Option<ErrorCode>, next: DurableState)
    requires Linked(g, store) && {g, g.tracker} !! {store, store.journal}
    modifies g, store, store.journal
    ensures Linked(g, store)
    ensures error.Some? ==>
      g.State() == old(g.State()) && next == durable && store.state.acked == old(store.state).acked
    ensures error.None? ==>
      && g.epoch == epoch >= old(g.epoch) && next.epoch == epoch
      && store.state.attempts == old(store.state).attempts + [next]
      && store.state.acked == old(store.state).acked + [|old(store.state).attempts|]
  {
    hide Protocol.FenceAll, Detection.ValidEvidence, Validated;
    next := durable;
    if epoch == 0 || epoch < g.epoch {
      error := g.InstallEpoch(epoch, coordinatorBoot, None);
      return;
    }
    var boot := if coordinatorBoot != 0 then coordinatorBoot else g.boot;
    var candidate := durable.(boot := boot, epoch := epoch, writtenAt := now,
        journalSequence := store.journal.lastSequence);
    var advance := Entry(EPOCH_ADVANCE, EncodeEpoch(epoch), now);
    ghost var events;
    var ok;
    ok, events := store.Commit(candidate, [advance], journalIo, snapshotIo, retireIo);
    error := g.InstallEpoch(epoch, coordinatorBoot, if ok then None else Some(PersistenceIoError));
    if ok {
      next := candidate;
    }
  }
}
