/** Heartbeats (src/governor.cpp): what fences them, where that differs from the
    epoch fence of stream frames, and what they do to later frames. */
module Heartbeats {
  import opened Base
  import Framing
  import opened Detection
  import opened GovernorProtocol
  import opened GovernorTheorems

  predicate IsHeartbeat(f: Framing.Frame) { f.header.kind == HEARTBEAT }

  predicate Undamaged(cfg: Config, f: Framing.Frame) {
    Framing.VerifyPayload(f.header, f.payload, cfg.crc).None?
  }

  /** A live publisher of this incarnation and boot, with nothing newer seen;
      sequence 0 claims no place in the order. */
  predicate FromLive(g: Gov, h: Framing.FrameHeader) {
    && h.publisher in g.publishers
    && var p := g.publishers[h.publisher];
       && p.alive && h.incarnation == p.incarnation && h.boot == p.boot
       && (h.sequence == 0 || h.sequence > p.lastSequence)
  }

  /** A heartbeat is accepted exactly when it is undamaged and comes from a live
      publisher in order. It moves that publisher's sequence, unless it claims
      none, and nothing else; a refused one moves nothing. */
  lemma HeartbeatExactly(cfg: Config, g: Gov, f: Framing.Frame)
    requires IsHeartbeat(f)
    ensures var r, h := Admitted(cfg, g, f), f.header;
            && (r.error.None? <==> Undamaged(cfg, f) && FromLive(g, h))
            && (r.error.Some? ==> r.gov == g)
            && (r.error.None? ==>
                  && r.gov == g.(publishers := r.gov.publishers) && r.gov.publishers.Keys == g.publishers.Keys
                  && (forall id :: id in g.publishers && id != h.publisher ==> r.gov.publishers[id] == g.publishers[id])
                  && var p, q := g.publishers[h.publisher], r.gov.publishers[h.publisher];
                     && q == p.(lastSequence := q.lastSequence)
                     && q.lastSequence == if h.sequence == 0 then p.lastSequence else h.sequence)
  {
    hide Framing.VerifyPayload;
  }

  /** The rule stream frames live under, applied to a heartbeat. */
  predicate EpochFenced(cfg: Config, g: Gov, f: Framing.Frame) {
    Undamaged(cfg, f) && FromLive(g, f.header) && f.header.epoch == g.epoch
  }

  /** Heartbeats do not have the epoch fence: acceptance agrees with it exactly
      when the heartbeat names the installed epoch or is refused anyway. */
  lemma EpochFenceAgrees(cfg: Config, g: Gov, f: Framing.Frame)
    requires IsHeartbeat(f)
    ensures (Admitted(cfg, g, f).error.None? <==> EpochFenced(cfg, g, f)) <==>
            f.header.epoch == g.epoch || !Undamaged(cfg, f) || !FromLive(g, f.header)
  {
    hide Framing.VerifyPayload, FromLive, Admitted;
    HeartbeatExactly(cfg, g, f);
  }

  // ----- a heartbeat from another epoch ----------------------------------------------------

  /** Epoch 5 is installed and publisher 1 registers. */
  const REGISTERED: seq<Event> := [Recover(NoStore, 1), InstallEpoch(5, 0, None), Register(1, 1, 1)]

  /** A heartbeat of publisher 1 that still names epoch 3. */
  function StaleBeat(cfg: Config): Framing.Frame {
    Framing.Frame(Framing.FrameHeader(1, HEARTBEAT, 0, 0, 3, 1, 1, 1, 9, 0, 0, cfg.crc([]), 0), [])
  }

  lemma RunNext(cfg: Config, events: seq<Event>, e: Event)
    ensures Run(cfg, events + [e]) == Next(cfg, Run(cfg, events), e).gov
  {
    hide Next;
    assert (events + [e])[..|events|] == events;
  }

  lemma RegisteredRun(cfg: Config)
    requires cfg.initialEpoch == 0
    ensures var g := Run(cfg, REGISTERED);
            && g.epoch == 5 && g.publishers == map[1 := Publisher(1, 1, 5, 0, map[], true)]
            && g.evidence == NO_EVIDENCE
  {
    hide Run;
    RunNothing(cfg);
    RunNext(cfg, [], Recover(NoStore, 1));
    RunNext(cfg, [Recover(NoStore, 1)], InstallEpoch(5, 0, None));
    RunNext(cfg, [Recover(NoStore, 1), InstallEpoch(5, 0, None)], Register(1, 1, 1));
    assert [] + [Recover(NoStore, 1)] == [Recover(NoStore, 1)];
    assert [Recover(NoStore, 1)] + [InstallEpoch(5, 0, None)] == [Recover(NoStore, 1), InstallEpoch(5, 0, None)];
    assert [Recover(NoStore, 1), InstallEpoch(5, 0, None)] + [Register(1, 1, 1)] == REGISTERED;
  }

  lemma RunNothing(cfg: Config)
    ensures Run(cfg, []) == FRESH
  {
  }

  /** A reachable governor at epoch 5 accepts a heartbeat that names epoch 3, and
      the publisher's sequence moves with it. */
  lemma StaleHeartbeatAccepted(cfg: Config)
    requires cfg.initialEpoch == 0
    ensures var g, f := Run(cfg, REGISTERED), StaleBeat(cfg);
            && RecoverFirst(REGISTERED) && IsHeartbeat(f) && f.header.epoch != g.epoch
            && Admitted(cfg, g, f).error.None? && !EpochFenced(cfg, g, f)
            && g.publishers[1].lastSequence == 0 && Admitted(cfg, g, f).gov.publishers[1].lastSequence == 9
  {
    hide Run;
    RegisteredRun(cfg);
  }

  // ----- what a heartbeat does to later frames ----------------------------------------------

  /** In this epoch and incarnation, the publisher has been seen up to n. */
  ghost predicate SeenUpTo(g: Gov, id: U64, epoch: U64, incarnation: U64, n: U64) {
    && id in g.publishers && epoch <= g.epoch && incarnation <= g.publishers[id].incarnation
    && (g.epoch == epoch && g.publishers[id].incarnation == incarnation ==>
          g.publishers[id].epoch == g.epoch && g.publishers[id].lastSequence >= n)
  }

  lemma AdmittedSeen(cfg: Config, g: Gov, f: Framing.Frame, id: U64, epoch: U64, incarnation: U64, n: U64)
    requires Live(g) && SeenUpTo(g, id, epoch, incarnation, n)
    ensures SeenUpTo(Admitted(cfg, g, f).gov, id, epoch, incarnation, n)
  {
    hide Install, Framing.VerifyPayload, AllResolve, GenerationOf;
  }

  lemma NextSeen(cfg: Config, g: Gov, e: Event, id: U64, epoch: U64, incarnation: U64, n: U64)
    requires ValidEvidence(g.evidence) && Live(g) && !e.Recover? && SeenUpTo(g, id, epoch, incarnation, n)
    ensures SeenUpTo(Next(cfg, g, e).gov, id, epoch, incarnation, n)
  {
    hide ValidEvidence, Admitted, Observe;
    match e
    case Admit(f) => AdmittedSeen(cfg, g, f, id, epoch, incarnation, n);
    case _ =>
  }

  lemma {:induction false} RunSeen(
    cfg: Config, events: seq<Event>, more: seq<Event>, id: U64, epoch: U64, incarnation: U64, n: U64)
    requires RecoverFirst(events + more) && |events| > 0
    requires SeenUpTo(Run(cfg, events), id, epoch, incarnation, n)
    ensures SeenUpTo(Run(cfg, events + more), id, epoch, incarnation, n)
  {
    hide Next, SeenUpTo, RecoverFirst;
    if |more| == 0 {
      assert events + more == events;
    } else {
      var init, last := more[..|more| - 1], more[|more| - 1];
      var all := events + more;
      assert all[..|all| - 1] == events + init && all == (events + init) + [last];
      RecoverFirstPrefix(all);
      RunSeen(cfg, events, init, id, epoch, incarnation, n);
      RunLive(cfg, events + init);
      RunNext(cfg, events + init, last);
      NextSeen(cfg, Run(cfg, events + init), last, id, epoch, incarnation, n);
    }
  }

  /** A heartbeat fences the stream frames behind it, whatever epoch it names:
      every stream frame of that publisher accepted later in the same epoch and
      incarnation carries a higher sequence. */
  lemma HeartbeatFencesStream(cfg: Config, events: seq<Event>, f: Framing.Frame, more: seq<Event>, later: Framing.Frame)
    requires RecoverFirst(events + [Admit(f)] + more) && IsHeartbeat(f) && f.header.sequence > 0
    requires Admitted(cfg, Run(cfg, events), f).error.None?
    requires Accepts(cfg, Run(cfg, events + [Admit(f)] + more), Admit(later))
    requires later.header.publisher == f.header.publisher && later.header.incarnation == f.header.incarnation
    requires later.header.epoch == Run(cfg, events).epoch
    ensures later.header.sequence > f.header.sequence
  {
    hide Run, RecoverFirst, Install, Framing.VerifyPayload, AllResolve;
    var g, h := Run(cfg, events), f.header;
    var here := events + [Admit(f)];
    assert events + ([Admit(f)] + more) == here + more;
    FirstPart(events, [Admit(f)] + more);
    RunLive(cfg, events);
    RunNext(cfg, events, Admit(f));
    HeartbeatExactly(cfg, g, f);
    assert SeenUpTo(Run(cfg, here), h.publisher, g.epoch, h.incarnation, h.sequence);
    RunSeen(cfg, here, more, h.publisher, g.epoch, h.incarnation, h.sequence);
  }

  lemma FirstPart(a: seq<Event>, b: seq<Event>)
    requires RecoverFirst(a + b)
    ensures RecoverFirst(a)
  {
    if |a| > 0 {
      assert forall k :: 0 <= k < |a[1..]| ==> a[1..][k] == (a + b)[1..][k];
    }
  }
}
