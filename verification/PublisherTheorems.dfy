/** The life of a publisher (src/governor.cpp): registration, epoch change, death
    and restart, and what each of them does to authority and evidence. */
module PublisherTheorems {
  import opened Base
  import opened Model
  import Framing
  import opened Classification
  import opened SaturationHistory
  import opened Detection
  import opened DetectionTheorems
  import opened GovernorProtocol
  import opened GovernorTheorems

  // ----- death ----------------------------------------------------------------------------

  /** Gone if the publisher owned it, as it was if another did; nothing appears. */
  ghost predicate Dropped<T>(before: Option<T>, after: Option<T>, owner: T -> U64, id: U64) {
    && (after.Some? ==> owner(after.value) != id)
    && (after.Some? || (before.Some? && owner(before.value) != id) ==> after == before)
  }

  ghost predicate Bereft(before: Evidence, after: Evidence, id: U64) {
    && Dropped(before.topology, after.topology, (x: Topology) => x.publisher, id)
    && Dropped(before.capacity, after.capacity, (x: Capacity) => x.publisher, id)
    && Dropped(before.signals, after.signals, (x: Signals) => x.publisher, id)
    && Dropped(before.paths, after.paths, (x: Paths) => x.publisher, id)
    && Dropped(before.traffic, after.traffic, (x: Traffic) => x.publisher, id)
    && Dropped(before.policy, after.policy, (x: Policy) => x.publisher, id)
  }

  /** A death is accepted for every known publisher whose commit succeeds. It takes
      a live publisher's authority and, if so configured, exactly the evidence it
      owned; everything else stays. */
  lemma DeathExactly(cfg: Config, g: Gov, id: U64, failure: Option<ErrorCode>)
    ensures var r := Buried(cfg, g, id, failure);
            && (r.error.None? <==> id in g.publishers && failure.None?)
            && (r.error.Some? ==> r.gov == g)
            && (r.error.None? ==>
                  && r.gov == g.(publishers := r.gov.publishers, evidence := r.gov.evidence)
                  && r.gov.publishers.Keys == g.publishers.Keys
                  && (forall x :: x in g.publishers && x != id ==> r.gov.publishers[x] == g.publishers[x])
                  && r.gov.publishers[id] == g.publishers[id].(alive := false)
                  && (if cfg.dropOnDeath && g.publishers[id].alive
                      then Bereft(g.evidence, r.gov.evidence, id) else r.gov.evidence == g.evidence))
  {
    if id in g.publishers && !g.publishers[id].alive {
      assert g.publishers[id] == g.publishers[id].(alive := false);
    }
  }

  predicate Owns(e: Evidence, id: U64) {
    || (e.topology.Some? && e.topology.value.publisher == id)
    || (e.capacity.Some? && e.capacity.value.publisher == id)
    || (e.signals.Some? && e.signals.value.publisher == id)
  }

  lemma RefusedWithout(i: Input, h: Option<History>)
    requires ValidInput(i) && (i.evidence.topology.None? || i.evidence.capacity.None? || i.evidence.signals.None?)
    ensures Detect(i, h).refused && Detect(i, h).hotspots == [] && !Detect(i, h).escalation
  {
    hide CensusOf, ReadingsOf;
  }

  /** In every run: right after a live publisher's death, evaluation is refused if
      topology, capacity or telemetry was that publisher's and is to be dropped. */
  lemma DeathStopsDecisions(cfg: Config, events: seq<Event>, id: U64, now: Millis, h: Option<History>)
    requires var g := Run(cfg, events);
             cfg.dropOnDeath && id in g.publishers && g.publishers[id].alive && Owns(g.evidence, id)
    ensures var n := Run(cfg, events + [NoteDeath(id, None)]);
            Detect(InputAt(n, now), h).refused && Detect(InputAt(n, now), h).hotspots == []
  {
    hide Detect, Buried, ValidEvidence;
    var g := Run(cfg, events);
    assert (events + [NoteDeath(id, None)])[..|events|] == events;
    DeathExactly(cfg, g, id, None);
    var n := Run(cfg, events + [NoteDeath(id, None)]);
    assert n == Buried(cfg, g, id, None).gov;
    hide Run;
    RefusedWithout(InputAt(n, now), h);
  }

  /** No frame of a publisher that is not alive is accepted, of any kind. */
  lemma DeadRefused(cfg: Config, g: Gov, f: Framing.Frame)
    requires f.header.publisher !in g.publishers || !g.publishers[f.header.publisher].alive
    ensures Admitted(cfg, g, f).error.Some? && Admitted(cfg, g, f).gov == g
  {
    hide Framing.VerifyPayload, Install, AllResolve, OrderRefusal;
  }

  // ----- registration -----------------------------------------------------------------------

  /** Registration is accepted exactly for a proper identity under an installed
      epoch, of a newer incarnation or the same one with the same boot, or of a new
      publisher while there is room. It gives live authority in the installed epoch;
      order starts over except for a known incarnation, which goes on. */
  lemma RegistrationExactly(g: Gov, id: U64, incarnation: U64, boot: U64)
    ensures var r, known := Registered(g, id, incarnation, boot), id in g.publishers;
            && (r.error.None? <==>
                  && 0 !in {id, incarnation, boot, g.epoch}
                  && (known ==> var p := g.publishers[id];
                        incarnation > p.incarnation || (incarnation == p.incarnation && boot == p.boot))
                  && (!known ==> |g.publishers| < 512))
            && (r.error.Some? ==> r.gov == g)
            && (r.error.None? ==>
                  && r.gov == g.(publishers := r.gov.publishers)
                  && r.gov.publishers.Keys == g.publishers.Keys + {id}
                  && (forall x :: x in g.publishers && x != id ==> r.gov.publishers[x] == g.publishers[x])
                  && var q := r.gov.publishers[id];
                     && q.alive && q.epoch == g.epoch && q.incarnation == incarnation && q.boot == boot
                     && (if known && incarnation == g.publishers[id].incarnation
                         then q.lastSequence == g.publishers[id].lastSequence
                              && q.generations == g.publishers[id].generations
                         else q.lastSequence == 0 && forall s :: GenerationOf(q, s) == 0))
  {
  }

  // ----- epochs --------------------------------------------------------------------------------

  /** An epoch is installed exactly when it is a proper one, not below the
      installed one and durably committed. Publishers registered in it keep their
      state; all others lose authority and order. No evidence changes. */
  lemma EpochExactly(g: Gov, epoch: U64, coordinatorBoot: U64, failure: Option<ErrorCode>)
    ensures var r := Installed(g, epoch, coordinatorBoot, failure);
            && (r.error.None? <==> epoch != 0 && g.epoch <= epoch && failure.None?)
            && (r.error.Some? ==> r.gov == g)
            && (r.error.None? ==>
                  && r.gov.epoch == epoch
                  && r.gov.boot == (if coordinatorBoot == 0 then g.boot else coordinatorBoot)
                  && r.gov == g.(epoch := r.gov.epoch, boot := r.gov.boot, publishers := r.gov.publishers)
                  && r.gov.publishers.Keys == g.publishers.Keys
                  && forall id :: id in g.publishers ==>
                       var p, q := g.publishers[id], r.gov.publishers[id];
                       && (p.epoch == epoch ==> q == p)
                       && (p.epoch != epoch ==>
                             && !q.alive && q.lastSequence == 0 && q.generations == map[]
                             && q == p.(alive := q.alive, lastSequence := 0, generations := q.generations)))
  {
  }

  /** In every run: once a newer epoch is installed, a publisher of the same
      incarnation is refused until it registers again, and may then start over at
      sequence 1 and generation 1 on every stream. */
  lemma StartsOver(cfg: Config, events: seq<Event>, id: U64, epoch: U64, coordinatorBoot: U64,
                   h: Framing.FrameHeader, payload: Bytes, s: Framing.Stream)
    requires RecoverFirst(events) && id in Run(cfg, events).publishers && Run(cfg, events).epoch < epoch
    requires var p := Run(cfg, events).publishers[id];
             && 0 !in {id, p.incarnation, p.boot}
             && h.publisher == id && h.incarnation == p.incarnation && h.boot == p.boot && h.epoch == epoch
             && h.sequence == 1 && h.generation == 1
    ensures var p := Run(cfg, events).publishers[id];
            var fenced := Installed(Run(cfg, events), epoch, coordinatorBoot, None).gov;
            var again := Registered(fenced, id, p.incarnation, p.boot);
            && Admitted(cfg, fenced, Framing.Frame(h, payload)).error.Some?
            && again.error.None? && PassesFences(again.gov, h, s)
  {
    hide Run, Admitted;
    var g := Run(cfg, events);
    RunLive(cfg, events);
    EpochExactly(g, epoch, coordinatorBoot, None);
    var fenced := Installed(g, epoch, coordinatorBoot, None).gov;
    hide Installed;
    var p := g.publishers[id];
    RegistrationExactly(fenced, id, p.incarnation, p.boot);
    hide Registered;
    DeadRefused(cfg, fenced, Framing.Frame(h, payload));
  }

  // ----- restart ---------------------------------------------------------------------------------

  /** A restart from a store restores no live authority: no publisher, no evidence
      and no history, at an epoch after the recovered one. So every frame is refused
      until a publisher registers, and every evaluation until evidence arrives. */
  lemma RestartExactly(cfg: Config, g: Gov, outcome: Recovery, boot: U64)
    requires ValidEvidence(g.evidence)
    ensures var r := Next(cfg, g, Recover(outcome, boot));
            && (r.error.Some? <==> outcome.StoreFailed?) && r.gov.boot == boot
            && (outcome.Restored? ==>
                  && r.gov.publishers == map[] && r.gov.evidence == NO_EVIDENCE && r.gov.history == map[]
                  && (0 < outcome.lastEpoch < U64_MAX ==> r.gov.epoch == outcome.lastEpoch + 1)
                  && r.gov.epoch >= outcome.lastEpoch)
            && (!outcome.Restored? || outcome.lastEpoch == 0 ==>
                  r.gov.epoch == if cfg.initialEpoch == 0 then 1 else cfg.initialEpoch)
            && (!outcome.Restored? ==> r.gov == g.(boot := boot, epoch := r.gov.epoch))
            && r.gov.epoch != 0
  {
    hide ValidEvidence;
  }

  lemma RestartedRefuses(cfg: Config, g: Gov, lastEpoch: U64, boot: U64, f: Framing.Frame, now: Millis,
                         h: Option<History>)
    requires ValidEvidence(g.evidence)
    ensures var r := Next(cfg, g, Recover(Restored(lastEpoch), boot)).gov;
            && Admitted(cfg, r, f).error.Some?
            && Detect(InputAt(r, now), h).refused && Detect(InputAt(r, now), h).hotspots == []
  {
    RestartExactly(cfg, g, Restored(lastEpoch), boot);
    var r := Next(cfg, g, Recover(Restored(lastEpoch), boot)).gov;
    hide Detect, Admitted, Next;
    DeadRefused(cfg, r, f);
    RefusedWithout(InputAt(r, now), h);
  }

  // ----- why a frame is refused -------------------------------------------------------------------

  /** The first fence an intact stream frame fails names the error, in the order
      epoch, registration, incarnation, liveness, sequence, generation. */
  lemma RefusalNamesFence(cfg: Config, g: Gov, f: Framing.Frame, s: Framing.Stream)
    requires Live(g) && StreamOf(f.header.kind) == Some(s)
        && Framing.VerifyPayload(f.header, f.payload, cfg.crc).None?
    ensures var h, error := f.header, Admitted(cfg, g, f).error;
            && (g.epoch == 0 ==> error == Some(NotStarted))
            && (g.epoch != 0 && h.epoch < g.epoch ==> error == Some(StaleEpoch))
            && (g.epoch != 0 && h.epoch > g.epoch ==> error == Some(UnknownEpoch))
            && (g.epoch != 0 && h.epoch == g.epoch ==>
                  if h.publisher !in g.publishers then error == Some(UnknownPublisher)
                  else
                    var p := g.publishers[h.publisher];
                    if (h.incarnation, h.boot) != (p.incarnation, p.boot) then error == Some(StaleIncarnation)
                    else if !p.alive then error == Some(UnknownPublisher)
                    else if h.sequence <= p.lastSequence then
                      error == Some(if h.sequence < p.lastSequence then OutOfOrderSequence else DuplicateFrame)
                    else if h.generation == 0 then error == Some(InvalidArgument)
                    else h.generation <= GenerationOf(p, s) ==>
                      error == Some(if h.generation < GenerationOf(p, s) then StaleGeneration else DuplicateFrame))
  {
    hide Install, AllResolve, Framing.VerifyPayload, GenerationOf;
  }
}
