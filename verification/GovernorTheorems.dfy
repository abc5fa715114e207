/** What holds in every reachable governor state and over whole runs
    (src/governor.cpp): stamp soundness and fencing. */
module GovernorTheorems {
  import opened Base
  import opened Model
  import Framing
  import opened References
  import opened SaturationHistory
  import opened SaturatedComponents
  import opened Detection
  import opened DetectionTheorems
  import opened GovernorProtocol

  // ----- the verification stamp --------------------------------------------------------

  /** What was stamped together resolves in the stamped topology. */
  ghost predicate StampSound(s: Stamp) {
    s.topology.Some? ==>
      && (s.capacity.Some? ==> CapacityResolves(s.topology.value, s.capacity.value))
      && (s.signals.Some? ==> SignalsResolve(s.topology.value, s.signals.value))
      && (s.paths.Some? ==> PathsResolve(s.topology.value, s.paths.value))
  }

  lemma AdmittedStampSound(cfg: Config, g: Gov, f: Framing.Frame)
    requires StampSound(g.stamp)
    ensures StampSound(Admitted(cfg, g, f).gov.stamp)
  {
    hide Install, Framing.VerifyPayload, CapacityResolves, SignalsResolve, PathsResolve, OrderRefusal;
  }

  lemma NextStampSound(cfg: Config, g: Gov, e: Event)
    requires ValidEvidence(g.evidence) && StampSound(g.stamp)
    ensures StampSound(Next(cfg, g, e).gov.stamp)
  {
    hide ValidEvidence, Admitted, StampSound;
    match e
    case Admit(f) => AdmittedStampSound(cfg, g, f);
    case _ =>
  }

  /** In every reachable state the stamp is sound, whatever frames were refused,
      evidence dropped or state recovered on the way. */
  lemma {:induction false} RunStampSound(cfg: Config, events: seq<Event>)
    ensures StampSound(Run(cfg, events).stamp)
  {
    hide Next;
    if |events| == 0 {
    } else {
      RunStampSound(cfg, events[..|events| - 1]);
      NextStampSound(cfg, Run(cfg, events[..|events| - 1]), events[|events| - 1]);
    }
  }

  /** references_preverified never skips a check that would have failed. */
  lemma PreverifiedMeansResolved(cfg: Config, events: seq<Event>)
    requires Preverified(Run(cfg, events))
    ensures AllResolve(Run(cfg, events).evidence)
  {
    hide Run, CapacityResolves, SignalsResolve, PathsResolve;
    RunStampSound(cfg, events);
  }

  /** In every reachable state, every hotspot or candidate rests on capacity and
      signals that resolve in the installed topology, and attribution on
      resolving paths. */
  lemma HotspotsRestOnResolvedEvidence(cfg: Config, events: seq<Event>, now: Millis, h: Option<History>)
    requires var a := Detect(InputAt(Run(cfg, events), now), h); |a.hotspots| + |a.candidates| > 0
    ensures var e := Run(cfg, events).evidence;
            && e.topology.Some? && e.capacity.Some? && e.signals.Some?
            && CapacityResolves(e.topology.value.content, e.capacity.value.entries)
            && SignalsResolve(e.topology.value.content, e.signals.value.records)
            && (SceneOf(InputAt(Run(cfg, events), now), h).flows.Some? ==>
                  e.paths.Some? && PathsResolve(e.topology.value.content, e.paths.value.paths))
  {
    var g := Run(cfg, events);
    AssessmentRestsOnEvidence(InputAt(g, now), h);
    if Preverified(g) {
      PreverifiedMeansResolved(cfg, events);
    }
    hide Detect, Run, CapacityResolves, SignalsResolve, PathsResolve, ReadingsOf, ValidEvidence;
  }

  /** The rollback a refused frame might be expected to get does not happen: a
      frame refused for its references stays installed, and loses its stamp
      unless its contents are the stamped ones. */
  lemma RefusedFrameStaysInstalled(cfg: Config, g: Gov, f: Framing.Frame, s: Framing.Stream)
    requires Framing.VerifyPayload(f.header, f.payload, cfg.crc).None? && f.header.kind != HEARTBEAT
    requires StreamOf(f.header.kind) == Some(s) && StreamRefusal(g, f.header).None?
    requires OrderRefusal(Refreshed(g.publishers[f.header.publisher], g.epoch), f.header, s).None?
    requires Install(g.evidence, s, f.payload, f.header.publisher).Ok?
    ensures var r, e := Admitted(cfg, g, f), Install(g.evidence, s, f.payload, f.header.publisher).value;
            && r.gov.evidence == e
            && (r.error == Some(UnknownResource) <==> !AllResolve(e))
            && (!AllResolve(e) ==> r.gov.stamp == g.stamp && (StampSound(g.stamp) ==> !Preverified(r.gov)))
  {
    hide Install, Framing.VerifyPayload, CapacityResolves, SignalsResolve, PathsResolve;
  }

  // ----- fencing -------------------------------------------------------------------------------

  /** A live publisher belongs to the installed epoch, and no publisher to a
      later one. */
  ghost predicate Live(g: Gov) {
    forall id :: id in g.publishers ==>
      && g.publishers[id].epoch <= g.epoch
      && (g.publishers[id].alive ==> g.publishers[id].epoch == g.epoch)
  }

  predicate NoRecover(events: seq<Event>) { forall k :: 0 <= k < |events| ==> !events[k].Recover? }

  /** recover, if called at all, comes first. */
  predicate RecoverFirst(events: seq<Event>) { |events| > 0 ==> NoRecover(events[1..]) }

  /** One step that is not a recovery: the epoch and every publisher's
      incarnation never go back, and an incarnation keeps its boot id. */
  ghost predicate Advances(g: Gov, n: Gov) {
    && g.epoch <= n.epoch
    && forall id :: id in g.publishers ==> id in n.publishers && Follows(g.publishers[id], n.publishers[id])
  }

  ghost predicate Follows(p: Publisher, q: Publisher) {
    p.incarnation <= q.incarnation && (p.incarnation == q.incarnation ==> p.boot == q.boot)
  }

  lemma AdmittedAdvances(cfg: Config, g: Gov, f: Framing.Frame)
    requires Live(g)
    ensures var n := Admitted(cfg, g, f).gov; Advances(g, n) && Live(n)
  {
    hide Install, Framing.VerifyPayload, AllResolve, OrderRefusal, GenerationOf;
  }

  lemma InstalledAdvances(g: Gov, epoch: U64, boot: U64, failure: Option<ErrorCode>)
    requires Live(g)
    ensures var n := Installed(g, epoch, boot, failure).gov; Advances(g, n) && Live(n)
  {
  }

  lemma RegisteredAdvances(g: Gov, id: U64, incarnation: U64, boot: U64)
    requires Live(g)
    ensures var n := Registered(g, id, incarnation, boot).gov; Advances(g, n) && Live(n)
  {
    var n := Registered(g, id, incarnation, boot).gov;
    if n != g {
      RegisteredOne(g, id, n.publishers[id]);
    }
  }

  /** Replacing or adding one publisher of the installed epoch. */
  lemma RegisteredOne(g: Gov, id: U64, p: Publisher)
    requires Live(g) && p.epoch == g.epoch && (id in g.publishers ==> Follows(g.publishers[id], p))
    ensures var n := g.(publishers := g.publishers[id := p]); Advances(g, n) && Live(n)
  {
  }

  lemma BuriedAdvances(cfg: Config, g: Gov, id: U64, failure: Option<ErrorCode>)
    requires Live(g)
    ensures var n := Buried(cfg, g, id, failure).gov; Advances(g, n) && Live(n)
  {
  }

  lemma NextAdvances(cfg: Config, g: Gov, e: Event)
    requires ValidEvidence(g.evidence) && Live(g) && !e.Recover?
    ensures Advances(g, Next(cfg, g, e).gov) && Live(Next(cfg, g, e).gov)
  {
    hide ValidEvidence, Admitted, Installed, Registered, Buried, Observe;
    match e
    case InstallEpoch(epoch, boot, failure) => InstalledAdvances(g, epoch, boot, failure);
    case Register(id, incarnation, boot) => RegisteredAdvances(g, id, incarnation, boot);
    case NoteDeath(id, failure) => BuriedAdvances(cfg, g, id, failure);
    case Admit(f) => AdmittedAdvances(cfg, g, f);
    case Evaluate(now) =>
  }

  lemma AdvancesTransitive(a: Gov, b: Gov, c: Gov)
    requires Advances(a, b) && Advances(b, c)
    ensures Advances(a, c)
  {
    forall id | id in a.publishers ensures id in c.publishers && Follows(a.publishers[id], c.publishers[id]) {
      assert id in b.publishers && Follows(b.publishers[id], c.publishers[id]);
    }
  }

  lemma RecoverFirstPrefix(events: seq<Event>)
    requires RecoverFirst(events) && |events| > 0
    ensures RecoverFirst(events[..|events| - 1])
    ensures |events| > 1 ==> !events[|events| - 1].Recover?
  {
    var init := events[..|events| - 1];
    if |init| > 0 {
      assert forall k :: 0 <= k < |init[1..]| ==> init[1..][k] == events[1..][k];
      assert events[1..][|events| - 2] == events[|events| - 1];
    }
  }

  /** In every run in which recover, if called, comes first, a live publisher's
      epoch is the governor's. */
  lemma {:induction false} RunLive(cfg: Config, events: seq<Event>)
    requires RecoverFirst(events)
    ensures Live(Run(cfg, events))
  {
    if |events| == 0 {
    } else {
      var init, last := events[..|events| - 1], events[|events| - 1];
      RecoverFirstPrefix(events);
      RunLive(cfg, init);
      if last.Recover? {
        assert Run(cfg, init) == FRESH;
      } else {
        NextAdvances(cfg, Run(cfg, init), last);
      }
    }
  }

  /** So the in-place reset of a live publisher from another epoch is dead code. */
  lemma ResetUnreachable(cfg: Config, events: seq<Event>, h: Framing.FrameHeader)
    requires RecoverFirst(events) && StreamRefusal(Run(cfg, events), h).None?
    ensures var g := Run(cfg, events); Refreshed(g.publishers[h.publisher], g.epoch) == g.publishers[h.publisher]
  {
    hide Run;
    RunLive(cfg, events);
  }

  /** Over a run the epoch never decreases, no publisher is forgotten, and
      incarnations never decrease and fix their boot id. */
  lemma {:induction false} RunAdvances(cfg: Config, events: seq<Event>, k: nat)
    requires RecoverFirst(events) && k <= |events|
    ensures Advances(Run(cfg, events[..k]), Run(cfg, events))
  {
    if k == |events| {
      assert events[..k] == events;
    } else {
      var init, last := events[..|events| - 1], events[|events| - 1];
      RecoverFirstPrefix(events);
      RunAdvances(cfg, init, k);
      assert init[..k] == events[..k];
      RunLive(cfg, init);
      hide Advances;
      StepAdvances(cfg, init, last);
      AdvancesTransitive(Run(cfg, events[..k]), Run(cfg, init), Run(cfg, events));
    }
  }

  lemma StepAdvances(cfg: Config, init: seq<Event>, last: Event)
    requires Live(Run(cfg, init)) && (|init| > 0 ==> !last.Recover?)
    ensures Advances(Run(cfg, init), Next(cfg, Run(cfg, init), last).gov)
  {
    if last.Recover? {
      assert Run(cfg, init) == FRESH;
    } else {
      hide Run;
      NextAdvances(cfg, Run(cfg, init), last);
    }
  }

  // ----- the log of accepted frames ---------------------------------------------------------------

  predicate Accepts(cfg: Config, g: Gov, e: Event) {
    e.Admit? && Admitted(cfg, g, e.frame).error.None? && e.frame.header.kind != HEARTBEAT
  }

  /** Headers of the stream frames accepted in a run, in order. */
  ghost function Log(cfg: Config, events: seq<Event>): seq<Framing.FrameHeader> {
    if |events| == 0 then []
    else
      var init, last := events[..|events| - 1], events[|events| - 1];
      Log(cfg, init) + (if Accepts(cfg, Run(cfg, init), last) then [last.frame.header] else [])
  }

  /** Accepted within the same epoch and incarnation of one publisher. */
  predicate SameLife(h: Framing.FrameHeader, k: Framing.FrameHeader) {
    h.publisher == k.publisher && h.epoch == k.epoch && h.incarnation == k.incarnation
  }

  /** What the governor remembers of an accepted frame. */
  ghost predicate Remembered(g: Gov, h: Framing.FrameHeader) {
    && StreamOf(h.kind).Some? && h.publisher in g.publishers && h.epoch <= g.epoch
    && var p := g.publishers[h.publisher];
       && h.incarnation <= p.incarnation && (h.incarnation == p.incarnation ==> h.boot == p.boot)
       && (h.epoch == g.epoch ==> p.epoch == g.epoch)
       && (h.epoch == g.epoch && h.incarnation == p.incarnation ==>
             h.sequence <= p.lastSequence && h.generation <= GenerationOf(p, StreamOf(h.kind).value))
  }

  lemma AdmittedRemembers(cfg: Config, g: Gov, f: Framing.Frame, h: Framing.FrameHeader)
    requires Live(g) && Remembered(g, h)
    ensures Remembered(Admitted(cfg, g, f).gov, h)
  {
    hide Install, Framing.VerifyPayload, AllResolve;
  }

  lemma InstalledRemembers(g: Gov, epoch: U64, boot: U64, failure: Option<ErrorCode>, h: Framing.FrameHeader)
    requires Remembered(g, h)
    ensures Remembered(Installed(g, epoch, boot, failure).gov, h)
  {
    hide GenerationOf, StreamOf;
  }

  lemma RegisteredRemembers(g: Gov, id: U64, incarnation: U64, boot: U64, h: Framing.FrameHeader)
    requires Remembered(g, h)
    ensures Remembered(Registered(g, id, incarnation, boot).gov, h)
  {
    hide StreamOf;
  }

  lemma BuriedRemembers(cfg: Config, g: Gov, id: U64, failure: Option<ErrorCode>, h: Framing.FrameHeader)
    requires Remembered(g, h)
    ensures Remembered(Buried(cfg, g, id, failure).gov, h)
  {
    hide StreamOf;
  }

  lemma NextRemembers(cfg: Config, g: Gov, e: Event, h: Framing.FrameHeader)
    requires ValidEvidence(g.evidence) && Live(g) && !e.Recover? && Remembered(g, h)
    ensures Remembered(Next(cfg, g, e).gov, h)
  {
    hide ValidEvidence, Admitted, Installed, Registered, Buried, Observe, GenerationOf, StreamOf;
    match e
    case InstallEpoch(epoch, boot, failure) => InstalledRemembers(g, epoch, boot, failure, h);
    case Register(id, incarnation, boot) => RegisteredRemembers(g, id, incarnation, boot, h);
    case NoteDeath(id, failure) => BuriedRemembers(cfg, g, id, failure, h);
    case Admit(f) => AdmittedRemembers(cfg, g, f, h);
    case Evaluate(now) =>
  }

  /** An accepted frame is remembered, and follows everything remembered of the
      same life: later sequence, same boot, newer generation on its stream. */
  lemma AcceptedFollows(cfg: Config, g: Gov, f: Framing.Frame, h: Framing.FrameHeader)
    requires Live(g) && Accepts(cfg, g, Admit(f))
    ensures Remembered(Admitted(cfg, g, f).gov, f.header)
    ensures Remembered(g, h) && SameLife(h, f.header) ==> Precedes(h, f.header)
  {
    hide Install, Framing.VerifyPayload, AllResolve;
  }

  /** What the fences demand of a stream frame. */
  predicate PassesFences(g: Gov, h: Framing.FrameHeader, s: Framing.Stream) {
    && g.epoch != 0 && h.epoch == g.epoch && h.publisher in g.publishers
    && var p := g.publishers[h.publisher];
       && p.alive && h.incarnation == p.incarnation && h.boot == p.boot
       && h.sequence > p.lastSequence && h.generation > GenerationOf(p, s)
  }

  /** A stream frame is accepted exactly when it is intact, passes the fences,
      decodes, is not an outdated topology and leaves every installed reference
      resolving. Then it replaces its snapshot and is vouched for, its publisher's
      sequence and that stream's generation become the frame's, and everything
      else stays. */
  lemma AcceptedExactly(cfg: Config, g: Gov, f: Framing.Frame, s: Framing.Stream)
    requires Live(g) && StreamOf(f.header.kind) == Some(s)
    ensures var r, h := Admitted(cfg, g, f), f.header;
            var installed := Install(g.evidence, s, f.payload, h.publisher);
            && (r.error.None? <==>
                  && Framing.VerifyPayload(h, f.payload, cfg.crc).None? && PassesFences(g, h, s)
                  && installed.Ok? && AllResolve(installed.value))
            && (r.error.None? ==>
                  && r.gov.evidence == installed.value && Preverified(r.gov) == installed.value.topology.Some?
                  && r.gov == g.(evidence := r.gov.evidence, stamp := r.gov.stamp, publishers := r.gov.publishers)
                  && r.gov.publishers.Keys == g.publishers.Keys
                  && (forall id :: id in g.publishers && id != h.publisher ==> r.gov.publishers[id] == g.publishers[id])
                  && var p, q := g.publishers[h.publisher], r.gov.publishers[h.publisher];
                     && q == p.(lastSequence := h.sequence, generations := q.generations)
                     && GenerationOf(q, s) == h.generation
                     && forall t :: t != s ==> GenerationOf(q, t) == GenerationOf(p, t))
  {
    hide Install, Framing.VerifyPayload, AllResolve, StampOf;
  }

  predicate Precedes(h: Framing.FrameHeader, k: Framing.FrameHeader) {
    h.sequence < k.sequence && h.boot == k.boot && (h.kind == k.kind ==> h.generation < k.generation)
  }

  ghost predicate Ordered(log: seq<Framing.FrameHeader>) {
    forall i, j :: 0 <= i < j < |log| && SameLife(log[i], log[j]) ==> Precedes(log[i], log[j])
  }

  ghost predicate AllRemembered(g: Gov, log: seq<Framing.FrameHeader>) {
    forall i :: 0 <= i < |log| ==> Remembered(g, log[i])
  }

  /** Accepted stream frames of one epoch and incarnation have strictly
      increasing sequences and per-stream generations, so none is accepted twice. */
  lemma {:induction false} AcceptedFramesOrdered(cfg: Config, events: seq<Event>)
    requires RecoverFirst(events)
    ensures Ordered(Log(cfg, events)) && AllRemembered(Run(cfg, events), Log(cfg, events))
  {
    if |events| == 0 {
    } else {
      var init, last := events[..|events| - 1], events[|events| - 1];
      RecoverFirstPrefix(events);
      AcceptedFramesOrdered(cfg, init);
      RunLive(cfg, init);
      if |init| > 0 {
        LogStep(cfg, Run(cfg, init), last, Log(cfg, init));
      } else if last.Admit? {
        FreshRefuses(cfg, last.frame);
      }
    }
  }

  lemma FreshRefuses(cfg: Config, f: Framing.Frame)
    ensures !Accepts(cfg, FRESH, Admit(f))
  {
    hide Framing.VerifyPayload, Install, AllResolve;
  }

  lemma LogStep(cfg: Config, g: Gov, e: Event, log: seq<Framing.FrameHeader>)
    requires ValidEvidence(g.evidence) && Live(g) && !e.Recover? && Ordered(log) && AllRemembered(g, log)
    ensures var more := log + (if Accepts(cfg, g, e) then [e.frame.header] else []);
            Ordered(more) && AllRemembered(Next(cfg, g, e).gov, more)
  {
    hide ValidEvidence, Admitted, Remembered, Live, Precedes, SameLife;
    var n := Next(cfg, g, e).gov;
    forall i | 0 <= i < |log| ensures Remembered(n, log[i]) {
      NextRemembers(cfg, g, e, log[i]);
    }
    if Accepts(cfg, g, e) {
      var h := e.frame.header;
      AcceptedFollows(cfg, g, e.frame, h);
      forall i | 0 <= i < |log| && SameLife(log[i], h) ensures Precedes(log[i], h) {
        AcceptedFollows(cfg, g, e.frame, log[i]);
      }
    }
  }

  // ----- the history of a run -------------------------------------------------------------------

  predicate Timed(events: seq<Event>) {
    forall k :: 0 <= k < |events| && events[k].Evaluate? ==> events[k].now != NO_TIME
  }

  /** What the evaluations of a run were given, since history was last restored
      from the store. */
  ghost function EvaluatedSince(cfg: Config, events: seq<Event>): seq<Input> {
    if |events| == 0 then []
    else
      var init, last := events[..|events| - 1], events[|events| - 1];
      match last
      case Evaluate(now) => EvaluatedSince(cfg, init) + [InputAt(Run(cfg, init), now)]
      case Recover(outcome, _) => if outcome.Restored? then [] else EvaluatedSince(cfg, init)
      case _ => EvaluatedSince(cfg, init)
  }

  lemma OthersKeepHistory(cfg: Config, g: Gov, e: Event)
    requires ValidEvidence(g.evidence) && !e.Evaluate? && !(e.Recover? && e.outcome.Restored?)
    ensures Next(cfg, g, e).gov.history == g.history
  {
    hide ValidEvidence, Install, Framing.VerifyPayload, AllResolve, OrderRefusal;
  }

  lemma HistorySnoc(run: seq<Input>, i: Input)
    requires ValidRun(run) && ValidInput(i) && i.now != NO_TIME
    ensures ValidRun(run + [i]) && HistoryAfter(run + [i]) == Track(HistoryAfter(run), Observe(i))
  {
    hide ValidInput, Observe;
    var longer := run + [i];
    assert longer[..|longer| - 1] == run;
    ObservationsInit(longer);
  }

  /** In every run the governor's history is what its tracker has seen over the
      evaluations since history was last restored. */
  lemma {:induction false} RunHistory(cfg: Config, events: seq<Event>)
    requires Timed(events)
    ensures ValidRun(EvaluatedSince(cfg, events))
    ensures Run(cfg, events).history == HistoryAfter(EvaluatedSince(cfg, events))
  {
    hide Observe, HistoryAfter, Observations, ValidEvidence;
    if |events| == 0 {
      NoHistory();
    } else {
      var init, last := events[..|events| - 1], events[|events| - 1];
      RunHistory(cfg, init);
      if last.Evaluate? {
        HistorySnoc(EvaluatedSince(cfg, init), InputAt(Run(cfg, init), last.now));
      } else if last.Recover? && last.outcome.Restored? {
        NoHistory();
      } else {
        OthersKeepHistory(cfg, Run(cfg, init), last);
      }
    }
  }

  lemma NoHistory()
    ensures HistoryAfter([]) == map[]
  {
  }

  /** In every run, a hotspot that an evaluation confirms is a component every
      member of which was saturated in each of the last min_persistence_samples
      evaluations of that run since history was restored. */
  lemma ConfirmedInRunSustained(cfg: Config, events: seq<Event>, now: Millis, a: nat) returns (k: nat)
    requires Timed(events) && now != NO_TIME
    requires var i := InputAt(Run(cfg, events), now);
             Refusal(i).None? && a < |Detect(i, Some(Run(cfg, events).history)).hotspots|
    ensures var i, h := InputAt(Run(cfg, events), now), Some(Run(cfg, events).history);
            var s, run := SceneOf(i, h), EvaluatedSince(cfg, events) + [i];
            && |s.readings| == |s.topology.resources|
            && k < |ComponentsOf(s)| && Within(ComponentsOf(s), |s.readings|)
            && Detect(i, h).hotspots[a] == HotspotOf(s, Pick(s.readings, ComponentsOf(s)[k]))
            && forall m :: 0 <= m < |ComponentsOf(s)[k]| ==>
                 Sustained(run, s.readings[ComponentsOf(s)[k][m]].id, s.th.minSamples, s.th.persistenceWindow)
  {
    hide Observe, HistoryAfter, Observations, Run, Refusal, Detect, Sustained, ComponentsOf, HotspotOf, ReadingsOf;
    var i := InputAt(Run(cfg, events), now);
    RunHistory(cfg, events);
    var before := EvaluatedSince(cfg, events);
    var run := before + [i];
    HistorySnoc(before, i);
    assert run[..|run| - 1] == before && run[|run| - 1] == i;
    k := ConfirmedMeansSustained(run, a);
  }
}
