/** The bounded worker pool (src/worker.cpp) as interleaved critical sections:
    every step below runs under the pool mutex, and any thread may go next. */
module WorkerQueue {
  import opened Base
  import opened Ordering

  const MAX_THREADS: nat := 64
  const MAX_QUEUE: nat := 0x1_0000

  /** Where a worker thread is between critical sections. */
  datatype Worker = Waiting | Running(task: nat) | Exited

  /** Queue, counters and flags. Tasks are numbered in the order they were
      accepted; the last four fields are history. */
  datatype Pool = Pool(
    capacity: nat, threadCount: nat, queue: seq<nat>, workers: seq<Worker>,
    started: bool, accepting: bool, stopping: bool,
    active: nat, completed: nat, rejected: nat, dropped: nat, failed: nat,
    accepted: nat, begun: seq<nat>, finished: set<nat>, discarded: set<nat>)

  datatype Event =
    | Start
    | Submit
    | StopAccepting
    /** drain_and_stop up to the join; cancel_and_stop also drops the queue. */
    | BeginStop(cancel: bool)
    | DropPending
    /** A worker takes the front task. */
    | Take(worker: nat)
    /** A task threw. */
    | Throw(worker: nat)
    | Finish(worker: nat)
    /** A worker leaves its loop: stopping, and nothing queued. */
    | Exit(worker: nat)
    /** The stopper has joined every worker. */
    | Join

  function Clamp(n: nat, high: nat): nat { Max(1, Min(n, high)) }

  function Create(threads: nat, capacity: nat): Pool {
    Pool(Clamp(capacity, MAX_QUEUE), Clamp(threads, MAX_THREADS), [], [], false, false, false, 0, 0, 0, 0, 0, 0, [],
        {}, {})
  }

  predicate AllExited(ws: seq<Worker>) { forall i :: 0 <= i < |ws| ==> ws[i].Exited? }

  function Drop(p: Pool): Pool {
    p.(dropped := p.dropped + |p.queue|, queue := [], discarded := p.discarded + Elements(p.queue))
  }

  function Next(p: Pool, e: Event): Pool {
    match e
    case Start =>
      if p.started then p
      else p.(started := true, accepting := true, stopping := false, workers := seq(p.threadCount, _ => Waiting))
    case Submit =>
      if !p.accepting || p.stopping || |p.queue| >= p.capacity then p.(rejected := p.rejected + 1)
      else p.(queue := p.queue + [p.accepted], accepted := p.accepted + 1)
    case StopAccepting => p.(accepting := false)
    case BeginStop(cancel) =>
      var q := p.(accepting := false, stopping := true);
      if cancel then Drop(q) else q
    case DropPending => Drop(p)
    case Take(w) =>
      if w >= |p.workers| || !p.workers[w].Waiting? || |p.queue| == 0 then p
      else
        p.(queue := p.queue[1..], active := p.active + 1, workers := p.workers[w := Running(p.queue[0])],
           begun := p.begun + [p.queue[0]])
    case Throw(w) =>
      if w >= |p.workers| || !p.workers[w].Running? then p else p.(failed := p.failed + 1)
    case Finish(w) =>
      if w >= |p.workers| || !p.workers[w].Running? then p
      else
        p.(active := if p.active > 0 then p.active - 1 else 0, completed := p.completed + 1,
           workers := p.workers[w := Waiting], finished := p.finished + {p.workers[w].task})
    case Exit(w) =>
      if w >= |p.workers| || !p.workers[w].Waiting? || |p.queue| > 0 || !p.stopping then p
      else p.(workers := p.workers[w := Exited])
    case Join =>
      if !AllExited(p.workers) || !p.stopping then p else p.(workers := [], started := false)
  }

  function Run(threads: nat, capacity: nat, events: seq<Event>): Pool {
    if |events| == 0 then Create(threads, capacity)
    else Next(Run(threads, capacity, events[..|events| - 1]), events[|events| - 1])
  }

  // ----- what every step keeps -----------------------------------------------------

  function Busy(ws: seq<Worker>): nat {
    if |ws| == 0 then 0 else Busy(ws[..|ws| - 1]) + (if ws[|ws| - 1].Running? then 1 else 0)
  }

  lemma {:induction false} BusyUpdate(ws: seq<Worker>, w: nat, now: Worker)
    requires w < |ws|
    ensures Busy(ws[w := now]) == Busy(ws) - (if ws[w].Running? then 1 else 0) + (if now.Running? then 1 else 0)
  {
    var init := ws[..|ws| - 1];
    if w < |ws| - 1 {
      BusyUpdate(init, w, now);
      assert ws[w := now][..|ws| - 1] == init[w := now];
    } else {
      assert ws[w := now][..|ws| - 1] == init;
    }
  }

  lemma {:induction false} BusyZero(ws: seq<Worker>)
    requires forall i :: 0 <= i < |ws| ==> !ws[i].Running?
    ensures Busy(ws) == 0
  {
    if |ws| == 0 {
    } else {
      BusyZero(ws[..|ws| - 1]);
    }
  }

  /** Every accepted task is accounted for, and the queue is bounded. */
  predicate Accounted(p: Pool) {
    && p.accepted == p.completed + p.dropped + |p.queue| + p.active
    && p.active == Busy(p.workers)
    && |p.queue| <= p.capacity
    && (p.dropped == 0 ==> p.discarded == {})
  }

  /** Tasks begin in the order they were accepted; a dropped one never does. */
  ghost predicate Fifo(p: Pool) {
    && Ascending(p.begun + p.queue)
    && (forall t :: t in p.queue ==> t < p.accepted)
    && (forall t :: t in p.begun ==> t < p.accepted && t !in p.discarded)
    && (forall t :: t in p.discarded ==> t < p.accepted && t !in p.queue)
  }

  /** Where every accepted task is. */
  ghost predicate Placed(p: Pool, t: nat) {
    || t in p.queue || t in p.finished || t in p.discarded
    || exists w :: 0 <= w < |p.workers| && p.workers[w] == Running(t)
  }

  ghost predicate AllPlaced(p: Pool) { forall t: nat :: t < p.accepted ==> Placed(p, t) }

  /** A worker exits only when the pool is stopping with nothing queued, and
      from then on nothing can be queued. */
  predicate Lifecycle(p: Pool) {
    && (!p.started ==> p.workers == [] && !p.accepting && p.queue == [])
    && (p.started ==> |p.workers| == p.threadCount > 0)
    && (p.stopping ==> !p.accepting)
    && (forall w :: 0 <= w < |p.workers| && p.workers[w].Exited? ==> p.stopping && p.queue == [])
  }

  ghost predicate Inv(p: Pool) { Accounted(p) && Fifo(p) && AllPlaced(p) && Lifecycle(p) && p.threadCount > 0 }

  lemma NextAccounted(p: Pool, e: Event)
    requires Accounted(p) && Lifecycle(p)
    ensures Accounted(Next(p, e))
  {
    match e
    case Take(w) =>
      if w < |p.workers| && p.workers[w].Waiting? && |p.queue| > 0 {
        BusyUpdate(p.workers, w, Running(p.queue[0]));
      }
    case Finish(w) =>
      if w < |p.workers| && p.workers[w].Running? {
        BusyUpdate(p.workers, w, Waiting);
      }
    case Exit(w) =>
      if w < |p.workers| {
        BusyUpdate(p.workers, w, Exited);
      }
    case Start =>
      BusyZero(seq(p.threadCount, _ => Waiting));
    case Join =>
      if AllExited(p.workers) {
        BusyZero(p.workers);
      }
    case _ =>
  }

  lemma TakeFifo(p: Pool, w: nat)
    requires Fifo(p)
    ensures Fifo(Next(p, Take(w)))
  {
    hide Busy;
    if |p.queue| > 0 {
      assert p.begun + [p.queue[0]] + p.queue[1..] == p.begun + p.queue;
      assert p.queue[0] in p.queue;
      assert forall t :: t in p.queue[1..] ==> t in p.queue;
      assert forall t :: t in p.begun + [p.queue[0]] ==> t in p.begun || t == p.queue[0];
    }
  }

  lemma SubmitFifo(p: Pool)
    requires Fifo(p)
    ensures Fifo(Next(p, Submit))
  {
    hide Busy;
    assert p.begun + (p.queue + [p.accepted]) == (p.begun + p.queue) + [p.accepted];
    assert forall k :: 0 <= k < |p.begun + p.queue| ==>
      (p.begun + p.queue)[k] in p.begun || (p.begun + p.queue)[k] in p.queue;
  }

  lemma NextFifo(p: Pool, e: Event)
    requires Fifo(p)
    ensures Fifo(Next(p, e))
  {
    hide Busy, Ascending, Drop;
    match e
    case Take(w) => TakeFifo(p, w);
    case Submit => SubmitFifo(p);
    case BeginStop(cancel) => DropFifo(p.(accepting := false, stopping := true));
    case DropPending => DropFifo(p);
    case _ =>
  }

  lemma DropFifo(p: Pool)
    requires Fifo(p)
    ensures Fifo(Drop(p))
  {
    assert forall i :: 0 <= i < |p.begun| ==> (p.begun + p.queue)[i] == p.begun[i];
    assert p.begun + [] == p.begun;
    forall t | t in p.begun ensures t !in p.queue {
      BegunNotQueued(p.begun, p.queue, t);
    }
  }

  lemma BegunNotQueued(begun: seq<nat>, queue: seq<nat>, t: nat)
    requires Ascending(begun + queue) && t in begun
    ensures t !in queue
  {
    var i :| 0 <= i < |begun| && begun[i] == t;
    forall j | 0 <= j < |queue| ensures queue[j] != t {
      assert (begun + queue)[i] < (begun + queue)[|begun| + j];
    }
  }

  lemma NextPlaced(p: Pool, e: Event, t: nat)
    requires AllPlaced(p) && Lifecycle(p) && t < Next(p, e).accepted
    ensures Placed(Next(p, e), t)
  {
    hide Busy;
    var q := Next(p, e);
    assert t < p.accepted ==> Placed(p, t);
    if t == p.accepted {
      assert q.queue[|q.queue| - 1] == t;
    } else if t in p.queue {
      if e.Take? && e.worker < |p.workers| && p.workers[e.worker].Waiting? {
        var k :| 0 <= k < |p.queue| && p.queue[k] == t;
        if k > 0 {
          assert q.queue[k - 1] == t;
        } else {
          assert q.workers[e.worker] == Running(t);
        }
      }
    } else if exists w :: 0 <= w < |p.workers| && p.workers[w] == Running(t) {
      var w :| 0 <= w < |p.workers| && p.workers[w] == Running(t);
      assert !AllExited(p.workers);
      if !(e.Finish? && e.worker == w) {
        assert q.workers[w] == Running(t);
      }
    }
  }

  lemma NextLifecycle(p: Pool, e: Event)
    requires Lifecycle(p) && p.threadCount > 0
    ensures Lifecycle(Next(p, e)) && Next(p, e).threadCount > 0
  {
    hide Busy;
    if e.Join? && AllExited(p.workers) && |p.workers| > 0 {
      assert p.workers[0].Exited?;
    }
  }

  lemma {:induction false} RunInv(threads: nat, capacity: nat, events: seq<Event>)
    ensures Inv(Run(threads, capacity, events))
  {
    hide Next, Fifo, Lifecycle, Accounted, Placed;
    if |events| == 0 {
      CreateInv(threads, capacity);
    } else {
      var before, e := events[..|events| - 1], events[|events| - 1];
      var p := Run(threads, capacity, before);
      RunInv(threads, capacity, before);
      NextAccounted(p, e);
      NextFifo(p, e);
      NextLifecycle(p, e);
      forall t: nat | t < Next(p, e).accepted ensures Placed(Next(p, e), t) {
        NextPlaced(p, e, t);
      }
    }
  }

  lemma CreateInv(threads: nat, capacity: nat)
    ensures Inv(Create(threads, capacity))
  {
  }

  /** Over every interleaving: accepted tasks are exactly those completed,
      dropped, queued or running; the queue never exceeds its capacity; tasks
      begin in acceptance order; a dropped task never begins. */
  lemma PoolAccounting(threads: nat, capacity: nat, events: seq<Event>)
    ensures var p := Run(threads, capacity, events);
            && p.accepted == p.completed + p.dropped + |p.queue| + p.active
            && |p.queue| <= p.capacity
            && Ascending(p.begun)
            && forall t :: t in p.begun ==> t !in p.discarded
  {
    hide Run, Busy;
    RunInv(threads, capacity, events);
    var p := Run(threads, capacity, events);
    assert forall i :: 0 <= i < |p.begun| ==> (p.begun + p.queue)[i] == p.begun[i];
  }

  /** When the stopper has joined the workers, nothing is queued or running;
      with nothing dropped, every accepted task has completed. */
  lemma DrainCompletes(threads: nat, capacity: nat, events: seq<Event>)
    requires var p := Run(threads, capacity, events);
             p.started && p.stopping && AllExited(p.workers)
    ensures var p := Next(Run(threads, capacity, events), Join);
            && !p.started && p.queue == [] && p.active == 0
            && p.accepted == p.completed + p.dropped
            && (p.dropped == 0 ==> forall t: nat :: t < p.accepted ==> t in p.finished)
  {
    hide Run, Fifo;
    var p := Run(threads, capacity, events);
    RunInv(threads, capacity, events);
    RunInv(threads, capacity, events + [Join]);
    BusyZero(p.workers);
    assert p.workers[0].Exited?;
    forall t: nat | t < p.accepted && p.dropped == 0 ensures t in p.finished {
      assert Placed(p, t);
    }
  }

  lemma DiscardedStays(p: Pool, e: Event)
    ensures p.discarded <= Next(p, e).discarded
  {
  }

  lemma {:induction false} DiscardedOverRun(threads: nat, capacity: nat, before: seq<Event>, after: seq<Event>)
    ensures Run(threads, capacity, before).discarded <= Run(threads, capacity, before + after).discarded
  {
    hide Next;
    if |after| == 0 {
      assert before + after == before;
    } else {
      var init, last := after[..|after| - 1], after[|after| - 1];
      DiscardedOverRun(threads, capacity, before, init);
      assert (before + after)[..|before + after| - 1] == before + init;
      DiscardedStays(Run(threads, capacity, before + init), last);
    }
  }

  /** Cancelling drops the queue for good: no task queued at that moment ever
      begins, whatever happens afterwards. */
  lemma CancelledNeverBegins(threads: nat, capacity: nat, before: seq<Event>, after: seq<Event>, t: nat)
    requires t in Run(threads, capacity, before).queue
    ensures Run(threads, capacity, before + [BeginStop(true)]).queue == []
    ensures var p := Run(threads, capacity, before + [BeginStop(true)] + after);
            t in p.discarded && t !in p.begun && t !in p.queue
  {
    var cancelled := before + [BeginStop(true)];
    assert cancelled[..|before|] == before;
    assert t in Run(threads, capacity, cancelled).discarded;
    DiscardedOverRun(threads, capacity, cancelled, after);
    RunInv(threads, capacity, cancelled + after);
    hide Run, Busy;
  }

  function Submissions(events: seq<Event>): nat {
    if |events| == 0 then 0
    else Submissions(events[..|events| - 1]) + (if events[|events| - 1].Submit? then 1 else 0)
  }

  /** How often a task threw. */
  function Failures(threads: nat, capacity: nat, events: seq<Event>): nat {
    if |events| == 0 then 0
    else
      var init, last := events[..|events| - 1], events[|events| - 1];
      var ws := Run(threads, capacity, init).workers;
      var threw := last.Throw? && last.worker < |ws| && ws[last.worker].Running?;
      Failures(threads, capacity, init) + (if threw then 1 else 0)
  }

  /** Over every interleaving, every submission is accepted or counted as rejected,
      and every task that threw is counted as failed. */
  lemma {:induction false} EverythingCounted(threads: nat, capacity: nat, events: seq<Event>)
    ensures var p := Run(threads, capacity, events);
            p.accepted + p.rejected == Submissions(events) && p.failed == Failures(threads, capacity, events)
  {
    hide Next;
    if |events| == 0 {
    } else {
      EverythingCounted(threads, capacity, events[..|events| - 1]);
      StepCounts(Run(threads, capacity, events[..|events| - 1]), events[|events| - 1]);
    }
  }

  lemma StepCounts(p: Pool, e: Event)
    ensures var n := Next(p, e);
            && n.accepted + n.rejected == p.accepted + p.rejected + (if e.Submit? then 1 else 0)
            && (var threw := e.Throw? && e.worker < |p.workers| && p.workers[e.worker].Running?;
                n.failed == p.failed + (if threw then 1 else 0))
            && (!p.accepting && !e.Start? ==> !n.accepting && n.accepted == p.accepted)
            && (e.StopAccepting? || e.BeginStop? ==> !n.accepting && n.accepted == p.accepted)
  {
  }

  /** Once a pool stops accepting, it accepts nothing until it is started again. */
  lemma {:induction false} StoppedAcceptsNothing(threads: nat, capacity: nat, before: seq<Event>, stop: Event,
                                                 after: seq<Event>)
    requires stop.StopAccepting? || stop.BeginStop?
    requires forall k :: 0 <= k < |after| ==> !after[k].Start?
    ensures var p := Run(threads, capacity, before + [stop] + after);
            !p.accepting && p.accepted == Run(threads, capacity, before).accepted
  {
    hide Next;
    var all := before + [stop] + after;
    if |after| == 0 {
      assert all == before + [stop];
      assert all[..|before|] == before;
      StepCounts(Run(threads, capacity, before), stop);
    } else {
      var init := after[..|after| - 1];
      StoppedAcceptsNothing(threads, capacity, before, stop, init);
      assert all[..|all| - 1] == before + [stop] + init;
      StepCounts(Run(threads, capacity, before + [stop] + init), after[|after| - 1]);
    }
  }

  // ----- the pool object -------------------------------------------------------------

  /** The pool with its mutable fields; each method is one critical section and
      takes the pool from one state of the machine above to the next. */
  class WorkerPool {
    const capacity: nat
    const threadCount: nat
    var queue: seq<nat>
    var workers: seq<Worker>
    var started: bool
    var accepting: bool
    var stopping: bool
    var active: nat
    var completed: nat
    var rejected: nat
    var dropped: nat
    var failed: nat
    var accepted: nat
    ghost var begun: seq<nat>
    ghost var finished: set<nat>
    ghost var discarded: set<nat>

    ghost function View(): Pool
      reads this
    {
      Pool(capacity, threadCount, queue, workers, started, accepting, stopping, active, completed, rejected, dropped,
           failed, accepted, begun, finished, discarded)
    }

    constructor (threads: nat, capacity: nat)
      ensures View() == Create(threads, capacity)
    {
      this.capacity, this.threadCount := Clamp(capacity, MAX_QUEUE), Clamp(threads, MAX_THREADS);
      queue, workers := [], [];
      started, accepting, stopping := false, false, false;
      active, completed, rejected, dropped, failed, accepted := 0, 0, 0, 0, 0, 0;
      begun, finished, discarded := [], {}, {};
    }

    method StartPool() returns (ok: bool)
      modifies this
      ensures View() == Next(old(View()), Start) && ok == !old(started)
    {
      if started {
        return false;
      }
      started, accepting, stopping := true, true, false;
      workers := seq(threadCount, _ => Waiting);
      return true;
    }

    method SubmitTask() returns (ok: bool)
      modifies this
      ensures View() == Next(old(View()), Submit)
      ensures ok <==> old(accepting) && !old(stopping) && old(|queue|) < capacity
    {
      if !accepting || stopping {
        rejected := rejected + 1;
        return false;
      }
      if |queue| >= capacity {
        rejected := rejected + 1;
        return false;
      }
      queue := queue + [accepted];
      accepted := accepted + 1;
      return true;
    }

    method DropQueued() returns (count: nat)
      modifies this
      ensures View() == Next(old(View()), DropPending) && count == old(|queue|)
    {
      count := |queue|;
      dropped := dropped + count;
      discarded := discarded + Elements(queue);
      queue := [];
    }

    method BeginStopping(cancel: bool)
      modifies this
      ensures View() == Next(old(View()), BeginStop(cancel))
    {
      accepting, stopping := false, true;
      if cancel {
        var _ := DropQueued();
      }
    }

    /** The head of a worker's loop: exit, wait on, or take the front task. */
    method WorkerTurn(w: nat) returns (task: Option<nat>)
      requires w < |workers| && workers[w].Waiting?
      modifies this
      ensures task == if old(|queue|) > 0 then Some(old(queue)[0]) else None
      ensures View() == Next(old(View()), if task.Some? then Take(w) else Exit(w))
    {
      if |queue| == 0 {
        if stopping {
          workers := workers[w := Exited];
        }
        return None;
      }
      task := Some(queue[0]);
      begun := begun + [queue[0]];
      workers := workers[w := Running(queue[0])];
      queue := queue[1..];
      active := active + 1;
    }

    method FinishTask(w: nat)
      requires w < |workers| && workers[w].Running?
      modifies this
      ensures View() == Next(old(View()), Finish(w))
    {
      if active > 0 {
        active := active - 1;
      }
      completed := completed + 1;
      finished := finished + {workers[w].task};
      workers := workers[w := Waiting];
    }

    method JoinWorkers()
      requires stopping && AllExited(workers)
      modifies this
      ensures View() == Next(old(View()), Join)
    {
      workers := [];
      started := false;
    }
  }
}
