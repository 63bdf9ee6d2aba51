/** Timers and periodics on one loop: `ev_run` reifies the timers, then the periodics, and both
    feed the same pending queues. */
module LoopTimes {
  import opened Watchers
  import opened Pending
  import opened Heap
  import opened Timers
  import opened Periodics
  import opened Reify

  const EMPTY: seq<seq<Entry>> := [[], [], [], [], []]

  /** The two heaps share the queues and nothing else. */
  ghost predicate OneLoop(t: TimerLoop, p: PeriodicLoop)
    reads t`timers, p`periodics
  {
    t.queue == p.queue && t.mine !! p.mine && t.timers != p.periodics
  }

  /** Watchers that were not fed are not pending. */
  lemma OthersIdle(q: Queues, ws: seq<Watcher>, m: bv32, others: set<Watcher>)
    requires q.Valid() && q.pendings == AppendBack(EMPTY, ws, m)
    requires others <= q.watchers && forall w <- ws :: w !in others
    ensures NonePending(others)
  {
    hide AppendBack, BackEntries, Queues.TraceAgrees;
    forall w <- others ensures w.pending == 0 {
      assert q.HeldOk(w);
      AppendBackQueue(EMPTY, ws, m, w.AbsPri());
      BackEntriesFrom(ws, w.AbsPri(), m);
    }
  }

  lemma NobodyPending(q: Queues, ws: set<Watcher>)
    requires q.Valid() && q.pendings == EMPTY && ws <= q.watchers
    ensures NonePending(ws)
  {
    forall w <- ws ensures w.pending == 0 {
      assert q.HeldOk(w);
    }
  }

  lemma HandledRan(order: seq<Watcher>, at0: map<Watcher, real>, run0: set<Watcher>, at: map<Watcher, real>,
                   run: set<Watcher>, repeat: map<Watcher, real>, now: real)
    requires Handled(order, at0, run0, at, run, repeat, now)
    ensures forall w <- order :: w in run0
  {}

  lemma RunningMine(t: TimerLoop, p: PeriodicLoop)
    requires t.HeapValid() && p.HeapValid()
    ensures HEAP0 + t.timercnt <= t.timers.Length && HEAP0 + p.periodiccnt <= p.periodics.Length
    ensures t.Running() <= t.mine && p.Running() <= p.mine && t.mine <= t.queue.watchers && p.mine <= p.queue.watchers
  {}

  /** The timers' reify does not touch the periodics' heap. */
  method TimersFirst(t: TimerLoop, p: PeriodicLoop) returns (ghost timers: seq<Watcher>)
    requires OneLoop(t, p) && t.Valid() && p.HeapValid()
    modifies t`timercnt, t`activecnt, t.timers, t.mine`active, t.mine`at, t.queue, t.queue.watchers`pending
    ensures t.Valid() && p.HeapValid() && p.Running() == old(p.Running()) && p.Keys() == old(p.Keys())
    ensures forall w <- p.mine :: w.at == old(w.at)
    ensures p.Recurring() == old(p.Recurring()) && (old(p.CallbacksAhead()) ==> p.CallbacksAhead())
    ensures Handled(timers, old(t.Keys()), old(t.Running()), t.Keys(), t.Running(), t.Repeats(), t.mn_now)
    ensures MovedOn(timers, old(t.Keys()), t.Keys(), t.Repeats(), t.mn_now)
    ensures forall w <- old(t.Running()) :: w in timers <==> old(w.at) < t.mn_now
    ensures forall w <- t.Running() :: w.at >= t.mn_now
    ensures t.queue.trace == old(t.queue.trace) + Clears(timers, t.Repeats()) + FedBack(timers, EV_TIMER)
    ensures old(NonePending(t.mine)) ==>
      t.queue.pendings == AppendBack(old(t.queue.pendings), timers, EV_TIMER)
  {
    hide Queues.Valid, Clears, FedBack, AppendBack, Handled, NonePending, MovedOn;
    hide TimerLoop.HeapValid, PeriodicLoop.HeapValid;
    hide PeriodicLoop.Recurring, PeriodicLoop.Keys, PeriodicLoop.Running;
    hide TimerLoop.Keys, TimerLoop.Running, TimerLoop.Repeats;
    timers := t.TimersReify();
  }

  /** Nor the periodics' the timers'. */
  method PeriodicsNext(t: TimerLoop, p: PeriodicLoop) returns (ghost periodics: seq<Watcher>)
    requires OneLoop(t, p) && t.Valid() && p.HeapValid() && p.CallbacksAhead()
    modifies p`periodiccnt, p.periodics, p.mine`active, p.mine`at, t.queue, t.queue.watchers`pending
    ensures t.Valid() && p.HeapValid()
    ensures t.Running() == old(t.Running()) && t.Repeats() == old(t.Repeats()) && t.Keys() == old(t.Keys())
    ensures forall w <- t.mine :: w.at == old(w.at)
    ensures
      HandledBy(periodics, old(p.Keys()), old(p.Running()), p.Keys(), p.Running(),
                old(p.Nexts(p.Keys())), old(p.Recurring()), p.rt_now)
    ensures forall w <- old(p.Running()) :: w in periodics <==> old(w.at) < p.rt_now
    ensures forall w <- p.Running() :: w.at >= p.rt_now
    ensures t.queue.trace == old(t.queue.trace) + Stops(periodics, old(p.Recurring())) + FedBack(periodics, EV_PERIODIC)
    ensures old(NonePending(p.mine)) ==>
      t.queue.pendings == AppendBack(old(t.queue.pendings), periodics, EV_PERIODIC)
  {
    hide TimerLoop.HeapValid, PeriodicLoop.HeapValid, Queues.Valid, Stops, FedBack, AppendBack, HandledBy, NonePending;
    hide PeriodicLoop.Nexts, PeriodicLoop.Recurring, PeriodicLoop.Keys, TimerLoop.Running, TimerLoop.Repeats;
    periodics := p.PeriodicsReify();
  }

  lemma PeriodicsIdle(t: TimerLoop, p: PeriodicLoop, timers: seq<Watcher>)
    requires OneLoop(t, p) && t.Valid() && p.HeapValid() && (forall w <- timers :: w in t.mine)
    requires t.queue.pendings == AppendBack(EMPTY, timers, EV_TIMER)
    ensures NonePending(p.mine)
  {
    OthersIdle(t.queue, timers, EV_TIMER, p.mine);
  }

  /** Exactly the watchers of either kind that are due are handled, each once and by its own clock,
      in order of expiry; the timers' feeds come before the periodics', and neither reify disturbs
      the other's heap. */
  method ReifyTimes(t: TimerLoop, p: PeriodicLoop)
    returns (ghost timers: seq<Watcher>, ghost periodics: seq<Watcher>)
    requires OneLoop(t, p) && t.Valid() && p.HeapValid() && p.CallbacksAhead()
    modifies t`timercnt, t`activecnt, t.timers, t.mine`active, t.mine`at
    modifies p`periodiccnt, p.periodics, p.mine`active, p.mine`at
    modifies t.queue, t.queue.watchers`pending
    ensures OneLoop(t, p) && t.Valid() && p.HeapValid()
    ensures Handled(timers, old(t.Keys()), old(t.Running()), t.Keys(), t.Running(), t.Repeats(), t.mn_now)
    ensures
      HandledBy(periodics, old(p.Keys()), old(p.Running()), p.Keys(), p.Running(),
                old(p.Nexts(p.Keys())), old(p.Recurring()), p.rt_now)
    ensures forall w <- old(t.Running()) :: w in timers <==> old(w.at) < t.mn_now
    ensures MovedOn(timers, old(t.Keys()), t.Keys(), t.Repeats(), t.mn_now)
    ensures forall w <- old(p.Running()) :: w in periodics <==> old(w.at) < p.rt_now
    ensures forall w <- t.Running() :: w.at >= t.mn_now
    ensures forall w <- p.Running() :: w.at >= p.rt_now
    ensures forall w <- timers :: w in t.mine
    ensures t.queue.trace == old(t.queue.trace) + Clears(timers, t.Repeats()) + FedBack(timers, EV_TIMER)
      + Stops(periodics, old(p.Recurring())) + FedBack(periodics, EV_PERIODIC)
    ensures old(t.queue.pendings) == EMPTY ==>
      t.queue.pendings == AppendBack(AppendBack(EMPTY, timers, EV_TIMER), periodics, EV_PERIODIC)
  {
    hide TimerLoop.HeapValid, PeriodicLoop.HeapValid, Queues.Valid, Clears, FedBack, Stops, Handled, HandledBy;
    hide AppendBack, MovedOn, NonePending, PeriodicLoop.Recurring, PeriodicLoop.Nexts, TimerLoop.Repeats;
    RunningMine(t, p);
    ghost var t0, run0 := t.Keys(), t.Running();
    if t.queue.pendings == EMPTY {
      NobodyPending(t.queue, t.mine);
    }
    timers := TimersFirst(t, p);
    RunningMine(t, p);
    HandledRan(timers, t0, run0, t.Keys(), t.Running(), t.Repeats(), t.mn_now);
    if old(t.queue.pendings) == EMPTY {
      PeriodicsIdle(t, p, timers);
    }
    periodics := PeriodicsNext(t, p);
  }

  /** Each watcher once, in the order of the keys. */
  ghost predicate OrderOf(order: seq<Watcher>, at0: map<Watcher, real>, run0: set<Watcher>) {
    && (forall w <- order :: w in run0 && w in at0)
    && (forall i, j :: 0 <= i < j < |order| ==> order[i] != order[j] && at0[order[i]] <= at0[order[j]])
  }

  /** `ev_invoke_pending` with nothing queued but these. */
  method InvokeTimes(t: TimerLoop, p: PeriodicLoop, ghost timers: seq<Watcher>, ghost periodics: seq<Watcher>)
    requires OneLoop(t, p) && t.Valid() && p.HeapValid()
    requires t.queue.pendings == AppendBack(AppendBack(EMPTY, timers, EV_TIMER), periodics, EV_PERIODIC)
    requires (forall w <- timers :: w in t.mine) && (forall w <- periodics :: w in p.mine)
    modifies t.queue, t.queue.watchers`pending, t.queue.dummy`pending
    ensures t.HeapValid() && t.queue.Valid() && p.HeapValid()
    ensures t.queue.pendings == EMPTY
    ensures t.queue.trace
      == old(t.queue.trace) + InvokedLateFirst(timers, EV_TIMER, periodics, EV_PERIODIC, NUMPRI)
  {
    hide AppendBack, InvokedLateFirst, Drain, OrderOf;
    DrainTwice(timers, EV_TIMER, periodics, EV_PERIODIC, t.queue.dummy, NUMPRI);
    var _ := t.queue.InvokePending([]);
  }

  lemma HandledOrder(order: seq<Watcher>, at0: map<Watcher, real>, run0: set<Watcher>, at: map<Watcher, real>,
                     run: set<Watcher>, next: map<Watcher, real>, stays: set<Watcher>, now: real)
    requires HandledBy(order, at0, run0, at, run, next, stays, now)
    ensures OrderOf(order, at0, run0)
  {}

  lemma HandledTimersOrder(order: seq<Watcher>, at0: map<Watcher, real>, run0: set<Watcher>,
                           at: map<Watcher, real>, run: set<Watcher>, repeat: map<Watcher, real>, now: real)
    requires Handled(order, at0, run0, at, run, repeat, now)
    ensures OrderOf(order, at0, run0)
  {}

  lemma OrderMembers(order: seq<Watcher>, at0: map<Watcher, real>, run0: set<Watcher>)
    requires OrderOf(order, at0, run0)
    ensures forall w <- order :: w in run0
  {}

  /** A turn of `ev_run` with nothing queued beforehand and callbacks that leave the loop alone:
      within a priority the periodics run first and then the timers, each kind in the order in
      which its watchers expired. */
  method RunDueTimes(t: TimerLoop, p: PeriodicLoop)
    returns (ghost timers: seq<Watcher>, ghost periodics: seq<Watcher>)
    requires OneLoop(t, p) && t.Valid() && p.HeapValid() && p.CallbacksAhead() && t.queue.pendings == EMPTY
    modifies t`timercnt, t`activecnt, t.timers, t.mine`active, t.mine`at
    modifies p`periodiccnt, p.periodics, p.mine`active, p.mine`at
    modifies t.queue, t.queue.watchers`pending, t.queue.dummy`pending
    ensures t.HeapValid() && t.queue.Valid() && p.HeapValid() && t.queue.pendings == EMPTY
    ensures OrderOf(timers, old(t.Keys()), old(t.Running()))
    ensures OrderOf(periodics, old(p.Keys()), old(p.Running()))
    ensures MovedOn(timers, old(t.Keys()), t.Keys(), t.Repeats(), t.mn_now)
    ensures forall w <- old(t.Running()) :: w in timers <==> old(w.at) < t.mn_now
    ensures forall w <- old(p.Running()) :: w in periodics <==> old(w.at) < p.rt_now
    ensures t.queue.trace == old(t.queue.trace) + Clears(timers, t.Repeats()) + FedBack(timers, EV_TIMER)
      + Stops(periodics, old(p.Recurring())) + FedBack(periodics, EV_PERIODIC)
      + InvokedLateFirst(timers, EV_TIMER, periodics, EV_PERIODIC, NUMPRI)
  {
    hide Queues.Valid, Clears, FedBack, Stops, Handled, HandledBy;
    hide AppendBack, InvokedLateFirst, OrderOf, MovedOn;
    hide PeriodicLoop.Nexts, PeriodicLoop.Recurring, TimerLoop.Repeats;
    ghost var at0, run0, next, stays := p.Keys(), p.Running(), p.Nexts(p.Keys()), p.Recurring();
    ghost var tat0, trun0 := t.Keys(), t.Running();
    timers, periodics := ReifyTimes(t, p);
    HandledTimersOrder(timers, tat0, trun0, t.Keys(), t.Running(), t.Repeats(), t.mn_now);
    HandledOrder(periodics, at0, run0, p.Keys(), p.Running(), next, stays, p.rt_now);
    OrderMembers(periodics, at0, run0);
    InvokeTimes(t, p, timers, periodics);
  }
}
