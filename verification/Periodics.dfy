/** Periodic watchers: `ev_periodic_start`, `ev_periodic_stop`, `periodics_reify`, and
    `periodics_reschedule`, which rewrites every key after a time jump and rebuilds the heap. */
module Periodics {
  import opened Watchers
  import opened Pending
  import opened Heap
  import opened HeapArray
  import opened Recalc
  import opened Reify

  /** When a periodic watcher runs next, seen at time `now`. */
  ghost function NextAt(w: Watcher, at: real, now: real): real
    requires w.interval >= 0.0
    reads w`reschedule, w`interval, w`offset
  {
    match w.reschedule
    case Callback(next) => next(now)
    case NoCallback => if w.interval != 0.0 then NextRun(w.offset, w.interval, now) else at
  }

  /** What a key is for, seen at time `now`: a callback's answer; the first of the offset and its
      multiples of the interval that is still to come; or, without either, the time `once`.
      Below the minimum interval the key is still to come, and on the grid when the base is. */
  ghost predicate RunsNext(w: Watcher, once: real, at: real, now: real)
    reads w`reschedule, w`interval, w`offset
  {
    match w.reschedule
    case Callback(next) => at == next(now)
    case NoCallback =>
      if w.interval > 0.0 then
        && now < at <= now + w.interval
        && (FirstAfter(w.offset, w.interval, now, at)
            <==> w.interval >= MIN_INTERVAL || Commensurable(w.offset, w.interval, now))
      else at == once
  }

  lemma NextAtRuns(w: Watcher, once: real, now: real)
    requires w.interval >= 0.0
    ensures RunsNext(w, once, NextAt(w, once, now), now)
  {
    hide FirstAfter, Commensurable, NextRun;
    if w.reschedule.NoCallback? && w.interval != 0.0 {
      NextRunSoon(w.offset, w.interval, now);
      NextRunIsFirstIff(w.offset, w.interval, now);
    }
  }

  const EV_PERIODIC: bv32 := 0x200

  /** The periodic has a callback or an interval. */
  predicate Recurs(w: Watcher)
    reads w`reschedule, w`interval
  {
    w.reschedule.Callback? || w.interval != 0.0
  }

  /** A periodic that does not recur is stopped, which clears its pending event. */
  ghost function StopOf(w: Watcher, stays: set<Watcher>): seq<Event> {
    if w in stays then [] else [Cleared(w)]
  }

  ghost function Stops(order: seq<Watcher>, stays: set<Watcher>): seq<Event> {
    if order == [] then [] else Stops(order[..|order| - 1], stays) + StopOf(order[|order| - 1], stays)
  }

  lemma StopsSnoc(rest: seq<Watcher>, order: seq<Watcher>, trace0: seq<Event>, stays: set<Watcher>)
    requires |order| == |rest| + 1 && order[..|rest|] == rest
    ensures trace0 + Stops(rest, stays) + StopOf(order[|rest|], stays) == trace0 + Stops(order, stays)
  {}

  lemma SameWatchersLinked(h: seq<Anhe>, g: seq<Anhe>, n: nat)
    requires HEAP0 + n <= |h| == |g| && Linked(h, n)
    requires forall j :: HEAP0 <= j < HEAP0 + n ==> g[j].w == h[j].w
    ensures Linked(g, n) && WatchersOf(g, n) == WatchersOf(h, n)
  {}

  class PeriodicLoop {
    var periodics: array<Anhe>
    var periodiccnt: nat
    var rt_now: real

    const queue: Queues
    /** The periodic watchers among those of the queues. */
    ghost const mine: set<Watcher>

    ghost function Running(): set<Watcher>
      requires HEAP0 + periodiccnt <= periodics.Length
      reads this`periodics, this`periodiccnt, periodics
    {
      WatchersOf(periodics[..], periodiccnt)
    }

    ghost predicate HeapValid()
      reads this`periodics, this`periodiccnt, periodics, mine`active, mine`at, mine`interval
    {
      && HEAP0 + periodiccnt <= periodics.Length
      && mine <= queue.watchers
      && Running() <= mine
      && HeapOk(periodics[..], periodiccnt)
      && (forall w <- mine :: w.active != 0 ==> w in Running())
      && (forall w <- mine :: w.interval >= 0.0)
    }

    constructor (queue: Queues, ghost mine: set<Watcher>, filler: Anhe, now: real)
      requires mine <= queue.watchers && forall w <- mine :: w.active == 0 && w.interval >= 0.0
      ensures HeapValid() && this.queue == queue && this.mine == mine && fresh(periodics)
      ensures Running() == {} && rt_now == now
    {
      periodics := new Anhe[HEAP0](_ => filler);
      periodiccnt, rt_now := 0, now;
      this.queue, this.mine := queue, mine;
    }

    /** The new key: by callback, by `periodic_recalc`, or `once`. */
    method NewKey(w: Watcher, once: real) returns (at: real)
      requires w.interval >= 0.0
      ensures at == NextAt(w, once, rt_now)
    {
      match w.reschedule
      case Callback(next) => at := next(rt_now);
      case NoCallback =>
        at := once;
        if w.interval != 0.0 {
          at := PeriodicRecalc(w.offset, w.interval, rt_now);
        }
    }

    method StoreLast(w: Watcher)
      requires HEAP0 + periodiccnt <= periodics.Length && HeapOk(periodics[..], periodiccnt) && w !in Running()
      modifies this`periodics, this`periodiccnt, periodics, Running()`active, w`active
      ensures HEAP0 + periodiccnt <= periodics.Length && HeapOk(periodics[..], periodiccnt)
      ensures Running() == old(Running()) + {w} && (periodics == old(periodics) || fresh(periodics))
    {
      hide IsHeap, Linked, Cached;
      periodiccnt := periodiccnt + 1;
      w.active := periodiccnt + HEAP0 - 1;
      periodics := Append(periodics, periodiccnt - 1, w);
    }

    method Link(w: Watcher, at: real)
      requires HeapValid() && w in mine && w.active == 0
      modifies this`periodics, this`periodiccnt, periodics, mine`active, w`at
      ensures HeapValid() && (periodics == old(periodics) || fresh(periodics))
      ensures Running() == old(Running()) + {w} && w.at == at
    {
      assert w !in Running();
      w.at := at;
      StoreLast(w);
      forall v | v in mine && v.active != 0 ensures v in Running() {
        assert v == w || old(v.active) != 0;
      }
    }

    /** `ev_periodic_start` */
    method Start(w: Watcher)
      requires HeapValid() && w in mine
      modifies this`periodics, this`periodiccnt, periodics, mine`active, w`at
      ensures HeapValid() && (periodics == old(periodics) || fresh(periodics))
      ensures Running() == old(Running()) + {w}
      ensures w.at == if old(w.active) != 0 then old(w.at) else NextAt(w, w.offset, rt_now)
      ensures old(w.active) == 0 ==> RunsNext(w, w.offset, w.at, rt_now)
    {
      hide RunsNext;
      NextAtRuns(w, w.offset, rt_now);
      if w.active == 0 {
        var at := NewKey(w, w.offset);
        Link(w, at);
      }
    }

    method Unlink(w: Watcher)
      requires HeapValid() && w in mine && w.active != 0
      modifies this`periodiccnt, periodics, mine`active
      ensures HeapValid()
      ensures Running() == old(Running()) - {w} && w.active == 0
    {
      hide IsHeap, Linked, Cached;
      periodiccnt := periodiccnt - 1;
      Remove(periodics, periodiccnt, w);
      w.active := 0;
    }

    /** `ev_periodic_stop` */
    method Stop(w: Watcher)
      requires HeapValid() && queue.Valid() && w in mine
      modifies this`periodiccnt, periodics, mine`active
      modifies queue`pendings, queue`trace, w`pending
      ensures HeapValid() && queue.Valid()
      ensures Running() == old(Running()) - {w} && w.active == 0 && w.pending == 0
      ensures queue.trace == old(queue.trace) + [Cleared(w)]
      ensures old(w.pending) == 0 ==> queue.pendings == old(queue.pendings)
    {
      var _ := queue.ClearPending(w);
      if w.active != 0 {
        Unlink(w);
      } else {
        assert w !in Running();
      }
    }

    ghost function Keys(): map<Watcher, real>
      reads mine`at
    {
      map w | w in mine :: w.at
    }

    // ---------- periodics_reify ----------

    /** What handling each periodic makes of its key. */
    ghost function Nexts(at0: map<Watcher, real>): map<Watcher, real>
      requires at0.Keys == mine && forall w <- mine :: w.interval >= 0.0
      reads this`rt_now, mine`reschedule, mine`interval, mine`offset
    {
      map w | w in mine :: NextAt(w, at0[w], rt_now)
    }

    /** The periodics that run again. */
    ghost function Recurring(): set<Watcher>
      reads mine`reschedule, mine`interval
    {
      set w | w in mine && Recurs(w)
    }

    /** The source asserts that a callback never returns a time in the past. */
    ghost predicate CallbacksAhead()
      reads this`rt_now, mine`reschedule
    {
      forall w <- mine :: w.reschedule.Callback? ==> w.reschedule.next(rt_now) >= rt_now
    }

    lemma RootRuns()
      requires HeapValid() && periodiccnt > 0
      ensures periodics[HEAP0].w in Running() && periodics[HEAP0].w in mine
    {
      assert periodics[..][HEAP0] == periodics[HEAP0];
    }

    method SetRootKey(w: Watcher, at: real)
      requires HeapValid() && periodiccnt > 0 && w == periodics[HEAP0].w
      modifies periodics, mine`active, w`at
      ensures HeapValid() && Running() == old(Running()) && w.at == at
    {
      w.at := at;
      RekeyRoot(periodics, periodiccnt);
    }

    method MoveOn(w: Watcher)
      requires HeapValid() && periodiccnt > 0 && w == periodics[HEAP0].w && w in mine
      modifies periodics, mine`active, w`at
      ensures HeapValid() && Running() == old(Running())
      ensures Keys() == old(Keys())[w := NextAt(w, old(w.at), rt_now)]
    {
      var at := NewKey(w, w.at);
      SetRootKey(w, at);
      assert Keys() == old(Keys())[w := at];
    }

    /** One round of the loop but for `feed_reverse`: reschedule or stop the periodic at the root. */
    method ReifyOne() returns (w: Watcher)
      requires HeapValid() && queue.Valid() && periodiccnt > 0
      modifies this`periodiccnt, periodics, mine`active, periodics[HEAP0].w`at
      modifies queue`pendings, queue`trace, periodics[HEAP0].w`pending
      ensures HeapValid() && queue.Valid()
      ensures w == old(periodics[HEAP0].w) && w in mine
      ensures Keys() == old(Keys())[w := NextAt(w, old(w.at), rt_now)]
      ensures RunsNext(w, old(Keys())[w], w.at, rt_now)
      ensures Running() == if Recurs(w) then old(Running()) else old(Running()) - {w}
      ensures queue.trace == old(queue.trace) + if Recurs(w) then [] else [Cleared(w)]
      ensures old(NonePending(mine)) ==> queue.pendings == old(queue.pendings) && NonePending(mine)
      ensures queue.rfeeds == old(queue.rfeeds)
    {
      RootRuns();
      w := periodics[HEAP0].w;
      if Recurs(w) {
        MoveOn(w);
        assert queue.trace == old(queue.trace) + [];
      } else {
        Stop(w);
        assert Keys() == old(Keys())[w := old(w.at)];
      }
      NextAtRuns(w, old(w.at), rt_now);
      assert w.at == Keys()[w];
    }

    /** `next` and `stays` are what handling makes of the keys `at0`, and nobody who goes on running
        stays behind the clock. */
    ghost predicate Plan(at0: map<Watcher, real>, next: map<Watcher, real>, stays: set<Watcher>)
      reads this`rt_now, mine`reschedule, mine`interval, mine`offset
    {
      && at0.Keys == next.Keys == mine
      && forall w {:trigger next[w]} | w in mine ::
           && w.interval >= 0.0
           && next[w] == NextAt(w, at0[w], rt_now)
           && (w in stays <==> Recurs(w))
           && (w in stays ==> next[w] >= rt_now)
    }

    lemma RootExpired()
      requires HeapValid() && periodiccnt > 0
      ensures var w := periodics[HEAP0].w;
        && w in Running() && w in Keys() && Keys()[w] == periodics[HEAP0].at
        && forall v <- Running() :: v in Keys() && Keys()[w] <= Keys()[v]
    {
      RootRuns();
      forall v | v in Running() ensures periodics[HEAP0].at <= v.at {
        LeastAtRoot(periodics[..], periodiccnt, v);
      }
    }

    lemma RoundReady(order: seq<Watcher>, at0: map<Watcher, real>, run0: set<Watcher>,
                     next: map<Watcher, real>, stays: set<Watcher>)
      requires HeapValid() && periodiccnt > 0 && periodics[HEAP0].at < rt_now && Plan(at0, next, stays)
      requires HandledBy(order, at0, run0, Keys(), Running(), next, stays, rt_now)
      ensures var (w, at) := (periodics[HEAP0].w, Keys());
        && w in run0 && w !in order && w in Running() && w in mine && at[w] < rt_now
        && next[w] == NextAt(w, w.at, rt_now) && (w in stays <==> Recurs(w))
        && forall v <- Running() :: v in at && v in next && at[w] <= at[v] && (v in stays ==> next[v] >= rt_now)
    {
      var w := periodics[HEAP0].w;
      RootExpired();
      assert next[w] == NextAt(w, at0[w], rt_now);
      DueIsNew(order, w, at0, run0, Keys(), Running(), next, stays, rt_now);
    }

    method ReifyNext(ghost order: seq<Watcher>, ghost at0: map<Watcher, real>, ghost run0: set<Watcher>,
                     ghost next: map<Watcher, real>, ghost stays: set<Watcher>)
      returns (w: Watcher)
      requires HeapValid() && queue.Valid() && periodiccnt > 0 && periodics[HEAP0].at < rt_now
      requires Plan(at0, next, stays)
      requires HandledBy(order, at0, run0, Keys(), Running(), next, stays, rt_now)
      modifies this`periodiccnt, periodics, mine`active, periodics[HEAP0].w`at
      modifies queue`pendings, queue`trace, periodics[HEAP0].w`pending
      ensures HeapValid() && queue.Valid() && queue.rfeeds == old(queue.rfeeds) && w in run0 && w !in order
      ensures HandledBy(order + [w], at0, run0, Keys(), Running(), next, stays, rt_now)
      ensures queue.trace == old(queue.trace) + StopOf(w, stays)
      ensures old(NonePending(mine)) ==> queue.pendings == old(queue.pendings) && NonePending(mine)
    {
      hide HandledBy, Plan;
      ghost var at, run := Keys(), Running();
      RoundReady(order, at0, run0, next, stays);
      w := ReifyOne();
      HandledByStep(order, w, at0, run0, at, run, Keys(), Running(), next, stays, rt_now);
    }

    method FeedReverse(w: Watcher)
      requires HeapValid() && queue.Valid()
      modifies queue`rfeeds
      ensures HeapValid() && queue.Valid() && queue.rfeeds == old(queue.rfeeds) + [w]
      ensures Keys() == old(Keys()) && Running() == old(Running())
    {
      queue.FeedReverse(w);
    }

    method RunRound(ghost order: seq<Watcher>, ghost at0: map<Watcher, real>, ghost run0: set<Watcher>,
                    ghost next: map<Watcher, real>, ghost stays: set<Watcher>)
      returns (ghost more: seq<Watcher>)
      requires HeapValid() && queue.Valid() && periodiccnt > 0 && periodics[HEAP0].at < rt_now
      requires Plan(at0, next, stays)
      requires HandledBy(order, at0, run0, Keys(), Running(), next, stays, rt_now)
      modifies this`periodiccnt, periodics, mine`active, periodics[HEAP0].w`at
      modifies queue`pendings, queue`trace, queue`rfeeds, periodics[HEAP0].w`pending
      ensures |more| == |order| + 1 && more[..|order|] == order && queue.rfeeds == old(queue.rfeeds) + [more[|order|]]
      ensures HeapValid() && queue.Valid()
      ensures HandledBy(more, at0, run0, Keys(), Running(), next, stays, rt_now)
      ensures Left(run0, more) < Left(run0, order)
      ensures queue.trace == old(queue.trace) + StopOf(more[|order|], stays)
      ensures old(NonePending(mine)) ==> queue.pendings == old(queue.pendings) && NonePending(mine)
    {
      hide HandledBy, Plan;
      var w := ReifyNext(order, at0, run0, next, stays);
      FeedReverse(w);
      more := order + [w];
      LeftShrinks(run0, order, w);
    }

    /** The round after `order`. */
    method ReifyRound(ghost order: seq<Watcher>, ghost at0: map<Watcher, real>, ghost run0: set<Watcher>,
                      ghost next: map<Watcher, real>, ghost stays: set<Watcher>)
      returns (ghost more: seq<Watcher>)
      requires HeapValid() && queue.Valid() && periodiccnt > 0 && periodics[HEAP0].at < rt_now
      requires Plan(at0, next, stays)
      requires HandledBy(order, at0, run0, Keys(), Running(), next, stays, rt_now)
      modifies this`periodiccnt, periodics, mine`active, mine`at
      modifies queue`pendings, queue`trace, queue`rfeeds, mine`pending
      ensures |more| == |order| + 1 && more[..|order|] == order && queue.rfeeds == old(queue.rfeeds) + [more[|order|]]
      ensures HeapValid() && queue.Valid() && Plan(at0, next, stays)
      ensures HandledBy(more, at0, run0, Keys(), Running(), next, stays, rt_now)
      ensures Left(run0, more) < Left(run0, order)
      ensures queue.trace == old(queue.trace) + StopOf(more[|order|], stays)
      ensures old(NonePending(mine)) ==> queue.pendings == old(queue.pendings) && NonePending(mine)
    {
      hide HandledBy;
      RootRuns();
      more := RunRound(order, at0, run0, next, stays);
    }

    lemma RecurAhead(at0: map<Watcher, real>)
      requires HeapValid() && CallbacksAhead() && at0.Keys == mine
      ensures Plan(at0, Nexts(at0), Recurring())
    {
      forall w | w in mine && w.reschedule.NoCallback? && w.interval != 0.0
        ensures NextAt(w, at0[w], rt_now) >= rt_now
      {
        NextRunSoon(w.offset, w.interval, rt_now);
      }
    }

    /** The loop of `periodics_reify`. */
    method HandleDue(ghost at0: map<Watcher, real>, ghost run0: set<Watcher>,
                     ghost next: map<Watcher, real>, ghost stays: set<Watcher>)
      returns (ghost order: seq<Watcher>)
      requires HeapValid() && queue.Valid() && queue.rfeeds == []
      requires Plan(at0, next, stays) && HandledBy([], at0, run0, Keys(), Running(), next, stays, rt_now)
      modifies this`periodiccnt, periodics, mine`active, mine`at
      modifies queue`pendings, queue`trace, queue`rfeeds, mine`pending
      ensures HeapValid() && queue.Valid() && queue.rfeeds == order
      ensures HandledBy(order, at0, run0, Keys(), Running(), next, stays, rt_now)
      ensures periodiccnt == 0 || periodics[HEAP0].at >= rt_now
      ensures queue.trace == old(queue.trace) + Stops(order, stays)
      ensures old(NonePending(mine)) ==> queue.pendings == old(queue.pendings) && NonePending(mine)
    {
      hide HandledBy, Plan, Keys, Running, Queues.Valid;
      ghost var trace0 := queue.trace;
      order := [];
      while periodiccnt > 0 && periodics[HEAP0].at < rt_now
        invariant HeapValid() && queue.Valid() && queue.rfeeds == order && Plan(at0, next, stays)
        invariant HandledBy(order, at0, run0, Keys(), Running(), next, stays, rt_now)
        invariant queue.trace == trace0 + Stops(order, stays)
        invariant old(NonePending(mine)) ==> queue.pendings == old(queue.pendings) && NonePending(mine)
        decreases Left(run0, order)
      {
        ghost var rest := order;
        order := ReifyRound(order, at0, run0, next, stays);
        StopsSnoc(rest, order, trace0, stays);
      }
    }

    /** The periodics in `order` have left their keys `at0` behind. */
    ghost predicate AllRunNext(order: seq<Watcher>, at0: map<Watcher, real>, at: map<Watcher, real>)
      reads this`rt_now, order`reschedule, order`interval, order`offset
    {
      forall w <- order :: w in at0 && w in at && RunsNext(w, at0[w], at[w], rt_now)
    }

    lemma HandledRunNext(order: seq<Watcher>, at0: map<Watcher, real>, run0: set<Watcher>,
                         at: map<Watcher, real>, run: set<Watcher>,
                         next: map<Watcher, real>, stays: set<Watcher>)
      requires HandledBy(order, at0, run0, at, run, next, stays, rt_now) && Plan(at0, next, stays)
      ensures AllRunNext(order, at0, at) && forall w <- order :: w in mine
      ensures forall i, j :: 0 <= i < j < |order| ==> order[i] != order[j]
    {
      hide RunsNext, NextAt;
      forall w <- order ensures w in mine && w in at0 && w in at && RunsNext(w, at0[w], at[w], rt_now) {
        assert w in run0 && w in mine && at[w] == next[w];
        NextAtRuns(w, at0[w], rt_now);
      }
    }

    lemma NothingDue()
      requires HeapValid() && (periodiccnt == 0 || periodics[HEAP0].at >= rt_now)
      ensures forall w <- Running() :: w.at >= rt_now
    {
      if periodiccnt > 0 {
        RootExpired();
      }
    }

    method FeedReverseDone()
      requires HeapValid() && queue.Valid() && forall w <- queue.rfeeds :: w in mine
      requires forall i, j :: 0 <= i < j < |queue.rfeeds| ==> queue.rfeeds[i] != queue.rfeeds[j]
      modifies queue`pendings, queue`pendingpri, queue`trace, queue`rfeeds, queue.watchers`pending
      ensures HeapValid() && queue.Valid() && queue.rfeeds == []
      ensures Keys() == old(Keys()) && Running() == old(Running())
      ensures queue.trace == old(queue.trace) + FedBack(old(queue.rfeeds), EV_PERIODIC)
      ensures old(NonePending(mine)) ==>
        queue.pendings == AppendBack(old(queue.pendings), old(queue.rfeeds), EV_PERIODIC)
    {
      if queue.rfeeds != [] {
        queue.FeedReverseDone(EV_PERIODIC);
      } else {
        assert queue.trace == old(queue.trace) + [];
      }
    }

    /** `periodics_reify`: exactly the periodics due on entry are handled, earliest first, and fed
        last one first; no running one is left behind the clock. */
    method PeriodicsReify() returns (ghost order: seq<Watcher>)
      requires HeapValid() && queue.Valid() && queue.rfeeds == [] && CallbacksAhead()
      modifies this`periodiccnt, periodics, queue, mine`active, mine`at, queue.watchers`pending
      ensures HeapValid() && queue.Valid() && queue.rfeeds == []
      ensures
        HandledBy(order, old(Keys()), old(Running()), Keys(), Running(),
                  old(Nexts(Keys())), old(Recurring()), rt_now)
      ensures forall w <- old(Running()) :: w in order <==> old(w.at) < rt_now
      ensures AllRunNext(order, old(Keys()), Keys())
      ensures forall w <- Running() :: w.at >= rt_now
      ensures queue.trace == old(queue.trace) + Stops(order, old(Recurring())) + FedBack(order, EV_PERIODIC)
      ensures old(NonePending(mine)) ==> queue.pendings == AppendBack(old(queue.pendings), order, EV_PERIODIC)
    {
      hide AppendBack, FedBack, Stops, Queues.Valid, AllRunNext, Plan, HandledBy, RunsNext, NextAt;
      hide Nexts, Recurring, NonePending, HeapOk;
      ghost var at0, run0, next, stays := Keys(), Running(), Nexts(Keys()), Recurring();
      RecurAhead(at0);
      NoneHandled(at0, run0, next, stays, rt_now);
      order := HandleDue(at0, run0, next, stays);
      NothingDue();
      AllHandled(order, at0, run0, Keys(), Running(), next, stays, rt_now);
      HandledRunNext(order, at0, run0, Keys(), Running(), next, stays);
      FeedReverseDone();
    }

    // ---------- periodics_reschedule ----------

    /** The heap is linked as in `h`, whatever its keys. */
    ghost predicate RewriteFrame(h: seq<Anhe>)
      reads this`periodics, this`periodiccnt, mine`active, mine`interval
      reads (if HEAP0 + periodiccnt <= |h| then WatchersOf(h, periodiccnt) else {})`active
    {
      && HEAP0 + periodiccnt <= periodics.Length == |h| && mine <= queue.watchers
      && WatchersOf(h, periodiccnt) <= mine && Linked(h, periodiccnt)
      && (forall w <- mine :: w.interval >= 0.0 && (w.active != 0 ==> w in WatchersOf(h, periodiccnt)))
    }

    ghost predicate Recached(h: seq<Anhe>)
      requires HEAP0 + periodiccnt <= periodics.Length == |h|
      reads this`periodics, this`periodiccnt, periodics, WatchersOf(h, periodiccnt)`at
    {
      var g := periodics[..];
      forall j :: HEAP0 <= j < HEAP0 + periodiccnt ==> g[j].w == h[j].w && g[j].at == h[j].w.at
    }

    /** `i` rounds of the rewriting loop have been done on the heap `h` with the keys `at0`. */
    ghost predicate RewriteState(h: seq<Anhe>, i: nat, at0: map<Watcher, real>)
      reads this`periodics, this`periodiccnt, this`rt_now, periodics
      reads mine`active, mine`at, mine`interval, mine`reschedule, mine`offset
      reads (if HEAP0 + periodiccnt <= |h| then WatchersOf(h, periodiccnt) else {})`active
    {
      && RewriteFrame(h) && Recached(h) && i <= periodiccnt && at0.Keys == mine
      && (forall w <- mine :: w.at ==
            if w in WatchersOf(h, periodiccnt) && w.active < HEAP0 + i then NextAt(w, at0[w], rt_now) else at0[w])
    }

    /** The watcher in slot `k` is in no other slot. */
    lemma AloneInSlot(h: seq<Anhe>, k: nat)
      requires RewriteFrame(h) && HEAP0 <= k < HEAP0 + periodiccnt
      ensures var w := h[k].w;
        && w in WatchersOf(h, periodiccnt) && w in mine && w.active == k
        && (forall j :: HEAP0 <= j < HEAP0 + periodiccnt && j != k ==> h[j].w != w)
        && (forall v <- WatchersOf(h, periodiccnt) :: v.active == k ==> v == w)
    {}

    method RewriteOne(i: nat, ghost h: seq<Anhe>, ghost at0: map<Watcher, real>)
      requires RewriteState(h, i, at0) && i < periodiccnt
      modifies periodics, mine`at
      ensures RewriteState(h, i + 1, at0)
    {
      hide NextAt, Linked, WatchersOf;
      AloneInSlot(h, i + HEAP0);
      var w := periodics[i + HEAP0].w;
      assert h[i + HEAP0].w == periodics[..][i + HEAP0].w == w;
      var at := NewKey(w, w.at);
      w.at := at;
      periodics[i + HEAP0] := Anhe(at, w);
    }

    method FinishRewrite(ghost h: seq<Anhe>, ghost at0: map<Watcher, real>)
      requires RewriteState(h, periodiccnt, at0)
      modifies periodics, mine`active
      ensures HeapValid() && Running() == WatchersOf(h, periodiccnt)
      ensures forall w <- mine :: w.at == if w in Running() then NextAt(w, at0[w], rt_now) else at0[w]
    {
      SameWatchersLinked(h, periodics[..], periodiccnt);
      ghost var run := Running();
      Rebuild(periodics, periodiccnt);
      forall w | w in mine && w.active != 0 ensures w in Running() {
        assert w in run;
      }
    }

    /** `periodics_reschedule` */
    method PeriodicsReschedule()
      requires HeapValid()
      modifies periodics, mine`at, mine`active
      ensures HeapValid() && Running() == old(Running())
      ensures forall w <- mine ::
        w.at == if w in Running() then NextAt(w, old(w.at), rt_now) else old(w.at)
      ensures forall w <- Running() :: w in mine && RunsNext(w, old(Keys())[w], w.at, rt_now)
    {
      hide RunsNext;
      ghost var h, at0 := periodics[..], Keys();
      for i := 0 to periodiccnt
        invariant RewriteState(h, i, at0)
      {
        RewriteOne(i, h, at0);
      }
      FinishRewrite(h, at0);
      forall w <- Running() ensures RunsNext(w, at0[w], w.at, rt_now) {
        NextAtRuns(w, at0[w], rt_now);
      }
    }
  }
}
