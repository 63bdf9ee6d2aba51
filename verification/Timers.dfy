/** Timer watchers: `ev_timer_start`, `ev_timer_stop`, `ev_timer_again`, `timers_reify`,
    `timers_reschedule`. */
module Timers {
  import opened Watchers
  import opened Pending
  import opened Heap
  import opened HeapArray
  import opened Reify

  const EV_TIMER: bv32 := 0x100

  function Later(a: real, b: real): real {
    if a < b then b else a
  }

  /** The key `timers_reify` leaves in a handled timer. */
  function NextKey(at: real, repeat: real, now: real): real {
    if repeat != 0.0 then Later(at + repeat, now) else at - now
  }

  /** A timer that does not repeat is stopped, which clears its pending event. */
  function ClearedIfOnce(w: Watcher, repeat: real): seq<Event> {
    if repeat != 0.0 then [] else [Cleared(w)]
  }

  /** What handling each timer makes of its key, and which timers go on running. */
  function NextKeys(at0: map<Watcher, real>, repeat: map<Watcher, real>, now: real): map<Watcher, real> {
    map w | w in at0 && w in repeat :: NextKey(at0[w], repeat[w], now)
  }

  function Repeating(repeat: map<Watcher, real>): set<Watcher> {
    set w | w in repeat && repeat[w] != 0.0
  }

  ghost predicate Handled(order: seq<Watcher>, at0: map<Watcher, real>, run0: set<Watcher>,
                          at: map<Watcher, real>, run: set<Watcher>, repeat: map<Watcher, real>, now: real)
  {
    repeat.Keys == at0.Keys && HandledBy(order, at0, run0, at, run, NextKeys(at0, repeat, now), Repeating(repeat), now)
  }

  /** The timers in `order` have left their keys behind: a repeating one is due again one repeat
      later, or at once if that is past as well; one that does not repeat keeps its time relative
      to the clock. */
  ghost predicate MovedOn(order: seq<Watcher>, at0: map<Watcher, real>, at: map<Watcher, real>,
                          repeat: map<Watcher, real>, now: real)
  {
    forall w <- order ::
      && w in at0 && w in at && w in repeat
      && (repeat[w] != 0.0 && at0[w] + repeat[w] >= now ==> at[w] == at0[w] + repeat[w])
      && (repeat[w] != 0.0 && at0[w] + repeat[w] < now ==> at[w] == now)
      && (repeat[w] == 0.0 ==> at[w] == at0[w] - now)
  }

  lemma HandledMoves(order: seq<Watcher>, at0: map<Watcher, real>, run0: set<Watcher>,
                     at: map<Watcher, real>, run: set<Watcher>, repeat: map<Watcher, real>, now: real)
    requires Handled(order, at0, run0, at, run, repeat, now)
    ensures MovedOn(order, at0, at, repeat, now)
  {}

  lemma HandledStep(order: seq<Watcher>, w: Watcher, at0: map<Watcher, real>, run0: set<Watcher>,
                    at: map<Watcher, real>, run: set<Watcher>, at': map<Watcher, real>, run': set<Watcher>,
                    repeat: map<Watcher, real>, now: real)
    requires Handled(order, at0, run0, at, run, repeat, now)
    requires w in run && at[w] < now && forall v <- run :: v in at && at[w] <= at[v]
    requires forall v <- run :: repeat[v] >= 0.0
    requires at' == at[w := NextKey(at[w], repeat[w], now)]
    requires run' == if repeat[w] != 0.0 then run else run - {w}
    ensures w !in order && Handled(order + [w], at0, run0, at', run', repeat, now)
  {
    var next := NextKeys(at0, repeat, now);
    HandledByStep(order, w, at0, run0, at, run, at', run', next, Repeating(repeat), now);
  }

  /** The stops among the handled timers. */
  function Clears(order: seq<Watcher>, repeat: map<Watcher, real>): seq<Event>
    requires forall w <- order :: w in repeat
  {
    if order == [] then []
    else
      var w, rest := order[|order| - 1], order[..|order| - 1];
      Clears(rest, repeat) + ClearedIfOnce(w, repeat[w])
  }

  lemma ClearsSnoc(rest: seq<Watcher>, order: seq<Watcher>, trace0: seq<Event>, repeat: map<Watcher, real>)
    requires |order| == |rest| + 1 && order[..|rest|] == rest && forall w <- order :: w in repeat
    ensures var w := order[|rest|];
      trace0 + Clears(rest, repeat) + ClearedIfOnce(w, repeat[w]) == trace0 + Clears(order, repeat)
  {}

  /** Each watcher once, by key. */
  ghost predicate ByExpiry(order: seq<Watcher>, at0: map<Watcher, real>, ws: set<Watcher>) {
    && (forall w <- order :: w in ws && w in at0)
    && (forall i, j :: 0 <= i < j < |order| ==> order[i] != order[j] && at0[order[i]] <= at0[order[j]])
  }

  /** The first `i` elements of `h` have had their keys shifted in `g`. */
  ghost predicate Shifted(h: seq<Anhe>, g: seq<Anhe>, i: nat, adjust: real) {
    |g| == |h| && forall j :: 0 <= j < |h| ==>
      g[j] == if HEAP0 <= j < HEAP0 + i then h[j].(at := h[j].at + adjust) else h[j]
  }

  lemma ShiftedHeap(h: seq<Anhe>, g: seq<Anhe>, n: nat, adjust: real)
    requires IsHeap(h, n) && Shifted(h, g, n, adjust)
    ensures IsHeap(g, n) && WatchersOf(g, n) == WatchersOf(h, n)
  {
    forall k | HEAP0 <= k < HEAP0 + n ensures EdgeOk(g, k) {
      assert EdgeOk(h, k);
    }
    assert forall k :: HEAP0 <= k < HEAP0 + n ==> g[k].w == h[k].w;
  }

  class TimerLoop {
    var timers: array<Anhe>
    var timercnt: nat
    var mn_now: real
    var activecnt: int

    const queue: Queues
    /** The timer watchers among those of the queues. */
    ghost const mine: set<Watcher>

    /** The running timers. */
    ghost function Running(): set<Watcher>
      requires HEAP0 + timercnt <= timers.Length
      reads this`timers, this`timercnt, timers
    {
      WatchersOf(timers[..], timercnt)
    }

    /** The heap is in order and holds exactly the active watchers. */
    ghost predicate HeapValid()
      reads this`timers, this`timercnt, timers, mine`active, mine`at, mine`repeat
    {
      && HEAP0 + timercnt <= timers.Length
      && mine <= queue.watchers
      && Running() <= mine
      && HeapOk(timers[..], timercnt)
      && (forall w <- mine :: w.active != 0 ==> w in Running() && w.repeat >= 0.0)
    }

    ghost predicate Valid()
      reads this`timers, this`timercnt, timers, mine`active, mine`at, mine`repeat
      reads queue`pendings, queue`pendingpri, queue`trace, queue`rfeeds, queue.watchers`pending
    {
      HeapValid() && queue.Valid() && queue.rfeeds == []
    }

    constructor (queue: Queues, ghost mine: set<Watcher>, filler: Anhe, now: real)
      requires queue.Valid() && queue.rfeeds == [] && mine <= queue.watchers && forall w <- mine :: w.active == 0
      ensures Valid() && this.queue == queue && this.mine == mine && fresh(timers) && Running() == {} && mn_now == now
    {
      timers := new Anhe[HEAP0](_ => filler);
      timercnt, mn_now, activecnt := 0, now, 0;
      this.queue, this.mine := queue, mine;
    }

    lemma NotRunning(w: Watcher)
      requires HeapValid() && w.active == 0
      ensures w !in Running()
    {}

    lemma RunningRepeat()
      requires HeapValid()
      ensures forall w <- Running() :: w.active != 0 && w.repeat >= 0.0
    {}

    method StoreLast(w: Watcher)
      requires HEAP0 + timercnt <= timers.Length && HeapOk(timers[..], timercnt) && w !in Running()
      modifies this`timers, this`timercnt, timers, Running()`active, w`active
      ensures HEAP0 + timercnt <= timers.Length && HeapOk(timers[..], timercnt)
      ensures Running() == old(Running()) + {w} && (timers == old(timers) || fresh(timers))
    {
      hide IsHeap, Linked, Cached;
      timercnt := timercnt + 1;
      w.active := timercnt + HEAP0 - 1;
      timers := Append(timers, timercnt - 1, w);
    }

    /** The part of `ev_timer_start` behind the test for an active watcher. */
    method Link(w: Watcher)
      requires HeapValid() && w in mine && w.repeat >= 0.0 && w !in Running()
      modifies this`timers, this`timercnt, this`activecnt, timers, mine`active, w`at
      ensures HeapValid() && (timers == old(timers) || fresh(timers))
      ensures Running() == old(Running()) + {w}
      ensures w.at == old(w.at) + mn_now && activecnt == old(activecnt) + 1
    {
      w.at := w.at + mn_now;
      activecnt := activecnt + 1;
      StoreLast(w);
      forall v | v in mine && v.active != 0 ensures v in Running() && v.repeat >= 0.0 {
        assert v == w || old(v.active) != 0;
      }
    }

    /** `ev_timer_start` */
    method Start(w: Watcher)
      requires HeapValid() && w in mine && w.repeat >= 0.0
      modifies this`timers, this`timercnt, this`activecnt, timers, mine`active, w`at
      ensures HeapValid() && (timers == old(timers) || fresh(timers))
      ensures Running() == old(Running()) + {w}
      ensures old(w.active) != 0 ==> w.at == old(w.at) && activecnt == old(activecnt)
      ensures old(w.active) == 0 ==> w.at == old(w.at) + mn_now && activecnt == old(activecnt) + 1
    {
      if w.active == 0 {
        NotRunning(w);
        Link(w);
      }
    }

    /** The part of `ev_timer_stop` behind the test for an inactive watcher. */
    method Unlink(w: Watcher)
      requires HeapValid() && w in mine && w.active != 0
      modifies this`timercnt, this`activecnt, timers, mine`active, w`at
      ensures HeapValid()
      ensures Running() == old(Running()) - {w} && w.active == 0
      ensures w.at == old(w.at) - mn_now && activecnt == old(activecnt) - 1
    {
      hide IsHeap, Linked, Cached;
      RunningRepeat();
      timercnt := timercnt - 1;
      Remove(timers, timercnt, w);
      w.at := w.at - mn_now;
      assert HeapOk(timers[..], timercnt);
      activecnt := activecnt - 1;
      w.active := 0;
      assert HeapOk(timers[..], timercnt);
      forall v | v in mine && v.active != 0 ensures v in Running() && v.repeat >= 0.0 {
        assert v in old(Running());
      }
    }

    /** `ev_timer_stop` */
    method Stop(w: Watcher)
      requires HeapValid() && queue.Valid() && w in mine
      modifies this`timercnt, this`activecnt, timers, mine`active, w`at
      modifies queue`pendings, queue`trace, w`pending
      ensures HeapValid() && queue.Valid()
      ensures Running() == old(Running()) - {w} && w.active == 0 && w.pending == 0
      ensures queue.trace == old(queue.trace) + [Cleared(w)]
      ensures old(queue.HeldOk(w))
      ensures queue.pendings == ClearedQueues(old(queue.pendings), queue.dummy, w, old(w.pending))
      ensures old(w.active) == 0 ==> w.at == old(w.at) && activecnt == old(activecnt)
      ensures old(w.active) != 0 ==> w.at == old(w.at) - mn_now && activecnt == old(activecnt) - 1
    {
      var _ := queue.ClearPending(w);
      if w.active == 0 {
        NotRunning(w);
      } else {
        Unlink(w);
      }
    }

    /** Gives a running timer a new key and moves it to its place. */
    method SetKey(w: Watcher, at: real)
      requires HeapValid() && w in mine && w.active != 0
      modifies timers, mine`active, w`at
      ensures HeapValid() && Running() == old(Running()) && w.at == at
    {
      w.at := at;
      Rekey(timers, timercnt, w.active);
    }

    method StartAnew(w: Watcher)
      requires HeapValid() && w in mine && w.active == 0 && w.repeat >= 0.0
      modifies this`timers, this`timercnt, this`activecnt, timers, mine`active, w`at
      ensures HeapValid() && (timers == old(timers) || fresh(timers))
      ensures Running() == old(Running()) + {w} && w.at == mn_now + w.repeat
    {
      NotRunning(w);
      w.at := w.repeat;
      assert HeapOk(timers[..], timercnt);
      Start(w);
    }

    /** The part of `ev_timer_again` behind the clearing of the pending event. */
    method Restart(w: Watcher)
      requires HeapValid() && queue.Valid() && w in mine && w.repeat >= 0.0 && w.pending == 0
      modifies this`timers, this`timercnt, this`activecnt, timers, mine`active, w`at
      modifies queue`pendings, queue`trace, w`pending
      ensures HeapValid() && queue.Valid() && w.pending == 0 && (timers == old(timers) || fresh(timers))
      ensures w.repeat != 0.0 ==> Running() == old(Running()) + {w} && w.at == mn_now + w.repeat
      ensures w.repeat == 0.0 ==>
        && Running() == old(Running()) - {w}
        && w.at == if old(w.active) != 0 then old(w.at) - mn_now else old(w.at)
    {
      if w.active != 0 {
        if w.repeat != 0.0 {
          SetKey(w, mn_now + w.repeat);
        } else {
          Stop(w);
        }
      } else if w.repeat != 0.0 {
        StartAnew(w);
      } else {
        NotRunning(w);
      }
    }

    /** `ev_timer_again` */
    method Again(w: Watcher)
      requires HeapValid() && queue.Valid() && w in mine && w.repeat >= 0.0
      modifies this`timers, this`timercnt, this`activecnt, timers, mine`active, w`at
      modifies queue`pendings, queue`trace, w`pending
      ensures HeapValid() && queue.Valid() && w.pending == 0 && (timers == old(timers) || fresh(timers))
      ensures w.repeat != 0.0 ==> Running() == old(Running()) + {w} && w.at == mn_now + w.repeat
      ensures w.repeat == 0.0 ==>
        && Running() == old(Running()) - {w}
        && w.at == if old(w.active) != 0 then old(w.at) - mn_now else old(w.at)
    {
      var _ := queue.ClearPending(w);
      Restart(w);
    }

    ghost function Keys(): map<Watcher, real>
      reads mine`at
    {
      map w | w in mine :: w.at
    }

    ghost function Repeats(): map<Watcher, real>
      reads mine`repeat
    {
      map w | w in mine :: w.repeat
    }

    lemma RootRuns()
      requires HeapValid() && timercnt > 0
      ensures var w := timers[HEAP0].w; w in mine && w.active == HEAP0 && w.repeat >= 0.0
    {
      assert timers[..][HEAP0] == timers[HEAP0];
      assert timers[HEAP0].w in Running();
    }

    method MoveOn(w: Watcher)
      requires HeapValid() && timercnt > 0 && w == timers[HEAP0].w
      modifies timers, mine`active, w`at
      ensures HeapValid() && Running() == old(Running())
      ensures Keys() == old(Keys())[w := Later(old(w.at) + w.repeat, mn_now)]
    {
      hide IsHeap;
      w.at := w.at + w.repeat;
      if w.at < mn_now {
        w.at := mn_now;
      }
      RekeyRoot(timers, timercnt);
      assert Keys() == old(Keys())[w := Later(old(w.at) + w.repeat, mn_now)];
    }

    /** A repeating timer at the root gets its next expiry, but none in the past. */
    method Reschedule(w: Watcher)
      requires HeapValid() && queue.Valid() && timercnt > 0 && w == timers[HEAP0].w && w.repeat != 0.0
      modifies timers, mine`active, w`at
      ensures HeapValid() && queue.Valid() && Running() == old(Running())
      ensures Keys() == old(Keys())[w := NextKey(old(w.at), w.repeat, mn_now)]
      ensures queue.trace == old(queue.trace) + ClearedIfOnce(w, w.repeat)
    {
      MoveOn(w);
      assert queue.trace == old(queue.trace) + [];
    }

    /** A timer at the root that does not repeat is stopped. */
    method StopExpired(w: Watcher)
      requires HeapValid() && queue.Valid() && w in mine && w.active != 0 && w.repeat == 0.0
      modifies this`timercnt, this`activecnt, timers, mine`active, w`at
      modifies queue`pendings, queue`trace, w`pending
      ensures HeapValid() && queue.Valid()
      ensures Running() == old(Running()) - {w}
      ensures Keys() == old(Keys())[w := NextKey(old(w.at), w.repeat, mn_now)]
      ensures queue.trace == old(queue.trace) + ClearedIfOnce(w, w.repeat)
      ensures old(NonePending(mine)) ==> queue.pendings == old(queue.pendings) && NonePending(mine)
    {
      Stop(w);
      assert Keys() == old(Keys())[w := old(w.at) - mn_now];
    }

    /** One round of the loop in `timers_reify`, but for `feed_reverse`: reschedule or stop the
        timer at the root. */
    method ReifyOne() returns (w: Watcher)
      requires HeapValid() && queue.Valid() && timercnt > 0
      modifies this`timercnt, this`activecnt, timers, mine`active, timers[HEAP0].w`at
      modifies queue`pendings, queue`trace, timers[HEAP0].w`pending
      ensures HeapValid() && queue.Valid()
      ensures w == old(timers[HEAP0].w) && w in mine && Repeats() == old(Repeats())
      ensures Keys() == old(Keys())[w := NextKey(old(Keys())[w], Repeats()[w], mn_now)]
      ensures MovedOn([w], old(Keys()), Keys(), Repeats(), mn_now)
      ensures Running() == if Repeats()[w] != 0.0 then old(Running()) else old(Running()) - {w}
      ensures queue.trace == old(queue.trace) + ClearedIfOnce(w, Repeats()[w])
      ensures old(NonePending(mine)) ==> queue.pendings == old(queue.pendings) && NonePending(mine)
    {
      w := timers[HEAP0].w;
      RootRuns();
      if w.repeat != 0.0 {
        Reschedule(w);
      } else {
        StopExpired(w);
      }
    }

    method FeedReverse(w: Watcher)
      requires HeapValid() && queue.Valid()
      modifies queue`rfeeds
      ensures HeapValid() && queue.Valid() && queue.rfeeds == old(queue.rfeeds) + [w]
      ensures Keys() == old(Keys()) && Running() == old(Running()) && Repeats() == old(Repeats())
    {
      queue.FeedReverse(w);
    }

    method FeedReverseDone()
      requires HeapValid() && queue.Valid() && forall w <- queue.rfeeds :: w in mine
      requires forall i, j :: 0 <= i < j < |queue.rfeeds| ==> queue.rfeeds[i] != queue.rfeeds[j]
      modifies queue`pendings, queue`pendingpri, queue`trace, queue`rfeeds, queue.watchers`pending
      ensures Valid() && Keys() == old(Keys()) && Running() == old(Running()) && Repeats() == old(Repeats())
      ensures queue.trace == old(queue.trace) + FedBack(old(queue.rfeeds), EV_TIMER)
      ensures old(NonePending(mine)) ==>
        queue.pendings == AppendBack(old(queue.pendings), old(queue.rfeeds), EV_TIMER)
    {
      if queue.rfeeds != [] {
        queue.FeedReverseDone(EV_TIMER);
      }
    }

    lemma RootExpired()
      requires HeapValid() && timercnt > 0
      ensures var w := timers[HEAP0].w;
        && w in Running() && w.active == HEAP0 && w in Keys() && Keys()[w] == timers[HEAP0].at
        && forall v <- Running() :: v in Keys() && Keys()[w] <= Keys()[v] && Repeats()[v] >= 0.0
    {
      forall v | v in Running() ensures timers[HEAP0].at <= v.at {
        LeastAtRoot(timers[..], timercnt, v);
      }
    }

    method ReifyNext(ghost order: seq<Watcher>, ghost at0: map<Watcher, real>, ghost run0: set<Watcher>)
      returns (w: Watcher)
      requires HeapValid() && queue.Valid() && timercnt > 0 && timers[HEAP0].at < mn_now
      requires Handled(order, at0, run0, Keys(), Running(), Repeats(), mn_now)
      modifies this`timercnt, this`activecnt, timers, mine`active, timers[HEAP0].w`at
      modifies queue`pendings, queue`trace, timers[HEAP0].w`pending
      ensures HeapValid() && queue.Valid() && Repeats() == old(Repeats())
      ensures w == old(timers[HEAP0].w) && w in run0 && w !in order && w in mine
      ensures Handled(order + [w], at0, run0, Keys(), Running(), Repeats(), mn_now)
      ensures queue.trace == old(queue.trace) + ClearedIfOnce(w, Repeats()[w])
      ensures old(NonePending(mine)) ==>
        queue.pendings == old(queue.pendings) && NonePending(mine)
    {
      ghost var at, run, repeat := Keys(), Running(), Repeats();
      RootExpired();
      w := ReifyOne();
      HandledStep(order, w, at0, run0, at, run, Keys(), Running(), repeat, mn_now);
    }

    /** The round after `order`. */
    method ReifyRound(ghost order: seq<Watcher>, ghost at0: map<Watcher, real>, ghost run0: set<Watcher>)
      returns (ghost order': seq<Watcher>)
      requires HeapValid() && queue.Valid() && timercnt > 0 && timers[HEAP0].at < mn_now
      requires Handled(order, at0, run0, Keys(), Running(), Repeats(), mn_now) && queue.rfeeds == order
      modifies this`timercnt, this`activecnt, timers, mine`active, timers[HEAP0].w`at
      modifies queue`pendings, queue`trace, queue`rfeeds, timers[HEAP0].w`pending
      ensures HeapValid() && queue.Valid() && queue.rfeeds == order'
      ensures order' == order + [old(timers[HEAP0].w)] && old(timers[HEAP0].w) !in order
      ensures Handled(order', at0, run0, Keys(), Running(), Repeats(), mn_now)
      ensures var w := old(timers[HEAP0].w);
        w in mine && queue.trace == old(queue.trace) + ClearedIfOnce(w, Repeats()[w])
      ensures Repeats() == old(Repeats())
      ensures old(NonePending(mine)) ==>
        queue.pendings == old(queue.pendings) && NonePending(mine)
      ensures Left(run0, order') < Left(run0, order)
    {
      hide Handled, IsHeap, Linked, Cached;
      var w := ReifyNext(order, at0, run0);
      FeedReverse(w);
      order' := order + [w];
      LeftShrinks(run0, order, w);
    }

    /** The loop of `timers_reify`. */
    method HandleDue() returns (ghost order: seq<Watcher>)
      requires Valid()
      modifies this`timercnt, this`activecnt, timers, mine`active, mine`at, mine`pending
      modifies queue`pendings, queue`trace, queue`rfeeds
      ensures HeapValid() && queue.Valid() && queue.rfeeds == order
      ensures Handled(order, old(Keys()), old(Running()), Keys(), Running(), Repeats(), mn_now)
      ensures timercnt == 0 || timers[HEAP0].at >= mn_now
      ensures queue.trace == old(queue.trace) + Clears(order, Repeats())
      ensures old(NonePending(mine)) ==>
        queue.pendings == old(queue.pendings) && NonePending(mine)
    {
      ghost var at0, run0, repeat, trace0, queued := Keys(), Running(), Repeats(), queue.trace, queue.pendings;
      order := [];
      while timercnt > 0 && timers[HEAP0].at < mn_now
        invariant HeapValid() && queue.Valid() && queue.rfeeds == order && Repeats() == repeat
        invariant Handled(order, at0, run0, Keys(), Running(), repeat, mn_now)
        invariant queue.trace == trace0 + Clears(order, repeat)
        invariant old(NonePending(mine)) ==> queue.pendings == queued && NonePending(mine)
        decreases Left(run0, order)
      {
        ghost var rest := order;
        order := ReifyRound(order, at0, run0);
        ClearsSnoc(rest, order, trace0, repeat);
      }
    }

    lemma NothingDue(order: seq<Watcher>, at0: map<Watcher, real>, run0: set<Watcher>)
      requires HeapValid() && (timercnt == 0 || timers[HEAP0].at >= mn_now)
      requires Handled(order, at0, run0, Keys(), Running(), Repeats(), mn_now)
      ensures forall w <- Running() :: w.at >= mn_now
      ensures forall w <- run0 :: w in order <==> at0[w] < mn_now
    {
      forall w <- Running() ensures w.at >= mn_now {
        RootExpired();
      }
      forall w <- run0 ensures w in order <==> at0[w] < mn_now {
        assert w !in order ==> w in Running() && Keys()[w] == at0[w];
      }
    }

    /** `timers_reify`: exactly the timers due on entry are handled, earliest first, and no
        running timer is left behind the clock. */
    method TimersReify() returns (ghost order: seq<Watcher>)
      requires Valid()
      modifies this`timercnt, this`activecnt, timers, queue, mine`active, mine`at, queue.watchers`pending
      ensures Valid()
      ensures Handled(order, old(Keys()), old(Running()), Keys(), Running(), Repeats(), mn_now)
      ensures forall w <- old(Running()) :: w in order <==> old(w.at) < mn_now
      ensures MovedOn(order, old(Keys()), Keys(), Repeats(), mn_now)
      ensures forall w <- Running() :: w.at >= mn_now
      ensures queue.trace == old(queue.trace) + Clears(order, Repeats()) + FedBack(order, EV_TIMER)
      ensures old(NonePending(mine)) ==>
        queue.pendings == AppendBack(old(queue.pendings), order, EV_TIMER)
    {
      ghost var at0, run0 := Keys(), Running();
      order := HandleDue();
      NothingDue(order, at0, run0);
      HandledMoves(order, at0, run0, Keys(), Running(), Repeats(), mn_now);
      FeedReverseDone();
    }

    /** `ev_invoke_pending` with nothing queued but these timers. */
    method InvokeTimers(ghost order: seq<Watcher>)
      requires Valid() && queue.pendings == AppendBack([[], [], [], [], []], order, EV_TIMER)
      requires forall w <- order :: w in mine
      modifies queue, queue.watchers`pending, queue.dummy`pending
      ensures HeapValid() && queue.Valid() && Repeats() == old(Repeats()) && Keys() == old(Keys())
      ensures queue.trace == old(queue.trace) + InvokedByPriority(order, NUMPRI, EV_TIMER)
    {
      DrainAppendBack(order, EV_TIMER, queue.dummy, NUMPRI);
      var _ := queue.InvokePending([]);
    }

    /** `timers_reify` and then `ev_invoke_pending`, with nothing pending beforehand and
        callbacks that leave the loop alone: within a priority the timers run in the order in
        which they expired. */
    method RunDueTimers() returns (ghost order: seq<Watcher>)
      requires Valid() && NonePending(mine) && queue.pendings == [[], [], [], [], []]
      modifies this`timercnt, this`activecnt, timers, queue, mine`active, mine`at
      modifies queue.watchers`pending, queue.dummy`pending
      ensures HeapValid() && queue.Valid()
      ensures forall w <- old(Running()) :: w in order <==> old(w.at) < mn_now
      ensures ByExpiry(order, old(Keys()), mine)
      ensures MovedOn(order, old(Keys()), Keys(), Repeats(), mn_now)
      ensures queue.trace == old(queue.trace) + Clears(order, Repeats()) + FedBack(order, EV_TIMER)
        + InvokedByPriority(order, NUMPRI, EV_TIMER)
    {
      order := TimersReify();
      InvokeTimers(order);
    }

    /** `i` rounds of `timers_reschedule` have been done on the heap `h` with the keys `at0`. */
    ghost predicate ShiftState(h: seq<Anhe>, i: nat, adjust: real, at0: map<Watcher, real>)
      reads this`timers, this`timercnt, timers, mine, if HEAP0 + timercnt <= |h| then WatchersOf(h, timercnt) else {}
    {
      && HEAP0 + timercnt <= timers.Length == |h| && i <= timercnt && at0.Keys == mine
      && WatchersOf(h, timercnt) <= mine && Linked(h, timercnt)
      && Shifted(h, timers[..], i, adjust)
      && (forall j :: HEAP0 <= j < HEAP0 + timercnt ==> h[j].at == at0[h[j].w])
      && (forall w <- mine :: w.at ==
            if w in WatchersOf(h, timercnt) && w.active < HEAP0 + i then at0[w] + adjust else at0[w])
    }

    method ShiftOne(i: nat, adjust: real, ghost h: seq<Anhe>, ghost at0: map<Watcher, real>)
      requires ShiftState(h, i, adjust, at0) && i < timercnt
      modifies timers, mine`at
      ensures ShiftState(h, i + 1, adjust, at0)
    {
      var w := timers[i + HEAP0].w;
      assert timers[..][i + HEAP0] == h[i + HEAP0] && w.active == i + HEAP0;
      w.at := w.at + adjust;
      timers[i + HEAP0] := Anhe(w.at, w);
      assert Shifted(h, timers[..], i + 1, adjust);
    }

    lemma ShiftDone(h: seq<Anhe>, adjust: real, at0: map<Watcher, real>)
      requires ShiftState(h, timercnt, adjust, at0) && IsHeap(h, timercnt) && mine <= queue.watchers
      requires forall w <- mine :: w.active != 0 ==> w in WatchersOf(h, timercnt) && w.repeat >= 0.0
      ensures HeapValid() && Running() == WatchersOf(h, timercnt)
      ensures forall w <- mine :: w.at == if w in Running() then at0[w] + adjust else at0[w]
    {
      ShiftedHeap(h, timers[..], timercnt, adjust);
    }

    /** `timers_reschedule`: every running timer is shifted by the same offset. */
    method TimersReschedule(adjust: real)
      requires HeapValid()
      modifies timers, mine`at
      ensures HeapValid() && Running() == old(Running())
      ensures forall w <- mine :: w.at == if w in Running() then old(w.at) + adjust else old(w.at)
    {
      ghost var h, at0 := timers[..], Keys();
      for i := 0 to timercnt
        invariant ShiftState(h, i, adjust, at0)
      {
        ShiftOne(i, adjust, h, at0);
      }
      ShiftDone(h, adjust, at0);
    }
  }
}
