/** What the reify loops of timers and periodics have in common: due watchers are taken from the
    root of the heap, each gets its next key or is stopped, until the root is not due. */
module Reify {
  import opened Watchers

  ghost predicate NonePending(ws: set<Watcher>)
    reads ws`pending
  {
    forall w <- ws :: w.pending == 0
  }

  /** How far a reify has come since the keys were `at0` and the running watchers `run0`: those in
      `order` have been handled, earliest expiry first, got their key in `next` and run on if they
      are in `stays`; no other key changed. */
  ghost predicate HandledBy(order: seq<Watcher>, at0: map<Watcher, real>, run0: set<Watcher>,
                            at: map<Watcher, real>, run: set<Watcher>,
                            next: map<Watcher, real>, stays: set<Watcher>, now: real)
  {
    && run0 <= at0.Keys && at.Keys == next.Keys == at0.Keys
    && (forall w <- order :: w in run0 && at0[w] < now && at[w] == next[w])
    && (forall i, j :: 0 <= i < j < |order| ==> order[i] != order[j] && at0[order[i]] <= at0[order[j]])
    && (forall w <- at :: w !in order ==> at[w] == at0[w])
    && run == (set w | w in run0 && (w in order ==> w in stays))
    && (forall u <- order, w <- run :: w !in order ==> at0[u] <= at0[w])
  }

  lemma NoneHandled(at0: map<Watcher, real>, run0: set<Watcher>,
                    next: map<Watcher, real>, stays: set<Watcher>, now: real)
    requires run0 <= at0.Keys == next.Keys
    ensures HandledBy([], at0, run0, at0, run0, next, stays, now)
  {}

  /** A running watcher that is due has not been handled yet. */
  lemma DueIsNew(order: seq<Watcher>, w: Watcher, at0: map<Watcher, real>, run0: set<Watcher>,
                 at: map<Watcher, real>, run: set<Watcher>,
                 next: map<Watcher, real>, stays: set<Watcher>, now: real)
    requires HandledBy(order, at0, run0, at, run, next, stays, now)
    requires w in run && at[w] < now && (w in stays ==> next[w] >= now)
    ensures w !in order && w in at0 && at[w] == at0[w] && w in run0
  {}

  lemma OrderExtends(order: seq<Watcher>, w: Watcher, at0: map<Watcher, real>, run: set<Watcher>,
                     at: map<Watcher, real>)
    requires w !in order && w in run && run <= at0.Keys == at.Keys && forall u <- order :: u in at0
    requires forall v <- run :: v !in order ==> at[v] == at0[v] && at[w] <= at[v]
    requires forall i, j :: 0 <= i < j < |order| ==> order[i] != order[j] && at0[order[i]] <= at0[order[j]]
    requires forall u <- order, v <- run :: v !in order ==> at0[u] <= at0[v]
    ensures var order' := order + [w];
      && (forall i, j :: 0 <= i < j < |order'| ==> order'[i] != order'[j] && at0[order'[i]] <= at0[order'[j]])
      && (forall u <- order', v <- run :: v !in order' ==> at0[u] <= at0[v])
  {
    var order' := order + [w];
    forall i, j | 0 <= i < j < |order'| ensures order'[i] != order'[j] && at0[order'[i]] <= at0[order'[j]] {
      if j == |order| {
        assert order'[i] in order;
      }
    }
    forall u <- order', v <- run | v !in order' ensures at0[u] <= at0[v] {
      assert u in order || u == w;
      assert v !in order;
    }
  }

  /** Handling a watcher with the least key, which is due, extends the expiry order. */
  lemma HandledByStep(order: seq<Watcher>, w: Watcher, at0: map<Watcher, real>, run0: set<Watcher>,
                      at: map<Watcher, real>, run: set<Watcher>, at': map<Watcher, real>, run': set<Watcher>,
                      next: map<Watcher, real>, stays: set<Watcher>, now: real)
    requires HandledBy(order, at0, run0, at, run, next, stays, now)
    requires w in run && at[w] < now && forall v <- run :: v in at && at[w] <= at[v]
    requires forall v <- run :: v in next && (v in stays ==> next[v] >= now)
    requires at' == at[w := next[w]]
    requires run' == if w in stays then run else run - {w}
    ensures w !in order && HandledBy(order + [w], at0, run0, at', run', next, stays, now)
  {
    var order' := order + [w];
    assert w !in order;
    assert forall u :: u in order' <==> u in order || u == w;
    assert forall u <- at0 :: u != w ==> at'[u] == at[u];
    OrderExtends(order, w, at0, run, at);
    assert run' == (set v | v in run0 && (v in order' ==> v in stays));
  }

  /** The watchers not yet handled. */
  ghost function Left(run0: set<Watcher>, order: seq<Watcher>): set<Watcher> {
    run0 - set w | w in order
  }

  lemma LeftShrinks(run0: set<Watcher>, order: seq<Watcher>, w: Watcher)
    requires w in run0 && w !in order
    ensures Left(run0, order + [w]) < Left(run0, order)
  {
    assert w in Left(run0, order) && w !in Left(run0, order + [w]);
  }

  /** When nothing left is due, exactly the watchers due at first have been handled. */
  lemma AllHandled(order: seq<Watcher>, at0: map<Watcher, real>, run0: set<Watcher>,
                   at: map<Watcher, real>, run: set<Watcher>,
                   next: map<Watcher, real>, stays: set<Watcher>, now: real)
    requires HandledBy(order, at0, run0, at, run, next, stays, now)
    requires forall w <- run :: at[w] >= now
    ensures forall w <- run0 :: w in order <==> at0[w] < now
  {
    forall w <- run0 ensures w in order <==> at0[w] < now {
      assert w !in order ==> w in run && at[w] == at0[w];
    }
  }
}
