/** Watchers, as far as the pending queues, the heaps and the watcher arrays see them. */
module Watchers {

  const MINPRI := -2
  const MAXPRI := 2
  const NUMPRI := 5

  type Priority = p: int | MINPRI <= p <= MAXPRI

  /** The reschedule callback of a periodic watcher, if it has one. */
  datatype Rescheduler = NoCallback | Callback(next: real -> real)

  /** One class carries the fields of the several C watcher structs.  The constructor clamps
      the priority, as `pri_adjust` does on every start. */
  class Watcher {
    const priority: Priority
    var active: int
    var pending: nat
    var at: real
    var repeat: real
    var offset: real
    var interval: real
    var reschedule: Rescheduler

    constructor (pri: int, at: real, repeat: real)
      ensures active == 0 && pending == 0 && this.at == at && this.repeat == repeat
      ensures offset == 0.0 && interval == 0.0 && reschedule == NoCallback
      ensures MINPRI <= pri <= MAXPRI ==> priority == pri
      ensures pri < MINPRI ==> priority == MINPRI
      ensures pri > MAXPRI ==> priority == MAXPRI
    {
      priority := if pri < MINPRI then MINPRI else if pri > MAXPRI then MAXPRI else pri;
      active, pending := 0, 0;
      this.at, this.repeat := at, repeat;
      offset, interval, reschedule := 0.0, 0.0, NoCallback;
    }

    function AbsPri(): nat {
      priority - MINPRI
    }
  }
}

/** The pending queues: `ev_feed_event`, `ev_clear_pending`, `feed_reverse` and
    `ev_invoke_pending` with callbacks that feed and clear events themselves. */
module Pending {
  import opened Options
  import opened Watchers

  datatype Entry = Entry(w: Watcher, events: bv32)

  /** What happened to a watcher, in order. */
  datatype Event =
    | Fed(w: Watcher, mask: bv32)
    | Cleared(w: Watcher)
    | Invoked(w: Watcher, mask: bv32)

  /** One thing a callback does to the queues. */
  datatype Op = Feed(w: Watcher, mask: bv32) | Clear(w: Watcher)

  // ---------- what a trace of events means for one watcher ----------

  function Or(a: bv32, b: bv32): bv32 {
    a | b
  }

  /** How one event changes the masks outstanding for `w`. */
  function MaskAfter(before: Option<bv32>, e: Event, w: Watcher): Option<bv32> {
    if e.w != w then before
    else match e
      case Fed(_, m) => Some(if before.None? then m else Or(before.value, m))
      case Cleared(_) => None
      case Invoked(_, _) => None
  }

  /** The masks fed to `w` since it was last invoked or cleared, or-ed together. */
  ghost function Mask(trace: seq<Event>, w: Watcher): Option<bv32> {
    if trace == [] then None
    else MaskAfter(Mask(trace[..|trace| - 1], w), trace[|trace| - 1], w)
  }

  /** An invocation passes exactly the masks fed, and nothing of higher priority waits. */
  ghost predicate LawfulAt(trace: seq<Event>, ws: set<Watcher>, k: nat)
    requires k < |trace|
  {
    trace[k].Invoked? ==>
      && Mask(trace[..k], trace[k].w) == Some(trace[k].mask)
      && forall v <- ws :: Mask(trace[..k], v).Some? ==> v.AbsPri() <= trace[k].w.AbsPri()
  }

  ghost predicate Lawful(trace: seq<Event>, ws: set<Watcher>) {
    forall k :: 0 <= k < |trace| ==> LawfulAt(trace, ws, k)
  }

  lemma LawfulSnoc(trace: seq<Event>, e: Event, ws: set<Watcher>)
    requires Lawful(trace, ws) && LawfulAt(trace + [e], ws, |trace|)
    ensures Lawful(trace + [e], ws)
  {
    forall k | 0 <= k < |trace + [e]| ensures LawfulAt(trace + [e], ws, k) {
      if k < |trace| {
        assert LawfulAt(trace, ws, k);
        assert (trace + [e])[..k] == trace[..k];
      }
    }
  }

  lemma {:induction false} MaskSnoc(trace: seq<Event>, e: Event, w: Watcher)
    ensures Mask(trace + [e], w) == MaskAfter(Mask(trace, w), e, w)
  {
    assert (trace + [e])[..|trace|] == trace;
  }

  // ---------- what lawful traces promise ----------

  /** `j` is the first event after `i` that takes `w` out of its queue. */
  ghost predicate NextVisit(trace: seq<Event>, w: Watcher, i: nat, j: nat) {
    && i < j < |trace| && trace[j].w == w && !trace[j].Fed?
    && forall k :: i < k < j && trace[k].w == w ==> trace[k].Fed?
  }

  /** Every event of `m` is among those of `x`. */
  predicate Contains(x: bv32, m: bv32) {
    x & m == m
  }

  /** The event at `j` is the first to take the watcher fed at `i` out of its queue; an
      invocation there passes at least the mask fed at `i`. */
  ghost predicate DeliversFrom(trace: seq<Event>, i: nat, j: nat)
    requires i < |trace| && trace[i].Fed?
  {
    NextVisit(trace, trace[i].w, i, j) && (trace[j].Invoked? ==> Contains(trace[j].mask, trace[i].mask))
  }

  lemma OrKeeps(x: bv32, y: bv32, m: bv32)
    ensures Contains(Or(x, m), m) && Contains(m, m)
    ensures Contains(x, m) ==> Contains(Or(x, y), m)
  {}

  /** Feeding adds to what is outstanding. */
  lemma FeedingKeeps(before: Option<bv32>, e: Event, m: bv32)
    requires e.Fed?
    ensures MaskAfter(before, e, e.w).Some?
    ensures e.mask == m || (before.Some? && Contains(before.value, m)) ==> Contains(MaskAfter(before, e, e.w).value, m)
  {
    hide Contains, Or;
    OrKeeps(if before.Some? then before.value else m, e.mask, m);
  }

  /** While `w` is only fed, a mask fed to it stays in its outstanding masks. */
  lemma {:induction false} FedMaskStays(trace: seq<Event>, w: Watcher, i: nat, n: nat)
    requires i < n <= |trace| && trace[i].Fed? && trace[i].w == w
    requires forall k :: i < k < n && trace[k].w == w ==> trace[k].Fed?
    ensures Mask(trace[..n], w).Some? && Contains(Mask(trace[..n], w).value, trace[i].mask)
  {
    hide Contains, Or;
    assert trace[..n][..n - 1] == trace[..n - 1];
    if n > i + 1 {
      FedMaskStays(trace, w, i, n - 1);
    }
    if trace[n - 1].w == w {
      FeedingKeeps(Mask(trace[..n - 1], w), trace[n - 1], trace[i].mask);
    }
  }

  lemma FirstVisit(trace: seq<Event>, w: Watcher, i: nat) returns (j: nat)
    requires exists k :: i < k < |trace| && trace[k].w == w && !trace[k].Fed?
    ensures NextVisit(trace, w, i, j)
  {
    j := i + 1;
    while trace[j].w != w || trace[j].Fed?
      invariant i < j < |trace|
      invariant forall k :: i < k < j && trace[k].w == w ==> trace[k].Fed?
      invariant exists k :: j <= k < |trace| && trace[k].w == w && !trace[k].Fed?
      decreases |trace| - j
    {
      j := j + 1;
    }
  }

  /** Every feed reaches a callback: unless the event is cleared first, the next invocation
      of the watcher passes a mask that contains the one fed. */
  lemma FeedReachesCallback(trace: seq<Event>, ws: set<Watcher>, i: nat)
    requires Lawful(trace, ws) && i < |trace| && trace[i].Fed? && Mask(trace, trace[i].w) == None
    ensures exists j: nat :: DeliversFrom(trace, i, j)
  {
    var w := trace[i].w;
    if forall k :: i < k < |trace| && trace[k].w == w ==> trace[k].Fed? {
      assert trace[..|trace|] == trace;
      FedMaskStays(trace, w, i, |trace|);
      assert false;
    } else {
      var j := FirstVisit(trace, w, i);
      FedMaskStays(trace, w, i, j);
      assert LawfulAt(trace, ws, j);
      assert DeliversFrom(trace, i, j);
    }
  }

  predicate Shares(m: bv32, x: bv32) {
    m & x != 0
  }

  lemma OrShares(a: bv32, b: bv32, x: bv32)
    requires Shares(Or(a, b), x)
    ensures Shares(a, x) || Shares(b, x)
  {}

  /** Before `n`, `w` was last fed some event of `x` at `k`, and only fed since. */
  ghost predicate FedSince(trace: seq<Event>, w: Watcher, k: nat, n: nat, x: bv32) {
    && k < n <= |trace| && trace[k].Fed? && trace[k].w == w && Shares(trace[k].mask, x)
    && forall l :: k < l < n && trace[l].w == w ==> trace[l].Fed?
  }

  lemma {:induction false} BitsWereFed(trace: seq<Event>, w: Watcher, n: nat, x: bv32) returns (k: nat)
    requires n <= |trace| && Mask(trace[..n], w).Some? && Shares(Mask(trace[..n], w).value, x)
    ensures FedSince(trace, w, k, n, x)
  {
    hide Shares, Or;
    assert trace[..n][..n - 1] == trace[..n - 1];
    var before, last := Mask(trace[..n - 1], w), trace[n - 1];
    if last.w == w && before.Some? {
      OrShares(before.value, last.mask, x);
    }
    if last.w == w && Shares(last.mask, x) {
      k := n - 1;
    } else {
      k := BitsWereFed(trace, w, n - 1, x);
    }
  }

  /** No spurious events: what an invocation passes was fed to the watcher since it was last invoked
      or cleared. */
  lemma NoSpuriousEvents(trace: seq<Event>, ws: set<Watcher>, j: nat, x: bv32)
    requires Lawful(trace, ws) && j < |trace| && trace[j].Invoked? && Shares(trace[j].mask, x)
    ensures exists k: nat :: FedSince(trace, trace[j].w, k, j, x)
  {
    hide Shares;
    assert LawfulAt(trace, ws, j);
    var k := BitsWereFed(trace, trace[j].w, j, x);
  }

  /** No callback runs while a higher priority has entries: a watcher fed at `i` is invoked or
      cleared before any invocation of a lower priority. */
  lemma PriorityRespected(trace: seq<Event>, ws: set<Watcher>, i: nat, j: nat)
    requires Lawful(trace, ws) && i < j < |trace| && trace[i].Fed? && trace[i].w in ws
    requires trace[j].Invoked? && trace[j].w.AbsPri() < trace[i].w.AbsPri()
    ensures exists k :: i < k < j && trace[k].w == trace[i].w && !trace[k].Fed?
  {
    assert LawfulAt(trace, ws, j);
    if forall k :: i < k < j && trace[k].w == trace[i].w ==> trace[k].Fed? {
      FedMaskStays(trace, trace[i].w, i, j);
      assert false;
    }
  }

  lemma {:induction false} NothingOutstanding(trace: seq<Event>, w: Watcher, i: nat, n: nat)
    requires i < n <= |trace| && trace[i].w == w && !trace[i].Fed?
    requires forall k :: i < k < n && trace[k].w == w ==> !trace[k].Fed?
    ensures Mask(trace[..n], w) == None
  {
    assert trace[..n][..n - 1] == trace[..n - 1];
    if n > i + 1 {
      NothingOutstanding(trace, w, i, n - 1);
    }
  }

  /** A watcher is not invoked twice for one feed. */
  lemma {:induction false} NoDoubleInvocation(trace: seq<Event>, ws: set<Watcher>, i: nat, j: nat)
    requires Lawful(trace, ws) && i < j < |trace|
    requires trace[i].Invoked? && trace[j].Invoked? && trace[i].w == trace[j].w
    ensures exists k :: i < k < j && trace[k].Fed? && trace[k].w == trace[i].w
  {
    assert LawfulAt(trace, ws, j);
    if forall k :: i < k < j && trace[k].w == trace[i].w ==> !trace[k].Fed? {
      NothingOutstanding(trace, trace[i].w, i, j);
      assert false;
    }
  }

  // ---------- callbacks ----------

  /** The events a callback causes. */
  function OpEvents(ops: seq<Op>): seq<Event> {
    if ops == [] then []
    else OpEvents(ops[..|ops| - 1]) + [match ops[|ops| - 1] case Feed(w, m) => Fed(w, m) case Clear(w) => Cleared(w)]
  }

  function CallbackOps(script: seq<seq<Op>>, n: nat): seq<Op> {
    if n < |script| then script[n] else []
  }

  /** Each invocation with what its callback does. */
  function Interleaved(invoked: seq<Event>, script: seq<seq<Op>>): seq<Event> {
    if invoked == [] then []
    else
      var n := |invoked| - 1;
      Interleaved(invoked[..n], script) + ([invoked[n]] + OpEvents(CallbackOps(script, n)))
  }

  lemma FollowedStep(trace0: seq<Event>, before: seq<Event>, after: seq<Event>, invoked: seq<Event>,
                     more: seq<Event>, script: seq<seq<Op>>) returns (invoked': seq<Event>)
    requires before == trace0 + Interleaved(invoked, script) && |more| <= 1
    requires after == before + (if more == [] then [] else more + OpEvents(CallbackOps(script, |invoked|)))
    ensures invoked' == invoked + more && after == trace0 + Interleaved(invoked', script)
  {
    hide OpEvents, CallbackOps;
    invoked' := invoked + more;
    if more != [] {
      assert invoked'[..|invoked|] == invoked && more == [more[0]];
    } else {
      assert invoked' == invoked;
    }
  }

  /** No queue changed its length. */
  ghost predicate SameLengths(q: seq<seq<Entry>>, q': seq<seq<Entry>>) {
    |q| == |q'| && forall p :: 0 <= p < |q| ==> |q'[p]| == |q[p]|
  }

  function Total(q: seq<seq<Entry>>): nat {
    if q == [] then 0 else Total(q[..|q| - 1]) + |q[|q| - 1]|
  }

  lemma {:induction false} PopTotal(q: seq<seq<Entry>>, p: nat)
    requires p < |q| && q[p] != []
    ensures Total(q[p := q[p][..|q[p]| - 1]]) == Total(q) - 1
  {
    var q' := q[p := q[p][..|q[p]| - 1]];
    if p == |q| - 1 {
      assert q'[..|q| - 1] == q[..|q| - 1];
    } else {
      assert q'[..|q| - 1] == q[..|q| - 1][p := q[p][..|q[p]| - 1]];
      PopTotal(q[..|q| - 1], p);
    }
  }

  /** The event an entry leaves when it is taken from its queue. */
  function InvokedBy(e: Entry, dummy: Watcher): seq<Event> {
    if e.w == dummy then [] else [Invoked(e.w, e.events)]
  }

  /** The invocations of one queue, last entry first. */
  function DrainQueue(q: seq<Entry>, dummy: Watcher): seq<Event> {
    if q == [] then [] else InvokedBy(q[|q| - 1], dummy) + DrainQueue(q[..|q| - 1], dummy)
  }

  /** The invocations of the first `n` queues, highest priority first. */
  function Drain(qs: seq<seq<Entry>>, dummy: Watcher, n: nat): seq<Event>
    requires n <= |qs|
  {
    if n == 0 then [] else DrainQueue(qs[n - 1], dummy) + Drain(qs, dummy, n - 1)
  }

  lemma {:induction false} DrainPrefix(qs: seq<seq<Entry>>, qs': seq<seq<Entry>>, dummy: Watcher, n: nat)
    requires n <= |qs| && n <= |qs'| && forall p :: 0 <= p < n ==> qs[p] == qs'[p]
    ensures Drain(qs, dummy, n) == Drain(qs', dummy, n)
  {
    if n > 0 {
      DrainPrefix(qs, qs', dummy, n - 1);
    }
  }

  lemma JoinEvents(a: seq<Event>, b: seq<Event>, c: seq<Event>)
    ensures (a + b) + c == a + (b + c)
  {}

  lemma PopDrain(qs: seq<seq<Entry>>, dummy: Watcher, p: nat)
    requires p < |qs| && qs[p] != []
    ensures var qs' := qs[p := qs[p][..|qs[p]| - 1]];
      Drain(qs, dummy, p + 1) == InvokedBy(qs[p][|qs[p]| - 1], dummy) + Drain(qs', dummy, p + 1)
  {
    hide InvokedBy;
    var q := qs[p];
    var rest, qs' := q[..|q| - 1], qs[p := q[..|q| - 1]];
    DrainPrefix(qs, qs', dummy, p);
    JoinEvents(InvokedBy(q[|q| - 1], dummy), DrainQueue(rest, dummy), Drain(qs, dummy, p));
  }

  function FedQueues(q: seq<seq<Entry>>, w: Watcher, pending: nat, revents: bv32): seq<seq<Entry>>
    requires |q| == NUMPRI && pending <= |q[w.AbsPri()]|
  {
    var (pri, i) := (w.AbsPri(), pending - 1);
    if pending != 0 then q[pri := q[pri][i := q[pri][i].(events := Or(q[pri][i].events, revents))]]
    else q[pri := q[pri] + [Entry(w, revents)]]
  }

  function ClearedQueues(q: seq<seq<Entry>>, dummy: Watcher, w: Watcher, pending: nat): seq<seq<Entry>>
    requires |q| == NUMPRI && pending <= |q[w.AbsPri()]|
  {
    var pri := w.AbsPri();
    if pending != 0 then q[pri := q[pri][pending - 1 := q[pri][pending - 1].(w := dummy)]] else q
  }

  // ---------- reverse feeding and last-in first-out draining ----------

  /** The feeds of `feed_reverse_done`. */
  function FedBack(ws: seq<Watcher>, m: bv32): seq<Event> {
    if ws == [] then [] else [Fed(ws[|ws| - 1], m)] + FedBack(ws[..|ws| - 1], m)
  }

  /** The queues after feeding watchers that were not pending, last one first. */
  function AppendBack(q: seq<seq<Entry>>, ws: seq<Watcher>, m: bv32): (r: seq<seq<Entry>>)
    requires |q| == NUMPRI
    ensures |r| == NUMPRI
    decreases ws
  {
    if ws == [] then q else AppendBack(FedQueues(q, ws[|ws| - 1], 0, m), ws[..|ws| - 1], m)
  }

  function BackEntries(ws: seq<Watcher>, p: nat, m: bv32): seq<Entry> {
    if ws == [] then []
    else
      var w := ws[|ws| - 1];
      (if w.AbsPri() == p then [Entry(w, m)] else []) + BackEntries(ws[..|ws| - 1], p, m)
  }

  lemma {:induction false} AppendBackQueue(q: seq<seq<Entry>>, ws: seq<Watcher>, m: bv32, p: nat)
    requires |q| == NUMPRI && p < NUMPRI
    ensures AppendBack(q, ws, m)[p] == q[p] + BackEntries(ws, p, m)
    decreases ws
  {
    if ws != [] {
      var w, rest := ws[|ws| - 1], ws[..|ws| - 1];
      var q' := FedQueues(q, w, 0, m);
      AppendBackQueue(q', rest, m, p);
      assert q'[p] == q[p] + (if w.AbsPri() == p then [Entry(w, m)] else []);
      assert AppendBack(q, ws, m)[p] == q'[p] + BackEntries(rest, p, m);
    }
  }

  /** The watchers of priority `p` among `ws`, invoked in the order of `ws`. */
  function InvokedInOrder(ws: seq<Watcher>, p: nat, m: bv32): seq<Event> {
    if ws == [] then []
    else
      var w := ws[|ws| - 1];
      InvokedInOrder(ws[..|ws| - 1], p, m) + (if w.AbsPri() == p then [Invoked(w, m)] else [])
  }

  /** ... for the priorities below `n`, highest first. */
  function InvokedByPriority(ws: seq<Watcher>, n: nat, m: bv32): seq<Event> {
    if n == 0 then [] else InvokedInOrder(ws, n - 1, m) + InvokedByPriority(ws, n - 1, m)
  }

  lemma {:induction false} DrainQueueConcat(a: seq<Entry>, b: seq<Entry>, dummy: Watcher)
    ensures DrainQueue(a + b, dummy) == DrainQueue(b, dummy) + DrainQueue(a, dummy)
  {
    if b == [] {
      assert a + b == a;
    } else {
      assert (a + b)[..|a + b| - 1] == a + b[..|b| - 1];
      DrainQueueConcat(a, b[..|b| - 1], dummy);
    }
  }

  lemma DrainHead(w: Watcher, p: nat, m: bv32, dummy: Watcher)
    requires w != dummy
    ensures DrainQueue(if w.AbsPri() == p then [Entry(w, m)] else [], dummy)
      == if w.AbsPri() == p then [Invoked(w, m)] else []
  {
    assert DrainQueue([Entry(w, m)], dummy) == [Invoked(w, m)] + DrainQueue([], dummy);
  }

  lemma {:induction false} DrainBackEntries(ws: seq<Watcher>, p: nat, m: bv32, dummy: Watcher)
    requires dummy !in ws
    ensures DrainQueue(BackEntries(ws, p, m), dummy) == InvokedInOrder(ws, p, m)
  {
    if ws != [] {
      var w, rest := ws[|ws| - 1], ws[..|ws| - 1];
      DrainBackEntries(rest, p, m, dummy);
      var head := if w.AbsPri() == p then [Entry(w, m)] else [];
      DrainQueueConcat(head, BackEntries(rest, p, m), dummy);
      DrainHead(w, p, m, dummy);
      assert BackEntries(ws, p, m) == head + BackEntries(rest, p, m);
    }
  }

  /** Reverse feeding and last-in first-out draining cancel: within a priority the watchers
      run in the order in which they were collected. */
  lemma {:induction false} DrainAppendBack(ws: seq<Watcher>, m: bv32, dummy: Watcher, n: nat)
    requires dummy !in ws && n <= NUMPRI
    ensures Drain(AppendBack([[], [], [], [], []], ws, m), dummy, n) == InvokedByPriority(ws, n, m)
  {
    if n > 0 {
      AppendBackQueue([[], [], [], [], []], ws, m, n - 1);
      DrainBackEntries(ws, n - 1, m, dummy);
      assert [] + BackEntries(ws, n - 1, m) == BackEntries(ws, n - 1, m);
      DrainAppendBack(ws, m, dummy, n - 1);
    }
  }

  lemma {:induction false} BackEntriesFrom(ws: seq<Watcher>, p: nat, m: bv32)
    ensures forall e <- BackEntries(ws, p, m) :: e.w in ws
  {
    if ws != [] {
      BackEntriesFrom(ws[..|ws| - 1], p, m);
      assert ws == ws[..|ws| - 1] + [ws[|ws| - 1]];
    }
  }

  /** What was fed back last runs first: for the priorities below `n`, highest first, `late` in
      its order and then `early` in its order. */
  function InvokedLateFirst(early: seq<Watcher>, m: bv32, late: seq<Watcher>, m': bv32, n: nat): seq<Event> {
    if n == 0 then []
    else
      (InvokedInOrder(late, n - 1, m') + InvokedInOrder(early, n - 1, m))
      + InvokedLateFirst(early, m, late, m', n - 1)
  }

  lemma {:induction false} DrainTwice(early: seq<Watcher>, m: bv32, late: seq<Watcher>, m': bv32, dummy: Watcher,
                                      n: nat)
    requires dummy !in early && dummy !in late && n <= NUMPRI
    ensures
      Drain(AppendBack(AppendBack([[], [], [], [], []], early, m), late, m'), dummy, n)
      == InvokedLateFirst(early, m, late, m', n)
  {
    hide AppendBack, BackEntries, DrainQueue, InvokedInOrder;
    if n > 0 {
      var first := AppendBack([[], [], [], [], []], early, m);
      AppendBackQueue([[], [], [], [], []], early, m, n - 1);
      AppendBackQueue(first, late, m', n - 1);
      assert [] + BackEntries(early, n - 1, m) == BackEntries(early, n - 1, m);
      DrainQueueConcat(BackEntries(early, n - 1, m), BackEntries(late, n - 1, m'), dummy);
      DrainBackEntries(early, n - 1, m, dummy);
      DrainBackEntries(late, n - 1, m', dummy);
      DrainTwice(early, m, late, m', dummy, n - 1);
    }
  }

  // ---------- the queues ----------

  class Queues {
    var pendings: seq<seq<Entry>>
    var pendingpri: nat
    var rfeeds: seq<Watcher>
    const dummy: Watcher
    ghost const watchers: set<Watcher>
    ghost var trace: seq<Event>

    /** Slot `i` of queue `p` holds a watcher that points back to it, or the dummy. */
    ghost predicate SlotOk(p: nat, i: nat)
      requires p < |pendings| && i < |pendings[p]|
      reads this`pendings, watchers`pending
    {
      var w := pendings[p][i].w;
      w == dummy || (w in watchers && w.AbsPri() == p && w.pending == i + 1)
    }

    /** A pending watcher is held by the slot its `pending` index names. */
    ghost predicate HeldOk(w: Watcher)
      requires |pendings| == NUMPRI
      reads this`pendings, w`pending
    {
      w.pending != 0 ==>
        w.pending <= |pendings[w.AbsPri()]| && pendings[w.AbsPri()][w.pending - 1].w == w
    }

    ghost predicate BackPointers()
      requires |pendings| == NUMPRI
      reads this`pendings, watchers`pending
    {
      && (forall p, i {:trigger SlotOk(p, i)} :: 0 <= p < |pendings| && 0 <= i < |pendings[p]| ==> SlotOk(p, i))
      && (forall w {:trigger HeldOk(w)} | w in watchers :: HeldOk(w))
    }

    /** The masks waiting for `w` in its slot. */
    ghost function Held(w: Watcher): Option<bv32>
      requires |pendings| == NUMPRI && HeldOk(w)
      reads this`pendings, w`pending
    {
      if w.pending == 0 then None else Some(pendings[w.AbsPri()][w.pending - 1].events)
    }

    ghost predicate TraceAgrees()
      requires |pendings| == NUMPRI && BackPointers()
      reads this`pendings, this`trace, watchers`pending
    {
      Lawful(trace, watchers) && forall w {:trigger Mask(trace, w)} | w in watchers :: Mask(trace, w) == Held(w)
    }

    ghost predicate Valid()
      reads this`pendings, this`pendingpri, this`trace, watchers`pending
    {
      && dummy !in watchers
      && |pendings| == NUMPRI && pendingpri <= NUMPRI
      && BackPointers() && TraceAgrees()
    }

    constructor (dummy: Watcher, ghost watchers: set<Watcher>)
      requires dummy !in watchers && forall w <- watchers :: w.pending == 0
      ensures this.dummy == dummy && this.watchers == watchers
      ensures Valid() && pendings == [[], [], [], [], []] && rfeeds == [] && trace == []
    {
      pendings, pendingpri, rfeeds, trace := [[], [], [], [], []], 0, [], [];
      this.dummy, this.watchers := dummy, watchers;
    }

    method SetEvents(w: Watcher, merged: bv32)
      requires |pendings| == NUMPRI && BackPointers() && w in watchers
      requires w.pending != 0 && HeldOk(w)
      modifies this`pendings
      ensures |pendings| == NUMPRI && BackPointers()
      ensures
        var (pri, i) := (w.AbsPri(), w.pending - 1);
        pendings == old(pendings)[pri := old(pendings)[pri][i := old(pendings)[pri][i].(events := merged)]]
      ensures forall v <- watchers :: Held(v) == if v == w then Some(merged) else old(Held(v))
    {
      var pri, i := w.AbsPri(), w.pending - 1;
      pendings := pendings[pri := pendings[pri][i := pendings[pri][i].(events := merged)]];
      forall p: nat, j: nat | p < |pendings| && j < |pendings[p]| ensures SlotOk(p, j) {
        assert old(SlotOk(p, j));
      }
      forall v | v in watchers ensures HeldOk(v) && Held(v) == if v == w then Some(merged) else old(Held(v)) {
        assert old(HeldOk(v));
      }
    }

    method MergeMask(w: Watcher, revents: bv32)
      requires |pendings| == NUMPRI && dummy !in watchers && BackPointers() && w in watchers
      requires w.pending != 0 && HeldOk(w)
      modifies this`pendings
      ensures |pendings| == NUMPRI && BackPointers()
      ensures pendings == FedQueues(old(pendings), w, w.pending, revents)
      ensures forall v <- watchers :: Held(v) == MaskAfter(old(Held(v)), Fed(w, revents), v)
    {
      var merged := Or(pendings[w.AbsPri()][w.pending - 1].events, revents);
      SetEvents(w, merged);
    }

    method AddEntry(w: Watcher, revents: bv32)
      requires |pendings| == NUMPRI && dummy !in watchers && BackPointers() && w in watchers && w.pending == 0
      modifies this`pendings, w`pending
      ensures |pendings| == NUMPRI && BackPointers()
      ensures pendings == FedQueues(old(pendings), w, 0, revents)
      ensures w.pending == |old(pendings)[w.AbsPri()]| + 1
      ensures forall v <- watchers :: Held(v) == MaskAfter(old(Held(v)), Fed(w, revents), v)
    {
      var pri := w.AbsPri();
      w.pending := |pendings[pri]| + 1;
      pendings := pendings[pri := pendings[pri] + [Entry(w, revents)]];
      forall p: nat, i: nat | p < |pendings| && i < |pendings[p]| ensures SlotOk(p, i) {
        assert i < old(|pendings[p]|) ==> old(SlotOk(p, i));
      }
      forall v | v in watchers ensures HeldOk(v) && Held(v) == MaskAfter(old(Held(v)), Fed(w, revents), v) {
        assert old(HeldOk(v));
      }
    }

    /** The queue part of `ev_feed_event`. */
    method Enqueue(w: Watcher, revents: bv32)
      requires |pendings| == NUMPRI && dummy !in watchers && BackPointers() && w in watchers
      modifies this`pendings, this`pendingpri, w`pending
      ensures |pendings| == NUMPRI && BackPointers() && pendingpri == NUMPRI - 1
      ensures old(HeldOk(w)) && pendings == FedQueues(old(pendings), w, old(w.pending), revents)
      ensures w.pending == if old(w.pending) != 0 then old(w.pending) else |old(pendings)[w.AbsPri()]| + 1
      ensures forall v <- watchers :: Held(v) == MaskAfter(old(Held(v)), Fed(w, revents), v)
    {
      assert HeldOk(w);
      if w.pending != 0 {
        MergeMask(w, revents);
      } else {
        AddEntry(w, revents);
      }
      pendingpri := NUMPRI - 1;
    }

    /** Extends the trace; the queues must already show the event's effect. */
    ghost method Record(e: Event)
      requires |pendings| == NUMPRI && BackPointers() && Lawful(trace, watchers)
      requires LawfulAt(trace + [e], watchers, |trace|)
      requires forall w <- watchers :: Held(w) == MaskAfter(Mask(trace, w), e, w)
      modifies this`trace
      ensures BackPointers() && TraceAgrees() && trace == old(trace) + [e]
    {
      LawfulSnoc(trace, e, watchers);
      trace := trace + [e];
      forall p: nat, i: nat | p < |pendings| && i < |pendings[p]| ensures SlotOk(p, i) {
        assert old(SlotOk(p, i));
      }
      forall w | w in watchers ensures HeldOk(w) && Mask(trace, w) == Held(w) {
        assert old(HeldOk(w));
        MaskSnoc(old(trace), e, w);
      }
    }

    /** `ev_feed_event` */
    method FeedEvent(w: Watcher, revents: bv32)
      requires Valid() && w in watchers
      modifies this`pendings, this`pendingpri, this`trace, w`pending
      ensures Valid() && trace == old(trace) + [Fed(w, revents)] && pendingpri == NUMPRI - 1
      ensures old(HeldOk(w)) && pendings == FedQueues(old(pendings), w, old(w.pending), revents)
      ensures w.pending == if old(w.pending) != 0 then old(w.pending) else |old(pendings)[w.AbsPri()]| + 1
    {
      assert HeldOk(w);
      Enqueue(w, revents);
      Record(Fed(w, revents));
    }

    /** `ev_clear_pending`; the internal `clear_pending` is the same without the result. */
    method ClearPending(w: Watcher) returns (events: bv32)
      requires Valid() && w in watchers
      modifies this`pendings, this`trace, w`pending
      ensures Valid() && w.pending == 0 && trace == old(trace) + [Cleared(w)]
      ensures old(HeldOk(w)) && pendings == ClearedQueues(old(pendings), dummy, w, old(w.pending))
      ensures events == match Mask(old(trace), w) case None => 0 case Some(m) => m
    {
      var pri := w.AbsPri();
      assert HeldOk(w) && Mask(trace, w) == Held(w);
      events := 0;
      if w.pending != 0 {
        var i := w.pending - 1;
        events := pendings[pri][i].events;
        pendings := pendings[pri := pendings[pri][i := pendings[pri][i].(w := dummy)]];
        w.pending := 0;
      }
      forall p: nat, i: nat | p < |pendings| && i < |pendings[p]| ensures SlotOk(p, i) {
        assert old(SlotOk(p, i));
      }
      forall v | v in watchers ensures HeldOk(v) && Held(v) == MaskAfter(old(Held(v)), Cleared(w), v) {
        assert old(HeldOk(v));
      }
      Record(Cleared(w));
    }

    /** Takes the last entry of the current queue and marks its watcher invoked
        (the dummy's own callback does nothing and leaves no trace). */
    method PopEntry() returns (w: Watcher, events: bv32)
      requires Valid() && pendingpri < NUMPRI && pendings[pendingpri] != []
      requires forall p :: pendingpri < p < NUMPRI ==> pendings[p] == []
      modifies this`pendings, this`trace, watchers`pending, dummy`pending
      ensures Valid()
      ensures var q := old(pendings)[pendingpri];
        && pendings == old(pendings)[pendingpri := q[..|q| - 1]]
        && Entry(w, events) == q[|q| - 1]
      ensures trace == old(trace) + InvokedBy(Entry(w, events), dummy)
    {
      var q := pendings[pendingpri];
      var e := q[|q| - 1];
      w, events := e.w, e.events;
      assert SlotOk(pendingpri, |q| - 1);
      pendings := pendings[pendingpri := q[..|q| - 1]];
      w.pending := 0;
      forall p: nat, i: nat | p < |pendings| && i < |pendings[p]| ensures SlotOk(p, i) {
        assert old(SlotOk(p, i));
      }
      forall v | v in watchers ensures HeldOk(v) && (v != w ==> Held(v) == old(Held(v))) {
        assert old(HeldOk(v));
      }
      if w != dummy {
        forall v | v in watchers && Mask(trace, v).Some? ensures v.AbsPri() <= w.AbsPri() {
          assert old(HeldOk(v)) && Mask(trace, v) == old(Held(v));
        }
        assert (trace + [Invoked(w, events)])[..|trace|] == trace;
        Record(Invoked(w, events));
      } else {
        assert forall v <- watchers :: Mask(trace, v) == Held(v);
      }
    }

    /** The body of a callback: any list of feeds and clears. */
    method RunCallback(ops: seq<Op>)
      requires Valid() && forall op <- ops :: op.w in watchers
      modifies this`pendings, this`pendingpri, this`trace, watchers`pending
      ensures Valid() && trace == old(trace) + OpEvents(ops)
      ensures pendingpri == NUMPRI - 1 || (pendingpri == old(pendingpri) && SameLengths(old(pendings), pendings))
      ensures ops == [] ==> pendings == old(pendings) && trace == old(trace) && pendingpri == old(pendingpri)
    {
      hide Mask, Lawful, LawfulAt, TraceAgrees, Or, MaskAfter;
      for i := 0 to |ops|
        invariant Valid() && trace == old(trace) + OpEvents(ops[..i])
        invariant pendingpri == NUMPRI - 1 || (pendingpri == old(pendingpri) && SameLengths(old(pendings), pendings))
        invariant i == 0 ==> pendings == old(pendings) && trace == old(trace) && pendingpri == old(pendingpri)
      {
        assert ops[i] in ops && HeldOk(ops[i].w);
        assert ops[..i + 1][..i] == ops[..i];
        match ops[i]
        case Feed(w, mask) => FeedEvent(w, mask);
        case Clear(w) => var _ := ClearPending(w);
      }
      assert ops[..|ops|] == ops;
    }

    /** `feed_reverse` */
    method FeedReverse(w: Watcher)
      modifies this`rfeeds
      ensures rfeeds == old(rfeeds) + [w]
    {
      rfeeds := rfeeds + [w];
    }

    ghost predicate NonePending(ws: seq<Watcher>)
      reads watchers`pending
    {
      && (forall w <- ws :: w in watchers && w.pending == 0)
      && (forall i, j :: 0 <= i < j < |ws| ==> ws[i] != ws[j])
    }

    method FeedLast(revents: bv32)
      requires Valid() && rfeeds != [] && forall w <- rfeeds :: w in watchers
      modifies this`pendings, this`pendingpri, this`trace, this`rfeeds, watchers`pending
      ensures Valid() && rfeeds == old(rfeeds)[..|old(rfeeds)| - 1] && forall w <- rfeeds :: w in watchers
      ensures trace + FedBack(rfeeds, revents) == old(trace) + FedBack(old(rfeeds), revents)
      ensures old(NonePending(rfeeds)) ==>
        NonePending(rfeeds) && AppendBack(pendings, rfeeds, revents) == AppendBack(old(pendings), old(rfeeds), revents)
    {
      var w := rfeeds[|rfeeds| - 1];
      rfeeds := rfeeds[..|rfeeds| - 1];
      FeedEvent(w, revents);
      assert trace + FedBack(rfeeds, revents) == old(trace) + ([Fed(w, revents)] + FedBack(rfeeds, revents));
      forall v | v in rfeeds ensures v in old(rfeeds) {
        var i :| 0 <= i < |rfeeds| && rfeeds[i] == v;
        assert old(rfeeds)[i] == v;
      }
    }

    /** `feed_reverse_done`: feeds the collected watchers, last one first. */
    method FeedReverseDone(revents: bv32)
      requires Valid() && rfeeds != [] && forall w <- rfeeds :: w in watchers
      modifies this`pendings, this`pendingpri, this`trace, this`rfeeds, watchers`pending
      ensures Valid() && rfeeds == []
      ensures trace == old(trace) + FedBack(old(rfeeds), revents)
      ensures old(NonePending(rfeeds)) ==> pendings == AppendBack(old(pendings), old(rfeeds), revents)
    {
      ghost var goal, queued := trace + FedBack(rfeeds, revents), AppendBack(pendings, rfeeds, revents);
      while rfeeds != []
        invariant Valid() && forall w <- rfeeds :: w in watchers
        invariant trace + FedBack(rfeeds, revents) == goal
        invariant old(NonePending(rfeeds)) ==> NonePending(rfeeds) && AppendBack(pendings, rfeeds, revents) == queued
        decreases |rfeeds|
      {
        FeedLast(revents);
      }
    }

    lemma AllQueuesEmpty()
      requires Valid() && forall p :: 0 <= p < NUMPRI ==> pendings[p] == []
      ensures pendings == [[], [], [], [], []]
      ensures forall w <- watchers :: w.pending == 0 && Mask(trace, w) == None
    {
      assert forall w <- watchers :: HeldOk(w) && Mask(trace, w) == Held(w);
    }

    ghost predicate Followed(trace0: seq<Event>, invoked: seq<Event>, script: seq<seq<Op>>, calls: nat)
      reads this`trace
    {
      && |invoked| == calls && (forall e <- invoked :: e.Invoked?)
      && trace == trace0 + Interleaved(invoked, script)
    }

    /** `PopEntry`, as the loops of `ev_invoke_pending` measure it. */
    method PopNext() returns (w: Watcher, events: bv32)
      requires Valid() && pendingpri < NUMPRI && pendings[pendingpri] != []
      requires forall p :: pendingpri < p < NUMPRI ==> pendings[p] == []
      modifies this`pendings, this`trace, watchers`pending, dummy`pending
      ensures Valid() && Total(pendings) < Total(old(pendings))
      ensures forall p :: pendingpri < p < NUMPRI ==> pendings[p] == []
      ensures trace == old(trace) + InvokedBy(Entry(w, events), dummy)
      ensures trace + Drain(pendings, dummy, pendingpri + 1) == old(trace) + Drain(old(pendings), dummy, pendingpri + 1)
    {
      hide BackPointers, TraceAgrees, Mask, Drain, Total, InvokedBy;
      w, events := PopEntry();
      PopTotal(old(pendings), pendingpri);
      PopDrain(old(pendings), dummy, pendingpri);
      assert trace + Drain(pendings, dummy, pendingpri + 1)
        == old(trace) + (InvokedBy(Entry(w, events), dummy) + Drain(pendings, dummy, pendingpri + 1));
    }

    /** One round of the inner loop of `ev_invoke_pending`. */
    method InvokeOne(script: seq<seq<Op>>, calls: nat) returns (calls': nat, ghost invoked: seq<Event>)
      requires Valid() && forall ops <- script :: forall op <- ops :: op.w in watchers
      requires pendingpri < NUMPRI && pendings[pendingpri] != []
      requires forall p :: pendingpri < p < NUMPRI ==> pendings[p] == []
      modifies this`pendings, this`pendingpri, this`trace, watchers`pending, dummy`pending
      ensures Valid() && pendingpri < NUMPRI
      ensures forall p :: pendingpri < p < NUMPRI ==> pendings[p] == []
      ensures calls' == calls + |invoked| && |invoked| <= 1 && forall e <- invoked :: e.Invoked?
      ensures trace == old(trace) + (if invoked == [] then [] else invoked + OpEvents(CallbackOps(script, calls)))
      ensures calls == calls' || calls >= |script| ==>
        pendingpri == old(pendingpri) && Total(pendings) < Total(old(pendings))
      ensures script == [] ==>
        trace + Drain(pendings, dummy, pendingpri + 1) == old(trace) + Drain(old(pendings), dummy, old(pendingpri) + 1)
    {
      hide BackPointers, TraceAgrees, Total, Drain, Mask;
      var w, events := PopNext();
      calls', invoked := calls, InvokedBy(Entry(w, events), dummy);
      if w != dummy {
        assert calls < |script| ==> script[calls] in script;
        RunCallback(CallbackOps(script, calls));
        calls' := calls + 1;
      }
    }

    method InvokeNext(script: seq<seq<Op>>, calls: nat, ghost trace0: seq<Event>, ghost invoked: seq<Event>)
      returns (calls': nat, ghost invoked': seq<Event>)
      requires Valid() && (forall ops <- script :: forall op <- ops :: op.w in watchers)
      requires pendingpri < NUMPRI && pendings[pendingpri] != [] && Followed(trace0, invoked, script, calls)
      requires forall p :: pendingpri < p < NUMPRI ==> pendings[p] == []
      modifies this`pendings, this`pendingpri, this`trace, watchers`pending, dummy`pending
      ensures Valid() && pendingpri < NUMPRI && Followed(trace0, invoked', script, calls')
      ensures forall p :: pendingpri < p < NUMPRI ==> pendings[p] == []
      ensures calls <= calls'
      ensures calls == calls' || calls >= |script| ==>
        pendingpri == old(pendingpri) && Total(pendings) < Total(old(pendings))
      ensures script == [] ==>
        trace + Drain(pendings, dummy, pendingpri + 1) == old(trace) + Drain(old(pendings), dummy, old(pendingpri) + 1)
    {
      ghost var more, before := [], trace;
      calls', more := InvokeOne(script, calls);
      invoked' := FollowedStep(trace0, before, trace, invoked, more, script);
    }

    /** `ev_invoke_pending`.  The n-th callback invoked does what `script[n]` says; later ones
        leave the loop alone.  (A run in which callbacks feed events for ever has no script.) */
    method InvokePending(script: seq<seq<Op>>) returns (ghost invoked: seq<Event>)
      requires Valid() && forall ops <- script :: forall op <- ops :: op.w in watchers
      modifies this`pendings, this`pendingpri, this`trace, watchers`pending, dummy`pending
      ensures Valid() && pendings == [[], [], [], [], []]
      ensures (forall e <- invoked :: e.Invoked?) && trace == old(trace) + Interleaved(invoked, script)
      ensures forall w <- watchers :: w.pending == 0 && Mask(trace, w) == None
      ensures script == [] ==> trace == old(trace) + Drain(old(pendings), dummy, NUMPRI)
    {
      hide BackPointers, TraceAgrees, Mask, InvokedBy, Total;
      ghost var goal := trace + Drain(pendings, dummy, NUMPRI);
      ghost var trace0 := trace;
      invoked := [];
      pendingpri := NUMPRI;
      var calls := 0;
      while pendingpri > 0
        invariant Valid() && Followed(trace0, invoked, script, calls)
        invariant forall p :: pendingpri <= p < NUMPRI ==> pendings[p] == []
        invariant script == [] ==> trace + Drain(pendings, dummy, pendingpri) == goal
        decreases if calls < |script| then |script| - calls else 0, Total(pendings), pendingpri
      {
        pendingpri := pendingpri - 1;
        ghost var calls0, total0, pri0 := calls, Total(pendings), pendingpri;
        while |pendings[pendingpri]| > 0
          invariant Valid() && Followed(trace0, invoked, script, calls) && pendingpri < NUMPRI && calls0 <= calls
          invariant forall p :: pendingpri < p < NUMPRI ==> pendings[p] == []
          invariant calls == calls0 || calls0 >= |script| ==> pendingpri == pri0 && Total(pendings) <= total0
          invariant script == [] ==> trace + Drain(pendings, dummy, pendingpri + 1) == goal
          decreases if calls < |script| then |script| - calls else 0, Total(pendings)
        {
          calls, invoked := InvokeNext(script, calls, trace0, invoked);
        }
        assert Drain(pendings, dummy, pendingpri + 1) == Drain(pendings, dummy, pendingpri);
      }
      AllQueuesEmpty();
    }
  }
}
