/** Per-fd state of the loop, as values: the watcher lists, the interest last handed to the
    backend, and the work list of fds whose interest may have changed. */
module FdState {
  import opened Interest

  /** The `reify` byte: its EV_ANFD_REIFY and EV__IOFDSET bits. */
  datatype Flags = Flags(anfd: bool, fdset: bool) {
    predicate Any() { anfd || fdset }
    function Or(f: Flags): Flags { Flags(anfd || f.anfd, fdset || f.fdset) }
  }

  const NO_FLAGS := Flags(false, false)
  const EV_ANFD_REIFY := Flags(true, false)
  const EV_EMASK_EPERM: bv8 := 0x80

  /** The fd is marked as one that epoll refuses. */
  predicate Eperm(emask: bv8) {
    emask & EV_EMASK_EPERM != 0
  }

  lemma OnlyEperm(m: bv8)
    ensures Eperm(EV_EMASK_EPERM)
    ensures IsMask(m) ==> !Eperm(m)
  {}

  /** An `ev_io` watcher.  `fdset` is the EV__IOFDSET bit that `ev_io_set` leaves in `events`. */
  class IoWatcher {
    const fd: nat
    const events: bv8
    var fdset: bool
    var active: nat

    constructor (fd: nat, events: bv8)
      requires IsMask(events)
      ensures this.fd == fd && this.events == events && fdset && active == 0
    {
      this.fd, this.events := fd, events;
      fdset, active := true, 0;
    }
  }

  const GENERATIONS := 0x1_0000_0000

  /** The 32-bit generation counter of an fd. */
  type Gen = g: nat | g < GENERATIONS

  function Next(g: Gen): Gen {
    if g == GENERATIONS - 1 then 0 else g + 1
  }

  function Previous(g: Gen): Gen {
    if g == 0 then GENERATIONS - 1 else g - 1
  }

  datatype Anfd = Anfd(head: seq<IoWatcher>, events: bv8, reify: Flags, emask: bv8, egen: Gen)

  const ZERO_ANFD := Anfd([], 0, NO_FLAGS, 0, 0)

  /** The interest of all watchers of a list. */
  function OrMasks(head: seq<IoWatcher>): bv8 {
    if head == [] then 0 else head[0].events | OrMasks(head[1..])
  }

  lemma OrAssociates(x: bv8, y: bv8, z: bv8)
    ensures (x | y) | z == x | (y | z)
  {}

  /** The loop of `fd_reify` that collects the interest of a list. */
  method CollectMasks(head: seq<IoWatcher>) returns (events: bv8)
    ensures events == OrMasks(head)
  {
    events := 0;
    for i := 0 to |head|
      invariant events | OrMasks(head[i..]) == OrMasks(head)
    {
      OrAssociates(events, head[i].events, OrMasks(head[i + 1..]));
      assert head[i..][1..] == head[i + 1..];
      events := events | head[i].events;
    }
  }

  predicate HeadOk(head: seq<IoWatcher>, fd: nat, ws: set<IoWatcher>) {
    && (forall w <- head :: w in ws && w.fd == fd && IsMask(w.events))
    && (forall i, j :: 0 <= i < j < |head| ==> head[i] != head[j])
  }

  predicate HeadsOk(a: seq<Anfd>, ws: set<IoWatcher>) {
    forall fd :: 0 <= fd < |a| ==> HeadOk(a[fd].head, fd, ws) && IsMask(a[fd].events)
  }

  /** The watcher is on the list of its fd. */
  predicate Listed(a: seq<Anfd>, w: IoWatcher) {
    w.fd < |a| && w in a[w.fd].head
  }

  lemma SameLists(a: seq<Anfd>, fd: nat, x: Anfd, ws: set<IoWatcher>)
    requires fd < |a| && x.head == a[fd].head
    ensures forall w <- ws :: Listed(a[fd := x], w) <==> Listed(a, w)
    ensures HeadsOk(a, ws) && IsMask(x.events) ==> HeadsOk(a[fd := x], ws)
  {}

  /** An fd is on the work list exactly once iff its `reify` is non-zero. */
  predicate WorkOk(a: seq<Anfd>, work: seq<nat>) {
    && (forall i, j :: 0 <= i < j < |work| ==> work[i] != work[j])
    && (forall fd <- work :: fd < |a| && a[fd].reify.Any())
    && (forall fd :: 0 <= fd < |a| && a[fd].reify.Any() ==> fd in work)
  }

  /** An fd not on the work list is in sync. */
  predicate Synced(a: seq<Anfd>) {
    forall fd :: 0 <= fd < |a| && !a[fd].reify.Any() ==> a[fd].events == OrMasks(a[fd].head)
  }

  function EventsOf(a: seq<Anfd>, fd: nat): bv8 {
    if fd < |a| then a[fd].events else 0
  }

  /** The number of started watchers. */
  function Total(a: seq<Anfd>): nat {
    if a == [] then 0 else |a[0].head| + Total(a[1..])
  }

  lemma {:induction false} TotalUpdate(a: seq<Anfd>, fd: nat, x: Anfd)
    requires fd < |a|
    ensures Total(a[fd := x]) == Total(a) - |a[fd].head| + |x.head|
  {
    var b := a[fd := x];
    if fd == 0 {
      assert b[1..] == a[1..];
    } else {
      assert b[1..] == a[1..][fd - 1 := x];
      TotalUpdate(a[1..], fd - 1, x);
    }
  }

  lemma OrIsMask(x: bv8, y: bv8)
    requires IsMask(x) && IsMask(y)
    ensures IsMask(x | y)
  {}

  lemma {:induction false} OrMasksIsMask(head: seq<IoWatcher>)
    requires forall w <- head :: IsMask(w.events)
    ensures IsMask(OrMasks(head)) && (OrMasks(head) != 0 ==> head != [])
  {
    if head != [] {
      OrMasksIsMask(head[1..]);
      OrIsMask(head[0].events, OrMasks(head[1..]));
    }
  }

  lemma OrShares(x: bv8, y: bv8, m: bv8)
    ensures (x | y) & m != 0 <==> x & m != 0 || y & m != 0
  {}

  /** The union has the events that some watcher of the list wants, and no other. */
  lemma {:induction false} OrMasksIff(head: seq<IoWatcher>, m: bv8)
    ensures OrMasks(head) & m != 0 <==> exists w <- head :: w.events & m != 0
  {
    if head != [] {
      OrMasksIff(head[1..], m);
      OrShares(head[0].events, OrMasks(head[1..]), m);
      assert head == [head[0]] + head[1..];
      assert head[0] in head;
    }
  }

  /** The watcher list without `w`: `wlist_del`. */
  function Without(head: seq<IoWatcher>, w: IoWatcher): (r: seq<IoWatcher>)
    ensures forall v :: v in r ==> v in head
    ensures w in head ==> |r| == |head| - 1
    ensures |r| <= |head|
  {
    if head == [] then [] else if head[0] == w then head[1..] else [head[0]] + Without(head[1..], w)
  }

  lemma {:induction false} WithoutIsRest(head: seq<IoWatcher>, w: IoWatcher)
    requires forall i, j :: 0 <= i < j < |head| ==> head[i] != head[j]
    ensures w !in Without(head, w)
    ensures forall v :: v in head && v != w ==> v in Without(head, w)
    ensures var r := Without(head, w); forall i, j :: 0 <= i < j < |r| ==> r[i] != r[j]
  {
    if head != [] && head[0] != w {
      var rest := Without(head[1..], w);
      WithoutIsRest(head[1..], w);
      forall v <- rest ensures v != head[0] {
        assert v in head[1..];
      }
      var r := Without(head, w);
      assert r == [head[0]] + rest;
      forall i, j | 0 <= i < j < |r| ensures r[i] != r[j] {
        assert r[j] == rest[j - 1];
        assert rest[j - 1] in rest;
      }
    }
  }

  /** `fd_change`: the flags and, if there were none before, the work list. */
  function Changed(x: Anfd, flags: Flags): Anfd {
    x.(reify := x.reify.Or(flags))
  }

  /** An fd after `fd_kill`. */
  function Killed(x: Anfd): Anfd {
    if x.head == [] then x else Changed(x.(head := []), EV_ANFD_REIFY)
  }

  function ChangedWork(x: Anfd, fd: nat, work: seq<nat>): seq<nat> {
    if !x.reify.Any() then work + [fd] else work
  }

  /** Clearing `reify` takes the first fd off the work list. */
  lemma WorkDone(a: seq<Anfd>, work: seq<nat>, x: Anfd)
    requires WorkOk(a, work) && work != [] && work[0] < |a| && !x.reify.Any()
    ensures WorkOk(a[work[0] := x], work[1..])
  {
    var fd, b := work[0], a[work[0] := x];
    forall g <- work[1..] ensures g < |b| && b[g].reify.Any() {
      assert g in work && g != fd;
    }
    forall g | 0 <= g < |b| && b[g].reify.Any() ensures g in work[1..] {
      assert g in work && g != fd;
    }
  }

  lemma ChangeKeepsWork(a: seq<Anfd>, work: seq<nat>, fd: nat, x: Anfd, flags: Flags)
    requires WorkOk(a, work) && fd < |a| && flags.Any() && x.reify == a[fd].reify
    ensures WorkOk(a[fd := Changed(x, flags)], ChangedWork(x, fd, work))
  {
    var b, work' := a[fd := Changed(x, flags)], ChangedWork(x, fd, work);
    forall g | 0 <= g < |b| && b[g].reify.Any() ensures g in work' {
      if g == fd && !a[fd].reify.Any() {
        assert work'[|work|] == fd;
      } else {
        assert g in work;
      }
    }
  }
}

/** The kernel side of epoll: at most one registration per open fd, which the kernel may drop
    on its own at any time (the fd was closed). */
module EpollKernel {
  import opened FdState

  datatype Reg = Reg(mask: bv8, gen: Gen)

  datatype Errno = OK | ENOENT | EEXIST | EPERM | OTHER

  datatype CtlOp = ADD | MOD | DEL

  /** The registrations, the fds whose registration the kernel has dropped on its own, and the fds
      for which its last answer was a refusal. */
  datatype Answers = Answers(regs: map<nat, Reg>, dropped: set<nat>, refused: set<nat>)

  /** What has happened: the kernel has dropped registrations, or has been asked. */
  datatype KernelStep = Lost(fds: set<nat>) | Asked(op: CtlOp, fd: nat, mask: bv8, err: Errno)

  predicate Asks(e: KernelStep, fd: nat, mask: bv8) {
    e.Asked? && e.fd == fd && e.op != DEL && e.mask == mask
  }

  predicate Refusal(e: KernelStep, fd: nat) {
    e.Asked? && e.fd == fd && (e.err == EPERM || e.err == OTHER)
  }

  predicate Loss(e: KernelStep, fd: nat) {
    e.Lost? && fd in e.fds
  }

  /** From step `n` on, the kernel has been asked to register `fd` with this mask. */
  ghost predicate WasAsked(log: seq<KernelStep>, n: nat, fd: nat, mask: bv8) {
    exists j :: n <= j < |log| && Asks(log[j], fd, mask)
  }

  ghost predicate Refuses(log: seq<KernelStep>, n: nat, fd: nat) {
    exists j :: n <= j < |log| && Refusal(log[j], fd)
  }

  ghost predicate Loses(log: seq<KernelStep>, n: nat, fd: nat) {
    exists j :: n <= j < |log| && Loss(log[j], fd)
  }

  ghost predicate LosesAfterAsked(log: seq<KernelStep>, n: nat, fd: nat, mask: bv8) {
    exists j: nat :: n <= j < |log| && Asks(log[j], fd, mask) && Loses(log, j, fd)
  }

  /** From step `n` on the kernel has been asked about `fd`; it has it registered with exactly this
      mask, or has refused it, or has dropped it after it was asked. */
  ghost predicate Told(log: seq<KernelStep>, n: nat, fd: nat, mask: bv8, k: Answers) {
    && WasAsked(log, n, fd, mask)
    && ((fd in k.regs && k.regs[fd].mask == mask)
        || (fd in k.refused && Refuses(log, n, fd))
        || LosesAfterAsked(log, n, fd, mask))
  }

  /** What has happened includes every loss of an fd other than `fd`. */
  ghost predicate Noted(log: seq<KernelStep>, k: Answers, log': seq<KernelStep>, k': Answers, fd: nat) {
    && log <= log'
    && (forall g <- k.regs :: g != fd && g !in k'.regs ==> Loses(log', |log|, g))
  }

  lemma MoreLosses(log: seq<KernelStep>, log': seq<KernelStep>, n: nat, n': nat, fd: nat)
    requires log <= log' && n' <= n && Loses(log, n, fd)
    ensures Loses(log', n', fd)
  {
    var j :| n <= j < |log| && Loss(log[j], fd);
    assert Loss(log'[j], fd);
  }

  lemma NotedTwice(log: seq<KernelStep>, k: Answers, log1: seq<KernelStep>, k1: Answers,
                   log2: seq<KernelStep>, k2: Answers, fd: nat)
    requires Noted(log, k, log1, k1, fd) && Noted(log1, k1, log2, k2, fd)
    ensures Noted(log, k, log2, k2, fd)
  {
    hide Loses;
    forall g <- k.regs | g != fd && g !in k2.regs ensures Loses(log2, |log|, g) {
      if g in k1.regs {
        MoreLosses(log2, log2, |log1|, |log|, g);
      } else {
        MoreLosses(log1, log2, |log|, |log|, g);
      }
    }
  }

  /** One call of `epoll_ctl`. */
  lemma ToldOnce(log: seq<KernelStep>, n: nat, gone: set<nat>, op: CtlOp, fd: nat, mask: bv8, err: Errno, k: Answers)
    requires n <= |log| && op != DEL && err != ENOENT
    requires err == OK || err == EEXIST ==> fd in k.regs && k.regs[fd].mask == mask
    requires err == EPERM || err == OTHER ==> fd in k.refused
    ensures Told(log + [Lost(gone), Asked(op, fd, mask, err)], n, fd, mask, k)
  {
    var log' := log + [Lost(gone), Asked(op, fd, mask, err)];
    assert Asks(log'[|log| + 1], fd, mask);
    if err == EPERM || err == OTHER {
      assert Refusal(log'[|log| + 1], fd);
    }
  }

  /** A second one, that found the registration gone which the first had met. */
  lemma ToldTwice(log: seq<KernelStep>, n: nat, gone: set<nat>, op: CtlOp, fd: nat, mask: bv8, err: Errno, k: Answers)
    requires n <= |log| && WasAsked(log, n, fd, mask) && fd in gone
    ensures Told(log + [Lost(gone), Asked(op, fd, mask, err)], n, fd, mask, k)
  {
    var log' := log + [Lost(gone), Asked(op, fd, mask, err)];
    var j :| n <= j < |log| && Asks(log[j], fd, mask);
    assert Asks(log'[j], fd, mask);
    assert Loss(log'[|log|], fd);
    assert Loses(log', j, fd);
  }

  /** Calls of `epoll_ctl` for `fd` do nothing for the other fds, but the kernel may drop them. */
  ghost predicate OthersFramed(k: Answers, k': Answers, fd: nat) {
    && (forall g <- k'.regs :: g != fd ==> g in k.regs && k'.regs[g] == k.regs[g])
    && (forall g <- k.regs :: g != fd ==> g in k'.regs || g in k'.dropped)
    && (forall g <- k.dropped :: g != fd ==> g in k'.dropped)
    && (forall g <- k'.dropped :: g != fd ==> g in k.dropped || g in k.regs)
    && (forall g :: g != fd ==> (g in k'.refused <==> g in k.refused))
  }

  /** Calls for other fds leave it so. */
  lemma StaysTold(log: seq<KernelStep>, n: nat, g: nat, mask: bv8, k: Answers, log': seq<KernelStep>, k': Answers,
                  fd: nat)
    requires n <= |log| && Told(log, n, g, mask, k) && Noted(log, k, log', k', fd) && OthersFramed(k, k', fd) && g != fd
    ensures Told(log', n, g, mask, k')
  {
    var j :| n <= j < |log| && Asks(log[j], g, mask);
    assert Asks(log'[j], g, mask);
    if g in k.regs && k.regs[g].mask == mask {
      if g !in k'.regs {
        MoreLosses(log', log', |log|, j, g);
      }
    } else if g in k.refused && Refuses(log, n, g) {
      var i :| n <= i < |log| && Refusal(log[i], g);
      assert Refusal(log'[i], g);
    } else {
      var i: nat :| n <= i < |log| && Asks(log[i], g, mask) && Loses(log, i, g);
      MoreLosses(log, log', i, i, g);
      assert Asks(log'[i], g, mask);
    }
  }

  class Kernel {
    var regs: map<nat, Reg>
    ghost var dropped: set<nat>
    ghost var refused: set<nat>
    ghost var log: seq<KernelStep>

    ghost function View(): Answers
      reads this
    {
      Answers(regs, dropped, refused)
    }

    constructor ()
      ensures View() == Answers(map[], {}, {}) && log == []
    {
      regs, dropped, refused, log := map[], {}, {}, [];
    }

    /** The kernel drops any registrations it likes. */
    method DropSome()
      modifies this
      ensures forall fd <- regs :: fd in old(regs) && regs[fd] == old(regs)[fd]
      ensures dropped == old(dropped) + (old(regs).Keys - regs.Keys) && refused == old(refused)
      ensures log == old(log) + [Lost(old(regs).Keys - regs.Keys)]
    {
      var gone: set<nat> := *;
      dropped := dropped + (regs.Keys * gone);
      log := log + [Lost(regs.Keys * gone)];
      regs := regs - gone;
      assert old(regs).Keys - regs.Keys == old(regs).Keys * gone;
    }

    /** `epoll_ctl`.  An fd that is registered cannot be added again; one that is not can be
        neither modified nor deleted; other reasons to fail are refusals. */
    method Ctl(op: CtlOp, fd: nat, mask: bv8, gen: Gen)
      returns (err: Errno, ghost gone: set<nat>)
      modifies this
      ensures OthersFramed(old(View()), View(), fd)
      ensures err == OK && op != DEL ==> fd in regs && regs[fd] == Reg(mask, gen)
      ensures err == OK && op == DEL ==> fd !in regs
      ensures err == OK && op != ADD ==> fd in old(regs)
      ensures err == EEXIST ==> op == ADD && fd in old(regs) && fd in regs && regs[fd] == old(regs)[fd]
      ensures err == ENOENT ==> op != ADD && (fd in old(regs) ==> fd in dropped)
      ensures err != OK && err != EEXIST ==> fd !in regs
      ensures fd in refused <==> err == EPERM || err == OTHER
      ensures fd !in regs && (fd in old(regs) || fd in old(dropped)) && op != DEL ==> fd in dropped
      ensures dropped <= old(dropped) + old(regs).Keys
      ensures log == old(log) + [Lost(gone), Asked(op, fd, mask, err)] && gone <= old(regs).Keys
      ensures forall g <- old(regs) :: g != fd ==> (g in gone <==> g !in regs)
      ensures fd in old(regs) && (err == ENOENT || (fd !in regs && op != DEL)) ==> fd in gone
    {
      DropSome();
      gone := old(regs).Keys - regs.Keys;
      err := OK;
      var choice: nat := *;
      match op {
        case ADD =>
          if fd in regs {
            err := EEXIST;
          } else if choice == 0 {
            err := EPERM;
          } else if choice == 1 {
            err := OTHER;
          } else {
            regs, dropped := regs[fd := Reg(mask, gen)], dropped - {fd};
          }
        case MOD =>
          if fd !in regs {
            err := if choice == 0 then EPERM else if choice == 1 then OTHER else ENOENT;
          } else {
            regs := regs[fd := Reg(mask, gen)];
          }
        case DEL =>
          if fd !in regs {
            err := if choice == 0 then OTHER else ENOENT;
          } else {
            regs := regs - {fd};
          }
      }
      refused := if err == EPERM || err == OTHER then refused + {fd} else refused - {fd};
      log := log + [Asked(op, fd, mask, err)];
    }

    /** A fresh, empty epoll set: `epoll_create` after `close`. */
    method Recreate()
      modifies this
      ensures View() == Answers(map[], {}, {}) && log == old(log)
    {
      regs, dropped, refused := map[], {}, {};
    }
  }
}
