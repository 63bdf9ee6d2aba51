/** `ev_io_start`, `ev_io_stop`, `fd_kill`, `fd_reify`, `fd_rearm_all` over the poll, select and
    epoll backends, and epoll's own modify, poll and fork. */
module FdLoops {
  import opened Interest
  import opened FdState
  import opened EpollKernel
  import opened EpollState
  import opened FdFeeds
  import PollBackend
  import SelectBackend

  datatype Backend = PollB | SelectB | EpollB

  /** How `epoll_modify` ends: registered with the new mask, still registered with the same
      mask, refused by epoll, or to be killed. */
  datatype Outcome = Done | AsBefore | Refused | Failed

  lemma ListGrows(a: seq<Anfd>, w: IoWatcher, ws: set<IoWatcher>)
    requires w.fd < |a| && w in ws && IsMask(w.events) && HeadsOk(a, ws) && !Listed(a, w)
    ensures var b := a[w.fd := a[w.fd].(head := [w] + a[w.fd].head)];
      HeadsOk(b, ws) && forall v <- ws :: Listed(b, v) <==> v == w || Listed(a, v)
  {}

  /** `fd` if it is marked as refused in `b` and was not in `a`. */
  function NewlyMarked(fd: nat, a: seq<Anfd>, b: seq<Anfd>): seq<nat>
    requires fd < |a| && fd < |b|
  {
    if Eperm(b[fd].emask) && !Eperm(a[fd].emask) then [fd] else []
  }

  lemma MasksOnly(a: seq<Anfd>, b: seq<Anfd>, ev: KernelEvent)
    requires OnlyMasks(a, b) && ev.fd < |a|
    ensures Stale(b, ev) == Stale(a, ev) && Surplus(b, ev) == Surplus(a, ev) && FeedsOf(b, ev) == FeedsOf(a, ev)
    ensures |a| == |b| && Reportable(b, ev) == Reportable(a, ev)
  {
    assert b[ev.fd] == a[ev.fd].(emask := b[ev.fd].emask);
  }

  lemma MasksTwice(a: seq<Anfd>, b: seq<Anfd>, c: seq<Anfd>)
    requires OnlyMasks(a, b) && OnlyMasks(b, c)
    ensures OnlyMasks(a, c)
  {}

  /** Moving the last entry into the hole takes one entry off. */
  lemma TakeOff(list: seq<nat>, i: nat)
    requires i < |list|
    ensures
      var less := list[i := list[|list| - 1]][..|list| - 1];
      && less[..i] == list[..i] && multiset(less[i..]) == multiset(list[i + 1..])
      && forall n: nat :: InRange(list, n) ==> InRange(less, n)
  {
    var last := |list| - 1;
    var less := list[i := list[last]][..last];
    if i == last {
      assert less[i..] == [] && list[i + 1..] == [];
    } else {
      assert less[i..] == [list[last]] + list[i + 1..last];
      assert list[i + 1..] == list[i + 1..last] + [list[last]];
    }
  }

  lemma SameEntry(list: seq<nat>, now: seq<nat>, i: nat)
    requires i < |list| && i < |now| && now[..i + 1] == list[..i + 1]
    ensures now[i] == list[i] && now[..i] == list[..i]
  {
    assert now[..i + 1][i] == list[..i + 1][i];
    assert now[..i + 1][..i] == list[..i + 1][..i];
  }

  lemma EntryInRange(list: seq<nat>, n: nat, i: nat)
    requires i < |list| && InRange(list, n)
    ensures list[i] < n
  {}

  /** What is kept from index `i` on, given what is kept behind it. */
  lemma KeptNext(a: seq<Anfd>, list: seq<nat>, now: seq<nat>, i: nat)
    requires InRange(list, |a|) && i < |list| && i < |now| && now[i] == list[i]
    requires multiset(now[i + 1..]) == multiset(Kept(a, list[i + 1..]))
    ensures
      multiset(Kept(a, list[i..])) == if Served(a[list[i]]) then multiset(now[i..]) else multiset(now[i + 1..])
  {
    assert list[i..][1..] == list[i + 1..];
    assert now[i..] == [now[i]] + now[i + 1..];
  }

  lemma Joins(x: seq<Feed>, y: seq<Feed>, z: seq<Feed>)
    ensures x + (y + z) == (x + y) + z
  {}

  lemma FeedsNext(a: seq<Anfd>, list: seq<nat>, i: nat, fed: seq<Feed>)
    requires InRange(list, |a|) && i < |list|
    ensures fed + ListFeeds(a, list[..i + 1]) == (fed + ServedFeeds(a[list[i]])) + ListFeeds(a, list[..i])
  {
    hide ServedFeeds;
    assert list[..i + 1][..i] == list[..i];
    Joins(fed, ServedFeeds(a[list[i]]), ListFeeds(a, list[..i]));
  }

  lemma NotKept(a: seq<Anfd>, list: seq<nat>, kept: seq<nat>, fd: nat)
    requires InRange(list, |a|) && multiset(kept) == multiset(Kept(a, list))
    requires fd < |a| && !Served(a[fd])
    ensures fd !in kept
  {
    KeptMembers(a, list, fd);
    assert fd in kept <==> fd in multiset(kept);
    assert fd in Kept(a, list) <==> fd in multiset(Kept(a, list));
  }

  lemma OrZero(x: bv8)
    ensures x | 0 == x
  {}

  /** Fds that were marked are not put on the list. */
  lemma NotAdded(a: seq<Anfd>, list: seq<nat>, more: seq<nat>, fd: nat)
    requires list <= more && fd !in list && fd < |a| && Eperm(a[fd].emask)
    requires forall j :: |list| <= j < |more| ==> more[j] < |a| && !Eperm(a[more[j]].emask)
    ensures fd !in more
  {
    hide Eperm;
    forall j | 0 <= j < |more| ensures more[j] != fd {
      if j < |list| {
        assert more[j] == list[j];
      }
    }
  }

  lemma OrHolds(x: bv8, y: bv8, z: bv8)
    ensures x & (x | y) == x && (x & y == x ==> x & (z | y) == x)
  {}

  /** The union of the interests holds each of them. */
  lemma {:induction false} OrMasksHolds(head: seq<IoWatcher>, w: IoWatcher)
    requires w in head
    ensures w.events & OrMasks(head) == w.events
  {
    OrHolds(w.events, OrMasks(head[1..]), head[0].events);
    if head[0] != w {
      OrMasksHolds(head[1..], w);
    }
  }

  /** The kernel's answers about the fds killed so far stand, as nobody asks about them again. */
  lemma GivenUpStay(fd: nat, killed1: seq<nat>, b: seq<Anfd>, k: Answers, killed: seq<nat>, k': Answers)
    requires fd < |b| && OthersFramed(k, k', fd) && (OrMasks(b[fd].head) == 0 ==> k' == k)
    requires killed1 == [] || (killed1 == [fd] && GivenUp(fd, k'))
    requires AllGivenUp(killed, k) && forall j :: 0 <= j < |killed| ==> killed[j] < |b| && b[killed[j]].head == []
    ensures AllGivenUp(killed + killed1, k')
  {}

  lemma AskedStep(k: Answers, k1: Answers, k2: Answers, a: seq<Anfd>, b: seq<Anfd>, fd: nat)
    requires fd < |b| == |a| && AskedFor(k, k1, a) && OthersFramed(k1, k2, fd)
    requires OrMasks(b[fd].head) == 0 ==> k2 == k1
    requires b[fd].head == [] || b[fd].head == a[fd].head
    ensures AskedFor(k, k2, a)
  {
    forall g | g in k2.regs.Keys + k2.dropped + k2.refused
      ensures g in k.regs.Keys + k.dropped + k.refused || (g < |a| && OrMasks(a[g].head) != 0)
    {
      assert g != fd ==> g in k1.regs.Keys + k1.dropped + k1.refused;
    }
  }

  lemma OldRegs(k: Answers, k': Answers, fd: nat)
    requires OthersFramed(k, k', fd)
    ensures forall g <- k'.regs :: g != fd ==> g in k.regs
  {}

  lemma CallNoted(log: seq<KernelStep>, k: Answers, gone: set<nat>, call: KernelStep, k': Answers, fd: nat)
    requires forall g <- k.regs :: g != fd && g !in k'.regs ==> g in gone
    ensures Noted(log, k, log + [Lost(gone), call], k', fd)
  {
    var log' := log + [Lost(gone), call];
    forall g <- k.regs | g != fd && g !in k'.regs ensures Loses(log', |log|, g) {
      assert Loss(log'[|log|], g);
    }
  }

  lemma CallAsks(log: seq<KernelStep>, gone: set<nat>, op: CtlOp, fd: nat, mask: bv8, err: Errno)
    requires op != DEL
    ensures WasAsked(log + [Lost(gone), Asked(op, fd, mask, err)], |log|, fd, mask)
  {
    assert Asks((log + [Lost(gone), Asked(op, fd, mask, err)])[|log| + 1], fd, mask);
  }

  lemma NotedGrows(log: seq<KernelStep>, k: Answers, log': seq<KernelStep>, k': Answers, fd: nat)
    requires Noted(log, k, log', k', fd)
    ensures log <= log'
  {}

  lemma ToldSinceThen(log: seq<KernelStep>, n: nat, n': nat, fd: nat, mask: bv8, k: Answers)
    requires Told(log, n, fd, mask, k) && n' <= n
    ensures Told(log, n', fd, mask, k)
  {}

  lemma AfterIsSince(log: seq<KernelStep>, n: nat, fd: nat, mask: bv8)
    ensures LosesAfterAsked(log, n, fd, mask) ==> Loses(log, n, fd)
  {
    if LosesAfterAsked(log, n, fd, mask) {
      var j: nat :| n <= j < |log| && Asks(log[j], fd, mask) && Loses(log, j, fd);
      MoreLosses(log, log, j, n, fd);
    }
  }

  lemma ToldOutcome(log: seq<KernelStep>, n: nat, fd: nat, mask: bv8, k: Answers)
    requires Told(log, n, fd, mask, k) && !Refuses(log, n, fd) && !Loses(log, n, fd)
    ensures fd in k.regs && k.regs[fd].mask == mask
  {
    AfterIsSince(log, n, fd, mask);
  }

  lemma NothingNoted(log: seq<KernelStep>, k: Answers, fd: nat)
    ensures Noted(log, k, log, k, fd)
  {}

  class FdLoop {
    var anfds: seq<Anfd>
    var fdchanges: seq<nat>
    var postfork: bool

    var fed: seq<Feed>
    /** `epoll_eperms`: the fds `epoll_poll` serves itself. */
    var eperms: seq<nat>
    const backend: Backend
    const poll: PollBackend.Poll
    const select: SelectBackend.Select
    const kernel: Kernel
    ghost const watchers: set<IoWatcher>

    // ---------- the invariant ----------

    /** A watcher is active iff it is on the list of its fd. */
    ghost predicate ActiveOk()
      reads this`anfds, watchers`active
    {
      forall w <- watchers :: w.active != 0 <==> Listed(anfds, w)
    }

    /** The lists, and the work list from index `i` on. */
    ghost predicate ListsOk(i: nat)
      reads this`anfds, this`fdchanges, watchers`active
    {
      && i <= |fdchanges|
      && HeadsOk(anfds, watchers) && ActiveOk() && WorkOk(anfds, fdchanges[i..])
      && (forall w <- watchers :: IsMask(w.events))
    }

    /** What the backend has been told is `anfds[fd].events`, for every fd. */
    ghost predicate BackendOk(weak: bool)
      reads this`anfds, poll, select, kernel
    {
      match backend
      case PollB => poll.Valid() && forall fd: nat :: poll.MaskOf(fd) == EventsOf(anfds, fd)
      case SelectB => select.Valid() && forall fd: nat :: select.MaskOf(fd) == EventsOf(anfds, fd)
      case EpollB => KernelAgrees(anfds, kernel.View(), weak)
    }

    ghost predicate Valid()
      reads this, watchers, poll, select, kernel
    {
      ListsOk(0) && Synced(anfds) && BackendOk(false) && InRange(eperms, |anfds|)
    }

    constructor (backend: Backend, ghost watchers: set<IoWatcher>)
      requires forall w <- watchers :: w.active == 0 && IsMask(w.events)
      ensures Valid() && this.backend == backend && this.watchers == watchers
      ensures anfds == [] && fdchanges == [] && fed == [] && eperms == []
      ensures fresh(poll) && fresh(select) && fresh(kernel)
    {
      anfds, fdchanges, postfork, fed, eperms := [], [], false, [], [];
      this.backend, this.watchers := backend, watchers;
      poll := new PollBackend.Poll();
      select := new SelectBackend.Select();
      kernel := new Kernel();
    }

    // ---------- starting, stopping, killing ----------

    /** `fd_change` */
    method FdChange(fd: nat, flags: Flags, ghost i: nat)
      requires fd < |anfds| && flags.Any() && ListsOk(i)
      modifies this`anfds, this`fdchanges
      ensures ListsOk(i)
      ensures anfds == old(anfds)[fd := Changed(old(anfds)[fd], flags)]
      ensures fdchanges == ChangedWork(old(anfds)[fd], fd, old(fdchanges))
    {
      var x := anfds[fd];
      ChangeKeepsWork(anfds, fdchanges[i..], fd, x, flags);
      anfds := anfds[fd := x.(reify := x.reify.Or(flags))];
      if !x.reify.Any() {
        fdchanges := fdchanges + [fd];
      }
      assert anfds == old(anfds)[fd := Changed(x, flags)];
      assert fdchanges[i..] == ChangedWork(x, fd, old(fdchanges)[i..]);
      SameLists(old(anfds), fd, anfds[fd], watchers);
    }

    /** `ev_io_stop` behind its test for an inactive watcher. */
    method Unlist(w: IoWatcher, ghost i: nat)
      requires w in watchers && w.active != 0 && ListsOk(i)
      modifies this`anfds, this`fdchanges, w`active
      ensures ListsOk(i) && w.active == 0
      ensures w.fd < |old(anfds)| && w in old(anfds)[w.fd].head
      ensures var x := old(anfds)[w.fd];
        && anfds == old(anfds)[w.fd := Changed(x.(head := Without(x.head, w)), EV_ANFD_REIFY)]
        && fdchanges == ChangedWork(x, w.fd, old(fdchanges))
    {
      var fd := w.fd;
      WithoutIsRest(anfds[fd].head, w);
      anfds := anfds[fd := anfds[fd].(head := Without(anfds[fd].head, w))];
      w.active := 0;
      assert WorkOk(anfds, fdchanges[i..]);
      FdChange(fd, EV_ANFD_REIFY, i);
    }

    /** One round of `fd_kill`. */
    method KillHead(fd: nat, ghost i: nat)
      requires fd < |anfds| && ListsOk(i) && anfds[fd].head != []
      modifies this`anfds, this`fdchanges, this`fed, watchers`active
      ensures ListsOk(i)
      ensures var x := old(anfds)[fd];
        && anfds == old(anfds)[fd := Changed(x.(head := x.head[1..]), EV_ANFD_REIFY)]
        && fdchanges == ChangedWork(x, fd, old(fdchanges))
        && fed + KillFeeds(x.head[1..]) == old(fed) + KillFeeds(x.head)
    {
      var w := anfds[fd].head[0];
      assert w in anfds[fd].head && Listed(anfds, w);
      Unlist(w, i);
      fed := fed + [Feed(w, EV_READ | EV_WRITE, true)];
    }

    /** `fd_kill`: every watcher is stopped and fed an error. */
    method Kill(fd: nat, ghost i: nat)
      requires fd < |anfds| && ListsOk(i)
      modifies this`anfds, this`fdchanges, this`fed, watchers`active
      ensures ListsOk(i)
      ensures anfds == old(anfds)[fd := Killed(old(anfds)[fd])]
      ensures fdchanges ==
        if old(anfds)[fd].head == [] then old(fdchanges) else ChangedWork(old(anfds)[fd], fd, old(fdchanges))
      ensures fed == old(fed) + KillFeeds(old(anfds)[fd].head)
    {
      hide HeadsOk, WorkOk, Listed;
      ghost var a0, x, work, goal := anfds, anfds[fd], fdchanges, fed + KillFeeds(anfds[fd].head);
      ghost var k := 0;
      while anfds[fd].head != []
        invariant ListsOk(i) && k <= |x.head| && fd < |anfds|
        invariant anfds == a0[fd := KilledFirst(x, k)]
        invariant fdchanges == if k == 0 then work else ChangedWork(x, fd, work)
        invariant fed + KillFeeds(anfds[fd].head) == goal
        decreases |anfds[fd].head|
      {
        KillHead(fd, i);
        assert x.head[k..][1..] == x.head[k + 1..];
        k := k + 1;
      }
    }

    // ---------- epoll ----------

    /** `fd` has just been brought up to date by `fd_reify`; the backend may not know yet. */
    ghost predicate Fresh(fd: nat)
      reads this`anfds
    {
      && fd < |anfds| && !anfds[fd].reify.Any()
      && anfds[fd].events == OrMasks(anfds[fd].head)
    }

    method CtlFd(op: CtlOp, fd: nat, mask: bv8, gen: Gen, ghost weak: bool)
      returns (err: Errno, ghost gone: set<nat>)
      requires fd < |anfds| && OthersAgree(anfds, kernel.View(), fd, weak)
      modifies kernel
      ensures OthersAgree(anfds, kernel.View(), fd, weak) && OthersFramed(old(kernel.View()), kernel.View(), fd)
      ensures err == OK && op != DEL ==> fd in kernel.regs && kernel.regs[fd] == Reg(mask, gen)
      ensures err == OK && op == DEL ==> fd !in kernel.regs
      ensures err == EEXIST ==>
        op == ADD && fd in kernel.regs && fd in old(kernel.regs) && kernel.regs[fd] == old(kernel.regs)[fd]
      ensures err == OK && op != ADD ==> fd in old(kernel.regs)
      ensures err == ENOENT ==> op != ADD && (fd in old(kernel.regs) ==> fd in kernel.dropped)
      ensures err != OK && err != EEXIST ==> fd !in kernel.regs
      ensures fd in kernel.refused <==> err == EPERM || err == OTHER
      ensures fd !in kernel.regs && (fd in old(kernel.regs) || fd in old(kernel.dropped)) && op != DEL ==>
        fd in kernel.dropped
      ensures kernel.log == old(kernel.log) + [Lost(gone), Asked(op, fd, mask, err)]
      ensures fd in old(kernel.regs) && err == ENOENT ==> fd in gone
      ensures Noted(old(kernel.log), old(kernel.View()), kernel.log, kernel.View(), fd)
    {
      ghost var k, log := kernel.View(), kernel.log;
      err, gone := kernel.Ctl(op, fd, mask, gen);
      CallNoted(log, k, gone, Asked(op, fd, mask, err), kernel.View(), fd);
      OthersSurvive(anfds, anfds, fd, k, kernel.View(), weak);
    }

    /** Stores the epoll mask and generation of `fd`. */
    method SetEpoll(fd: nat, emask: bv8, egen: Gen, ghost i: nat, ghost weak: bool)
      requires fd < |anfds| && ListsOk(i) && OthersAgree(anfds, kernel.View(), fd, weak)
      modifies this`anfds
      ensures ListsOk(i) && OthersAgree(anfds, kernel.View(), fd, weak)
      ensures anfds == old(anfds)[fd := old(anfds)[fd].(emask := emask, egen := egen)]
    {
      SameLists(anfds, fd, anfds[fd].(emask := emask, egen := egen), watchers);
      anfds := anfds[fd := anfds[fd].(emask := emask, egen := egen)];
    }

    /** The second call of `epoll_ctl`, when the first did not meet what it expected. */
    method Retry(op: CtlOp, fd: nat, nev: bv8, gen: Gen, ghost n: nat) returns (outcome: Outcome)
      requires fd < |anfds| && OthersAgree(anfds, kernel.View(), fd, true)
      requires n <= |kernel.log| && WasAsked(kernel.log, n, fd, nev)
      requires op == (if fd in kernel.regs then MOD else ADD)
      modifies kernel
      ensures OthersAgree(anfds, kernel.View(), fd, true) && OthersFramed(old(kernel.View()), kernel.View(), fd)
      ensures outcome == Done || outcome == Failed
      ensures outcome == Done ==> fd in kernel.regs && kernel.regs[fd] == Reg(nev, gen)
      ensures outcome == Failed ==> GivenUp(fd, kernel.View())
      ensures Noted(old(kernel.log), old(kernel.View()), kernel.log, kernel.View(), fd)
      ensures Told(kernel.log, n, fd, nev, kernel.View())
    {
      hide OthersAgree, OthersFramed, Noted, Told, WasAsked;
      ghost var log := kernel.log;
      var err, gone := CtlFd(op, fd, nev, gen, true);
      outcome := if err == OK then Done else Failed;
      if err == ENOENT {
        ToldTwice(log, n, gone, op, fd, nev, err, kernel.View());
      } else {
        ToldOnce(log, n, gone, op, fd, nev, err, kernel.View());
      }
    }

    /** The `epoll_ctl` calls of `epoll_modify` and how it takes their errors. */
    method TryCtl(fd: nat, oev: bv8, nev: bv8, oldmask: bv8, gen: Gen) returns (outcome: Outcome)
      requires fd < |anfds| && OthersAgree(anfds, kernel.View(), fd, true)
      requires fd in kernel.regs ==> kernel.regs[fd] == Reg(oldmask, Previous(gen))
      modifies kernel
      ensures OthersAgree(anfds, kernel.View(), fd, true) && OthersFramed(old(kernel.View()), kernel.View(), fd)
      ensures outcome == Done ==> fd in kernel.regs && kernel.regs[fd] == Reg(nev, gen)
      ensures outcome == AsBefore ==> oldmask == nev && fd in kernel.regs && kernel.regs[fd] == Reg(nev, Previous(gen))
      ensures outcome == Refused ==> fd in kernel.refused && fd !in kernel.regs
      ensures outcome == Failed ==> GivenUp(fd, kernel.View())
      ensures Noted(old(kernel.log), old(kernel.View()), kernel.log, kernel.View(), fd)
      ensures Told(kernel.log, |old(kernel.log)|, fd, nev, kernel.View())
    {
      hide OthersAgree, OthersFramed, Noted, Told, WasAsked;
      ghost var k, log := kernel.View(), kernel.log;
      var op := if oev != 0 && oldmask != nev then MOD else ADD;
      var err, gone := CtlFd(op, fd, nev, gen, true);
      ghost var k', log' := kernel.View(), kernel.log;
      CallAsks(log, gone, op, fd, nev, err);
      if err == ENOENT {
        outcome := Retry(ADD, fd, nev, gen, |log|);
        FramedTwice(k, k', kernel.View(), fd);
        NotedTwice(log, k, log', k', kernel.log, kernel.View(), fd);
        return;
      }
      if err == EEXIST && oldmask != nev {
        outcome := Retry(MOD, fd, nev, gen, |log|);
        FramedTwice(k, k', kernel.View(), fd);
        NotedTwice(log, k, log', k', kernel.log, kernel.View(), fd);
        return;
      }
      ToldOnce(log, |log|, gone, op, fd, nev, err, k');
      if err == EEXIST {
        outcome := AsBefore;
      } else if err == EPERM {
        outcome := Refused;
      } else {
        outcome := if err == OK then Done else Failed;
      }
    }

    /** The kernel was asked about `fd` only, and if `told`, and there is an interest, it was. */
    ghost predicate Logged(fd: nat, want: bv8, told: bool, k: Answers, log: seq<KernelStep>)
      reads kernel
    {
      && Noted(log, k, kernel.log, kernel.View(), fd)
      && (want == 0 ==> kernel.log == log)
      && (want != 0 && told ==> Told(kernel.log, |log|, fd, want, kernel.View()))
    }

    lemma MasksNeedWatchers(fd: nat)
      requires Fresh(fd)
      ensures anfds[fd].events != 0 ==> anfds[fd].head != []
    {}

    /** The end of `epoll_modify`: the fd is killed, and the generation taken back. */
    method GiveUp(fd: nat, egen: Gen, ghost i: nat)
      requires fd < |anfds| && ListsOk(i) && anfds[fd].head != [] && !anfds[fd].reify.Any()
      requires OthersAgree(anfds, kernel.View(), fd, true) && fd !in kernel.regs
      requires anfds[fd].emask == anfds[fd].events && !Eperm(anfds[fd].emask)
      modifies this`anfds, this`fdchanges, this`fed, watchers`active
      ensures ListsOk(i) && KernelAgrees(anfds, kernel.View(), true)
      ensures |anfds| == |old(anfds)| && forall g :: 0 <= g < |anfds| && g != fd ==> anfds[g] == old(anfds)[g]
      ensures anfds[fd].head == [] && anfds[fd].reify == EV_ANFD_REIFY && anfds[fd].events == old(anfds)[fd].events
      ensures anfds[fd].emask == old(anfds)[fd].emask
      ensures fdchanges == old(fdchanges) + [fd] && fed == old(fed) + KillFeeds(old(anfds)[fd].head)
    {
      Kill(fd, i);
      SetEpoll(fd, anfds[fd].emask, egen, i, true);
    }

    /** The fd is marked as refused, and listed if it was not marked before. */
    method Mark(fd: nat, oldmask: bv8, gen: Gen, ghost i: nat)
      requires fd < |anfds| && ListsOk(i) && OthersAgree(anfds, kernel.View(), fd, true) && fd in kernel.refused
      requires fd !in kernel.regs && InRange(eperms, |anfds|)
      modifies this`anfds, this`eperms
      ensures ListsOk(i) && KernelAgrees(anfds, kernel.View(), true) && InRange(eperms, |anfds|)
      ensures anfds == old(anfds)[fd := old(anfds)[fd].(emask := EV_EMASK_EPERM, egen := gen)]
      ensures eperms == old(eperms) + if Eperm(oldmask) then [] else [fd]
    {
      OnlyEperm(0);
      SetEpoll(fd, EV_EMASK_EPERM, gen, i, true);
      if oldmask & EV_EMASK_EPERM == 0 {
        eperms := eperms + [fd];
      } else {
        assert eperms == old(eperms) + [];
      }
    }

    /** `epoll_modify`: the kernel ends with exactly the new mask at the current generation; or it
        refused the fd, which is marked; or it refused or had dropped it, and the fd is killed. */
    method EpollModify(fd: nat, oev: bv8, nev: bv8, ghost i: nat) returns (ghost killed: bool)
      requires Fresh(fd) && anfds[fd].events == nev && IsMask(nev) && ListsOk(i) && InRange(eperms, |anfds|)
      requires OthersAgree(anfds, kernel.View(), fd, true) && RegOk(anfds[fd], fd, kernel.View())
      modifies this`anfds, this`fdchanges, this`fed, this`eperms, kernel, watchers`active
      ensures ListsOk(i) && KernelAgrees(anfds, kernel.View(), true) && InRange(eperms, |anfds|)
      ensures |anfds| == |old(anfds)| && forall g :: 0 <= g < |anfds| && g != fd ==> anfds[g] == old(anfds)[g]
      ensures OthersFramed(old(kernel.View()), kernel.View(), fd)
      ensures nev == 0 ==> !killed && kernel.View() == old(kernel.View()) && anfds == old(anfds)
      ensures Logged(fd, nev, true, old(kernel.View()), old(kernel.log))
      ensures !killed ==>
        && anfds[fd] == old(anfds)[fd].(emask := anfds[fd].emask, egen := anfds[fd].egen)
        && fdchanges == old(fdchanges) && fed == old(fed)
        && (nev != 0 && !Eperm(anfds[fd].emask) ==>
              fd in kernel.regs && kernel.regs[fd] == Reg(nev, anfds[fd].egen))
        && (nev != 0 && Eperm(anfds[fd].emask) ==> fd in kernel.refused && fd !in kernel.regs)
      ensures killed ==>
        && GivenUp(fd, kernel.View()) && !Eperm(anfds[fd].emask)
        && nev != 0 && anfds[fd].head == [] && anfds[fd].reify == EV_ANFD_REIFY
        && fdchanges == old(fdchanges) + [fd] && fed == old(fed) + KillFeeds(old(anfds)[fd].head)
      ensures eperms == old(eperms) + NewlyMarked(fd, old(anfds), anfds)
    {
      hide OthersFramed, Noted, Told, HeadsOk, WorkOk, Listed, ActiveOk, Eperm;
      killed := false;
      if nev == 0 {
        FramedSame(kernel.View(), fd);
        NothingNoted(kernel.log, kernel.View(), fd);
        assert eperms == old(eperms) + [];
        return;
      }
      OnlyEperm(nev);
      var oldmask := anfds[fd].emask;
      var gen := Next(anfds[fd].egen);
      SetEpoll(fd, nev, gen, i, true);
      var outcome := TryCtl(fd, oev, nev, oldmask, gen);
      match outcome
      case Done =>
      case AsBefore => SetEpoll(fd, nev, Previous(gen), i, true);
      case Refused => Mark(fd, oldmask, gen, i);
      case Failed =>
        killed := true;
        MasksNeedWatchers(fd);
        GiveUp(fd, Previous(gen), i);
    }

    lemma AllDone(i: nat)
      requires ListsOk(i) && i == |fdchanges| && Synced(anfds) && BackendOk(true)
      ensures WorkOk(anfds, []) && BackendOk(false)
      ensures forall fd :: 0 <= fd < |anfds| ==> !anfds[fd].reify.Any()
    {
      assert fdchanges[i..] == [];
    }

    // ---------- fd_reify ----------

    /** Every backend agrees with `anfds` but for `fd`, for which it was last told `oev`. */
    ghost predicate BackendOkBut(fd: nat, oev: bv8)
      requires fd < |anfds|
      reads this`anfds, poll, select, kernel
    {
      match backend
      case PollB =>
        && poll.Valid() && poll.MaskOf(fd) == oev
        && forall g: nat :: g != fd ==> poll.MaskOf(g) == EventsOf(anfds, g)
      case SelectB =>
        && select.Valid() && select.MaskOf(fd) == oev
        && forall g: nat :: g != fd ==> select.MaskOf(g) == EventsOf(anfds, g)
      case EpollB => OthersAgree(anfds, kernel.View(), fd, true) && RegOk(anfds[fd], fd, kernel.View())
    }

    /** `backend_modify`, by backend; only epoll's kills. */
    method BackendModify(fd: nat, oev: bv8, nev: bv8, ghost i: nat) returns (ghost killed: bool)
      requires Fresh(fd) && anfds[fd].events == nev && IsMask(nev) && ListsOk(i) && BackendOkBut(fd, oev)
      requires InRange(eperms, |anfds|)
      modifies this`anfds, this`fdchanges, this`fed, this`eperms, poll, select, kernel, watchers`active
      ensures ListsOk(i) && BackendOk(true) && InRange(eperms, |anfds|)
      ensures |anfds| == |old(anfds)| && forall g :: 0 <= g < |anfds| && g != fd ==> anfds[g] == old(anfds)[g]
      ensures OthersFramed(old(kernel.View()), kernel.View(), fd)
      ensures nev == 0 ==> !killed && kernel.View() == old(kernel.View()) && anfds == old(anfds)
      ensures Logged(fd, nev, backend == EpollB, old(kernel.View()), old(kernel.log))
      ensures !killed ==>
        && anfds[fd] == old(anfds)[fd].(emask := anfds[fd].emask, egen := anfds[fd].egen)
        && fdchanges == old(fdchanges) && fed == old(fed)
      ensures killed ==>
        && backend == EpollB && GivenUp(fd, kernel.View())
        && nev != 0 && anfds[fd].head == [] && anfds[fd].reify == EV_ANFD_REIFY
        && fdchanges == old(fdchanges) + [fd] && fed == old(fed) + KillFeeds(old(anfds)[fd].head)
      ensures eperms == old(eperms) + NewlyMarked(fd, old(anfds), anfds)
    {
      hide Noted, Told;
      killed := false;
      NothingNoted(kernel.log, kernel.View(), fd);
      match backend {
        case PollB => poll.Modify(fd, oev, nev);
        case SelectB => select.Modify(fd, oev, nev);
        case EpollB => killed := EpollModify(fd, oev, nev, i);
      }
      assert backend != EpollB ==> eperms == old(eperms) + [];
    }

    /** The fd is in sync and of interest. */
    ghost predicate Wanted(fd: nat)
      reads this`anfds
    {
      fd < |anfds| && anfds[fd].events != 0 && !anfds[fd].reify.Any()
    }

    /** Takes the new interest of `fd` from its watchers: the first half of a round. */
    method Refresh(fd: nat, i: nat) returns (oev: bv8, oreify: Flags)
      requires ListsOk(i) && i < |fdchanges| && fd == fdchanges[i] && Synced(anfds) && BackendOk(true)
      modifies this`anfds
      ensures ListsOk(i + 1) && Fresh(fd) && IsMask(anfds[fd].events) && Synced(anfds) && BackendOkBut(fd, oev)
      ensures fd < |old(anfds)| && oev == old(anfds)[fd].events && oreify == old(anfds)[fd].reify && oreify.Any()
      ensures anfds == old(anfds)[fd := old(anfds)[fd].(reify := NO_FLAGS, events := OrMasks(old(anfds)[fd].head))]
      ensures oev == anfds[fd].events && backend == EpollB && oev != 0 ==>
        InterestOk(anfds[fd], fd, kernel.View(), true)
    {
      assert fdchanges[i..][0] == fd && fd in fdchanges[i..];
      var x := anfds[fd];
      oev, oreify := x.events, x.reify;
      var events := CollectMasks(x.head);
      OrMasksIsMask(x.head);
      WorkDone(anfds, fdchanges[i..], x.(reify := NO_FLAGS, events := events));
      SameLists(anfds, fd, x.(reify := NO_FLAGS, events := events), watchers);
      anfds := anfds[fd := x.(reify := NO_FLAGS, events := events)];
      assert fdchanges[i..][1..] == fdchanges[i + 1..];
    }

    /** The second half of a round: the backend is told if anything changed. */
    method Submit(fd: nat, oev: bv8, oreify: Flags, ghost i: nat) returns (ghost killed: bool)
      requires ListsOk(i) && Fresh(fd) && IsMask(anfds[fd].events) && Synced(anfds) && BackendOkBut(fd, oev)
      requires InRange(eperms, |anfds|)
      requires oev == anfds[fd].events && backend == EpollB && oev != 0 ==>
        InterestOk(anfds[fd], fd, kernel.View(), true)
      modifies this`anfds, this`fdchanges, this`fed, this`eperms, poll, select, kernel, watchers`active
      ensures ListsOk(i) && Synced(anfds) && BackendOk(true) && InRange(eperms, |anfds|)
      ensures Total(anfds) < Total(old(anfds)) || (Total(anfds) == Total(old(anfds)) && fdchanges == old(fdchanges))
      ensures |anfds| == |old(anfds)| && forall g :: 0 <= g < |anfds| && g != fd ==> anfds[g] == old(anfds)[g]
      ensures OthersFramed(old(kernel.View()), kernel.View(), fd)
      ensures OrMasks(old(anfds)[fd].head) == 0 ==>
        !killed && kernel.View() == old(kernel.View()) && anfds == old(anfds)
      ensures Logged(fd, OrMasks(old(anfds)[fd].head), backend == EpollB && oreify.fdset,
                     old(kernel.View()), old(kernel.log))
      ensures killed ==> backend == EpollB && GivenUp(fd, kernel.View()) && old(anfds)[fd].head != []
      ensures anfds[fd].head == if killed then [] else old(anfds)[fd].head
      ensures !killed ==> !anfds[fd].reify.Any()
      ensures fed == old(fed) + if killed then KillFeeds(old(anfds)[fd].head) else []
      ensures fd in kernel.regs ==> fd in old(kernel.regs) || Wanted(fd)
      ensures eperms == old(eperms) + NewlyMarked(fd, old(anfds), anfds)
    {
      hide HeadsOk, WorkOk, Listed, OthersFramed, Eperm, Noted, Told;
      killed := false;
      if oev != anfds[fd].events || oreify.fdset {
        ghost var a := anfds;
        MasksNeedWatchers(fd);
        killed := BackendModify(fd, oev, anfds[fd].events, i);
        assert anfds == a[fd := anfds[fd]];
        TotalUpdate(a, fd, anfds[fd]);
      } else {
        FramedSame(kernel.View(), fd);
        NothingNoted(kernel.log, kernel.View(), fd);
        assert eperms == old(eperms) + [];
      }
      assert !killed ==> fed == old(fed) + [];
    }

    /** What a round for `fd` has done since the fds were `a`, the kernel's answers `k`, the feeds
        `fed0` and the list of refused fds `list0`. */
    ghost predicate Reified(fd: nat, killed: seq<nat>, a: seq<Anfd>, k: Answers, fed0: seq<Feed>, list0: seq<nat>)
      reads this`anfds, this`fed, this`eperms, kernel
    {
      && fd < |a| == |anfds| && (forall g :: 0 <= g < |a| && g != fd ==> anfds[g] == a[g])
      && a[fd].reify.Any() && (killed == [] || (killed == [fd] && a[fd].head != []))
      && OthersFramed(k, kernel.View(), fd)
      && (OrMasks(a[fd].head) == 0 ==> kernel.View() == k && anfds[fd].emask == a[fd].emask)
      && (killed != [] ==> backend == EpollB && GivenUp(fd, kernel.View()))
      && anfds[fd].head == (if killed == [] then a[fd].head else [])
      && (killed == [] ==> !anfds[fd].reify.Any())
      && fed == fed0 + (if killed == [] then [] else KillFeeds(a[fd].head))
      && (fd in kernel.regs ==> fd in k.regs || Wanted(fd))
      && eperms == list0 + NewlyMarked(fd, a, anfds)
    }

    /** One round of `fd_reify`; `killed` is its fd if the round killed it. */
    method ReifyOne(i: nat) returns (ghost killed: seq<nat>)
      requires ListsOk(i) && i < |fdchanges| && Synced(anfds) && BackendOk(true) && InRange(eperms, |anfds|)
      modifies this`anfds, this`fdchanges, this`fed, this`eperms, poll, select, kernel, watchers`active
      ensures ListsOk(i + 1) && Synced(anfds) && BackendOk(true) && InRange(eperms, |anfds|)
      ensures Total(anfds) < Total(old(anfds)) || (Total(anfds) == Total(old(anfds)) && fdchanges == old(fdchanges))
      ensures i < |fdchanges|
      ensures Reified(old(fdchanges)[i], killed, old(anfds), old(kernel.View()), old(fed), old(eperms))
      ensures var fd := old(fdchanges)[i]; var x := old(anfds)[fd];
        Logged(fd, OrMasks(x.head), backend == EpollB && x.reify.fdset, old(kernel.View()), old(kernel.log))
    {
      hide Logged, OthersFramed, GivenUp, Eperm, HeadsOk, WorkOk, Listed;
      hide BackendOk, BackendOkBut, InterestOk, ActiveOk;
      var fd := fdchanges[i];
      var oev, oreify := Refresh(fd, i);
      TotalUpdate(old(anfds), fd, anfds[fd]);
      ghost var k := Submit(fd, oev, oreify, i + 1);
      killed := if k then [fd] else [];
    }

    // ---------- what fd_reify has done so far ----------

    /** Exactly the fds in `killed` have lost their watchers, which were fed an error; the kernel
        refused each or had dropped it; and it was asked about no fd without interest. */
    ghost predicate KilledSince(a: seq<Anfd>, k: Answers, fed0: seq<Feed>, killed: seq<nat>)
      reads this`anfds, this`fed, kernel
    {
      && OnlyKilled(a, anfds, killed) && (killed != [] ==> backend == EpollB)
      && AllGivenUp(killed, kernel.View())
      && fed == fed0 + AllKillFeeds(a, killed)
      && AskedFor(k, kernel.View(), a)
      && (forall fd <- kernel.regs :: fd in k.regs || Wanted(fd))
    }

    /** Fds that were not marked may have been appended to the list of refused ones. */
    ghost predicate MarkedSince(a: seq<Anfd>, list0: seq<nat>)
      reads this`anfds, this`eperms
    {
      && |a| == |anfds| && list0 <= eperms
      && (forall j :: |list0| <= j < |eperms| ==> eperms[j] < |a| && !Eperm(a[eperms[j]].emask))
      && (forall fd :: 0 <= fd < |a| && Eperm(a[fd].emask) ==>
            Eperm(anfds[fd].emask) || !anfds[fd].reify.Any() || anfds[fd].head == [])
      && (forall fd :: 0 <= fd < |a| && OrMasks(a[fd].head) == 0 ==>
            OrMasks(anfds[fd].head) == 0 && anfds[fd].emask == a[fd].emask)
      && (MarkedListed(a, list0) ==> MarkedListed(anfds, eperms))
    }

    /** Of the fds that had EV__IOFDSET set and were of interest in `a`, the kernel has been told
        since step `n`, whatever their interest was before, but for those yet to be looked at. */
    ghost predicate ToldSince(a: seq<Anfd>, n: nat)
      reads this`anfds, kernel
    {
      && |a| == |anfds| && n <= |kernel.log|
      && (forall fd :: 0 <= fd < |a| && a[fd].reify.fdset && OrMasks(a[fd].head) != 0 ==>
            || anfds[fd] == a[fd]
            || ((anfds[fd].head == [] || !anfds[fd].reify.Any())
                && Told(kernel.log, n, fd, OrMasks(a[fd].head), kernel.View())))
    }

    /** A round keeps the first of these. */
    lemma KilledRound(fd: nat, killed1: seq<nat>, b: seq<Anfd>, k1: Answers, fed1: seq<Feed>, list1: seq<nat>,
                      a: seq<Anfd>, k: Answers, fed0: seq<Feed>, killed: seq<nat>)
      requires Reified(fd, killed1, b, k1, fed1, list1)
      requires OnlyKilled(a, b, killed) && (killed != [] ==> backend == EpollB)
      requires AllGivenUp(killed, k1)
      requires fed1 == fed0 + AllKillFeeds(a, killed) && AskedFor(k, k1, a)
      requires forall g <- k1.regs :: g in k.regs || (g < |b| && b[g].events != 0 && !b[g].reify.Any())
      ensures KilledSince(a, k, fed0, killed + killed1)
    {
      hide OnlyKilled, OrMasks, OthersFramed, GivenUp, AllGivenUp, AskedFor, NewlyMarked, Eperm;
      hide AllKillFeeds, KillFeeds;
      KilledHeads(a, b, killed);
      KilledStep(a, b, anfds, killed, fd, killed1);
      KillFeedsStep(a, killed, fd, killed1, fed0);
      GivenUpStay(fd, killed1, b, k1, killed, kernel.View());
      AskedStep(k, k1, kernel.View(), a, b, fd);
      OldRegs(k1, kernel.View(), fd);
    }

    lemma MarkedRound(fd: nat, killed1: seq<nat>, b: seq<Anfd>, k1: Answers, fed1: seq<Feed>, list1: seq<nat>,
                      a: seq<Anfd>, list0: seq<nat>)
      requires Reified(fd, killed1, b, k1, fed1, list1)
      requires |a| == |b| && list0 <= list1
      requires forall j :: |list0| <= j < |list1| ==> list1[j] < |a| && !Eperm(a[list1[j]].emask)
      requires forall g :: 0 <= g < |a| && Eperm(a[g].emask) ==>
        Eperm(b[g].emask) || !b[g].reify.Any() || b[g].head == []
      requires forall g :: 0 <= g < |a| && OrMasks(a[g].head) == 0 ==>
        OrMasks(b[g].head) == 0 && b[g].emask == a[g].emask
      requires MarkedListed(a, list0) ==> MarkedListed(b, list1)
      ensures MarkedSince(a, list0)
    {
      hide Eperm;
      if MarkedListed(a, list0) {
        forall g | 0 <= g < |anfds| && Eperm(anfds[g].emask) ensures g in eperms {
          if g == fd && !Eperm(b[fd].emask) {
            assert eperms[|list1|] == fd;
          }
        }
      }
    }

    lemma ToldRound(fd: nat, killed1: seq<nat>, b: seq<Anfd>, k1: Answers, fed1: seq<Feed>, list1: seq<nat>,
                    log1: seq<KernelStep>, a: seq<Anfd>, n: nat)
      requires Reified(fd, killed1, b, k1, fed1, list1) && backend == EpollB
      requires Logged(fd, OrMasks(b[fd].head), b[fd].reify.fdset, k1, log1)
      requires |a| == |b| && n <= |log1|
      requires forall g :: 0 <= g < |a| && a[g].reify.fdset && OrMasks(a[g].head) != 0 ==>
        || b[g] == a[g]
        || ((b[g].head == [] || !b[g].reify.Any()) && Told(log1, n, g, OrMasks(a[g].head), k1))
      ensures ToldSince(a, n)
    {
      hide Told, Noted, OthersFramed, GivenUp, NewlyMarked, Eperm;
      assert log1 <= kernel.log by {
        NotedGrows(log1, k1, kernel.log, kernel.View(), fd);
      }
      forall g | 0 <= g < |a| && a[g].reify.fdset && OrMasks(a[g].head) != 0 && anfds[g] != a[g]
        ensures anfds[g].head == [] || !anfds[g].reify.Any()
        ensures Told(kernel.log, n, g, OrMasks(a[g].head), kernel.View())
      {
        if g != fd {
          StaysTold(log1, n, g, OrMasks(a[g].head), k1, kernel.log, kernel.View(), fd);
        } else if b[fd] == a[fd] {
          ToldSinceThen(kernel.log, |log1|, n, fd, OrMasks(a[fd].head), kernel.View());
        } else {
          assert b[fd].head == [] && kernel.log == log1;
        }
      }
    }

    /** One round, and what has been done since the start. */
    method ReifyNext(i: nat, ghost a: seq<Anfd>, ghost k: Answers, ghost fed0: seq<Feed>, ghost list0: seq<nat>,
                     ghost n: nat, ghost killed: seq<nat>) returns (ghost killed': seq<nat>)
      requires ListsOk(i) && i < |fdchanges| && Synced(anfds) && BackendOk(true) && InRange(eperms, |anfds|)
      requires KilledSince(a, k, fed0, killed) && MarkedSince(a, list0) && (backend == EpollB ==> ToldSince(a, n))
      modifies this`anfds, this`fdchanges, this`fed, this`eperms, poll, select, kernel, watchers`active
      ensures ListsOk(i + 1) && Synced(anfds) && BackendOk(true) && InRange(eperms, |anfds|)
      ensures Total(anfds) < Total(old(anfds)) || (Total(anfds) == Total(old(anfds)) && fdchanges == old(fdchanges))
      ensures i < |fdchanges| && KilledSince(a, k, fed0, killed') && MarkedSince(a, list0)
      ensures backend == EpollB ==> ToldSince(a, n)
    {
      hide ListsOk, Synced, BackendOk, Reified, Logged, Told;
      ghost var fd, b, k1, fed1, list1, log1 := fdchanges[i], anfds, kernel.View(), fed, eperms, kernel.log;
      ghost var more := ReifyOne(i);
      KilledRound(fd, more, b, k1, fed1, list1, a, k, fed0, killed);
      MarkedRound(fd, more, b, k1, fed1, list1, a, list0);
      if backend == EpollB {
        ToldRound(fd, more, b, k1, fed1, list1, log1, a, n);
      }
      killed' := killed + more;
    }

    lemma NothingSince()
      ensures KilledSince(anfds, kernel.View(), fed, []) && MarkedSince(anfds, eperms)
      ensures ToldSince(anfds, |kernel.log|)
    {
      NoneKilled(anfds);
      assert fed == fed + [];
    }

    lemma Weaken()
      requires BackendOk(false)
      ensures BackendOk(true)
    {}

    lemma AllTold(a: seq<Anfd>, n: nat)
      requires ToldSince(a, n) && forall fd :: 0 <= fd < |anfds| ==> !anfds[fd].reify.Any()
      ensures forall fd :: 0 <= fd < |a| && a[fd].reify.fdset && OrMasks(a[fd].head) != 0 ==>
        Told(kernel.log, n, fd, OrMasks(a[fd].head), kernel.View())
    {}

    method Finish(i: nat, ghost a: seq<Anfd>, ghost k: Answers, ghost fed0: seq<Feed>, ghost list0: seq<nat>,
                  ghost killed: seq<nat>)
      requires ListsOk(i) && i == |fdchanges| && Synced(anfds) && BackendOk(false) && InRange(eperms, |anfds|)
      requires WorkOk(anfds, []) && forall fd :: 0 <= fd < |anfds| ==> !anfds[fd].reify.Any()
      requires KilledSince(a, k, fed0, killed) && MarkedSince(a, list0)
      modifies this`fdchanges
      ensures Valid() && fdchanges == [] && anfds == old(anfds)
      ensures forall fd :: 0 <= fd < |anfds| ==> anfds[fd].events == OrMasks(anfds[fd].head)
      ensures KilledSince(a, k, fed0, killed) && MarkedSince(a, list0)
    {
      hide KilledSince, MarkedSince, BackendOk;
      fdchanges := [];
    }

    /** `fd_reify`: the work list may grow while it is worked off, because the backend may kill
        an fd; it ends empty, with every fd in sync and the backend told of every interest. No
        watcher is lost but those of the fds it kills, each of which is fed an error. */
    method FdReify() returns (ghost killed: seq<nat>)
      requires Valid()
      modifies this`anfds, this`fdchanges, this`fed, this`eperms, poll, select, kernel, watchers`active
      ensures Valid() && fdchanges == []
      ensures forall fd :: 0 <= fd < |anfds| ==> !anfds[fd].reify.Any() && anfds[fd].events == OrMasks(anfds[fd].head)
      ensures KilledSince(old(anfds), old(kernel.View()), old(fed), killed)
      ensures MarkedSince(old(anfds), old(eperms))
      ensures backend == EpollB ==> forall fd :: 0 <= fd < |old(anfds)| ==>
        var x := old(anfds)[fd];
        x.reify.fdset && OrMasks(x.head) != 0 ==>
          Told(kernel.log, |old(kernel.log)|, fd, OrMasks(x.head), kernel.View())
    {
      hide ListsOk, Synced, BackendOk, KilledSince, MarkedSince, ToldSince;
      ghost var a, k, fed0, list0, n := anfds, kernel.View(), fed, eperms, |kernel.log|;
      NothingSince();
      Weaken();
      killed := [];
      var i := 0;
      while i < |fdchanges|
        invariant i <= |fdchanges|
        invariant ListsOk(i) && Synced(anfds) && BackendOk(true) && InRange(eperms, |anfds|)
        invariant KilledSince(a, k, fed0, killed) && MarkedSince(a, list0) && (backend == EpollB ==> ToldSince(a, n))
        decreases Total(anfds), |fdchanges| - i
      {
        killed := ReifyNext(i, a, k, fed0, list0, n, killed);
        i := i + 1;
      }
      AllDone(i);
      if backend == EpollB {
        AllTold(a, n);
      }
      Finish(i, a, k, fed0, list0, killed);
    }

    /** After `fd_reify` the backend waits for exactly the events the watchers want.  For epoll an
        fd of interest may only be missing if the kernel dropped it, or refused it and it is marked. */
    lemma BackendTellsInterest(fd: nat)
      requires Valid() && fd < |anfds| && !anfds[fd].reify.Any()
      ensures var want := OrMasks(anfds[fd].head);
        match backend
        case PollB => poll.MaskOf(fd) == want
        case SelectB => select.MaskOf(fd) == want
        case EpollB => want != 0 ==>
          if fd in kernel.regs then kernel.regs[fd] == Reg(want, anfds[fd].egen)
          else fd in kernel.dropped || (fd in kernel.refused && Eperm(anfds[fd].emask))
    {
      if backend == EpollB {
        assert RegOk(anfds[fd], fd, kernel.View());
        OnlyEperm(anfds[fd].emask);
      }
    }

    // ---------- ev_io_start, ev_io_stop ----------

    /** `array_needsize` of `anfds`, zero-initialised. */
    method NeedAnfds(fd: nat)
      requires Valid()
      modifies this`anfds
      ensures Valid() && fd < |anfds| && |old(anfds)| <= |anfds| && anfds[..|old(anfds)|] == old(anfds)
      ensures forall g :: |old(anfds)| <= g < |anfds| ==> anfds[g] == ZERO_ANFD
    {
      if fd >= |anfds| {
        ghost var a := anfds;
        anfds := anfds + seq(fd + 1 - |anfds|, _ => ZERO_ANFD);
        assert forall w <- watchers :: Listed(anfds, w) <==> Listed(a, w);
        assert WorkOk(anfds, fdchanges[0..]);
        assert forall g: nat :: EventsOf(anfds, g) == EventsOf(a, g);
      }
    }

    method LinkIn(w: IoWatcher)
      requires ListsOk(0) && w in watchers && w.active == 0 && w.fd < |anfds|
      modifies this`anfds, w`active
      ensures ListsOk(0) && w.active == 1
      ensures var x := old(anfds)[w.fd]; anfds == old(anfds)[w.fd := x.(head := [w] + x.head)]
    {
      assert !Listed(anfds, w);
      ListGrows(anfds, w, watchers);
      w.active := 1;
      anfds := anfds[w.fd := anfds[w.fd].(head := [w] + anfds[w.fd].head)];
      assert WorkOk(anfds, fdchanges[0..]);
    }

    /** `wlist_add` */
    method Enlist(w: IoWatcher)
      requires Valid() && w in watchers && w.active == 0 && w.fd < |anfds|
      modifies this`anfds, this`fdchanges, w`active
      ensures Valid() && w.active == 1
      ensures var x := old(anfds)[w.fd];
        && anfds == old(anfds)[w.fd := Changed(x.(head := [w] + x.head), Flags(true, w.fdset))]
        && fdchanges == ChangedWork(x, w.fd, old(fdchanges))
    {
      hide HeadsOk, Listed, WorkOk;
      ghost var a := anfds;
      LinkIn(w);
      FdChange(w.fd, Flags(true, w.fdset), 0);
      assert forall fd: nat :: EventsOf(anfds, fd) == EventsOf(a, fd);
    }

    /** `ev_io_start` */
    method IoStart(w: IoWatcher)
      requires Valid() && w in watchers
      modifies this`anfds, this`fdchanges, w`active, w`fdset
      ensures Valid() && w.active != 0 && Listed(anfds, w)
      ensures old(w.active) != 0 ==> anfds == old(anfds) && fdchanges == old(fdchanges)
      ensures old(w.active) == 0 ==> !w.fdset && anfds[w.fd].reify.Any() && w.fd in fdchanges
      ensures forall fd :: 0 <= fd < |anfds| ==>
        var before := if fd < |old(anfds)| then old(anfds)[fd].head else [];
        anfds[fd].head == if fd == w.fd && old(w.active) == 0 then [w] + before else before
      ensures |old(anfds)| <= |anfds| && forall fd :: 0 <= fd < |anfds| ==>
        anfds[fd].emask == if fd < |old(anfds)| then old(anfds)[fd].emask else 0
      ensures forall fd :: 0 <= fd < |anfds| ==>
        var before := if fd < |old(anfds)| then old(anfds)[fd].reify else NO_FLAGS;
        anfds[fd].reify == if fd == w.fd && old(w.active) == 0 then before.Or(Flags(true, old(w.fdset))) else before
    {
      hide HeadsOk;
      if w.active != 0 {
        return;
      }
      NeedAnfds(w.fd);
      Enlist(w);
      assert w in anfds[w.fd].head;
      assert fdchanges[0..] == fdchanges;
      w.fdset := false;
    }

    /** `ev_io_stop` (its clearing of a pending event belongs to the pending queues). */
    method IoStop(w: IoWatcher)
      requires Valid() && w in watchers
      modifies this`anfds, this`fdchanges, w`active
      ensures Valid() && w.active == 0 && !Listed(anfds, w)
      ensures old(w.active) == 0 ==> anfds == old(anfds) && fdchanges == old(fdchanges)
      ensures |anfds| == |old(anfds)| && forall fd :: 0 <= fd < |anfds| ==>
        anfds[fd].head ==
          if fd == w.fd && old(w.active) != 0 then Without(old(anfds)[fd].head, w) else old(anfds)[fd].head
      ensures forall fd :: 0 <= fd < |anfds| ==> anfds[fd].emask == old(anfds)[fd].emask
    {
      if w.active == 0 {
        return;
      }
      Unlist(w, 0);
    }

    // ---------- fork, and the rebuilding of the kernel state ----------

    method Rearm(fd: nat)
      requires ListsOk(0) && Synced(anfds) && fd < |anfds|
      modifies this`anfds, this`fdchanges
      ensures ListsOk(0) && Synced(anfds)
      ensures anfds == old(anfds)[fd := Changed(old(anfds)[fd].(events := 0, emask := 0), Flags(true, true))]
    {
      FdChange(fd, Flags(true, true), 0);
      var x := anfds[fd].(events := 0, emask := 0);
      SameLists(anfds, fd, x, watchers);
      anfds := anfds[fd := x];
      assert WorkOk(anfds, fdchanges[0..]);
    }

    /** `fd_rearm_all` */
    method RearmAll()
      requires backend == EpollB && ListsOk(0) && Synced(anfds)
      modifies this`anfds, this`fdchanges
      ensures ListsOk(0) && Synced(anfds) && |anfds| == |old(anfds)|
      ensures forall fd :: 0 <= fd < |anfds| ==> anfds[fd].head == old(anfds)[fd].head && anfds[fd].events == 0
      ensures forall fd :: 0 <= fd < |anfds| && old(anfds)[fd].events != 0 ==>
        anfds[fd].emask == 0 && anfds[fd].reify == Flags(true, true)
    {
      for fd := 0 to |anfds|
        invariant ListsOk(0) && Synced(anfds) && |anfds| == |old(anfds)|
        invariant forall g :: 0 <= g < |anfds| ==> anfds[g].head == old(anfds)[g].head
        invariant forall g :: 0 <= g < fd ==> anfds[g].events == 0
        invariant forall g :: 0 <= g < fd && old(anfds)[g].events != 0 ==>
          anfds[g].emask == 0 && anfds[g].reify == Flags(true, true)
        invariant forall g :: fd <= g < |anfds| ==> anfds[g] == old(anfds)[g]
      {
        if anfds[fd].events != 0 {
          Rearm(fd);
        }
      }
    }

    /** `epoll_fork` */
    method EpollFork()
      requires Valid() && backend == EpollB
      modifies this`anfds, this`fdchanges, kernel
      ensures Valid() && kernel.View() == Answers(map[], {}, {})
      ensures SameHeads(old(anfds), anfds) && forall fd :: 0 <= fd < |anfds| ==> anfds[fd].events == 0
    {
      kernel.Recreate();
      RearmAll();
    }

    lemma RebuiltInterest()
      requires Valid() && backend == EpollB && forall fd :: 0 <= fd < |anfds| ==> !anfds[fd].reify.Any()
      ensures forall fd <- kernel.regs ::
        && fd < |anfds|
        && (OrMasks(anfds[fd].head) != 0 ==> kernel.regs[fd] == Reg(OrMasks(anfds[fd].head), anfds[fd].egen))
      ensures forall fd :: 0 <= fd < |anfds| && OrMasks(anfds[fd].head) != 0 ==>
        fd in kernel.regs || fd in kernel.dropped || (fd in kernel.refused && Eperm(anfds[fd].emask))
    {
      hide OrMasks, Eperm;
      forall fd: nat | fd < |anfds| ensures
        var want := OrMasks(anfds[fd].head);
        && (fd in kernel.regs && want != 0 ==> kernel.regs[fd] == Reg(want, anfds[fd].egen))
        && (want != 0 ==> fd in kernel.regs || fd in kernel.dropped || (fd in kernel.refused && Eperm(anfds[fd].emask)))
      {
        BackendTellsInterest(fd);
      }
    }

    lemma RebuiltKills(a0: seq<Anfd>, a: seq<Anfd>, fed0: seq<Feed>, killed: seq<nat>)
      requires KilledSince(a, Answers(map[], {}, {}), fed0, killed) && SameHeads(a0, a)
      ensures OnlyKilled(a0, anfds, killed) && fed == fed0 + AllKillFeeds(a0, killed)
      ensures forall j :: 0 <= j < |killed| ==> GivenUp(killed[j], kernel.View())
      ensures forall fd :: fd in kernel.regs.Keys + kernel.dropped + kernel.refused ==>
        fd < |a0| && OrMasks(a0[fd].head) != 0
      ensures forall fd <- kernel.regs :: Wanted(fd)
    {
      hide OrMasks, GivenUp, AllKillFeeds;
      KilledHeads(a, anfds, killed);
      KillFeedsSame(a0, a, killed);
    }

    /** `epoll_fork` and the following `fd_reify`: the new epoll set holds every fd of interest
        with exactly the watchers' interest, and no other fd, except where the kernel dropped or
        refused one meanwhile; it answered for no fd that nobody wanted. The watchers are those of
        before, but for fds that the kernel refused or dropped, whose watchers were fed an error. */
    method RebuildAfterFork() returns (ghost killed: seq<nat>)
      requires Valid() && backend == EpollB
      modifies this`anfds, this`fdchanges, this`fed, this`eperms, poll, select, kernel, watchers`active
      ensures Valid() && fdchanges == []
      ensures forall fd <- kernel.regs ::
        && fd < |anfds| && OrMasks(anfds[fd].head) != 0
        && kernel.regs[fd] == Reg(OrMasks(anfds[fd].head), anfds[fd].egen)
      ensures forall fd :: 0 <= fd < |anfds| && OrMasks(anfds[fd].head) != 0 ==>
        fd in kernel.regs || fd in kernel.dropped || (fd in kernel.refused && Eperm(anfds[fd].emask))
      ensures forall fd :: fd in kernel.regs.Keys + kernel.dropped + kernel.refused ==>
        fd < |old(anfds)| && OrMasks(old(anfds)[fd].head) != 0
      ensures OnlyKilled(old(anfds), anfds, killed) && fed == old(fed) + AllKillFeeds(old(anfds), killed)
      ensures forall j :: 0 <= j < |killed| ==> GivenUp(killed[j], kernel.View())
    {
      hide Valid, KilledSince, MarkedSince, OnlyKilled, AllKillFeeds, GivenUp, Eperm, OrMasks;
      EpollFork();
      ghost var a, fed0 := anfds, fed;
      killed := FdReify();
      RebuiltKills(old(anfds), a, fed0, killed);
      RebuiltInterest();
    }

    // ---------- events from the kernel ----------

    method FeedIfWanted(w: IoWatcher, revents: bv8, ghost rest: seq<IoWatcher>)
      modifies this`fed
      ensures fed + EventFeeds(rest, revents) == old(fed) + (EventFeed(w, revents) + EventFeeds(rest, revents))
    {
      var ev := w.events & revents;
      if ev != 0 {
        fed := fed + [Feed(w, ev, false)];
      }
      assert fed == old(fed) + EventFeed(w, revents);
    }

    /** `fd_event`: no events are passed on while the interest is about to change. */
    method FdEvent(fd: nat, revents: bv8)
      requires fd < |anfds|
      modifies this`fed
      ensures fed == old(fed) + if anfds[fd].reify.Any() then [] else EventFeeds(anfds[fd].head, revents)
    {
      if !anfds[fd].reify.Any() {
        var head := anfds[fd].head;
        ghost var goal := fed + EventFeeds(head, revents);
        for i := 0 to |head|
          invariant fed + EventFeeds(head[i..], revents) == goal
        {
          assert head[i..][1..] == head[i + 1..];
          FeedIfWanted(head[i], revents, head[i + 1..]);
        }
      } else {
        assert fed == old(fed) + [];
      }
    }

    /** The MOD or DEL of `epoll_poll`. */
    method TrimInterest(fd: nat, want: bv8) returns (ok: bool)
      requires Valid() && backend == EpollB && fd < |anfds| && want == anfds[fd].events
      requires !Eperm(anfds[fd].emask)
      modifies this`anfds, kernel
      ensures Valid() && anfds == old(anfds)[fd := old(anfds)[fd].(emask := want)] && !Eperm(want)
      ensures ok && want != 0 ==> fd in kernel.regs && kernel.regs[fd] == Reg(want, anfds[fd].egen)
      ensures want == 0 || !ok ==> fd !in kernel.regs
      ensures kernel.regs.Keys <= old(kernel.regs).Keys
    {
      OnlyEperm(want);
      ghost var live := fd in kernel.regs || fd in kernel.dropped;
      SetEpoll(fd, want, anfds[fd].egen, 0, false);
      var err, _ := CtlFd(if want != 0 then MOD else DEL, fd, want, anfds[fd].egen, false);
      ok := err == OK;
      assert want != 0 ==> live;
    }

    /** One event of `epoll_poll`.  Events of an older generation reach nobody; an event nobody
        wants makes the kernel forget the surplus, or, if that fails, the loop rebuild everything. */
    method HandleEvent(ev: KernelEvent) returns (ghost failed: bool)
      requires Valid() && backend == EpollB && ev.fd < |anfds| && Reportable(anfds, ev)
      modifies this`anfds, this`postfork, this`fed, kernel
      ensures Valid() && OnlyMasks(old(anfds), anfds)
      ensures fed == old(fed) + if Stale(old(anfds), ev) || failed then [] else FeedsOf(old(anfds), ev)
      ensures postfork == (old(postfork) || Stale(old(anfds), ev) || failed)
      ensures failed ==> Surplus(old(anfds), ev) && ev.fd !in kernel.regs
      ensures kernel.regs.Keys <= old(kernel.regs).Keys
      ensures !Surplus(old(anfds), ev) ==> anfds == old(anfds) && kernel.View() == old(kernel.View())
      ensures ev.Got() & !old(anfds)[ev.fd].events == 0 ==> !failed && kernel.View() == old(kernel.View())
    {
      failed := false;
      var fd := ev.fd;
      var want := anfds[fd].events;
      if anfds[fd].egen != ev.gen {
        postfork := true;
        assert fed == old(fed) + [];
        return;
      }
      if ev.Got() & !want != 0 {
        var ok := TrimInterest(fd, want);
        if !ok {
          postfork := true;
          failed := true;
          assert fed == old(fed) + [];
          return;
        }
      }
      FdEvent(fd, ev.Got());
    }

    /** What `epoll_poll` has done after the first `n` events, on the fds `a`, the registrations
        `keys` and the feeds `fed0`; the kernel would not correct those in `failed`. */
    ghost predicate Polled(a: seq<Anfd>, keys: set<nat>, fed0: seq<Feed>, postfork0: bool,
                           events: seq<KernelEvent>, failed: set<nat>, n: nat)
      requires n <= |events|
      reads this`anfds, this`postfork, this`fed, kernel
    {
      && OnlyMasks(a, anfds) && kernel.regs.Keys <= keys
      && (forall j <- failed :: j < n && Surplus(a, events[j]) && events[j].fd !in kernel.regs)
      && postfork == (postfork0 || SomeStale(a, events, n) || failed != {})
      && fed == fed0 + BatchFeeds(a, events, failed, n)
    }

    lemma NothingPolled(events: seq<KernelEvent>)
      ensures Polled(anfds, kernel.regs.Keys, fed, postfork, events, {}, 0)
    {
      assert fed == fed + [];
    }

    method HandleOne(n: nat, ghost a: seq<Anfd>, ghost keys: set<nat>, ghost fed0: seq<Feed>, ghost postfork0: bool,
                     events: seq<KernelEvent>, ghost failed: set<nat>) returns (ghost failed': set<nat>)
      requires n < |events| && Valid() && backend == EpollB && Polled(a, keys, fed0, postfork0, events, failed, n)
      requires events[n].fd < |a| && Reportable(a, events[n])
      modifies this`anfds, this`postfork, this`fed, kernel
      ensures Valid() && Polled(a, keys, fed0, postfork0, events, failed', n + 1)
    {
      hide Valid, Reportable, Eperm, FeedsOf, Stale, Surplus, OnlyMasks, SomeStale, BatchFeeds;
      ghost var b := anfds;
      MasksOnly(a, b, events[n]);
      ghost var f := HandleEvent(events[n]);
      failed' := if f then failed + {n} else failed;
      BatchSame(a, events, failed, failed', n);
      MasksTwice(a, b, anfds);
      BatchNext(a, events, failed', n, fed0);
    }

    method ServeOne(i: nat, ghost list: seq<nat>)
      requires i < |eperms| && i < |list| && InRange(list, |anfds|) && InRange(eperms, |anfds|)
      requires eperms[..i + 1] == list[..i + 1]
      requires multiset(eperms[i + 1..]) == multiset(Kept(anfds, list[i + 1..]))
      modifies this`fed, this`eperms
      ensures i <= |eperms| && InRange(eperms, |anfds|) && eperms[..i] == list[..i]
      ensures multiset(eperms[i..]) == multiset(Kept(anfds, list[i..]))
      ensures fed + ListFeeds(anfds, list[..i]) == old(fed) + ListFeeds(anfds, list[..i + 1])
    {
      hide Kept, ListFeeds, EventFeeds, InRange;
      var fd := eperms[i];
      SameEntry(list, eperms, i);
      KeptNext(anfds, list, eperms, i);
      FeedsNext(anfds, list, i, fed);
      TakeOff(eperms, i);
      EntryInRange(eperms, |anfds|, i);
      var events := anfds[fd].events;
      if anfds[fd].emask & EV_EMASK_EPERM != 0 && events != 0 {
        FdEvent(fd, events);
      } else {
        var last := |eperms| - 1;
        eperms := eperms[i := eperms[last]][..last];
        assert fed == old(fed) + [];
      }
    }

    /** The scan of `epoll_eperms`, from its end: fds still marked and of interest are served, the
        others taken off the list by moving its last entry. */
    method ServeRefused()
      requires InRange(eperms, |anfds|)
      modifies this`fed, this`eperms
      ensures InRange(eperms, |anfds|) && multiset(eperms) == multiset(Kept(anfds, old(eperms)))
      ensures fed == old(fed) + ListFeeds(anfds, old(eperms))
    {
      ghost var list := eperms;
      ghost var goal := fed + ListFeeds(anfds, list);
      var i := |eperms|;
      assert list[..i] == list;
      while i > 0
        invariant i <= |eperms| && i <= |list| && InRange(list, |anfds|) && eperms[..i] == list[..i]
        invariant InRange(eperms, |anfds|)
        invariant multiset(eperms[i..]) == multiset(Kept(anfds, list[i..]))
        invariant fed + ListFeeds(anfds, list[..i]) == goal
      {
        i := i - 1;
        ServeOne(i, list);
      }
      assert eperms[0..] == eperms && list[0..] == list;
      assert fed + [] == fed;
    }

    /** `epoll_poll` on the events `epoll_wait` returned: exactly the current ones are fed to the
        watchers, in order, but for those the kernel would not correct; then the fds epoll refuses. A
        rebuild is asked for only by a stale event or one of those. */
    method EpollPoll(events: seq<KernelEvent>) returns (ghost failed: set<nat>)
      requires Valid() && backend == EpollB
      requires forall ev <- events :: ev.fd < |anfds| && Reportable(anfds, ev)
      modifies this`anfds, this`postfork, this`fed, this`eperms, kernel
      ensures Valid() && OnlyMasks(old(anfds), anfds) && kernel.regs.Keys <= old(kernel.regs).Keys
      ensures fed == old(fed) + BatchFeeds(old(anfds), events, failed, |events|) + ListFeeds(old(anfds), old(eperms))
      ensures forall j <- failed ::
        j < |events| && Surplus(old(anfds), events[j]) && events[j].fd !in kernel.regs
      ensures postfork == (old(postfork) || SomeStale(old(anfds), events, |events|) || failed != {})
      ensures multiset(eperms) == multiset(Kept(anfds, old(eperms)))
    {
      hide ListsOk, Synced, BackendOk, Eperm, SomeStale, ListFeeds, Kept, Reportable;
      ghost var a, keys, fed0, postfork0 := anfds, kernel.regs.Keys, fed, postfork;
      failed := {};
      NothingPolled(events);
      for i := 0 to |events|
        invariant Valid() && eperms == old(eperms) && Polled(a, keys, fed0, postfork0, events, failed, i)
      {
        assert events[i] in events;
        failed := HandleOne(i, a, keys, fed0, postfork0, events, failed);
      }
      ListFeedsSame(a, anfds, eperms);
      ServeRefused();
    }

    // ---------- an fd that was closed and opened again ----------

    lemma NotKilled(a: seq<Anfd>, k: Answers, fed0: seq<Feed>, killed: seq<nat>, w: IoWatcher)
      requires Valid() && w in watchers && w.fd < |a| == |anfds| && w in a[w.fd].head
      requires KilledSince(a, k, fed0, killed) && w.fd in kernel.regs
      ensures w.active != 0 && anfds[w.fd].head == a[w.fd].head
    {
      hide AskedFor, AllKillFeeds;
      assert w.fd !in killed;
      assert Listed(anfds, w);
    }

    /** A watcher set with `ev_io_set` and started makes `fd_reify` tell the kernel of its fd, whatever
        the fd was registered with before, so also when a closed fd has been opened again under
        the same number: unless the kernel refuses or drops it meanwhile, it ends registered with all
        that its watchers want. */
    method StartAndReify(w: IoWatcher)
      requires Valid() && backend == EpollB && w in watchers && w.active == 0 && w.fdset && w.events != 0
      modifies this`anfds, this`fdchanges, this`fed, this`eperms, poll, select, kernel
      modifies watchers`active, w`fdset
      ensures Valid() && w.fd < |anfds|
      ensures var n, before := |old(kernel.log)|, if w.fd < |old(anfds)| then old(anfds)[w.fd].head else [];
        && Told(kernel.log, n, w.fd, OrMasks([w] + before), kernel.View())
        && (!Refuses(kernel.log, n, w.fd) && !Loses(kernel.log, n, w.fd) ==>
              && w.active != 0 && anfds[w.fd].head == [w] + before && w.fd in kernel.regs
              && kernel.regs[w.fd] == Reg(OrMasks([w] + before), anfds[w.fd].egen)
              && kernel.regs[w.fd].mask & w.events == w.events)
    {
      hide ListsOk, Synced, BackendOk, MarkedListed, KilledSince, Eperm, OrMasks, Told;
      IoStart(w);
      ghost var a, k, fed0, n := anfds, kernel.View(), fed, |kernel.log|;
      OrMasksHolds(a[w.fd].head, w);
      var killed := FdReify();
      if !Refuses(kernel.log, n, w.fd) && !Loses(kernel.log, n, w.fd) {
        ToldOutcome(kernel.log, n, w.fd, OrMasks(a[w.fd].head), kernel.View());
        NotKilled(a, k, fed0, killed, w);
        BackendTellsInterest(w.fd);
      }
    }

    // ---------- fds that epoll refuses ----------

    lemma ServedWholly(f: Feed)
      requires Valid() && f in ListFeeds(anfds, eperms) && f.w in watchers && f.w.fd < |anfds|
      requires !anfds[f.w.fd].reify.Any()
      ensures f == Feed(f.w, f.w.events, false)
    {
      hide OrMasks;
      ListFeedsShare(anfds, eperms, f);
      var fd: nat :| fd < |anfds| && f.w in anfds[fd].head && Share(f, anfds[fd].events);
      assert HeadOk(anfds[fd].head, fd, watchers) && fd == f.w.fd;
      OrMasksHolds(anfds[fd].head, f.w);
    }

    /** A watcher of a refused fd that is in sync hears of it at every poll if and only if the fd is
        on the list. */
    lemma ServedIffListed(w: IoWatcher)
      requires Valid() && w in watchers && w.active != 0 && w.events != 0
      requires w.fd < |anfds| && !anfds[w.fd].reify.Any() && Eperm(anfds[w.fd].emask)
      ensures (exists f <- ListFeeds(anfds, eperms) :: f.w == w) <==> w.fd in eperms
      ensures forall f <- ListFeeds(anfds, eperms) :: f.w == w ==> f == Feed(w, w.events, false)
    {
      assert Listed(anfds, w);
      forall f <- ListFeeds(anfds, eperms) | f.w == w ensures f == Feed(w, w.events, false) {
        ServedWholly(f);
      }
      ListFeedsMember(anfds, eperms, w);
      EventFeedsMember(anfds[w.fd].head, anfds[w.fd].events, w);
      OrMasksHolds(anfds[w.fd].head, w);
    }

    /** Polling keeps every marked fd on the list if and only if each of them is of interest. */
    lemma PollKeepsMarkedIff(list: seq<nat>)
      requires InRange(list, |anfds|) && multiset(eperms) == multiset(Kept(anfds, list)) && MarkedListed(anfds, list)
      ensures MarkedListed(anfds, eperms)
        <==> forall fd :: 0 <= fd < |anfds| && Eperm(anfds[fd].emask) ==> anfds[fd].events != 0
    {
      ScanKeepsMarkedIff(anfds, list, eperms);
    }

    lemma InactiveUnlisted(w: IoWatcher)
      requires Valid() && w in watchers && w.fd < |anfds| && anfds[w.fd].head == []
      ensures w.active == 0
    {}

    lemma ActiveListed(w: IoWatcher)
      requires Valid() && w in watchers && w.active != 0
      ensures Listed(anfds, w)
    {}

    lemma OneMask(w: IoWatcher)
      ensures OrMasks([w]) == w.events
    {
      assert [w][1..] == [];
      OrZero(w.events);
    }

    /** Stopping the last watcher of a refused fd and polling takes the fd off the list, but not its mark. */
    method StopAndPoll(w: IoWatcher)
      requires Valid() && backend == EpollB && w in watchers && w.active != 0
      requires w.fd < |anfds| && anfds[w.fd].head == [w] && Eperm(anfds[w.fd].emask)
      modifies this`anfds, this`fdchanges, this`fed, this`eperms, this`postfork, poll, select, kernel
      modifies watchers`active
      ensures Valid() && w.active == 0 && w.fd < |anfds| && anfds[w.fd].head == []
      ensures Eperm(anfds[w.fd].emask) && w.fd !in eperms
    {
      hide ListsOk, Synced, BackendOk, MarkedListed, ListFeeds, BatchFeeds, Eperm, Kept;
      IoStop(w);
      var _ := FdReify();
      ghost var list := eperms;
      var _ := EpollPoll([]);
      NotKept(anfds, list, eperms, w.fd);
      InactiveUnlisted(w);
    }

    /** A marked fd that is not on the list is lost when the kernel refuses it again: a watcher
        started on it hears nothing at any poll, unless the kernel takes the fd this time. */
    method StartMarked(w: IoWatcher)
      requires Valid() && backend == EpollB && w in watchers && w.active == 0 && w.events != 0
      requires w.fd < |anfds| && anfds[w.fd].head == [] && Eperm(anfds[w.fd].emask) && w.fd !in eperms
      modifies this`anfds, this`fdchanges, this`fed, this`eperms, poll, select, kernel
      modifies watchers`active, w`fdset
      ensures Valid() && w.fd < |anfds| && !anfds[w.fd].reify.Any() && w.fd !in eperms
      ensures w.active != 0 ==>
        && anfds[w.fd].head == [w]
        && (w.fd in kernel.regs || w.fd in kernel.dropped
            || (Eperm(anfds[w.fd].emask) && !exists f <- ListFeeds(anfds, eperms) :: f.w == w))
    {
      hide ListsOk, Synced, BackendOk, MarkedListed, ListFeeds, Eperm;
      IoStart(w);
      ghost var a, list := anfds, eperms;
      var _ := FdReify();
      NotAdded(a, list, eperms, w.fd);
      if w.active != 0 {
        ActiveListed(w);
        OneMask(w);
        BackendTellsInterest(w.fd);
        if Eperm(anfds[w.fd].emask) {
          ServedIffListed(w);
        }
      }
    }

    /** A watcher of a refused fd that is stopped, and started again after a poll, is lost: its fd
        keeps its mark, is taken off the list, and is not put back when the kernel refuses it again. */
    method StopPollStart(w: IoWatcher)
      requires Valid() && backend == EpollB && w in watchers && w.active != 0 && w.events != 0
      requires w.fd < |anfds| && anfds[w.fd].head == [w] && Eperm(anfds[w.fd].emask)
      modifies this`anfds, this`fdchanges, this`fed, this`eperms, this`postfork, poll, select, kernel
      modifies watchers`active, w`fdset
      ensures Valid() && w.fd < |anfds| && !anfds[w.fd].reify.Any() && w.fd !in eperms
      ensures w.active != 0 ==>
        && anfds[w.fd].head == [w]
        && (w.fd in kernel.regs || w.fd in kernel.dropped
            || (Eperm(anfds[w.fd].emask) && !exists f <- ListFeeds(anfds, eperms) :: f.w == w))
    {
      hide Valid, ListFeeds, Eperm;
      StopAndPoll(w);
      StartMarked(w);
    }
  }
}
