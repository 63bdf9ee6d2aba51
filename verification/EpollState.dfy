/** What the epoll backend keeps, fd by fd, against the kernel's answers. */
module EpollState {
  import opened Interest
  import opened FdState
  import opened EpollKernel

  predicate InRange(list: seq<nat>, n: nat) {
    forall i :: 0 <= i < |list| ==> list[i] < n
  }

  /** A registration carries the stored mask and the current generation. */
  ghost predicate RegOk(x: Anfd, fd: nat, k: Answers) {
    fd in k.regs ==> k.regs[fd] == Reg(x.emask, x.egen) && IsMask(x.emask) && x.emask != 0
  }

  /** An fd of interest that is marked was refused by the kernel; any other is registered with that
      interest, or the kernel dropped it.  `weak`ly, an fd killed during the current `fd_reify` may
      still show its last interest. */
  ghost predicate InterestOk(x: Anfd, fd: nat, k: Answers, weak: bool) {
    x.events != 0 ==>
      if Eperm(x.emask) then fd in k.refused
      else
        && x.emask == x.events
        && (fd in k.regs || fd in k.dropped || (weak && x.head == [] && x.reify.Any()))
  }

  ghost predicate KernelAgrees(a: seq<Anfd>, k: Answers, weak: bool) {
    && (forall fd <- k.regs :: fd < |a|)
    && (forall fd :: 0 <= fd < |a| ==> RegOk(a[fd], fd, k) && InterestOk(a[fd], fd, k, weak))
  }

  /** The same for every fd but `fd`. */
  ghost predicate OthersAgree(a: seq<Anfd>, k: Answers, fd: nat, weak: bool) {
    && (forall g <- k.regs :: g < |a|)
    && (forall g :: 0 <= g < |a| && g != fd ==> RegOk(a[g], g, k) && InterestOk(a[g], g, k, weak))
  }

  lemma OthersSurvive(a: seq<Anfd>, b: seq<Anfd>, fd: nat, k: Answers, k': Answers, weak: bool)
    requires fd < |a| == |b| && OthersAgree(a, k, fd, weak) && OthersFramed(k, k', fd)
    requires forall g :: 0 <= g < |a| && g != fd ==> b[g] == a[g]
    ensures OthersAgree(b, k', fd, weak)
  {}

  lemma FramedSame(k: Answers, fd: nat)
    ensures OthersFramed(k, k, fd)
  {}

  lemma FramedTwice(k: Answers, k': Answers, k'': Answers, fd: nat)
    requires OthersFramed(k, k', fd) && OthersFramed(k', k'', fd)
    ensures OthersFramed(k, k'', fd)
  {}

  // ---------- who may be asked about, and who was killed ----------

  /** The kernel's answers are about fds they were about before, or that had watchers with an
      interest in `a`. */
  ghost predicate AskedFor(k: Answers, k': Answers, a: seq<Anfd>) {
    forall g :: g in k'.regs.Keys + k'.dropped + k'.refused ==>
      g in k.regs.Keys + k.dropped + k.refused || (g < |a| && OrMasks(a[g].head) != 0)
  }

  /** The fd was killed because the kernel refused it or had dropped it. */
  ghost predicate GivenUp(fd: nat, k: Answers) {
    fd !in k.regs && (fd in k.refused || fd in k.dropped)
  }

  ghost predicate AllGivenUp(killed: seq<nat>, k: Answers) {
    forall j :: 0 <= j < |killed| ==> GivenUp(killed[j], k)
  }

  /** From `a` to `b` exactly the watchers of the fds in `killed` were stopped. */
  ghost predicate OnlyKilled(a: seq<Anfd>, b: seq<Anfd>, killed: seq<nat>) {
    && |b| == |a|
    && (forall i :: 0 <= i < |killed| ==> killed[i] < |a| && a[killed[i]].head != [])
    && (forall i, j :: 0 <= i < j < |killed| ==> killed[i] != killed[j])
    && (forall fd :: 0 <= fd < |a| ==> b[fd].head == if fd in killed then [] else a[fd].head)
  }

  predicate SameHeads(a: seq<Anfd>, b: seq<Anfd>) {
    |a| == |b| && forall fd :: 0 <= fd < |a| ==> a[fd].head == b[fd].head
  }

  lemma NoneKilled(a: seq<Anfd>)
    ensures OnlyKilled(a, a, [])
  {}

  lemma KilledHeads(a: seq<Anfd>, b: seq<Anfd>, killed: seq<nat>)
    requires OnlyKilled(a, b, killed)
    ensures |b| == |a| && InRange(killed, |a|)
    ensures forall j :: 0 <= j < |killed| ==> b[killed[j]].head == []
    ensures forall fd :: 0 <= fd < |a| ==> b[fd].head == [] || b[fd].head == a[fd].head
  {
    forall j | 0 <= j < |killed| ensures b[killed[j]].head == [] {
      assert killed[j] in killed;
    }
  }

  /** One more, or none. */
  lemma KilledStep(a: seq<Anfd>, b: seq<Anfd>, b': seq<Anfd>, killed: seq<nat>, fd: nat, more: seq<nat>)
    requires OnlyKilled(a, b, killed) && |b'| == |b| && fd < |b|
    requires forall g :: 0 <= g < |b| && g != fd ==> b'[g].head == b[g].head
    requires more == [] || (more == [fd] && b[fd].head != [])
    requires b'[fd].head == if more == [] then b[fd].head else []
    ensures OnlyKilled(a, b', killed + more)
    ensures more != [] ==> b[fd].head == a[fd].head
  {
    if more == [] {
      assert killed + more == killed;
    } else {
      assert fd !in killed;
      assert forall g :: g in killed + more <==> g in killed || g == fd;
      assert forall i :: 0 <= i < |killed| ==> (killed + more)[i] == killed[i];
    }
  }

  // ---------- the fds epoll refuses ----------

  /** `epoll_poll` looks at a listed fd itself: it is marked and of interest. */
  predicate Served(x: Anfd) {
    Eperm(x.emask) && x.events != 0
  }

  /** What the scan of `epoll_eperms` leaves on the list, as a bag. */
  function Kept(a: seq<Anfd>, list: seq<nat>): seq<nat>
    requires InRange(list, |a|)
  {
    if list == [] then [] else (if Served(a[list[0]]) then [list[0]] else []) + Kept(a, list[1..])
  }

  lemma {:induction false} KeptMembers(a: seq<Anfd>, list: seq<nat>, fd: nat)
    requires InRange(list, |a|)
    ensures fd in Kept(a, list) <==> fd in list && Served(a[fd])
  {
    if list != [] {
      KeptMembers(a, list[1..], fd);
      assert list == [list[0]] + list[1..];
    }
  }

  /** Every fd marked as refused is on the list. */
  ghost predicate MarkedListed(a: seq<Anfd>, list: seq<nat>) {
    forall fd :: 0 <= fd < |a| && Eperm(a[fd].emask) ==> fd in list
  }

  /** The scan keeps that in order if and only if every marked fd is of interest. */
  lemma ScanKeepsMarkedIff(a: seq<Anfd>, list: seq<nat>, kept: seq<nat>)
    requires InRange(list, |a|) && multiset(kept) == multiset(Kept(a, list))
    requires MarkedListed(a, list)
    ensures MarkedListed(a, kept) <==> forall fd :: 0 <= fd < |a| && Eperm(a[fd].emask) ==> a[fd].events != 0
  {
    forall fd: nat ensures fd in kept <==> fd in list && Served(a[fd]) {
      KeptMembers(a, list, fd);
      assert fd in kept <==> fd in multiset(kept);
      assert fd in Kept(a, list) <==> fd in multiset(Kept(a, list));
    }
  }
}

/** What is fed to watchers: the errors of killed fds, the kernel's events, and the events made up
    for fds that epoll refuses. */
module FdFeeds {
  import opened Interest
  import opened FdState
  import opened EpollState

  /** A call of `ev_feed_event` with I/O bits, and with or without EV_ERROR. */
  datatype Feed = Feed(w: IoWatcher, revents: bv8, error: bool)

  // ---------- fd_kill ----------

  /** An fd after `k` rounds of `fd_kill`. */
  function KilledFirst(x: Anfd, k: nat): Anfd
    requires k <= |x.head|
  {
    if k == 0 then x else Changed(x.(head := x.head[k..]), EV_ANFD_REIFY)
  }

  /** The feeds of `fd_kill`. */
  function KillFeeds(head: seq<IoWatcher>): seq<Feed> {
    if head == [] then [] else [Feed(head[0], EV_READ | EV_WRITE, true)] + KillFeeds(head[1..])
  }

  /** The feeds of killing these fds, one after the other. */
  function AllKillFeeds(a: seq<Anfd>, killed: seq<nat>): seq<Feed>
    requires InRange(killed, |a|)
  {
    if killed == [] then []
    else AllKillFeeds(a, killed[..|killed| - 1]) + KillFeeds(a[killed[|killed| - 1]].head)
  }

  lemma KillFeedsStep(a: seq<Anfd>, killed: seq<nat>, fd: nat, more: seq<nat>, fed: seq<Feed>)
    requires InRange(killed, |a|) && fd < |a| && (more == [] || more == [fd])
    ensures InRange(killed + more, |a|)
    ensures fed + AllKillFeeds(a, killed) + (if more == [] then [] else KillFeeds(a[fd].head))
         == fed + AllKillFeeds(a, killed + more)
  {
    if more == [] {
      assert killed + more == killed;
    } else {
      assert (killed + more)[..|killed|] == killed;
    }
  }

  lemma {:induction false} KillFeedsSame(a: seq<Anfd>, b: seq<Anfd>, killed: seq<nat>)
    requires InRange(killed, |a|) && SameHeads(a, b)
    ensures AllKillFeeds(a, killed) == AllKillFeeds(b, killed)
  {
    if killed != [] {
      KillFeedsSame(a, b, killed[..|killed| - 1]);
    }
  }

  /** Each watcher is told once, that everything has happened and gone wrong. */
  lemma {:induction false} KillFeedsEach(head: seq<IoWatcher>)
    ensures |KillFeeds(head)| == |head|
    ensures forall i :: 0 <= i < |head| ==> KillFeeds(head)[i] == Feed(head[i], EV_READ | EV_WRITE, true)
  {
    if head != [] {
      KillFeedsEach(head[1..]);
    }
  }

  // ---------- fd_event ----------

  /** What is wanted of what has happened. */
  function Both(wanted: bv8, revents: bv8): bv8 {
    wanted & revents
  }

  function EventFeed(w: IoWatcher, revents: bv8): seq<Feed> {
    var got := Both(w.events, revents);
    if got != 0 then [Feed(w, got, false)] else []
  }

  /** The feeds of `fd_event`. */
  function EventFeeds(head: seq<IoWatcher>, revents: bv8): seq<Feed> {
    if head == [] then [] else EventFeed(head[0], revents) + EventFeeds(head[1..], revents)
  }

  lemma {:induction false} EventFeedsMember(head: seq<IoWatcher>, revents: bv8, w: IoWatcher)
    ensures (exists f <- EventFeeds(head, revents) :: f.w == w) <==> w in head && w.events & revents != 0
  {
    if head != [] {
      EventFeedsMember(head[1..], revents, w);
      assert head == [head[0]] + head[1..];
      var first, rest := EventFeed(head[0], revents), EventFeeds(head[1..], revents);
      assert forall f :: f in first + rest <==> f in first || f in rest;
      if head[0] == w && w.events & revents != 0 {
        assert first[0].w == w && first[0] in first;
      }
    }
  }

  /** `f` tells its watcher the part of `revents` that it wants. */
  predicate Share(f: Feed, revents: bv8) {
    !f.error && f.revents == Both(f.w.events, revents) && f.revents != 0
  }

  lemma EventFeedIs(w: IoWatcher, revents: bv8, f: Feed)
    ensures f in EventFeed(w, revents) <==> f.w == w && Share(f, revents)
    ensures multiset(EventFeed(w, revents))[f] <= 1
  {
    hide Both;
  }

  /** A watcher is told exactly the events that happened and that it wants, if there are any. */
  lemma {:induction false} EventFeedsIff(head: seq<IoWatcher>, revents: bv8, f: Feed)
    ensures f in EventFeeds(head, revents) <==> f.w in head && Share(f, revents)
  {
    hide EventFeed, Share;
    if head != [] {
      EventFeedsIff(head[1..], revents, f);
      EventFeedIs(head[0], revents, f);
      assert head == [head[0]] + head[1..];
      var first, rest := EventFeed(head[0], revents), EventFeeds(head[1..], revents);
      assert f in first + rest <==> f in first || f in rest;
    }
  }

  /** And only once. */
  lemma {:induction false} EventFeedsOnce(head: seq<IoWatcher>, revents: bv8, f: Feed)
    requires forall i, j :: 0 <= i < j < |head| ==> head[i] != head[j]
    ensures multiset(EventFeeds(head, revents))[f] <= 1
  {
    hide EventFeed, Share;
    if head != [] {
      EventFeedsOnce(head[1..], revents, f);
      EventFeedIs(head[0], revents, f);
      EventFeedsIff(head[1..], revents, f);
      var first, rest := EventFeed(head[0], revents), EventFeeds(head[1..], revents);
      assert multiset(first + rest) == multiset(first) + multiset(rest);
      assert head[0] !in head[1..];
    }
  }

  // ---------- the kernel's events ----------

  /** What `epoll_wait` reports: the fd and generation stored with the registration, and the
      events, errors and hang-ups counting as both. */
  datatype KernelEvent = KernelEvent(fd: nat, gen: Gen, epollin: bool, epollout: bool, errhup: bool) {
    function Got(): bv8 { Combine(epollin || errhup, epollout || errhup) }
  }

  /** The kernel cannot report on an fd it refused under the current generation. */
  predicate Reportable(a: seq<Anfd>, ev: KernelEvent)
    requires ev.fd < |a|
  {
    a[ev.fd].egen == ev.gen ==> !Eperm(a[ev.fd].emask)
  }

  /** The event belongs to an older generation of its fd. */
  predicate Stale(a: seq<Anfd>, ev: KernelEvent) {
    ev.fd < |a| && ev.gen != a[ev.fd].egen
  }

  /** The event is current, and more than anybody wants. */
  predicate Surplus(a: seq<Anfd>, ev: KernelEvent) {
    ev.fd < |a| && ev.gen == a[ev.fd].egen && ev.Got() & !a[ev.fd].events != 0
  }

  /** What a current event of the kernel feeds: nothing while the interest of its fd is changing. */
  function FeedsOf(a: seq<Anfd>, ev: KernelEvent): seq<Feed> {
    if ev.fd >= |a| || a[ev.fd].reify.Any() then [] else EventFeeds(a[ev.fd].head, ev.Got())
  }

  /** What the events up to the `n`-th feed: the stale ones nothing, nor those in `failed`. */
  function BatchFeeds(a: seq<Anfd>, events: seq<KernelEvent>, failed: set<nat>, n: nat): seq<Feed>
    requires n <= |events|
  {
    if n == 0 then []
    else
      BatchFeeds(a, events, failed, n - 1)
      + if Stale(a, events[n - 1]) || n - 1 in failed then [] else FeedsOf(a, events[n - 1])
  }

  lemma {:induction false} BatchSame(a: seq<Anfd>, events: seq<KernelEvent>, failed: set<nat>, more: set<nat>, n: nat)
    requires n <= |events| && forall i: nat :: i < n ==> (i in failed <==> i in more)
    ensures BatchFeeds(a, events, failed, n) == BatchFeeds(a, events, more, n)
  {
    hide FeedsOf, Stale;
    if n > 0 {
      BatchSame(a, events, failed, more, n - 1);
    }
  }

  predicate SomeStale(a: seq<Anfd>, events: seq<KernelEvent>, n: nat)
    requires n <= |events|
  {
    exists i :: 0 <= i < n && Stale(a, events[i])
  }

  lemma BatchNext(a: seq<Anfd>, events: seq<KernelEvent>, failed: set<nat>, n: nat, fed: seq<Feed>)
    requires n < |events|
    ensures fed + BatchFeeds(a, events, failed, n + 1)
      == fed + BatchFeeds(a, events, failed, n)
        + if Stale(a, events[n]) || n in failed then [] else FeedsOf(a, events[n])
    ensures SomeStale(a, events, n + 1) <==> SomeStale(a, events, n) || Stale(a, events[n])
  {
    hide FeedsOf, Stale;
  }

  /** `b` differs from `a` in kernel masks only, and marks the same fds as refused. */
  predicate OnlyMasks(a: seq<Anfd>, b: seq<Anfd>) {
    |a| == |b| && forall fd {:trigger b[fd]} :: 0 <= fd < |b| ==>
      && b[fd] == a[fd].(emask := b[fd].emask)
      && (Eperm(b[fd].emask) <==> Eperm(a[fd].emask))
  }

  /** The event is of the fd's current generation, its fd is in sync, and `f` tells a watcher the
      part it wants of what the kernel reported: an error or a hang-up counts as everything. */
  ghost predicate Tells(a: seq<Anfd>, ev: KernelEvent, f: Feed) {
    && ev.fd < |a| && ev.gen == a[ev.fd].egen && !a[ev.fd].reify.Any()
    && f.w in a[ev.fd].head && Share(f, Combine(ev.epollin || ev.errhup, ev.epollout || ev.errhup))
  }

  lemma EventTells(a: seq<Anfd>, ev: KernelEvent, f: Feed)
    ensures f in (if Stale(a, ev) then [] else FeedsOf(a, ev)) <==> Tells(a, ev, f)
  {
    hide Share, EventFeeds;
    if ev.fd < |a| {
      EventFeedsIff(a[ev.fd].head, ev.Got(), f);
    }
  }

  /** What a batch feeds: exactly what some of its events tells that the kernel did not fail to
      correct. */
  lemma {:induction false} BatchFeedsIff(a: seq<Anfd>, events: seq<KernelEvent>, failed: set<nat>, n: nat, f: Feed)
    requires n <= |events|
    ensures f in BatchFeeds(a, events, failed, n)
      <==> exists j: nat :: j < n && j !in failed && Tells(a, events[j], f)
  {
    hide Tells, FeedsOf, Stale;
    if n > 0 {
      BatchFeedsIff(a, events, failed, n - 1, f);
      var ev := events[n - 1];
      EventTells(a, ev, f);
      var most := BatchFeeds(a, events, failed, n - 1);
      var last := if Stale(a, ev) || n - 1 in failed then [] else FeedsOf(a, ev);
      assert f in most + last <==> f in most || f in last;
      assert f in last <==> n - 1 !in failed && Tells(a, ev, f);
    }
  }

  // ---------- the events made up for refused fds ----------

  function ServedFeeds(x: Anfd): seq<Feed> {
    if Served(x) && !x.reify.Any() then EventFeeds(x.head, x.events) else []
  }

  /** The list is scanned from its end. */
  function ListFeeds(a: seq<Anfd>, list: seq<nat>): seq<Feed>
    requires InRange(list, |a|)
  {
    if list == [] then []
    else ServedFeeds(a[list[|list| - 1]]) + ListFeeds(a, list[..|list| - 1])
  }

  lemma {:induction false} ListFeedsSame(a: seq<Anfd>, b: seq<Anfd>, list: seq<nat>)
    requires OnlyMasks(a, b) && InRange(list, |a|)
    ensures ListFeeds(a, list) == ListFeeds(b, list)
  {
    if list != [] {
      assert b[list[|list| - 1]] == a[list[|list| - 1]].(emask := b[list[|list| - 1]].emask);
      ListFeedsSame(a, b, list[..|list| - 1]);
    }
  }

  lemma {:induction false} ListFeedsMember(a: seq<Anfd>, list: seq<nat>, w: IoWatcher)
    requires InRange(list, |a|)
    requires w.fd < |a| && forall fd: nat :: fd < |a| && w in a[fd].head ==> fd == w.fd
    ensures
      (exists f <- ListFeeds(a, list) :: f.w == w)
      <==> w.fd in list && (exists f <- ServedFeeds(a[w.fd]) :: f.w == w)
  {
    if list != [] {
      var fd, most := list[|list| - 1], list[..|list| - 1];
      ListFeedsMember(a, most, w);
      assert list == most + [fd];
      var first, rest := ServedFeeds(a[fd]), ListFeeds(a, most);
      assert forall f :: f in first + rest <==> f in first || f in rest;
      EventFeedsMember(a[fd].head, a[fd].events, w);
    }
  }

  /** A feed made up for a refused fd tells what its watcher wants of the fd's whole interest. */
  lemma {:induction false} ListFeedsShare(a: seq<Anfd>, list: seq<nat>, f: Feed)
    requires InRange(list, |a|) && f in ListFeeds(a, list)
    ensures exists fd: nat :: fd < |a| && f.w in a[fd].head && Share(f, a[fd].events)
  {
    hide Share, EventFeeds;
    var fd, most := list[|list| - 1], list[..|list| - 1];
    var first, rest := ServedFeeds(a[fd]), ListFeeds(a, most);
    assert f in first + rest <==> f in first || f in rest;
    if f in first {
      EventFeedsIff(a[fd].head, a[fd].events, f);
    } else {
      ListFeedsShare(a, most, f);
    }
  }
}
