/** The cross-thread wake-up protocol of the event loop.

    Any number of senders (threads in `ev_async_send`, signal handlers in `ev_feed_signal`)
    and one loop (`ev_run` with `pipecb`) share the `sent` flags, one pending flag per kind
    of source, `pipe_write_wanted`, `pipe_write_skipped` and a pipe.  Every shared read and
    every shared write is one atomic step, and steps interleave in any order (sequential
    consistency). */
module WakeUp {

  /** What is being notified: an async watcher, or a signal slot (`signals[num]`). */
  datatype Source = Async(watcher: nat) | Signal(num: nat)

  datatype Flag = SigPending | AsyncPending

  function FlagOf(src: Source): Flag {
    if src.Async? then AsyncPending else SigPending
  }

  /** Where a sender stands, after its write to `sent`, in `evpipe_write`. */
  datatype SenderPc =
    | Idle
    | TestFlag(src: Source)
    | SetFlag(src: Source)
    | SetSkipped(src: Source)
    | TestWanted(src: Source)
    | ClearSkipped(src: Source)
    | WritePipe(src: Source)

  /** Where the loop stands.  `Callbacks` is every stretch of `ev_run` in which pending
      callbacks may run; `PrePoll` is the stretch between draining them and the poll. */
  datatype LoopPc =
    | Callbacks
    | PrePoll
    | TestSkipped
    | Poll(blocking: bool)
    | ClearWanted
    | FeedIfSkipped
    | ReadPipe
    | ClearSkip
    | Test(flag: Flag)
    | Clear(flag: Flag)
    | Scan(flag: Flag, left: nat)
    | ScanClear(flag: Flag, left: nat)
    | ScanFeed(flag: Flag, left: nat)

  /** Constants of one loop: signal slots, pipe capacity, eventfd instead of a pipe. */
  datatype Config = Config(signals: nat, capacity: nat, eventfd: bool)

  datatype State = State(
    senders: seq<SenderPc>,
    sent: set<Source>,
    flags: set<Flag>,
    skipped: bool,
    wanted: bool,
    pipe: nat,
    asyncs: seq<nat>,
    pc: LoopPc,
    readPending: bool,
    customPending: bool
  )

  datatype Action =
    | Send(i: nat, src: Source)
    | SenderStep(i: nat)
    | StartAsync(watcher: nat)
    | StopAsync(slot: nat)
    | InvokePipeCb
    | LeaveCallbacks
    | Refork
    | SetWanted
    | Decide(mayBlock: bool)
    | PollReturn(readable: bool)
    | LoopStep

  // ---------- scanning order ----------

  function Count(c: Config, s: State, f: Flag): nat {
    if f.AsyncPending? then |s.asyncs| else c.signals
  }

  function Entry(c: Config, s: State, f: Flag, k: nat): Source
    requires k < Count(c, s, f)
  {
    if f.AsyncPending? then Async(s.asyncs[k]) else Signal(k)
  }

  predicate InFirst(c: Config, s: State, src: Source, n: nat)
    requires n <= Count(c, s, FlagOf(src))
  {
    match src
    case Async(w) => w in s.asyncs[..n]
    case Signal(k) => k < n
  }

  predicate Active(c: Config, s: State, src: Source) {
    InFirst(c, s, src, Count(c, s, FlagOf(src)))
  }

  // ---------- the steps ----------

  predicate Enabled(c: Config, s: State, a: Action) {
    match a
    case Send(i, src) => i < |s.senders| && s.senders[i].Idle? && (src.Signal? ==> src.num < c.signals)
    case SenderStep(i) => i < |s.senders| && !s.senders[i].Idle?
    case StartAsync(w) => s.pc.Callbacks? && w !in s.asyncs
    case StopAsync(k) => s.pc.Callbacks? && k < |s.asyncs|
    case InvokePipeCb => s.pc.Callbacks? && (s.readPending || s.customPending)
    case LeaveCallbacks => s.pc.Callbacks? && !s.readPending && !s.customPending
    case Refork => s.pc.PrePoll?
    case SetWanted => s.pc.PrePoll?
    case Decide(_) => s.pc.TestSkipped?
    case PollReturn(readable) => s.pc.Poll? && (readable ==> s.pipe > 0)
    case LoopStep =>
      match s.pc
      case ClearWanted | FeedIfSkipped | ReadPipe | ClearSkip | Test(_) | Clear(_) => true
      case Scan(f, n) => n <= Count(c, s, f)
      case ScanClear(f, n) => n < Count(c, s, f)
      case ScanFeed(f, n) => n < Count(c, s, f)
      case _ => false
  }

  /** One step of `evpipe_write`. */
  function SenderDo(c: Config, s: State, i: nat): (t: State)
    requires Enabled(c, s, SenderStep(i))
    ensures t == s.(senders := t.senders, flags := t.flags, skipped := t.skipped, pipe := t.pipe)
    ensures |t.senders| == |s.senders| && forall k :: 0 <= k < |s.senders| && k != i ==> t.senders[k] == s.senders[k]
  {
    match s.senders[i]
    case TestFlag(src) =>
      s.(senders := s.senders[i := if FlagOf(src) in s.flags then Idle else SetFlag(src)])
    case SetFlag(src) =>
      s.(senders := s.senders[i := SetSkipped(src)], flags := s.flags + {FlagOf(src)})
    case SetSkipped(src) =>
      s.(senders := s.senders[i := TestWanted(src)], skipped := true)
    case TestWanted(src) =>
      s.(senders := s.senders[i := if s.wanted then ClearSkipped(src) else Idle])
    case ClearSkipped(src) =>
      s.(senders := s.senders[i := WritePipe(src)], skipped := false)
    case WritePipe(src) =>
      s.(senders := s.senders[i := Idle], pipe := if s.pipe < c.capacity then s.pipe + 1 else s.pipe)
  }

  /** After the scan for `f`: signals are handled before asyncs. */
  function AfterScan(f: Flag): LoopPc {
    if f.SigPending? then Test(AsyncPending) else Callbacks
  }

  /** One step of the loop after the poll, or inside `pipecb`. */
  function LoopDo(c: Config, s: State): (t: State)
    requires Enabled(c, s, LoopStep)
    ensures t.senders == s.senders && t.asyncs == s.asyncs && t.readPending == s.readPending
  {
    match s.pc
    case ClearWanted => s.(pc := FeedIfSkipped, wanted := false)
    case FeedIfSkipped => s.(pc := Callbacks, customPending := s.customPending || s.skipped)
    case ReadPipe => s.(pc := ClearSkip, pipe := if c.eventfd || s.pipe <= 4 then 0 else s.pipe - 4)
    case ClearSkip => s.(pc := Test(SigPending), skipped := false)
    case Test(f) => s.(pc := if f in s.flags then Clear(f) else AfterScan(f))
    case Clear(f) => s.(pc := Scan(f, Count(c, s, f)), flags := s.flags - {f})
    case Scan(f, n) =>
      if n == 0 then s.(pc := AfterScan(f))
      else if Entry(c, s, f, n - 1) in s.sent then s.(pc := ScanClear(f, n - 1))
      else s.(pc := Scan(f, n - 1))
    case ScanClear(f, n) => s.(pc := ScanFeed(f, n), sent := s.sent - {Entry(c, s, f, n)})
    case ScanFeed(f, n) => s.(pc := Scan(f, n))
  }

  function Do(c: Config, s: State, a: Action): State
    requires Enabled(c, s, a)
  {
    match a
    case Send(i, src) => s.(senders := s.senders[i := TestFlag(src)], sent := s.sent + {src})
    case SenderStep(i) => SenderDo(c, s, i)
    case StartAsync(w) => s.(asyncs := s.asyncs + [w], sent := s.sent - {Async(w)})
    case StopAsync(k) =>
      var last := |s.asyncs| - 1;
      s.(asyncs := s.asyncs[k := s.asyncs[last]][..last])
    case InvokePipeCb =>
      s.(pc := if s.readPending then ReadPipe else ClearSkip, readPending := false, customPending := false)
    case LeaveCallbacks => s.(pc := PrePoll)
    case Refork => s.(pipe := 0, customPending := true)
    case SetWanted => s.(pc := TestSkipped, wanted := true)
    case Decide(mayBlock) => s.(pc := Poll(mayBlock && !s.skipped))
    case PollReturn(readable) => s.(pc := ClearWanted, readPending := s.readPending || readable)
    case LoopStep => LoopDo(c, s)
  }

  ghost predicate Init(c: Config, s: State) {
    && c.capacity > 0
    && (forall k :: 0 <= k < |s.senders| ==> s.senders[k].Idle?)
    && s == State(s.senders, {}, {}, false, false, 0, [], Callbacks, false, false)
  }

  // ---------- the inductive invariant ----------

  /** Senders that have set their flag and are bound to leave a token or `skipped` behind. */
  predicate Committed(p: SenderPc) {
    p.SetSkipped? || p.ClearSkipped? || p.WritePipe?
  }

  ghost predicate SomeCommitted(s: State) {
    exists i :: 0 <= i < |s.senders| && Committed(s.senders[i])
  }

  /** The loop is inside `pipecb` and has yet to test `f`. */
  predicate WillTest(pc: LoopPc, f: Flag) {
    || pc.ReadPipe? || pc.ClearSkip? || pc == Test(f) || pc == Clear(f)
    || (f.AsyncPending? && (pc.Test? || pc.Clear? || pc.Scan? || pc.ScanClear? || pc.ScanFeed?)
        && pc.flag.SigPending?)
  }

  predicate Waiting(pc: LoopPc) {
    pc.PrePoll? || pc.TestSkipped? || pc.Poll?
  }

  /** Why a set flag will be noticed without another send. */
  ghost predicate Covered(s: State, f: Flag) {
    || s.pipe > 0 || s.skipped || s.readPending
    || (s.customPending && !Waiting(s.pc))
    || WillTest(s.pc, f)
    || SomeCommitted(s)
  }

  ghost predicate FlagsCovered(s: State) {
    forall f <- s.flags :: Covered(s, f)
  }

  /** Senders between seeing or setting `skipped` and clearing it. */
  ghost predicate SomeSkipper(s: State) {
    exists i :: 0 <= i < |s.senders| && (s.senders[i].TestWanted? || s.senders[i].ClearSkipped?)
  }

  predicate ScanPc(pc: LoopPc) {
    pc.Scan? || pc.ScanClear? || pc.ScanFeed?
  }

  /** The current scan has yet to reach `src`. */
  predicate YetToScan(c: Config, s: State, src: Source) {
    && ScanPc(s.pc) && s.pc.flag == FlagOf(src)
    && s.pc.left <= Count(c, s, s.pc.flag)
    && (InFirst(c, s, src, s.pc.left)
        || (s.pc.ScanClear? && s.pc.left < Count(c, s, s.pc.flag) && Entry(c, s, s.pc.flag, s.pc.left) == src))
  }

  ghost predicate SomeAnnouncing(s: State, src: Source) {
    exists i :: 0 <= i < |s.senders| && s.senders[i] in {TestFlag(src), SetFlag(src)}
  }

  /** No lost send: a set `sent` is going to be seen. */
  ghost predicate SendHeld(c: Config, s: State, src: Source) {
    FlagOf(src) in s.flags || SomeAnnouncing(s, src) || YetToScan(c, s, src)
  }

  ghost predicate SendsHeld(c: Config, s: State) {
    forall src <- s.sent :: Active(c, s, src) ==> SendHeld(c, s, src)
  }

  /** The loop's own bookkeeping. */
  predicate LoopInOrder(c: Config, s: State) {
    && (s.wanted <==> s.pc.TestSkipped? || s.pc.Poll? || s.pc.ClearWanted?)
    && (ScanPc(s.pc) ==> s.pc.left <= Count(c, s, s.pc.flag))
    && (s.pc.ScanClear? || s.pc.ScanFeed? ==> s.pc.left < Count(c, s, s.pc.flag))
    && (s.pc.ScanClear? ==> Entry(c, s, s.pc.flag, s.pc.left) in s.sent)
    && (Waiting(s.pc) ==> !s.readPending)
  }

  ghost predicate DistinctAsyncs(s: State) {
    forall j, k :: 0 <= j < k < |s.asyncs| ==> s.asyncs[j] != s.asyncs[k]
  }

  ghost predicate SkipExplained(s: State) {
    s.pc == Poll(true) && s.skipped ==> SomeSkipper(s)
  }

  ghost predicate Inv(c: Config, s: State) {
    && c.capacity > 0
    && LoopInOrder(c, s) && DistinctAsyncs(s) && SkipExplained(s) && SendsHeld(c, s)
  }

  lemma InitInv(c: Config, s: State)
    requires Init(c, s)
    ensures Inv(c, s) && FlagsCovered(s)
  {}

  lemma SameEntries(c: Config, s: State, t: State, f: Flag)
    requires t.asyncs == s.asyncs
    ensures Count(c, t, f) == Count(c, s, f)
    ensures forall k: nat | k < Count(c, s, f) :: Entry(c, t, f, k) == Entry(c, s, f, k)
  {}

  lemma LoopInOrderLoopStep(c: Config, s: State)
    requires LoopInOrder(c, s) && Enabled(c, s, LoopStep)
    ensures LoopInOrder(c, LoopDo(c, s))
  {
    hide Entry;
    var t := LoopDo(c, s);
    match s.pc
    case Clear(f) => SameEntries(c, s, t, f);
    case Scan(f, n) => SameEntries(c, s, t, f);
    case ScanClear(f, n) => SameEntries(c, s, t, f);
    case ScanFeed(f, n) => SameEntries(c, s, t, f);
    case _ =>
  }

  lemma LoopInOrderStep(c: Config, s: State, a: Action)
    requires LoopInOrder(c, s) && Enabled(c, s, a)
    ensures LoopInOrder(c, Do(c, s, a))
  {
    match a
    case LoopStep => LoopInOrderLoopStep(c, s);
    case SenderStep(i) => assert ScanPc(s.pc) ==> Count(c, Do(c, s, a), s.pc.flag) == Count(c, s, s.pc.flag);
    case _ =>
  }

  lemma DistinctAsyncsStep(c: Config, s: State, a: Action)
    requires DistinctAsyncs(s) && Enabled(c, s, a)
    ensures DistinctAsyncs(Do(c, s, a))
  {
    if !a.StartAsync? && !a.StopAsync? {
      assert Do(c, s, a).asyncs == s.asyncs;
    }
  }

  lemma SkipExplainedSenderStep(c: Config, s: State, i: nat)
    requires SkipExplained(s) && Enabled(c, s, SenderStep(i))
    requires LoopInOrder(c, s)
    ensures SkipExplained(SenderDo(c, s, i))
  {
    var t := SenderDo(c, s, i);
    if t.pc == Poll(true) && t.skipped {
      if !s.senders[i].SetSkipped? && !s.senders[i].TestWanted? {
        var k :| 0 <= k < |s.senders| && (s.senders[k].TestWanted? || s.senders[k].ClearSkipped?);
        assert t.senders[k] == s.senders[k];
      } else {
        assert t.senders[i].TestWanted? || t.senders[i].ClearSkipped?;
      }
    }
  }

  lemma SkipExplainedStep(c: Config, s: State, a: Action)
    requires SkipExplained(s) && LoopInOrder(c, s) && Enabled(c, s, a)
    ensures SkipExplained(Do(c, s, a))
  {
    var t := Do(c, s, a);
    match a
    case SenderStep(i) => SkipExplainedSenderStep(c, s, i);
    case Send(i, src) =>
      if s.pc == Poll(true) && s.skipped {
        var k :| 0 <= k < |s.senders| && (s.senders[k].TestWanted? || s.senders[k].ClearSkipped?);
        assert t.senders[k] == s.senders[k];
      }
    case LoopStep => assert !t.pc.Poll?;
    case _ =>
  }

  // ---------- no lost wake-up ----------

  /** Re-creating the pipe here throws away the only trace of a raised flag. */
  ghost predicate LosesToken(s: State, a: Action) {
    a.Refork? && s.flags != {} && !s.skipped && !SomeCommitted(s)
  }

  lemma FlagsCoveredSenderStep(c: Config, s: State, i: nat)
    requires c.capacity > 0 && FlagsCovered(s) && Enabled(c, s, SenderStep(i))
    ensures FlagsCovered(SenderDo(c, s, i))
  {
    var t := SenderDo(c, s, i);
    forall f <- t.flags ensures Covered(t, f) {
      if Committed(t.senders[i]) {
        assert SomeCommitted(t);
      } else if !Committed(s.senders[i]) {
        assert t.flags == s.flags && t.skipped == s.skipped && t.pipe == s.pipe;
        if SomeCommitted(s) {
          var k :| 0 <= k < |s.senders| && Committed(s.senders[k]);
          assert Committed(t.senders[k]);
        }
      }
    }
  }

  lemma FlagsCoveredLoopStep(c: Config, s: State)
    requires LoopInOrder(c, s) && FlagsCovered(s) && Enabled(c, s, LoopStep)
    ensures FlagsCovered(LoopDo(c, s))
  {
    var t := LoopDo(c, s);
    forall f <- t.flags ensures Covered(t, f) {
      assert Covered(s, f);
      assert SomeCommitted(s) ==> SomeCommitted(t);
      match s.pc
      case ReadPipe => assert WillTest(t.pc, f);
      case ClearSkip => assert WillTest(t.pc, f);
      case Test(g) => assert t.pipe == s.pipe;
      case Clear(g) =>
      case Scan(g, n) =>
      case ScanClear(g, n) =>
      case ScanFeed(g, n) =>
      case ClearWanted =>
      case FeedIfSkipped =>
    }
  }

  lemma FlagsCoveredStep(c: Config, s: State, a: Action)
    requires Inv(c, s) && FlagsCovered(s) && Enabled(c, s, a) && !LosesToken(s, a)
    ensures FlagsCovered(Do(c, s, a))
  {
    var t := Do(c, s, a);
    match a
    case SenderStep(i) => FlagsCoveredSenderStep(c, s, i);
    case LoopStep => FlagsCoveredLoopStep(c, s);
    case Send(i, src) =>
      if SomeCommitted(s) {
        var k :| 0 <= k < |s.senders| && Committed(s.senders[k]);
        assert Committed(t.senders[k]);
      }
      assert forall f <- t.flags :: Covered(s, f) ==> Covered(t, f);
    case Refork => assert SomeCommitted(s) ==> SomeCommitted(t);
    case _ =>
      assert SomeCommitted(s) ==> SomeCommitted(t);
      assert forall f <- t.flags :: Covered(s, f) ==> Covered(t, f);
  }

  // ---------- no lost send ----------

  lemma SendsHeldSenderStep(c: Config, s: State, i: nat)
    requires SendsHeld(c, s) && Enabled(c, s, SenderStep(i))
    ensures SendsHeld(c, SenderDo(c, s, i))
  {
    var t := SenderDo(c, s, i);
    forall src <- t.sent | Active(c, t, src) ensures SendHeld(c, t, src) {
      assert SendHeld(c, s, src);
      if SomeAnnouncing(s, src) {
        var k :| 0 <= k < |s.senders| && s.senders[k] in {TestFlag(src), SetFlag(src)};
        if k == i {
          assert FlagOf(src) in t.flags || t.senders[i] == SetFlag(src);
        } else {
          assert t.senders[k] == s.senders[k];
        }
      }
    }
  }

  /** One step of a scan passes over a source only when it takes its `sent` away. */
  lemma ScanStepHolds(c: Config, s: State, src: Source)
    requires LoopInOrder(c, s) && Enabled(c, s, LoopStep) && YetToScan(c, s, src)
    requires src in LoopDo(c, s).sent
    ensures YetToScan(c, LoopDo(c, s), src)
  {
    match s.pc
    case Scan(f, n) =>
      assert n > 0;
      if src.Async? {
        assert s.asyncs[..n] == s.asyncs[..n - 1] + [s.asyncs[n - 1]];
      }
    case ScanClear(f, n) =>
    case ScanFeed(f, n) =>
  }

  lemma SendHeldLoopStep(c: Config, s: State, src: Source)
    requires LoopInOrder(c, s) && SendsHeld(c, s) && Enabled(c, s, LoopStep)
    requires src in LoopDo(c, s).sent && Active(c, LoopDo(c, s), src)
    ensures SendHeld(c, LoopDo(c, s), src)
  {
    assert SendHeld(c, s, src);
    if YetToScan(c, s, src) {
      ScanStepHolds(c, s, src);
    } else if SomeAnnouncing(s, src) {
      assert SomeAnnouncing(LoopDo(c, s), src);
    } else if s.pc == Clear(FlagOf(src)) {
      assert YetToScan(c, LoopDo(c, s), src);
    }
  }

  lemma SendsHeldLoopStep(c: Config, s: State)
    requires LoopInOrder(c, s) && SendsHeld(c, s) && Enabled(c, s, LoopStep)
    ensures SendsHeld(c, LoopDo(c, s))
  {
    var t := LoopDo(c, s);
    forall src <- t.sent | Active(c, t, src) ensures SendHeld(c, t, src) {
      SendHeldLoopStep(c, s, src);
    }
  }

  lemma SendsHeldSend(c: Config, s: State, i: nat, src0: Source)
    requires SendsHeld(c, s) && Enabled(c, s, Send(i, src0))
    ensures SendsHeld(c, Do(c, s, Send(i, src0)))
  {
    var t := Do(c, s, Send(i, src0));
    assert t.senders[i] == TestFlag(src0);
    forall src <- t.sent | Active(c, t, src) ensures SendHeld(c, t, src) {
      if src != src0 && SomeAnnouncing(s, src) {
        var k :| 0 <= k < |s.senders| && s.senders[k] in {TestFlag(src), SetFlag(src)};
        assert t.senders[k] == s.senders[k];
      }
    }
  }

  /** The other steps are the loop's, outside `pipecb`. */
  predicate OutsideScan(a: Action) {
    !a.SenderStep? && !a.LoopStep? && !a.Send?
  }

  /** They activate no source that has been sent. */
  lemma ActiveBefore(c: Config, s: State, a: Action, src: Source)
    requires OutsideScan(a) && Enabled(c, s, a)
    requires src in Do(c, s, a).sent && Active(c, Do(c, s, a), src)
    ensures src in s.sent && Active(c, s, src)
    ensures Do(c, s, a).senders == s.senders && Do(c, s, a).flags == s.flags && !ScanPc(s.pc)
  {}

  lemma SendsHeldOutside(c: Config, s: State, a: Action)
    requires OutsideScan(a) && SendsHeld(c, s) && Enabled(c, s, a)
    ensures SendsHeld(c, Do(c, s, a))
  {
    hide OutsideScan, Enabled, Active, Do, ScanPc;
    var t := Do(c, s, a);
    forall src <- t.sent | Active(c, t, src) ensures SendHeld(c, t, src) {
      ActiveBefore(c, s, a, src);
      assert SendHeld(c, s, src);
      assert SomeAnnouncing(s, src) ==> SomeAnnouncing(t, src);
    }
  }

  lemma SendsHeldStep(c: Config, s: State, a: Action)
    requires LoopInOrder(c, s) && SendsHeld(c, s) && Enabled(c, s, a)
    ensures SendsHeld(c, Do(c, s, a))
  {
    hide SendsHeld, LoopInOrder, Enabled;
    match a
    case SenderStep(i) => SendsHeldSenderStep(c, s, i);
    case LoopStep => SendsHeldLoopStep(c, s);
    case Send(i, src) => SendsHeldSend(c, s, i, src);
    case _ => SendsHeldOutside(c, s, a);
  }

  lemma InvStep(c: Config, s: State, a: Action)
    requires Inv(c, s) && Enabled(c, s, a)
    ensures Inv(c, Do(c, s, a))
  {
    LoopInOrderStep(c, s, a);
    DistinctAsyncsStep(c, s, a);
    SkipExplainedStep(c, s, a);
    SendsHeldStep(c, s, a);
  }

  // ---------- whole runs ----------

  ghost predicate Path(c: Config, ss: seq<State>, acts: seq<Action>) {
    && |ss| == |acts| + 1
    && forall k :: 0 <= k < |acts| ==> Enabled(c, ss[k], acts[k]) && ss[k + 1] == Do(c, ss[k], acts[k])
  }

  ghost predicate Run(c: Config, ss: seq<State>, acts: seq<Action>) {
    Path(c, ss, acts) && Init(c, ss[0])
  }

  ghost predicate KeepsTokens(ss: seq<State>, acts: seq<Action>)
    requires |ss| == |acts| + 1
  {
    forall k :: 0 <= k < |acts| ==> !LosesToken(ss[k], acts[k])
  }

  /** Senders past raising their flag that have not returned from `evpipe_write`. */
  predicate Waking(p: SenderPc) {
    p.SetSkipped? || p.TestWanted? || p.ClearSkipped? || p.WritePipe?
  }

  ghost predicate SomeWaking(s: State) {
    exists i :: 0 <= i < |s.senders| && Waking(s.senders[i])
  }

  /** A loop blocked in the poll with a raised flag and nothing left to end the poll. */
  ghost predicate Stranded(s: State) {
    s.pc == Poll(true) && s.flags != {} && s.pipe == 0 && !SomeWaking(s)
  }

  lemma NotStranded(c: Config, s: State)
    requires Inv(c, s) && FlagsCovered(s)
    ensures !Stranded(s)
  {
    if s.pc == Poll(true) && s.flags != {} && s.pipe == 0 {
      var f :| f in s.flags;
      assert Covered(s, f);
      if SomeCommitted(s) {
        var k :| 0 <= k < |s.senders| && Committed(s.senders[k]);
        assert Waking(s.senders[k]);
      } else {
        var k :| 0 <= k < |s.senders| && (s.senders[k].TestWanted? || s.senders[k].ClearSkipped?);
        assert Waking(s.senders[k]);
      }
    }
  }

  lemma {:induction false} PathInv(c: Config, ss: seq<State>, acts: seq<Action>, n: nat)
    requires Path(c, ss, acts) && Inv(c, ss[0]) && n <= |acts|
    ensures Inv(c, ss[n])
  {
    if n > 0 {
      PathInv(c, ss, acts, n - 1);
      InvStep(c, ss[n - 1], acts[n - 1]);
    }
  }

  lemma {:induction false} PathCovered(c: Config, ss: seq<State>, acts: seq<Action>, n: nat)
    requires Path(c, ss, acts) && Inv(c, ss[0]) && FlagsCovered(ss[0]) && KeepsTokens(ss, acts)
    requires n <= |acts|
    ensures Inv(c, ss[n]) && FlagsCovered(ss[n])
  {
    PathInv(c, ss, acts, n);
    if n > 0 {
      PathCovered(c, ss, acts, n - 1);
      FlagsCoveredStep(c, ss[n - 1], acts[n - 1]);
    }
  }

  /** No lost wake-up, for every interleaving in which no re-creation of the pipe throws a
      needed token away. */
  lemma NoLostWakeUp(c: Config, ss: seq<State>, acts: seq<Action>, n: nat)
    requires Run(c, ss, acts) && KeepsTokens(ss, acts) && n <= |acts|
    ensures !Stranded(ss[n])
  {
    InitInv(c, ss[0]);
    PathCovered(c, ss, acts, n);
    NotStranded(c, ss[n]);
  }

  function Rank(p: SenderPc): nat {
    match p
    case SetSkipped(_) => 3
    case TestWanted(_) => 2
    case ClearSkipped(_) => 1
    case _ => 0
  }

  /** While the loop is blocked, a waking sender needs only its own steps to put a token
      into the pipe: it moves on through at most four program points, and the last one writes. */
  lemma WakingSenderWrites(c: Config, s: State, i: nat)
    requires Inv(c, s) && s.pc == Poll(true) && i < |s.senders| && Waking(s.senders[i])
    ensures Enabled(c, s, SenderStep(i))
    ensures var t := Do(c, s, SenderStep(i));
      && t.pc == Poll(true)
      && (if s.senders[i].WritePipe? then t.pipe > 0
          else Waking(t.senders[i]) && Rank(t.senders[i]) < Rank(s.senders[i]))
  {}

  // ---------- re-creating the pipe ----------

  lemma Extend(c: Config, ss: seq<State>, acts: seq<Action>, a: Action) returns (ss': seq<State>, acts': seq<Action>)
    requires Path(c, ss, acts) && KeepsTokens(ss, acts)
    requires Enabled(c, ss[|acts|], a) && !a.Refork?
    ensures ss' == ss + [Do(c, ss[|acts|], a)] && acts' == acts + [a]
    ensures Path(c, ss', acts') && KeepsTokens(ss', acts') && ss'[0] == ss[0]
    ensures ss'[|acts'|] == Do(c, ss[|acts|], a)
  {
    ss', acts' := ss + [Do(c, ss[|acts|], a)], acts + [a];
    forall k | 0 <= k < |acts'| ensures Enabled(c, ss'[k], acts'[k]) && ss'[k + 1] == Do(c, ss'[k], acts'[k]) {
      if k < |acts| {
        assert ss'[k] == ss[k] && ss'[k + 1] == ss[k + 1];
      }
    }
    forall k | 0 <= k < |acts'| ensures !LosesToken(ss'[k], acts'[k]) {
      if k < |acts| {
        assert ss'[k] == ss[k];
      }
    }
  }

  lemma {:induction false} DrainTestWanted(c: Config, s: State, n: nat) returns (ss: seq<State>, acts: seq<Action>)
    requires s.pc.PrePoll? && !s.wanted && n <= |s.senders|
    ensures Path(c, ss, acts) && ss[0] == s && KeepsTokens(ss, acts)
    ensures var t := ss[|acts|];
      && t == s.(senders := t.senders) && |t.senders| == |s.senders|
      && (forall k :: 0 <= k < n ==> !t.senders[k].TestWanted?)
      && (forall k :: 0 <= k < |s.senders| ==>
            t.senders[k] == s.senders[k] || (s.senders[k].TestWanted? && t.senders[k].Idle?))
  {
    if n == 0 {
      ss, acts := [s], [];
    } else {
      ss, acts := DrainTestWanted(c, s, n - 1);
      var t := ss[|acts|];
      if t.senders[n - 1].TestWanted? {
        ss, acts := Extend(c, ss, acts, SenderStep(n - 1));
      }
    }
  }

  lemma LostTokenStrands(c: Config, s: State) returns (ss: seq<State>, acts: seq<Action>)
    requires Inv(c, s) && Enabled(c, s, Refork) && LosesToken(s, Refork)
    ensures Path(c, ss, acts) && ss[0] == Do(c, s, Refork) && KeepsTokens(ss, acts) && Stranded(ss[|acts|])
  {
    var r := Do(c, s, Refork);
    ss, acts := DrainTestWanted(c, r, |r.senders|);
    var t := ss[|acts|];
    forall k | 0 <= k < |t.senders| ensures !Waking(t.senders[k]) {
      assert !Committed(s.senders[k]);
    }
    ss, acts := Extend(c, ss, acts, SetWanted);
    ss, acts := Extend(c, ss, acts, Decide(true));
    assert ss[|acts|].senders == t.senders;
  }

  ghost predicate StrandsFrom(c: Config, s: State, ss: seq<State>, acts: seq<Action>) {
    Path(c, ss, acts) && ss[0] == s && KeepsTokens(ss, acts) && Stranded(ss[|acts|])
  }

  /** `loop_fork` may run in the same process (`ev_loop_fork`, a spurious epoll event) while
      other threads send.  It can leave the loop stranded exactly when a flag is up,
      `pipe_write_skipped` is clear and no sender is about to write. */
  lemma ReforkStrandsIff(c: Config, s: State)
    requires Inv(c, s) && FlagsCovered(s) && Enabled(c, s, Refork)
    ensures LosesToken(s, Refork) <==>
      exists ss, acts :: StrandsFrom(c, Do(c, s, Refork), ss, acts)
  {
    if LosesToken(s, Refork) {
      var ss, acts := LostTokenStrands(c, s);
      assert StrandsFrom(c, Do(c, s, Refork), ss, acts);
    } else {
      InvStep(c, s, Refork);
      FlagsCoveredStep(c, s, Refork);
      forall ss, acts | StrandsFrom(c, Do(c, s, Refork), ss, acts) ensures false {
        PathCovered(c, ss, acts, |acts|);
        NotStranded(c, ss[|acts|]);
      }
    }
  }

  lemma SendUntilWrite(c: Config, ss: seq<State>, acts: seq<Action>) returns (ss': seq<State>, acts': seq<Action>)
    requires c.signals > 0 && Run(c, ss, acts) && KeepsTokens(ss, acts)
    requires ss[|acts|] == State([Idle], {}, {}, false, true, 0, [], Poll(true), false, false)
    ensures Run(c, ss', acts') && KeepsTokens(ss', acts')
    ensures ss'[|acts'|] ==
      State([WritePipe(Signal(0))], {Signal(0)}, {SigPending}, false, true, 0, [], Poll(true), false, false)
  {
    var src := Signal(0);
    ss', acts' := Extend(c, ss, acts, Send(0, src));
    ss', acts' := Extend(c, ss', acts', SenderStep(0));
    assert ss'[|acts'|].senders == [SetFlag(src)];
    ss', acts' := Extend(c, ss', acts', SenderStep(0));
    ss', acts' := Extend(c, ss', acts', SenderStep(0));
    assert ss'[|acts'|] == State([TestWanted(src)], {src}, {SigPending}, true, true, 0, [], Poll(true), false, false);
    ss', acts' := Extend(c, ss', acts', SenderStep(0));
    ss', acts' := Extend(c, ss', acts', SenderStep(0));
  }

  lemma PollTimesOut(c: Config, ss: seq<State>, acts: seq<Action>) returns (ss': seq<State>, acts': seq<Action>)
    requires c.capacity > 0 && Run(c, ss, acts) && KeepsTokens(ss, acts)
    requires ss[|acts|] ==
      State([WritePipe(Signal(0))], {Signal(0)}, {SigPending}, false, true, 0, [], Poll(true), false, false)
    ensures Run(c, ss', acts') && KeepsTokens(ss', acts')
    ensures ss'[|acts'|] == State([Idle], {Signal(0)}, {SigPending}, false, false, 1, [], PrePoll, false, false)
  {
    var src := Signal(0);
    ss', acts' := Extend(c, ss, acts, PollReturn(false));
    assert ss'[|acts'|] == State([WritePipe(src)], {src}, {SigPending}, false, true, 0, [], ClearWanted, false, false);
    ss', acts' := Extend(c, ss', acts', LoopStep);
    assert ss'[|acts'|]
      == State([WritePipe(src)], {src}, {SigPending}, false, false, 0, [], FeedIfSkipped, false, false);
    ss', acts' := Extend(c, ss', acts', LoopStep);
    assert ss'[|acts'|] == State([WritePipe(src)], {src}, {SigPending}, false, false, 0, [], Callbacks, false, false);
    ss', acts' := Extend(c, ss', acts', LeaveCallbacks);
    ss', acts' := Extend(c, ss', acts', SenderStep(0));
  }

  /** Such a moment is reachable with one signal handler and one time-out. */
  lemma LostTokenReachable(c: Config) returns (ss: seq<State>, acts: seq<Action>)
    requires c.signals > 0 && c.capacity > 0
    ensures Run(c, ss, acts) && KeepsTokens(ss, acts)
    ensures Enabled(c, ss[|acts|], Refork) && LosesToken(ss[|acts|], Refork)
  {
    ss, acts := [State([Idle], {}, {}, false, false, 0, [], Callbacks, false, false)], [];
    ss, acts := Extend(c, ss, acts, LeaveCallbacks);
    assert ss[|acts|] == State([Idle], {}, {}, false, false, 0, [], PrePoll, false, false);
    ss, acts := Extend(c, ss, acts, SetWanted);
    assert ss[|acts|] == State([Idle], {}, {}, false, true, 0, [], TestSkipped, false, false);
    ss, acts := Extend(c, ss, acts, Decide(true));
    ss, acts := SendUntilWrite(c, ss, acts);
    ss, acts := PollTimesOut(c, ss, acts);
  }

  // ---------- every send is followed by a feed ----------

  /** This step queues the event for `src`. */
  predicate Feeds(c: Config, s: State, a: Action, src: Source) {
    a.LoopStep? && s.pc.ScanFeed? && s.pc.left < Count(c, s, s.pc.flag) && Entry(c, s, s.pc.flag, s.pc.left) == src
  }

  /** A notification for `src` is under way. */
  predicate Owed(c: Config, s: State, src: Source) {
    src in s.sent || Feeds(c, s, LoopStep, src)
  }

  lemma OwedStep(c: Config, s: State, a: Action, src: Source)
    requires LoopInOrder(c, s) && Enabled(c, s, a) && Active(c, s, src) && Owed(c, s, src)
    ensures Owed(c, Do(c, s, a), src) || Feeds(c, s, a, src)
  {}

  lemma {:induction false} OwedUntilFed(c: Config, ss: seq<State>, acts: seq<Action>, src: Source, i: nat, j: nat)
    requires Run(c, ss, acts) && i < j <= |acts| && acts[i].Send? && acts[i].src == src
    requires forall k :: i < k <= j ==> Active(c, ss[k], src)
    requires forall k :: i < k < j ==> !Feeds(c, ss[k], acts[k], src)
    ensures Owed(c, ss[j], src)
  {
    hide LoopInOrder, DistinctAsyncs, SendsHeld, SkipExplained, LoopDo, SenderDo, Feeds, Active, Init, Enabled;
    if j > i + 1 {
      OwedUntilFed(c, ss, acts, src, i, j - 1);
      InitInv(c, ss[0]);
      PathInv(c, ss, acts, j - 1);
      OwedStep(c, ss[j - 1], acts[j - 1], src);
    }
  }

  /** The protocol has come to rest: the loop is blocked on an empty pipe and every sender
      has returned. */
  ghost predicate AtRest(s: State) {
    s.pc == Poll(true) && s.pipe == 0 && forall k :: 0 <= k < |s.senders| ==> s.senders[k].Idle?
  }

  /** No lost send: whatever the interleaving, once the protocol has come to rest every send
      to a source that stayed active has been fed after that send. */
  lemma EverySendIsFed(c: Config, ss: seq<State>, acts: seq<Action>, src: Source, i: nat, j: nat)
    requires Run(c, ss, acts) && KeepsTokens(ss, acts)
    requires i < j <= |acts| && acts[i].Send? && acts[i].src == src
    requires forall k :: i < k <= j ==> Active(c, ss[k], src)
    requires AtRest(ss[j])
    ensures exists k :: i < k < j && Feeds(c, ss[k], acts[k], src)
  {
    if forall k :: i < k < j ==> !Feeds(c, ss[k], acts[k], src) {
      OwedUntilFed(c, ss, acts, src, i, j);
      InitInv(c, ss[0]);
      PathInv(c, ss, acts, j);
      assert SendHeld(c, ss[j], src);
      assert !SomeWaking(ss[j]) && !SomeAnnouncing(ss[j], src);
      NoLostWakeUp(c, ss, acts, j);
      assert false;
    }
  }

  // ---------- a send is fed within one round ----------

  /** The send of `src` has been announced: its flag is up, or the scan has yet to reach it, or it
      is about to be fed. */
  ghost predicate Announced(c: Config, s: State, src: Source) {
    || (src in s.sent && (FlagOf(src) in s.flags || YetToScan(c, s, src)))
    || Feeds(c, s, LoopStep, src)
  }

  lemma AnnouncedLoopStep(c: Config, s: State, src: Source)
    requires LoopInOrder(c, s) && Enabled(c, s, LoopStep) && Announced(c, s, src) && !Feeds(c, s, LoopStep, src)
    requires Active(c, s, src)
    ensures Announced(c, LoopDo(c, s), src)
  {
    var t := LoopDo(c, s);
    if src in t.sent {
      if YetToScan(c, s, src) {
        ScanStepHolds(c, s, src);
      } else if s.pc == Clear(FlagOf(src)) {
        assert YetToScan(c, t, src);
      }
    }
  }

  /** It stays announced until it is fed. */
  lemma AnnouncedStep(c: Config, s: State, a: Action, src: Source)
    requires LoopInOrder(c, s) && Enabled(c, s, a) && Announced(c, s, src) && !Feeds(c, s, a, src)
    requires Active(c, s, src) && Active(c, Do(c, s, a), src)
    ensures Announced(c, Do(c, s, a), src)
  {
    match a
    case LoopStep => AnnouncedLoopStep(c, s, src);
    case SenderStep(i) =>
    case Send(i, src0) =>
    case _ => assert !ScanPc(s.pc);
  }

  /** A sender of `src` that has not raised the flag yet. */
  ghost predicate Announcing(s: State, i: nat, src: Source) {
    i < |s.senders| && s.senders[i] in {TestFlag(src), SetFlag(src)}
  }

  lemma AnnouncingStep(c: Config, s: State, a: Action, i: nat, src: Source)
    requires LoopInOrder(c, s) && Enabled(c, s, a) && Announcing(s, i, src) && Owed(c, s, src) && !Feeds(c, s, a, src)
    ensures Announcing(Do(c, s, a), i, src) || Announced(c, Do(c, s, a), src)
  {}

  lemma SendAnnounces(c: Config, s: State, a: Action)
    requires a.Send? && Enabled(c, s, a)
    ensures Announcing(Do(c, s, a), a.i, a.src)
  {}

  lemma {:induction false} AnnouncedUntilFed(c: Config, ss: seq<State>, acts: seq<Action>, src: Source, i: nat, j: nat)
    requires Run(c, ss, acts) && i < j <= |acts| && acts[i].Send? && acts[i].src == src
    requires forall k :: i < k <= j ==> Active(c, ss[k], src)
    requires forall k :: i < k < j ==> !Feeds(c, ss[k], acts[k], src)
    ensures Announcing(ss[j], acts[i].i, src) || Announced(c, ss[j], src)
  {
    hide LoopInOrder, DistinctAsyncs, SendsHeld, SkipExplained, LoopDo, SenderDo, Feeds, Active, Init, Enabled, Owed;
    if j == i + 1 {
      SendAnnounces(c, ss[i], acts[i]);
    } else {
      AnnouncedUntilFed(c, ss, acts, src, i, j - 1);
      InitInv(c, ss[0]);
      PathInv(c, ss, acts, j - 1);
      OwedUntilFed(c, ss, acts, src, i, j - 1);
      if Announced(c, ss[j - 1], src) {
        assert ss[j] == Do(c, ss[j - 1], acts[j - 1]) && Active(c, ss[j], src);
        AnnouncedStep(c, ss[j - 1], acts[j - 1], src);
      } else {
        AnnouncingStep(c, ss[j - 1], acts[j - 1], acts[i].i, src);
      }
    }
  }

  lemma {:induction false} StaysAnnounced(c: Config, ss: seq<State>, acts: seq<Action>, src: Source, i: nat, j: nat)
    requires Run(c, ss, acts) && i <= j <= |acts| && Announced(c, ss[i], src)
    requires forall k :: i <= k <= j ==> Active(c, ss[k], src)
    requires forall k :: i <= k < j ==> !Feeds(c, ss[k], acts[k], src)
    ensures Announced(c, ss[j], src)
  {
    hide LoopInOrder, DistinctAsyncs, SendsHeld, SkipExplained, LoopDo, SenderDo, Feeds, Active, Init, Enabled;
    hide Announced;
    if j > i {
      StaysAnnounced(c, ss, acts, src, i, j - 1);
      InitInv(c, ss[0]);
      PathInv(c, ss, acts, j - 1);
      assert ss[j] == Do(c, ss[j - 1], acts[j - 1]) && Active(c, ss[j], src);
      AnnouncedStep(c, ss[j - 1], acts[j - 1], src);
    }
  }

  /** The loop will look at `src` before it next leaves its callbacks. */
  ghost predicate Caught(c: Config, s: State, src: Source) {
    || s.readPending || s.customPending
    || (FlagOf(src) in s.flags && WillTest(s.pc, FlagOf(src)))
    || YetToScan(c, s, src)
    || Feeds(c, s, LoopStep, src)
  }

  lemma CaughtLoopStep(c: Config, s: State, src: Source)
    requires LoopInOrder(c, s) && Enabled(c, s, LoopStep) && Announced(c, s, src) && Caught(c, s, src)
    requires Active(c, s, src) && !Feeds(c, s, LoopStep, src)
    ensures Caught(c, LoopDo(c, s), src)
  {
    var t := LoopDo(c, s);
    if !s.readPending && !s.customPending {
      if YetToScan(c, s, src) {
        if src in t.sent {
          ScanStepHolds(c, s, src);
        }
      } else if s.pc == Clear(FlagOf(src)) {
        assert YetToScan(c, t, src);
      }
    }
  }

  lemma CaughtStep(c: Config, s: State, a: Action, src: Source)
    requires LoopInOrder(c, s) && Enabled(c, s, a) && Announced(c, s, src) && Caught(c, s, src)
    requires Active(c, s, src) && Active(c, Do(c, s, a), src) && !Feeds(c, s, a, src)
    ensures Caught(c, Do(c, s, a), src)
  {
    match a
    case LoopStep => CaughtLoopStep(c, s, src);
    case InvokePipeCb => assert WillTest(Do(c, s, a).pc, FlagOf(src));
    case _ =>
  }

  lemma {:induction false} StaysCaught(c: Config, ss: seq<State>, acts: seq<Action>, src: Source, i: nat, j: nat)
    requires Run(c, ss, acts) && i <= j <= |acts| && Announced(c, ss[i], src) && Caught(c, ss[i], src)
    requires forall k :: i <= k <= j ==> Active(c, ss[k], src)
    requires forall k :: i <= k < j ==> !Feeds(c, ss[k], acts[k], src)
    ensures Caught(c, ss[j], src)
  {
    hide LoopInOrder, DistinctAsyncs, SendsHeld, SkipExplained, LoopDo, SenderDo, Feeds, Active, Init, Enabled;
    hide Announced, Caught;
    if j > i {
      StaysCaught(c, ss, acts, src, i, j - 1);
      StaysAnnounced(c, ss, acts, src, i, j - 1);
      InitInv(c, ss[0]);
      PathInv(c, ss, acts, j - 1);
      assert ss[j] == Do(c, ss[j - 1], acts[j - 1]) && Active(c, ss[j], src);
      CaughtStep(c, ss[j - 1], acts[j - 1], src);
    }
  }

  /** One round is enough, also for a loop that never blocks: once its sender is past raising the
      flag, a send is fed before the loop, whose poll has then found the pipe readable, next
      leaves its callbacks. */
  lemma FedWithinRound(c: Config, ss: seq<State>, acts: seq<Action>, src: Source, i: nat, r: nat, j: nat, m: nat)
    requires Run(c, ss, acts) && i < r <= j < m < |acts| && acts[i].Send? && acts[i].src == src
    requires !Announcing(ss[r], acts[i].i, src)
    requires acts[j] == PollReturn(true) && acts[m] == LeaveCallbacks
    requires forall k :: i < k <= m ==> Active(c, ss[k], src)
    ensures exists k :: i < k < m && Feeds(c, ss[k], acts[k], src)
  {
    if forall k :: i < k < m ==> !Feeds(c, ss[k], acts[k], src) {
      AnnouncedUntilFed(c, ss, acts, src, i, r);
      StaysAnnounced(c, ss, acts, src, r, j + 1);
      assert ss[j + 1].readPending;
      StaysCaught(c, ss, acts, src, j + 1, m);
      assert false;
    }
  }

  // ---------- the round of a poll that did not report the pipe ----------

  /** After the poll returned in step `j`, step `q` is the one that reads `skipped`. */
  ghost predicate ReadsSkip(ss: seq<State>, acts: seq<Action>, j: nat, q: nat) {
    && j < q < |acts| < |ss| && acts[q].LoopStep? && ss[q].pc.FeedIfSkipped?
    && (forall k :: j < k <= q ==> ss[k].pc.ClearWanted? || ss[k].pc.FeedIfSkipped?)
  }

  lemma BeforeSkipRead(c: Config, s: State, a: Action)
    requires Enabled(c, s, a) && (s.pc.ClearWanted? || s.pc.FeedIfSkipped?)
    ensures a.LoopStep? || Do(c, s, a).pc == s.pc
    ensures a.LoopStep? && s.pc.ClearWanted? ==> Do(c, s, a).pc.FeedIfSkipped?
    ensures !(a.LoopStep? && s.pc.FeedIfSkipped?) ==>
              Do(c, s, a).readPending == s.readPending && Do(c, s, a).customPending == s.customPending
  {}

  lemma {:induction false} SkipReadFrom(c: Config, ss: seq<State>, acts: seq<Action>, j: nat, k: nat, m: nat)
    returns (q: nat)
    requires Path(c, ss, acts) && j < k <= m < |acts| && acts[m] == LeaveCallbacks
    requires forall l :: j < l <= k ==> ss[l].pc.ClearWanted? || ss[l].pc.FeedIfSkipped?
    ensures k <= q < m && ReadsSkip(ss, acts, j, q)
    decreases m - k
  {
    hide LoopDo, SenderDo, Do;
    assert Enabled(c, ss[k], acts[k]);
    BeforeSkipRead(c, ss[k], acts[k]);
    if acts[k].LoopStep? && ss[k].pc.FeedIfSkipped? {
      q := k;
    } else {
      q := SkipReadFrom(c, ss, acts, j, k + 1, m);
    }
  }

  /** Every round reads `skipped` on its way from the poll to the callbacks. */
  lemma RoundReadsSkip(c: Config, ss: seq<State>, acts: seq<Action>, j: nat, m: nat) returns (q: nat)
    requires Path(c, ss, acts) && j < m < |acts| && acts[j].PollReturn? && acts[m] == LeaveCallbacks
    ensures q < m && ReadsSkip(ss, acts, j, q)
  {
    q := SkipReadFrom(c, ss, acts, j, j + 1, m);
  }

  /** The event of the pipe is pending after the loop has read `skipped` up. */
  lemma FeedsPipeIfSkipped(c: Config, s: State)
    requires s.pc.FeedIfSkipped?
    ensures var t := Do(c, s, LoopStep);
      t.pc.Callbacks? && t.readPending == s.readPending && (t.customPending <==> s.customPending || s.skipped)
  {}

  /** What the loop knows of the pipe does not change before it reads `skipped`. */
  lemma {:induction false} PendingUntilSkipRead(c: Config, ss: seq<State>, acts: seq<Action>, j: nat, q: nat, k: nat)
    requires Path(c, ss, acts) && ReadsSkip(ss, acts, j, q) && j < k <= q
    ensures ss[k].readPending == ss[j + 1].readPending && ss[k].customPending == ss[j + 1].customPending
  {
    hide LoopDo, SenderDo, Do;
    if k > j + 1 {
      PendingUntilSkipRead(c, ss, acts, j, q, k - 1);
      assert Enabled(c, ss[k - 1], acts[k - 1]) && ss[k] == Do(c, ss[k - 1], acts[k - 1]);
      BeforeSkipRead(c, ss[k - 1], acts[k - 1]);
      if acts[k - 1].LoopStep? && ss[k - 1].pc.FeedIfSkipped? {
        assert ss[k].pc.Callbacks? by { FeedsPipeIfSkipped(c, ss[k - 1]); }
      }
    }
  }

  /** Callbacks with no event of the pipe pending scan nothing. */
  predicate Unaware(s: State) {
    s.pc.Callbacks? && !s.readPending && !s.customPending
  }

  lemma UnawareStep(c: Config, s: State, a: Action)
    requires Unaware(s) && Enabled(c, s, a) && a != LeaveCallbacks
    ensures Unaware(Do(c, s, a))
  {}

  lemma {:induction false} StaysUnaware(c: Config, ss: seq<State>, acts: seq<Action>, i: nat, j: nat)
    requires Path(c, ss, acts) && i <= j <= |acts| && Unaware(ss[i])
    requires forall k :: i <= k < j ==> acts[k] != LeaveCallbacks
    ensures Unaware(ss[j])
  {
    hide Enabled, Do, Unaware;
    if j > i {
      StaysUnaware(c, ss, acts, i, j - 1);
      assert ss[j] == Do(c, ss[j - 1], acts[j - 1]);
      UnawareStep(c, ss[j - 1], acts[j - 1]);
    }
  }

  /** The loop has been told of the pipe by the poll, by a re-created pipe, or by `skipped`. */
  predicate Told(ss: seq<State>, acts: seq<Action>, j: nat, q: nat)
    requires j < q < |acts| < |ss| && acts[j].PollReturn?
  {
    acts[j].readable || ss[j].customPending || ss[q].skipped
  }

  lemma AfterSkipRead(c: Config, ss: seq<State>, acts: seq<Action>, j: nat, q: nat)
    requires Run(c, ss, acts) && ReadsSkip(ss, acts, j, q) && acts[j].PollReturn?
    ensures ss[q + 1].pc.Callbacks?
    ensures Told(ss, acts, j, q) <==> ss[q + 1].readPending || ss[q + 1].customPending
  {
    hide LoopDo, SenderDo, Init;
    InitInv(c, ss[0]);
    PathInv(c, ss, acts, j);
    assert Enabled(c, ss[j], acts[j]) && ss[j + 1] == Do(c, ss[j], acts[j]);
    PendingUntilSkipRead(c, ss, acts, j, q, q);
    assert ss[q + 1] == Do(c, ss[q], acts[q]);
    FeedsPipeIfSkipped(c, ss[q]);
  }

  lemma ToldFeeds(c: Config, ss: seq<State>, acts: seq<Action>, src: Source, j: nat, q: nat, m: nat)
    requires Run(c, ss, acts) && ReadsSkip(ss, acts, j, q) && q < m < |acts|
    requires acts[j].PollReturn? && acts[m] == LeaveCallbacks && Announced(c, ss[j], src)
    requires forall k :: j <= k <= m ==> Active(c, ss[k], src)
    requires Told(ss, acts, j, q)
    ensures exists k :: j <= k < m && Feeds(c, ss[k], acts[k], src)
  {
    if forall k :: j <= k < m ==> !Feeds(c, ss[k], acts[k], src) {
      AfterSkipRead(c, ss, acts, j, q);
      StaysAnnounced(c, ss, acts, src, j, q + 1);
      StaysCaught(c, ss, acts, src, q + 1, m);
      assert false;
    }
  }

  lemma UntoldFeedsNothing(c: Config, ss: seq<State>, acts: seq<Action>, src: Source, j: nat, q: nat, m: nat, k: nat)
    requires Run(c, ss, acts) && ReadsSkip(ss, acts, j, q) && j <= k < m < |acts|
    requires acts[j].PollReturn? && forall l :: j < l < m ==> acts[l] != LeaveCallbacks
    requires !Told(ss, acts, j, q)
    ensures !Feeds(c, ss[k], acts[k], src)
  {
    if k > q {
      AfterSkipRead(c, ss, acts, j, q);
      StaysUnaware(c, ss, acts, q + 1, k);
    }
  }

  /** Which rounds feed: a send that its sender has announced and that has not been fed yet is fed
      between the poll in step `j` and the next `LeaveCallbacks` exactly when the loop has been told
      of the pipe: the poll found it readable, it has been re-created, or step `q` finds
      `pipe_write_skipped` set. */
  lemma FedInRoundIff(c: Config, ss: seq<State>, acts: seq<Action>, src: Source, i: nat, r: nat, j: nat, q: nat, m: nat)
    requires Run(c, ss, acts) && i < r <= j && ReadsSkip(ss, acts, j, q) && q < m < |acts|
    requires acts[i].Send? && acts[i].src == src && !Announcing(ss[r], acts[i].i, src)
    requires acts[j].PollReturn? && acts[m] == LeaveCallbacks && forall k :: j < k < m ==> acts[k] != LeaveCallbacks
    requires forall k :: i < k <= m ==> Active(c, ss[k], src)
    requires forall k :: i < k < j ==> !Feeds(c, ss[k], acts[k], src)
    ensures (exists k :: j <= k < m && Feeds(c, ss[k], acts[k], src))
      <==> acts[j].readable || ss[j].customPending || ss[q].skipped
  {
    if Told(ss, acts, j, q) {
      AnnouncedUntilFed(c, ss, acts, src, i, r);
      StaysAnnounced(c, ss, acts, src, r, j);
      ToldFeeds(c, ss, acts, src, j, q, m);
    } else {
      forall k | j <= k < m ensures !Feeds(c, ss[k], acts[k], src) {
        UntoldFeedsNothing(c, ss, acts, src, j, q, m, k);
      }
    }
  }

  /** A sender takes `skipped` back, to write into the pipe instead. */
  predicate TakesSkipBack(s: State, a: Action) {
    a.SenderStep? && a.i < |s.senders| && s.senders[a.i].ClearSkipped?
  }

  lemma PollReturnTakesNothing(s: State, a: Action)
    requires a.PollReturn?
    ensures !TakesSkipBack(s, a)
  {}

  lemma SkipKept(c: Config, s: State, a: Action)
    requires Enabled(c, s, a) && s.skipped && !TakesSkipBack(s, a)
    requires a.PollReturn? || s.pc.ClearWanted? || s.pc.FeedIfSkipped?
    ensures Do(c, s, a).skipped
  {}

  lemma {:induction false} SkipStays(c: Config, ss: seq<State>, acts: seq<Action>, j: nat, q: nat, k: nat)
    requires Path(c, ss, acts) && ReadsSkip(ss, acts, j, q) && j <= k <= q && acts[j].PollReturn? && ss[j].skipped
    requires forall l :: j < l < q ==> !TakesSkipBack(ss[l], acts[l])
    ensures ss[k].skipped
  {
    hide Enabled, Do, TakesSkipBack;
    if k > j {
      SkipStays(c, ss, acts, j, q, k - 1);
      assert Enabled(c, ss[k - 1], acts[k - 1]) && ss[k] == Do(c, ss[k - 1], acts[k - 1]);
      assert k - 1 > j ==> !TakesSkipBack(ss[k - 1], acts[k - 1]);
      if k - 1 == j {
        PollReturnTakesNothing(ss[j], acts[j]);
      }
      SkipKept(c, ss[k - 1], acts[k - 1]);
    }
  }

  /** A skip is fed within its round, whatever the poll reported: `skipped` is up when the poll
      returns and no sender takes it back before the loop reads it. */
  lemma SkipFedWithinRound(c: Config, ss: seq<State>, acts: seq<Action>, src: Source,
                           i: nat, r: nat, j: nat, q: nat, m: nat)
    requires Run(c, ss, acts) && i < r <= j && ReadsSkip(ss, acts, j, q) && q < m < |acts|
    requires acts[i].Send? && acts[i].src == src && !Announcing(ss[r], acts[i].i, src)
    requires acts[j].PollReturn? && acts[m] == LeaveCallbacks
    requires forall k :: i < k <= m ==> Active(c, ss[k], src)
    requires ss[j].skipped && forall k :: j < k < q ==> !TakesSkipBack(ss[k], acts[k])
    ensures exists k :: i < k < m && Feeds(c, ss[k], acts[k], src)
  {
    if forall k :: i < k < j ==> !Feeds(c, ss[k], acts[k], src) {
      AnnouncedUntilFed(c, ss, acts, src, i, r);
      StaysAnnounced(c, ss, acts, src, r, j);
      SkipStays(c, ss, acts, j, q, q);
      ToldFeeds(c, ss, acts, src, j, q, m);
    }
  }

  /** A round misses an announced send only if a token for it is still on its way: it is in the
      pipe, unreported by the poll, or a sender is bound to leave one behind. */
  lemma FedOnceSendersReturn(c: Config, ss: seq<State>, acts: seq<Action>, src: Source,
                             i: nat, r: nat, j: nat, q: nat, m: nat)
    requires Run(c, ss, acts) && KeepsTokens(ss, acts)
    requires i < r <= j && ReadsSkip(ss, acts, j, q) && q < m < |acts|
    requires acts[i].Send? && acts[i].src == src && !Announcing(ss[r], acts[i].i, src)
    requires acts[j].PollReturn? && acts[m] == LeaveCallbacks
    requires forall k :: i < k <= m ==> Active(c, ss[k], src)
    requires (acts[j].readable || ss[q].pipe == 0) && !SomeCommitted(ss[q])
    ensures exists k :: i < k < m && Feeds(c, ss[k], acts[k], src)
  {
    if forall k :: i < k < q ==> !Feeds(c, ss[k], acts[k], src) {
      AnnouncedUntilFed(c, ss, acts, src, i, r);
      StaysAnnounced(c, ss, acts, src, r, j);
      StaysAnnounced(c, ss, acts, src, j, q);
      InitInv(c, ss[0]);
      PathCovered(c, ss, acts, j);
      PathCovered(c, ss, acts, q);
      PendingUntilSkipRead(c, ss, acts, j, q, q);
      assert ss[j + 1] == Do(c, ss[j], acts[j]);
      assert Covered(ss[q], FlagOf(src));
      ToldFeeds(c, ss, acts, src, j, q, m);
    }
  }

  /** Also a re-creation of the pipe makes up, in its round, for the tokens it has thrown away. */
  lemma ReforkFedWithinRound(c: Config, ss: seq<State>, acts: seq<Action>, src: Source,
                             i: nat, r: nat, j: nat, m: nat)
    requires Run(c, ss, acts) && i < r <= j < m < |acts|
    requires acts[i].Send? && acts[i].src == src && !Announcing(ss[r], acts[i].i, src)
    requires acts[j] == Refork && acts[m] == LeaveCallbacks
    requires forall k :: i < k <= m ==> Active(c, ss[k], src)
    ensures exists k :: i < k < m && Feeds(c, ss[k], acts[k], src)
  {
    if forall k :: i < k < m ==> !Feeds(c, ss[k], acts[k], src) {
      AnnouncedUntilFed(c, ss, acts, src, i, r);
      StaysAnnounced(c, ss, acts, src, r, j + 1);
      StaysCaught(c, ss, acts, src, j + 1, m);
      assert false;
    }
  }

  lemma SeesRaisedFlag(c: Config, ss: seq<State>, acts: seq<Action>) returns (ss': seq<State>, acts': seq<Action>)
    requires c.signals > 0 && Run(c, ss, acts) && KeepsTokens(ss, acts) && acts == []
    requires ss[0] == State([Idle, Idle], {}, {}, false, false, 0, [], Callbacks, false, false)
    ensures Run(c, ss', acts') && KeepsTokens(ss', acts') && |acts'| == 5 && acts'[3] == Send(1, Signal(0))
    ensures ss'[5] == State([SetSkipped(Signal(0)), Idle], {Signal(0)}, {SigPending}, false, false, 0, [],
                            Callbacks, false, false)
  {
    var src := Signal(0);
    ss', acts' := Extend(c, ss, acts, Send(0, src));
    ss', acts' := Extend(c, ss', acts', SenderStep(0));
    assert ss'[2].senders == [SetFlag(src), Idle];
    ss', acts' := Extend(c, ss', acts', SenderStep(0));
    ss', acts' := Extend(c, ss', acts', Send(1, src));
    assert ss'[4].senders == [SetSkipped(src), TestFlag(src)];
    ss', acts' := Extend(c, ss', acts', SenderStep(1));
  }

  /** A loop with nothing to scan goes to the poll, and comes back empty-handed. */
  lemma PollsInVain(c: Config, ss: seq<State>, acts: seq<Action>) returns (ss': seq<State>, acts': seq<Action>)
    requires Run(c, ss, acts) && KeepsTokens(ss, acts) && |ss| == |acts| + 1
    requires Unaware(ss[|acts|]) && !ss[|acts|].skipped
    ensures Run(c, ss', acts') && KeepsTokens(ss', acts') && ss <= ss' && |ss'| == |acts'| + 1
    ensures acts' == acts + [LeaveCallbacks, SetWanted, Decide(false), PollReturn(false)]
    ensures ss'[|acts'|] == ss[|acts|].(pc := ClearWanted, wanted := true)
    ensures forall k :: |ss| <= k < |ss'| ==> !ss'[k].pc.ScanFeed?
  {
    hide SenderDo, LoopDo, Init, KeepsTokens, Path;
    var s := ss[|acts|];
    ss', acts' := Extend(c, ss, acts, LeaveCallbacks);
    assert ss'[|acts'|] == s.(pc := PrePoll);
    ss', acts' := Extend(c, ss', acts', SetWanted);
    assert ss'[|acts'|] == s.(pc := TestSkipped, wanted := true);
    ss', acts' := Extend(c, ss', acts', Decide(false));
    assert ss'[|acts'|] == s.(pc := Poll(false), wanted := true);
    ss', acts' := Extend(c, ss', acts', PollReturn(false));
  }

  /** Nothing has been skipped, so it leaves its callbacks again. */
  lemma LeavesUnaware(c: Config, ss: seq<State>, acts: seq<Action>) returns (ss': seq<State>, acts': seq<Action>)
    requires Run(c, ss, acts) && KeepsTokens(ss, acts) && |ss| == |acts| + 1
    requires var s := ss[|acts|];
      s.pc.ClearWanted? && !s.skipped && !s.readPending && !s.customPending
    ensures Run(c, ss', acts') && KeepsTokens(ss', acts') && ss <= ss' && |ss'| == |acts'| + 1
    ensures acts' == acts + [LoopStep, LoopStep, LeaveCallbacks]
    ensures forall k :: |ss| <= k < |ss'| ==> !ss'[k].pc.ScanFeed?
  {
    hide SenderDo, Init, KeepsTokens, Path;
    var s := ss[|acts|];
    ss', acts' := Extend(c, ss, acts, LoopStep);
    assert ss'[|acts'|] == s.(pc := FeedIfSkipped, wanted := false);
    ss', acts' := Extend(c, ss', acts', LoopStep);
    assert ss'[|acts'|] == s.(pc := Callbacks, wanted := false);
    ss', acts' := Extend(c, ss', acts', LeaveCallbacks);
  }

  /** Such a round is reachable: a second signal finds the flag up and returns, while the first,
      which raised it, has yet to say so; the round that follows feeds neither. */
  lemma RoundMissesSend(c: Config) returns (ss: seq<State>, acts: seq<Action>)
    requires c.signals > 0 && c.capacity > 0
    ensures Run(c, ss, acts) && KeepsTokens(ss, acts) && |acts| == 12
    ensures acts[3] == Send(1, Signal(0)) && |ss[5].senders| == 2 && ss[5].senders[1].Idle?
    ensures acts[8] == PollReturn(false) && acts[11] == LeaveCallbacks
    ensures forall k :: 5 <= k < 12 ==> !Feeds(c, ss[k], acts[k], Signal(0))
  {
    hide Enabled, Do, KeepsTokens;
    ss, acts := SeesRaisedFlag(c, [State([Idle, Idle], {}, {}, false, false, 0, [], Callbacks, false, false)], []);
    ghost var s := ss[5];
    assert !s.pc.ScanFeed?;
    ss, acts := PollsInVain(c, ss, acts);
    assert ss[5] == s;
    ss, acts := LeavesUnaware(c, ss, acts);
    assert ss[5] == s;
  }

  // ---------- no spinning ----------

  /** `pipecb` has been called, and the loop has not gone to the poll again. */
  predicate PipeHandled(s: State) {
    && !s.readPending && !s.customPending
    && !Waiting(s.pc) && !s.pc.ClearWanted? && !s.pc.FeedIfSkipped?
  }

  lemma PipeHandledStep(c: Config, s: State, a: Action)
    requires PipeHandled(s) && Enabled(c, s, a) && a != LeaveCallbacks
    ensures PipeHandled(Do(c, s, a))
  {}

  lemma {:induction false} StaysHandled(c: Config, ss: seq<State>, acts: seq<Action>, i: nat, j: nat)
    requires Path(c, ss, acts) && i <= j <= |acts| && PipeHandled(ss[i])
    requires forall k :: i <= k < j ==> acts[k] != LeaveCallbacks
    ensures PipeHandled(ss[j])
  {
    hide Enabled, Do, PipeHandled;
    if j > i {
      StaysHandled(c, ss, acts, i, j - 1);
      assert ss[j] == Do(c, ss[j - 1], acts[j - 1]);
      PipeHandledStep(c, ss[j - 1], acts[j - 1]);
    }
  }

  /** The event of the pipe is invoked at most once a round. */
  lemma OnePipeCbPerRound(c: Config, ss: seq<State>, acts: seq<Action>, i: nat, j: nat)
    requires Path(c, ss, acts) && i < j < |acts| && acts[i] == InvokePipeCb && acts[j] == InvokePipeCb
    ensures exists k :: i < k < j && acts[k] == LeaveCallbacks
  {
    if forall k :: i < k < j ==> acts[k] != LeaveCallbacks {
      assert ss[i + 1] == Do(c, ss[i], acts[i]);
      StaysHandled(c, ss, acts, i + 1, j);
      assert false;
    }
  }

  /** What one `read` of `pipecb` leaves of `n` tokens. */
  function Unread(c: Config, n: nat): nat {
    if c.eventfd || n <= 4 then 0 else n - 4
  }

  /** Of the `n` tokens that the poll reported, `pipecb` is yet to read, or has read. */
  predicate Draining(c: Config, s: State, n: nat) {
    && (s.pipe == n || s.pipe == Unread(c, n))
    && (s.pipe != Unread(c, n) ==> s.readPending || s.pc.ReadPipe?)
    && (s.readPending || s.pc.ReadPipe? ==> s.pipe == n)
    && (s.readPending ==> s.pc.Callbacks? || s.pc.ClearWanted? || s.pc.FeedIfSkipped?)
    && (Waiting(s.pc) ==> !s.readPending && !s.customPending)
    && (s.skipped ==> s.readPending || s.customPending || s.pc.ClearWanted? || s.pc.FeedIfSkipped?
                      || s.pc.ReadPipe? || s.pc.ClearSkip?)
  }

  lemma DrainingStep(c: Config, s: State, a: Action, n: nat)
    requires Draining(c, s, n) && Enabled(c, s, a)
    requires !a.SenderStep? && !a.Refork? && !a.PollReturn?
    ensures Draining(c, Do(c, s, a), n)
  {}

  lemma {:induction false} StaysDraining(c: Config, ss: seq<State>, acts: seq<Action>, n: nat, i: nat, j: nat)
    requires Path(c, ss, acts) && i <= j <= |acts| && Draining(c, ss[i], n)
    requires forall k :: i <= k < j ==> !acts[k].SenderStep? && !acts[k].Refork? && !acts[k].PollReturn?
    ensures Draining(c, ss[j], n)
  {
    hide Enabled, Do, Draining;
    if j > i {
      StaysDraining(c, ss, acts, n, i, j - 1);
      assert ss[j] == Do(c, ss[j - 1], acts[j - 1]);
      DrainingStep(c, ss[j - 1], acts[j - 1], n);
    }
  }

  /** The loop does not spin: when no sender moves between a truthful poll and the next decision to
      block, the tokens have been read, nothing is left of a skip, and the loop does block. */
  lemma SleepsWhenQuiet(c: Config, ss: seq<State>, acts: seq<Action>, j: nat, d: nat)
    requires Run(c, ss, acts) && j < d < |acts| && acts[j].PollReturn? && acts[d] == Decide(true)
    requires acts[j].readable <==> ss[j].pipe > 0
    requires forall k :: j < k < d ==> !acts[k].SenderStep? && !acts[k].Refork? && !acts[k].PollReturn?
    ensures ss[d].pipe == (if c.eventfd || ss[j].pipe <= 4 then 0 else ss[j].pipe - 4)
    ensures !ss[d].skipped && ss[d + 1].pc == Poll(true)
  {
    hide LoopDo, SenderDo, Init;
    InitInv(c, ss[0]);
    PathInv(c, ss, acts, j);
    PathInv(c, ss, acts, d);
    assert ss[j + 1] == Do(c, ss[j], acts[j]) && ss[d + 1] == Do(c, ss[d], acts[d]);
    StaysDraining(c, ss, acts, ss[j].pipe, j + 1, d);
    assert Enabled(c, ss[d], acts[d]);
  }

  /** A sender goes on to write only while the loop is about to poll, polls, or has just polled. */
  lemma WritesOnlyAroundPoll(c: Config, ss: seq<State>, acts: seq<Action>, k: nat)
    requires Run(c, ss, acts) && k < |acts| && acts[k].SenderStep?
    requires acts[k].i < |ss[k].senders| && ss[k].senders[acts[k].i].TestWanted?
    requires acts[k].i < |ss[k + 1].senders| && !ss[k + 1].senders[acts[k].i].Idle?
    ensures ss[k].pc.TestSkipped? || ss[k].pc.Poll? || ss[k].pc.ClearWanted?
  {
    hide Init;
    InitInv(c, ss[0]);
    PathInv(c, ss, acts, k);
    assert Enabled(c, ss[k], acts[k]) && ss[k + 1] == Do(c, ss[k], acts[k]);
  }

  // ---------- no spurious feed ----------

  function Debt(c: Config, s: State, src: Source): nat {
    (if src in s.sent then 1 else 0) + (if Feeds(c, s, LoopStep, src) then 1 else 0)
  }

  function SendCount(acts: seq<Action>, src: Source, n: nat): nat
    requires n <= |acts|
  {
    if n == 0 then 0
    else SendCount(acts, src, n - 1) + (if acts[n - 1].Send? && acts[n - 1].src == src then 1 else 0)
  }

  function FeedCount(c: Config, ss: seq<State>, acts: seq<Action>, src: Source, n: nat): nat
    requires |ss| == |acts| + 1 && n <= |acts|
  {
    if n == 0 then 0
    else FeedCount(c, ss, acts, src, n - 1) + (if Feeds(c, ss[n - 1], acts[n - 1], src) then 1 else 0)
  }

  lemma DebtStep(c: Config, s: State, a: Action, src: Source)
    requires LoopInOrder(c, s) && Enabled(c, s, a)
    ensures Debt(c, Do(c, s, a), src) + (if Feeds(c, s, a, src) then 1 else 0)
         <= Debt(c, s, src) + (if a.Send? && a.src == src then 1 else 0)
  {}

  /** No spurious feed: over any run a source is fed at most as often as it is sent. */
  lemma {:induction false} FeedsNeverExceedSends(c: Config, ss: seq<State>, acts: seq<Action>, src: Source, n: nat)
    requires Run(c, ss, acts) && n <= |acts|
    ensures FeedCount(c, ss, acts, src, n) + Debt(c, ss[n], src) <= SendCount(acts, src, n)
  {
    if n > 0 {
      FeedsNeverExceedSends(c, ss, acts, src, n - 1);
      InitInv(c, ss[0]);
      PathInv(c, ss, acts, n - 1);
      DebtStep(c, ss[n - 1], acts[n - 1], src);
    }
  }
}
