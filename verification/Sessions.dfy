/** Session accounting and shutdown in `milter-client.c`, with accepting and processing on one event
    loop, as a state machine. One event is one thing the loop runs to completion: an accepted
    connection, an idle source, a "finished" signal. A shutdown may come from a signal handler at
    any time. */
module Sessions {
  import opened Options
  import opened Maintenance

  /** A `MilterClientProcessData` with its context. */
  type Session = nat

  datatype Signal = ConnectionEstablished(session: Session) | SessionsFinished(n: nat) | Maintain

  /** `single_thread_single_loop_run` sets a connection up in the accept callback, `run_worker` in an
      idle source. */
  datatype Mode = SingleLoop | Worker

  datatype Config = Config(mode: Mode, maxConnections: nat, maxPending: nat, interval: nat)

  // ---------- lists ----------

  predicate NoDuplicates(s: seq<Session>) {
    forall i, j :: 0 <= i < j < |s| ==> s[i] != s[j]
  }

  /** `g_list_remove`: the first link with the data goes. */
  function ListRemove(s: seq<Session>, x: Session): (r: seq<Session>) {
    if s == [] then [] else if s[0] == x then s[1..] else [s[0]] + ListRemove(s[1..], x)
  }

  lemma {:induction false} ListRemoveOnce(s: seq<Session>, x: Session)
    requires NoDuplicates(s) && x in s
    ensures |ListRemove(s, x)| == |s| - 1 && NoDuplicates(ListRemove(s, x))
    ensures forall y :: y in ListRemove(s, x) <==> y in s && y != x
  {
    if s[0] != x {
      var rest := ListRemove(s[1..], x);
      assert x in s[1..];
      ListRemoveOnce(s[1..], x);
      assert s == [s[0]] + s[1..];
      assert s[0] !in s[1..];
      assert s[0] !in rest;
    } else {
      assert s == [s[0]] + s[1..];
      assert s[0] !in s[1..];
    }
  }

  function Reported(log: seq<Signal>): nat {
    if log == [] then 0
    else Reported(log[..|log| - 1]) + (var last := log[|log| - 1]; if last.SessionsFinished? then last.n else 0)
  }

  lemma {:induction false} SubsetSize(xs: seq<Session>, ys: seq<Session>)
    requires NoDuplicates(xs) && NoDuplicates(ys) && forall x <- xs :: x in ys
    ensures |xs| <= |ys|
  {
    if xs != [] {
      var rest := ListRemove(ys, xs[0]);
      ListRemoveOnce(ys, xs[0]);
      assert xs == [xs[0]] + xs[1..] && xs[0] !in xs[1..];
      SubsetSize(xs[1..], rest);
    }
  }

  lemma ReportedBatch(log: seq<Signal>, signals: seq<Signal>, n: nat)
    requires signals == [SessionsFinished(n)] || signals == [SessionsFinished(n), Maintain]
    ensures Reported(log + signals) == Reported(log) + n
  {
    var once := log + [SessionsFinished(n)];
    assert once[..|log|] == log;
    if |signals| == 2 {
      assert (log + signals)[..|log| + 1] == once;
    } else {
      assert log + signals == once;
    }
  }

  // ---------- the state ----------

  /** `pendingSetups` connections wait for their idle source; the "finished" handlers of `handlers`
      are connected; `finished` is NULL in C when empty; `finisher` is the idle source of the finisher
      with the session it was given; `suspended` is the loop inside an accept that sleeps. */
  datatype State = State(
    pendingSetups: int, nextSession: Session, processing: seq<Session>, handlers: set<Session>,
    nProcessing: int, nProcessed: nat, finished: seq<Session>, finisher: Option<Session>,
    quitting: bool, loopQuit: bool, suspended: bool, log: seq<Signal>, started: nat)

  const FRESH := State(0, 0, [], {}, 0, 0, [], None, false, false, false, [], 0)

  /** `finish_processing` */
  function FinishOne(s: State, x: Session): State {
    var n := s.nProcessing - 1;
    s.(processing := ListRemove(s.processing, x), nProcessing := n, nProcessed := s.nProcessed + 1,
       loopQuit := s.loopQuit || (s.quitting && n == 0))
  }

  function FinishEach(s: State, xs: seq<Session>): State {
    if xs == [] then s else FinishOne(FinishEach(s, xs[..|xs| - 1]), xs[|xs| - 1])
  }

  /** What a batch of `n` sessions is reported as. */
  function BatchSignals(c: Config, s: State, n: nat): seq<Signal> {
    [SessionsFinished(n)] + if NeedMaintain(s.nProcessing, s.nProcessed, c.interval, n) then [Maintain] else []
  }

  /** `dispose_finished_data` */
  function Dispose(c: Config, s: State): State {
    if s.finished == [] then s
    else
      var t := FinishEach(s, s.finished).(finished := []);
      t.(log := t.log + BatchSignals(c, t, |s.finished|))
  }

  /** `single_thread_cb_finished` */
  function Finish(c: Config, s: State, x: Session): State {
    var t := s.(handlers := s.handlers - {x}, finished := s.finished + [x]);
    if 0 < c.maxPending < |t.finished| then Dispose(c, t.(finisher := None))
    else if t.finisher == None then t.(finisher := Some(x))
    else t
  }

  /** `single_thread_client_channel_setup`; a context that cannot be started is finished at once. */
  function SetUp(c: Config, s: State, starts: bool): State {
    var x := s.nextSession;
    var t := s.(nextSession := x + 1, handlers := s.handlers + {x}, processing := [x] + s.processing);
    if starts then t.(log := t.log + [ConnectionEstablished(x)]) else Finish(c, t, x)
  }

  /** The accept callback. With too many sessions running it sleeps until there are fewer; on the one
      thread that could finish one it never wakes up. */
  function Connect(c: Config, s: State, arrived: bool, starts: bool): State {
    if 0 < c.maxConnections <= s.nProcessing then s.(suspended := true)
    else if !arrived then s
    else
      var t := s.(nProcessing := s.nProcessing + 1, started := s.started + 1);
      match c.mode
      case SingleLoop => SetUp(c, t, starts)
      case Worker => t.(pendingSetups := t.pendingSetups + 1)
  }

  /** `milter_client_shutdown` */
  function ShutDown(s: State): State {
    if s.quitting then s else s.(quitting := true, loopQuit := s.loopQuit || s.nProcessing == 0)
  }

  // ---------- runs ----------

  datatype Event =
    | ConnectionReady(arrived: bool, starts: bool) | IdleSetUp(starts: bool) | ContextFinished(session: Session)
    | IdleFinisher | ShutdownCalled

  /** A suspended loop delivers nothing; after a shutdown the accept watcher is gone. */
  predicate Enabled(s: State, e: Event) {
    match e
    case ConnectionReady(_, _) => !s.suspended && !s.quitting
    case IdleSetUp(_) => !s.suspended && s.pendingSetups > 0
    case ContextFinished(x) => !s.suspended && x in s.handlers
    case IdleFinisher => !s.suspended && s.finisher.Some?
    case ShutdownCalled => true
  }

  function Do(c: Config, s: State, e: Event): State {
    match e
    case ConnectionReady(arrived, starts) => Connect(c, s, arrived, starts)
    case IdleSetUp(starts) => SetUp(c, s.(pendingSetups := s.pendingSetups - 1), starts)
    case ContextFinished(x) => Finish(c, s, x)
    case IdleFinisher => Dispose(c, s.(finisher := None))
    case ShutdownCalled => ShutDown(s)
  }

  /** An event that is not enabled does not occur. */
  function Step(c: Config, s: State, e: Event): State {
    if Enabled(s, e) then Do(c, s, e) else s
  }

  function After(c: Config, s: State, events: seq<Event>): State {
    if events == [] then s else Step(c, After(c, s, events[..|events| - 1]), events[|events| - 1])
  }

  // ---------- the invariant ----------

  /** Every finished session is still on the list, every other one still has its handler, and
      nothing is listed twice. */
  ghost predicate ListsOk(processing: seq<Session>, finished: seq<Session>, handlers: set<Session>, next: Session) {
    && NoDuplicates(processing)
    && NoDuplicates(finished)
    && (forall x <- finished :: x in processing)
    && (forall x :: x in handlers <==> x in processing && x !in finished)
    && (forall x <- processing :: x < next)
  }

  ghost predicate Lists(s: State) {
    ListsOk(s.processing, s.finished, s.handlers, s.nextSession)
  }

  ghost predicate Counts(c: Config, s: State) {
    && s.started == s.nProcessing + s.nProcessed
    && s.nProcessing == s.pendingSetups + |s.processing|
    && (c.maxConnections > 0 ==> s.nProcessing <= c.maxConnections)
    && (s.suspended ==> 0 < c.maxConnections == s.nProcessing)
    && (s.loopQuit <==> s.quitting && s.nProcessing == 0)
    && Reported(s.log) == s.nProcessed
  }

  /** A finisher is scheduled iff finished sessions wait, for one of them. */
  ghost predicate Finisher(c: Config, s: State) {
    && (s.finisher.Some? <==> s.finished != [])
    && (s.finisher.Some? ==> s.finisher.value in s.finished)
    && (c.maxPending > 0 ==> |s.finished| <= c.maxPending)
  }

  ghost predicate Inv(c: Config, s: State) {
    && Lists(s) && Counts(c, s) && Finisher(c, s)
    && 0 <= s.pendingSetups && (c.mode.SingleLoop? ==> s.pendingSetups == 0)
  }

  /** Exactly the finished sessions leave the list, and the loop is told to quit by the last one. */
  lemma {:induction false} FinishEachEffect(s: State, xs: seq<Session>)
    requires NoDuplicates(s.processing) && NoDuplicates(xs) && (forall x <- xs :: x in s.processing)
    requires s.nProcessing >= |xs|
    ensures
      var t := FinishEach(s, xs);
      && t == s.(processing := t.processing, nProcessing := s.nProcessing - |xs|, nProcessed := s.nProcessed + |xs|,
                 loopQuit := s.loopQuit || (s.quitting && xs != [] && s.nProcessing == |xs|))
      && NoDuplicates(t.processing) && |t.processing| == |s.processing| - |xs|
      && forall x :: x in t.processing <==> x in s.processing && x !in xs
  {
    if xs != [] {
      var rest, x := xs[..|xs| - 1], xs[|xs| - 1];
      assert xs == rest + [x] && x !in rest;
      FinishEachEffect(s, rest);
      ListRemoveOnce(FinishEach(s, rest).processing, x);
    }
  }

  lemma FinishAllEffect(s: State)
    requires Lists(s) && s.nProcessing >= |s.finished|
    ensures
      var t := FinishEach(s, s.finished);
      && t == s.(processing := t.processing, nProcessing := s.nProcessing - |s.finished|,
                 nProcessed := s.nProcessed + |s.finished|,
                 loopQuit := s.loopQuit || (s.quitting && s.finished != [] && s.nProcessing == |s.finished|))
      && |t.processing| == |s.processing| - |s.finished| && ListsOk(t.processing, [], s.handlers, s.nextSession)
      && forall x :: x in t.processing <==> x in s.processing && x !in s.finished
  {
    FinishEachEffect(s, s.finished);
  }

  /** What a batch of `n` sessions leaves in the log: its size, and a call for maintenance when
      nothing is left running or the count of processed sessions has crossed a multiple of the interval. */
  ghost function BatchLog(n: nat, nProcessing: int, nProcessed: nat, interval: nat): seq<Signal> {
    if n == 0 then []
    else if nProcessing == 0 || (interval > 0 && Crosses(nProcessed, n, interval)) then [SessionsFinished(n), Maintain]
    else [SessionsFinished(n)]
  }

  /** All finished sessions leave in one batch, which is reported once, and followed by a call for
      maintenance exactly when that is due. */
  lemma DisposeEffect(c: Config, s: State)
    requires Lists(s) && s.nProcessing >= |s.finished|
    ensures
      var t := Dispose(c, s);
      && t == s.(processing := t.processing, nProcessing := s.nProcessing - |s.finished|,
                 nProcessed := s.nProcessed + |s.finished|, finished := [], log := t.log,
                 loopQuit := s.loopQuit || (s.quitting && s.finished != [] && s.nProcessing == |s.finished|))
      && |t.processing| == |s.processing| - |s.finished| && Lists(t)
      && (forall x :: x in t.processing <==> x in s.processing && x !in s.finished)
      && Reported(t.log) == Reported(s.log) + |s.finished|
      && var n := |s.finished|;
         t.log == s.log + BatchLog(n, s.nProcessing - n, s.nProcessed + n, c.interval)
  {
    hide ListsOk, FinishEach, Reported, Crosses, NeedMaintain;
    if s.finished != [] {
      var n := |s.finished|;
      MaintainIff(s.nProcessing - n, s.nProcessed + n, c.interval, n);
      FinishAllEffect(s);
      ReportedBatch(s.log, BatchSignals(c, FinishEach(s, s.finished).(finished := []), |s.finished|), |s.finished|);
    }
  }

  lemma DisposeKeeps(c: Config, s: State)
    requires Lists(s) && Counts(c, s) && s.finisher == None && !s.suspended
    requires s.pendingSetups >= 0 && (c.mode.SingleLoop? ==> s.pendingSetups == 0)
    ensures Inv(c, Dispose(c, s)) && s.nProcessing >= |s.finished|
  {
    hide Dispose, Reported;
    SubsetSize(s.finished, s.processing);
    DisposeEffect(c, s);
  }

  lemma FinishedListed(processing: seq<Session>, finished: seq<Session>, handlers: set<Session>, next: Session,
                       x: Session)
    requires ListsOk(processing, finished, handlers, next) && x in handlers
    ensures ListsOk(processing, finished + [x], handlers - {x}, next)
  {}

  lemma StartedListed(processing: seq<Session>, finished: seq<Session>, handlers: set<Session>, next: Session)
    requires ListsOk(processing, finished, handlers, next)
    ensures ListsOk([next] + processing, finished, handlers + {next}, next + 1)
  {}

  lemma FinishKeeps(c: Config, s: State, x: Session)
    requires Inv(c, s) && !s.suspended && x in s.handlers
    ensures Inv(c, Finish(c, s, x))
  {
    hide ListsOk, Dispose, Reported;
    FinishedListed(s.processing, s.finished, s.handlers, s.nextSession, x);
    var t := s.(handlers := s.handlers - {x}, finished := s.finished + [x]);
    if 0 < c.maxPending < |t.finished| {
      DisposeKeeps(c, t.(finisher := None));
    }
  }

  /** A connection that is counted but not on the list yet. */
  lemma SetUpKeeps(c: Config, s: State, starts: bool)
    requires Lists(s) && Finisher(c, s) && !s.suspended && Counts(c, s.(pendingSetups := s.pendingSetups + 1))
    requires s.pendingSetups >= 0 && (c.mode.SingleLoop? ==> s.pendingSetups == 0)
    ensures Inv(c, SetUp(c, s, starts))
  {
    hide ListsOk, Finish;
    StartedListed(s.processing, s.finished, s.handlers, s.nextSession);
    var x := s.nextSession;
    var t := s.(nextSession := x + 1, handlers := s.handlers + {x}, processing := [x] + s.processing);
    if starts {
      assert (t.log + [ConnectionEstablished(x)])[..|t.log|] == t.log;
    } else {
      FinishKeeps(c, t, x);
    }
  }

  lemma ConnectKeeps(c: Config, s: State, arrived: bool, starts: bool)
    requires Inv(c, s) && !s.suspended && !s.quitting
    ensures Inv(c, Connect(c, s, arrived, starts))
  {
    hide SetUp, Reported, ListsOk;
    if arrived && !(0 < c.maxConnections <= s.nProcessing) && c.mode.SingleLoop? {
      SetUpKeeps(c, s.(nProcessing := s.nProcessing + 1, started := s.started + 1), starts);
    }
  }

  lemma SetUpNextKeeps(c: Config, s: State, starts: bool)
    requires Inv(c, s) && !s.suspended && s.pendingSetups > 0
    ensures Inv(c, SetUp(c, s.(pendingSetups := s.pendingSetups - 1), starts))
  {
    hide SetUp, Reported, ListsOk;
    SetUpKeeps(c, s.(pendingSetups := s.pendingSetups - 1), starts);
  }

  lemma RunFinisherKeeps(c: Config, s: State)
    requires Inv(c, s) && !s.suspended
    ensures Inv(c, Dispose(c, s.(finisher := None)))
  {
    hide Dispose, Reported;
    DisposeKeeps(c, s.(finisher := None));
  }

  lemma ShutDownKeeps(c: Config, s: State)
    requires Inv(c, s)
    ensures Inv(c, ShutDown(s))
  {
    hide Reported;
  }

  /** Every event keeps the invariant. */
  lemma InvStep(c: Config, s: State, e: Event)
    requires Inv(c, s)
    ensures Inv(c, Step(c, s, e))
  {
    hide Inv, Connect, SetUp, Finish, Dispose, ShutDown;
    if Enabled(s, e) {
      match e
      case ConnectionReady(arrived, starts) => ConnectKeeps(c, s, arrived, starts);
      case IdleSetUp(starts) => SetUpNextKeeps(c, s, starts);
      case ContextFinished(x) => FinishKeeps(c, s, x);
      case IdleFinisher => RunFinisherKeeps(c, s);
      case ShutdownCalled => ShutDownKeeps(c, s);
    }
  }

  lemma {:induction false} InvAfter(c: Config, s: State, events: seq<Event>)
    requires Inv(c, s)
    ensures Inv(c, After(c, s, events))
  {
    if events != [] {
      InvAfter(c, s, events[..|events| - 1]);
      InvStep(c, After(c, s, events[..|events| - 1]), events[|events| - 1]);
    }
  }

  lemma FreshInv(c: Config)
    ensures Inv(c, FRESH)
  {}

  /** Over every run of a fresh client: started is processing plus processed, every processed session
      was reported once, and the processing count is the length of the list and of the set-ups that
      wait, of which there are none unless the client is a worker. */
  lemma RunCounts(c: Config, events: seq<Event>)
    ensures
      var s := After(c, FRESH, events);
      && s.started == s.nProcessing + s.nProcessed && s.nProcessed == Reported(s.log)
      && s.nProcessing == s.pendingSetups + |s.processing| >= |s.processing|
      && (c.mode.SingleLoop? ==> s.nProcessing == |s.processing|)
      && (c.maxConnections > 0 ==> s.nProcessing <= c.maxConnections)
  {
    InvAfter(c, FRESH, events);
  }

  // ---------- what is signalled ----------

  /** Between `s` and `t` a batch has ended, or none. */
  ghost predicate LogsBatch(c: Config, s: State, t: State) {
    && s.nProcessed <= t.nProcessed
    && t.log == s.log + BatchLog(t.nProcessed - s.nProcessed, t.nProcessing, t.nProcessed, c.interval)
  }

  lemma DisposeLogs(c: Config, s: State)
    requires Lists(s) && s.nProcessing >= |s.finished|
    ensures LogsBatch(c, s, Dispose(c, s)) && Dispose(c, s).nextSession == s.nextSession
  {
    hide Dispose, ListsOk, BatchLog, Reported;
    DisposeEffect(c, s);
  }

  lemma FinishedFit(s: State)
    requires Lists(s)
    ensures |s.finished| <= |s.processing|
  {
    SubsetSize(s.finished, s.processing);
  }

  lemma FinishLogs(c: Config, s: State, x: Session)
    requires Lists(s) && s.nProcessing >= |s.processing| && x in s.handlers
    ensures LogsBatch(c, s, Finish(c, s, x)) && Finish(c, s, x).nextSession == s.nextSession
  {
    hide Dispose, ListsOk, Crosses;
    FinishedListed(s.processing, s.finished, s.handlers, s.nextSession, x);
    var t := s.(handlers := s.handlers - {x}, finished := s.finished + [x]);
    if 0 < c.maxPending < |t.finished| {
      assert ListsOk(t.processing, t.finished, t.handlers, t.nextSession);
      FinishedFit(t);
      DisposeLogs(c, t.(finisher := None));
    } else {
      assert s.log == s.log + [];
    }
  }

  /** Between `s` and `t` a session that starts has been set up; or a batch has ended; or neither. */
  ghost predicate Logs(c: Config, s: State, t: State, starts: bool) {
    if t.nextSession == s.nextSession + 1 && starts then
      && t.nProcessed == s.nProcessed
      && t.log == s.log + [ConnectionEstablished(s.nextSession)]
    else
      && (t.nextSession == s.nextSession || t.nextSession == s.nextSession + 1)
      && LogsBatch(c, s, t)
  }

  lemma SetUpLogs(c: Config, s: State, starts: bool)
    requires Lists(s) && s.nProcessing > |s.processing|
    ensures Logs(c, s, SetUp(c, s, starts), starts) && SetUp(c, s, starts).nextSession == s.nextSession + 1
  {
    hide Finish, ListsOk, BatchLog;
    StartedListed(s.processing, s.finished, s.handlers, s.nextSession);
    var x := s.nextSession;
    var t := s.(nextSession := x + 1, handlers := s.handlers + {x}, processing := [x] + s.processing);
    if !starts {
      FinishLogs(c, t, x);
    }
  }

  /** The events that may set a session up, and whether its context can be started. */
  predicate Starts(e: Event) {
    (e.ConnectionReady? || e.IdleSetUp?) && e.starts
  }

  /** What each event adds to the log. */
  lemma StepLogs(c: Config, s: State, e: Event)
    requires Inv(c, s)
    ensures Logs(c, s, Step(c, s, e), Starts(e))
  {
    hide SetUp, Finish, Dispose, ListsOk, Crosses, Reported;
    assert s.log == s.log + [];
    if Enabled(s, e) {
      match e
      case ConnectionReady(arrived, starts) =>
        if arrived && !(0 < c.maxConnections <= s.nProcessing) && c.mode.SingleLoop? {
          SetUpLogs(c, s.(nProcessing := s.nProcessing + 1, started := s.started + 1), starts);
        }
      case IdleSetUp(starts) => SetUpLogs(c, s.(pendingSetups := s.pendingSetups - 1), starts);
      case ContextFinished(x) => FinishLogs(c, s, x);
      case IdleFinisher =>
        FinishedFit(s);
        DisposeLogs(c, s.(finisher := None));
      case ShutdownCalled =>
    }
  }

  /** Where a run of a fresh client stands after `k` of its events. */
  function At(c: Config, events: seq<Event>, k: nat): State
    requires k <= |events|
  {
    After(c, FRESH, events[..k])
  }

  lemma AtNext(c: Config, events: seq<Event>, k: nat)
    requires k < |events|
    ensures At(c, events, k + 1) == Step(c, At(c, events, k), events[k])
  {
    assert events[..k + 1][..k] == events[..k];
  }

  /** Over every run: each event adds to the log what `StepLogs` says. */
  lemma RunLogs(c: Config, events: seq<Event>, k: nat)
    requires k < |events|
    ensures Logs(c, At(c, events, k), At(c, events, k + 1), Starts(events[k]))
  {
    hide Step, Inv, Logs;
    FreshInv(c);
    InvAfter(c, FRESH, events[..k]);
    AtNext(c, events, k);
    StepLogs(c, At(c, events, k), events[k]);
  }

  lemma BatchStart(n: nat, nProcessing: int, nProcessed: nat, interval: nat)
    ensures var b := BatchLog(n, nProcessing, nProcessed, interval); b != [] ==> b[0] == SessionsFinished(n)
    ensures var b := BatchLog(n, nProcessing, nProcessed, interval); forall e <- b :: !e.ConnectionEstablished?
  {}

  /** The log of an earlier moment is a beginning of the log, and what follows it is no call for
      maintenance. */
  lemma {:induction false} LogGrows(c: Config, events: seq<Event>, j: nat, k: nat)
    requires j <= k <= |events|
    ensures var (early, late) := (At(c, events, j).log, At(c, events, k).log);
      early <= late && (|early| < |late| ==> !late[|early|].Maintain?)
  {
    hide At, BatchLog;
    if j < k {
      LogGrows(c, events, j, k - 1);
      RunLogs(c, events, k - 1);
      var (s, t) := (At(c, events, k - 1), At(c, events, k));
      if s.nProcessed <= t.nProcessed {
        BatchStart(t.nProcessed - s.nProcessed, t.nProcessing, t.nProcessed, c.interval);
      }
    }
  }

  /** The event that put entry `i` into the log. */
  lemma {:induction false} LoggedBy(c: Config, events: seq<Event>, n: nat, i: nat) returns (k: nat)
    requires n <= |events| && i < |At(c, events, n).log|
    ensures k < n && |At(c, events, k).log| <= i < |At(c, events, k + 1).log|
    ensures At(c, events, k + 1).log <= At(c, events, n).log
  {
    if n > 0 && i >= |At(c, events, n - 1).log| {
      k := n - 1;
    } else if n > 0 {
      k := LoggedBy(c, events, n - 1, i);
      LogGrows(c, events, n - 1, n);
    }
  }

  /** Over every run: each batch in the log is the one some event has ended, and a call for
      maintenance follows it if and only if that left nothing running or crossed a multiple of the
      interval. */
  lemma BatchInRun(c: Config, events: seq<Event>, i: nat) returns (k: nat)
    requires i < |After(c, FRESH, events).log| && After(c, FRESH, events).log[i].SessionsFinished?
    ensures k < |events|
    ensures var log := After(c, FRESH, events).log;
      var (s, t) := (After(c, FRESH, events[..k]), After(c, FRESH, events[..k + 1]));
      && log[..i] == s.log && log[i].n == t.nProcessed - s.nProcessed > 0
      && (i + 1 < |log| && log[i + 1].Maintain?
          <==> t.nProcessing == 0 || (c.interval > 0 && Crosses(t.nProcessed, log[i].n, c.interval)))
  {
    hide Crosses;
    assert events[..|events|] == events;
    k := LoggedBy(c, events, |events|, i);
    RunLogs(c, events, k);
    LogGrows(c, events, k, k + 1);
    LogGrows(c, events, k + 1, |events|);
  }

  /** A call for maintenance follows a batch. */
  lemma MaintainFollowsBatch(c: Config, events: seq<Event>, i: nat)
    requires i < |After(c, FRESH, events).log| && After(c, FRESH, events).log[i].Maintain?
    ensures i > 0 && After(c, FRESH, events).log[i - 1].SessionsFinished?
  {
    hide Crosses;
    assert events[..|events|] == events;
    var k := LoggedBy(c, events, |events|, i);
    RunLogs(c, events, k);
    LogGrows(c, events, k, k + 1);
  }

  /** The sessions set up by the first `n` events whose contexts started. */
  function StartedBy(c: Config, events: seq<Event>, n: nat): set<Session>
    requires n <= |events|
  {
    if n == 0 then {}
    else
      var (s, t) := (At(c, events, n - 1), At(c, events, n));
      StartedBy(c, events, n - 1)
      + if t.nextSession == s.nextSession + 1 && Starts(events[n - 1]) then {s.nextSession} else {}
  }

  lemma AtStart(c: Config, events: seq<Event>)
    ensures At(c, events, 0) == FRESH
  {}

  lemma EstablishedMore(c: Config, s: State, t: State, starts: bool, x: Session)
    requires Logs(c, s, t, starts)
    ensures multiset(t.log)[ConnectionEstablished(x)]
      == multiset(s.log)[ConnectionEstablished(x)]
        + if t.nextSession == s.nextSession + 1 && starts && x == s.nextSession then 1 else 0
    ensures s.nextSession <= t.nextSession <= s.nextSession + 1
  {
    hide BatchLog;
    if s.nProcessed <= t.nProcessed {
      BatchStart(t.nProcessed - s.nProcessed, t.nProcessing, t.nProcessed, c.interval);
    }
    var more := t.log[|s.log|..];
    assert t.log == s.log + more;
    assert multiset(t.log) == multiset(s.log) + multiset(more);
    if t.nextSession == s.nextSession + 1 && starts {
      assert more == [ConnectionEstablished(s.nextSession)];
    } else {
      assert ConnectionEstablished(x) !in more;
    }
  }

  lemma {:induction false} EstablishedBy(c: Config, events: seq<Event>, n: nat, x: Session)
    requires n <= |events|
    ensures x in StartedBy(c, events, n) ==> x < At(c, events, n).nextSession
    ensures multiset(At(c, events, n).log)[ConnectionEstablished(x)] == if x in StartedBy(c, events, n) then 1 else 0
  {
    hide At, Logs, Starts;
    if n == 0 {
      assert At(c, events, 0) == FRESH by {
        AtStart(c, events);
      }
    } else {
      EstablishedBy(c, events, n - 1, x);
      RunLogs(c, events, n - 1);
      var (s, t) := (At(c, events, n - 1), At(c, events, n));
      EstablishedMore(c, s, t, Starts(events[n - 1]), x);
    }
  }

  /** Over every run: a session that has been set up and started is announced once, any other
      never. */
  lemma EstablishedOnce(c: Config, events: seq<Event>, x: Session)
    ensures multiset(After(c, FRESH, events).log)[ConnectionEstablished(x)]
      == if x in StartedBy(c, events, |events|) then 1 else 0
  {
    assert events[..|events|] == events;
    EstablishedBy(c, events, |events|, x);
  }

  // ---------- the accept that never returns ----------

  lemma FinishLeaves(c: Config, s: State, x: Session)
    requires Lists(s) && s.nProcessing >= |s.processing| && x in s.handlers
    ensures Finish(c, s, x).suspended == s.suspended && Finish(c, s, x).quitting == s.quitting
    ensures Finish(c, s, x).handlers == s.handlers - {x} && Finish(c, s, x).pendingSetups == s.pendingSetups
  {
    hide Dispose, Reported;
    FinishedListed(s.processing, s.finished, s.handlers, s.nextSession, x);
    var t := s.(handlers := s.handlers - {x}, finished := s.finished + [x]);
    SubsetSize(t.finished, t.processing);
    DisposeEffect(c, t.(finisher := None));
  }

  /** Setting up neither suspends nor shuts down. */
  lemma SetUpLeaves(c: Config, s: State, starts: bool)
    requires Lists(s) && s.nProcessing > |s.processing|
    ensures SetUp(c, s, starts).suspended == s.suspended && SetUp(c, s, starts).quitting == s.quitting
  {
    hide Finish, ListsOk;
    StartedListed(s.processing, s.finished, s.handlers, s.nextSession);
    var x := s.nextSession;
    var t := s.(nextSession := x + 1, handlers := s.handlers + {x}, processing := [x] + s.processing);
    if !starts {
      FinishLeaves(c, t, x);
    }
  }

  /** An accept event suspends the loop if and only if the limit is set and reached. */
  lemma AcceptSuspendsIff(c: Config, s: State, arrived: bool, starts: bool)
    requires Inv(c, s) && Enabled(s, ConnectionReady(arrived, starts))
    ensures Step(c, s, ConnectionReady(arrived, starts)).suspended <==> 0 < c.maxConnections <= s.nProcessing
  {
    hide SetUp, Reported, ListsOk;
    if arrived && !(0 < c.maxConnections <= s.nProcessing) && c.mode.SingleLoop? {
      SetUpLeaves(c, s.(nProcessing := s.nProcessing + 1, started := s.started + 1), starts);
    }
  }

  /** `n` connections that arrive and start. */
  function Arrivals(n: nat): seq<Event> {
    if n == 0 then [] else Arrivals(n - 1) + [ConnectionReady(true, true)]
  }

  lemma {:induction false} ArrivalsFill(c: Config, n: nat)
    requires n <= c.maxConnections
    ensures
      var s := After(c, FRESH, Arrivals(n));
      Inv(c, s) && s.nProcessing == n && !s.suspended && !s.quitting
  {
    InvAfter(c, FRESH, Arrivals(n));
    if n > 0 {
      ArrivalsFill(c, n - 1);
      assert Arrivals(n)[..|Arrivals(n)| - 1] == Arrivals(n - 1);
    }
  }

  lemma SuspendedHasLimit(c: Config, s: State)
    requires Inv(c, s) && s.suspended
    ensures 0 < c.maxConnections == s.nProcessing
  {}

  predicate Suspends(c: Config, events: seq<Event>) {
    After(c, FRESH, events).suspended
  }

  /** Some run suspends the loop if and only if there is a limit: as many connections as the limit
      allows, and one more. */
  lemma SuspensionReachableIff(c: Config)
    ensures (exists events :: Suspends(c, events)) <==> c.maxConnections > 0
  {
    hide Step, Inv;
    FreshInv(c);
    if c.maxConnections > 0 {
      ArrivalsFill(c, c.maxConnections);
      var events := Arrivals(c.maxConnections + 1);
      assert events[..|events| - 1] == Arrivals(c.maxConnections);
      var full := After(c, FRESH, Arrivals(c.maxConnections));
      assert After(c, FRESH, events) == Step(c, full, ConnectionReady(true, true));
      AcceptSuspendsIff(c, full, true, true);
      assert Suspends(c, events);
    }
    forall events | Suspends(c, events) ensures c.maxConnections > 0 {
      InvAfter(c, FRESH, events);
      SuspendedHasLimit(c, After(c, FRESH, events));
    }
  }

  /** A suspended loop does nothing ever again: a shutdown is noted, the loop is not told to quit. */
  lemma {:induction false} SuspendedForEver(c: Config, s: State, events: seq<Event>)
    requires Inv(c, s) && s.suspended
    ensures After(c, s, events) == s.(quitting := s.quitting || ShutdownCalled in events) && !s.loopQuit
  {
    hide ListsOk, Finisher, Reported, Connect, SetUp, Finish, Dispose;
    if events != [] {
      var before := events[..|events| - 1];
      SuspendedForEver(c, s, before);
      assert events == before + [events[|events| - 1]];
    }
  }

  // ---------- shutting down ----------

  /** A bound on the events still to come once no more connections are accepted. */
  function Work(s: State): int {
    3 * s.pendingSetups + 2 * |s.handlers| + if s.finisher.Some? then 1 else 0
  }

  lemma FinishWork(c: Config, s: State, x: Session)
    requires Lists(s) && s.nProcessing >= |s.processing| && x in s.handlers
    ensures Work(Finish(c, s, x)) < Work(s)
  {
    hide Dispose, Reported;
    FinishLeaves(c, s, x);
    FinishedListed(s.processing, s.finished, s.handlers, s.nextSession, x);
    var t := s.(handlers := s.handlers - {x}, finished := s.finished + [x]);
    SubsetSize(t.finished, t.processing);
    DisposeEffect(c, t.(finisher := None));
  }

  lemma SetUpWork(c: Config, s: State, starts: bool)
    requires Inv(c, s) && s.pendingSetups > 0
    ensures
      var t := SetUp(c, s.(pendingSetups := s.pendingSetups - 1), starts);
      Work(t) < Work(s) && t.quitting == s.quitting && t.suspended == s.suspended
  {
    hide Finish, Reported, ListsOk;
    var r := s.(pendingSetups := s.pendingSetups - 1);
    SetUpLeaves(c, r, starts);
    StartedListed(r.processing, r.finished, r.handlers, r.nextSession);
    var x := r.nextSession;
    var t := r.(nextSession := x + 1, handlers := r.handlers + {x}, processing := [x] + r.processing);
    if !starts {
      FinishWork(c, t, x);
    }
  }

  lemma FinisherWork(c: Config, s: State)
    requires Inv(c, s) && s.finisher.Some?
    ensures
      var t := Dispose(c, s.(finisher := None));
      Work(t) < Work(s) && t.quitting == s.quitting && t.suspended == s.suspended
  {
    hide Dispose, Reported;
    SubsetSize(s.finished, s.processing);
    DisposeEffect(c, s.(finisher := None));
  }

  /** Each event the loop delivers while shutting down uses up work. */
  lemma ShutdownStep(c: Config, s: State, e: Event)
    requires Inv(c, s) && s.quitting && Enabled(s, e) && e != ShutdownCalled
    ensures Work(Step(c, s, e)) < Work(s) && Step(c, s, e).quitting && !Step(c, s, e).suspended
  {
    hide Work, SetUp, Finish, Dispose, Reported;
    match e
    case IdleSetUp(starts) => SetUpWork(c, s, starts);
    case ContextFinished(x) =>
      FinishLeaves(c, s, x);
      FinishWork(c, s, x);
    case IdleFinisher => FinisherWork(c, s);
  }

  lemma NothingEnabled(s: State)
    requires !s.suspended && forall e: Event :: e != ShutdownCalled ==> !Enabled(s, e)
    ensures s.pendingSetups <= 0 && s.handlers == {} && s.finisher == None
  {
    assert !Enabled(s, IdleSetUp(true)) && !Enabled(s, IdleFinisher);
    forall x: Session ensures x !in s.handlers {
      assert !Enabled(s, ContextFinished(x));
    }
  }

  /** A quitting client with no event left has been told to quit if and only if it is not suspended,
      and then every session started was processed and reported. */
  lemma QuitUnlessSuspended(c: Config, s: State)
    requires Inv(c, s) && s.quitting && forall e: Event :: e != ShutdownCalled ==> !Enabled(s, e)
    ensures s.loopQuit <==> !s.suspended
    ensures s.loopQuit ==> s.processing == [] && s.nProcessed == s.started == Reported(s.log)
  {
    if !s.suspended {
      NothingEnabled(s);
      var first := if s.processing == [] then 0 else s.processing[0];
      assert s.processing == [] || first in s.processing;
    }
  }

  lemma {:induction false} AfterFirst(c: Config, s: State, e: Event, rest: seq<Event>)
    ensures After(c, s, [e] + rest) == After(c, Step(c, s, e), rest)
  {
    var events := [e] + rest;
    if rest == [] {
      assert events[..|events| - 1] == [];
    } else {
      assert events[..|events| - 1] == [e] + rest[..|rest| - 1];
      AfterFirst(c, s, e, rest[..|rest| - 1]);
    }
  }

  /** The events that bring a shut-down client to its end. */
  lemma {:induction false} DrainEvents(c: Config, s: State) returns (events: seq<Event>)
    requires Inv(c, s) && s.quitting && !s.suspended
    ensures After(c, s, events).loopQuit
    decreases Work(s)
  {
    if forall e: Event :: e != ShutdownCalled ==> !Enabled(s, e) {
      QuitUnlessSuspended(c, s);
      events := [];
    } else {
      var e: Event :| e != ShutdownCalled && Enabled(s, e);
      ShutdownStep(c, s, e);
      InvStep(c, s, e);
      var rest := DrainEvents(c, Step(c, s, e));
      events := [e] + rest;
      AfterFirst(c, s, e, rest);
    }
  }

  /** A client that is shutting down can still come to its end if and only if it is not suspended. */
  lemma CanQuitIff(c: Config, s: State)
    requires Inv(c, s) && s.quitting
    ensures (exists events :: After(c, s, events).loopQuit) <==> !s.suspended
  {
    if s.suspended {
      forall events ensures !After(c, s, events).loopQuit {
        SuspendedForEver(c, s, events);
      }
    } else {
      var events := DrainEvents(c, s);
    }
  }
}
