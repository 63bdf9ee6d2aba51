/** The fields and callbacks of `milter-client.c` that keep the session accounts: each method does to
    the fields what the state machine of `Sessions` says. */
module SessionLoop {
  import opened Options
  import opened Maintenance
  import opened Sessions

  class MilterClient {
    const c: Config
    var pendingSetups: int
    var nextSession: Session
    var processingData: seq<Session>
    var handlers: set<Session>
    var nProcessing: int
    var nProcessed: nat
    var finishedData: seq<Session>
    var finisher: Option<Session>
    var quitting: bool
    var loopQuit: bool
    var suspended: bool
    var log: seq<Signal>
    ghost var started: nat

    ghost function View(): State
      reads this
    {
      State(pendingSetups, nextSession, processingData, handlers, nProcessing, nProcessed, finishedData, finisher,
            quitting, loopQuit, suspended, log, started)
    }

    constructor (c: Config)
      ensures this.c == c && View() == FRESH
    {
      this.c := c;
      pendingSetups, nextSession, processingData, handlers := 0, 0, [], {};
      nProcessing, nProcessed, started, finishedData, finisher := 0, 0, 0, [], None;
      quitting, loopQuit, suspended, log := false, false, false, [];
    }

    /** `finish_processing` */
    method FinishProcessing(data: Session)
      modifies `processingData, `nProcessing, `nProcessed, `loopQuit
      ensures View() == FinishOne(old(View()), data)
    {
      processingData := ListRemove(processingData, data);
      nProcessing := nProcessing - 1;
      nProcessed := nProcessed + 1;
      if quitting {
        if nProcessing == 0 {
          loopQuit := true;
        }
      }
    }

    /** `g_ptr_array_foreach` over the finished sessions. */
    method FinishAll()
      modifies `processingData, `nProcessing, `nProcessed, `loopQuit
      ensures View() == FinishEach(old(View()), finishedData)
    {
      hide FinishOne;
      for i := 0 to |finishedData|
        invariant View() == FinishEach(old(View()), finishedData[..i])
      {
        assert finishedData[..i + 1][..i] == finishedData[..i];
        FinishProcessing(finishedData[i]);
      }
      assert finishedData[..|finishedData|] == finishedData;
    }

    method Emit(signal: Signal)
      modifies `log
      ensures log == old(log) + [signal]
    {
      log := log + [signal];
    }

    /** `dispose_finished_data` */
    method DisposeFinishedData()
      modifies `processingData, `nProcessing, `nProcessed, `loopQuit, `finishedData, `log
      ensures View() == Dispose(c, old(View()))
    {
      if finishedData == [] {
        return;
      }
      var n := |finishedData|;
      FinishAll();
      finishedData := [];
      Emit(SessionsFinished(n));
      if NeedMaintain(nProcessing, nProcessed, c.interval, n) {
        Emit(Maintain);
      }
    }

    /** `single_thread_cb_finished`. The handler runs once per session: it disconnects itself. */
    method CbFinished(data: Session)
      modifies this
      ensures View() == Finish(c, old(View()), data)
    {
      handlers := handlers - {data};
      finishedData := finishedData + [data];
      if 0 < c.maxPending < |finishedData| {
        finisher := None;
        DisposeFinishedData();
      } else if finisher == None {
        finisher := Some(data);
      }
    }

    /** `single_thread_finisher` */
    method RunFinisher()
      modifies this
      ensures View() == Dispose(c, old(View()).(finisher := None))
    {
      finisher := None;
      DisposeFinishedData();
    }

    /** `single_thread_client_channel_setup` */
    method SetUpChannel(starts: bool)
      modifies this
      ensures View() == SetUp(c, old(View()), starts)
    {
      hide Finish, Dispose;
      var data := nextSession;
      nextSession := nextSession + 1;
      handlers := handlers + {data};
      processingData := [data] + processingData;
      if starts {
        Emit(ConnectionEstablished(data));
      } else {
        CbFinished(data);
      }
    }

    /** `accept_connection_fd`: while too many sessions run it sleeps, and on this thread it then
        never gets to `accept`. */
    method AcceptConnectionFd(arrived: bool) returns (accepted: bool)
      modifies `suspended, `nProcessing, `started
      ensures accepted <==> arrived && !(0 < c.maxConnections <= old(nProcessing))
      ensures suspended == (old(suspended) || 0 < c.maxConnections <= old(nProcessing))
      ensures nProcessing == old(nProcessing) + (if accepted then 1 else 0)
      ensures started == old(started) + if accepted then 1 else 0
    {
      accepted := false;
      if 0 < c.maxConnections <= nProcessing {
        suspended := true;
        return;
      }
      if arrived {
        nProcessing, started := nProcessing + 1, started + 1;
        accepted := true;
      }
    }

    /** `single_thread_single_loop_accept_connection` and `worker_accept_watch_func` */
    method AcceptConnection(arrived: bool, starts: bool)
      modifies this
      ensures View() == Connect(c, old(View()), arrived, starts)
    {
      hide SetUp;
      var accepted := AcceptConnectionFd(arrived);
      if accepted {
        match c.mode
        case SingleLoop => SetUpChannel(starts);
        case Worker => pendingSetups := pendingSetups + 1;
      }
    }

    /** `single_thread_cb_idle_client_channel_setup` */
    method IdleSetUpChannel(starts: bool)
      modifies this
      ensures View() == SetUp(c, old(View()).(pendingSetups := old(pendingSetups) - 1), starts)
    {
      pendingSetups := pendingSetups - 1;
      SetUpChannel(starts);
    }

    /** `milter_client_shutdown` */
    method Shutdown()
      modifies `quitting, `loopQuit
      ensures View() == ShutDown(old(View()))
    {
      if !quitting {
        quitting := true;
        if nProcessing == 0 {
          loopQuit := true;
        }
      }
    }

    method Deliver(e: Event)
      requires Enabled(View(), e)
      modifies this
      ensures View() == Step(c, old(View()), e)
    {
      hide Connect, SetUp, Finish, Dispose, ShutDown;
      match e {
        case ConnectionReady(arrived, starts) => AcceptConnection(arrived, starts);
        case IdleSetUp(starts) => IdleSetUpChannel(starts);
        case ContextFinished(data) => CbFinished(data);
        case IdleFinisher => RunFinisher();
        case ShutdownCalled => Shutdown();
      }
    }

    predicate CanOccur(e: Event): (r: bool)
      reads this
      ensures r <==> Enabled(View(), e)
    {
      match e
      case ConnectionReady(_, _) => !suspended && !quitting
      case IdleSetUp(_) => !suspended && pendingSetups > 0
      case ContextFinished(data) => !suspended && data in handlers
      case IdleFinisher => !suspended && finisher.Some?
      case ShutdownCalled => true
    }

    /** Any run. */
    method Run(events: seq<Event>)
      modifies this
      ensures View() == After(c, old(View()), events)
      ensures Inv(c, old(View())) ==> Inv(c, View())
    {
      hide Do, Inv, Enabled;
      if Inv(c, View()) {
        InvAfter(c, View(), events);
      }
      for i := 0 to |events|
        invariant View() == After(c, old(View()), events[..i])
      {
        assert events[..i + 1][..i] == events[..i];
        if CanOccur(events[i]) {
          Deliver(events[i]);
        }
      }
      assert events[..|events|] == events;
    }
  }
}
