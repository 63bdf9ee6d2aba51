# milter-manager: verified model of its event loop and milter cores

This project models the parts of milter-manager that carry the most state and the most
interleaving, and proves what they keep, over every input, run or reachable state.

- **The event loop** (`libev-4.15`): the lock-free wake-up handshake between sending threads and
  the loop, as a state machine with one step per shared read or write (`WakeUp.dfy`); the pending
  queues with callbacks that feed and clear events themselves (`Pending.dfy`); the 4-ary heap
  with cached keys and back-pointers (`Heap.dfy`, `HeapArray.dfy`, `ArraySize.dfy`) and its users,
  timers (`Timers.dfy`) and periodics (`Periodics.dfy`, `Recalc.dfy`) with what their reify loops
  share (`Reify.dfy`) and both on one loop (`LoopTimes.dfy`); the dense watcher arrays
  (`DenseArrays.dfy`); the per-fd watcher lists and the work list of changed fds (`Fd.dfy`,
  `FdLoop.dfy`) with the poll, select and epoll backends (`Backends.dfy`, `Fd.dfy`,
  `EpollState.dfy`), epoll against a kernel that may refuse an fd or drop its registration at any
  time.
- **The milter library** (`milter`): the end-of-message packet buffer with its re-entrant flush and
  the bytes it writes (`ReplyBuffer.dfy`, `ReplyPackets.dfy`), over sessions of several messages
  (`ReplySession.dfy`); the decoder on the other side (`ReplyReceiver.dfy`) and what it understands
  of a filter's calls (`ReplyMeaning.dfy`); the enhanced status code recogniser (`StatusCode.dfy`),
  the text of a reply code and its decoder (`ReplyCode.dfy`); session
  accounting, limits and shutdown as a state machine (`Sessions.dfy`), the callbacks that carry it
  out (`SessionLoop.dfy`) and the maintenance test (`Maintenance.dfy`).
- **The test server** (`tool/milter-test-server.c`): the MTA-side driver (`Driver.dfy`).

Code that changes state in place is modelled by classes and methods with loops; each such method
is proved against a function of the old state, and what the source promises is proved about that
function. Times are real numbers and clock readings are inputs. The wire, the kernel's event lists,
the replies of a milter and the scripts of callbacks are parameters; signals are direct calls.

`dafny verify dfyconfig.toml` checks the project.

## What the proofs show about the code

- `loop_fork` may lose a wake-up. It throws the old pipe away and feeds `pipe_w` once, which does
  not keep the loop from blocking in the poll that follows. `WakeUp.ReforkStrandsIff` gives the exact
  condition under which the loop can be left blocked with a raised flag, and
  `WakeUp.LostTokenReachable` a run that meets it. Without that, no wake-up and no send is lost.
- A signal or async send whose caller has returned may miss the round that follows.
  `WakeUp.FedInRoundIff` says exactly which rounds feed it; `WakeUp.RoundMissesSend` is a run in which
  one does not, because another thread raised the flag and has yet to say so; and
  `WakeUp.FedOnceSendersReturn` that nothing else is needed than that such threads get on and that
  the poll reports the pipe when there is something in it.
- A file that epoll refuses is served from the list `epoll_eperms` instead. If its last watcher is
  stopped and another one is started after a poll, it is not on that list any more and never comes
  back to it: the scan takes the fd off the list but leaves its mark, and a marked fd is not listed
  again (`FdLoops.FdLoop.StopPollStart`). A watcher of a refused fd is served if and only if the fd
  is listed (`FdLoops.FdLoop.ServedIffListed`), and a poll keeps every marked fd listed if and only
  if each of them is of interest (`FdLoops.FdLoop.PollKeepsMarkedIff`).
- The last test of `downheap`'s slow path never holds (`libev-4.15/ev.c:1971`): with four children
  the fast path is taken. The model leaves that test out.
- `periodic_recalc` promises the next grid point only from `MIN_INTERVAL` on. For shorter intervals
  `Recalc.NextRunIsFirstIff` says exactly when it still is, and `Recalc.ShortIntervalLeavesGrid`
  gives one that is not. The run is never later than one interval from now.
- `milter_client_context_progress` overtakes buffered packets, and keeps its place in call order if
  and only if none are buffered (`ReplyBuffer.ProgressInOrderIff`).
- An abort leaves the packets of the message it gives up in the buffer. Some packet is written into
  a message it was not made for if and only if an abort comes while packets are held and anything
  is written after it (`ReplySessions.AstrayIff`, with a run in `ReplySessions.AbandonedCallLeaks`).
- `extended_code_parse` accepts exactly the grammar of section 2 of RFC 3463, but not the
  sentence beside it: sub-codes with leading zeros pass (`StatusCode.AcceptsLeadingZero`,
  `StatusCode.TextBackIff`). The detail is checked and never stored.
- A reply that `milter_client_context_set_reply` accepts is not always one the other side can read.
  With an empty message nothing is written after the reply's letter, and the decoder refuses it if
  and only if that is so (`ReplyCodes.CodeBackIff`). The extended code is read back if and only if
  there is one and text follows it on the first line (`ReplyCodes.ExtendedCodeBackIff`): for a
  missing message or one that begins with a newline the decoder takes the next line's code as part
  of it, and without an extended code it takes the first word of the message for one.
- What `milter_client_context_change_from` sends for parameters that are given but empty is not
  accepted by the decoder, which then reads nothing more from the connection. Every other call and
  reply is read for what it was, but for refusals with an empty message
  (`ReplyReceiver.ModificationReadIff`, `ReplyMeanings.MessageReadIff`). The index of a
  header, from 2 to the 31st on, is read as a negative one.
- With accepting and processing on one loop, reaching `max_connections` suspends the only thread that
  could finish a session. `Sessions.AcceptSuspendsIff` says when an accept does that,
  `Sessions.SuspensionReachableIff` that some run gets there if and only if a limit is set, and
  `Sessions.CanQuitIff` that a client shut down afterwards can never quit, and any other can.
- The number of processing sessions is the length of the list of sessions in the single-loop mode; in
  a worker process it also counts the connections whose set-up waits in an idle source
  (`Sessions.RunCounts`).
- The processed-session counter is a 32-bit number; when it wraps the maintenance test stays as it
  was if and only if there is no interval or it divides 2 to the 32nd (`Maintenance.WrapHarmlessIff`).

## Model

| member | source | states |
|---|---|---|
| WakeUp.InitInv | libev-4.15/ev.c:2087-2130 | the invariant over loop and sender program counters holds when the loop starts |
| WakeUp.InvStep | libev-4.15/ev.c:2132-2245 | every step of any sender or of the loop keeps the invariant: scan positions in range, distinct async watchers, a skipped flag explained, every set `sent` still to be announced or scanned |
| WakeUp.LoopInOrderStep | libev-4.15/ev.c:2182-2245 | the loop's own bookkeeping survives every step: `pipe_write_wanted` is up exactly around the poll, scans stay inside the arrays |
| WakeUp.DistinctAsyncsStep | libev-4.15/ev.c:4568-4606 | starting and stopping async watchers, by appending and swap-remove, keeps them distinct |
| WakeUp.SkipExplainedStep | libev-4.15/ev.c:2150-2178 | while the loop is blocked and `pipe_write_skipped` is up, some sender is between setting it and clearing it |
| WakeUp.FlagsCoveredStep | libev-4.15/ev.c:2132-2178 | every raised flag stays covered, by a token in the pipe, a committed sender, a queued callback, a skip the loop will see, or a loop that is yet to test the flag, through every step that does not throw a needed token away |
| WakeUp.SendsHeldStep | libev-4.15/ev.c:2182-2245 | no lost send, as an invariant: a set `sent` of an active source has its flag up, a sender still announcing it, or a scan yet to reach it |
| WakeUp.PathInv | libev-4.15/ev.c:3241-3410 | the invariant holds at every state of every interleaving |
| WakeUp.PathCovered | libev-4.15/ev.c:3241-3410 | raised flags are covered at every state of every interleaving that keeps its tokens |
| WakeUp.NotStranded | libev-4.15/ev.c:3308-3313 | a state of the invariant never has the loop blocked with a raised flag, an empty pipe and no sender on its way to write |
| WakeUp.NoLostWakeUp | libev-4.15/ev.c:2132-2178 | no lost wake-up: in every reachable state of any number of senders and the loop, a blocked loop with a raised flag has a token in the pipe or a sender about to write one |
| WakeUp.WakingSenderWrites | libev-4.15/ev.c:2150-2178 | such a sender needs only its own steps, each bringing it closer, and its last one puts the token into the pipe |
| WakeUp.LostTokenStrands | libev-4.15/ev.c:2759-2773 | re-creating the pipe when a token was needed leads to a stranded loop |
| WakeUp.ReforkStrandsIff | libev-4.15/ev.c:2743-2773 | `loop_fork` can strand the loop if and only if a flag is up, `pipe_write_skipped` is down and no sender is committed to writing |
| WakeUp.LostTokenReachable | libev-4.15/ev.c:2743-2773 | that state is reachable, with one sender and one poll that times out |
| WakeUp.OwedUntilFed | libev-4.15/ev.c:4608-4613 | from a send on, its notification stays under way until the source is fed |
| WakeUp.EverySendIsFed | libev-4.15/ev.c:2229-2243 | no lost send, over runs: once everything is at rest, every send to a source that stayed active has been followed by a feed of it; what happens before that is the matter of the next rows |
| WakeUp.AnnouncedUntilFed | libev-4.15/ev.c:2132-2178 | from a send on, its sender has yet to raise the flag, or the flag is up, or the scan has yet to reach the source, until it is fed |
| WakeUp.CaughtStep | libev-4.15/ev.c:2182-2245 | once the poll has found the pipe readable the loop does not leave its callbacks without looking at an announced source |
| WakeUp.FedWithinRound | libev-4.15/ev.c:2182-2245 | one round is enough, also for a loop that never blocks: a send whose sender is past raising the flag is fed after a poll that finds the pipe readable and before the loop next leaves its callbacks |
| WakeUp.RoundReadsSkip | libev-4.15/ev.c:3363-3370 | between the poll and the callbacks every round reads `pipe_write_skipped`, once |
| WakeUp.FedInRoundIff | libev-4.15/ev.c:3363-3370 | which rounds feed, whatever the poll reports: a send that its sender has announced and that was not fed yet is fed between the poll and the next time the callbacks are left if and only if the poll found the pipe readable, or the pipe had been re-created, or `pipe_write_skipped` is up when the loop reads it |
| WakeUp.SkipFedWithinRound | libev-4.15/ev.c:3366-3370 | so a skip that no sender takes back is fed within its round |
| WakeUp.FedOnceSendersReturn | libev-4.15/ev.c:2132-2178 | and a send is fed within a round unless a token for it is still in the pipe, unreported by the poll, or some sender is bound to write one or to set `pipe_write_skipped` |
| WakeUp.ReforkFedWithinRound | libev-4.15/ev.c:2759-2773 | re-creating the pipe makes the round feed every announced send, also one whose token it threw away |
| WakeUp.RoundMissesSend | libev-4.15/ev.c:2132-2148 | a run in which a send whose sender has returned is not fed by the round that follows |
| WakeUp.OnePipeCbPerRound | libev-4.15/ev.c:2182-2212 | the event of the pipe is invoked at most once a round |
| WakeUp.SleepsWhenQuiet | libev-4.15/ev.c:2182-2212 | the loop does not spin: if no sender moves between a truthful poll and the next decision to block, the tokens reported have been read, one `read` of at most four of them or all of an eventfd, nothing is left of a skip, and the loop blocks |
| WakeUp.WritesOnlyAroundPoll | libev-4.15/ev.c:2147-2151 | over any run a sender goes on to write into the pipe only while the loop is about to poll, polls, or has just polled |
| WakeUp.DebtStep | libev-4.15/ev.c:2213-2243 | a step feeds a source only by using up a send of it |
| WakeUp.FeedsNeverExceedSends | libev-4.15/ev.c:2213-2243 | over any run a source is fed at most as often as it was sent |
| Watchers.Watcher.constructor | libev-4.15/ev.c:3508-3515 | a priority outside the range is moved to its nearer end, any other is kept |
| Pending.FedMaskStays | libev-4.15/ev.c:1691-1708 | a mask fed stays in the outstanding mask while the watcher is only fed |
| Pending.FeedReachesCallback | libev-4.15/ev.c:2980-2998 | every feed is followed by a clear or by one invocation whose mask contains it |
| Pending.NoDoubleInvocation | libev-4.15/ev.c:2980-2998 | between two invocations of a watcher lies a feed of it |
| Pending.NoSpuriousEvents | libev-4.15/ev.c:1691-1708 | what an invocation passes was fed to the watcher since it was last invoked or cleared |
| Pending.PriorityRespected | libev-4.15/ev.c:2980-2998 | no callback runs while a watcher of higher priority is queued, also when callbacks feed |
| Pending.Queues.constructor | libev-4.15/ev.c:1691-1708 | empty queues satisfy the invariant |
| Pending.Queues.Enqueue | libev-4.15/ev.c:1691-1708 | `pending` is the slot index plus one and back; a queued watcher gets the mask or-ed in, another goes to the end of its priority's queue; no other watcher's mask changes |
| Pending.Queues.FeedEvent | libev-4.15/ev.c:1691-1708 | the same, recorded in the trace of events |
| Pending.Queues.ClearPending | libev-4.15/ev.c:3480-3506 | the slot goes to the dummy watcher, and the masks fed since the last visit are returned |
| Pending.Queues.PopEntry | libev-4.15/ev.c:2989-2997 | the last entry of the highest non-empty queue is taken and its watcher invoked with exactly its outstanding mask |
| Pending.Queues.FeedReverseDone | libev-4.15/ev.c:1717-1723 | the collected watchers are fed last one first |
| Pending.Queues.RunCallback | libev-4.15/ev.c:2989-2997 | the feeds and clears of a callback happen in order and keep the invariant |
| Pending.Queues.InvokeOne | libev-4.15/ev.c:2989-2997 | one entry is invoked, its callback does what its script says, and the measure of the loop falls although callbacks add entries |
| Pending.Queues.InvokePending | libev-4.15/ev.c:2980-2998 | it ends with every queue empty and nothing outstanding, whatever the callbacks feed and clear; what happened is invocations, each followed by what its callback does; with idle callbacks it is exactly the queues' contents from the back, highest priority first |
| Pending.PopDrain | libev-4.15/ev.c:2989-2997 | taking the last entry takes the first event off the draining order |
| Pending.AppendBackQueue | libev-4.15/ev.c:1717-1723 | reverse feeding appends, per priority, the collected watchers in reverse |
| Pending.DrainAppendBack | libev-4.15/ev.c:1710-1723 | reverse feeding and last-in first-out draining cancel: within a priority watchers run in the order collected |
| Pending.DrainTwice | libev-4.15/ev.c:1710-1723 | of two collections fed back one after the other, within a priority the later one runs first, each in its own order |
| Heap.Parent | libev-4.15/ev.c:1937-1944 | with truncating division the root, and only the root, is its own parent, and parents invert the children ranges |
| Heap.UpRestores | libev-4.15/ev.c:2025-2046 | `upheap` repairs a heap in order except above one slot |
| Heap.DownStep | libev-4.15/ev.c:1946-1993 | one move of the hole down keeps every edge but those below the hole |
| Heap.DownRestores | libev-4.15/ev.c:1946-1993 | `downheap` repairs a heap in order except below one slot |
| Heap.AdjustRestores | libev-4.15/ev.c:2048-2055 | `adjustheap` repairs one arbitrarily changed key |
| Heap.AdjustElements | libev-4.15/ev.c:2048-2055 | and it loses or duplicates no element |
| Heap.RootIsLeast | libev-4.15/ev.c:2808-2819 | slot `HEAP0` holds the least key of all |
| Heap.ReheapedIsHeap | libev-4.15/ev.c:2057-2067 | sifting up slot after slot turns any array into a heap of the same elements |
| Heap.FindLeastChild | libev-4.15/ev.c:1953-1980 | the fast and the slow path find the first child with the least key |
| Heap.UpHeap | libev-4.15/ev.c:2025-2046 | the in-place loop computes that sift, with the element held aside until the end, and leaves every `active` at its slot |
| Heap.DownHeap | libev-4.15/ev.c:1946-1993 | likewise for the way down |
| Heap.AdjustHeap | libev-4.15/ev.c:2048-2055 | likewise for `adjustheap` |
| Heap.ReHeap | libev-4.15/ev.c:2057-2067 | likewise for `reheap` |
| ArraySize.NextSize | libev-4.15/ev.c:1630-1649 | at least the size asked for and twice the current one and two; when it rounds, the bytes and four pointers end less than one element short of a multiple of 4096 |
| HeapArray.LeastAtRoot | libev-4.15/ev.c:2808-2819 | with cached keys true, no watcher of the heap has a key below the root's |
| HeapArray.Insert | libev-4.15/ev.c:3591-3596 | storing behind the last slot and `upheap` add exactly the watcher |
| HeapArray.Rekey | libev-4.15/ev.c:3644-3646 | re-caching one changed key and `adjustheap` restore order, links and cache |
| HeapArray.RekeyRoot | libev-4.15/ev.c:3042-3050 | likewise at the root with `downheap` |
| HeapArray.Remove | libev-4.15/ev.c:3612-3624 | moving the last element into the hole and `adjustheap` remove exactly the watcher |
| HeapArray.NeedSize | libev-4.15/ev.c:1651-1672 | a grown array holds the same heap |
| HeapArray.Rebuild | libev-4.15/ev.c:2057-2067 | after arbitrary key changes `reheap` gives a heap of the same watchers with links and cache intact |
| Timers.TimerLoop.constructor | libev-4.15/ev.c:3579-3601 | no timer runs at first |
| Timers.TimerLoop.Start | libev-4.15/ev.c:3579-3601 | the timer joins the running ones with its relative time made absolute; one that runs is left alone |
| Timers.TimerLoop.Stop | libev-4.15/ev.c:3603-3631 | the timer leaves the running ones, its event is cleared and its time made relative again |
| Timers.TimerLoop.Again | libev-4.15/ev.c:3633-3658 | with a repeat it runs and is due one repeat from now, without one it is stopped |
| Timers.HandledMoves | libev-4.15/ev.c:3042-3053 | what handling makes of a key: the old one plus the repeat when that is not past, the clock when it is, and the old one minus the clock without a repeat |
| Timers.TimerLoop.ReifyOne | libev-4.15/ev.c:3034-3056 | the root is moved on by its repeat, or to the clock when that is past as well; or, without a repeat, it is stopped and its time made relative to the clock |
| Timers.TimerLoop.HandleDue | libev-4.15/ev.c:3034-3056 | the loop ends, since the running timers not yet handled shrink, and handles the due ones by expiry |
| Timers.TimerLoop.TimersReify | libev-4.15/ev.c:3025-3061 | exactly the timers due on entry are handled, each once, earliest first and fed last one first: a repeating one is due one repeat after it was, or now if that is past, one without a repeat is stopped with its time made relative; none is left behind the clock and no other key changes |
| Timers.TimerLoop.RunDueTimers | libev-4.15/ev.c:3025-3061 | followed by the pending queues, timers of one priority run in order of expiry, and their next times are those |
| Timers.TimerLoop.TimersReschedule | libev-4.15/ev.c:3155-3167 | every running timer is shifted by the same amount and the heap stays one |
| LoopTimes.ReifyTimes | libev-4.15/ev.c:3376-3380 | with timers and periodics on one loop, `timers_reify` and then `periodics_reify` handle exactly the due watchers of each kind, each once, in order of expiry and by their own clocks; the timers end at their next times, no other key changes and neither disturbs the other's heap |
| LoopTimes.RunDueTimes | libev-4.15/ev.c:3376-3380 | followed by the pending queues, within a priority the periodics run before the timers, as the comments of `ev_run` say, and each kind in order of expiry |
| Timers.HandledStep | libev-4.15/ev.c:3034-3056 | handling the least key extends the expiry order |
| Reify.HandledByStep | libev-4.15/ev.c:3034-3056 | taking a least key that is due extends the expiry order, for timers and periodics alike |
| Reify.AllHandled | libev-4.15/ev.c:3031-3061 | when nothing running is due any more, those handled are exactly those due on entry |
| Recalc.EvFloor | libev-4.15/ev.c:1294-1327 | the recursion ends and is the mathematical floor of every real |
| Recalc.NextRunSoon | libev-4.15/ev.c:3065-3087 | the next run is after now, by at most one interval |
| Recalc.PeriodicRecalc | libev-4.15/ev.c:3065-3087 | the loop ends at that next run |
| Recalc.NextRunIsFirstIff | libev-4.15/ev.c:3065-3087 | it is the least `offset + k * interval` after now if and only if the interval is at least the minimum or the base happens to lie on the grid |
| Recalc.ShortIntervalLeavesGrid | libev-4.15/ev.c:3067 | an interval below the minimum for which it is not |
| Periodics.PeriodicLoop.constructor | libev-4.15/ev.c:3667-3695 | no periodic runs at first |
| Periodics.NextAtRuns | libev-4.15/ev.c:3065-3114 | a key is what the callback answers at the present time; or it is still to come within one interval, and the least `offset + k * interval` that is, exactly when the interval is at least the minimum or the base is on the grid; or it is the time set |
| Periodics.PeriodicLoop.Start | libev-4.15/ev.c:3667-3695 | the periodic joins the running ones, due when its callback says, or at the first point of its grid still to come, or at its offset |
| Periodics.PeriodicLoop.Stop | libev-4.15/ev.c:3697-3722 | it leaves them and its event is cleared |
| Periodics.PeriodicLoop.ReifyOne | libev-4.15/ev.c:3098-3124 | the root gets the time its callback says or the first point of its grid still to come, or is stopped |
| Periodics.PeriodicLoop.HandleDue | libev-4.15/ev.c:3096-3127 | the loop ends, since the running periodics not yet handled shrink, and handles the due ones by expiry |
| Periodics.PeriodicLoop.PeriodicsReify | libev-4.15/ev.c:3089-3130 | exactly the periodics due on entry are handled, each once, earliest first and fed last one first; each ends at its callback's answer or the first point of its grid still to come; none is left behind the clock and no other key changes |
| Periodics.PeriodicLoop.PeriodicsReschedule | libev-4.15/ev.c:3131-3152 | after a time jump every key is again its callback's answer, the first point of its grid still to come, or the time it was, and the heap rebuilt over the same watchers, links and cache intact |
| DenseArrays.SwapRemoveTakesOne | libev-4.15/ev.c:4290-4293 | replacing the stopped watcher by the last one removes exactly that watcher |
| DenseArrays.NoDuplicates | libev-4.15/ev.c:2881-2918 | with `active` one more than the index no watcher is in two places |
| DenseArrays.AppendKeepsPlaces | libev-4.15/ev.c:4267-4275 | appending keeps every watcher's `active` at its index plus one |
| DenseArrays.SwapKeepsPlaces | libev-4.15/ev.c:4289-4297 | so does a swap-remove, also when the stopped watcher is the last |
| DenseArrays.WatcherArrays.constructor | libev-4.15/ev.c:4256-4278 | with no watcher active all arrays are empty |
| DenseArrays.WatcherArrays.Start | libev-4.15/ev.c:4256-4278 | one watcher is appended to its array and counted, except that cleanup watchers hold no reference; a running one is left alone |
| DenseArrays.WatcherArrays.Stop | libev-4.15/ev.c:4280-4300 | it is swapped out; `idleall` stays the sum of the idle counts and `activecnt` the number of running non-cleanup watchers plus net references |
| DenseArrays.WatcherArrays.IdleReify | libev-4.15/ev.c:3003-3022 | it queues all idle watchers of the highest priority that has any, if and only if nothing of that or a higher priority is pending |
| PollBackend.Poll.Modify | libev-4.15/ev_poll.c:51-86 | the fd has exactly the new mask, POLLIN for reading and POLLOUT for writing, and every other fd its old one, through growth and swap-remove; `pollidxs` stays the inverse of `polls` |
| PollBackend.Poll.ListsEachOnce | libev-4.15/ev_poll.c:51-86 | the array for `poll` lists each fd of interest once and no other |
| SelectBackend.SwitchesOwnBit | libev-4.15/ev_select.c:128-134 | on a 64-bit word the assignments of `select_modify` switch the fd's bit |
| SelectBackend.SetsNoOtherBit | libev-4.15/ev_select.c:128-134 | and no other bit |
| SelectBackend.Select.Modify | libev-4.15/ev_select.c:108-134 | the bits of an fd are set exactly as wanted for reading and writing and all others stay |
| SelectBackend.Select.Grow | libev-4.15/ev_select.c:111-126 | new words select nothing |
| SelectBackend.ScanVectors | libev-4.15/ev_select.c:246-268 | the word and bit scan reports exactly the fds set in the result vectors, each once, for reading iff it is in the read vector and for writing iff it is in the write vector |
| FdState.CollectMasks | libev-4.15/ev.c:1814-1817 | the loop computes the union of the interests on a list |
| FdState.OrMasksIsMask | libev-4.15/ev.c:1814-1817 | that union is a mask, and empty for an empty list |
| FdState.OrMasksIff | libev-4.15/ev.c:1814-1817 | it has the events that some watcher of the list wants and no other |
| FdState.WorkDone | libev-4.15/ev.c:1800-1828 | clearing `reify` takes just that fd off the work still to do |
| FdState.ChangeKeepsWork | libev-4.15/ev.c:1830-1843 | an fd stays on the work list exactly once iff its `reify` is non-zero |
| FdState.WithoutIsRest | libev-4.15/ev.c:3465-3478 | `wlist_del` removes exactly the one watcher |
| EpollKernel.Kernel.Ctl | libev-4.15/ev_epoll.c:91-138 | the model kernel: `epoll_ctl` may drop registrations of its own at any call, refuses a second ADD, fails MOD and DEL on what is not registered, may refuse an fd, and does nothing else to other fds |
| FdLoops.FdLoop.FdChange | libev-4.15/ev.c:1830-1843 | flags are added and the fd listed if it was not |
| FdLoops.FdLoop.Kill | libev-4.15/ev.c:1846-1856 | every watcher of the fd is stopped and fed an error, and the fd put on the work list |
| FdLoops.FdLoop.EpollModify | libev-4.15/ev_epoll.c:70-139 | the kernel ends with exactly the new mask at the current generation; or it refused the fd, which is marked, and listed unless it was marked before; or it refused or had dropped the fd, which is killed; other fds are untouched |
| FdLoops.FdLoop.BackendModify | libev-4.15/ev.c:1823-1824 | whichever backend, it is told of this fd's interest and of no other's; only epoll's kills, after the kernel refused or dropped the fd, and feeds its watchers an error |
| FdLoops.FdLoop.Refresh | libev-4.15/ev.c:1802-1821 | the fd's interest becomes the union over its watchers and its `reify` zero |
| FdLoops.FdLoop.ReifyOne | libev-4.15/ev.c:1802-1825 | one round keeps the lists, shrinks the number of started watchers when it lengthens the work list, and changes this fd alone; if `EV__IOFDSET` was set and the fd is of interest the kernel is asked about it, whatever was known before |
| FdLoops.FdLoop.FdReify | libev-4.15/ev.c:1771-1828 | it ends although the backend may kill fds and so add work, with every `reify` zero and every fd's interest the union over its watchers; exactly the watchers of killed fds are lost, each fed an error, and only epoll's fds that the kernel refused or dropped are killed; each fd of interest that had `EV__IOFDSET` set has been asked for during the call and is registered with exactly its interest, or was refused, or dropped after it was asked for |
| FdLoops.FdLoop.BackendTellsInterest | libev-4.15/ev.c:1771-1828 | afterwards poll, select or epoll waits for exactly that interest, for epoll at the stored generation unless the kernel dropped the fd, or refused it and it is marked |
| FdLoops.FdLoop.StartAndReify | libev-4.15/ev.c:1819-1824 | a watcher that was set and started has its fd registered by the next `fd_reify` for all that its watchers want, unless the kernel refuses or drops it during the call, whatever the fd was registered with before: also an fd that was closed and opened again with an unchanged interest |
| FdLoops.FdLoop.IoStart | libev-4.15/ev.c:3534-3558 | the watcher is first on its fd's list and the fd on the work list, with `EV__IOFDSET` if the watcher had it |
| FdLoops.FdLoop.IoStop | libev-4.15/ev.c:3560-3577 | it is taken off the list and the fd put on the work list; an inactive one changes nothing |
| FdLoops.FdLoop.RearmAll | libev-4.15/ev.c:1896-1908 | every fd forgets the interest and the mask the backend knew and is to be told anew, `EV__IOFDSET` set |
| FdLoops.FdLoop.EpollFork | libev-4.15/ev_epoll.c:267-278 | the epoll set is new and empty and every fd is re-armed |
| FdLoops.FdLoop.RebuildAfterFork | libev-4.15/ev_epoll.c:267-278 | after the next `fd_reify` every fd of interest is registered with exactly the watchers' interest, or dropped by the kernel, or refused and marked; no other fd was asked for; the watchers are those of before but for killed fds, whose watchers were fed an error |
| FdLoops.FdLoop.FdEvent | libev-4.15/ev.c:1736-1766 | each watcher of the fd is fed the events it wants, none while the interest is about to change |
| FdFeeds.KillFeedsEach | libev-4.15/ev.c:1846-1856 | each watcher of a killed fd is told once, that it can read and write and that there was an error |
| FdFeeds.EventFeedsIff | libev-4.15/ev.c:1736-1766 | a watcher of the fd is told exactly the events that happened and that it wants, if there are any |
| FdFeeds.EventFeedsOnce | libev-4.15/ev.c:1736-1766 | and once |
| FdLoops.FdLoop.TrimInterest | libev-4.15/ev_epoll.c:191-211 | the MOD or DEL of `epoll_poll` leaves the kernel with the wanted mask or without the fd |
| FdLoops.FdLoop.HandleEvent | libev-4.15/ev_epoll.c:164-212 | an event of another generation reaches nobody and asks for a rebuild; one of the current generation feeds exactly its watchers' share, unless it was a surplus the kernel would not correct, which asks for a rebuild |
| FdLoops.FdLoop.EpollPoll | libev-4.15/ev_epoll.c:164-233 | for every batch: fed is what each current event gives its watchers, in order, but for surplus events on fds the kernel no longer has, and then the refused fds; a rebuild is asked for exactly when there was a stale event or one of those |
| FdFeeds.BatchFeedsIff | libev-4.15/ev_epoll.c:164-212 | a batch feeds exactly what its events of the fds' current generations tell, errors and hang-ups counting as everything, for fds that are in sync and not given up |
| FdLoops.FdLoop.ServeRefused | libev-4.15/ev_epoll.c:222-232 | the scan serves each listed fd that is marked and of interest, last one first, and leaves exactly those on the list, although it moves entries while it scans |
| FdLoops.FdLoop.ServedIffListed | libev-4.15/ev_epoll.c:222-232 | a watcher of a refused fd hears of it at every poll, of all it wants, if and only if the fd is on the list |
| EpollState.ScanKeepsMarkedIff | libev-4.15/ev_epoll.c:222-232 | the scan keeps every marked fd on the list if and only if each of them is of interest |
| FdLoops.FdLoop.PollKeepsMarkedIff | libev-4.15/ev_epoll.c:222-232 | likewise for the loop's own list |
| FdLoops.FdLoop.StartMarked | libev-4.15/ev_epoll.c:118-133 | a marked fd that is not listed stays unlisted when it is refused again, and its watcher hears nothing at any poll |
| FdLoops.FdLoop.StopPollStart | libev-4.15/ev_epoll.c:118-133 | so a watcher of a refused fd that is stopped, and started again after a poll, is lost unless the kernel takes the fd this time |
| ReplyPackets.Be32RoundTrip | milter/core/milter-encoder.c:172-186 | the length prefix can be read back |
| ReplyPackets.UnpackRoundTrip | milter/core/milter-encoder.c:172-186 | from packets put behind each other the contents come back, in order |
| ReplyPackets.ChunksPartition | milter/core/milter-reply-encoder.c:421-449 | body chunks partition the body, none empty and none above the protocol's size |
| ReplyPackets.BodyRoundTrip | milter/client/milter-client-context.c:2555-2603 | the MTA gets the replaced body back |
| ReplyBuffer.Writer.Write | milter/core/milter-agent.c:524-542 | a connection takes the whole packet or breaks, for good, with some beginning of it written |
| ReplyBuffer.ClientContext.constructor | milter/client/milter-client-context.c:1568-1582 | nothing is buffered at first |
| ReplyBuffer.ClientContext.WritePacket | milter/core/milter-agent.c:524-542 | the packet goes out, then what was buffered, each once, although flushing writes and writing flushes |
| ReplyBuffer.ClientContext.AgentFlush | milter/client/milter-client-context.c:3635-3682 | the buffered bytes go out exactly once and the buffer is empty, also when the connection breaks |
| ReplyBuffer.ClientContext.BaseFlush | milter/core/milter-agent.c:341-355 | nothing is written; without a writer it succeeds |
| ReplyBuffer.ClientContext.WriteOnEndOfMessage | milter/client/milter-client-context.c:2178-2219 | the packet is held back when it fits with what is held already, and otherwise all of it goes out; the stream of sent and buffered bytes grows by exactly the packet |
| ReplyBuffer.ClientContext.WriteChunks | milter/client/milter-client-context.c:2555-2603 | the stream grows by exactly the chunks of the body |
| ReplyBuffer.ClientContext.Modify | milter/client/milter-client-context.c:2221-2603 | argument, state, option and action are tested in that order; a refused call changes nothing, an accepted one adds its packets to the stream |
| ReplyBuffer.ClientContext.Progress | milter/client/milter-client-context.c:2605-2620 | the packet goes out in front of the buffered ones, which follow it |
| ReplyBuffer.ClientContext.ReplyOnEndOfMessage | milter/client/milter-client-context.c:2725-2774 | after everything buffered the reply goes out, as a reply code when one was set, the quarantine packet directly before it; that the other side reads it as that reply is `ReplyReceiver.StatusReadIff` |
| ReplyBuffer.ClientContext.RunMessage | milter/client/milter-client-context.c:2178-2774 | for any calls and any buffer size the wire carries what was held back, the accepted calls' bytes in call order and then the reply, with the last accepted reply code and the last quarantine reason; a connection that breaks at any point carries a beginning of that; what is understood of it is `ReplyMeanings.MessageUnderstood` |
| ReplyBuffer.SizesAlike | milter/client/milter-client-context.c:2178-2219 | any two contexts that agree in everything but the size of their buffer, on connections that work, write the same bytes for any calls and reply |
| ReplyBuffer.ProgressInOrderIff | milter/client/milter-client-context.c:2605-2620 | progress keeps its place in call order if and only if nothing is buffered |
| ReplyBuffer.MtaReads | milter/client/milter-client-context.c:2178-2774 | the MTA reads off the wire the packets of the accepted calls, the quarantine and the reply |
| ReplyReceiver.ModificationReadIff | milter/core/milter-reply-decoder.c:332-610 | the decoder reads the packet of a call as that call, with its name, value, address, parameters and the lower 32 bits of its index in their places, if and only if it is not a change of the sender with parameters that are given but empty |
| ReplyReceiver.StatusReadIff | milter/core/milter-reply-decoder.c:870-947 | it reads the packet of a reply as that reply: continue, accept, discard and skip as such, a refusal without a reply code as itself, one with a reply code as that code; if and only if it is not a refusal whose reply code has an empty message |
| ReplyMeanings.AcceptedIff | milter/client/milter-client-context.c:2221-2603 | a call with its arguments in order is accepted if and only if it comes at end of message and what it will be read as was negotiated |
| ReplyMeanings.OnlyNegotiated | milter/client/milter-client-context.c:2221-2603 | over any calls the other side is asked for nothing that was not negotiated |
| ReplyMeanings.CallsReadIff | milter/core/milter-reply-decoder.c:870-947 | the packets of any calls are read as the accepted ones, in order, bodies in chunks, if and only if each can be read |
| ReplyMeanings.MessageReadIff | milter/core/milter-decoder.c:370-428 | of a whole message the decoder reads the accepted calls in order, then the quarantine, then the reply, if and only if no call and no reply is one it does not accept; if one is, it fails |
| ReplyMeanings.MessageUnderstood | milter/client/milter-client-context.c:2178-2774 | that is what it reads off the wire after an end-of-message handler, for any calls, reply and buffer size |
| ReplyMeanings.CommandUnderstood | milter/client/milter-client-context.c:2711-2723 | and after the reply to a command, which is read as that reply |
| ReplyBuffer.ClientContext.ReplyToCommand | milter/client/milter-client-context.c:2708-2722 | the reply goes out and then, behind it, everything that is buffered |
| ReplyBuffer.ClientContext.Abort | milter/client/milter-client-context.c:3575-3596 | an abort changes the state and leaves what is buffered alone |
| ReplySessions.StepEffect | milter/client/milter-client-context.c:2178-2774 | no other event than an abort makes held packets stale, and what is stale goes astray with the next write |
| ReplySessions.AbortEffect | milter/client/milter-client-context.c:3575-3596 | an abort makes stale exactly what is held |
| ReplySessions.AstrayIff | milter/client/milter-client-context.c:3575-3596 | over any session some packet is written into a message it was not made for if and only if an abort comes while packets are held and anything is written after it |
| ReplySessions.AbandonedCallLeaks | milter/client/milter-client-context.c:3575-3596 | one accepted call that fits the buffer, an abort and the reply to the next command are such a session |
| ReplySessions.RunSession | milter/client/milter-client-context.c:2178-2774 | for any session and any buffer size the context's fields and what it writes are those of the session |
| StatusCode.ParseClass | milter/client/milter-client-context.c:1793-1842 | it passes a class and its dot, and nothing else, unless the string ends first |
| StatusCode.ParseSubject | milter/client/milter-client-context.c:1844-1896 | it passes one to three digits and a dot, unless the string ends first, and finds them if they are there |
| StatusCode.ParseDetail | milter/client/milter-client-context.c:1898-1939 | it accepts exactly one to three digits up to the end |
| StatusCode.ParseExtendedCode | milter/client/milter-client-context.c:1941-1979 | accepts exactly the grammar of section 2 of RFC 3463 and returns the values of class and subject |
| StatusCode.Unambiguous | milter/client/milter-client-context.c:1941-1979 | a status code has one reading |
| ReplyBuffer.ClientContext.SetReply | milter/client/milter-client-context.c:1981-2029 | succeeds if and only if the code is from 400 to 599 and an extended code is grammatical with the same class, and then stores the three values; otherwise nothing changes |
| ReplyCodes.Format | milter/core/milter-utils.c:376-413 | the loop writes, for each line of the message, the padded code, the extended code and the text without its carriage return, joined by line ends; no code, no text; an empty message, an empty text |
| ReplyCodes.Decode | milter/core/milter-reply-decoder.c:161-238 | what the decoder makes of any characters: refused without a 4XX or 5XX code or a NUL, else the code, what stands before the next space, and the rest |
| ReplyCodes.CodeBackIff | milter/core/milter-reply-decoder.c:161-238 | the decoder accepts the text of an accepted reply, and reads its code back, if and only if the message is not empty |
| ReplyCodes.ExtendedCodeBackIff | milter/core/milter-reply-decoder.c:209-223 | it reads the extended code back if and only if there is one and text follows it on the first line |
| ReplyCodes.ReplyBackIff | milter/core/milter-utils.c:376-413 | the whole reply comes back if and only if it has an extended code and a message of one line that does not end in a carriage return |
| ReplyBuffer.ReplyReadIff | milter/client/milter-client-context.c:2677-2684 | the last packet of a refusal is the reply code, and those are the conditions under which the other side reads it from the packet |
| StatusCode.DigitsBackIff | milter/client/milter-client-context.c:1844-1896 | a number gives its digits back if and only if they had no leading zero |
| StatusCode.TextBackIff | milter/client/milter-client-context.c:1941-1979 | the parsed numbers determine the text if and only if subject and detail have no leading zero |
| StatusCode.AcceptsLeadingZero | milter/client/milter-client-context.c:1941-1979 | two texts of one status code are both accepted |
| Maintenance.MaintainIff | milter/client/milter-client.c:652-669 | maintenance is due if and only if the batch leaves nothing running or crosses a multiple of the interval |
| Maintenance.WrapHarmlessIff | milter/client/milter-client.c:666-668 | wrapping the 32-bit counter leaves every maintenance test as it was, for any counts and batch, if and only if there is no interval or it divides 2 to the 32nd |
| Sessions.ListRemoveOnce | milter/client/milter-client.c:594-595 | removing a session takes exactly that one off the list |
| Sessions.FinishAllEffect | milter/client/milter-client.c:671-696 | finishing the waiting sessions one by one takes exactly them off the list, counts each once, and ends the loop if it is quitting and none is left |
| Sessions.DisposeEffect | milter/client/milter-client.c:671-696 | disposing of the waiting sessions is one batch, reported once with its size, and followed by MAINTAIN if and only if it leaves nothing running or the count of processed sessions crosses a multiple of the interval |
| Sessions.InvStep | milter/client/milter-client.c:1153-1405 | every event keeps the accounts: nothing is listed, finished or reported twice, started is processing plus processed, the limits hold, a finisher waits iff sessions do, the loop is told to quit iff it is quitting with nothing running, and is suspended only at the limit |
| Sessions.InvAfter | milter/client/milter-client.c:1153-1405 | so does every run |
| Sessions.RunCounts | milter/client/milter-client.c:582-606 | over every run started is processing plus processed, each processed session is reported once, and the processing count is the length of the list in the single-loop mode and of list and waiting set-ups in a worker |
| Sessions.StepLogs | milter/client/milter-client.c:1257-1296 | what each event signals: a session set up whose context starts, that it is established; a batch, its size and the call for maintenance when it is due; nothing else |
| Sessions.BatchInRun | milter/client/milter-client.c:671-696 | over every run a batch is followed by MAINTAIN if and only if it left nothing running or crossed a multiple of the interval |
| Sessions.MaintainFollowsBatch | milter/client/milter-client.c:693-695 | over every run MAINTAIN comes directly after a batch and never otherwise |
| Sessions.EstablishedOnce | milter/client/milter-client.c:1257-1296 | over every run each session that was set up and started is announced once, and no other |
| Sessions.AcceptSuspendsIff | milter/client/milter-client.c:1346-1358 | an accept event suspends the loop if and only if the limit is set and reached |
| Sessions.SuspensionReachableIff | milter/client/milter-client.c:1346-1358 | some run of a fresh client suspends it if and only if a limit is set; the run is given |
| Sessions.SuspendedForEver | milter/client/milter-client.c:1346-1358 | nothing that happens to a suspended loop finishes a session or tells it to quit |
| Sessions.ShutdownStep | milter/client/milter-client.c:598-606 | while shutting down each event uses up work, so only boundedly many follow |
| Sessions.QuitUnlessSuspended | milter/client/milter-client.c:598-606 | a quitting client with no event left was told to quit if and only if it is not suspended, and then every session started was processed and reported |
| Sessions.CanQuitIff | milter/client/milter-client.c:2500-2527 | a client that is shut down can come to its end if and only if it is not suspended |
| SessionLoop.MilterClient.constructor | milter/client/milter-client.c:495-542 | a client starts with its limits and no session |
| SessionLoop.MilterClient.FinishAll | milter/client/milter-client.c:682 | the loop over the waiting sessions does to the fields what finishing them one by one does to the state |
| SessionLoop.MilterClient.DisposeFinishedData | milter/client/milter-client.c:671-696 | likewise the batch on the fields, with its signals |
| SessionLoop.MilterClient.AcceptConnectionFd | milter/client/milter-client.c:1334-1405 | at the limit it suspends the loop and accepts nothing, otherwise it counts a connection iff one arrived |
| SessionLoop.MilterClient.AcceptConnection | milter/client/milter-client.c:2199-2210 | the single loop sets an accepted connection up at once, a worker leaves that to an idle source |
| SessionLoop.MilterClient.SetUpChannel | milter/client/milter-client.c:1257-1296 | the session is on the list with its handler connected, or, if it cannot start, finished at once |
| SessionLoop.MilterClient.CbFinished | milter/client/milter-client.c:1166-1199 | the session waits for the finisher, or all waiting ones are disposed of when they exceed the limit |
| SessionLoop.MilterClient.RunFinisher | milter/client/milter-client.c:1153-1164 | every waiting session is processed |
| SessionLoop.MilterClient.Shutdown | milter/client/milter-client.c:2500-2527 | the loop is told to quit at once iff nothing runs; a second call changes nothing |
| SessionLoop.MilterClient.Run | milter/client/milter-client.c:1153-1527 | for any events the callbacks leave the fields as the state machine says and keep its invariant |
| Driver.Driver.SendBody | tool/milter-test-server.c:383-399 | the next chunk, unless there is none or bodies are not wanted |
| Driver.Driver.SendHeader | tool/milter-test-server.c:355-370 | the first header, which leaves the list |
| Driver.Driver.SendEnvelopeRecipient | tool/milter-test-server.c:307-324 | the next recipient |
| Driver.Driver.SendUnknown | tool/milter-test-server.c:326-339 | the unknown command, from version 3 on |
| Driver.Driver.SendData | tool/milter-test-server.c:341-353 | the data command, from version 4 on |
| Driver.Driver.CbContinue | tool/milter-test-server.c:409-459 | whatever the state, the fall-through switch sends the next command of the script and no other |
| Driver.Driver.CbSkip | tool/milter-test-server.c:693-701 | the chunks not sent yet are dropped and nothing else |
| Driver.Driver.CbRefused | tool/milter-test-server.c:479-523 | a refused recipient is dropped and the message goes on while any is left, otherwise the session is aborted |
| Driver.Driver.Receive | tool/milter-test-server.c:460-565 | each reply does to the session what the reference does to a list of commands |
| Driver.Driver.Run | tool/milter-test-server.c:248-459 | for any replies the commands sent are those of the reference on the script connect, helo, mail, rcpt*, unknown, data, header*, end of header, body*, end of message, quit, and `success` is its verdict |
| Driver.ContinueSendsAll | tool/milter-test-server.c:410-459 | if every reply is "continue" the whole script goes out |
| Driver.SkipSendsTheRest | tool/milter-test-server.c:693-701 | with skips the first costs exactly the chunks not sent yet and further ones nothing |
| Driver.SessionEnds | tool/milter-test-server.c:410-459 | whatever the replies the session ends, with its only QUIT last |
| Driver.EndsSession | tool/milter-test-server.c:460-565 | over any run accept and discard end the session with an abort, as does a refusal of anything but a recipient; continue and skip never do, and after a skip no chunk is sent |
| Driver.FailsIff | tool/milter-test-server.c:479-565 | over any run the session has failed if and only if it was aborted for a reply other than accept |
| Driver.ScriptTells | tool/milter-test-server.c:248-459 | the script has of every kind of command what is wanted, once and in order, and nothing else: the unknown command from version 3 on, the data command from version 4 on, no step the milter declined; and the kinds come in the order of a session |
| Driver.Refusals | tool/milter-test-server.c:479-523 | the session is aborted at the recipients if and only if all are refused, and then all were sent |
| Driver.ScriptClosed | tool/milter-test-server.c:410-459 | the script ends with its only QUIT |
| Driver.RestWithoutBodies | tool/milter-test-server.c:693-701 | dropping the chunks gives the script of a message without them, in every state |

## Left out

- Weak memory: the fences of `libev-4.15/ev.c` are taken to give sequential consistency.
- Rounding: times are reals, so the tests in `ev_floor` and `periodic_recalc` that only matter when adding an interval changes nothing are not modelled.
- Periodics.PeriodicLoop.PeriodicsReify: a reschedule callback is a function of the time it is asked at, which stands still during the reify; that it returns no time in the past is the source's own assertion (`libev-4.15/ev.c:3108`).
- Pending.Queues.InvokePending: callbacks are scripts of feeds and clears, finitely many; a run in which callbacks feed for ever, or call `ev_run`, is not modelled.
- DenseArrays.WatcherArrays.Stop: the clearing of a pending event is `Pending.Queues.ClearPending` and not repeated; arrays are sequences, so their growth and stale ends are not modelled. The five pairs of functions are one pair with a kind.
- DenseArrays.WatcherArrays.Start: likewise.
- FdLoops.FdLoop.IoStop: likewise for the pending event; the intrusive `next` pointers of watcher lists are modelled as sequences, so sharing of a link between lists is not.
- FdLoops.FdLoop.HandleEvent: the kernel is assumed not to report on an fd it refused under its current generation.
- WakeUp.SleepsWhenQuiet: timers, periodics and I/O, which may also keep the loop from blocking, are not part of that model.
- EpollKernel.Kernel.Ctl: MOD and DEL succeed on an fd that is registered.
- FdLoops.FdLoop.EpollPoll: the kernel's list of events is any list; waiting (not at all while an fd is refused), interruption and growth of the event array are not modelled, nor are the error paths of `poll_poll` and `select_poll`.
- ArraySize.NextSize: sizes do not overflow; no other counter but the processed-session counter is bounded.
- ReplyBuffer.ClientContext.Modify: the seven C functions are one method over their arguments; a NULL body of positive size, error messages, logging and the handlers of error signals are not modelled.
- ReplyBuffer.MtaReads: packets must be shorter than 4 GiB, as their length prefix has 32 bits; `ReplyPackets.UnpackRoundTrip` asks the same.
- ReplyBuffer.Writer.Write: channel buffering and asynchronous flushing of `milter-writer.c` are one operation that succeeds or breaks the connection.
- SessionLoop.MilterClient.AcceptConnection: the accept thread of the two-thread mode and worker threads are not modelled; nor is a worker's removal of its watcher when it cannot set a connection up, and the pause after running out of file descriptors.
- SessionLoop.MilterClient.Shutdown: a shutdown can be called at any time, as it is from a signal handler (`milter/manager/milter-manager-main.c:181`); it ends one run, and a client that is run again starts afresh.
- Sessions.RunCounts: `max_connections` and the other limits are fixed for a run.
- ReplyCodes.Decode: it is handed one packet, whose length and letter have been read.
- ReplyReceiver.ModificationReadIff: the decoder scans a header packet two bytes beyond its end (`milter/core/milter-reply-decoder.c:421`); a packet that lacks its NULs, which no encoder here writes, is taken as refused.
- ReplyMeanings.MessageReadIff: packets must be shorter than 2 GiB, as the decoder's length is a signed number.
- ReplySessions.RunSession: the connection works throughout; a handler that answers `PROGRESS` is one whose reply comes later, and what it does in between is `Perform`.
- Driver.Driver.Receive: replies that are not wanted (`cb_state_transited`), changes of the message at end of message, timeouts (which abort like a discard), and an unknown server state are not modelled; a server context is the state it was put into by the last command.
- System calls, sockets, forking, daemonising, options, logging, the other backends of libev (kqueue, event ports, win32), embed, child, stat and signalfd watchers, the decoder of commands and that of the negotiation's reply, and `libmilter`'s compatibility layer.
