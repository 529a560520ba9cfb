# Verification of the epoll shim

A Dafny model of `shims/epoll`, which emulates Linux's epoll, timerfd, signalfd and eventfd on
top of kqueue, and proofs about it. `dafny verify dfyconfig.toml` checks everything.

| file | models |
|---|---|
| `RWLock.dfy` | the reader-writer lock: a protocol of atomic steps of any number of threads, and the lock in place |
| `RankTree.dfy`, `RankTreeHeap.dfy` | the rank-balanced tree of the registered files: the functional tree, and the macros on parent pointers and red bits in an arena, which refine it |
| `Timespec.dfy`, `CatchUp.dfy`, `TimerFD.dfy` | timerfd: checked arithmetic, the expiration grid on exact nanoseconds, and the descriptor on seconds and nanoseconds |
| `KQueueEvent.dfy`, `SignalFD.dfy`, `EventFD.dfy` | the trigger that signalfd and eventfd share, and both descriptors |
| `StepDetector.dfy` | the count of timers that watch the realtime clock, and the generations of the detector threads |
| `Descriptors.dfy` | the table of open descriptions and their reference counts |
| `Repoll.dfy` | how changes of the poll list reach threads blocked in ppoll |
| `EpollFilters.dfy`, `EpollNode.dfy`, `EpollFD.dfy` | which filters a file needs and what events mean; registered nodes and the kqueue; the epoll descriptor with ctl, close and wait |
| `Sums.dfy`, `Collections.dfy` | sums over threads, lists and maps |

The configuration is macOS's: `EVFILT_USER` and `EVFILT_EXCEPT` exist and `EPOLLRDHUP` is 0x2000.

System calls are arguments or arbitrary answers. A kqueue is a map from files to their filters;
`kevent` may deliver any events of what it holds, each at most once. Signals arrive between any
two steps, finitely often; a kernel answers each call that may fail from an arbitrary function; a
wait is given finitely many batches of events, which bounds the `again:` loop. Registered nodes are
an arena, a map from files to nodes, because the tree has one node for each file.

Assumed: fewer than 2^30 threads use the lock and only holders release it; the monotonic clock does
not run backwards; `poll` reports requested or error bits only; a file that kqueue refuses with
ENODEV is refused so every time, and only such a file is; nothing reports EV_EOF for a kqueue; an
`EVFILT_EXCEPT` event is for a registered socket that asked for it; triggering a user event that is
in the kqueue succeeds, and so does the trigger of `signalfd_ctx_clear_signal`; the contents of
closed and reopened file numbers do not change their kind behind a registration.

## Where the code does less than it promises

- The comment at `shims/epoll/external/tree-macros/include/sys/tree.h:59-70` gives leaves rank 1;
  with the null rank of the code a leaf has rank 0. The model follows the code, and the stated
  height bound holds.
- The assertion in `timerfd_ctx_read` fails when the timer event is delivered and catching up
  overflows with nothing stored, for instance for intervals of more than 2^63 - 1 nanoseconds:
  `CatchUps.DueWithoutCount` is such a timer, `CatchUps.DueCounts` and `TimerFDs.TimerFD.Read` say
  exactly when it happens.
- A one-shot expiration is lost when a gettime is the first call after it (`CatchUps.OneShotDelivered`).
- A write of 0 to an eventfd makes it readable with nothing to read (`EventFDs.ZeroesExactly`), and a
  write whose trigger fails has added its value all the same (`EventFDs.EventFD.Write`).
- A completion pass after a full buffer feeds events without registering anew, so a level-triggered
  file's filters may then lag behind its EOF state; `drifted` in `EpollFDs.EpollFD` is ghost state that
  records the files whose needed filters a completion pass has changed.

## Model

| member | source | states |
|---|---|---|
| `RWLockProtocol.StepInv` | `shims/epoll/src/rwlock.c:68-119` | Every atomic operation, semaphore operation and mutex operation of every thread keeps the counting invariant over `num_pending`, `readers_departing`, the two semaphores and the threads' positions. |
| `RWLockProtocol.Exclusion` | `shims/epoll/src/rwlock.c:68-107` | In every reachable interleaving of any number of threads a write holder excludes every other writer and every reader. |
| `RWLockProtocol.DepartingCounts` | `shims/epoll/src/rwlock.c:86-95` | Once a writer has added its count, `readers_departing` is active readers + untaken reader tokens + readers mid-departure. |
| `RWLockProtocol.DowngradeReads` | `shims/epoll/src/rwlock.c:97-119` | A downgrade leaves its caller the one active reader, with no writer beside it. |
| `RWLockProtocol.ReleaseGivesUp` | `shims/epoll/src/rwlock.c:97-113` | In every run, a writer that releases the lock gives it up: then nobody holds it, and `num_pending` is the number of the readers that wait. |
| `RWLockProtocol.ReadReleaseGivesUp` | `shims/epoll/src/rwlock.c:76-84` | A reader that releases the lock does not hold it any longer and is out, or, if a writer has announced itself, has only to count itself out for it. |
| `RWLockProtocol.ReadEnters` | `shims/epoll/src/rwlock.c:68-74` | A reader gets the lock at once, unless a writer has announced itself: then it waits. |
| `RWLockProtocol.WriterWakeup` | `shims/epoll/src/rwlock.c:76-95` | At most one writer token exists, and a writer waiting without one has a reader, a reader token, a departing reader or an owed post to get it from. |
| `RWLockProtocol.ReaderWakeup` | `shims/epoll/src/rwlock.c:68-107` | While a reader waits, a token exists, an unlocker owes a post, or a writer has announced itself. |
| `RWLockProtocol.TokensHaveTakers` | `shims/epoll/src/rwlock.c:68-107` | Reader tokens never outnumber the readers that wait for one. |
| `RWLockProtocol.NoDeadlock` | `shims/epoll/src/rwlock.c:68-119` | As long as some thread is inside an operation or holds the lock, one of those threads can step, by itself or by releasing the lock. |
| `RWLockProtocol.WriterNotOvertaken` | `shims/epoll/src/rwlock.c:68-95` | Whatever step another thread takes, the readers that a waiting writer waits for do not become more. |
| `RWLockProtocol.QuiescentIsInitial` | `shims/epoll/src/rwlock.c:68-119` | When no thread holds or waits, counters, tokens and mutex are as at the start. |
| `RWLockProtocol.StepLeads` | `shims/epoll/src/rwlock.c:68-119` | No step is in vain: each brings its thread closer to holding the lock, to having released it or to having downgraded it, whichever it is in, and touches no other thread. |
| `RWLockProtocol.CanDrain` | `shims/epoll/src/rwlock.c:68-119` | From every run of any number of threads, once nobody asks for the lock any more and holders release it, a run of bounded length brings all threads out, with counters, tokens and mutex as at the start. |
| `RWLockProtocol.CountersFit` | `shims/epoll/src/rwlock.c:68-107` | The counters fit the 32-bit atomics in every run of fewer than 2^30 threads. |
| `RWLock.Lock.LockRead` | `shims/epoll/src/rwlock.c:68-74` | `rwlock_lock_read` up to its wait, in place on 32-bit counters, is the protocol's step; the caller reads, or waits for an announced writer. |
| `RWLock.Lock.UnlockRead` | `shims/epoll/src/rwlock.c:76-84` | `rwlock_unlock_read`'s first atomic operation is the protocol's step. |
| `RWLock.Lock.AnnounceWriter` | `shims/epoll/src/rwlock.c:86-95` | The subtraction that announces a writer is the protocol's step. |
| `RWLock.Lock.PostReadersAndUnlock` | `shims/epoll/src/rwlock.c:97-107` | The loop posts exactly one token to every reader that waited when the count was added back, then frees the mutex, and changes nothing else. |
| `RWLock.Lock.UnlockWrite` | `shims/epoll/src/rwlock.c:97-113` | `rwlock_unlock_write` ends with its caller out, the mutex free, `num_pending` the number of the readers that waited, and a token for exactly those. |
| `RWLock.Lock.DowngradeWrite` | `shims/epoll/src/rwlock.c:97-119` | `rwlock_downgrade` ends with its caller reading and counted, no writer, and a token for exactly the readers that waited. |
| `RWLock.Lock.UnlockReadWhole` | `shims/epoll/src/rwlock.c:76-84` | `rwlock_unlock_read` ends with its caller out and uncounted, and posts the token of a waiting writer exactly when it is the last reader that this waits for. |
| `RWLock.Lock.LockWriteFree` | `shims/epoll/src/rwlock.c:86-95` | `rwlock_lock_write` on a free lock gets it at once. |
| `RankTree.HeightBound` | `shims/epoll/external/tree-macros/include/sys/tree.h:59-70` | A weak AVL tree of n nodes has 2^height <= (n+1)^2. |
| `RankTree.InsertFix` | `shims/epoll/external/tree-macros/include/sys/tree.h:463-513` | The insertion fix-up, over the whole path to the root, terminates and restores the weak AVL rule. |
| `RankTree.InsertFixInOrder` | `shims/epoll/external/tree-macros/include/sys/tree.h:463-513` | The insertion fix-up moves no node past another. |
| `RankTree.RemoveFix` | `shims/epoll/external/tree-macros/include/sys/tree.h:515-593` | The removal fix-up (demotions, single and double rotations) restores the weak AVL rule. |
| `RankTree.RemoveFixInOrder` | `shims/epoll/external/tree-macros/include/sys/tree.h:515-593` | The removal fix-up moves no node past another. |
| `RankTreeLayout.Refocus` | `shims/epoll/external/tree-macros/include/sys/tree.h:338-404` | The links of a subtree, of the path above it and of the whole tree are the same links. |
| `RankTreeHeap.Head.RotateLeft` | `shims/epoll/external/tree-macros/include/sys/tree.h:406-422` | The rotation on parent pointers and red bits is the rotation of the tree at that place, every other node and link untouched. |
| `RankTreeHeap.Head.InsertColor` | `shims/epoll/external/tree-macros/include/sys/tree.h:463-513` | The loop on parent pointers and red bits refines the insertion fix-up of the whole tree. |
| `RankTreeHeap.Head.RemoveColor` | `shims/epoll/external/tree-macros/include/sys/tree.h:515-593` | The loop on parent pointers and red bits refines the removal fix-up of the whole tree. |
| `RankTreeHeap.Head.Insert` | `shims/epoll/external/tree-macros/include/sys/tree.h:637-669` | `RB_INSERT` returns the colliding node and changes nothing, or adds exactly the one node, whose key was in no node; links, parent links, key order and rank rule hold afterwards. |
| `RankTreeHeap.Head.Remove` | `shims/epoll/external/tree-macros/include/sys/tree.h:595-635` | `RB_REMOVE` removes exactly the given node and keeps links, parent links, key order and rank rule. |
| `RankTreeHeap.Head.Find` | `shims/epoll/external/tree-macros/include/sys/tree.h:671-688` | `RB_FIND` agrees with membership, both ways. |
| `RankTreeHeap.Head.MinMax` | `shims/epoll/external/tree-macros/include/sys/tree.h:758-772` | `RB_MINMAX` gives the first or the last node in order, NULL exactly for an empty tree. |
| `RankTreeHeap.Head.Next` | `shims/epoll/external/tree-macros/include/sys/tree.h:712-733` | `RB_NEXT` gives the next node in order, NULL after the last. |
| `RankTreeHeap.Head.ForEach` | `shims/epoll/external/tree-macros/include/sys/tree.h:803-806` | The traversal lists exactly the nodes of the tree, in strictly increasing key order. |
| `RankTreeHeap.Head.HeightAtMost` | `shims/epoll/external/tree-macros/include/sys/tree.h:59-70` | Every tree these operations build keeps the height bound. |
| `Timespecs.AddSafe` | `shims/epoll/src/timespec_util.c:20-40` | The carry addition is exact on total nanoseconds and fails exactly when the seconds overflow. |
| `Timespecs.SubSafe` | `shims/epoll/src/timespec_util.c:42-62` | The borrow subtraction is exact, and never fails for valid arguments. |
| `Timespecs.ToNanos` | `shims/epoll/src/timerfd_ctx.c:42-54` | Conversion is exact and fails exactly when the nanoseconds do not fit 64 bits. |
| `Timespecs.FromNanos` | `shims/epoll/src/timerfd_ctx.c:56-63` | The inverse conversion gives a valid timespec of the same nanoseconds. |
| `CatchUps.PassedCounts` | `shims/epoll/src/timerfd_ctx.c:224-292` | The count added by catching up is exactly the number of k >= 0 with value + k*interval <= now. |
| `CatchUps.LeastGridPointAfter` | `shims/epoll/src/timerfd_ctx.c:224-292` | The new expiration is the least grid point after now. |
| `CatchUps.OverflowCases` | `shims/epoll/src/timerfd_ctx.c:237-276` | Each early exit of the catch-up is a true overflow. |
| `CatchUps.NoOverflow` | `shims/epoll/src/timerfd_ctx.c:237-276` | There is none while the lateness plus one interval fits 64 bits of nanoseconds and the resulting second fits 64 bits. |
| `CatchUps.CatchUpComposes` | `shims/epoll/src/timerfd_ctx.c:224-292` | If one update to t2 does not overflow, updating at t1 <= t2 and then t2 gives the same state. |
| `CatchUps.Conservation` | `shims/epoll/src/timerfd_ctx.c:457-471` | Over any run of reads and gettimes at non-decreasing times, values read + stored expirations + what the 64-bit counter wrapped away are the grid points passed; `TimerFDs.TimerFD.Run` is that run on the descriptor. |
| `CatchUps.ExactConservation` | `shims/epoll/src/timerfd_ctx.c:607-720` | With fewer than 2^64 grid points nothing is wrapped away and the account is exact. |
| `CatchUps.Remaining` | `shims/epoll/src/timerfd_ctx.c:457-471` | gettime reports v-(now-t0) before the first expiry and i-((now-v) mod i) after it, always positive. |
| `CatchUps.OneShotDelivered` | `shims/epoll/src/timerfd_ctx.c:277-282` | In such a run a one-shot expiration is delivered if and only if the first call at or after the expiry is a read. |
| `CatchUps.DueCounts` | `shims/epoll/src/timerfd_ctx.c:224-292` | A timer that is due has something to report except exactly when nothing was stored and the catch-up overflows. |
| `CatchUps.DueWithoutCount` | `shims/epoll/src/timerfd_ctx.c:676-690` | An input that fails: a due timer with an interval of 2^63 ns has nothing to report, so the assertion in read does not hold for it. |
| `CatchUps.HugeIntervalLosesExpiration` | `shims/epoll/src/timerfd_ctx.c:246-251` | Every interval beyond 2^63-1 ns loses its first expiration. |
| `TimerFDs.TimerFD.UpdateToCurrentTime` | `shims/epoll/src/timerfd_ctx.c:224-292` | The stepwise update on seconds and nanoseconds is the catch-up on exact nanoseconds. |
| `TimerFDs.TimerFD.RegisterEvent` | `shims/epoll/src/timerfd_ctx.c:331-435` | The registered deadline is at or after the target and less than a microsecond late; none for targets ten years away. |
| `TimerFDs.Micros` | `shims/epoll/src/timerfd_ctx.c:331-380` | Rounding up: at or after the target by less than 1 microsecond, 0 for targets in the past. |
| `TimerFDs.TimerFD.GetTime` | `shims/epoll/src/timerfd_ctx.c:565-584` | gettime catches up, reports the distance to the next expiration, and wraps the counter exactly when the catch-up does; without a clock it changes nothing. |
| `TimerFDs.TimerFD.SetTime` | `shims/epoll/src/timerfd_ctx.c:473-563` | settime fails exactly with EINVAL for improper times or a deadline beyond 64 bits, with the system's error when a clock or the kqueue fails, and with ECANCELED exactly when an old and a new cancellable setting meet a stepped clock; it reports the old setting as of its time, and leaves the new deadline, interval and registered event, an empty count, and an event that is never early, or on an error the old setting caught up. |
| `TimerFDs.TimerFD.SettimeMeans` | `shims/epoll/src/timerfd_ctx.c:473-563` | Exactly when settime fails, and when its timer first expires: a relative setting counts from the time at which a relative timer that goes on was reported, or else from the time read for it. |
| `TimerFDs.TimerFD.Rearm` | `shims/epoll/src/timerfd_ctx.c:586-605` | Re-arming registers an event that is not early, or disarms. |
| `TimerFDs.TimerFD.Read` | `shims/epoll/src/timerfd_ctx.c:607-720` | What read returns, for every type of timer: the caught-up expirations, or EAGAIN without any; for an absolute timer on the realtime clock ECANCELED if it was stepped and the timer asked for that, and by its event one expiration or none if the clock was set back. It registers the next event and wraps the counter exactly when the catch-up does; an assertion fails only when a delivered event finds nothing because the interval overflowed or the counter had wrapped, and the event of a stepped clock always cancels. |
| `TimerFDs.TimerFD.JumpTold` | `shims/epoll/src/timerfd_ctx.c:655-720` | The event of an absolute timer on the realtime clock is told also when the clock has been set back since: a one-shot timer expires once and stops, an interval timer as often as its grid points have passed, and one that asked for it is cancelled. |
| `TimerFDs.TimerFD.RealtimeChange` | `shims/epoll/src/timerfd_ctx.c:116-178` | A stepped clock cancels a timer that asked for it, registers any other absolute realtime timer afresh against the new time unless its event is there already, and touches no other. |
| `TimerFDs.TimerFD.Run` | `shims/epoll/src/timerfd_ctx.c:565-720` | Any run of reads and gettimes in place is the exact account of the same calls, and no assertion fails, as long as the grid up to the last call and its count fit 64 bits. |
| `TimerFDs.TimerFD.SetAndRun` | `shims/epoll/src/timerfd_ctx.c:473-720` | After settime(v, i) at t0, all that any reads and gettimes return, and the count left, are the grid points t0 + v + k*i passed, and the timer waits for the next one. |
| `TimerFDs.TimerFD.SetRunAndGet` | `shims/epoll/src/timerfd_ctx.c:457-584` | A gettime at t, after settime(v, i) at t0 and any reads and gettimes, reports v-(t-t0) before the first expiry and i-((t-t0-v) mod i) after it. |
| `TimerFDs.TimerFD.RunAny` | `shims/epoll/src/timerfd_ctx.c:473-720` | Over any run of settimes, gettimes and reads of a timer on the monotonic clock, failing calls included, every call returns and leaves what it should, no assertion fails and the counter does not wrap, as long as no time plus interval exceeds 2^63-1 ns. |
| `SignalFDs.SignalFD.constructor` | `shims/epoll/src/signalfd_ctx.c:46-133` | Signals that are pending before or arrive during init leave the kqueue readable. |
| `SignalFDs.SignalFD.ClearSignal` | `shims/epoll/src/signalfd_ctx.c:283-315` | Clear-then-recheck with signals arriving between any two steps keeps the kqueue readable while a watched signal is pending. |
| `SignalFDs.SignalFD.Read` | `shims/epoll/src/signalfd_ctx.c:147-231` | A read takes at most one watched signal, leaves the kqueue readable while one is pending, and unless signals arrive meanwhile is exact about both. |
| `SignalFDs.SignalFD.Poll` | `shims/epoll/src/signalfd_ctx.c:330-337` | A poll keeps the same, and answers POLLIN exactly when a watched signal is pending if none arrives meanwhile. |
| `SignalFDs.SignalFD.Run` | `shims/epoll/src/signalfd_ctx.c:283-337` | Over any run of reads and polls, whenever the mutex is free no pending watched signal goes unnoticed. |
| `KQueueEvents.KQueueEvent.Trigger` | `shims/epoll/src/kqueue_event.c:78-103` | A recorded trigger is an active user event; a failed trigger records nothing. |
| `KQueueEvents.KQueueEvent.Clear` | `shims/epoll/src/kqueue_event.c:105-122` | The drain ends with a kqueue that was found empty, whatever arrives meanwhile, and forgets the trigger. |
| `EventFDs.Conservation` | `shims/epoll/src/eventfd_ctx.c:61-115` | In both modes the initial value plus accepted writes is the counter plus everything read, and the counter stays within 2^64-2. |
| `EventFDs.SemaphoreReads` | `shims/epoll/src/eventfd_ctx.c:88-115` | In semaphore mode n reads take min(n, counter), one each. |
| `EventFDs.WritesFit` | `shims/epoll/src/eventfd_ctx.c:61-86` | Writes are taken as long as the counter stays at most 2^64-2, and the one that goes beyond is not. |
| `EventFDs.PlainRead` | `shims/epoll/src/eventfd_ctx.c:99-114` | In ordinary mode a read after any operations returns all that was there or written and not yet read, and leaves nothing for the next. |
| `EventFDs.NonZeroWrites` | `shims/epoll/src/eventfd_ctx.c:61-86` | With non-zero writes the descriptor is triggered only while the counter is positive. |
| `EventFDs.ZeroesExactly` | `shims/epoll/src/eventfd_ctx.c:61-115` | It may be triggered with nothing to read if and only if a write of 0 was made and no read took the counter down to 0 since. |
| `EventFDs.ZeroWriteStaysTriggered` | `shims/epoll/src/eventfd_ctx.c:61-115` | An input that does so: a write of 0 to an empty counter, and a read that finds nothing. |
| `EventFDs.EventFD.Write` | `shims/epoll/src/eventfd_ctx.c:61-86` | The error cases, the new counter, and that a successful write leaves the kqueue readable; a failing trigger leaves the value added. |
| `EventFDs.EventFD.Read` | `shims/epoll/src/eventfd_ctx.c:88-115` | EAGAIN exactly when the counter is 0; else an ordinary eventfd returns the counter and leaves 0, a semaphore returns 1 and leaves one less; afterwards the kqueue is readable exactly if the counter is still positive. |
| `StepDetectors.CountIsExact` | `shims/epoll/src/epoll_shim_ctx.c:538-569` | With no settime in flight the counter is the number of timers that are open, on CLOCK_REALTIME and set with an absolute time. |
| `StepDetectors.SubtractionIsSafe` | `shims/epoll/src/epoll_shim_ctx.c:549-554` | The assertion before the subtraction holds in every reachable state. |
| `StepDetectors.CountFits` | `shims/epoll/src/epoll_shim_ctx.c:549-562` | The counter never exceeds the number of timers, so its 64 bits suffice. |
| `StepDetectors.GenerationsDistinct` | `shims/epoll/src/epoll_shim_ctx.c:446-490` | Detectors have pairwise distinct generations until the 64-bit number has gone round. |
| `StepDetectors.AtMostOneCurrent` | `shims/epoll/src/epoll_shim_ctx.c:446-569` | At most one detector, the last, has the current generation, and none when the counter is 0. |
| `StepDetectors.Monitor.UpdateMonitoring` | `shims/epoll/src/epoll_shim_ctx.c:538-569` | The locked update changes the counter by exactly the change, and starts a detector or a new generation exactly at the ends. |
| `StepDetectors.Monitor.SetTime` | `shims/epoll/src/timerfd.c:201-221` | The timer's change is counted once, under its mutex, as the difference of what it contributes. |
| `StepDetectors.Monitor.SetAndReport` | `shims/epoll/src/timerfd.c:201-221` | A settime raises the count by 1 exactly when a realtime timer goes from relative or disarmed to absolute, lowers it by 1 on the way back, leaves it alone for a monotonic timer, and starts a detector or ends its generation accordingly. |
| `StepDetectors.Monitor.Close` | `shims/epoll/src/timerfd.c:76-90` | Closing a timer takes exactly its contribution off: 1 for a realtime timer with an absolute time. |
| `Descriptors.ReachableIsAlive` | `shims/epoll/src/epoll_shim_ctx.c:62-112` | A description that a slot, a call or a node refers to is alive, so the assertions on the counts hold. |
| `Descriptors.NothingLeaks` | `shims/epoll/src/epoll_shim_ctx.c:90-112` | When nothing is open and no call is in progress, every description ever created has been destroyed, once. |
| `Descriptors.NodesSplit` | `shims/epoll/src/epollfd_ctx.c:41-54` | Destroying an epoll descriptor gives up exactly the references of its nodes. |
| `Descriptors.Context.SpaceNeeded` | `shims/epoll/src/epoll_shim_ctx.c:253-257` | The doubling ends above the file, at most at twice it, and does not leave 32 bits. |
| `Descriptors.Context.Grow` | `shims/epoll/src/epoll_shim_ctx.c:252-277` | Growing keeps all old slots and leaves the new ones empty; failing leaves the table alone. |
| `Descriptors.Context.CreateDesc` | `shims/epoll/src/epoll_shim_ctx.c:237-306` | Creation drops a stale description, keeps every other slot, and leaves one new description with the creator's reference; counts stay exact on every path, and without a stale description nothing else changes. |
| `Descriptors.Context.InstallDesc` | `shims/epoll/src/epoll_shim_ctx.c:308-315` | Installing moves the creator's reference into the slot. |
| `Descriptors.Context.DropDesc` | `shims/epoll/src/epoll_shim_ctx.c:421-428` | Dropping a failed creation destroys the description, once, and nothing else. |
| `Descriptors.Context.FindDesc` | `shims/epoll/src/epoll_shim_ctx.c:317-343` | A lookup returns what the slot holds, alive, with one more reference. |
| `Descriptors.Context.RemoveDesc` | `shims/epoll/src/epoll_shim_ctx.c:384-403` | Closing empties the slot; its reference becomes the call's. |
| `Descriptors.Context.Release` | `shims/epoll/src/epoll_shim_ctx.c:98-112` | The atomic decrement gives up one reference; exactly the last one has to destroy. |
| `Descriptors.Context.Unref` | `shims/epoll/src/epoll_shim_ctx.c:90-112` | Giving up the last reference destroys the description and releases exactly what its nodes refer to; nothing is left half destroyed and nothing revived. |
| `Descriptors.Context.AddNode` | `shims/epoll/src/epollfd_ctx.c:1134-1139` | A node takes one reference to a description that can be polled, and none otherwise. |
| `RepollProtocol.StepInv` | `shims/epoll/src/epoll.c:186-280` | Every step of every thread keeps the snapshot protocol's invariant. |
| `RepollProtocol.SnapshotsAreCurrent` | `shims/epoll/src/epoll.c:210-259` | Whenever the descriptor's mutex is free every thread in ppoll polls on the current list, files and events; the counter is the number of threads in the window. |
| `RepollProtocol.PollersAreWoken` | `shims/epoll/src/epollfd_ctx.c:809-834` | While a changer waits for pollers the kqueue is readable. |
| `RepollProtocol.OthersOnlyLeave` | `shims/epoll/src/epoll.c:246-259` | While it waits, whatever another thread does keeps the list and the readiness and brings the last poller one step closer to leaving. |
| `RepollProtocol.WaitEnds` | `shims/epoll/src/epollfd_ctx.c:820-827` | It sleeps only while a thread can step that it waits for: one in ppoll can because the kqueue is readable, one that has left because the mutex is given up; when all have left its next step ends the wait. |
| `RepollProtocol.WaitIsBounded` | `shims/epoll/src/epoll.c:246-259` | However the other threads are scheduled, they can take no more steps than the pollers have left to leave, and the wait outlasts them all. |
| `RepollProtocol.WaitCanEnd` | `shims/epoll/src/epollfd_ctx.c:809-834` | From every state of a wait there is a run that ends it, of exactly that many steps and one more, none of which is a timeout of ppoll; the list stays, and no thread has an older one. |
| `RepollProtocol.ChangeCanComplete` | `shims/epoll/src/epollfd_ctx.c:809-834` | From every state a thread in its section can change the list to any other and finish, without a timeout of ppoll: it ends with the new list and no thread with an older one. |
| `RepollProtocol.PollerStays` | `shims/epoll/src/epoll.c:210-246` | A wait that has drained the kqueue polls on the current list, counted, with the mutex free and the kqueue not readable. |
| `RepollProtocol.CanFinish` | `shims/epoll/src/epoll.c:186-280` | From every state there is a run that brings all threads out of their sections, waits and polls; it leaves the list alone and ends with everything as at the start. |
| `RepollProtocol.ChangeReachesAll` | `shims/epoll/src/epollfd_ctx.c:809-834` | A change is over only when no thread holds a snapshot. |
| `RepollProtocol.ChangeLeavesOldSnapshots` | `shims/epoll/src/epollfd_ctx.c:1007-1021` | While a change is pending a poller may still hold the old list: the free mutex is needed. |
| `Repoll.Descriptor.TestCount` | `shims/epoll/src/epollfd_ctx.c:820-827` | The loop on the condition variable, in place, is the protocol's step. |
| `Repoll.Descriptor.CountOut` | `shims/epoll/src/epoll.c:253-259` | Leaving ppoll, with the signal of the last thread, is the protocol's step. |
| `EpollFilters.NeverEmpty` | `shims/epoll/src/epollfd_ctx.c:62-213` | The chosen filters are never empty, are of kinds the file has, and for EPOLLET the same ones, but never level-triggered. |
| `EpollFilters.SocketLevelExact` | `shims/epoll/src/epollfd_ctx.c:120-179` | For a level-triggered socket a chosen filter keeps firing exactly while epoll owes a report on its state: nothing is missed and nothing spins. |
| `EpollFilters.SocketReport` | `shims/epoll/src/epollfd_ctx.c:447-554` | Whatever batch the kqueue delivers for such a socket, in any order, the report is exactly what is due, apart from EPOLLERR, which `EpollFilters.ErrorTold` states. |
| `EpollFilters.SocketReportSound` | `shims/epoll/src/epollfd_ctx.c:447-564` | Events of a socket, also with EPOLLET and with stale EOF state, report nothing that is not due. |
| `EpollFilters.UnknownEndIsWatched` | `shims/epoll/src/epollfd_ctx.c:144-176` | Until both ends are known closed, a direction not yet known to be closed has a filter. |
| `EpollFilters.ReadEndIsWatched` | `shims/epoll/src/epollfd_ctx.c:120-129` | With EPOLLRDHUP asked for, the read end is watched until it is known closed. |
| `EpollFilters.HangUpIsReported` | `shims/epoll/src/epollfd_ctx.c:447-554` | Two events of such filters after the peer has gone report EPOLLHUP. |
| `EpollFilters.SocketConverges` | `shims/epoll/src/epollfd_ctx.c:447-554` | From any stale EOF state of a level-triggered socket two rounds of events are enough: the second reports exactly what is due, EPOLLERR apart. |
| `EpollFilters.OrdinaryLevelExact` | `shims/epoll/src/epollfd_ctx.c:181-186` | The same exactness for level-triggered ordinary files. |
| `EpollFilters.OrdinaryReport` | `shims/epoll/src/epollfd_ctx.c:461-554` | The report of a level-triggered ordinary file is exactly what is due, apart from EPOLLERR, which `EpollFilters.ErrorTold` states. |
| `EpollFilters.EdgeReport` | `shims/epoll/src/epollfd_ctx.c:461-564` | With EPOLLET the report of a socket or ordinary file is exactly what is due, once every filter that fires has told, in whatever order and however often, EPOLLERR and EPOLLPRI as its events say. |
| `EpollFilters.ErrorTold` | `shims/epoll/src/epollfd_ctx.c:480-488` | EPOLLERR of a socket or ordinary file is reported exactly if one of its events says that something failed. |
| `EpollFilters.UrgentTold` | `shims/epoll/src/epollfd_ctx.c:411-564` | EPOLLPRI is reported exactly if it is asked for and an event of the except filter was confirmed. |
| `EpollFilters.FifoLevelExact` | `shims/epoll/src/epollfd_ctx.c:69-105` | The filter of a level-triggered FIFO with one end keeps firing exactly while epoll owes a report on its state. |
| `EpollFilters.FifoReadReport` | `shims/epoll/src/epollfd_ctx.c:461-564` | The reading end of a FIFO reports EPOLLIN exactly with bytes to read, EPOLLHUP without a writer. |
| `EpollFilters.FifoWriteReport` | `shims/epoll/src/epollfd_ctx.c:461-564` | The writing end of a FIFO reports EPOLLOUT exactly with room for PIPE_BUF bytes, EPOLLERR without a reader. |
| `EpollFilters.FifoBothReport` | `shims/epoll/src/epollfd_ctx.c:461-564` | A FIFO open for both reports both ways while it has another end; at its end only what is left to read and EPOLLHUP count, in whatever order its two events come. |
| `EpollFilters.KQueueLevelExact` | `shims/epoll/src/epollfd_ctx.c:107-118` | The filter of a level-triggered kqueue stays at its level exactly if EPOLLIN is asked for. |
| `EpollFilters.FedGrows` | `shims/epoll/src/epollfd_ctx.c:556-564` | An event's report stays inside the requested events plus EPOLLHUP and EPOLLERR and takes nothing back. |
| `EpollFDs.EpollFD.FeedFile` | `shims/epoll/src/epollfd_ctx.c:285-585` | The stepwise feed of a file's event is the event function of the module EpollFilters; for a kqueue of this library its poll function is asked, once, and has the last word. |
| `EpollFDs.EpollFD.FeedPoll` | `shims/epoll/src/epollfd_ctx.c:291-317` | A poll-only file reports what poll says to this call, EPOLLERR if that fails, nothing for an invalid file. |
| `EpollFDs.EpollFD.FeedRetry` | `shims/epoll/src/epollfd_ctx.c:319-355` | A FIFO waiting for a reader gets its write filter, and does if no call fails; else it reports EPOLLERR and EPOLLOUT as asked and, level-triggered, has its own event active again. |
| `EpollNodes.AsksMeans` | `shims/epoll/src/epollfd_ctx.c:215-226` | Of the caller's mask exactly EPOLLIN, EPOLLOUT, EPOLLPRI and EPOLLRDHUP are kept for a socket, EPOLLIN and EPOLLOUT for any other file. |
| `EpollNodes.DueMeans` | `shims/epoll/src/epollfd_ctx.c:215-226` | What is due, bit by bit, in terms of that mask, the state of the file and its events. |
| `EpollFDs.EpollFD.TriggerRepoll` | `shims/epoll/src/epollfd_ctx.c:809-834` | After it no thread polls on an older list; the user event it needs has been added. |
| `EpollFDs.EpollFD.RemoveFromQueue` | `shims/epoll/src/epollfd_ctx.c:836-885` | The node leaves list and kqueue, everything else stays. |
| `EpollFDs.EpollFD.RegisterEvents` | `shims/epoll/src/epollfd_ctx.c:887-1060` | It fails only with an error that one of its calls or their receipts gave, which for a FIFO the EPIPE of its write filter is not; on success the kqueue has exactly the filters the node needs, or a FIFO without a reader is known closed and told of by its read filter or an active event of its own, or a file that only poll can watch is on the list and no thread polls on an older one; on failure everything but the node's own kqueue state is in order. |
| `EpollFDs.EpollFD.LoseReader` | `shims/epoll/src/epollfd_ctx.c:1026-1048` | A FIFO whose write filter is refused with EPIPE is closed both ways and, unless its read filter reports that, has an active event of its own. |
| `EpollFDs.EpollFD.RemoveNode` | `shims/epoll/src/epollfd_ctx.c:1062-1073` | Exactly this file leaves tree, list and kqueue. |
| `EpollFDs.EpollFD.AddNode` | `shims/epoll/src/epollfd_ctx.c:1104-1192` | ADD of a file that can be watched succeeds if there is memory, a FIFO's mode is good and no call fails, the EPIPE of a FIFO without a reader apart; else the error is ENOMEM, EINVAL, that of fcntl or that of the call or receipt; a failed one leaves the set of registered files as it was, on every path, a successful one adds exactly the file, as asked, of the kind that fstat says, and with its filters or on the poll list. |
| `EpollFDs.EpollFD.ModifyNode` | `shims/epoll/src/epollfd_ctx.c:1194-1209` | MOD succeeds if no call fails, and fails only with the error of one; a failed one removes the node, a successful one changes only it, only as asked, and leaves its filters right or the file on the poll list. |
| `EpollFDs.EpollFD.RemoveFd` | `shims/epoll/src/epollfd_ctx.c:1228-1243` | Closing a file removes it from set, list and kqueue. |
| `EpollFDs.EpollFD.Ctl` | `shims/epoll/src/epollfd_ctx.c:1245-1309` | Every error code of epoll_ctl, success for a file that can be watched when no call fails, and the effect of either on the registered set; after a successful ADD or MOD a file that only poll can watch is on the list, has an event of its own, and no thread polls without it; sizes, list membership, filters and pollers' snapshots agree with it. |
| `EpollFDs.EpollFD.AddedModes` | `shims/epoll/src/epollfd_ctx.c:215-236` | EPOLLET and EPOLLONESHOT give the added file filters that fire on changes only, others at their level, and exactly for what was asked where that has a filter; it is watched in any case. |
| `EpollFDs.EpollFD.MakePfdsSpace` | `shims/epoll/src/epollfd_ctx.c:736-759` | There is room for the list and the kqueue, or nothing changed. |
| `EpollFDs.EpollFD.FillPollFds` | `shims/epoll/src/epollfd_ctx.c:1211-1226` | Exactly 1 + `poll_fds_size` slots are filled, with the kqueue and the list's files and events; the rest is untouched. |
| `EpollFDs.EpollFD.PollAll` | `shims/epoll/src/epollfd_ctx.c:1325-1334` | Every slot is asked about, once, and gets poll's answer; none is found exactly if all are silent; only the call itself can fail. |
| `EpollFDs.EpollFD.EnterPoll` | `shims/epoll/src/epoll.c:210-235` | A thread enters its ppoll window with the current list. |
| `EpollFDs.EpollFD.Sweep` | `shims/epoll/src/epollfd_ctx.c:1336-1349` | Exactly the files that poll found invalid go, while the list shrinks under the loop, and every other one that is ready has its own event active. |
| `EpollFDs.EpollFD.Refilter` | `shims/epoll/src/epollfd_ctx.c:1398-1423` | After an event the filters of a level-triggered file are those its new EOF state needs, or both are off and a call of the re-registration has failed. |
| `EpollFDs.EpollFD.Process` | `shims/epoll/src/epollfd_ctx.c:1384-1428` | One iteration of the event loop changes only the event's node, exactly as the event, or the poll it brings about, says; it keeps filters that agreed with the file in agreement and a FIFO's filters unless a call fails, and says whether the file is new among those to report. |
| `EpollFDs.EpollFD.HandleBatch` | `shims/epoll/src/epollfd_ctx.c:1382-1428` | Over a batch every socket, ordinary file and, unless a call fails, FIFO takes exactly its events, in order; a poll-only file or a kqueue of this library reports what poll or its poll function says to its event, a FIFO without a reader tries again, and nothing happens to any other file; filters that agreed still do unless a call failed; exactly the files with something to report are kept, each once, within the caller's buffer. |
| `EpollFDs.EpollFD.RegisterCompletions` | `shims/epoll/src/epollfd_ctx.c:1430-1443` | Asked for are exactly the filters that have not told yet of the reported files, edge-triggered ones only unless the buffer was full. |
| `EpollFDs.EpollFD.Complete` | `shims/epoll/src/epollfd_ctx.c:624-645` | The completion pass feeds every node exactly the events that the kqueue asked for them delivers, in order, and does nothing else; without a full buffer it touches edge-triggered files only. |
| `EpollFDs.EpollFD.HandOut` | `shims/epoll/src/epollfd_ctx.c:1446-1461` | Every kept file's report and data go to its entry, all reports are empty again, and one-shot files are not watched any longer. |
| `EpollFDs.EpollFD.Round` | `shims/epoll/src/epollfd_ctx.c:1377-1461` | The batch is what the kqueue delivered; the files that have something to report after the event loop are reported, each with exactly what the event loop and the completion pass have told of it, and with its data; the nodes at the end of the round are exact; filters that agreed still do unless a call failed; other entries of the buffer stay. |
| `EpollFDs.EpollFD.Wait` | `shims/epoll/src/epollfd_ctx.c:1311-1469` | The kqueue and every listed file are polled, with what is wanted of them; 0 at once exactly if nothing is found. Else the rounds take the batches delivered one after the other, each starting where the one before ended: those before the last have nothing to report, the last reports exactly what its batch, its polls and its completion pass tell, and filters that agreed with their files at first do so before every round and afterwards, and what was watched for more than one report still is, unless a call fails. A buffer with an entry for every registered file is never found full. It fails only for want of memory or with the error of its last call. At most the caller's entries are written, also when more events are fetched, each for a different registered file, with its data and a non-empty mask inside its events plus EPOLLHUP and EPOLLERR; every `revents` is empty on return, on errors too. |
| `EpollNodes.BatchBound` | `shims/epoll/src/epollfd_ctx.c:1361-1375` | A lawful batch of n registered files has fewer events than the 3(n+1) that are fetched: each file has at most three. |
| `EpollFDs.EpollFD.Run` | `shims/epoll/src/epollfd_ctx.c:1194-1469` | After any sequence of ctl, close, wait and polling threads: `registered_fds_size` and `poll_fds_size` are the sizes, exactly the list's members say they are on it, all are registered poll-only files, filters agree with flags, pollers with the list, and no report is left over. |
| `EpollNodes.RoundExact` | `shims/epoll/src/epollfd_ctx.c:1398-1461` | A level-triggered socket or ordinary file whose EOF state is known and whose filters are on is reported by a round exactly when a report is due, and as it is due, EPOLLERR and EPOLLPRI as its events say, with its data, for any batch its own filters in the kqueue may deliver. |
| `EpollNodes.WaitExact` | `shims/epoll/src/epollfd_ctx.c:1377-1461` | The rounds of a wait keep such a file in order, its closed ends known, and the last one reports exactly what is due. |
| `EpollNodes.EdgeRoundExact` | `shims/epoll/src/epollfd_ctx.c:1398-1461` | The same over one round for an edge-triggered one of which anything is reported: the completion pass makes the report exactly what is due. |
| `EpollFDs.EpollFD.WaitFor` | `shims/epoll/src/epollfd_ctx.c:1311-1469` | Altogether: an epoll_wait in which no call fails, with room in the buffer, reports a level-triggered socket or ordinary file exactly when a report on its state and events at the last round is due, and as it is due, with its data, however many rounds it takes; a buffer with an entry for every registered file has room. Of the kqueue it is assumed only that it delivers by the filters it has, of the file that its closed ends are known at first and stay. Afterwards the file is in order for the next wait. |
| `EpollFDs.EpollFD.AddAndWait` | `shims/epoll/src/epollfd_ctx.c:1104-1469` | The same for an epoll_wait that follows the EPOLL_CTL_ADD of the file, bit by bit in terms of the mask that the caller gave: the caller is told what it has asked for and EPOLLHUP and EPOLLERR, as they are due, and nothing else. |
| `EpollFDs.EpollFD.WaitForPolled` | `shims/epoll/src/epollfd_ctx.c:1311-1469` | The same for a wait later on, in terms of what is kept of the file. |
| `EpollFDs.EpollFD.AddPolledAndWait` | `shims/epoll/src/epollfd_ctx.c:987-1469` | After the EPOLL_CTL_ADD of a file that only poll can watch, an epoll_wait asks poll about it, with the caller's mask; an invalid file goes, a ready one has its event active when the rounds begin, and if that comes in the last one, what poll then says is reported, with the caller's data; else nothing is. |
| `EpollFDs.EpollFD.WaitForFifo` | `shims/epoll/src/epollfd_ctx.c:1311-1469` | The same for a wait later on: a level-triggered FIFO that has its filter is reported exactly as its state asks for. |
| `EpollFDs.EpollFD.AddFifoAndWait` | `shims/epoll/src/epollfd_ctx.c:1104-1469` | After the EPOLL_CTL_ADD of a FIFO open one way, an epoll_wait without failing calls reports EPOLLIN with bytes to read, EPOLLOUT with room for PIPE_BUF bytes, each exactly if asked for, and EPOLLHUP or EPOLLERR without another end. |
| `EpollFDs.EpollFD.WaitForKQueue` | `shims/epoll/src/epollfd_ctx.c:1311-1469` | A kqueue of this library is reported exactly if the last round has an event of it and its poll function, asked in this wait, says so, and as EPOLLIN. |

## Left out

- EpollNodes.Kernel.Add: does not record `EVFILT_EXCEPT` filters, which the source never deletes, so agreement is stated for the read and write filters; lets no file change between poll-only and not, because the source's own assertions need that.
- EpollFDs.EpollFD.Refilter: states agreement of the filters' modes for sockets, ordinary files and kqueues; of a FIFO it states that it keeps its filters where no call fails.
- EpollFDs.EpollFD.Wait: does not bound the `again:` loop by itself; it ends when no more events are delivered.
- EpollFDs.EpollFD.AddNode: keeps nodes by value in a map by file; freed node addresses and their reuse are not modelled, nor is the tree, which RankTreeHeap.dfy has.
- EpollFDs.EpollFD.WaitFor: has the ends of the file stay as they are known; what is reported from stale EOF state is in `EpollFilters.SocketConverges`.
- EpollFDs.EpollFD.EnterPoll: does not interleave with a change in progress; Repoll.dfy does.
- TimerFDs.TimerFD.Read: does not say what a failed assertion leaves behind, nor what becomes of the timer when re-registration fails on the realtime clock.
- TimerFDs.TimerFD.Run: has re-registrations succeed; runs with failing calls, without the account, are in `TimerFDs.TimerFD.RunAny`.
- CatchUps.Conservation: is about interval timers; mixed reads and gettimes of one-shot timers are in `CatchUps.OneShotDelivered`.
- StepDetectors.Monitor.DetectorPass: does not call the notification of the descriptors; `TimerFDs.TimerFD.RealtimeChange` is what that does to one timer.
- Descriptors.Context.Unref: runs a destruction without interruption; its single steps, which may interleave, are Release, Destroy and RemoveNode.
- RankTreeHeap.Head.Insert: keeps the two red bits beside the parent pointer, not packed into it.
- The remaining timeout and deadline of epoll_pwait, and the signal mask.
- Failing mutex and condition variable operations, and memory ordering: atomics are sequentially consistent.
- Blocking liveness: only that a wait has somebody to end it.
- `RB_NFIND`, `RB_PREV`, `RB_REINSERT`, the SPLAY macros and `sys/queue.h`; the poll list is a sequence.
- FreeBSD, NetBSD and OpenBSD branches: self-pipes instead of user events, capabilities, translation of EPOLLRDHUP.
- Flag handling and blocking loops of the read and write entry points, `epoll_shim_poll` and `epoll_shim_ppoll`.
- The DRM, GBM, EGL, SDL, libinput, udev, libseat and wayland shims, which are stubs and fixed tables.
