# Verified model of the workshop firmware

A Dafny model of the parts of the firmware whose behaviour is a matter of whole runs: the blocking message
queue and the binary semaphore of the POSIX adapter, the service lifecycle built on the queue, the console's
text protocol, and three smaller cores (the Wi-Fi retry counter, the task table, the tags used for version
bumping). `dafny verify dfyconfig.toml` checks all of it.

- `Base`, `Text`: error codes, optional values; splitting strings, and what a sequence of `strtok_r` calls finds.
- `RingBuffer`, `Deadline`, `BlockingQueue`: the queue's ring as a value, the deadline arithmetic, and the
  queue as a class over an array that refines a bounded sequence, for every capacity including 0.
- `Pthread`, `QueueSteps`, `QueueWakeups`: mutex and condition variable as step rules (a wait releases and
  parks in one step; a waiter leaves because it was signalled, timed out, woke spuriously or failed; where the
  configuration says so, a wait that times out consumes a signal directed at it, as POSIX.1-2017 allows), and
  any number of threads that interleave the statements of `Queue_Send` and `Queue_Receive`. A signal that
  wakes more than one waiter, which POSIX also allows, is a signal and spurious wake-ups.
- `BinarySemaphore`, `SemaphoreSteps`: the semaphore as a class, and on the same step rules.
- `QueueReturns`, `SemaphoreReturns`: from every state every call can still return; deadlines, errors and
  spurious wake-ups end waits; and exactly which results each thread's calls can have.
- `Lifecycle`, `Restarts`, `Cleanup`, `ServiceObject`: services as steps of tasks and callers, what a disciplined
  restart keeps and what an early one breaks, and the service object updated in place.
- `QueueCalls`, `ServiceQueue`: every run of the real queue, statement by statement, is a run of a queue whose
  calls are single steps, and what each thread's calls return is what those steps decide for it; a handler
  service on that queue, stopped at any moment or aborted by a failed send, is a run of the lifecycle.
- `Wifi`, `Firmware`: the driver's event handler, and the path from its events through the core service's
  queue to the start of the network console.
- `Grammar`, `CommandParser`, `Console`, `ConsoleAnswers`, `Session`: the command grammar without `strtok_r`; the parser that
  overwrites its buffer, proved to compute that grammar; dispatch and responses, and every answer spelled out;
  the session loop and the frames a client decodes.
- `TaskTable`, `Version`: the fixed table of tasks; tag parsing, printing and bumping.

## Where the obvious claim is false

Each of these is stated in the model as an equivalence, beside the run or input that breaks the claim. The
model follows the code.

- A queue with several receivers can leave one asleep beside a queued message, because `Queue_Send` signals
  only when the queue was empty. It can happen exactly when a sender has two other threads as receivers and
  the queue has at least two slots, or at least one where a timeout can consume a signal
  (`QueueWakeups.NoLostWakeupIff`, `LosingRun`). The service loop has one receiver.
- A signalled receiver can report a timeout all the same: exactly when it can be signalled at all, and there is
  another receiver or a timeout can consume the signal (`QueueWakeups.SignalsHonouredIff`, `StealingRun`,
  `ConsumingRun`).
- `adapter/queue.h:39-44` promises a wait of up to `timeoutMs`; a spurious wake-up ends it early with
  `ERROR_TIMEOUT`, for any receiver (`QueueWakeups.SpuriousTimeoutIff`, `SpuriousRun`). A semaphore's taker
  waits again (`SemaphoreSteps.CodesAlways`).
- A semaphore's signal is not lost whatever the interleaving, but only where a timeout cannot consume it or
  there are at most two threads: `Semaphore_Take` leaves on a timeout without testing the flag
  (`SemaphoreSteps.NoLostWakeupIff`, `LosingRun`).
- The queue's normalisation loop uses `>` where the semaphore's uses `>=`. It can leave `tv_nsec` at exactly
  10^9, which the ERRORS section of pthread_cond_timedwait in POSIX.1-2017 rejects, exactly for the timeouts
  that are no whole number of seconds (`Deadline.AlwaysAcceptedIff`). The core service's 500 ms are rejected
  whenever the clock shows half a second (`Deadline.CoreTimeoutRejected`).
- `Semaphore_ElapsedTimeMs` divides microseconds by 10^6, so it counts whole seconds
  (`Deadline.ElapsedExactIff`). Every positive timeout can run out before its time, for starts that meet an
  exact condition (`Deadline.NoTimeoutIsSafe`, `Deadline.MayExpireEarlyIff`), and nearly every one does at once
  when the clock is set back (`Deadline.SetBackExpiresIff`).
- `adapter/semaphore.h:22` names `ERROR_TIMEOUT` as the only failure of `Semaphore_Take`; the code returns
  `ERROR_OS` when a wait fails, which can happen to every thread (`SemaphoreSteps.OsErrorIff`, `OsErrorRun`).
- RUNNING does not imply a live queue for a service with its own `main`, which may return
  (`Restarts.LiveQueueIff`, `MainReturnsRun`). Restarting a service while its old task cleans up deletes the new
  task's queue, unless the cleanup aborts for want of a termination semaphore (`Restarts.RestartSafeIff`,
  `LeavingRun`); restarting it while its old task is in its loop leaves
  two receivers for good (`Restarts.SecondLoopIff`). The cleanup's `Task_Delete(service->task)` can kill the new
  task (`Cleanup.EarlyRestartKillsIff`, `KillingRun`), and the missing queue can abort it
  (`Cleanup.EarlyRestartAbortsIff`, `LosesQueue`).
- No service in this firmware sets `terminationSemaphore`, and the give asserts that it is not NULL: the cleanup
  of such a service, and of no other, ends in an abort (`Restarts.NullSemaphoreIff`, `AbortingRun`).
- `adapter/wifi.h:134-136` promises to keep trying to connect; the driver answers at most five disconnections
  since the last connection (`Wifi.RetriesIff`, `GivesUp`).
- The text echoed in a response does not parse back as it is when there are arguments; it does after the `_`
  behind the name is read as `=` (`Console.EchoItselfIff`, `EchoOfX1`, `EchoParsesBack`).
- The session loop overwrites the last byte of every chunk with NUL. The line that is run is the one that was
  sent exactly when that byte is a NUL or a line break, or the line had ended before it
  (`Session.LastByteIff`); `HELP` without a line break runs `HEL` (`Session.HelpNeedsALineBreak`).
- `Console_Printf` ignores how much a write takes. The client gets the answers, one frame for each chunk, exactly
  when every write is taken whole (`Session.SessionDecodesIff`).
- The comment in `scripts/ci/bump_version.py:21-26` says that bumping fails without tags and goes from vX.Y to
  vX.Y.0. The code prints v0.0.1 exactly when there is no tag above v0.0.0 (`Version.FirstTag`); after vX.Y it
  prints vX.Y.1 (`Version.TwoPartTag`), and a vX.Y.0 exactly after a patch number of -1 (`Version.PatchZeroIff`).

## Model

| member | source | states |
|---|---|---|
| RingBuffer.Empty | main/src/adapter/posix/queue.c:27-45 | a new ring is well formed and holds nothing, for every size including 0 |
| RingBuffer.Ring.Push | main/src/adapter/posix/queue.c:74-78 | storing at `head` keeps `head == (tail + nElements) % size` and appends the message to the live window |
| RingBuffer.Ring.Pop | main/src/adapter/posix/queue.c:142-144 | advancing `tail` keeps the indices consistent and drops exactly the oldest message |
| RingBuffer.Ring.Oldest | main/src/adapter/posix/queue.c:142 | the slot at `tail` holds the oldest queued message |
| RingBuffer.WrapIsRemainder | main/src/adapter/posix/queue.c:77-144 | wrapping once is the remainder by the size |
| Deadline.QueueDeadline | main/src/adapter/posix/queue.c:107-118 | the pair denotes now + timeoutMs to the nanosecond in 64-bit fields, the loop runs at most once, and the pair is one POSIX accepts exactly when the raw nanoseconds are not 10^9 |
| Deadline.SemaphoreDeadline | main/src/adapter/posix/semaphore.c:65-73 | the pair denotes start + timeoutMs to the nanosecond, the loop runs at most once, and `tv_nsec` is always below 10^9 |
| Deadline.AlwaysAcceptedIff | main/src/adapter/posix/queue.c:110-118 | the deadline is one POSIX accepts whatever the clock shows, if and only if the timeout is a whole number of seconds |
| Deadline.RejectedReading | main/src/adapter/posix/queue.c:110-118 | for any other timeout, the clock reading that makes the raw nanoseconds 10^9 |
| Deadline.CoreTimeoutRejected | main/src/core/service_core.c:31-37 | the core service's timeout of 500 ms gives a deadline POSIX rejects at half past any second |
| Deadline.DeadlinesAgreeIff | main/src/adapter/posix/queue.c:114-118 | the two loops give the same pair exactly when the raw nanoseconds are not 10^9; otherwise the queue's pair is a second less and 10^9 ns |
| Deadline.ElapsedExactIff | main/src/adapter/posix/semaphore.c:42-51 | for any two clock readings: exact exactly when the seconds did not go back and the sub-second part advanced by less than a millisecond; unless they went back, a multiple of 1000 ms off by at most a second |
| Deadline.SetBackExpiresIff | main/src/adapter/posix/semaphore.c:47-63 | a clock set back by d seconds makes the loop guard run out at once, for exactly the timeouts at least 1000 d below 2^64 |
| Deadline.EarlyExpiryBounds | main/src/adapter/posix/semaphore.c:59-63 | a guard that expires before its timeout does so in the timeout's last, rounded-up second, before the sub-second part has caught up |
| Deadline.MayExpireEarlyIff | main/src/adapter/posix/semaphore.c:59-63 | some later instant makes the guard expire early, if and only if the start's microseconds exceed what rounding the timeout up to seconds adds (and the clock lasts that long) |
| Deadline.NoTimeoutIsSafe | main/src/adapter/posix/semaphore.c:59-63 | for every timeout: some start and later instant make its guard expire early, if and only if it is positive and within the clock's range |
| BlockingQueue.Queue.constructor | main/src/adapter/posix/queue.c:27-45 | an empty queue of the given capacity |
| BlockingQueue.Queue.Send | main/src/adapter/posix/queue.c:57-89 | FAILURE without the mutex, ERROR_RESOURCE_NOT_AVAILABLE exactly when full, both without any change; otherwise the message is appended and the fields are those of the step system's ring after its push; signals exactly when the queue was empty |
| BlockingQueue.Queue.ReceiveEnter | main/src/adapter/posix/queue.c:91-120 | waits exactly when the queue is empty, until a deadline that denotes now + timeoutMs and that POSIX rejects exactly in the 10^9 case |
| BlockingQueue.Queue.ReceiveFinish | main/src/adapter/posix/queue.c:121-151 | ERROR_OS for a failed wait, ERROR_TIMEOUT for a timed-out one or an empty queue, without change; otherwise hands out and removes the oldest message, as the step system's ring does |
| BlockingQueue.Queue.Receive | main/src/adapter/posix/queue.c:91-151 | undisturbed, a receive succeeds exactly on a non-empty queue whose mutex it gets, with the oldest message |
| QueueSteps.FifoAlways | main/src/adapter/posix/queue.c:57-151 | over every interleaving of any number of producers and consumers, with timeouts and spurious wake-ups: messages sent are messages received then the ring's window, in order; no loss, duplication or reordering |
| QueueSteps.QuiescentFifo | main/src/adapter/posix/queue.c:57-151 | in every run: received <= sent <= received + capacity; with the mutex free sent == received then queued, in order |
| QueueSteps.CodesAlways | main/src/adapter/posix/queue.c:67-150 | in every run a send is refused only by a full queue, and each return code of a receive says how its wait ended and whether the queue is empty; a success leaves a message, or a free slot |
| QueueWakeups.RolesAlways | main/src/adapter/posix/queue.c:57-151 | only receivers wait, and a sender at its signal has a message in the ring |
| QueueWakeups.AwakeAlways | main/src/adapter/posix/queue.c:80-134 | unless the callers can lose a wake-up: a parked receiver beside a queued message implies a signal about to be sent or, on a one-slot queue whose signals cannot be consumed, a signalled receiver on its way |
| QueueWakeups.NoLostWakeupIff | main/src/adapter/posix/queue.c:80-134 | no reachable state has a receiver asleep beside a queued message with no signal pending, if and only if there are not (a sender, two other receivers, and two slots, or one slot where a timeout may consume a signal); one receiver is safe either way |
| QueueWakeups.LosingRun | main/src/adapter/posix/queue.c:80-134 | the runs that lose a wake-up: two waiters, then two sends and one receive, or one send and one timeout that consumes the signal; every thread ends at rest but one that sleeps beside a message |
| QueueWakeups.SignalsHonouredIff | main/src/adapter/posix/queue.c:105-139 | a signalled receive never reports a timeout, if and only if no receiver can be signalled (no slot, or no other thread sends), or there is one receiver and a timeout cannot consume its signal |
| QueueWakeups.StealingRun | main/src/adapter/posix/queue.c:105-139 | the run in which a second receiver takes the message a signalled one was woken for |
| QueueWakeups.ConsumingRun | main/src/adapter/posix/queue.c:120-134 | the run in which a signalled receiver reports its timeout beside the message |
| QueueWakeups.SpuriousTimeoutIff | main/src/adapter/posix/queue.c:120-139 | a receive can report a timeout after neither deadline nor signal, for exactly the receivers |
| QueueWakeups.SpuriousRun | main/src/adapter/posix/queue.c:120-139 | the run in which a spurious wake-up makes a receive report a timeout |
| QueueReturns.AllCanReturn | main/src/adapter/posix/queue.c:57-151 | no deadlock: from every state of any number of threads, some run lets every call return and the mutex be free |
| QueueReturns.WaitEnds | main/src/adapter/posix/queue.c:120-136 | from every state, a parked receiver's deadline can end its wait with ERROR_TIMEOUT, an error with ERROR_OS, and a spurious wake-up can take it to its second test |
| QueueReturns.WaitRefused | main/src/adapter/posix/queue.c:120-132 | a wait that is refused at once ends the receive with ERROR_OS |
| QueueReturns.DeadlineEndsIff | main/src/adapter/posix/queue.c:120-126 | a receive can report the end of its deadline, for exactly the receivers |
| QueueReturns.ReturnableIff | main/src/adapter/posix/queue.c:57-151 | exactly the results a thread's calls can have: for a sender SUCCESS if the queue has slots, ERROR_RESOURCE_NOT_AVAILABLE, FAILURE; for a receiver any message if the queue has slots and a sender, ERROR_TIMEOUT, ERROR_OS, FAILURE |
| QueueReturns.CallsStart | main/src/adapter/posix/queue.c:57-103 | from every state a thread outside can start its calls, and one that starts can fail to lock |
| QueueReturns.SignalOvertaken | main/src/adapter/posix/queue.c:120-126 | from every state, where a timeout can consume a signal, a signalled receiver can report its timeout |
| BinarySemaphore.Semaphore.constructor | main/src/adapter/posix/semaphore.c:24-40 | a new semaphore is locked |
| BinarySemaphore.Semaphore.TakeTest | main/src/adapter/posix/semaphore.c:63-101 | succeeds exactly when unlocked, and then locks; waits exactly when locked and the elapsed time is below the timeout, until a deadline POSIX accepts; a refusal leaves the flag alone |
| BinarySemaphore.Semaphore.Give | main/src/adapter/posix/semaphore.c:109-125 | unlocks, and signals exactly when it was locked |
| SemaphoreSteps.NoLostWakeupIff | main/src/adapter/posix/semaphore.c:63-119 | in every reachable state, unlocked with a parked thread implies a signal about to be sent or a signalled thread that has yet to test the flag; this holds if and only if a timeout cannot consume a signal or there are at most two threads |
| SemaphoreSteps.NoLostWakeup | main/src/adapter/posix/semaphore.c:63-119 | the invariant behind it over every interleaving, and with two threads a stronger one: no thread is parked beside the unlocked semaphore once the signal is sent |
| SemaphoreSteps.LosingRun | main/src/adapter/posix/semaphore.c:74-119 | two takers and one give, whose signal a timeout consumes: the semaphore ends unlocked, every thread at rest but one that sleeps |
| SemaphoreSteps.CodesAlways | main/src/adapter/posix/semaphore.c:62-106 | in every run a take whose wait timed out returns ERROR_TIMEOUT and one whose wait failed ERROR_OS; any other succeeds, or finds the semaphore locked and the elapsed time at the timeout |
| SemaphoreSteps.OsErrorIff | main/src/adapter/posix/semaphore.c:76-88 | ERROR_OS can be returned to every thread, and means that its wait failed |
| SemaphoreSteps.OsErrorRun | main/src/adapter/posix/semaphore.c:75-88 | the run that returns it |
| SemaphoreReturns.AllCanReturn | main/src/adapter/posix/semaphore.c:53-125 | no deadlock: from every state, some run lets every call return and the mutex be free |
| SemaphoreReturns.WaitEnds | main/src/adapter/posix/semaphore.c:75-90 | from every state, a parked taker's deadline can end its wait with ERROR_TIMEOUT, an error with ERROR_OS, and a spurious wake-up takes it back to its loop test |
| SemaphoreReturns.LoopTestDecides | main/src/adapter/posix/semaphore.c:63-101 | from the loop test an unlocked semaphore is taken whatever the elapsed time, a locked one is given up once the timeout has passed, any other is waited for; a refused wait ends in ERROR_OS |
| SemaphoreReturns.CodesIff | main/src/adapter/posix/semaphore.c:53-107 | every thread's take can return SUCCESS, ERROR_TIMEOUT and ERROR_OS, and nothing else |
| SemaphoreReturns.CallsStart | main/src/adapter/posix/semaphore.c:53-113 | from every state a thread outside can start either call |
| SemaphoreReturns.SignalOvertaken | main/src/adapter/posix/semaphore.c:75-88 | from every state, where a timeout can consume a signal, a signalled taker can report its timeout |
| SemaphoreSteps.ConservedAlways | main/src/adapter/posix/semaphore.c:53-125 | effective gives and successful takes alternate strictly, their difference is 1 exactly when unlocked, and the takes are the Take calls that return SUCCESS, in order |
| Lifecycle.HooksInOrder | main/src/core/service.c:12-61 | in every run each task calls setup, then the handler once for each receive with the received event or EVENT_TIMEOUT (or its main), then teardown, then the termination give, each once |
| Lifecycle.AccountedAlways | main/src/core/service.c:63-130 | tasks created == effective stops + (1 if RUNNING); events accepted == events received + events queued (or logged by the Notify that found the queue full) |
| Lifecycle.BudgetStep | main/src/core/service.c:29-38 | while stopped, no step increases the handler calls a task has made or is bound to make |
| Lifecycle.AtMostOneMoreCall | main/src/core/service.c:29-38 | after a stop without restart each task begins at most one more handler call, and none unless it was past the loop test |
| Lifecycle.StoppedIgnoresNotify | main/src/core/service.c:105-130 | once stopped and until started again, every run ends as it would without its notifications: nothing is accepted and no notification aborts |
| Restarts.OneLoopAlways | main/src/core/service.c:47-103 | if every effective start finds the old tasks finished: at most one unfinished task, the queue is live exactly until that task deletes it, and RUNNING keeps a handler service in its loop |
| Restarts.DispatchExact | main/src/core/service.c:29-38 | in such runs: events accepted by Notify == events the loop received + events queued, and the handler was called once for each receive, in order |
| Restarts.MainReturnsRun | main/src/core/service.c:22-54 | a service whose own main returns ends RUNNING with its queue deleted |
| Restarts.LiveQueueIff | main/src/core/service.c:22-54 | RUNNING implies a live queue in every disciplined run, exactly for the services without both an own main and a termination semaphore |
| Restarts.LeavingRun | main/src/core/service.c:41-54 | an old task in its cleanup can run on to delete the queue of a service that is RUNNING again |
| Restarts.LoopingAlways | main/src/core/service.c:29-39 | while nobody starts or stops a running handler service, its tasks stay in their loops and its queue lives |
| Restarts.RestartSafeIff | main/src/core/service.c:48-90 | a restarted handler service keeps its queue until the next stop, if and only if no old task has left its loop without having deleted the queue, or the service has no termination semaphore, so that the cleanup aborts first |
| Restarts.BlockedKeepsQueueAlways | main/src/core/service.c:47-54 | without a termination semaphore no run deletes the queue |
| Restarts.OneLoopAfterRestartIff | main/src/core/service.c:29-90 | the new loop is the only one, with a live queue and no pending cancellation, in every run until the next start or stop, if and only if all old tasks had finished |
| Restarts.SecondLoopIff | main/src/core/service.c:29-90 | an old task stays in its loop beside the new one in every such run, if and only if the restart finds it there without a pending cancellation |
| Restarts.CleanupBlockedAlways | main/src/core/service.c:41-54 | without a termination semaphore no task ever gets past its termination give; with one the give never aborts |
| Restarts.AbortingRun | main/src/core/service.c:47-48 | start, stop, and four statements of the task: the process aborts at the give |
| Restarts.NullSemaphoreIff | main/src/core/service.c:47-48 | some run aborts at the termination give, if and only if the service has no termination semaphore |
| Cleanup.EarlyRestartKillsIff | main/src/core/service.c:52-90 | a restart can cost the new task its life, if and only if some old task has left its loop without having called Task_Delete yet, and there is a termination semaphore to let it get there |
| Cleanup.KillingRun | main/src/core/service.c:41-52 | the run: the old task cleans up, its Task_Delete cancels the new task, and the cancellation takes effect |
| Cleanup.CancelsItselfAlways | main/src/core/service.c:52 | in every disciplined run the cancelled tasks are exactly those past their own Task_Delete |
| Cleanup.SleepIsTheEnd | main/src/core/service.c:52-60 | in such a run a task that has cleaned up dies at its next sleep, with the queue gone |
| Cleanup.EarlyRestartAbortsIff | main/src/core/service.c:31-90 | a restarted handler service can abort for want of its queue, if and only if some old task has left its loop without having deleted the queue yet, and there is a termination semaphore |
| Cleanup.LosesQueue | main/src/core/service.c:29-54 | the run: the old task deletes the queue and the new one's first receive aborts |
| Cleanup.CanFinish | main/src/core/service.c:12-61 | from every disciplined run that ends stopped, the remaining task can run on to its end, after which a restart keeps the discipline |
| ServiceObject.Service.constructor | main/src/core/service.h:20-62 | a service starts out stopped, without queue or task |
| ServiceObject.Service.Start | main/src/core/service.c:63-90 | when stopped: RUNNING, a fresh empty queue of 20, priority 1 and stack size 4096 in place of zeros, and one more task, to which `task` now refers; otherwise nothing changes |
| ServiceObject.Service.Stop | main/src/core/service.c:92-103 | changes the state only; queue and task stay |
| ServiceObject.Service.Notify | main/src/core/service.c:105-130 | a stopped service and its queue stay as they are; otherwise the event is appended, or a queue of 20 is drained into the log, in order, before the abort; a failed mutex aborts with nothing logged, and a missing queue at once |
| ServiceObject.SendOrLog | main/src/core/service.c:117-125 | the event is appended, or what the log takes out of the queue is exactly what was in it |
| ServiceObject.Service.TakeEvent | main/src/core/service.c:31-32 | the loop's receive leaves the oldest event in the local and takes it from the queue, or leaves 0xafaf with the queue unchanged when it fails for any reason |
| ServiceObject.Service.DropQueue | main/src/core/service.c:53-54 | the cleanup deletes the queue the service refers to at that moment |
| ServiceObject.LogPending | main/src/core/service.c:120-125 | logs every queued event, oldest first, and empties the queue; without the mutex it logs none and changes nothing |
| QueueCalls.Linearised | main/src/adapter/posix/queue.c:57-151 | every run of any number of senders and receivers, statement by statement, is a run of a queue whose calls are single steps, and ends with the same messages |
| QueueCalls.EachCallReturns | main/src/adapter/posix/queue.c:57-151 | for every thread, sender or receiver, in every run: the codes and messages its calls return, in order, are those the single steps decided for it |
| ServiceQueue.ServiceLoopRefines | main/src/core/service.c:29-130 | every run of a handler service on the real queue, with one receiver, any number of notifiers, a stop at any moment and aborts by failed sends, is a lifecycle run: same events queued and accepted, the results decided for the task as its loop's receives, the task where its thread is |
| ServiceQueue.LoopHandlesReturns | main/src/core/service.c:29-38 | in such runs the loop has handed to its handler exactly what the task's Queue_Receive calls returned, in order |
| ServiceQueue.RefusalAborts | main/src/core/service.c:117-128 | in such runs the first send that fails is the lifecycle's abort: the queued events logged when full, none when the mutex failed |
| ServiceQueue.NoReceiveAfterStop | main/src/core/service.c:29-103 | once the service is stopped, its task is decided the receive it is in, if any, and no other |
| Wifi.Driver.constructor | main/src/adapter/esp32/wifi.c:15-19 | not connected, no retries |
| Wifi.Driver.HandleEvent | main/src/adapter/esp32/wifi.c:27-80 | the new state; 0x101 is posted for GOT_IP, 0x102 for LOST_IP, 0x103 for an address given to a station, nothing else; a connection is attempted at the start and after a disconnection with fewer than 5 retries; the counter stays at most 5 |
| Wifi.CounterReadOff | main/src/adapter/esp32/wifi.c:37-51 | for every trace: the counter is the disconnections since the last connection capped at 5, isConnected is the last verdict, and the reconnects are each round's disconnections capped at 5 |
| Wifi.RetryBound | main/src/adapter/esp32/wifi.c:37-51 | for every trace: counter at most 5, reconnects at most 5 times (connections + 1) |
| Wifi.RetriesIff | main/src/adapter/esp32/wifi.c:40-45 | a disconnection is answered with a new attempt exactly when fewer than five came before it since the last connection |
| Wifi.GivesUp | main/src/adapter/esp32/wifi.c:37-46 | with nothing but disconnections, the sixth and all later ones are not answered |
| Wifi.EffectsReadOff | main/src/adapter/esp32/wifi.c:27-80 | for every trace: the posts are one number for each address event, in order, and the connection attempts one for each start plus each round's disconnections capped at 5 |
| Firmware.DeviceAlways | main/src/core/service_core.c:12-37 | every interleaving of driver events, core steps and console steps keeps the core running with one task, and the console running exactly if something started it |
| Firmware.ConsoleStartedOnce | main/src/core/service_core.c:20-29 | the console task is created at most once, and exists exactly if boot code started it or a GOT_IP event was handled |
| Firmware.PostsDispatchedInOrder | main/src/adapter/esp32/wifi.c:21-73 | the core's handler gets what the driver posted, in order, without loss: posted == received + queued |
| Firmware.ConsoleNeedsGotIp | main/src/core/service_core.c:24-28 | on the board there is no console task unless the driver posted a GOT_IP event |
| Firmware.PostedReadOff | main/src/adapter/esp32/wifi.c:21-73 | in every run what was posted is one event for each address event handled, in order, and the driver's state is that of the events handled; only a post that finds 20 events queued aborts |
| Firmware.RegisteredIff | main/src/core/service_core.c:12-18 | the driver's events are handled exactly from the core task's first step on |
| Firmware.ConsoleNeedsAddress | main/src/adapter/esp32/wifi.c:60-66 | on the board there is no console task unless the driver has had a GOT_IP event |
| Firmware.CanDrain | main/src/core/service.c:29-38 | from every state that has not aborted, the core's task alone can handle everything queued |
| Firmware.AddressStartsConsole | main/src/core/service_core.c:20-29 | from every such state in which a GOT_IP event was handled, the core's task alone gets to start the console |
| Firmware.EndsAbort | main/src/core/service.c:47-48 | the core and the console service both can only end by aborting |
| Firmware.ConsoleReturnAborts | main/src/core/service.c:22-48 | when the console's main returns, the firmware aborts two statements later |
| Firmware.ServiceCalls | main/src/core/service_core.c:31-37 | the core's task calls its setup hook and its handler only, the console's its main only |
| TaskTable.Table.constructor | main/src/adapter/posix/task.c:20 | no task is recorded |
| TaskTable.Table.Create | main/src/adapter/posix/task.c:22-44 | NULL exactly when the thread was not created; otherwise a fresh handle, recorded exactly when a slot is free |
| TaskTable.Table.Delete | main/src/adapter/posix/task.c:46-69 | cancels the given task or the caller's own, and removes exactly that handle from the table |
| TaskTable.Table.GetSelf | main/src/adapter/posix/task.c:76-89 | finds a recorded task of the calling thread, and NULL exactly when there is none |
| TaskTable.FullIff | main/src/adapter/posix/task.c:34-41 | the search for a slot fails exactly when 32 distinct tasks are recorded |
| TaskTable.TableAgreesIff | main/src/adapter/posix/task.c:20-69 | the table equals the set of existing tasks throughout a history of creations and deletions, if and only if at most 32 exist at every moment |
| Version.ParseIntReadsBack | scripts/ci/git_utils.py:9-41 | reading an optional sign and digits gives back every printed integer, as the lemmas below ask of `int()` |
| Version.VersionRoundTrip | scripts/ci/git_utils.py:5-41 | `parse_version(version_to_string(t)) == t` for all triples of integers, and for every `int()` that reads back printed integers |
| Version.ParsesIff | scripts/ci/git_utils.py:5-20 | exactly the tags that are a 'v' and two or three integers with dots between them parse, to those integers; the empty tag raises IndexError, any other ValueError |
| Version.LessIff | scripts/ci/git_utils.py:31 | versions are ordered by the first number that differs |
| Version.PrintsDecimal | scripts/ci/git_utils.py:39-41 | integers are printed in base ten |
| Version.PrintsSign | scripts/ci/git_utils.py:39-41 | negative integers are printed with a minus sign |
| Version.LatestTag | scripts/ci/git_utils.py:23-36 | for every `int()`: the result is a well-formed tag's version or 0.0.0, and at least every well-formed tag; fails exactly when a line is empty |
| Version.BumpIsFresh | scripts/ci/bump_version.py:27-29 | the bumped tag parses strictly above every well-formed tag and is not in the list |
| Version.FirstTag | scripts/ci/bump_version.py:18-29 | the bumped tag is v0.0.1 exactly when no well-formed tag is above 0.0.0 |
| Version.TwoPartTag | scripts/ci/git_utils.py:13-41 | a two-part tag vX.Y reads as patch 0, and the tag printed after it is vX.Y.1 |
| Version.PatchZeroIff | scripts/ci/bump_version.py:25-29 | vX.Y.0 is printed after a version exactly if its patch number is -1 |
| Text.TokenSegments | main/src/console/console.c:39-51 | a `strtok_r` call takes the first non-empty stretch between separators and leaves the others |
| Text.TokensAreSegments | main/src/console/console.c:48-54 | k calls take the first k non-empty stretches |
| Grammar.ScanIsParse | main/src/console/console.c:35-57 | three phases of `strtok_r` with changing delimiters compute the grammar: first non-empty line, first maximal '='-free run, first ten non-empty ';'-segments after it |
| Grammar.CanonicalParses | main/src/console/console.c:35-57 | a well-formed command is what its one-line text parses to |
| Grammar.FirstTenArguments | main/src/console/console.c:48-54 | of a name and any number of arguments, the name and the first ten arguments are parsed |
| Grammar.WellFormedIff | main/src/console/console.c:35-57 | the well-formed commands are exactly those some text parses to |
| Grammar.ParseLineFold | main/src/console/console.c:35-88 | lowering the letter case of a line lowers the case of its name and keeps the number of arguments |
| CommandParser.CString | main/src/console/console.c:35-57 | the string a C caller reads ends before the first NUL |
| CommandParser.Strtok | main/src/console/console.c:40-51 | one call returns the token's position and overwrites at most the one separator behind it |
| CommandParser.CutLine | main/src/console/console.c:39-42 | after the first phase the first non-empty line stands NUL-terminated where the second phase starts, also when there is none |
| CommandParser.CutName | main/src/console/console.c:42-46 | the second phase finds a name exactly when the grammar does, and leaves it NUL-terminated with the text behind it ahead |
| CommandParser.CutArgs | main/src/console/console.c:48-54 | after the third phase the name and the first ten arguments are stored in order and apart from each other |
| CommandParser.CutCommand | main/src/console/console.c:42-56 | the two later phases on one line: -1 exactly without a name; otherwise name and arguments of the grammar, in place |
| CommandParser.ParseCommand | main/src/console/console.c:35-57 | -1 exactly when the grammar finds no name; otherwise name and arguments stand NUL-terminated in the buffer, in order, disjoint, inside the first non-empty line; only separators were overwritten |
| CommandParser.WasThere | main/src/console/console.c:35-57 | what a parse leaves in the buffer is a substring of the original text, at the same place |
| CommandParser.ReadsBack | main/src/console/console.c:42-51 | the pointers a parse leaves read back as the strings of the grammar |
| Console.ConsoleCtx.Printf | main/src/console/console.c:111-125 | a formatted string that fits the buffer is stored there with its NUL and written whole; nothing is written for an empty one |
| Console.SerializeResponse | main/src/console/console.c:59-70 | writes the name, each argument behind '_' or ';', then ':', the response and the terminator |
| Console.RunHelp | main/src/console/console.c:21-33 | HELP lists every command and answers SUCCESS; every line fits the buffer |
| Console.RunFwVer | main/src/console/cmd_system.c:4-12 | SYS_FW_VER answers the version |
| Console.Find | main/src/console/console.c:86-104 | the search returns the first entry whose name matches without letter case |
| Console.RunCommand | main/src/console/console.c:72-109 | return code and output are those of the grammar's parse of the buffer's text; no Console_Printf call overflows its buffer |
| ConsoleAnswers.AnswersAre | main/src/console/console.c:16-109 | for every text the code and the strings written, spelled out: HELP and SYS_FW_VER in any letter case get the listing and the version, with arguments CMD_INVALID_ARGS; any other name CMD_NOT_FOUND; no name PARSE_ERROR |
| ConsoleAnswers.SameNameIff | main/src/console/console.c:88 | names are compared position by position, up to the case of ASCII letters |
| Console.LookupMeans | main/src/console/console.c:86-104 | with names distinct up to letter case, the entry found is the only match, and none is found only without a match |
| Console.SuccessIff | main/src/console/console.c:72-109 | SUCCESS exactly when a table name matches and the argument count is the expected one; otherwise FAILURE |
| Console.FirstLineDecides | main/src/console/console.c:72-109 | texts whose first non-empty lines agree up to letter case have the same return code |
| Console.EchoParsesBack | main/src/console/console.c:35-70 | the echoed text, with the '_' behind the name read as '=', parses back to the same command |
| Console.EchoItselfIff | main/src/console/console.c:59-70 | the echoed text itself parses back exactly when there are no arguments |
| Console.EchoOfX1 | main/src/console/console.c:59-70 | X=1 is echoed as X_1, which does not parse back to it |
| Session.AnswerIsFrame | main/src/console/console.c:72-125 | whatever the input, the answer ends in `*END\r\n`, which occurs nowhere else in it |
| Session.WritesFit | main/src/console/console.c:72-125 | whatever the input, every Console_Printf call formats fewer than 256 bytes |
| Session.Read | main/src/console/net_console.c:51 | a read replaces the front of the buffer and leaves the rest |
| Session.ChunkText | main/src/console/net_console.c:52-55 | the text run is the chunk without its last byte, whatever an earlier chunk left in the buffer |
| Session.LastByteIff | main/src/console/net_console.c:54 | the first line a chunk sends is the one that is run, if and only if its last byte is a NUL or a line break, or the text or its first line has ended before that byte |
| Session.HelpNeedsALineBreak | main/src/console/net_console.c:54 | the chunk HELP runs HEL and is answered with CMD_NOT_FOUND, while HELP would succeed |
| Session.Serve | main/src/console/net_console.c:52-56 | one chunk produces the output for its own text |
| Session.ServedMeans | main/src/console/net_console.c:49-58 | the chunks served are those before the first read that returns no byte, each without its last byte |
| Session.GetCommand | main/src/console/net_console.c:39-61 | for every list of reads, the output is that of the chunks before the first non-positive read, in order, and of nothing else |
| Session.DecodeFrames | main/src/console/net_console.c:49-58 | splitting a stream of frames after each terminator gives back the frames |
| Session.SessionDecodes | main/src/console/net_console.c:49-58 | a client that splits a session's output after each terminator gets exactly one frame for each chunk served, in order, each the answer to that chunk, when every write is taken whole |
| Session.DecodeKeepsText | main/src/console/console.h:23 | splitting a text after each terminator loses none of it |
| Session.SessionDecodesIff | main/src/console/console.c:118-122 | whatever each write takes, the client gets exactly the answers if and only if every write is taken whole |

## Left out

- Sockets, bind, accept, keep-alive and address printing in `net_console.c`: a session is a list of byte chunks.
- The FreeRTOS and ESP-IDF wrappers (`adapter/esp32/queue.c`, `semaphore.c`, `task.c`, `btn.c`, `led.c`): thin calls into the ESP-IDF and FreeRTOS libraries. Task deletion follows the POSIX adapter.
- The inside of the pthread library: mutex and condition variable are step rules. A wait that fails to get its mutex back, and the failing assertions on the semaphore's mutex, are not modelled.
- Memory: blocks, frees, the blocks that receives leak, NULL returns of constructors and of `Task_Create`, the fixed-size task names.
- Console.ConsoleCtx.Printf: formatted strings of 256 bytes or more, for which the code writes past its buffer; `Console.RunCommand` is proved never to format one.
- `Service_Main` is modelled as steps on values, since other tasks run between its statements; only its queue accesses also exist as methods on the service object (`TakeEvent`, `DropQueue`). Aliasing between the tasks' pointers to one service is what the step system's shared state stands for.
- A task that is blocked in `Queue_Receive` while its service is restarted holds on to the old queue; in the model its receive uses the queue the service refers to when the receive returns.
- `Service_Start`, `Service_Stop` and `Service_Notify` are one atomic step each: their check-then-act races are not modelled, so that in `ServiceQueue` no stop falls between a notification's test of the state and its send. A mutex that fails in a `Service_Notify` stays failed for the receives of its log.
- The moment between `Queue_Delete` and the clearing of the pointer, in which the pointer dangles, is part of one step.
- The loop guard's elapsed-time test in the semaphore's step system is a free boolean; its arithmetic is in `Deadline`.
- Pointers returned by `strtok_r` are positions in the buffer, and the saved pointer of an exhausted scan is the position of the final NUL (some C libraries store NULL there, with the same results).
- Session.SessionDecodes: takes every write to be whole; short and failed writes, whose result the code ignores (`net_console.c:36`, `console.c:121`), are the subject of `Session.SessionDecodesIff`.
- Clock readings are below 2^53 seconds; beyond that the code's product of seconds and 1000 overflows a signed integer.
- What `int()` accepts beyond printed integers is a parameter of `Version`, not a definition. The output of `git tag` is a list of lines.
- The network console's own `main` is one step in `Firmware`, which may return at any time; what it serves is in `Session`.
- Errors of `esp_wifi_connect`, and the rest of the Wi-Fi driver (scanning, access point, credentials).
- `hmi.c`, LED and button drivers, logging, ON/OFF helpers, `ErrorToString`, bit macros.
- Build files, sdkconfig, the other scripts, the git subprocess and the environment in `scripts/ci`.
