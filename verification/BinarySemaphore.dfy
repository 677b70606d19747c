/** The semaphore object of main/src/adapter/posix/semaphore.c, updated in place under its mutex. */
module BinarySemaphore {
  import opened Base
  import opened Deadline

  /** What a Take does next once it holds the mutex and has not been refused by the wait. */
  datatype Decision =
    | Wait(deadline: Timespec)  // locked and not expired: wait on the condition variable
    | Return(error: ErrorCode)

  class Semaphore {
    var locked: bool

    /** Semaphore_New. */
    constructor ()
      ensures locked
    {
      locked := true;
    }

    /** Semaphore_Take from the loop test to the next wait or the end; `start` is the time of the call. */
    method TakeTest(start: Timeval, now: Timeval, timeoutMs: uint64) returns (decision: Decision)
      modifies this
      ensures decision == Return(Success) <==> !old(locked)
      ensures decision == Return(ErrorTimeout) <==> old(locked) && ElapsedTimeMs(start, now) >= timeoutMs
      ensures decision.Wait? <==> old(locked) && ElapsedTimeMs(start, now) < timeoutMs
      ensures decision.Wait? ==> Denotes(decision.deadline, start, timeoutMs) && decision.deadline.Accepted()
      ensures locked == (if decision == Return(Success) then true else old(locked))
    {
      if locked && ElapsedTimeMs(start, now) < timeoutMs {
        var tp, _ := SemaphoreDeadline(start, timeoutMs);
        return Wait(tp);
      }
      if !locked {
        locked := true;
        return Return(Success);
      }
      return Return(ErrorTimeout);
    }

    /** Semaphore_Give. `signals` says whether a waiter is signalled. */
    method Give() returns (error: ErrorCode, signals: bool)
      modifies this
      ensures !locked && error == Success
      ensures signals <==> old(locked)
    {
      error := Success;
      signals := false;
      if locked {
        locked := false;
        signals := true;
      }
    }
  }
}
