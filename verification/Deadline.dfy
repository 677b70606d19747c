/** The time arithmetic of main/src/adapter/posix/queue.c and semaphore.c.
    Seconds are read from a clock below 2^53: then its product with 1000, which the source forms in signed
    64-bit arithmetic, does not overflow, nor does the addition of a 64-bit timeout. */
module Deadline {
  import opened Base

  const ONE_SEC_IN_NS := 1_000_000_000

  const CLOCK_LIMIT := 0x20_0000_0000_0000

  type ClockSeconds = s: int | 0 <= s < CLOCK_LIMIT
  type Microseconds = u: int | 0 <= u < 1_000_000

  /** What gettimeofday returns. */
  datatype Timeval = Timeval(sec: ClockSeconds, usec: Microseconds) {
    ghost function Ns(): int {
      sec * ONE_SEC_IN_NS + usec * 1000
    }

    ghost function Us(): int {
      sec * 1_000_000 + usec
    }
  }

  /** What pthread_cond_timedwait takes. */
  datatype Timespec = Timespec(sec: int, nsec: int) {
    ghost function Ns(): int {
      sec * ONE_SEC_IN_NS + nsec
    }

    /** pthread_cond_timedwait answers EINVAL outside this range (POSIX.1-2017, ERRORS). */
    predicate Accepted() {
      0 <= nsec < ONE_SEC_IN_NS
    }
  }

  /** The nanosecond field before the normalisation loop. */
  function RawNs(now: Timeval, timeoutMs: uint64): int {
    (now.usec + timeoutMs % 1000 * 1000) * 1000
  }

  /** `tp` is the instant `timeoutMs` after `now`, in signed 64-bit fields. */
  ghost predicate Denotes(tp: Timespec, now: Timeval, timeoutMs: uint64) {
    && tp.Ns() == now.Ns() + timeoutMs * 1_000_000
    && 0 <= tp.sec < 0x8000_0000_0000_0000
    && 0 <= tp.nsec < 0x8000_0000_0000_0000
  }

  /** Queue_Receive's deadline. The loop keeps going only while strictly above one second. */
  method QueueDeadline(now: Timeval, timeoutMs: uint64) returns (tp: Timespec, laps: nat)
    ensures Denotes(tp, now, timeoutMs) && laps <= 1
    ensures tp.nsec <= ONE_SEC_IN_NS
    ensures tp.Accepted() <==> RawNs(now, timeoutMs) != ONE_SEC_IN_NS
  {
    tp := Timespec(now.sec + timeoutMs / 1000, RawNs(now, timeoutMs));
    laps := 0;
    while tp.nsec > ONE_SEC_IN_NS
      invariant Denotes(tp, now, timeoutMs)
      invariant if laps == 0 then tp == Timespec(now.sec + timeoutMs / 1000, RawNs(now, timeoutMs))
                else laps == 1 && tp.nsec == RawNs(now, timeoutMs) - ONE_SEC_IN_NS > 0
      decreases tp.nsec
    {
      tp := Timespec(tp.sec + 1, tp.nsec - ONE_SEC_IN_NS);
      laps := laps + 1;
    }
  }

  /** Semaphore_Take's deadline. The loop also folds exactly one second. */
  method SemaphoreDeadline(now: Timeval, timeoutMs: uint64) returns (tp: Timespec, laps: nat)
    ensures Denotes(tp, now, timeoutMs) && laps <= 1
    ensures tp.Accepted()
  {
    tp := Timespec(now.sec + timeoutMs / 1000, RawNs(now, timeoutMs));
    laps := 0;
    while tp.nsec >= ONE_SEC_IN_NS
      invariant Denotes(tp, now, timeoutMs)
      invariant if laps == 0 then tp == Timespec(now.sec + timeoutMs / 1000, RawNs(now, timeoutMs))
                else laps == 1 && tp.nsec == RawNs(now, timeoutMs) - ONE_SEC_IN_NS >= 0
      decreases tp.nsec
    {
      tp := Timespec(tp.sec + 1, tp.nsec - ONE_SEC_IN_NS);
      laps := laps + 1;
    }
  }

  /** The two loops give the same pair except when the raw nanoseconds are exactly one second;
      then the queue's pair is the one POSIX rejects, one second short and 10^9 ns long. */
  lemma DeadlinesAgreeIff(now: Timeval, timeoutMs: uint64, q: Timespec, s: Timespec)
    requires Denotes(q, now, timeoutMs) && q.nsec <= ONE_SEC_IN_NS
    requires q.Accepted() <==> RawNs(now, timeoutMs) != ONE_SEC_IN_NS
    requires Denotes(s, now, timeoutMs) && s.Accepted()
    ensures q == s <==> RawNs(now, timeoutMs) != ONE_SEC_IN_NS
    ensures q != s ==> q == Timespec(s.sec - 1, ONE_SEC_IN_NS) && s.nsec == 0
  {
    assert (q.sec - s.sec) * ONE_SEC_IN_NS == s.nsec - q.nsec;
  }

  /** The clock reading at which a timeout's raw nanoseconds are exactly one second. */
  lemma RejectedReading(timeoutMs: uint64) returns (now: Timeval)
    requires timeoutMs % 1000 != 0
    ensures RawNs(now, timeoutMs) == ONE_SEC_IN_NS
  {
    now := Timeval(0, 1_000_000 - timeoutMs % 1000 * 1000);
  }

  /** Queue_Receive's deadline is accepted whatever the clock shows, if and only if its timeout is a whole
      number of seconds. */
  lemma AlwaysAcceptedIff(timeoutMs: uint64)
    ensures (forall now: Timeval :: RawNs(now, timeoutMs) != ONE_SEC_IN_NS) <==> timeoutMs % 1000 == 0
  {
    if timeoutMs % 1000 != 0 {
      var now := RejectedReading(timeoutMs);
    }
  }

  /** The core service's 500 ms are rejected when the clock shows half a second. */
  method CoreTimeoutRejected(sec: ClockSeconds) returns (tp: Timespec)
    ensures tp == Timespec(sec, ONE_SEC_IN_NS) && !tp.Accepted()
  {
    var laps;
    tp, laps := QueueDeadline(Timeval(sec, 500_000), 500);
  }

  /** Semaphore_ElapsedTimeMs: microseconds are divided by 1000 twice, and the difference is unsigned. */
  function ElapsedTimeMs(start: Timeval, now: Timeval): uint64 {
    var startMs := start.sec * 1000 + start.usec / 1000 / 1000;
    var endMs := now.sec * 1000 + now.usec / 1000 / 1000;
    (endMs - startMs) % 0x1_0000_0000_0000_0000
  }

  /** Whole milliseconds that really passed. */
  ghost function TrueElapsedMs(start: Timeval, now: Timeval): int {
    (now.Us() - start.Us()) / 1000
  }

  lemma ElapsedSeconds(start: Timeval, now: Timeval)
    ensures ElapsedTimeMs(start, now) ==
            1000 * (now.sec - start.sec) + (if now.sec < start.sec then 0x1_0000_0000_0000_0000 else 0)
  {
    assert start.usec / 1000 / 1000 == 0 && now.usec / 1000 / 1000 == 0;
  }

  lemma TrueElapsedParts(start: Timeval, now: Timeval)
    ensures TrueElapsedMs(start, now) == 1000 * (now.sec - start.sec) + (now.usec - start.usec) / 1000
  {
  }

  /** The reported time has whole-second granularity: unless the clock was set back, it is off by at most a
      second. It is exact only if the sub-second part advanced by less than a millisecond. */
  lemma ElapsedExactIff(start: Timeval, now: Timeval)
    ensures start.sec <= now.sec ==>
              && ElapsedTimeMs(start, now) % 1000 == 0
              && -1000 < ElapsedTimeMs(start, now) - TrueElapsedMs(start, now) <= 1000
    ensures ElapsedTimeMs(start, now) == TrueElapsedMs(start, now) <==>
            start.sec <= now.sec && 0 <= now.usec - start.usec < 1000
  {
    ElapsedSeconds(start, now);
    TrueElapsedParts(start, now);
  }

  /** When the clock has been set back by whole seconds the unsigned difference wraps: the loop guard then
      runs out at once, for every timeout that is not within that distance of 2^64. */
  lemma SetBackExpiresIff(start: Timeval, now: Timeval, timeoutMs: uint64)
    requires now.sec < start.sec
    ensures ElapsedTimeMs(start, now) >= timeoutMs <==>
            timeoutMs + 1000 * (start.sec - now.sec) <= 0x1_0000_0000_0000_0000
  {
    ElapsedSeconds(start, now);
  }

  /** Semaphore_Take's loop guard has run out although the timeout has not, on a clock not set back. */
  ghost predicate ExpiresEarly(start: Timeval, now: Timeval, timeoutMs: uint64) {
    && start.Us() <= now.Us()
    && TrueElapsedMs(start, now) < timeoutMs <= ElapsedTimeMs(start, now)
  }

  /** The timeout in seconds, rounded up. */
  function RoundedSec(timeoutMs: uint64): (sec: nat)
    ensures timeoutMs <= 1000 * sec < timeoutMs + 1000
  {
    (timeoutMs + 999) / 1000
  }

  /** Milliseconds by which rounding it up lengthens it. */
  function RoundingMs(timeoutMs: uint64): (r: nat)
    ensures r < 1000 && 1000 * RoundedSec(timeoutMs) == timeoutMs + r
  {
    1000 * RoundedSec(timeoutMs) - timeoutMs
  }

  lemma RoundingUnique(timeoutMs: uint64, seconds: int)
    requires timeoutMs <= 1000 * seconds < timeoutMs + 1000
    ensures RoundedSec(timeoutMs) == seconds
  {
  }

  /** An early expiry is seen in the first second at or past the timeout, before its sub-second part catches up. */
  lemma EarlyExpiryBounds(start: Timeval, now: Timeval, timeoutMs: uint64)
    requires ExpiresEarly(start, now, timeoutMs)
    ensures timeoutMs > 0 && now.sec - start.sec == RoundedSec(timeoutMs)
    ensures now.usec < start.usec && 1000 * RoundingMs(timeoutMs) < start.usec
  {
    ElapsedSeconds(start, now);
    TrueElapsedParts(start, now);
    SecondsNotNegative(start, now);
    RoundingUnique(timeoutMs, now.sec - start.sec);
  }

  lemma SecondsNotNegative(start: Timeval, now: Timeval)
    requires start.Us() <= now.Us()
    ensures start.sec <= now.sec
  {
  }

  /** The first instant of the second in which the guard runs out. */
  lemma EarlyExpiryWitness(start: Timeval, timeoutMs: uint64) returns (now: Timeval)
    requires timeoutMs > 0 && start.sec + RoundedSec(timeoutMs) < CLOCK_LIMIT
    requires start.usec > 1000 * RoundingMs(timeoutMs)
    ensures ExpiresEarly(start, now, timeoutMs)
  {
    now := Timeval(start.sec + RoundedSec(timeoutMs), 0);
    ElapsedSeconds(start, now);
    TrueElapsedParts(start, now);
  }

  /** A Take may give up early, exactly when the sub-second part of its start time exceeds what rounding the
      timeout up to whole seconds adds (and the clock lasts that long). */
  lemma MayExpireEarlyIff(start: Timeval, timeoutMs: uint64)
    ensures (exists now :: ExpiresEarly(start, now, timeoutMs)) <==>
            && timeoutMs > 0
            && start.usec > 1000 * RoundingMs(timeoutMs)
            && start.sec + RoundedSec(timeoutMs) < CLOCK_LIMIT
  {
    if timeoutMs > 0 && start.usec > 1000 * RoundingMs(timeoutMs) && start.sec + RoundedSec(timeoutMs) < CLOCK_LIMIT {
      var now := EarlyExpiryWitness(start, timeoutMs);
    }
    forall now | ExpiresEarly(start, now, timeoutMs)
      ensures start.usec > 1000 * RoundingMs(timeoutMs) && start.sec + RoundedSec(timeoutMs) < CLOCK_LIMIT
    {
      EarlyExpiryBounds(start, now, timeoutMs);
    }
  }

  /** No choice of the timeout avoids that: every positive one that the clock can reach may expire early. */
  lemma NoTimeoutIsSafe(timeoutMs: uint64)
    ensures (exists start, now :: ExpiresEarly(start, now, timeoutMs)) <==>
            timeoutMs > 0 && RoundedSec(timeoutMs) < CLOCK_LIMIT
  {
    if timeoutMs > 0 && RoundedSec(timeoutMs) < CLOCK_LIMIT {
      var start := Timeval(0, 999_999);
      var now := EarlyExpiryWitness(start, timeoutMs);
    }
    forall start, now | ExpiresEarly(start, now, timeoutMs)
      ensures timeoutMs > 0 && RoundedSec(timeoutMs) < CLOCK_LIMIT
    {
      EarlyExpiryBounds(start, now, timeoutMs);
    }
  }
}
