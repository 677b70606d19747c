/** The mutex and condition-variable rules both step systems share.

    A thread is outside the monitor, contending for the mutex, holding it, or parked in
    pthread_cond_timedwait. `at` is its program point: where it continues once it holds the mutex.
    A parked thread leaves the condition variable because another thread signalled it, because
    its deadline passed, spuriously, or with some other error; it then contends for the mutex again.
    POSIX.1-2017 (pthread_cond_timedwait) lets a wait that times out consume a signal directed at the
    condition variable at the same moment; the step systems allow that where their configuration says so. */
module Pthread {
  import opened Base

  type Tid = nat

  /** `Consumed`: signalled, but the wait reports its timeout all the same. */
  datatype Wake = Signalled | Spurious | TimedOut | Failed | Consumed

  /** What pthread_cond_timedwait returns. */
  datatype WaitStatus = Zero | ETimedOut | OtherError

  function Status(why: Wake): WaitStatus {
    match why
    case Signalled => Zero
    case Spurious => Zero
    case TimedOut => ETimedOut
    case Consumed => ETimedOut
    case Failed => OtherError
  }

  datatype Thread<+L> = Outside | Entering(at: L) | Holding(at: L) | Parked

  datatype Monitor<+L> = Monitor(owner: Option<Tid>, threads: seq<Thread<L>>) {

    /** The mutex is held by exactly the thread recorded as its owner. */
    ghost predicate Valid() {
      && (owner.Some? ==> owner.value < |threads|)
      && forall t :: 0 <= t < |threads| ==> (threads[t].Holding? <==> owner == Some(t))
    }

    predicate IsOutside(t: Tid) {
      t < |threads| && threads[t].Outside?
    }

    predicate IsEntering(t: Tid) {
      t < |threads| && threads[t].Entering?
    }

    predicate Holds(t: Tid) {
      t < |threads| && threads[t].Holding?
    }

    predicate IsParked(t: Tid) {
      t < |threads| && threads[t].Parked?
    }

    predicate AnyParked() {
      exists t :: 0 <= t < |threads| && IsParked(t)
    }
  }

  /** Calls a function that starts by locking the mutex. */
  function Call<L>(m: Monitor<L>, t: Tid, at: L): (r: Monitor<L>)
    requires m.Valid() && m.IsOutside(t)
    ensures r.Valid()
  {
    m.(threads := m.threads[t := Entering(at)])
  }

  /** pthread_mutex_lock fails and the function returns. */
  function Abandon<L>(m: Monitor<L>, t: Tid): (r: Monitor<L>)
    requires m.Valid() && m.IsEntering(t)
    ensures r.Valid()
  {
    m.(threads := m.threads[t := Outside])
  }

  /** Gets the free mutex. */
  function Acquire<L>(m: Monitor<L>, t: Tid): (r: Monitor<L>)
    requires m.Valid() && m.IsEntering(t) && m.owner.None?
    ensures r.Valid()
  {
    Monitor(Some(t), m.threads[t := Holding(m.threads[t].at)])
  }

  /** Moves on inside the critical section. */
  function Goto<L>(m: Monitor<L>, t: Tid, at: L): (r: Monitor<L>)
    requires m.Valid() && m.Holds(t)
    ensures r.Valid()
  {
    m.(threads := m.threads[t := Holding(at)])
  }

  /** Unlocks and returns. */
  function Release<L>(m: Monitor<L>, t: Tid): (r: Monitor<L>)
    requires m.Valid() && m.Holds(t)
    ensures r.Valid()
  {
    Monitor(None, m.threads[t := Outside])
  }

  /** Releases the mutex and parks, in one step. */
  function Park<L>(m: Monitor<L>, t: Tid): (r: Monitor<L>)
    requires m.Valid() && m.Holds(t)
    ensures r.Valid()
  {
    Monitor(None, m.threads[t := Parked])
  }

  /** Leaves the condition variable and contends for the mutex. */
  function Unpark<L>(m: Monitor<L>, t: Tid, at: L): (r: Monitor<L>)
    requires m.Valid() && m.IsParked(t)
    ensures r.Valid()
  {
    m.(threads := m.threads[t := Entering(at)])
  }

  /** A waiter that has left the condition variable gets another reason for it. */
  function Redirect<L>(m: Monitor<L>, t: Tid, at: L): (r: Monitor<L>)
    requires m.Valid() && m.IsEntering(t)
    ensures r.Valid()
  {
    m.(threads := m.threads[t := Entering(at)])
  }
}
