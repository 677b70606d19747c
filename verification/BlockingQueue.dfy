/** The queue object of main/src/adapter/posix/queue.c, updated in place.
    Queue_Receive is split where it waits: other threads run between ReceiveEnter and ReceiveFinish,
    and each of their calls keeps Valid(). */
module BlockingQueue {
  import opened Base
  import opened RingBuffer
  import opened Deadline
  import Pthread

  datatype Entry =
    | NoMutex                      // the lock failed; the call returns Failure
    | Ready                        // messages are queued; no wait
    | MustWait(deadline: Timespec) // empty: wait on the condition variable until then

  class Queue<T> {
    const size: nat
    var head: nat
    var tail: nat
    var nElements: nat
    const messages: array<Option<T>>

    /** The fields as a ring value. */
    ghost function View(): Ring<T>
      reads this, messages
    {
      Ring(size, head, tail, nElements, messages[..])
    }

    ghost predicate Valid()
      reads this, messages
    {
      View().Valid()
    }

    /** The queued messages, oldest first. */
    ghost function Contents(): (s: seq<T>)
      reads this, messages
      requires Valid()
      ensures |s| == nElements <= size
    {
      View().Window()
    }

    /** Queue_New. */
    constructor (queueSize: nat)
      ensures Valid() && Contents() == [] && size == queueSize
      ensures fresh(messages)
    {
      size := queueSize;
      messages := new Option<T>[queueSize](_ => None);
      head, tail, nElements := 0, 0, 0;
    }

    /** Queue_Send. `locked` says whether the mutex was obtained; `signals` whether a waiter is signalled. */
    method Send(message: T, locked: bool) returns (error: ErrorCode, signals: bool)
      requires Valid()
      modifies this, messages
      ensures Valid()
      ensures error == (if !locked then Failure
                        else if |old(Contents())| == size then ErrorResourceNotAvailable
                        else Success)
      ensures Contents() == if error == Success then old(Contents()) + [message] else old(Contents())
      ensures View() == if error == Success then old(View()).Push(message) else old(View())
      ensures signals <==> error == Success && old(Contents()) == []
    {
      signals := false;
      if !locked {
        return Failure, false;
      }
      error := Success;
      if nElements == size {
        return ErrorResourceNotAvailable, false;
      }
      ghost var pushed := View().Push(message);
      messages[head] := Some(message);
      WrapIsRemainder(head + 1, size);
      head := (head + 1) % size;
      nElements := nElements + 1;
      assert View() == pushed;
      if nElements == 1 {
        signals := true;
      }
    }

    /** Queue_Receive up to the wait. */
    method ReceiveEnter(locked: bool, now: Timeval, timeoutMs: uint64) returns (entry: Entry)
      requires Valid()
      ensures entry.NoMutex? <==> !locked
      ensures entry.Ready? <==> locked && Contents() != []
      ensures entry.MustWait? ==> Denotes(entry.deadline, now, timeoutMs)
      ensures entry.MustWait? && !entry.deadline.Accepted() <==>
              locked && Contents() == [] && RawNs(now, timeoutMs) == ONE_SEC_IN_NS
    {
      if !locked {
        return NoMutex;
      }
      if nElements == 0 {
        var tp, _ := QueueDeadline(now, timeoutMs);
        return MustWait(tp);
      }
      return Ready;
    }

    /** Queue_Receive after the wait (`Zero` also when there was none). The state is the current one,
        whatever other threads did while the mutex was released. */
    method ReceiveFinish(status: Pthread.WaitStatus) returns (error: ErrorCode, message: Option<T>)
      requires Valid()
      modifies this
      ensures Valid()
      ensures error == (if status == Pthread.OtherError then ErrorOs
                        else if status == Pthread.ETimedOut || old(Contents()) == [] then ErrorTimeout
                        else Success)
      ensures error == Success ==> message == Some(old(Contents())[0]) && Contents() == old(Contents())[1..]
      ensures error == Success ==> View() == old(View()).Pop()
      ensures error != Success ==> message == None && View() == old(View())
      ensures error != Success ==> Contents() == old(Contents())
    {
      message := None;
      error := Success;
      if status != Pthread.Zero {
        if status == Pthread.ETimedOut {
          error := ErrorTimeout;
        } else {
          error := ErrorOs;
        }
        return;
      }
      if nElements == 0 {
        error := ErrorTimeout;
      } else {
        ghost var popped := View().Pop();
        assert View().Oldest() == Contents()[0];
        message := messages[tail];
        nElements := nElements - 1;
        WrapIsRemainder(tail + 1, size);
        tail := (tail + 1) % size;
        assert View() == popped;
      }
    }

    /** A Queue_Receive during which no other thread touches the queue. */
    method Receive(locked: bool, now: Timeval, timeoutMs: uint64, status: Pthread.WaitStatus)
      returns (error: ErrorCode, message: Option<T>)
      requires Valid()
      modifies this
      ensures Valid()
      ensures error == Success <==> locked && old(Contents()) != []
      ensures error == Success ==> message == Some(old(Contents())[0]) && Contents() == old(Contents())[1..]
      ensures error != Success ==> message == None && Contents() == old(Contents())
    {
      var entry := ReceiveEnter(locked, now, timeoutMs);
      match entry {
        case NoMutex => return Failure, None;
        case Ready => error, message := ReceiveFinish(Pthread.Zero);
        case MustWait(_) => error, message := ReceiveFinish(status);
      }
    }
  }
}
