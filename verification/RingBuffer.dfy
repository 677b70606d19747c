/** The ring of main/src/adapter/posix/queue.c as a value: indices wrap modulo `size`,
    and the live window is the `count` slots that start at `tail`. */
module RingBuffer {
  import opened Base

  /** The slot `i` places after slot 0, for an index at most one lap ahead. */
  function Wrap(i: nat, size: nat): (r: nat)
    requires i < 2 * size
    ensures r < size
  {
    if i < size then i else i - size
  }

  /** The source writes it with the remainder operator. */
  lemma WrapIsRemainder(i: nat, size: nat)
    requires i < 2 * size
    ensures Wrap(i, size) == i % size
  {
  }

  datatype Ring<+T> = Ring(size: nat, head: nat, tail: nat, count: nat, slots: seq<Option<T>>) {

    /** The indices are where the count says they are. */
    ghost predicate Shape() {
      && |slots| == size
      && count <= size
      && (size == 0 ==> head == 0 && tail == 0)
      && (size > 0 ==> tail < size && head == Wrap(tail + count, size))
    }

    /** The slot that holds the `i`-th oldest message. */
    ghost function Cell(i: nat): Option<T>
      requires Shape() && i < count
    {
      slots[Wrap(tail + i, size)]
    }

    ghost predicate Valid() {
      Shape() && forall i :: 0 <= i < count ==> Cell(i).Some?
    }

    predicate Full() {
      count == size
    }

    /** The queued messages, oldest first. */
    ghost function Window(): (w: seq<T>)
      requires Valid()
      ensures |w| == count
      ensures forall i :: 0 <= i < count ==> Cell(i) == Some(w[i])
    {
      seq(count, i requires 0 <= i < count => Cell(i).value)
    }

    /** Stores at `head` and advances it. */
    function Push(x: T): (r: Ring<T>)
      requires Valid() && !Full()
      ensures r.Valid() && r.size == size && r.Window() == Window() + [x]
    {
      var r := Ring(size, Wrap(head + 1, size), tail, count + 1, slots[head := Some(x)]);
      assert forall i :: 0 <= i < count ==> r.Cell(i) == Cell(i);
      assert r.Cell(count) == Some(x);
      r
    }

    /** Drops the slot at `tail`; the slot itself is not cleared. */
    function Pop(): (r: Ring<T>)
      requires Valid() && count > 0
      ensures r.Valid() && r.size == size && r.Window() == Window()[1..]
    {
      var r := Ring(size, head, Wrap(tail + 1, size), count - 1, slots);
      assert forall i :: 0 <= i < count - 1 ==> r.Cell(i) == Cell(i + 1);
      r
    }

    /** The message a receive copies out. */
    function Oldest(): (x: T)
      requires Valid() && count > 0
      ensures x == Window()[0]
    {
      assert Cell(0) == slots[tail];
      slots[tail].value
    }
  }

  /** The state after `Queue_New`: no messages, every slot zeroed. */
  function Empty<T>(size: nat): (r: Ring<T>)
    ensures r.Valid() && r.size == size && r.Window() == []
  {
    Ring(size, 0, 0, 0, seq(size, _ => None))
  }
}
