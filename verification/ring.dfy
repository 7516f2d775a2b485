// The fifo of buffer.h: one slot is always left free, so that head == tail
// means empty; head is advanced only by the producer, tail only by the consumer.
// Sizes are powers of two there, and indices are masked; for these the mask is
// the remainder.
module RingBuffer {
  import opened Arithmetic

  lemma Masked(i: nat, size: nat)
    requires i < size
    ensures (i + 1) % size == if i + 1 == size then 0 else i + 1
  {
    if i + 1 == size {
      DivMod(i + 1, size, 1, 0);
    } else {
      DivMod(i + 1, size, 0, i + 1);
    }
  }

  class Ring<T(0)> {
    const size: nat
    const data: array<T>
    var head: nat
    var tail: nat

    ghost predicate Valid()
      reads this
    {
      2 <= size == data.Length && head < size && tail < size
    }

    // The elements not yet read, oldest first.
    ghost function Contents(): (s: seq<T>)
      requires Valid()
      reads this, data
    {
      if tail <= head then data[tail..head] else data[tail..] + data[..head]
    }

    constructor (size: nat)
      requires 2 <= size
      ensures Valid() && Contents() == [] && this.size == size
      ensures fresh(data)
    {
      this.size := size;
      data := new T[size];
      head, tail := 0, 0;
    }

    function Next(i: nat): (j: nat)
      requires Valid() && i < size
      reads this
      ensures j < size && j == (i + 1) % size
    {
      Masked(i, size);
      if i + 1 == size then 0 else i + 1
    }

    predicate IsEmpty()
      requires Valid()
      reads this, data
      ensures IsEmpty() <==> Contents() == []
    {
      head == tail
    }

    predicate IsFull()
      requires Valid()
      reads this, data
      ensures IsFull() <==> |Contents()| == size - 1
    {
      Next(head) == tail
    }

    function Used(): (n: nat)
      requires Valid()
      reads this, data
      ensures n == |Contents()|
    {
      if head >= tail then head - tail else head - tail + size
    }

    // The producer fills the slot at head before it knows whether it may keep
    // it.  That slot is never an unread one.
    method Fill(x: T)
      requires Valid()
      modifies data
      ensures Valid() && Contents() == old(Contents()) && data[head] == x
    {
      data[head] := x;
    }

    method Push()
      requires Valid() && !IsFull()
      modifies this`head
      ensures Valid() && Contents() == old(Contents() + [data[head]])
    {
      head := Next(head);
    }

    method Peek() returns (x: T)
      requires Valid() && !IsEmpty()
      ensures x == Contents()[0]
    {
      x := data[tail];
    }

    method Pop()
      requires Valid() && !IsEmpty()
      modifies this`tail
      ensures Valid() && Contents() == old(Contents())[1..]
    {
      tail := Next(tail);
    }

    method Put(x: T)
      requires Valid() && !IsFull()
      modifies this`head, data
      ensures Valid() && Contents() == old(Contents()) + [x]
    {
      Fill(x);
      Push();
    }

    method Get() returns (x: T)
      requires Valid() && !IsEmpty()
      modifies this`tail
      ensures Valid() && [x] + Contents() == old(Contents())
    {
      x := data[tail];
      Pop();
    }
  }
}
