/** The queue as the program it is: a fixed buffer and three counters, each critical section a method. */
module PcQueue {
  import opened Bytes
  import opened Ring

  class PcQueue {
    const buffer: array<Cell>
    var currentSize: int
    var head: nat
    var tail: nat

    ghost predicate Valid()
      reads this
    {
      0 <= currentSize <= buffer.Length && (buffer.Length > 0 ==> head < buffer.Length && tail < buffer.Length)
    }

    /** The fields as a value. */
    ghost function Snap(): Buffer
      reads this, buffer
    {
      Buffer(currentSize, head, tail, buffer[..])
    }

    /** `pcq_create` */
    constructor (capacity: nat)
      ensures Valid() && fresh(buffer) && buffer.Length == capacity
      ensures Holds(Snap(), []) && currentSize == 0 && head == 0 && tail == 0
    {
      buffer := new Cell[capacity];
      currentSize := 0;
      head := 0;
      tail := 0;
    }

    /** The section of `pcq_enqueue` under the size lock, when there is a free place. */
    method ReserveSection()
      requires Valid() && currentSize < buffer.Length
      modifies this`currentSize
      ensures Valid() && Snap() == Reserve(old(Snap()))
    {
      currentSize := currentSize + 1;
    }

    /** The section of `pcq_enqueue` under the head lock. */
    method HeadSection(elem: Elem)
      requires Valid() && buffer.Length > 0
      modifies this`head, buffer
      ensures Valid() && Snap() == Put(old(Snap()), elem)
    {
      buffer[head] := Stored(elem);
      head := (head + 1) % buffer.Length;
    }

    /** The section of `pcq_dequeue` under the size lock, when there is an element. */
    method ReleaseSection()
      requires Valid() && currentSize > 0
      modifies this`currentSize
      ensures Valid() && Snap() == Release(old(Snap()))
    {
      currentSize := currentSize - 1;
    }

    /** The section of `pcq_dequeue` under the tail lock. */
    method TailSection() returns (cell: Cell)
      requires Valid() && buffer.Length > 0
      modifies this`tail
      ensures Valid() && (Snap(), cell) == Take(old(Snap()))
    {
      cell := buffer[tail];
      tail := (tail + 1) % buffer.Length;
    }

    /** A whole `pcq_enqueue` with room: the bytes of `elem` are copied, and the queue is longer by them. */
    method Enqueue(elem: array<byte>, ghost contents: seq<Elem>)
      requires Valid() && Holds(Snap(), contents) && |contents| < buffer.Length
      modifies this, buffer
      ensures Valid() && Holds(Snap(), contents + [elem[..]])
    {
      var copy := elem[..];
      EnqueueAppends(Snap(), contents, copy);
      ReserveSection();
      HeadSection(copy);
    }

    /** A whole `pcq_dequeue` with an element there: the oldest one. */
    method Dequeue(ghost contents: seq<Elem>) returns (elem: Elem)
      requires Valid() && Holds(Snap(), contents) && contents != []
      modifies this
      ensures Valid() && elem == contents[0] && Holds(Snap(), contents[1..])
    {
      DequeueRemovesOldest(Snap(), contents);
      ReleaseSection();
      var cell := TailSection();
      elem := cell.elem;
    }
  }
}
