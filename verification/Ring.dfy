/** The ring of producer-consumer.c: one function per critical section, and the bounded sequence that calls made one
    at a time see. */
module Ring {
  import opened Bytes
  import opened Modular

  /** A queue element: the 289 bytes that `pcq_enqueue` copies. */
  type Elem = seq<byte>

  /** What a slot of the buffer holds; a slot never written holds whatever `malloc` left. */
  datatype Cell = Garbage | Stored(elem: Elem)

  datatype Buffer = Buffer(size: int, head: nat, tail: nat, cells: seq<Cell>)

  function Capacity(b: Buffer): nat { |b.cells| }

  predicate RingOk(b: Buffer) {
    0 <= b.size <= Capacity(b) && (Capacity(b) > 0 ==> b.head < Capacity(b) && b.tail < Capacity(b))
  }

  function Create(capacity: nat): Buffer { Buffer(0, 0, 0, seq(capacity, _ => Garbage)) }

  /** The slot after `i`. */
  function Next(b: Buffer, i: nat): nat
    requires i < Capacity(b)
  {
    (i + 1) % Capacity(b)
  }

  // The size section and the head section of `pcq_enqueue`.

  function Reserve(b: Buffer): Buffer { b.(size := b.size + 1) }

  function Put(b: Buffer, e: Elem): Buffer
    requires b.head < Capacity(b)
  {
    b.(cells := b.cells[b.head := Stored(e)], head := Next(b, b.head))
  }

  // The size section and the tail section of `pcq_dequeue`.

  function Release(b: Buffer): Buffer { b.(size := b.size - 1) }

  function Take(b: Buffer): (Buffer, Cell)
    requires b.tail < Capacity(b)
  {
    (b.(tail := Next(b, b.tail)), b.cells[b.tail])
  }

  // ---------------------------------------------------------------- calls made one at a time

  /** Index of the `k`-th slot from the tail on. */
  function Slot(b: Buffer, k: nat): nat
    requires Capacity(b) > 0
  {
    (b.tail + k) % Capacity(b)
  }

  /** The ring holds exactly the elements `s`, oldest first. */
  ghost predicate Holds(b: Buffer, s: seq<Elem>) {
    RingOk(b) && b.size == |s| && (Capacity(b) > 0 ==> b.head == Slot(b, |s|)) &&
    forall k | 0 <= k < |s| :: b.cells[Slot(b, k)] == Stored(s[k])
  }

  /** A whole enqueue appends. */
  lemma EnqueueAppends(b: Buffer, s: seq<Elem>, e: Elem)
    requires Holds(b, s) && b.size < Capacity(b)
    ensures Holds(Put(Reserve(b), e), s + [e])
  {
    var b' := Put(Reserve(b), e);
    ModAdd(b.tail + |s|, 1, Capacity(b));
    forall k | 0 <= k < |s| + 1
      ensures b'.cells[Slot(b', k)] == Stored((s + [e])[k])
    {
      if k < |s| {
        ModDiffer(b.tail + k, b.tail + |s|, Capacity(b));
      }
    }
  }

  /** A whole dequeue removes and returns the oldest element. */
  lemma DequeueRemovesOldest(b: Buffer, s: seq<Elem>)
    requires Holds(b, s) && b.size > 0
    ensures Take(Release(b)).1 == Stored(s[0]) && Holds(Take(Release(b)).0, s[1..])
  {
    var b' := Take(Release(b)).0;
    ModUnique(b.tail, Capacity(b), 0, b.tail);
    forall k: nat
      ensures Slot(b', k) == Slot(b, k + 1)
    {
      ModAdd(b.tail + 1, k, Capacity(b));
      assert b.tail + (k + 1) == b.tail + 1 + k;
    }
  }
}
