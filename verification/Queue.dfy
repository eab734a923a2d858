/**
 * The producer-consumer queue under any number of threads: a transition system with one step per lock operation,
 * critical section, wait, wake-up and signal. Enqueuers and dequeuers run the same protocol, with the roles of
 * elements and free places exchanged.
 */
module Queue {
  import opened Modular
  import opened Ring

  datatype Role = Push | Pop

  /** Where a thread is inside `pcq_enqueue` or `pcq_dequeue`. */
  datatype Stage =
    | Idle                  // outside the queue's functions
    | Want                  // about to lock the size lock
    | Test(woken: bool)     // holds the size lock, at the loop test; `woken` when it has slept before
    | Asleep                // in pthread_cond_wait, the size lock released
    | Relock                // woken, about to lock the size lock again
    | Counted               // has changed the size, still holds the size lock
    | WantEnd               // about to lock the head lock (Push) or the tail lock (Pop)
    | Section               // holds that lock, the slot not yet written or read
    | Moved                 // slot written or read and index advanced, still holds that lock
    | Signal                // about to signal the other role's condition variable

  datatype Thread = Thread(role: Role, stage: Stage, elem: Elem)

  datatype Owner = Free | Held(t: int)

  /** `written` and `taken` record what head sections stored and what tail sections read, in order. */
  datatype State = State(
    ring: Buffer, sizeLock: Owner, headLock: Owner, tailLock: Owner, threads: seq<Thread>,
    written: seq<Elem>, taken: seq<Cell>)

  function Other(r: Role): Role { if r == Push then Pop else Push }

  /** How many more size sections of role `r` can go through: free places for enqueuers, elements for dequeuers. */
  function Room(q: State, r: Role): int {
    if r == Push then Capacity(q.ring) - q.ring.size else q.ring.size
  }

  function EndLock(q: State, r: Role): Owner { if r == Push then q.headLock else q.tailLock }

  function SetEndLock(q: State, r: Role, o: Owner): State {
    if r == Push then q.(headLock := o) else q.(tailLock := o)
  }

  // ---------------------------------------------------------------- steps

  /** What a thread chooses: a call to make, a sleeping thread to wake, or nothing. */
  datatype Choice = Go | Call(role: Role, elem: Elem) | Wakes(u: int) | WakesNobody | Spurious

  predicate Sleeper(q: State, u: int, r: Role) {
    0 <= u < |q.threads| && q.threads[u].role == r && q.threads[u].stage == Asleep
  }

  predicate CanStep(q: State, t: int, c: Choice) {
    0 <= t < |q.threads| && RingOk(q.ring) &&
    var th := q.threads[t];
    match th.stage
    case Idle => c.Call?
    case Want => c == Go && q.sizeLock == Free
    case Relock => c == Go && q.sizeLock == Free
    case Test(_) => c == Go
    case Asleep => c == Spurious
    case Counted => c == Go
    case WantEnd => c == Go && EndLock(q, th.role) == Free
    case Section => c == Go && Capacity(q.ring) > 0 // the index is taken modulo the capacity
    case Moved => c == Go
    case Signal =>
      (c.Wakes? && Sleeper(q, c.u, Other(th.role))) ||
      (c == WakesNobody && forall u | 0 <= u < |q.threads| :: !Sleeper(q, u, Other(th.role)))
  }

  function At(q: State, t: int, stage: Stage): State
    requires 0 <= t < |q.threads|
  {
    q.(threads := q.threads[t := q.threads[t].(stage := stage)])
  }

  function StepTo(q: State, t: int, c: Choice): State
    requires CanStep(q, t, c)
  {
    var th := q.threads[t];
    match th.stage
    case Idle => q.(threads := q.threads[t := Thread(c.role, Want, c.elem)])
    case Want => At(q, t, Test(false)).(sizeLock := Held(t))
    case Relock => At(q, t, Test(true)).(sizeLock := Held(t))
    case Test(_) =>
      if Room(q, th.role) == 0 then At(q, t, Asleep).(sizeLock := Free)
      else At(q, t, Counted).(ring := if th.role == Push then Reserve(q.ring) else Release(q.ring))
    case Asleep => At(q, t, Relock)
    case Counted => At(q, t, WantEnd).(sizeLock := Free)
    case WantEnd => SetEndLock(At(q, t, Section), th.role, Held(t))
    case Section =>
      if th.role == Push then At(q, t, Moved).(ring := Put(q.ring, th.elem), written := q.written + [th.elem])
      else
        var (ring, cell) := Take(q.ring);
        At(q, t, Moved).(ring := ring, taken := q.taken + [cell])
    case Moved => SetEndLock(At(q, t, Signal), th.role, Free)
    case Signal =>
      var q' := At(q, t, Idle);
      if c.Wakes? then At(q', c.u, Relock) else q'
  }

  predicate Initial(q: State) {
    q.ring == Create(Capacity(q.ring)) &&
    q.sizeLock == Free && q.headLock == Free && q.tailLock == Free &&
    q.written == [] && q.taken == [] && forall t | 0 <= t < |q.threads| :: q.threads[t].stage == Idle
  }

  /** A queue of any capacity may start with any number of threads. */
  lemma AnyQueueStarts(capacity: nat, threads: nat) returns (q: State)
    ensures Initial(q) && Capacity(q.ring) == capacity && |q.threads| == threads
  {
    q := State(Create(capacity), Free, Free, Free, seq(threads, _ => Thread(Push, Idle, [])), [], []);
  }

  datatype Event = Event(t: int, c: Choice)

  /** An interleaving: every step is one a thread can take. */
  predicate IsRun(q: State, events: seq<Event>)
    decreases |events|
  {
    events == [] ||
    (CanStep(q, events[0].t, events[0].c) && IsRun(StepTo(q, events[0].t, events[0].c), events[1..]))
  }

  function After(q: State, events: seq<Event>): State
    requires IsRun(q, events)
    decreases |events|
  {
    if events == [] then q else After(StepTo(q, events[0].t, events[0].c), events[1..])
  }

  // ---------------------------------------------------------------- counting threads

  datatype Group = Sleeping(r: Role) | Unsignalled(r: Role) | Woken(r: Role) | Unmoved(r: Role) | Unfinished(r: Role)

  predicate In(th: Thread, g: Group) {
    th.role == g.r &&
    match g
    case Sleeping(_) => th.stage == Asleep
    case Unsignalled(_) =>
      th.stage.Counted? || th.stage.WantEnd? || th.stage.Section? || th.stage.Moved? || th.stage.Signal?
    case Woken(_) => th.stage == Relock || th.stage == Test(true)
    case Unmoved(_) => th.stage.Counted? || th.stage.WantEnd? || th.stage.Section?
    case Unfinished(_) => !th.stage.Idle? && !th.stage.Moved? && !th.stage.Signal?
  }

  function One(b: bool): nat { if b then 1 else 0 }

  function Count(ths: seq<Thread>, g: Group): nat {
    if ths == [] then 0 else Count(ths[..|ths| - 1], g) + One(In(ths[|ths| - 1], g))
  }

  lemma {:induction false} CountUpdate(ths: seq<Thread>, t: nat, th: Thread, g: Group)
    requires t < |ths|
    ensures Count(ths[t := th], g) == Count(ths, g) - One(In(ths[t], g)) + One(In(th, g))
  {
    var last := |ths| - 1;
    if t == last {
      assert ths[t := th][..last] == ths[..last];
    } else {
      assert ths[t := th][..last] == ths[..last][t := th];
      CountUpdate(ths[..last], t, th, g);
    }
  }

  lemma {:induction false} CountPositive(ths: seq<Thread>, t: nat, g: Group)
    requires t < |ths| && In(ths[t], g)
    ensures Count(ths, g) > 0
  {
    if t < |ths| - 1 {
      CountPositive(ths[..|ths| - 1], t, g);
    }
  }

  lemma {:induction false} NobodyIn(ths: seq<Thread>, g: Group)
    requires forall t | 0 <= t < |ths| :: !In(ths[t], g)
    ensures Count(ths, g) == 0
  {
    if ths != [] {
      NobodyIn(ths[..|ths| - 1], g);
    }
  }

  lemma {:induction false} CountWitness(ths: seq<Thread>, g: Group) returns (t: nat)
    requires Count(ths, g) > 0
    ensures t < |ths| && In(ths[t], g)
  {
    t := |ths| - 1;
    if !In(ths[t], g) {
      t := CountWitness(ths[..|ths| - 1], g);
    }
  }

  // ---------------------------------------------------------------- the invariant

  predicate HoldsSizeLock(th: Thread) { th.stage.Test? || th.stage.Counted? }
  predicate HoldsEndLock(th: Thread, r: Role) { th.role == r && (th.stage.Section? || th.stage.Moved?) }

  predicate OwnerExists(q: State, o: Owner) { o.Held? ==> 0 <= o.t < |q.threads| }

  predicate SizeLockOk(q: State) {
    OwnerExists(q, q.sizeLock) &&
    forall t | 0 <= t < |q.threads| :: HoldsSizeLock(q.threads[t]) <==> q.sizeLock == Held(t)
  }

  predicate EndLockOk(q: State, r: Role) {
    OwnerExists(q, EndLock(q, r)) &&
    forall t | 0 <= t < |q.threads| :: HoldsEndLock(q.threads[t], r) <==> EndLock(q, r) == Held(t)
  }

  /** A lock is held exactly by the thread that is between taking and releasing it. */
  predicate LocksOk(q: State) { SizeLockOk(q) && EndLockOk(q, Push) && EndLockOk(q, Pop) }

  predicate IndicesOk(q: State) {
    Capacity(q.ring) > 0 ==>
      q.ring.head == |q.written| % Capacity(q.ring) && q.ring.tail == |q.taken| % Capacity(q.ring)
  }

  /** The counters agree with the numbers of completed head and tail sections. */
  predicate Balanced(q: State) {
    0 <= q.ring.size <= Capacity(q.ring) && IndicesOk(q) &&
    |q.written| - |q.taken|
    == q.ring.size - Count(q.threads, Unmoved(Push)) + Count(q.threads, Unmoved(Pop))
  }

  /** No lost wake-up: while a thread of role `r` sleeps, everything it could use is covered by threads that have yet
      to signal, or by woken threads that have yet to look. */
  predicate NoLostWakeup(q: State, r: Role) {
    Count(q.threads, Sleeping(r)) > 0 ==>
      Room(q, r) <= Count(q.threads, Unsignalled(Other(r))) + Count(q.threads, Woken(r))
  }

  /** The last index below `h` that lands on slot `i`, or -1. */
  function LastIndex(h: nat, c: nat, i: nat): (k: int)
    requires c > 0
    ensures -1 <= k < h
  {
    if h == 0 then -1 else if (h - 1) % c == i then h - 1 else LastIndex(h - 1, c, i)
  }

  /** What slot `i` holds after the writes so far. */
  function CellFor(written: seq<Elem>, c: nat, i: nat): Cell
    requires c > 0
  {
    var k := LastIndex(|written|, c, i);
    if k < 0 then Garbage else Stored(written[k])
  }

  predicate CellsOk(q: State) {
    forall i | 0 <= i < Capacity(q.ring) :: q.ring.cells[i] == CellFor(q.written, Capacity(q.ring), i)
  }

  /** No thread gets past the size section of a queue of capacity 0. */
  predicate PlacesExist(q: State) {
    forall t | 0 <= t < |q.threads| && In(q.threads[t], Unsignalled(q.threads[t].role)) :: Capacity(q.ring) > 0
  }

  predicate Inv(q: State) {
    LocksOk(q) && Balanced(q) && NoLostWakeup(q, Push) && NoLostWakeup(q, Pop) && PlacesExist(q) && CellsOk(q)
  }

  // ---------------------------------------------------------------- every step keeps it

  lemma StepCounts(q: State, t: int, c: Choice, g: Group)
    requires CanStep(q, t, c)
    ensures |StepTo(q, t, c).threads| == |q.threads|
    ensures var ths := StepTo(q, t, c).threads;
            Count(ths, g) == Count(q.threads, g) - One(In(q.threads[t], g)) + One(In(ths[t], g))
                             + if c.Wakes? then One(In(ths[c.u], g)) - One(In(q.threads[c.u], g)) else 0
  {
    var ths := StepTo(q, t, c).threads;
    CountUpdate(q.threads, t, ths[t], g);
    if c.Wakes? {
      CountUpdate(q.threads[t := ths[t]], c.u, ths[c.u], g);
      assert ths == q.threads[t := ths[t]][c.u := ths[c.u]];
    } else {
      assert ths == q.threads[t := ths[t]];
    }
  }

  /** What one thread does leaves it to the other threads which locks they hold. */
  lemma OthersKeepLocks(q: State, t: int, c: Choice)
    requires CanStep(q, t, c)
    ensures |StepTo(q, t, c).threads| == |q.threads|
    ensures forall k | 0 <= k < |q.threads| && k != t ::
              (var (th, th') := (q.threads[k], StepTo(q, t, c).threads[k]);
               (HoldsSizeLock(th') <==> HoldsSizeLock(th)) &&
               (HoldsEndLock(th', Push) <==> HoldsEndLock(th, Push)) &&
               (HoldsEndLock(th', Pop) <==> HoldsEndLock(th, Pop)))
  {
  }

  lemma StepKeepsSizeLock(q: State, t: int, c: Choice)
    requires SizeLockOk(q) && CanStep(q, t, c)
    ensures SizeLockOk(StepTo(q, t, c))
  {
    hide RingOk, Put, Take, Reserve, Release, Room, HoldsEndLock;
    OthersKeepLocks(q, t, c);
  }

  lemma StepKeepsEndLock(q: State, t: int, c: Choice, r: Role)
    requires EndLockOk(q, r) && CanStep(q, t, c)
    ensures EndLockOk(StepTo(q, t, c), r)
  {
    hide CanStep, StepTo, HoldsSizeLock, HoldsEndLock, EndLock;
    OthersKeepLocks(q, t, c);
    OwnEndLock(q, t, c, r);
  }

  /** The end lock changes only when the stepping thread takes or releases it. */
  lemma OwnEndLock(q: State, t: int, c: Choice, r: Role)
    requires CanStep(q, t, c)
    ensures |StepTo(q, t, c).threads| == |q.threads| > t >= 0
    ensures var (th, th') := (q.threads[t], StepTo(q, t, c).threads[t]);
            EndLock(StepTo(q, t, c), r) ==
            if HoldsEndLock(th', r) && !HoldsEndLock(th, r) then Held(t)
            else if HoldsEndLock(th, r) && !HoldsEndLock(th', r) then Free
            else EndLock(q, r)
    ensures HoldsEndLock(StepTo(q, t, c).threads[t], r) && !HoldsEndLock(q.threads[t], r) ==> EndLock(q, r) == Free
  {
  }

  lemma StepKeepsIndices(q: State, t: int, c: Choice)
    requires IndicesOk(q) && CanStep(q, t, c)
    ensures IndicesOk(StepTo(q, t, c))
  {
    if Capacity(q.ring) > 0 {
      ModAdd(|q.written|, 1, Capacity(q.ring));
      ModAdd(|q.taken|, 1, Capacity(q.ring));
    }
  }

  predicate AtSection(q: State, t: int, r: Role) {
    0 <= t < |q.threads| && q.threads[t].role == r && q.threads[t].stage == Section
  }

  /** The thread is at the loop test and has something to use. */
  predicate PassesTest(q: State, t: int, r: Role) {
    0 <= t < |q.threads| && q.threads[t].role == r && q.threads[t].stage.Test? && Room(q, r) != 0
  }

  lemma StepSections(q: State, t: int, c: Choice)
    requires CanStep(q, t, c)
    ensures Capacity(StepTo(q, t, c).ring) == Capacity(q.ring)
    ensures |StepTo(q, t, c).written| == |q.written| + One(AtSection(q, t, Push))
    ensures |StepTo(q, t, c).taken| == |q.taken| + One(AtSection(q, t, Pop))
  {
    hide Room;
  }

  // How each group changes in one step.

  lemma StepUnmoved(q: State, t: int, c: Choice, r: Role)
    requires CanStep(q, t, c)
    ensures Count(StepTo(q, t, c).threads, Unmoved(r))
         == Count(q.threads, Unmoved(r)) + One(PassesTest(q, t, r)) - One(AtSection(q, t, r))
  {
    hide Count, Put, Take, Reserve, Release, RingOk, Room, EndLock;
    StepCounts(q, t, c, Unmoved(r));
  }

  lemma StepUnfinished(q: State, t: int, c: Choice, r: Role)
    requires CanStep(q, t, c)
    ensures Count(StepTo(q, t, c).threads, Unfinished(r))
         == Count(q.threads, Unfinished(r)) + One(c.Call? && c.role == r) - One(AtSection(q, t, r))
  {
    hide Count, Put, Take, Reserve, Release, RingOk, Room, EndLock;
    StepCounts(q, t, c, Unfinished(r));
  }

  predicate Is(q: State, t: int, r: Role, stage: Stage) {
    0 <= t < |q.threads| && q.threads[t].role == r && q.threads[t].stage == stage
  }

  lemma StepSleeping(q: State, t: int, c: Choice, r: Role)
    requires CanStep(q, t, c)
    ensures Count(StepTo(q, t, c).threads, Sleeping(r))
         == Count(q.threads, Sleeping(r))
            + One(q.threads[t].role == r && q.threads[t].stage.Test? && Room(q, r) == 0)
            - One(Is(q, t, r, Asleep)) - One(c.Wakes? && Is(q, t, Other(r), Signal))
  {
    hide Count, Put, Take, Reserve, Release, RingOk, Room, EndLock;
    StepCounts(q, t, c, Sleeping(r));
  }

  lemma StepUnsignalled(q: State, t: int, c: Choice, r: Role)
    requires CanStep(q, t, c)
    ensures Count(StepTo(q, t, c).threads, Unsignalled(r))
         == Count(q.threads, Unsignalled(r)) + One(PassesTest(q, t, r)) - One(Is(q, t, r, Signal))
  {
    hide Count, Put, Take, Reserve, Release, RingOk, Room, EndLock;
    StepCounts(q, t, c, Unsignalled(r));
  }

  lemma StepWoken(q: State, t: int, c: Choice, r: Role)
    requires CanStep(q, t, c)
    ensures Count(StepTo(q, t, c).threads, Woken(r))
         == Count(q.threads, Woken(r)) + One(Is(q, t, r, Asleep)) + One(c.Wakes? && Is(q, t, Other(r), Signal))
            - One(Is(q, t, r, Test(true)))
  {
    hide Count, Put, Take, Reserve, Release, RingOk, Room, EndLock;
    StepCounts(q, t, c, Woken(r));
  }

  /** A size section takes one of what its role uses and gives one to the other role; no other step changes the size. */
  lemma StepRoom(q: State, t: int, c: Choice, r: Role)
    requires CanStep(q, t, c)
    ensures Room(StepTo(q, t, c), r) == Room(q, r) - One(PassesTest(q, t, r)) + One(PassesTest(q, t, Other(r)))
  {
  }

  lemma StepKeepsBalance(q: State, t: int, c: Choice)
    requires Balanced(q) && CanStep(q, t, c)
    ensures Balanced(StepTo(q, t, c))
  {
    hide Count, IndicesOk, StepTo, CanStep;
    StepUnmoved(q, t, c, Push);
    StepUnmoved(q, t, c, Pop);
    StepRoom(q, t, c, Push);
    StepRoom(q, t, c, Pop);
    StepSections(q, t, c);
    StepKeepsIndices(q, t, c);
  }

  lemma StepKeepsWakeups(q: State, t: int, c: Choice, r: Role)
    requires LocksOk(q) && NoLostWakeup(q, r) && CanStep(q, t, c)
    ensures NoLostWakeup(StepTo(q, t, c), r)
  {
    hide Count, StepTo, RingOk, LocksOk, Room;
    StepRoom(q, t, c, r);
    StepSleeping(q, t, c, r);
    StepUnsignalled(q, t, c, Other(r));
    StepWoken(q, t, c, r);
    if c == WakesNobody && Other(q.threads[t].role) == r {
      NobodySleeps(q, r);
    }
  }

  lemma NobodySleeps(q: State, r: Role)
    requires forall u | 0 <= u < |q.threads| :: !Sleeper(q, u, r)
    ensures Count(q.threads, Sleeping(r)) == 0
  {
    forall u | 0 <= u < |q.threads|
      ensures !In(q.threads[u], Sleeping(r))
    {
      assert !Sleeper(q, u, r);
    }
    NobodyIn(q.threads, Sleeping(r));
  }

  lemma StepKeepsCells(q: State, t: int, c: Choice)
    requires Balanced(q) && CellsOk(q) && CanStep(q, t, c)
    ensures CellsOk(StepTo(q, t, c))
  {
  }

  lemma StepKeepsPlaces(q: State, t: int, c: Choice)
    requires PlacesExist(q) && CanStep(q, t, c)
    ensures PlacesExist(StepTo(q, t, c))
  {
  }

  lemma StepKeepsInv(q: State, t: int, c: Choice)
    requires Inv(q) && CanStep(q, t, c)
    ensures Inv(StepTo(q, t, c))
  {
    hide SizeLockOk, EndLockOk, Balanced, NoLostWakeup, CellsOk, PlacesExist, CanStep, StepTo;
    StepKeepsSizeLock(q, t, c);
    StepKeepsEndLock(q, t, c, Push);
    StepKeepsEndLock(q, t, c, Pop);
    StepKeepsBalance(q, t, c);
    StepKeepsWakeups(q, t, c, Push);
    StepKeepsWakeups(q, t, c, Pop);
    StepKeepsCells(q, t, c);
    StepKeepsPlaces(q, t, c);
  }

  lemma InitialInv(q: State)
    requires Initial(q)
    ensures Inv(q)
  {
    forall g
      ensures Count(q.threads, g) == 0
    {
      NobodyIn(q.threads, g);
    }
  }

  /** The invariant holds after every interleaving of any calls by any number of threads. */
  lemma {:induction false} RunKeepsInv(q: State, events: seq<Event>)
    requires Inv(q) && IsRun(q, events)
    ensures Inv(After(q, events))
    decreases |events|
  {
    if events != [] {
      StepKeepsInv(q, events[0].t, events[0].c);
      RunKeepsInv(StepTo(q, events[0].t, events[0].c), events[1..]);
    }
  }
}
