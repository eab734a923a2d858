/** What the queue promises over every interleaving, and exactly when it is first-in first-out. */
module QueueTheorems {
  import opened Modular
  import opened Ring
  import opened Queue

  // ---------------------------------------------------------------- locks and deadlock

  /** No thread ever holds two locks. */
  lemma OneLockPerThread(q: State, events: seq<Event>, t: int)
    requires Initial(q) && IsRun(q, events)
    ensures var a := After(q, events);
            One(a.sizeLock == Held(t)) + One(a.headLock == Held(t)) + One(a.tailLock == Held(t)) <= 1
  {
    InitialInv(q);
    RunKeepsInv(q, events);
    var a := After(q, events);
    assert SizeLockOk(a) && EndLockOk(a, Push) && EndLockOk(a, Pop);
  }

  /** A step that needs neither a new call nor a spurious wake-up. */
  predicate Progress(q: State, t: int, c: Choice) { CanStep(q, t, c) && !c.Call? && !c.Spurious? }

  /** A thread of role `r` is asleep, and there is nothing for it to use. */
  predicate Waits(q: State, t: int, r: Role) { Sleeper(q, t, r) && Room(q, r) == 0 }

  /** Nobody is inside the queue's functions, except threads that wait. */
  predicate OnlyWaiting(q: State) {
    forall t | 0 <= t < |q.threads| :: q.threads[t].stage == Idle || Waits(q, t, q.threads[t].role)
  }

  /** A thread that is neither idle nor asleep can step, or the holder of the lock it wants can. */
  lemma SomeoneCanStep(q: State, t: int) returns (u: int, c: Choice)
    requires Inv(q) && 0 <= t < |q.threads| && q.threads[t].stage != Idle && q.threads[t].stage != Asleep
    ensures Progress(q, u, c)
  {
    u, c := t, Go;
    var th := q.threads[t];
    match th.stage
    case Want => if q.sizeLock.Held? { u := q.sizeLock.t; }
    case Relock => if q.sizeLock.Held? { u := q.sizeLock.t; }
    case WantEnd => if EndLock(q, th.role).Held? { u := EndLock(q, th.role).t; }
    case Signal =>
      if v :| 0 <= v < |q.threads| && Sleeper(q, v, Other(th.role)) {
        c := Wakes(v);
      } else {
        c := WakesNobody;
      }
    case _ =>
  }

  /** A thread asleep with something to use is covered by a thread that is neither idle nor asleep. */
  lemma SleepersHaveNothing(q: State, t: int)
    requires Inv(q) && 0 <= t < |q.threads| && q.threads[t].stage == Asleep
    requires forall u | 0 <= u < |q.threads| :: q.threads[u].stage == Idle || q.threads[u].stage == Asleep
    ensures Room(q, q.threads[t].role) == 0
  {
    var r := q.threads[t].role;
    CountPositive(q.threads, t, Sleeping(r));
    if Count(q.threads, Unsignalled(Other(r))) > 0 {
      var u := CountWitness(q.threads, Unsignalled(Other(r)));
    }
    if Count(q.threads, Woken(r)) > 0 {
      var u := CountWitness(q.threads, Woken(r));
    }
    assert NoLostWakeup(q, r);
  }

  /** In every reachable state some thread can make progress, unless all that is left is enqueuers waiting on a full
      queue or dequeuers waiting on an empty one; both kinds wait only on a queue without places. */
  lemma DeadlockFreeIff(q: State, events: seq<Event>)
    requires Initial(q) && IsRun(q, events)
    ensures var a := After(q, events);
            (exists t, c :: Progress(a, t, c)) <==> !OnlyWaiting(a)
    ensures var a := After(q, events);
            forall t, u | Waits(a, t, Push) && Waits(a, u, Pop) :: Capacity(a.ring) == 0
  {
    InitialInv(q);
    RunKeepsInv(q, events);
    var a := After(q, events);
    if t :| 0 <= t < |a.threads| && a.threads[t].stage != Idle && a.threads[t].stage != Asleep {
      var u, c := SomeoneCanStep(a, t);
      assert Progress(a, u, c);
    } else {
      forall t | 0 <= t < |a.threads| && a.threads[t].stage == Asleep
        ensures Room(a, a.threads[t].role) == 0
      {
        SleepersHaveNothing(a, t);
      }
    }
  }

  /** The counters, in every reachable state. */
  lemma CountersBalance(q: State, events: seq<Event>)
    requires Initial(q) && IsRun(q, events)
    ensures var a := After(q, events);
            0 <= a.ring.size <= Capacity(a.ring) &&
            (Capacity(a.ring) > 0 ==>
               a.ring.head == |a.written| % Capacity(a.ring) && a.ring.tail == |a.taken| % Capacity(a.ring)) &&
            |a.written| - |a.taken|
            == a.ring.size - Count(a.threads, Unmoved(Push)) + Count(a.threads, Unmoved(Pop))
  {
    InitialInv(q);
    RunKeepsInv(q, events);
  }

  /** No wake-up is lost, in any interleaving: while a dequeuer sleeps, every element is covered by an enqueuer that
      has yet to signal or a woken dequeuer that has yet to look; and the same for enqueuers and free places. */
  lemma WakeupsAreNotLost(q: State, events: seq<Event>)
    requires Initial(q) && IsRun(q, events)
    ensures var a := After(q, events);
            (Count(a.threads, Sleeping(Pop)) > 0 ==>
               a.ring.size <= Count(a.threads, Unsignalled(Push)) + Count(a.threads, Woken(Pop))) &&
            (Count(a.threads, Sleeping(Push)) > 0 ==>
               Capacity(a.ring) - a.ring.size <= Count(a.threads, Unsignalled(Pop)) + Count(a.threads, Woken(Push)))
  {
    hide CellsOk, LocksOk, IsRun, After, Balanced, Initial;
    InitialInv(q);
    RunKeepsInv(q, events);
    assert NoLostWakeup(After(q, events), Push) && NoLostWakeup(After(q, events), Pop);
  }

  // ---------------------------------------------------------------- no call is lost

  /** A thread falls asleep exactly when it is at the loop test and has nothing to use. It leaves the size lock free, is
      still in its call with its element, and stores and takes nothing. */
  lemma SleepsIff(q: State, t: int, c: Choice)
    requires CanStep(q, t, c)
    ensures var q' := StepTo(q, t, c);
            |q'.threads| == |q.threads| > t >= 0 &&
            (q'.threads[t].stage == Asleep <==> q.threads[t].stage.Test? && Room(q, q.threads[t].role) == 0) &&
            (q'.threads[t].stage == Asleep ==>
               Sleeper(q', t, q.threads[t].role) && q'.threads[t].elem == q.threads[t].elem && q'.sizeLock == Free
               && q'.ring == q.ring && q'.written == q.written && q'.taken == q.taken)
  {
    hide Put, Take, Reserve, Release;
  }

  /** Any sleeping thread may wake up, for whatever reason, and then goes for the size lock again. */
  lemma SpuriousWakeups(q: State, t: int)
    requires RingOk(q.ring) && 0 <= t < |q.threads| && q.threads[t].stage == Asleep
    ensures CanStep(q, t, Spurious) && StepTo(q, t, Spurious) == At(q, t, Relock)
    ensures var q' := StepTo(q, t, Spurious);
            q.sizeLock == Free ==>
              CanStep(q', t, Go) && StepTo(q', t, Go) == At(q', t, Test(true)).(sizeLock := Held(t))
  {
  }

  /** How many calls of role `r` are made in a run. */
  function Calls(events: seq<Event>, r: Role): nat {
    if events == [] then 0 else One(events[0].c.Call? && events[0].c.role == r) + Calls(events[1..], r)
  }

  /** How many calls of role `r` have done their part: elements stored, or read. */
  function Through(q: State, r: Role): nat { if r == Push then |q.written| else |q.taken| }

  lemma StepConservesCalls(q: State, t: int, c: Choice, r: Role)
    requires CanStep(q, t, c)
    ensures var q' := StepTo(q, t, c);
            Through(q', r) + Count(q'.threads, Unfinished(r))
            == Through(q, r) + Count(q.threads, Unfinished(r)) + One(c.Call? && c.role == r)
  {
    hide Count, StepTo, CanStep;
    StepSections(q, t, c);
    StepUnfinished(q, t, c, r);
  }

  lemma {:induction false} RunConservesCalls(q: State, events: seq<Event>, r: Role)
    requires IsRun(q, events)
    ensures var a := After(q, events);
            Through(a, r) + Count(a.threads, Unfinished(r))
            == Through(q, r) + Count(q.threads, Unfinished(r)) + Calls(events, r)
    decreases |events|
  {
    hide CanStep, StepTo, Through, Count;
    if events != [] {
      StepConservesCalls(q, events[0].t, events[0].c, r);
      RunConservesCalls(StepTo(q, events[0].t, events[0].c), events[1..], r);
    }
  }

  /** The element of an enqueue that has yet to be stored. */
  function Carries(th: Thread): multiset<Elem> {
    if In(th, Unfinished(Push)) then multiset{th.elem} else multiset{}
  }

  function Carried(ths: seq<Thread>): multiset<Elem> {
    if ths == [] then multiset{} else Carried(ths[..|ths| - 1]) + Carries(ths[|ths| - 1])
  }

  lemma SwapLast(a: multiset<Elem>, b: multiset<Elem>, c: multiset<Elem>)
    ensures a + b + c == a + c + b
  {
  }

  lemma {:induction false} CarriedSet(ths: seq<Thread>, t: nat, th: Thread)
    requires t < |ths|
    ensures Carried(ths[t := th]) + Carries(ths[t]) == Carried(ths) + Carries(th)
  {
    hide Carries;
    var last := |ths| - 1;
    var after := ths[t := th];
    if t == last {
      assert after[..last] == ths[..last];
      SwapLast(Carried(ths[..last]), Carries(th), Carries(ths[last]));
    } else {
      assert after[..last] == ths[..last][t := th];
      CarriedSet(ths[..last], t, th);
      SwapLast(Carried(after[..last]), Carries(ths[last]), Carries(ths[t]));
      SwapLast(Carried(ths[..last]), Carries(ths[last]), Carries(th));
    }
  }

  /** The elements that a run's enqueues are called with. */
  function Offered(events: seq<Event>): multiset<Elem> {
    if events == [] then multiset{}
    else Offer(events[0].c) + Offered(events[1..])
  }

  function Offer(c: Choice): multiset<Elem> {
    if c.Call? && c.role == Push then multiset{c.elem} else multiset{}
  }

  /** A thread's own step keeps its role and element, except that a call brings new ones. */
  lemma OwnElement(q: State, t: int, c: Choice)
    requires CanStep(q, t, c)
    ensures 0 <= t < |StepTo(q, t, c).threads| == |q.threads|
    ensures var (th, th') := (q.threads[t], StepTo(q, t, c).threads[t]);
            if c.Call? then th'.elem == c.elem && th'.role == c.role
            else th'.elem == th.elem && th'.role == th.role && th.stage != Idle
  {
    hide Put, Take, Reserve, Release, Room, RingOk, EndLock;
  }

  /** A step changes no other thread, except that it may wake one. */
  lemma OthersElements(q: State, t: int, c: Choice, u: int)
    requires CanStep(q, t, c) && 0 <= u < |q.threads| && u != t
    ensures |StepTo(q, t, c).threads| == |q.threads|
    ensures var (th, th') := (q.threads[u], StepTo(q, t, c).threads[u]);
            th' == th || (th' == th.(stage := Relock) && th.stage == Asleep)
  {
    hide Put, Take, Reserve, Release, Room, RingOk, EndLock;
  }

  /** A head section writes the element of its thread. */
  lemma QueueWrites(q: State, t: int, c: Choice)
    requires CanStep(q, t, c)
    ensures StepTo(q, t, c).written == if AtSection(q, t, Push) then q.written + [q.threads[t].elem] else q.written
  {
    hide Put, Take, Reserve, Release, Room, RingOk, EndLock;
  }

  /** The threads after a step: the stepping one, and one that it may wake. */
  lemma StepThreads(q: State, t: int, c: Choice)
    requires CanStep(q, t, c)
    ensures var ths := StepTo(q, t, c).threads;
            0 <= t < |q.threads| == |ths| &&
            if c.Wakes? then
              (0 <= c.u < |q.threads| && c.u != t && q.threads[c.u].stage == Asleep
               && ths == q.threads[t := ths[t]][c.u := q.threads[c.u].(stage := Relock)])
            else ths == q.threads[t := ths[t]]
  {
    hide Put, Take, Reserve, Release, Room, RingOk, EndLock;
  }

  /** An enqueue is called, or its element stored, or it stays as far as it is. */
  lemma OwnUnfinished(q: State, t: int, c: Choice)
    requires CanStep(q, t, c)
    ensures var (th, th') := (q.threads[t], StepTo(q, t, c).threads[t]);
            (In(th', Unfinished(Push)) <==>
               if c.Call? then c.role == Push else In(th, Unfinished(Push)) && !AtSection(q, t, Push)) &&
            (c.Call? ==> !In(th, Unfinished(Push)) && !AtSection(q, t, Push)) &&
            (AtSection(q, t, Push) ==> In(th, Unfinished(Push)))
  {
    hide Put, Take, Reserve, Release, Room, RingOk, EndLock;
  }

  /** What the stepping thread carries passes to what is stored, and a call brings its element. */
  lemma OwnCarry(q: State, t: int, c: Choice)
    requires CanStep(q, t, c)
    ensures var q' := StepTo(q, t, c);
            0 <= t < |q.threads| == |q'.threads| &&
            multiset(q'.written) + Carries(q'.threads[t])
            == multiset(q.written) + Carries(q.threads[t]) + Offer(c)
  {
    hide CanStep, StepTo, In, AtSection;
    OwnElement(q, t, c);
    OwnUnfinished(q, t, c);
    QueueWrites(q, t, c);
  }

  lemma StepCarries(q: State, t: int, c: Choice)
    requires CanStep(q, t, c)
    ensures var q' := StepTo(q, t, c);
            0 <= t < |q.threads| == |q'.threads| &&
            Carried(q'.threads) + Carries(q.threads[t]) == Carried(q.threads) + Carries(q'.threads[t])
  {
    hide CanStep, StepTo, Carried;
    StepThreads(q, t, c);
    var ths := StepTo(q, t, c).threads;
    CarriedSet(q.threads, t, ths[t]);
    if c.Wakes? {
      WakingCarriesOn(q.threads[t := ths[t]], c.u);
    }
  }

  lemma WakingCarriesOn(ths: seq<Thread>, u: nat)
    requires u < |ths| && ths[u].stage == Asleep
    ensures Carried(ths[u := ths[u].(stage := Relock)]) == Carried(ths)
  {
    hide Carried;
    var th := ths[u].(stage := Relock);
    CarriedSet(ths, u, th);
    Cancel(Carried(ths[u := th]), Carried(ths), Carries(th));
  }

  lemma Cancel(a: multiset<Elem>, b: multiset<Elem>, c: multiset<Elem>)
    requires a + c == b + c
    ensures a == b
  {
    forall e
      ensures a[e] == b[e]
    {
      assert (a + c)[e] == (b + c)[e];
    }
  }

  lemma Exchange(w: multiset<Elem>, w': multiset<Elem>, k: multiset<Elem>, k': multiset<Elem>,
                 x: multiset<Elem>, x': multiset<Elem>, o: multiset<Elem>)
    requires w' + x' == w + x + o && k' + x == k + x'
    ensures w' + k' == w + k + o
  {
    forall e
      ensures (w' + k')[e] == (w + k + o)[e]
    {
      assert (w' + x')[e] == (w + x + o)[e] && (k' + x)[e] == (k + x')[e];
    }
  }

  lemma StepConservesElements(q: State, t: int, c: Choice)
    requires CanStep(q, t, c)
    ensures var q' := StepTo(q, t, c);
            multiset(q'.written) + Carried(q'.threads) == multiset(q.written) + Carried(q.threads) + Offer(c)
  {
    hide CanStep, StepTo, Carried, Carries, Offer;
    OwnCarry(q, t, c);
    StepCarries(q, t, c);
    var q' := StepTo(q, t, c);
    Exchange(multiset(q.written), multiset(q'.written), Carried(q.threads), Carried(q'.threads),
             Carries(q.threads[t]), Carries(q'.threads[t]), Offer(c));
  }

  lemma {:induction false} RunConservesElements(q: State, events: seq<Event>)
    requires IsRun(q, events)
    ensures var a := After(q, events);
            multiset(a.written) + Carried(a.threads) == multiset(q.written) + Carried(q.threads) + Offered(events)
    decreases |events|
  {
    hide CanStep, StepTo, Carried, Offer;
    if events != [] {
      StepConservesElements(q, events[0].t, events[0].c);
      RunConservesElements(StepTo(q, events[0].t, events[0].c), events[1..]);
    }
  }

  lemma {:induction false} NothingCarried(ths: seq<Thread>)
    requires forall t | 0 <= t < |ths| :: ths[t].stage == Idle
    ensures Carried(ths) == multiset{}
  {
    if ths != [] {
      NothingCarried(ths[..|ths| - 1]);
    }
  }

  /** No call gives up, in any interleaving. Each enqueue made so far has stored its element or is still at it with the
      element in hand, none twice; each dequeue made so far has read a slot or is still at it. So a call that is over
      has done its part, whether or not it had to wait. */
  lemma CallsAreConserved(q: State, events: seq<Event>)
    requires Initial(q) && IsRun(q, events)
    ensures var a := After(q, events);
            Calls(events, Push) == |a.written| + Count(a.threads, Unfinished(Push)) &&
            Calls(events, Pop) == |a.taken| + Count(a.threads, Unfinished(Pop)) &&
            Offered(events) == multiset(a.written) + Carried(a.threads)
  {
    hide IsRun, After, Calls, Offered;
    RunConservesCalls(q, events, Push);
    RunConservesCalls(q, events, Pop);
    RunConservesElements(q, events);
    NobodyIn(q.threads, Unfinished(Push));
    NobodyIn(q.threads, Unfinished(Pop));
    NothingCarried(q.threads);
    assert multiset(q.written) + Carried(q.threads) + Offered(events) == Offered(events);
  }

  // ---------------------------------------------------------------- first in, first out

  lemma {:induction false} LastIndexSpec(h: nat, c: nat, i: nat)
    requires c > 0
    ensures LastIndex(h, c, i) >= 0 ==> LastIndex(h, c, i) % c == i
    ensures forall m | LastIndex(h, c, i) < m < h :: m % c != i
  {
    if h > 0 && (h - 1) % c != i {
      LastIndexSpec(h - 1, c, i);
    }
  }

  /** With `h` writes done, the slot of index `k` holds the `k`-th write exactly when that write is done and has not
      been overwritten. */
  lemma HoldsOwnIff(h: nat, c: nat, k: nat)
    requires c > 0
    ensures LastIndex(h, c, k % c) == k <==> k < h <= k + c
  {
    var l := LastIndex(h, c, k % c);
    LastIndexSpec(h, c, k % c);
    if k < h <= k + c {
      if k < l {
        ModDiffer(k, l, c);
      }
    } else if k + c < h {
      ModAdd(k, c, c);
      ModPlusSelf(k, c);
      assert (k + c) % c == k % c;
    }
  }

  lemma ModPlusSelf(x: nat, c: nat)
    requires c > 0
    ensures (x + c) % c == x % c
  {
    assert x == c * (x / c) + x % c;
    Distribute(c, x / c, 1);
    ModUnique(x + c, c, x / c + 1, x % c);
  }

  lemma TailSection(a: State, t: int)
    requires Inv(a) && AtSection(a, t, Pop)
    ensures Capacity(a.ring) > 0 && CanStep(a, t, Go)
    ensures StepTo(a, t, Go).taken == a.taken + [CellFor(a.written, Capacity(a.ring), |a.taken| % Capacity(a.ring))]
  {
  }

  /** In every reachable state, the tail section that comes `k`-th reads the element of the latest head section that
      used its slot. That is the `k`-th element written exactly when the `k`-th head section is done and the next one
      on the same slot is not. */
  lemma TailSectionReads(q: State, events: seq<Event>, t: int)
    requires Initial(q) && IsRun(q, events) && AtSection(After(q, events), t, Pop)
    ensures var a := After(q, events);
            var (h, k, c) := (|a.written|, |a.taken|, Capacity(a.ring));
            c > 0 && CanStep(a, t, Go) &&
            (var l := LastIndex(h, c, k % c);
             StepTo(a, t, Go).taken == a.taken + [if l < 0 then Garbage else Stored(a.written[l])] &&
             (l == k <==> k < h <= k + c))
  {
    hide Inv, Initial, IsRun, CanStep, StepTo, AtSection, LastIndex;
    InitialInv(q);
    RunKeepsInv(q, events);
    var a := After(q, events);
    TailSection(a, t);
    HoldsOwnIff(|a.written|, Capacity(a.ring), |a.taken|);
  }

  /** A head or tail section starts only when its slot is ready: written and not yet read, or read and free again. */
  predicate Ready(q: State, t: int) {
    (AtSection(q, t, Pop) ==> |q.taken| < |q.written|) &&
    (AtSection(q, t, Push) ==> |q.written| < |q.taken| + Capacity(q.ring))
  }

  predicate ReadyRun(q: State, events: seq<Event>)
    decreases |events|
  {
    events == [] ||
    (CanStep(q, events[0].t, events[0].c) && Ready(q, events[0].t) &&
     ReadyRun(StepTo(q, events[0].t, events[0].c), events[1..]))
  }

  /** What has been read is exactly what was written first, in order, and the rest fits the ring. */
  predicate Fifo(q: State) {
    |q.taken| <= |q.written| <= |q.taken| + Capacity(q.ring) &&
    forall j | 0 <= j < |q.taken| :: q.taken[j] == Stored(q.written[j])
  }

  lemma StepKeepsFifo(q: State, t: int, c: Choice)
    requires Inv(q) && Fifo(q) && CanStep(q, t, c) && Ready(q, t)
    ensures Fifo(StepTo(q, t, c)) && Capacity(StepTo(q, t, c).ring) == Capacity(q.ring)
  {
    if AtSection(q, t, Pop) {
      HoldsOwnIff(|q.written|, Capacity(q.ring), |q.taken|);
    }
  }

  /** In every interleaving whose sections find their slots ready, the queue is first-in first-out, across any number
      of turns of the ring. */
  lemma {:induction false} ReadyRunsAreFifo(q: State, events: seq<Event>)
    requires Inv(q) && Fifo(q) && ReadyRun(q, events)
    ensures IsRun(q, events) && Inv(After(q, events)) && Fifo(After(q, events))
    decreases |events|
  {
    hide Inv, Fifo, Ready, CanStep, StepTo;
    if events != [] {
      StepKeepsInv(q, events[0].t, events[0].c);
      StepKeepsFifo(q, events[0].t, events[0].c);
      ReadyRunsAreFifo(StepTo(q, events[0].t, events[0].c), events[1..]);
    }
  }

  /** Whether a slot is ready, in terms of the size and of how many calls are between their two sections: at a tail
      section the places reserved and not yet written are fewer than the elements there and those released and not yet
      read; at a head section the same with free places for elements. */
  lemma ReadyIff(q: State, t: int)
    requires Inv(q)
    ensures var (pushing, popping) := (Count(q.threads, Unmoved(Push)), Count(q.threads, Unmoved(Pop)));
            (AtSection(q, t, Pop) ==> (Ready(q, t) <==> pushing < q.ring.size + popping)) &&
            (AtSection(q, t, Push) ==> (Ready(q, t) <==> popping < Capacity(q.ring) - q.ring.size + pushing))
  {
    hide LocksOk, NoLostWakeup, CellsOk, PlacesExist, Count;
  }

  /** A call between its two sections, all of whose kind find their slots ready, lets one of its kind go on. */
  lemma UnmovedGoesOn(q: State, r: Role) returns (u: int)
    requires Inv(q) && Count(q.threads, Unmoved(r)) > 0
    requires forall t | AtSection(q, t, r) :: Ready(q, t)
    ensures Progress(q, u, Go) && Ready(q, u)
  {
    hide SizeLockOk, NoLostWakeup, CellsOk, Count;
    u := CountWitness(q.threads, Unmoved(r));
    if q.threads[u].stage == WantEnd && EndLock(q, r).Held? {
      u := EndLock(q, r).t;
    }
  }

  /** Waiting for slots to be ready never blocks the queue: whenever a thread inside is not asleep, some thread can make
      progress with its slot ready. */
  lemma ReadyProgress(q: State, t: int) returns (u: int, c: Choice)
    requires Inv(q) && 0 <= t < |q.threads| && q.threads[t].stage != Idle && q.threads[t].stage != Asleep
    ensures Progress(q, u, c) && Ready(q, u)
  {
    hide LocksOk, NoLostWakeup, CellsOk, Count, CanStep, Balanced;
    u, c := SomeoneCanStep(q, t);
    if !Ready(q, u) {
      ReadyIff(q, u);
      SectionHasPlaces(q, u);
      CountPositive(q.threads, u, Unmoved(q.threads[u].role));
      c := Go;
      u := UnmovedGoesOn(q, if AtSection(q, u, Pop) then Push else Pop);
    }
  }

  lemma SectionHasPlaces(q: State, u: int)
    requires Inv(q) && (AtSection(q, u, Pop) || AtSection(q, u, Push))
    ensures Capacity(q.ring) > 0 && 0 <= q.ring.size <= Capacity(q.ring) && In(q.threads[u], Unmoved(q.threads[u].role))
  {
  }

  /** No enqueue and dequeue are between their two sections at the same time. */
  predicate OneSided(q: State) {
    Count(q.threads, Unmoved(Push)) == 0 || Count(q.threads, Unmoved(Pop)) == 0
  }

  predicate OneSidedRun(q: State, events: seq<Event>)
    decreases |events|
  {
    events == [] ||
    (CanStep(q, events[0].t, events[0].c) && OneSided(q) &&
     OneSidedRun(StepTo(q, events[0].t, events[0].c), events[1..]))
  }

  lemma OneSidedIsReady(q: State, t: int)
    requires Inv(q) && OneSided(q)
    ensures Ready(q, t)
  {
    hide LocksOk, NoLostWakeup, CellsOk, PlacesExist, Count;
    ReadyIff(q, t);
    if AtSection(q, t, Push) {
      CountPositive(q.threads, t, Unmoved(Push));
    }
    if AtSection(q, t, Pop) {
      CountPositive(q.threads, t, Unmoved(Pop));
    }
  }

  lemma {:induction false} OneSidedRunsAreReady(q: State, events: seq<Event>)
    requires Inv(q) && OneSidedRun(q, events)
    ensures ReadyRun(q, events)
    decreases |events|
  {
    hide Inv, OneSided, Ready, CanStep, StepTo;
    if events != [] {
      OneSidedIsReady(q, events[0].t);
      StepKeepsInv(q, events[0].t, events[0].c);
      OneSidedRunsAreReady(StepTo(q, events[0].t, events[0].c), events[1..]);
    }
  }

  /** Enqueues may overlap enqueues and dequeues dequeues, in any way: as long as no enqueue and dequeue are between
      their two sections at the same time, the queue is first-in first-out. */
  lemma OneSidedRunsAreFifo(q: State, events: seq<Event>)
    requires Initial(q) && OneSidedRun(q, events)
    ensures IsRun(q, events)
    ensures var a := After(q, events);
            |a.taken| <= |a.written| <= |a.taken| + Capacity(a.ring) &&
            forall j | 0 <= j < |a.taken| :: a.taken[j] == Stored(a.written[j])
  {
    hide Inv, OneSidedRun, ReadyRun, IsRun, After;
    InitialInv(q);
    OneSidedRunsAreReady(q, events);
    ReadyRunsAreFifo(q, events);
  }

  // ---------------------------------------------------------------- calls made one at a time

  lemma FirstStep(q: State, e: Event, rest: seq<Event>)
    requires CanStep(q, e.t, e.c) && IsRun(StepTo(q, e.t, e.c), rest)
    ensures IsRun(q, [e] + rest) && After(q, [e] + rest) == After(StepTo(q, e.t, e.c), rest)
    ensures Ready(q, e.t) && ReadyRun(StepTo(q, e.t, e.c), rest) ==> ReadyRun(q, [e] + rest)
  {
  }

  lemma {:induction false} JoinRuns(q: State, first: seq<Event>, rest: seq<Event>)
    requires ReadyRun(q, first) && IsRun(q, first) && ReadyRun(After(q, first), rest) && IsRun(After(q, first), rest)
    ensures ReadyRun(q, first + rest) && IsRun(q, first + rest)
    ensures After(q, first + rest) == After(After(q, first), rest)
    decreases |first|
  {
    hide CanStep, StepTo, Ready;
    if first == [] {
      assert first + rest == rest;
    } else {
      JoinRuns(StepTo(q, first[0].t, first[0].c), first[1..], rest);
      assert (first + rest)[1..] == first[1..] + rest;
    }
  }

  lemma FourSteps(q: State, q1: State, q2: State, q3: State, a: Event, b: Event, c: Event, d: Event)
    requires CanStep(q, a.t, a.c) && q1 == StepTo(q, a.t, a.c) && CanStep(q1, b.t, b.c) && q2 == StepTo(q1, b.t, b.c)
    requires CanStep(q2, c.t, c.c) && q3 == StepTo(q2, c.t, c.c) && CanStep(q3, d.t, d.c)
    ensures IsRun(q, [a, b, c, d]) && After(q, [a, b, c, d]) == StepTo(q3, d.t, d.c)
    ensures Ready(q, a.t) && Ready(q1, b.t) && Ready(q2, c.t) && Ready(q3, d.t) ==> ReadyRun(q, [a, b, c, d])
  {
    hide CanStep, StepTo, Ready;
    FirstStep(q3, d, []);
    FirstStep(q2, c, [d]);
    FirstStep(q1, b, [c, d]);
    FirstStep(q, a, [b, c, d]);
  }

  /** The steps from being called to having changed the size and released the size lock. */
  function FirstHalf(t: int, r: Role, e: Elem): seq<Event> {
    [Event(t, Call(r, e)), Event(t, Go), Event(t, Go), Event(t, Go)]
  }

  /** The steps from there to the end of the call, when nobody needs waking. */
  function SecondHalf(t: int): seq<Event> {
    [Event(t, Go), Event(t, Go), Event(t, Go), Event(t, WakesNobody)]
  }

  /** A whole call by thread `t`, nobody else moving. */
  function WholeCall(t: int, r: Role, e: Elem): seq<Event> { FirstHalf(t, r, e) + SecondHalf(t) }

  predicate AllLocksFree(q: State) { q.sizeLock == q.headLock == q.tailLock == Free }

  /** Calling, and taking the size lock. */
  lemma FirstSteps(q: State, q1: State, q2: State, t: int, r: Role, e: Elem)
    requires RingOk(q.ring) && 0 <= t < |q.threads| && q.threads[t].stage == Idle && q.sizeLock == Free
    requires q1 == q.(threads := q.threads[t := Thread(r, Want, e)])
    requires q2 == q1.(threads := q1.threads[t := Thread(r, Test(false), e)], sizeLock := Held(t))
    ensures CanStep(q, t, Call(r, e)) && StepTo(q, t, Call(r, e)) == q1 && Ready(q, t)
    ensures CanStep(q1, t, Go) && StepTo(q1, t, Go) == q2 && Ready(q1, t)
  {
  }

  /** Changing the size, and releasing the lock. */
  lemma CountSteps(q: State, q': State, t: int, r: Role, e: Elem)
    requires RingOk(q.ring) && 0 <= t < |q.threads| && q.threads[t] == Thread(r, Test(false), e) && Room(q, r) > 0
    requires q' == q.(threads := q.threads[t := Thread(r, Counted, e)],
                      ring := if r == Push then Reserve(q.ring) else Release(q.ring))
    ensures CanStep(q, t, Go) && StepTo(q, t, Go) == q' && Ready(q, t)
    ensures CanStep(q', t, Go) && Ready(q', t)
    ensures StepTo(q', t, Go) == q'.(threads := q'.threads[t := Thread(r, WantEnd, e)], sizeLock := Free)
  {
  }

  lemma FirstHalfRuns(q: State, t: int, r: Role, e: Elem)
    requires RingOk(q.ring) && 0 <= t < |q.threads| && q.threads[t].stage == Idle && AllLocksFree(q) && Room(q, r) > 0
    ensures IsRun(q, FirstHalf(t, r, e)) && ReadyRun(q, FirstHalf(t, r, e))
    ensures After(q, FirstHalf(t, r, e))
         == q.(threads := q.threads[t := Thread(r, WantEnd, e)],
               ring := if r == Push then Reserve(q.ring) else Release(q.ring))
  {
    hide IsRun, ReadyRun, After;
    var (a, b, c) := (Thread(r, Want, e), Thread(r, Test(false), e), Thread(r, Counted, e));
    var q1 := q.(threads := q.threads[t := a]);
    var q2 := q1.(threads := q1.threads[t := b], sizeLock := Held(t));
    var q3 := q2.(threads := q2.threads[t := c], ring := if r == Push then Reserve(q.ring) else Release(q.ring));
    FirstSteps(q, q1, q2, t, r, e);
    CountSteps(q2, q3, t, r, e);
    FourSteps(q, q1, q2, q3, Event(t, Call(r, e)), Event(t, Go), Event(t, Go), Event(t, Go));
    assert q3.threads[t := Thread(r, WantEnd, e)] == q.threads[t := Thread(r, WantEnd, e)];
  }

  lemma SecondHalfRuns(q: State, t: int, r: Role, e: Elem)
    requires RingOk(q.ring) && 0 <= t < |q.threads| && q.threads[t] == Thread(r, WantEnd, e) && AllLocksFree(q)
    requires Capacity(q.ring) > 0 && forall u | 0 <= u < |q.threads| :: q.threads[u].stage != Asleep
    requires if r == Pop then |q.taken| < |q.written| else |q.written| < |q.taken| + Capacity(q.ring)
    ensures IsRun(q, SecondHalf(t)) && ReadyRun(q, SecondHalf(t))
    ensures After(q, SecondHalf(t)) ==
            (var p := q.(threads := q.threads[t := Thread(r, Idle, e)]);
             if r == Push then p.(ring := Put(q.ring, e), written := q.written + [e])
             else p.(ring := Take(q.ring).0, taken := q.taken + [Take(q.ring).1]))
  {
    hide Reserve, Release, Room, IsRun, ReadyRun, After;
    var q1 := StepTo(q, t, Go);
    var q2 := StepTo(q1, t, Go);
    var q3 := StepTo(q2, t, Go);
    FourSteps(q, q1, q2, q3, Event(t, Go), Event(t, Go), Event(t, Go), Event(t, WakesNobody));
  }

  /** Nobody is inside the queue's functions, and the ring holds what was written and not yet taken. */
  ghost predicate Quiet(q: State) {
    Inv(q) && Fifo(q) && (forall t | 0 <= t < |q.threads| :: q.threads[t].stage == Idle) &&
    Holds(q.ring, q.written[|q.taken|..])
  }

  lemma QuietLocks(q: State)
    requires Quiet(q)
    ensures AllLocksFree(q) && RingOk(q.ring) && q.ring.size == |q.written| - |q.taken|
  {
  }

  /** A call made while nobody else is inside finds its slot ready; the ring behaves as a bounded sequence. */
  lemma WholeCallRuns(q: State, t: int, r: Role, e: Elem)
    requires Quiet(q) && 0 <= t < |q.threads| && Room(q, r) > 0
    ensures IsRun(q, WholeCall(t, r, e)) && ReadyRun(q, WholeCall(t, r, e))
    ensures var a := After(q, WholeCall(t, r, e));
            Quiet(a) && Capacity(a.ring) == Capacity(q.ring) && |a.threads| == |q.threads| &&
            (if r == Push then a.written == q.written + [e] && a.taken == q.taken
             else a.written == q.written && a.taken == q.taken + [Stored(q.written[|q.taken|])])
  {
    hide Inv, Fifo, IsRun, ReadyRun, After, Holds, FirstHalf, SecondHalf;
    QuietLocks(q);
    FirstHalfRuns(q, t, r, e);
    var mid := After(q, FirstHalf(t, r, e));
    SecondHalfRuns(mid, t, r, e);
    JoinRuns(q, FirstHalf(t, r, e), SecondHalf(t));
    ReadyRunsAreFifo(q, WholeCall(t, r, e));
    var s := q.written[|q.taken|..];
    if r == Push {
      EnqueueAppends(q.ring, s, e);
      assert (q.written + [e])[|q.taken|..] == s + [e];
    } else {
      DequeueRemovesOldest(q.ring, s);
      assert q.written[|q.taken| + 1..] == s[1..];
    }
  }

  lemma InitialQuiet(q: State)
    requires Initial(q)
    ensures Quiet(q)
  {
    InitialInv(q);
    if Capacity(q.ring) > 0 {
      ModUnique(0, Capacity(q.ring), 0, 0);
    }
  }

  datatype Whole = Whole(t: int, r: Role, e: Elem)

  /** A bounded sequence: enqueue at the end while there is room, dequeue from the front while there is something. */
  predicate CanDo(s: seq<Elem>, capacity: nat, r: Role) { if r == Push then |s| < capacity else s != [] }

  function Do(s: seq<Elem>, w: Whole): seq<Elem>
    requires w.r == Pop ==> s != []
  {
    if w.r == Push then s + [w.e] else s[1..]
  }

  predicate CanDoAll(s: seq<Elem>, capacity: nat, threads: nat, calls: seq<Whole>)
    decreases |calls|
  {
    calls == [] ||
    (0 <= calls[0].t < threads && CanDo(s, capacity, calls[0].r) &&
     CanDoAll(Do(s, calls[0]), capacity, threads, calls[1..]))
  }

  function DoAll(s: seq<Elem>, capacity: nat, threads: nat, calls: seq<Whole>): seq<Elem>
    requires CanDoAll(s, capacity, threads, calls)
    decreases |calls|
  {
    if calls == [] then s else DoAll(Do(s, calls[0]), capacity, threads, calls[1..])
  }

  /** What the dequeues among the calls return: the front of the sequence at that moment. */
  function Outputs(s: seq<Elem>, capacity: nat, threads: nat, calls: seq<Whole>): seq<Cell>
    requires CanDoAll(s, capacity, threads, calls)
    decreases |calls|
  {
    if calls == [] then []
    else (if calls[0].r == Pop then [Stored(s[0])] else []) + Outputs(Do(s, calls[0]), capacity, threads, calls[1..])
  }

  function StepsOf(calls: seq<Whole>): seq<Event> {
    if calls == [] then [] else WholeCall(calls[0].t, calls[0].r, calls[0].e) + StepsOf(calls[1..])
  }

  lemma OneCallRefines(q: State, w: Whole)
    requires Quiet(q) && 0 <= w.t < |q.threads| && CanDo(q.written[|q.taken|..], Capacity(q.ring), w.r)
    ensures IsRun(q, WholeCall(w.t, w.r, w.e)) && ReadyRun(q, WholeCall(w.t, w.r, w.e))
    ensures var a := After(q, WholeCall(w.t, w.r, w.e));
            var s := q.written[|q.taken|..];
            Quiet(a) && Capacity(a.ring) == Capacity(q.ring) && |a.threads| == |q.threads|
            && |a.taken| <= |a.written| && a.written[|a.taken|..] == Do(s, w)
            && a.taken == q.taken + if w.r == Pop then [Stored(s[0])] else []
  {
    hide Inv, IsRun, ReadyRun, After, WholeCall, Holds;
    QuietLocks(q);
    WholeCallRuns(q, w.t, w.r, w.e);
  }

  /** Every run of calls made one at a time, by any threads, finds its slots ready and refines a bounded sequence: the
      ring ends up holding what the sequence does, and the dequeues return what was at its front. */
  lemma {:induction false} OneAtATimeRefinesSequence(q: State, calls: seq<Whole>)
    requires Quiet(q) && CanDoAll(q.written[|q.taken|..], Capacity(q.ring), |q.threads|, calls)
    ensures IsRun(q, StepsOf(calls)) && ReadyRun(q, StepsOf(calls))
    ensures var a := After(q, StepsOf(calls));
            var s := q.written[|q.taken|..];
            Quiet(a) && Holds(a.ring, DoAll(s, Capacity(q.ring), |q.threads|, calls))
            && a.taken == q.taken + Outputs(s, Capacity(q.ring), |q.threads|, calls)
    decreases |calls|
  {
    hide Inv, Fifo, IsRun, ReadyRun, After, WholeCall, Holds, Do;
    if calls == [] {
      NoEvents(q);
    } else {
      var w := calls[0];
      QuietLocks(q);
      var s := q.written[|q.taken|..];
      OneCallRefines(q, w);
      var a := After(q, WholeCall(w.t, w.r, w.e));
      OneAtATimeRefinesSequence(a, calls[1..]);
      JoinRuns(q, WholeCall(w.t, w.r, w.e), StepsOf(calls[1..]));
      var out := if w.r == Pop then [Stored(s[0])] else [];
      var rest := Outputs(Do(s, w), Capacity(q.ring), |q.threads|, calls[1..]);
      assert q.taken + out + rest == q.taken + (out + rest);
    }
  }

  /** The same from `pcq_create` on, where the sequence is empty. */
  lemma FreshQueueRefinesSequence(q: State, calls: seq<Whole>)
    requires Initial(q) && CanDoAll([], Capacity(q.ring), |q.threads|, calls)
    ensures IsRun(q, StepsOf(calls)) && ReadyRun(q, StepsOf(calls))
    ensures var a := After(q, StepsOf(calls));
            Holds(a.ring, DoAll([], Capacity(q.ring), |q.threads|, calls))
            && a.taken == Outputs([], Capacity(q.ring), |q.threads|, calls)
  {
    hide IsRun, ReadyRun, After, Holds, Inv;
    InitialQuiet(q);
    assert q.written[|q.taken|..] == [];
    OneAtATimeRefinesSequence(q, calls);
  }

  lemma NoEvents(q: State)
    ensures IsRun(q, []) && ReadyRun(q, []) && After(q, []) == q
  {
  }

  // ---------------------------------------------------------------- a race

  /** An enqueuer stops after reserving its place; a dequeuer then goes through. */
  function Race(e: Elem): seq<Event> { FirstHalf(0, Push, e) + FirstHalf(1, Pop, []) + [Event(1, Go), Event(1, Go)] }

  /** A dequeuer about to read a slot that nobody has written returns what `malloc` left there. */
  lemma ReadsGarbage(q: State, t: int)
    requires RingOk(q.ring) && Capacity(q.ring) > 0 && q.ring.cells[q.ring.tail] == Garbage
    requires 0 <= t < |q.threads| && q.threads[t].role == Pop && q.threads[t].stage == WantEnd && q.tailLock == Free
    ensures IsRun(q, [Event(t, Go), Event(t, Go)])
    ensures var a := After(q, [Event(t, Go), Event(t, Go)]); a.written == q.written && a.taken == q.taken + [Garbage]
  {
    hide Reserve, Release, Put, Room;
    var q' := StepTo(q, t, Go);
    FirstStep(q', Event(t, Go), []);
    FirstStep(q, Event(t, Go), [Event(t, Go)]);
  }

  /** Without ready slots the queue is not first-in first-out: the dequeuer returns a slot nobody has written. */
  lemma RaceReadsGarbage(q: State, e: Elem)
    requires Initial(q) && Capacity(q.ring) > 0 && |q.threads| >= 2
    ensures IsRun(q, Race(e)) && After(q, Race(e)).written == [] && After(q, Race(e)).taken == [Garbage]
  {
    hide IsRun, After, CanStep, StepTo, FirstHalf;
    var (first, second, third) := (FirstHalf(0, Push, e), FirstHalf(1, Pop, []), [Event(1, Go), Event(1, Go)]);
    FirstHalfRuns(q, 0, Push, e);
    var q1 := After(q, first);
    FirstHalfRuns(q1, 1, Pop, []);
    ReadsGarbage(After(q1, second), 1);
    JoinAnyRuns(q1, second, third);
    JoinAnyRuns(q, first, second + third);
    assert Race(e) == first + (second + third);
  }

  lemma {:induction false} JoinAnyRuns(q: State, first: seq<Event>, rest: seq<Event>)
    requires IsRun(q, first) && IsRun(After(q, first), rest)
    ensures IsRun(q, first + rest) && After(q, first + rest) == After(After(q, first), rest)
    decreases |first|
  {
    hide CanStep, StepTo;
    if first == [] {
      assert first + rest == rest;
    } else {
      JoinAnyRuns(StepTo(q, first[0].t, first[0].c), first[1..], rest);
      assert (first + rest)[1..] == first[1..] + rest;
    }
  }
}
