/** All threads together, over the queue and the file system: every interleaving serves the requests atomically. */
module Threads {
  import opened Bytes
  import opened Bitmap
  import opened FsState
  import opened Operations
  import opened Refinement
  import opened Orphans
  import opened Ring
  import opened Queue
  import opened QueueTheorems
  import opened Requests
  import opened Workers

  /** `turns` and `replies` record the calls that workers have made on the file system, and what they answered. */
  datatype System = System(
    q: Queue.State, st: FsState.State, ws: seq<Phase>, turns: seq<Turn>, replies: seq<Reply>)

  /** A step inside the queue, or a worker's next call on the file system. */
  datatype Move = InQueue(t: int, c: Choice) | Serve(w: nat)

  /** `Failed` is a failed ALWAYS_ASSERT, an access outside the tables, or a message nobody wrote. */
  datatype Next = Failed | Running(s: System)

  ghost predicate IsMessage(m: Elem) { exists r :: ValidRequest(r) && m == Encode(r) }

  /** What the worker reads in a message. */
  function Decode(m: Elem): Request
    requires |m| == REQUEST_LENGTH && UpToNul(BoxField(m)) != []
  {
    Request(CodeField(m), UpToNul(PipeField(m)), UpToNul(BoxField(m))[1..])
  }

  lemma DecodeEncode(r: Request)
    requires ValidRequest(r)
    ensures UpToNul(BoxField(Encode(r))) != [] && Decode(Encode(r)) == r
  {
    hide Encode, UpToNul, CodeField, PipeField, BoxField;
    DecodesIff(r);
  }

  /** A thread enters the queue between requests, with a well-formed message if it enqueues, and its sections find
      their slots ready. A worker serves once `pcq_dequeue` has returned. */
  ghost predicate CanMove(s: System, move: Move) {
    |s.ws| == |s.q.threads| &&
    match move
    case InQueue(t, c) =>
      CanStep(s.q, t, c) && Ready(s.q, t) &&
      (c.Call? ==> s.ws[t] == Resting && (c.role == Push ==> IsMessage(c.elem)))
    case Serve(w) => w < |s.ws| && s.q.threads[w].stage == Idle && s.ws[w] != Resting
  }

  function Called(s: System, w: nat, turn: Turn, o: Outcome<(Phase, seq<Reply>)>): Next
    requires w < |s.ws|
  {
    if o.Fault? then Failed
    else Running(s.(st := o.st, ws := s.ws[w := o.ret.0], turns := s.turns + [turn], replies := s.replies + o.ret.1))
  }

  ghost function MoveTo(s: System, move: Move): Next
    requires CanMove(s, move)
  {
    match move
    case InQueue(t, c) =>
      var q := StepTo(s.q, t, c);
      if !AtSection(s.q, t, Pop) then Running(s.(q := q))
      else
        var cell := q.taken[|q.taken| - 1];
        if cell.Garbage? then Failed else Running(s.(q := q, ws := s.ws[t := Has(cell.elem)]))
    case Serve(w) =>
      match s.ws[w]
      case Closing(name, fd) => Called(s, w, Finish(w), Second(s.st, w, name, fd))
      case Has(m) =>
        if |m| != REQUEST_LENGTH || UpToNul(BoxField(m)) == [] then Failed
        else Called(s, w, Begin(w, Decode(m)), First(s.st, w, m))
      case Resting => Running(s)
  }

  ghost predicate CanMoveAll(s: System, moves: seq<Move>)
    decreases |moves|
  {
    moves == [] ||
    (CanMove(s, moves[0]) && (MoveTo(s, moves[0]).Running? ==> CanMoveAll(MoveTo(s, moves[0]).s, moves[1..])))
  }

  ghost function MoveAll(s: System, moves: seq<Move>): Next
    requires CanMoveAll(s, moves)
    decreases |moves|
  {
    if moves == [] then Running(s)
    else if MoveTo(s, moves[0]).Failed? then Failed
    else MoveAll(MoveTo(s, moves[0]).s, moves[1..])
  }

  /** The messages that threads have begun to enqueue. */
  function Dispatched(moves: seq<Move>): multiset<Elem> {
    if moves == [] then multiset{}
    else (if moves[0].InQueue? then Offer(moves[0].c) else multiset{}) + Dispatched(moves[1..])
  }

  // ---------------------------------------------------------------- the invariant

  /** A worker with a message or a handle is on its way out of the queue, or outside it. */
  predicate PhaseOk(th: Thread, phase: Phase) {
    phase == Resting || th.stage == Idle || (th.role == Pop && (th.stage == Moved || th.stage == Signal))
  }

  predicate PhasesOk(q: Queue.State, ws: seq<Phase>) {
    |ws| == |q.threads| && forall t | 0 <= t < |ws| :: PhaseOk(q.threads[t], ws[t])
  }

  /** Nothing but well-formed messages goes through the queue. */
  ghost predicate MessagesOk(q: Queue.State) {
    (forall t | 0 <= t < |q.threads| && q.threads[t].role == Push && q.threads[t].stage != Idle ::
       IsMessage(q.threads[t].elem)) &&
    (forall j | 0 <= j < |q.written| :: IsMessage(q.written[j]))
  }

  ghost predicate HeldOk(ws: seq<Phase>) {
    forall w | 0 <= w < |ws| && ws[w].Has? :: IsMessage(ws[w].message)
  }

  function InHand(phase: Phase): multiset<Elem> { if phase.Has? then multiset{phase.message} else multiset{} }

  /** The messages that workers have taken and not begun to serve. */
  function Pending(ws: seq<Phase>): multiset<Elem> {
    if ws == [] then multiset{} else Pending(ws[..|ws| - 1]) + InHand(ws[|ws| - 1])
  }

  lemma {:induction false} PendingSet(ws: seq<Phase>, w: nat, phase: Phase)
    requires w < |ws|
    ensures Pending(ws[w := phase]) + InHand(ws[w]) == Pending(ws) + InHand(phase)
  {
    hide InHand;
    var last := |ws| - 1;
    var after := ws[w := phase];
    if w == last {
      assert after[..last] == ws[..last];
      SwapLast(Pending(ws[..last]), InHand(phase), InHand(ws[last]));
    } else {
      assert after[..last] == ws[..last][w := phase];
      PendingSet(ws[..last], w, phase);
      SwapLast(Pending(after[..last]), InHand(ws[last]), InHand(ws[w]));
      SwapLast(Pending(ws[..last]), InHand(ws[last]), InHand(phase));
    }
  }

  lemma PendingTake(ws: seq<Phase>, w: nat, m: Elem)
    requires w < |ws| && !ws[w].Has?
    ensures Pending(ws[w := Has(m)]) == Pending(ws) + multiset{m}
  {
    hide Pending;
    PendingSet(ws, w, Has(m));
    assert Pending(ws[w := Has(m)]) + multiset{} == Pending(ws[w := Has(m)]);
  }

  lemma PendingDrop(ws: seq<Phase>, w: nat, phase: Phase)
    requires w < |ws| && !phase.Has?
    ensures Pending(ws[w := phase]) + InHand(ws[w]) == Pending(ws)
  {
    hide Pending;
    PendingSet(ws, w, phase);
    assert Pending(ws) + multiset{} == Pending(ws);
  }

  /** Every message taken from the queue is in some worker's hands, or its request has been begun, once. */
  ghost predicate Accounted(q: Queue.State, ws: seq<Phase>, turns: seq<Turn>) {
    |q.taken| <= |q.written| &&
    multiset(q.written[..|q.taken|]) == multiset(EncodeAll(Begun(turns))) + Pending(ws)
  }

  ghost predicate Served(s: System) {
    s.st.p.blockSize > 0 && Stands(s.st, s.ws, TakeTurns(s.st.p, s.turns).0) &&
    s.replies == TakeTurns(s.st.p, s.turns).1
  }

  ghost predicate SystemInv(s: System) {
    Queue.Inv(s.q) && Fifo(s.q) && PhasesOk(s.q, s.ws) && MessagesOk(s.q) && HeldOk(s.ws) &&
    Accounted(s.q, s.ws, s.turns) && Served(s)
  }

  // ---------------------------------------------------------------- steps inside the queue

  lemma QueueKeepsPhases(q: Queue.State, ws: seq<Phase>, t: int, c: Choice, phase: Phase)
    requires PhasesOk(q, ws) && CanStep(q, t, c) && (c.Call? ==> ws[t] == Resting)
    ensures PhasesOk(StepTo(q, t, c), if AtSection(q, t, Pop) then ws[t := phase] else ws)
    ensures AtSection(q, t, Pop) ==> ws[t] == Resting
  {
    hide Put, Take, Reserve, Release, Room, RingOk;
  }

  lemma QueueKeepsMessages(q: Queue.State, t: int, c: Choice)
    requires MessagesOk(q) && CanStep(q, t, c)
    requires c.Call? && c.role == Push ==> IsMessage(c.elem)
    ensures MessagesOk(StepTo(q, t, c))
  {
    hide IsMessage, StepTo, CanStep;
    QueueWrites(q, t, c);
    OwnElement(q, t, c);
    var after := StepTo(q, t, c).threads;
    forall u | 0 <= u < |after| && after[u].role == Push && after[u].stage != Idle
      ensures IsMessage(after[u].elem)
    {
      if u != t {
        OthersElements(q, t, c, u);
      }
    }
  }

  /** A tail section takes the next message written; no other step takes one. */
  lemma QueueTakes(q: Queue.State, t: int, c: Choice)
    requires Queue.Inv(q) && Fifo(q) && CanStep(q, t, c) && Ready(q, t)
    ensures var q' := StepTo(q, t, c);
            Fifo(q') && q.written <= q'.written && |q'.threads| == |q.threads| &&
            if AtSection(q, t, Pop)
            then (|q.taken| < |q.written| && q'.written == q.written
                  && q'.taken == q.taken + [Stored(q.written[|q.taken|])])
            else q'.taken == q.taken
  {
    StepKeepsFifo(q, t, c);
  }

  lemma QueueAccounts(q: Queue.State, q': Queue.State, ws: seq<Phase>, turns: seq<Turn>)
    requires Accounted(q, ws, turns) && q.written <= q'.written && q'.taken == q.taken
    ensures Accounted(q', ws, turns)
  {
    assert q'.written[..|q.taken|] == q.written[..|q.taken|];
  }

  lemma TakeAccounts(q: Queue.State, q': Queue.State, ws: seq<Phase>, turns: seq<Turn>, t: nat, m: Elem)
    requires Accounted(q, ws, turns) && t < |ws| && !ws[t].Has? && q'.written == q.written
    requires |q'.taken| == |q.taken| + 1 <= |q.written| && m == q.written[|q.taken|]
    ensures Accounted(q', ws[t := Has(m)], turns)
  {
    hide Pending, Begun, EncodeAll;
    PendingTake(ws, t, m);
    assert q.written[..|q.taken| + 1] == q.written[..|q.taken|] + [m];
  }

  /** Nothing changes on the file system's side when a resting worker gets a message. */
  lemma TakeServes(s: System, t: nat, m: Elem)
    requires Served(s) && t < |s.ws| && !s.ws[t].Closing?
    ensures Served(s.(ws := s.ws[t := Has(m)]))
  {
    hide TakeTurns, NamesInv, FileMap, Fds;
    FdsSet(s.ws, t, Has(m));
    NotClosing(s.ws, t);
    assert Fds(s.ws) - {t} == Fds(s.ws);
  }

  lemma QueueMove(s: System, t: int, c: Choice)
    requires SystemInv(s) && CanMove(s, InQueue(t, c))
    ensures MoveTo(s, InQueue(t, c)).Running? && SystemInv(MoveTo(s, InQueue(t, c)).s)
    ensures MoveTo(s, InQueue(t, c)).s.st.p == s.st.p
  {
    hide Queue.Inv, Fifo, PhasesOk, StepTo, Ready, Accounted, TakeTurns, Stands, IsMessage, ValidRequest;
    var q := StepTo(s.q, t, c);
    StepKeepsInv(s.q, t, c);
    QueueTakes(s.q, t, c);
    QueueKeepsMessages(s.q, t, c);
    if AtSection(s.q, t, Pop) {
      var m := s.q.written[|s.q.taken|];
      QueueKeepsPhases(s.q, s.ws, t, c, Has(m));
      TakeAccounts(s.q, q, s.ws, s.turns, t, m);
      TakeServes(s, t, m);
    } else {
      QueueKeepsPhases(s.q, s.ws, t, c, Resting);
      QueueAccounts(s.q, q, s.ws, s.turns);
    }
  }

  // ---------------------------------------------------------------- calls on the file system

  lemma TurnSnoc(p: Params, turns: seq<Turn>, turn: Turn)
    requires p.blockSize > 0
    ensures var (b, replies) := TakeTurns(p, turns);
            TakeTurns(p, turns + [turn]) == (TakeTurn(p, b, turn).0, replies + TakeTurn(p, b, turn).1)
  {
    assert (turns + [turn])[..|turns|] == turns;
  }

  lemma EncodeSnoc(rs: seq<Request>, r: Request)
    ensures EncodeAll(rs + [r]) == EncodeAll(rs) + [Encode(r)]
  {
    hide Encode;
  }

  lemma BeginAccounts(q: Queue.State, ws: seq<Phase>, turns: seq<Turn>, w: nat, r: Request, phase: Phase)
    requires Accounted(q, ws, turns) && w < |ws| && ws[w] == Has(Encode(r)) && !phase.Has?
    ensures Accounted(q, ws[w := phase], turns + [Begin(w, r)])
  {
    hide Pending, Begun, EncodeAll, Encode;
    PendingDrop(ws, w, phase);
    EncodeSnoc(Begun(turns), r);
    BegunSnoc(turns, Begin(w, r));
  }

  lemma FinishAccounts(q: Queue.State, ws: seq<Phase>, turns: seq<Turn>, w: nat)
    requires Accounted(q, ws, turns) && w < |ws| && ws[w].Closing?
    ensures Accounted(q, ws[w := Resting], turns + [Finish(w)])
  {
    hide Pending, Begun, EncodeAll;
    PendingDrop(ws, w, Resting);
    BegunSnoc(turns, Finish(w));
    assert Begun(turns) + [] == Begun(turns);
    assert Pending(ws[w := Resting]) + multiset{} == Pending(ws[w := Resting]);
  }

  lemma BegunSnoc(turns: seq<Turn>, turn: Turn)
    ensures Begun(turns + [turn]) == Begun(turns) + if turn.Begin? then [turn.r] else []
  {
    assert (turns + [turn])[..|turns|] == turns;
  }

  lemma FirstTurn(st: FsState.State, ws: seq<Phase>, b: Boxes, w: nat, r: Request)
    requires Stands(st, ws, b) && ValidRequest(r) && w < |ws| && !ws[w].Closing?
    ensures First(st, w, Encode(r)).Done? && !First(st, w, Encode(r)).ret.0.Has?
    ensures var Done(s, (phase, replies)) := First(st, w, Encode(r));
            var (b', more) := TakeTurn(st.p, b, Begin(w, r));
            s.p == st.p && Stands(s, ws[w := phase], b') && replies == more
  {
    hide Stands, TakeTurn, Encode, TfsOpen, TfsUnlink;
    if r.code == BOX_CREATION_R {
      CreateTurn(st, ws, b, w, r);
    } else {
      RemoveTurn(st, ws, b, w, r);
    }
  }

  /** A worker changes its phase outside the queue. */
  lemma PhaseOutside(q: Queue.State, ws: seq<Phase>, w: nat, phase: Phase)
    requires PhasesOk(q, ws) && HeldOk(ws) && w < |ws| && q.threads[w].stage == Idle && !phase.Has?
    ensures PhasesOk(q, ws[w := phase]) && HeldOk(ws[w := phase])
  {
  }

  lemma BeginMove(s: System, w: nat)
    requires SystemInv(s) && CanMove(s, Serve(w)) && s.ws[w].Has?
    ensures MoveTo(s, Serve(w)).Running? && SystemInv(MoveTo(s, Serve(w)).s)
    ensures MoveTo(s, Serve(w)).s.st.p == s.st.p
  {
    hide Queue.Inv, Fifo, PhasesOk, MessagesOk, TakeTurns, TakeTurn, Accounted, Encode, Stands, First, ValidRequest,
         UpToNul, BoxField;
    var m := s.ws[w].message;
    var r :| ValidRequest(r) && m == Encode(r);
    DecodeEncode(r);
    FirstTurn(s.st, s.ws, TakeTurns(s.st.p, s.turns).0, w, r);
    TurnSnoc(s.st.p, s.turns, Begin(w, r));
    BeginAccounts(s.q, s.ws, s.turns, w, r, First(s.st, w, m).ret.0);
    PhaseOutside(s.q, s.ws, w, First(s.st, w, m).ret.0);
  }

  lemma FinishMove(s: System, w: nat)
    requires SystemInv(s) && CanMove(s, Serve(w)) && s.ws[w].Closing?
    ensures MoveTo(s, Serve(w)).Running? && SystemInv(MoveTo(s, Serve(w)).s)
    ensures MoveTo(s, Serve(w)).s.st.p == s.st.p
  {
    hide Queue.Inv, Fifo, PhasesOk, HeldOk, MessagesOk, TakeTurns, TakeTurn, Accounted, Stands, TfsClose;
    FinishTurn(s.st, s.ws, TakeTurns(s.st.p, s.turns).0, w);
    TurnSnoc(s.st.p, s.turns, Finish(w));
    FinishAccounts(s.q, s.ws, s.turns, w);
    PhaseOutside(s.q, s.ws, w, Resting);
  }

  // ---------------------------------------------------------------- whole runs

  lemma MoveKeepsInv(s: System, move: Move)
    requires SystemInv(s) && CanMove(s, move)
    ensures MoveTo(s, move).Running? && SystemInv(MoveTo(s, move).s) && MoveTo(s, move).s.st.p == s.st.p
  {
    hide SystemInv, MoveTo;
    match move
    case InQueue(t, c) => QueueMove(s, t, c);
    case Serve(w) => if s.ws[w].Has? { BeginMove(s, w); } else { FinishMove(s, w); }
  }

  lemma {:induction false} MovesKeepInv(s: System, moves: seq<Move>)
    requires SystemInv(s) && CanMoveAll(s, moves)
    ensures MoveAll(s, moves).Running? && SystemInv(MoveAll(s, moves).s) && MoveAll(s, moves).s.st.p == s.st.p
    decreases |moves|
  {
    hide SystemInv, CanMove, MoveTo;
    if moves != [] {
      MoveKeepsInv(s, moves[0]);
      MovesKeepInv(MoveTo(s, moves[0]).s, moves[1..]);
    }
  }

  /** The server once `tfs_init` and `pcq_create` have returned and its threads exist. */
  predicate Boot(raw: FsState.State, s: System) {
    raw.p.inodes > 0 && raw.p.blocks > 0 && TfsInit(raw).Done? && s.st == TfsInit(raw).st && Initial(s.q) &&
    s.ws == seq(|s.q.threads|, _ => Resting) && s.turns == [] && s.replies == []
  }

  lemma {:induction false} NothingPending(ws: seq<Phase>)
    requires forall w | 0 <= w < |ws| :: ws[w] == Resting
    ensures Pending(ws) == multiset{}
  {
    if ws != [] {
      NothingPending(ws[..|ws| - 1]);
    }
  }

  lemma BootInv(raw: FsState.State, s: System)
    requires Boot(raw, s)
    ensures SystemInv(s) && s.st.p == raw.p
  {
    hide Refinement.Inv, Abs, TfsInit, Queue.Inv, ApplyAll, NamesInv, Encode;
    InitialInv(s.q);
    InitRefines(raw);
    ShutInv(s.st);
    NothingPending(s.ws);
    assert s.q.written[..0] == [] && EncodeAll([]) == [];
    assert Fds(s.ws) == map[] && Taken(s.st.handleBits) == {};
  }

  lemma {:induction false} BelowSize(t: set<nat>, n: nat)
    requires forall k | k in t :: k < n
    ensures |t| <= n
  {
    if n == 0 {
      assert t == {};
    } else {
      BelowSize(t - {n - 1}, n - 1);
      assert t <= (t - {n - 1}) + {n - 1};
    }
  }

  lemma FewClosing(s: System, w: nat)
    requires SystemInv(s) && w < |s.ws| && s.ws[w].Has? && |s.q.threads| <= s.st.p.handles
    ensures |TakeTurns(s.st.p, s.turns).0.closing| < s.st.p.handles
  {
    hide Queue.Inv, NamesInv, FileMap, TakeTurns, Accounted;
    var closing := TakeTurns(s.st.p, s.turns).0.closing;
    BelowSize(closing + {w}, |s.ws|);
    assert w !in Fds(s.ws);
  }

  lemma SystemMeans(s: System)
    requires SystemInv(s)
    ensures Accounted(s.q, s.ws, s.turns) && s.st.p.blockSize > 0
    ensures NamesInv(s.st) && FileMap(s.st).Keys == TakeTurns(s.st.p, s.turns).0.names
    ensures s.replies == TakeTurns(s.st.p, s.turns).1
    ensures (forall w | 0 <= w < |s.ws| :: !s.ws[w].Closing?) ==> Refinement.Inv(s.st) && Abs(s.st).handles == map[]
  {
    hide Refinement.Inv, Abs, Queue.Inv, NamesInv, FileMap, TakeTurns;
    if forall w | 0 <= w < |s.ws| :: !s.ws[w].Closing? {
      assert Fds(s.ws).Values == {};
      NoHandlesInv(s.st);
    }
  }

  /**
   * Whatever the interleaving of any number of threads, as long as queue slots are ready: no assertion fails, no access
   * leaves the tables and no message is read that nobody wrote; every message taken is served once or still in a
   * worker's hands; the files are what the requests begun so far leave of the boxes when taken one at a time, in the
   * order of their first calls; and the answers are those that go with that order. Whenever no create is under way, no
   * handle is open and the whole invariant of the file system holds.
   */
  lemma InterleavingsServeAtomically(raw: FsState.State, s: System, moves: seq<Move>)
    requires Boot(raw, s) && CanMoveAll(s, moves)
    ensures MoveAll(s, moves).Running?
    ensures var t := MoveAll(s, moves).s;
            |t.q.taken| <= |t.q.written| &&
            multiset(t.q.written[..|t.q.taken|]) == multiset(EncodeAll(Begun(t.turns))) + Pending(t.ws)
    ensures var t := MoveAll(s, moves).s;
            t.st.p == raw.p && NamesInv(t.st) && FileMap(t.st).Keys == ApplyAll(raw.p, {}, Begun(t.turns)).0
            && t.replies == TakeTurns(raw.p, t.turns).1
    ensures var t := MoveAll(s, moves).s;
            (forall w | 0 <= w < |t.ws| :: !t.ws[w].Closing?) ==>
              Refinement.Inv(t.st) && Abs(t.st).handles == map[]
  {
    hide SystemInv, Boot, CanMoveAll, MoveAll, Refinement.Inv, Abs, TakeTurns, ApplyAll;
    BootInv(raw, s);
    MovesKeepInv(s, moves);
    var t := MoveAll(s, moves).s;
    SystemMeans(t);
    TurnsApplyRequests(t.st.p, t.turns);
  }

  lemma {:induction false} MovesConserveMessages(s: System, moves: seq<Move>)
    requires SystemInv(s) && CanMoveAll(s, moves)
    ensures MoveAll(s, moves).Running?
    ensures var q := MoveAll(s, moves).s.q;
            multiset(q.written) + Carried(q.threads)
            == multiset(s.q.written) + Carried(s.q.threads) + Dispatched(moves)
    decreases |moves|
  {
    hide SystemInv, StepTo, CanStep, Carried, Offer, First, Second;
    if moves != [] {
      MoveKeepsInv(s, moves[0]);
      if moves[0].InQueue? {
        StepConservesElements(s.q, moves[0].t, moves[0].c);
      }
      MovesConserveMessages(MoveTo(s, moves[0]).s, moves[1..]);
    }
  }

  /** What has been written is what has been taken and what is still in the ring. */
  lemma WrittenSplits(q: Queue.State)
    requires |q.taken| <= |q.written|
    ensures multiset(q.written) == multiset(q.written[..|q.taken|]) + multiset(q.written[|q.taken|..])
  {
    assert q.written == q.written[..|q.taken|] + q.written[|q.taken|..];
  }

  /** Every message that a thread has begun to enqueue is in exactly one place: still in its hands, in the ring, in a
      worker's hands, or its request is begun. None is lost, none is served twice. */
  lemma MessagesAreConserved(raw: FsState.State, s: System, moves: seq<Move>)
    requires Boot(raw, s) && CanMoveAll(s, moves)
    ensures MoveAll(s, moves).Running?
    ensures var t := MoveAll(s, moves).s;
            |t.q.taken| <= |t.q.written| &&
            Dispatched(moves) == Carried(t.q.threads) + multiset(t.q.written[|t.q.taken|..]) + Pending(t.ws)
                                 + multiset(EncodeAll(Begun(t.turns)))
  {
    hide SystemInv, CanMoveAll, MoveAll, Carried, Pending, Dispatched, EncodeAll, Begun;
    BootInv(raw, s);
    MovesKeepInv(s, moves);
    MovesConserveMessages(s, moves);
    var t := MoveAll(s, moves).s;
    SystemMeans(t);
    WrittenSplits(t.q);
    NothingCarried(s.q.threads);
    assert multiset(s.q.written) + Carried(s.q.threads) + Dispatched(moves) == Dispatched(moves);
  }

  /** Between requests a thread may make any call, and nothing hinders a worker with a message or a handle. */
  lemma ThreadsAreFree(s: System, t: nat, e: Elem, r: Request)
    requires SystemInv(s) && t < |s.ws| && s.q.threads[t].stage == Idle && ValidRequest(r)
    ensures s.ws[t] == Resting ==> CanMove(s, InQueue(t, Call(Pop, e))) && CanMove(s, InQueue(t, Call(Push, Encode(r))))
    ensures s.ws[t] != Resting ==> CanMove(s, Serve(t))
  {
    hide Encode, ValidRequest, CellsOk, LocksOk, NoLostWakeup, Stands, TakeTurns;
  }

  /** Every thread is between requests, or waits inside the queue with nothing to use. */
  predicate AllRest(s: System) {
    OnlyWaiting(s.q) &&
    forall t | 0 <= t < |s.ws| && t < |s.q.threads| && s.q.threads[t].stage == Idle :: s.ws[t] == Resting
  }

  /** The server never gets stuck, even though queue sections must find their slots ready: after any run some thread can
      go on without a new call or a spurious wake-up, if and only if not all threads rest. */
  lemma NeverStuckIff(raw: FsState.State, s: System, moves: seq<Move>)
    requires Boot(raw, s) && CanMoveAll(s, moves)
    ensures MoveAll(s, moves).Running?
    ensures var t := MoveAll(s, moves).s;
            (exists move :: CanMove(t, move) && !(move.InQueue? && (move.c.Call? || move.c.Spurious?))) <==> !AllRest(t)
  {
    hide Boot, CanMoveAll, MoveAll, SystemInv, CanMove, AllRest;
    BootInv(raw, s);
    MovesKeepInv(s, moves);
    var t := MoveAll(s, moves).s;
    if !AllRest(t) {
      var move := GoesOn(t);
    } else if move :| CanMove(t, move) && !(move.InQueue? && (move.c.Call? || move.c.Spurious?)) {
      RestingStays(t, move);
    }
  }

  lemma RestingStays(s: System, move: Move)
    requires SystemInv(s) && AllRest(s) && CanMove(s, move)
    ensures move.InQueue? && (move.c.Call? || move.c.Spurious?)
  {
    hide IsMessage, Queue.Inv, Fifo, Accounted, Served;
  }

  lemma GoesOn(s: System) returns (move: Move)
    requires SystemInv(s) && !AllRest(s)
    ensures CanMove(s, move) && !(move.InQueue? && (move.c.Call? || move.c.Spurious?))
  {
    hide IsMessage, Fifo, Accounted, Served, CanStep, Queue.Inv;
    if t :| 0 <= t < |s.ws| && s.q.threads[t].stage == Idle && s.ws[t] != Resting {
      move := Serve(t);
    } else if t :| 0 <= t < |s.ws| && s.q.threads[t].stage != Idle && s.q.threads[t].stage != Asleep {
      var u, c := ReadyProgress(s.q, t);
      move := InQueue(u, c);
    } else {
      SleepersWait(s.q);
      assert false;
    }
  }

  lemma SleepersWait(q: Queue.State)
    requires Queue.Inv(q)
    requires forall u | 0 <= u < |q.threads| :: q.threads[u].stage == Idle || q.threads[u].stage == Asleep
    ensures OnlyWaiting(q)
  {
    hide Queue.Inv;
    forall t | 0 <= t < |q.threads| && q.threads[t].stage == Asleep
      ensures Room(q, q.threads[t].role) == 0
    {
      SleepersHaveNothing(q, t);
    }
  }

  /** With as many handles as threads, no create is refused for want of a handle: the first call of a request leaves the
      worker with a handle to close exactly when the request creates a box and there is room for it or it exists. */
  lemma HandlesSuffice(raw: FsState.State, s: System, moves: seq<Move>, w: nat)
    requires Boot(raw, s) && CanMoveAll(s, moves)
    requires MoveAll(s, moves).Running? && |MoveAll(s, moves).s.q.threads| <= raw.p.handles
    requires w < |MoveAll(s, moves).s.ws| && MoveAll(s, moves).s.ws[w].Has?
    ensures var t := MoveAll(s, moves).s;
            var (m, b) := (t.ws[w].message, TakeTurns(raw.p, t.turns).0);
            |b.closing| < raw.p.handles && |m| == REQUEST_LENGTH && UpToNul(BoxField(m)) != [] &&
            First(t.st, w, m).Done? &&
            (First(t.st, w, m).ret.0.Closing? <==> m[0] == 3 && Apply(raw.p, b.names, Decode(m)).1 == 0)
  {
    hide Boot, CanMoveAll, MoveAll, TakeTurns, First, Stands, Encode, UpToNul, BoxField, ValidRequest, Queue.Inv, Apply;
    BootInv(raw, s);
    MovesKeepInv(s, moves);
    var t := MoveAll(s, moves).s;
    FewClosing(t, w);
    var r :| ValidRequest(r) && t.ws[w].message == Encode(r);
    DecodeEncode(r);
    FirstTurn(t.st, t.ws, TakeTurns(raw.p, t.turns).0, w, r);
    FirstKeepsHandle(t.st, t.ws, TakeTurns(raw.p, t.turns).0, w, r);
  }

  lemma FirstKeepsHandle(st: FsState.State, ws: seq<Phase>, b: Boxes, w: nat, r: Request)
    requires Stands(st, ws, b) && ValidRequest(r) && w < |ws| && !ws[w].Closing? && |b.closing| < st.p.handles
    ensures First(st, w, Encode(r)).Done?
    ensures First(st, w, Encode(r)).ret.0.Closing? <==> r.code == 3 && Apply(st.p, b.names, r).1 == 0
  {
    hide First, NamesInv, FileMap, Encode, ValidRequest, Apply, Fds;
    FirstTurn(st, ws, b, w, r);
    var phase := First(st, w, Encode(r)).ret.0;
    NotClosing(ws, w);
    NotClosing(ws[w := phase], w);
  }
}
