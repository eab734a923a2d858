/**
 * The server as its threads run it: `main` enqueues messages, any number of workers dequeue and serve them, and all of
 * their steps interleave. Creating a box is two separate calls on the file system, so other workers run in between.
 */
module Workers {
  import opened Bytes
  import opened Bitmap
  import opened Directory
  import opened FsState
  import opened Operations
  import Client = AbstractFs
  import opened Interface
  import opened Orphans
  import opened Ring
  import opened Requests

  // ---------------------------------------------------------------- one worker's calls

  /** Where a thread is between `pcq_dequeue` and the answer to the client. */
  datatype Phase = Resting | Has(message: Elem) | Closing(name: CStr, fd: int)

  /** The code that worker `w` hands to `box_answer`. */
  datatype Reply = Reply(w: nat, code: int)

  /** The first call that a message leads to: `create_box` opens, `remove_box` unlinks. */
  function First(st: State, w: nat, m: Elem): Outcome<(Phase, seq<Reply>)> {
    if |m| != REQUEST_LENGTH || !Terminated(BoxField(m)) then Fault
    else
      var name := UpToNul(BoxField(m));
      if CodeField(m) == BOX_CREATION_R then
        var (s, fd) :- TfsOpen(st, Name(name), Mode(true, false, false));
        Done(s, if fd == -1 then (Resting, [Reply(w, BOX_ERROR)]) else (Closing(name, fd), []))
      else if CodeField(m) == BOX_REMOVAL_R then
        var (s, answer) :- RemoveBox(st, name);
        Done(s, (Resting, [Reply(w, answer)]))
      else Fault
  }

  /** The second call of `create_box`. */
  function Second(st: State, w: nat, name: CStr, fd: int): Outcome<(Phase, seq<Reply>)> {
    var (s, r) :- TfsClose(st, fd);
    Done(s, (Resting, [Reply(w, if r == -1 || InsertBox(HEAD, name) == -1 then BOX_ERROR else BOX_SUCCESS)]))
  }

  // ---------------------------------------------------------------- what it comes to

  /** A file-system call by worker `w`: the first one of a request, or the close that ends a create. */
  datatype Turn = Begin(w: nat, r: Request) | Finish(w: nat)

  /** The boxes, and the workers that have yet to close the box they created. */
  datatype Boxes = Boxes(names: set<CStr>, closing: set<nat>)

  /** The whole effect of a request on the boxes is at its first call. A create that finds every handle taken by the
      creates under way is answered with an error, although the box is there; so is every removal. */
  function TakeTurn(p: Params, b: Boxes, turn: Turn): (Boxes, seq<Reply>)
    requires p.blockSize > 0
  {
    match turn
    case Begin(w, r) =>
      var (names, x) := Apply(p, b.names, r);
      if r.code == 3 && x == 0 then
        if |b.closing| < p.handles then (Boxes(names, b.closing + {w}), [])
        else (Boxes(names, b.closing), [Reply(w, BOX_ERROR)])
      else (Boxes(names, b.closing), [Reply(w, Answer(r, x))])
    case Finish(w) => (b.(closing := b.closing - {w}), [Reply(w, BOX_SUCCESS)])
  }

  /** The boxes and all answers after a sequence of turns, from no boxes at all. */
  function TakeTurns(p: Params, turns: seq<Turn>): (Boxes, seq<Reply>)
    requires p.blockSize > 0
  {
    if turns == [] then (Boxes({}, {}), [])
    else
      var (b, replies) := TakeTurns(p, turns[..|turns| - 1]);
      var (b', more) := TakeTurn(p, b, turns[|turns| - 1]);
      (b', replies + more)
  }

  /** The requests begun, in order. */
  function Begun(turns: seq<Turn>): seq<Request> {
    if turns == [] then []
    else
      var turn := turns[|turns| - 1];
      Begun(turns[..|turns| - 1]) + if turn.Begin? then [turn.r] else []
  }

  lemma {:induction false} ApplySnoc(p: Params, boxes: set<CStr>, rs: seq<Request>, r: Request)
    requires p.blockSize > 0
    ensures ApplyAll(p, boxes, rs + [r]).0 == Apply(p, ApplyAll(p, boxes, rs).0, r).0
    decreases |rs|
  {
    hide Apply;
    if rs == [] {
      assert ([] + [r])[1..] == [];
    } else {
      assert (rs + [r])[1..] == rs[1..] + [r];
      ApplySnoc(p, Apply(p, boxes, rs[0]).0, rs[1..], r);
    }
  }

  /** The boxes are those of the requests taken one at a time, in the order of their first calls. */
  lemma {:induction false} TurnsApplyRequests(p: Params, turns: seq<Turn>)
    requires p.blockSize > 0
    ensures TakeTurns(p, turns).0.names == ApplyAll(p, {}, Begun(turns)).0
  {
    hide Apply, ApplyAll;
    if turns == [] {
      ApplyNone(p, {});
    } else {
      var (before, turn) := (turns[..|turns| - 1], turns[|turns| - 1]);
      TurnsApplyRequests(p, before);
      match turn
      case Begin(_, r) => ApplySnoc(p, {}, Begun(before), r);
      case Finish(_) => assert Begun(before) + [] == Begun(before);
    }
  }

  // ---------------------------------------------------------------- the tables against the boxes

  ghost function Fds(ws: seq<Phase>): map<nat, int> {
    map w: nat | w < |ws| && ws[w].Closing? :: ws[w].fd
  }

  /** The files are the boxes, and the TAKEN handles are those of the workers yet to close, one each. */
  ghost predicate Stands(st: State, ws: seq<Phase>, b: Boxes) {
    NamesInv(st) && FileMap(st).Keys == b.names && [] !in b.names &&
    Fds(ws).Keys == b.closing && Injective(Fds(ws)) && Fds(ws).Values == Taken(st.handleBits)
  }

  lemma FdsSet(ws: seq<Phase>, w: nat, phase: Phase)
    requires w < |ws|
    ensures Fds(ws[w := phase]) == if phase.Closing? then Fds(ws)[w := phase.fd] else Fds(ws) - {w}
  {
  }

  /** An open fails for want of a handle exactly when as many creates are under way as there are handles. */
  lemma HandleLeft(st: State, ws: seq<Phase>, b: Boxes)
    requires Stands(st, ws, b)
    ensures FirstFree(st.handleBits) == -1 <==> |b.closing| >= st.p.handles
    ensures FirstFree(st.handleBits) != -1 ==> FirstFree(st.handleBits) !in Fds(ws).Values
  {
    hide NamesInv, FileMap;
    InjectiveSize(Fds(ws));
    FirstFreeSpec(st.handleBits);
    assert |Fds(ws).Keys| == |Fds(ws)|;
  }

  function BoxPath(box: CStr): Path { Name([SLASH] + box) }

  /** For a client without handles, opening a box to create it is inserting it. */
  lemma OpenInserts(p: Params, files: map<CStr, seq<byte>>, r: Request)
    requires p.blockSize > 0 && [] !in files && ValidRequest(r) && r.code == 3
    ensures var (b, fd) := Client.Open(p, Client.Fs(files, map[]), BoxPath(r.box), Mode(true, false, false));
            var (names, x) := Apply(p, files.Keys, r);
            b.files.Keys == names && [] !in names && (x == 0 || x == -1)
            && (fd == -1 <==> x == -1 || p.handles == 0)
  {
    hide ValidName;
    var path := BoxPath(r.box);
    assert r.box != [] ==> BaseName(path) == r.box;
    if r.box != [] { ShortName(r.box); }
    assert |files.Keys| == |files|;
    assert Client.Fs(files, map[]).handles.Keys == {};
  }

  lemma OpenInsertsFiles(p: Params, files: map<CStr, seq<byte>>, r: Request)
    requires p.blockSize > 0 && [] !in files && ValidRequest(r) && r.code == 3
    ensures Client.Open(p, Client.Fs(files, map[]), BoxPath(r.box), Mode(true, false, false)).0.files
         == ApplyToFiles(p, files, r)
  {
    CreateFiles(p, Client.Fs(files, map[]), r);
  }

  lemma ShortName(box: CStr)
    requires box != [] && |box| <= 30
    ensures ValidName(box)
  {
  }

  lemma OpenBox(st: State, r: Request)
    requires NamesInv(st) && [] !in FileMap(st) && ValidRequest(r) && r.code == 3
    ensures TfsOpen(st, BoxPath(r.box), Mode(true, false, false)).Done?
    ensures var Done(s, fd) := TfsOpen(st, BoxPath(r.box), Mode(true, false, false));
            var (names, x) := Apply(st.p, FileMap(st).Keys, r);
            NamesInv(s) && s.p == st.p && FileMap(s).Keys == names && [] !in names && (x == 0 || x == -1)
            && FileMap(s) == ApplyToFiles(st.p, FileMap(st), r)
            && fd == (if x == 0 then FirstFree(st.handleBits) else -1)
            && s.handleBits == if fd == -1 then st.handleBits else st.handleBits[fd := TAKEN]
  {
    hide NamesInv, FileMap, Client.Open, Apply, ApplyToFiles, TfsOpen, BoxPath;
    OpenKeepsNames(st, BoxPath(r.box), Mode(true, false, false));
    OpenInserts(st.p, FileMap(st), r);
    OpenInsertsFiles(st.p, FileMap(st), r);
    FirstFreeSpec(st.handleBits);
  }

  /** Worker `w` gets handle `fd`, until then nobody's. */
  lemma TakesHandle(st: State, s: State, ws: seq<Phase>, b: Boxes, w: nat, name: CStr, fd: nat)
    requires Stands(st, ws, b) && w < |ws| && !ws[w].Closing? && fd < st.p.handles && fd !in Fds(ws).Values
    requires NamesInv(s) && s.p == st.p && [] !in FileMap(s) && s.handleBits == st.handleBits[fd := TAKEN]
    ensures Stands(s, ws[w := Closing(name, fd)], Boxes(FileMap(s).Keys, b.closing + {w}))
  {
    hide NamesInv, FileMap, Fds, Taken;
    FdsSet(ws, w, Closing(name, fd));
    NotClosing(ws, w);
    InsertValue(Fds(ws), w, fd);
    TakenUpdate(st.handleBits, fd, TAKEN);
  }

  lemma NotClosing(ws: seq<Phase>, w: nat)
    requires w < |ws|
    ensures w in Fds(ws) <==> ws[w].Closing?
    ensures ws[w].Closing? ==> Fds(ws)[w] == ws[w].fd
  {
  }

  /** A worker that holds no handle rests; the handles are as they were. */
  lemma Rests(st: State, s: State, ws: seq<Phase>, b: Boxes, w: nat)
    requires Stands(st, ws, b) && w < |ws| && !ws[w].Closing?
    requires NamesInv(s) && s.p == st.p && [] !in FileMap(s) && s.handleBits == st.handleBits
    ensures Stands(s, ws[w := Resting], Boxes(FileMap(s).Keys, b.closing))
  {
    hide NamesInv, FileMap, Fds, Taken;
    FdsSet(ws, w, Resting);
    NotClosing(ws, w);
    assert Fds(ws) - {w} == Fds(ws);
  }

  lemma CreateTurn(st: State, ws: seq<Phase>, b: Boxes, w: nat, r: Request)
    requires Stands(st, ws, b) && ValidRequest(r) && r.code == 3 && w < |ws| && !ws[w].Closing?
    ensures First(st, w, Encode(r)).Done?
    ensures var Done(s, (phase, replies)) := First(st, w, Encode(r));
            var (b', more) := TakeTurn(st.p, b, Begin(w, r));
            s.p == st.p && Stands(s, ws[w := phase], b') && replies == more
  {
    hide NamesInv, FileMap, Fds, Taken, Injective, TfsOpen, Encode, Apply, BoxField, CodeField, FirstFree;
    DecodesIff(r);
    OpenBox(st, r);
    HandleLeft(st, ws, b);
    var Done(s, fd) := TfsOpen(st, BoxPath(r.box), Mode(true, false, false));
    if fd == -1 {
      Rests(st, s, ws, b, w);
    } else {
      TakesHandle(st, s, ws, b, w, [SLASH] + r.box, fd);
    }
  }

  lemma RemoveTurn(st: State, ws: seq<Phase>, b: Boxes, w: nat, r: Request)
    requires Stands(st, ws, b) && ValidRequest(r) && r.code == 5 && w < |ws| && !ws[w].Closing?
    ensures First(st, w, Encode(r)).Done?
    ensures var Done(s, (phase, replies)) := First(st, w, Encode(r));
            var (b', more) := TakeTurn(st.p, b, Begin(w, r));
            s.p == st.p && Stands(s, ws[w := phase], b') && replies == more
  {
    hide NamesInv, FileMap, Fds, Taken, Injective, TfsUnlink, Encode, BoxField, CodeField;
    DecodesIff(r);
    UnlinkKeepsNames(st, BoxPath(r.box));
    assert r.box != [] ==> BaseName(BoxPath(r.box)) == r.box;
    Rests(st, TfsUnlink(st, BoxPath(r.box)).st, ws, b, w);
  }

  lemma FinishTurn(st: State, ws: seq<Phase>, b: Boxes, w: nat)
    requires Stands(st, ws, b) && w < |ws| && ws[w].Closing?
    ensures Second(st, w, ws[w].name, ws[w].fd).Done?
    ensures var Done(s, (phase, replies)) := Second(st, w, ws[w].name, ws[w].fd);
            var (b', more) := TakeTurn(st.p, b, Finish(w));
            s.p == st.p && Stands(s, ws[w := phase], b') && replies == more
  {
    hide NamesInv, FileMap, Fds, Injective, TfsClose;
    var fd := ws[w].fd;
    NotClosing(ws, w);
    assert fd in Fds(ws).Values;
    CloseKeepsNames(st, fd);
    FdsSet(ws, w, Resting);
    RemoveValue(Fds(ws), w);
    TakenUpdate(st.handleBits, fd, FREE);
  }

  // ---------------------------------------------------------------- in terms of the bytes

  /** What a worker's first call does, by the message's first byte, when `fd` is the next free handle or -1. Only a
      create goes on, to close the handle it got; everything else is answered with an error at once. */
  predicate FirstServed(p: Params, files: map<CStr, seq<byte>>, fd: int, w: nat, code: byte, b: CStr,
                        after: map<CStr, seq<byte>>, phase: Phase, replies: seq<Reply>)
  {
    var room := RoomForFile(p, Client.Fs(files, map[]));
    if code == 3 && (b in files || (b != [] && room)) then
      after == (if b in files then files else files[b := []]) &&
      if fd != -1 then phase == Closing(['/' as int] + b, fd) && replies == []
      else phase == Resting && replies == [Reply(w, -1)]
    else
      (code == 3 || code == 5) && after == (if code == 3 then files else files - {b}) &&
      phase == Resting && replies == [Reply(w, -1)]
  }

  lemma CreateByBytes(st: State, w: nat, m: Elem, b: CStr)
    requires NamesInv(st) && [] !in FileMap(st) && BoxBytes(m, b) && m[0] == 3
    ensures First(st, w, m).Done?
    ensures var Done(s, (phase, replies)) := First(st, w, m);
            NamesInv(s) && s.p == st.p
            && FirstServed(st.p, FileMap(st), FirstFree(st.handleBits), w, 3, b, FileMap(s), phase, replies)
  {
    hide NamesInv, FileMap, TfsOpen, UpToNul, Terminated, BoxField, MaxBoxes, RoomForFile, FirstFree;
    BoxFieldIs(m, b);
    RoomIsMaxBoxes(st.p, Client.Fs(FileMap(st), map[]));
    assert |FileMap(st).Keys| == |FileMap(st)|;
    OpenBox(st, Request(3, [], b));
  }

  lemma RemoveByBytes(st: State, w: nat, m: Elem, b: CStr)
    requires NamesInv(st) && [] !in FileMap(st) && BoxBytes(m, b) && m[0] == 5
    ensures First(st, w, m).Done?
    ensures var Done(s, (phase, replies)) := First(st, w, m);
            NamesInv(s) && s.p == st.p
            && FirstServed(st.p, FileMap(st), FirstFree(st.handleBits), w, 5, b, FileMap(s), phase, replies)
  {
    hide NamesInv, FileMap, TfsUnlink, UpToNul, Terminated, BoxField, RoomForFile, FirstFree;
    BoxFieldIs(m, b);
    UnlinkKeepsNames(st, BoxPath(b));
    assert b != [] ==> BaseName(BoxPath(b)) == b;
    assert b !in FileMap(st) ==> FileMap(st) - {b} == FileMap(st);
  }

  /** A worker's first call on a message, whatever other handles are open. A first byte of 3 creates the box, of 5
      removes it, and no other byte does either. */
  lemma FirstByBytes(st: State, w: nat, m: Elem, b: CStr)
    requires NamesInv(st) && [] !in FileMap(st) && BoxBytes(m, b)
    ensures First(st, w, m).Done? <==> m[0] == 3 || m[0] == 5
    ensures First(st, w, m).Done? ==>
              (var Done(s, (phase, replies)) := First(st, w, m);
               NamesInv(s) && s.p == st.p
               && FirstServed(st.p, FileMap(st), FirstFree(st.handleBits), w, m[0], b, FileMap(s), phase, replies))
  {
    hide NamesInv, FileMap, TfsOpen, TfsUnlink, UpToNul, Terminated, BoxField, FirstServed;
    if m[0] == 3 {
      CreateByBytes(st, w, m, b);
    } else if m[0] == 5 {
      RemoveByBytes(st, w, m, b);
    }
  }
}
