/** Create and remove requests: the fixed-width message, and what serving a sequence of them does to the files. */
module Requests {
  import opened Bytes
  import opened Bitmap
  import opened FsState
  import opened Operations
  import Client = AbstractFs
  import opened Refinement
  import opened Interface
  import opened Ring

  const PIPE_NAME_LENGTH: nat := 256
  const BOX_NAME_LENGTH: nat := 32
  const REQUEST_LENGTH: nat := 1 + PIPE_NAME_LENGTH + BOX_NAME_LENGTH
  const SLASH: byte := '/' as int

  const BOX_CREATION_R: byte := 3
  const BOX_REMOVAL_R: byte := 5

  datatype Request = Request(code: byte, pipe: CStr, box: CStr)

  // ---------------------------------------------------------------- the message

  /** The first `n` characters, as the clipped `memcpy`s of `box_request` take them. */
  function Clip(s: CStr, n: nat): CStr { s[..Min(|s|, n)] }

  /** The message `box_request` writes: code, pipe name, slash and box name, each zero-padded to its field. */
  function Encode(r: Request): (m: Elem)
    ensures |m| == REQUEST_LENGTH
  {
    [r.code] + Pad(Clip(r.pipe, PIPE_NAME_LENGTH), PIPE_NAME_LENGTH) +
    [SLASH] + Pad(Clip(r.box, BOX_NAME_LENGTH - 1), BOX_NAME_LENGTH - 1)
  }

  function CodeField(m: Elem): byte
    requires |m| == REQUEST_LENGTH
  {
    m[0]
  }

  function PipeField(m: Elem): seq<byte>
    requires |m| == REQUEST_LENGTH
  {
    m[1..1 + PIPE_NAME_LENGTH]
  }

  function BoxField(m: Elem): seq<byte>
    requires |m| == REQUEST_LENGTH
  {
    m[1 + PIPE_NAME_LENGTH..]
  }

  /** The field, used as a C string, ends inside itself. */
  predicate Terminated(field: seq<byte>) { 0 in field }

  lemma FieldsOfMessage(r: Request)
    ensures CodeField(Encode(r)) == r.code
    ensures PipeField(Encode(r)) == Pad(Clip(r.pipe, PIPE_NAME_LENGTH), PIPE_NAME_LENGTH)
    ensures BoxField(Encode(r)) == [SLASH] + Pad(Clip(r.box, BOX_NAME_LENGTH - 1), BOX_NAME_LENGTH - 1)
  {
  }

  lemma PaddedField(s: CStr, n: nat)
    ensures Terminated(Pad(Clip(s, n), n)) && UpToNul(Pad(Clip(s, n), n)) == s <==> |s| < n
  {
    var d := Pad(Clip(s, n), n);
    if |s| < n {
      assert Clip(s, n) == s;
      assert d[|s|] == 0;
      UpToNulPad(s, n);
    } else {
      assert forall k | 0 <= k < n :: d[k] == s[k] != 0;
    }
  }

  /** The worker gets the pipe name back exactly when it is at most 255 bytes long, and "/" and the box name exactly
      when the box name is at most 30; longer ones leave the field without a terminator or cut it short. */
  lemma DecodesIff(r: Request)
    ensures CodeField(Encode(r)) == r.code
    ensures Terminated(PipeField(Encode(r))) && UpToNul(PipeField(Encode(r))) == r.pipe <==> |r.pipe| <= 255
    ensures Terminated(BoxField(Encode(r))) && UpToNul(BoxField(Encode(r))) == [SLASH] + r.box <==> |r.box| <= 30
  {
    FieldsOfMessage(r);
    PaddedField(r.pipe, PIPE_NAME_LENGTH);
    PaddedField(r.box, BOX_NAME_LENGTH - 1);
    var rest := Pad(Clip(r.box, BOX_NAME_LENGTH - 1), BOX_NAME_LENGTH - 1);
    SlashField(rest);
  }

  lemma SlashField(rest: seq<byte>)
    ensures UpToNul([SLASH] + rest) == [SLASH] + UpToNul(rest)
    ensures Terminated([SLASH] + rest) <==> Terminated(rest)
  {
  }

  /** The 289 bytes on the wire, one by one. */
  lemma WireLayout(r: Request)
    ensures var m := Encode(r);
            |m| == 289 && m[0] == r.code && m[257] == '/' as int &&
            (forall k | 0 <= k < 256 :: m[1 + k] == if k < |r.pipe| then r.pipe[k] else 0) &&
            (forall k | 0 <= k < 31 :: m[258 + k] == if k < |r.box| then r.box[k] else 0)
  {
    var m := Encode(r);
    var (pipe, box) := (Pad(Clip(r.pipe, 256), 256), Pad(Clip(r.box, 31), 31));
    assert m == [r.code] + pipe + [SLASH] + box;
    forall k | 0 <= k < 256
      ensures m[1 + k] == pipe[k]
    {
    }
    forall k | 0 <= k < 31
      ensures m[258 + k] == box[k]
    {
    }
  }

  /** The box field holds a slash, `b` and a NUL. */
  predicate BoxBytes(m: Elem, b: CStr) {
    |m| == 289 && |b| <= 30 && m[257] == '/' as int && m[258..258 + |b|] == b && m[258 + |b|] == 0
  }

  lemma BoxFieldIs(m: Elem, b: CStr)
    requires BoxBytes(m, b)
    ensures |m| == REQUEST_LENGTH && Terminated(BoxField(m)) && UpToNul(BoxField(m)) == ['/' as int] + b
  {
    var s: CStr := ['/' as int] + b;
    assert BoxField(m) == s + m[258 + |b|..];
    assert BoxField(m)[|s|] == 0;
    UpToNulPrefix(s, m[258 + |b|..]);
  }

  // ---------------------------------------------------------------- serving

  const BOX_SUCCESS: int := 0
  const BOX_ERROR: int := -1

  /** A `struct Box *`. */
  datatype BoxList = NULL_LIST | Box(name: CStr, next: BoxList)

  /** The list that the workers get from `main`. It is NULL and stays NULL: both functions below take it by value, and
      nothing else assigns it. */
  const HEAD: BoxList := NULL_LIST

  /** What `insertBox` returns. The address of a node's name is never that of its argument, so nothing is refused. */
  function InsertBox(head: BoxList, name: CStr): int { 0 }

  /** What `deleteBox` returns. */
  function DeleteBox(head: BoxList, name: CStr): int {
    match head
    case NULL_LIST => -1
    case Box(n, next) => if n == name then 0 else DeleteBox(next, name)
  }

  /** `create_box`: what it does to the files, and the code it hands to `box_answer`. */
  function CreateBox(st: State, name: CStr): Outcome<int> {
    var (s, fd) :- TfsOpen(st, Name(name), Mode(true, false, false));
    if fd == -1 then Done(s, BOX_ERROR)
    else
      var (s', r) :- TfsClose(s, fd);
      Done(s', if r == -1 || InsertBox(HEAD, name) == -1 then BOX_ERROR else BOX_SUCCESS)
  }

  /** `remove_box`, likewise. */
  function RemoveBox(st: State, name: CStr): Outcome<int> {
    var (s, r) :- TfsUnlink(st, Name(name));
    Done(s, if r == -1 || DeleteBox(HEAD, name) == -1 then BOX_ERROR else BOX_SUCCESS)
  }

  /** One turn of `working_thread` on a create or remove request, with its answer. An unterminated box name would make
      `tfs_open` read past its buffer, and another code has no file-system part modelled here. */
  function Serve(st: State, m: Elem): Outcome<int> {
    if |m| != REQUEST_LENGTH || !Terminated(BoxField(m)) then Fault
    else
      var name := UpToNul(BoxField(m));
      if CodeField(m) == BOX_CREATION_R then CreateBox(st, name)
      else if CodeField(m) == BOX_REMOVAL_R then RemoveBox(st, name)
      else Fault
  }

  function ServeAll(st: State, ms: seq<Elem>): Outcome<seq<int>>
    decreases |ms|
  {
    if ms == [] then Done(st, [])
    else
      var (s, r) :- Serve(st, ms[0]);
      var (t, rs) :- ServeAll(s, ms[1..]);
      Done(t, [r] + rs)
  }

  // ---------------------------------------------------------------- a set of box names

  /** How many boxes fit: inodes besides the root's, and directory slots. */
  function MaxBoxes(p: Params): int
    requires p.blockSize > 0
  {
    if p.inodes - 1 <= MaxDirEntries(p) then p.inodes - 1 else MaxDirEntries(p)
  }

  /** The server runs with the default parameters: 23 boxes, one per directory slot of a 1024-byte block. */
  lemma ServerCapacity()
    ensures ParamsFit(DEFAULT_PARAMS) && DEFAULT_PARAMS.handles > 0 && MaxBoxes(DEFAULT_PARAMS) == 23
  {
  }

  // What requests mean is said in terms of the bytes on the wire: 3 asks for a box to be created, 5 to be removed.

  /** Creating is insert-if-absent while there is room; removing is deletion of a present name. The outcome is 0 or
      -1. */
  function Apply(p: Params, boxes: set<CStr>, r: Request): (set<CStr>, int)
    requires p.blockSize > 0
  {
    if r.code == 3 then
      if r.box in boxes then (boxes, 0)
      else if r.box != [] && |boxes| < MaxBoxes(p) then (boxes + {r.box}, 0)
      else (boxes, -1)
    else if r.box in boxes then (boxes - {r.box}, 0) else (boxes, -1)
  }

  function ApplyAll(p: Params, boxes: set<CStr>, rs: seq<Request>): (set<CStr>, seq<int>)
    requires p.blockSize > 0
    decreases |rs|
  {
    if rs == [] then (boxes, [])
    else
      var (b, x) := Apply(p, boxes, rs[0]);
      var (c, xs) := ApplyAll(p, b, rs[1..]);
      (c, [x] + xs)
  }

  /** The answer to a request whose outcome is `x`. Every removal is answered BOX_ERROR, also the one that removes the
      box, because the list that `remove_box` searches afterwards is empty. */
  function Answer(r: Request, x: int): int { if r.code == 3 then x else BOX_ERROR }

  function AnswerAll(p: Params, boxes: set<CStr>, rs: seq<Request>): seq<int>
    requires p.blockSize > 0
    decreases |rs|
  {
    if rs == [] then []
    else
      var (after, x) := Apply(p, boxes, rs[0]);
      [Answer(rs[0], x)] + AnswerAll(p, after, rs[1..])
  }

  /** What a request does to the files: a new box is empty, and no other request changes any contents. */
  function ApplyToFiles(p: Params, files: map<CStr, seq<byte>>, r: Request): map<CStr, seq<byte>>
    requires p.blockSize > 0
  {
    if r.code == 3 then
      if r.box !in files && r.box != [] && |files| < MaxBoxes(p) then files[r.box := []] else files
    else files - {r.box}
  }

  lemma ApplyKeys(p: Params, files: map<CStr, seq<byte>>, r: Request)
    requires p.blockSize > 0
    ensures ApplyToFiles(p, files, r).Keys == Apply(p, files.Keys, r).0
  {
    assert |files.Keys| == |files|;
  }

  function ApplyAllToFiles(p: Params, files: map<CStr, seq<byte>>, rs: seq<Request>): map<CStr, seq<byte>>
    requires p.blockSize > 0
    decreases |rs|
  {
    if rs == [] then files else ApplyAllToFiles(p, ApplyToFiles(p, files, rs[0]), rs[1..])
  }

  predicate ValidRequest(r: Request) {
    |r.pipe| <= 255 && |r.box| <= 30 && (r.code == 3 || r.code == 5)
  }

  /** Between requests no file is open. */
  ghost predicate ServerState(st: State, boxes: set<CStr>) {
    Inv(st) && st.p.handles > 0 && Abs(st).handles == map[] && Abs(st).files.Keys == boxes && [] !in boxes
  }

  /** With no file open, a create opens handle 0 on the box or changes nothing. */
  lemma OpenForCreate(p: Params, a: Client.Fs, r: Request)
    requires p.blockSize > 0 && p.handles > 0 && a.handles == map[] && [] !in a.files
    requires ValidRequest(r) && r.code == 3
    ensures var (b, fd) := Client.Open(p, a, Name([SLASH] + r.box), Mode(true, false, false));
            var (boxes', x) := Apply(p, a.files.Keys, r);
            if x == 0 then (fd == 0 && b.handles.Keys == {0} && b.files.Keys == boxes')
            else (fd == -1 && b == a && boxes' == a.files.Keys)
    ensures Apply(p, a.files.Keys, r).1 == 0 || Apply(p, a.files.Keys, r).1 == -1
  {
    var path := Name([SLASH] + r.box);
    if r.box != [] {
      assert BaseName(path) == r.box;
    }
    assert |a.files.Keys| == |a.files|;
    assert a.handles.Keys == {};
  }

  lemma CreateFiles(p: Params, a: Client.Fs, r: Request)
    requires p.blockSize > 0 && [] !in a.files && ValidRequest(r) && r.code == 3
    ensures Client.Open(p, a, Name([SLASH] + r.box), Mode(true, false, false)).0.files == ApplyToFiles(p, a.files, r)
  {
    hide Client.AddHandle;
    var path := Name([SLASH] + r.box);
    if r.box in a.files {
      assert BaseName(path) == r.box;
      assert a.files[r.box := a.files[r.box]] == a.files;
      KeepsFiles(p, a, r.box, 0);
    } else if r.box != [] {
      assert BaseName(path) == r.box;
      KeepsFiles(p, a.(files := a.files[r.box := []]), r.box, 0);
    }
  }

  lemma KeepsFiles(p: Params, a: Client.Fs, n: CStr, cursor: nat)
    ensures Client.AddHandle(p, a, n, cursor).0.files == a.files
  {
  }

  lemma CreateRefinesInsert(st: State, boxes: set<CStr>, r: Request)
    requires ServerState(st, boxes) && ValidRequest(r) && r.code == 3
    ensures CreateBox(st, [SLASH] + r.box).Done?
    ensures var Done(s, x) := CreateBox(st, [SLASH] + r.box);
            s.p == st.p && x == Apply(st.p, boxes, r).1 && ServerState(s, Apply(st.p, boxes, r).0)
            && Abs(s).files == ApplyToFiles(st.p, Abs(st).files, r)
  {
    hide Inv, Abs, TfsOpen, TfsClose, Client.Open, Apply, ApplyToFiles;
    var path := Name([SLASH] + r.box);
    OpenRefines(st, path, Mode(true, false, false));
    OpenForCreate(st.p, Abs(st), r);
    CreateFiles(st.p, Abs(st), r);
    var Done(s, fd) := TfsOpen(st, path, Mode(true, false, false));
    CloseRefines(s, fd);
    if fd != -1 {
      assert Abs(s).handles - {fd} == map[];
    }
    EmptyNameStaysOut(st.p, boxes, r);
  }

  lemma EmptyNameStaysOut(p: Params, boxes: set<CStr>, r: Request)
    requires p.blockSize > 0 && [] !in boxes
    ensures [] !in Apply(p, boxes, r).0
  {
  }

  /** A removal deletes the box from the set. Its answer is an error in any case, so it tells the outcome exactly when
      there was no such box. */
  lemma RemoveRefinesDelete(st: State, boxes: set<CStr>, r: Request)
    requires ServerState(st, boxes) && ValidRequest(r) && r.code == 5
    ensures RemoveBox(st, [SLASH] + r.box).Done?
    ensures var Done(s, x) := RemoveBox(st, [SLASH] + r.box);
            s.p == st.p && ServerState(s, Apply(st.p, boxes, r).0)
            && Abs(s).files == ApplyToFiles(st.p, Abs(st).files, r)
            && x == BOX_ERROR && (x == Apply(st.p, boxes, r).1 <==> r.box !in boxes)
  {
    hide Inv, Abs, TfsUnlink;
    var path := Name([SLASH] + r.box);
    if r.box != [] {
      assert BaseName(path) == r.box;
    }
    UnlinkRefines(st, path);
  }

  lemma ServeRefinesApply(st: State, boxes: set<CStr>, r: Request)
    requires ServerState(st, boxes) && ValidRequest(r)
    ensures Serve(st, Encode(r)).Done?
    ensures var Done(s, x) := Serve(st, Encode(r));
            s.p == st.p && x == Answer(r, Apply(st.p, boxes, r).1) && ServerState(s, Apply(st.p, boxes, r).0)
            && Inv(st) && Inv(s) && Abs(s).files == ApplyToFiles(st.p, Abs(st).files, r)
  {
    hide Encode, CodeField, BoxField, PipeField, Inv, Abs, CreateBox, RemoveBox, Apply, ApplyToFiles;
    DecodesIff(r);
    if r.code == BOX_CREATION_R {
      CreateRefinesInsert(st, boxes, r);
    } else {
      RemoveRefinesDelete(st, boxes, r);
    }
  }

  function EncodeAll(rs: seq<Request>): (ms: seq<Elem>)
    ensures |ms| == |rs|
  {
    seq(|rs|, i requires 0 <= i < |rs| => Encode(rs[i]))
  }

  /** Any sequence of requests, encoded and served one after the other, does to the files exactly what the same
      inserts and removals do to a set of box names, and gets the answers that go with their outcomes. */
  lemma {:induction false} ServeAllRefinesSet(st: State, boxes: set<CStr>, rs: seq<Request>)
    requires ServerState(st, boxes) && forall r | r in rs :: ValidRequest(r)
    ensures ServeAll(st, EncodeAll(rs)).Done?
    ensures var Done(t, xs) := ServeAll(st, EncodeAll(rs));
            t.p == st.p && xs == AnswerAll(st.p, boxes, rs) && ServerState(t, ApplyAll(st.p, boxes, rs).0)
            && Inv(t) && Abs(t).files == ApplyAllToFiles(st.p, Abs(st).files, rs)
    decreases |rs|
  {
    hide Encode, Inv, Abs, Serve, Apply, Answer, ApplyToFiles, ValidRequest;
    if rs != [] {
      ServeRefinesApply(st, boxes, rs[0]);
      ServeAllRefinesSet(Serve(st, Encode(rs[0])).st, Apply(st.p, boxes, rs[0]).0, rs[1..]);
      assert EncodeAll(rs)[1..] == EncodeAll(rs[1..]);
    }
  }

  /** No removal finds its box. */
  predicate RemovesNothing(p: Params, boxes: set<CStr>, rs: seq<Request>)
    requires p.blockSize > 0
    decreases |rs|
  {
    rs == [] ||
    ((rs[0].code == 3 || rs[0].box !in boxes) && RemovesNothing(p, Apply(p, boxes, rs[0]).0, rs[1..]))
  }

  lemma {:induction false} AnswersAreOutcomesIff(p: Params, boxes: set<CStr>, rs: seq<Request>)
    requires p.blockSize > 0
    ensures AnswerAll(p, boxes, rs) == ApplyAll(p, boxes, rs).1 <==> RemovesNothing(p, boxes, rs)
    decreases |rs|
  {
    if rs != [] {
      var (after, x) := Apply(p, boxes, rs[0]);
      AnswersAreOutcomesIff(p, after, rs[1..]);
      var (answers, outcomes) := (AnswerAll(p, boxes, rs), ApplyAll(p, boxes, rs).1);
      assert answers[0] == Answer(rs[0], x) && answers[1..] == AnswerAll(p, after, rs[1..]);
      assert outcomes[0] == x && outcomes[1..] == ApplyAll(p, after, rs[1..]).1;
    }
  }

  /** What clients are answered is what happened to the boxes exactly when no request removes a box. */
  lemma AnswersTellOutcomesIff(st: State, boxes: set<CStr>, rs: seq<Request>)
    requires ServerState(st, boxes) && forall r | r in rs :: ValidRequest(r)
    ensures ServeAll(st, EncodeAll(rs)).Done?
    ensures ServeAll(st, EncodeAll(rs)).ret == ApplyAll(st.p, boxes, rs).1 <==> RemovesNothing(st.p, boxes, rs)
  {
    hide ServerState, ServeAll, AnswerAll, ApplyAll, RemovesNothing, ValidRequest;
    ServeAllRefinesSet(st, boxes, rs);
    AnswersAreOutcomesIff(st.p, boxes, rs);
  }

  lemma RoomIsMaxBoxes(p: Params, a: Client.Fs)
    requires p.blockSize > 0
    ensures |a.files| < MaxBoxes(p) <==> RoomForFile(p, a)
  {
    var k := p.blockSize / 44;
    assert 44 * k <= p.blockSize < 44 * (k + 1);
  }

  /** What the message does to the files, by its first byte. */
  predicate ServedByBytes(p: Params, a: Client.Fs, code: byte, b: CStr, files: map<CStr, seq<byte>>, answer: int) {
    if code == 3 then
      if b in a.files then files == a.files && answer == 0
      else if b != [] && RoomForFile(p, a) then files == a.files[b := []] && answer == 0
      else files == a.files && answer == -1
    else code == 5 && files == a.files - {b} && answer == -1
  }

  /** A message whose first byte is 3 creates the box it names, one whose first byte is 5 removes it, and no other
      message does either. */
  lemma ServeByBytes(st: State, boxes: set<CStr>, m: Elem, b: CStr)
    requires ServerState(st, boxes) && BoxBytes(m, b)
    ensures m[0] != 3 && m[0] != 5 ==> Serve(st, m).Fault?
    ensures m[0] == 3 || m[0] == 5 ==> Serve(st, m).Done?
    ensures m[0] == 3 || m[0] == 5 ==>
              (var Done(s, x) := Serve(st, m);
               Inv(st) && Inv(s) && s.p == st.p && Abs(s).handles == map[]
               && ServedByBytes(st.p, Abs(st), m[0], b, Abs(s).files, x))
  {
    hide Inv, Abs, CreateBox, RemoveBox, MaxBoxes, RoomForFile, UpToNul, Terminated;
    BoxFieldIs(m, b);
    RoomIsMaxBoxes(st.p, Abs(st));
    assert |boxes| == |Abs(st).files|;
    if m[0] == 3 {
      CreateRefinesInsert(st, boxes, Request(3, [], b));
    } else if m[0] == 5 {
      RemoveRefinesDelete(st, boxes, Request(5, [], b));
    }
  }

  /** A box field without a leading slash is refused, and nothing changes. */
  lemma NoSlashIsRefused(st: State, m: Elem)
    requires |m| == 289 && m[257] != '/' as int && 0 in m[257..] && (m[0] == 3 || m[0] == 5)
    ensures Serve(st, m) == Done(st, -1)
  {
    hide TfsOpen, TfsUnlink;
    var name := UpToNul(BoxField(m));
    assert name == [] || name[0] == m[257];
    BadPathsAreRefused(st, Name(name), Mode(true, false, false), Inode(T_DIRECTORY, 0, 0));
  }

  lemma EncodeAllAt(rs: seq<Request>)
    ensures |EncodeAll(rs)| == |rs| && forall i | 0 <= i < |rs| :: EncodeAll(rs)[i] == Encode(rs[i])
  {
    hide Encode;
  }

  lemma ApplyNone(p: Params, boxes: set<CStr>)
    requires p.blockSize > 0
    ensures ApplyAll(p, boxes, []) == (boxes, []) && AnswerAll(p, boxes, []) == []
  {
  }

  /** One request on: its answer joins those so far. */
  lemma ApplyHead(p: Params, boxes: set<CStr>, rs: seq<Request>, i: nat, answers: seq<int>)
    requires p.blockSize > 0 && i < |rs|
    ensures var (after, x) := Apply(p, boxes, rs[i]);
            ApplyAll(p, boxes, rs[i..]).0 == ApplyAll(p, after, rs[i + 1..]).0 &&
            answers + AnswerAll(p, boxes, rs[i..]) == answers + [Answer(rs[i], x)] + AnswerAll(p, after, rs[i + 1..])
  {
    hide Apply, Answer;
    var (after, x) := Apply(p, boxes, rs[i]);
    assert rs[i..][1..] == rs[i + 1..];
    var rest := AnswerAll(p, after, rs[i + 1..]);
    assert answers + ([Answer(rs[i], x)] + rest) == answers + [Answer(rs[i], x)] + rest;
  }

  lemma {:induction false} ApplyAllBounded(p: Params, boxes: set<CStr>, rs: seq<Request>)
    requires p.blockSize > 0 && |boxes| <= MaxBoxes(p)
    ensures |ApplyAll(p, boxes, rs).0| <= MaxBoxes(p)
    decreases |rs|
  {
    if rs != [] {
      ApplyAllBounded(p, Apply(p, boxes, rs[0]).0, rs[1..]);
    }
  }

  /** Whatever is requested, the boxes fit the tables: one inode each besides the root's, and one directory slot. */
  lemma ServedBoxesFit(st: State, boxes: set<CStr>, rs: seq<Request>)
    requires ServerState(st, boxes) && forall r | r in rs :: ValidRequest(r)
    ensures ServeAll(st, EncodeAll(rs)).Done?
    ensures var (t, after) := (ServeAll(st, EncodeAll(rs)).st, ApplyAll(st.p, boxes, rs).0);
            t.p == st.p && |Taken(t.inodeBits)| == 1 + |after| && |after| <= MaxBoxes(st.p)
  {
    hide Inv, Abs, ServeAll, ApplyAll, ValidRequest;
    ServeAllRefinesSet(st, boxes, rs);
    InodeCount(st);
    InodeCount(ServeAll(st, EncodeAll(rs)).st);
    ApplyAllBounded(st.p, boxes, rs);
  }

  /** The requests create boxes, all different and none there yet. */
  predicate NewBoxes(boxes: set<CStr>, rs: seq<Request>) {
    (forall i | 0 <= i < |rs| :: rs[i].code == 3 && rs[i].box != [] && rs[i].box !in boxes) &&
    (forall i, j | 0 <= i < j < |rs| :: rs[i].box != rs[j].box)
  }

  /** New boxes are created until there is no more room, and then none is. */
  lemma {:induction false} BoxesInARow(p: Params, boxes: set<CStr>, rs: seq<Request>)
    requires p.blockSize > 0 && NewBoxes(boxes, rs)
    ensures |AnswerAll(p, boxes, rs)| == |rs|
    ensures forall i | 0 <= i < |rs| :: AnswerAll(p, boxes, rs)[i] == if |boxes| + i < MaxBoxes(p) then 0 else -1
    decreases |rs|
  {
    hide MaxBoxes;
    if rs != [] {
      var after := Apply(p, boxes, rs[0]).0;
      BoxesInARow(p, after, rs[1..]);
      var rest := AnswerAll(p, after, rs[1..]);
      assert AnswerAll(p, boxes, rs)[1..] == rest;
      forall i | 0 < i < |rs|
        ensures AnswerAll(p, boxes, rs)[i] == if |boxes| + i < MaxBoxes(p) then 0 else -1
      {
        assert AnswerAll(p, boxes, rs)[i] == rest[i - 1];
      }
    }
  }

  /** After `tfs_init(NULL)`, whose parameters are these, the server creates 23 boxes and no more. */
  lemma TwentyThreeBoxes(raw: State, rs: seq<Request>)
    requires raw.p.inodes == 64 && raw.p.blocks == 1024 && raw.p.handles == 16 && raw.p.blockSize == 1024
    requires NewBoxes({}, rs) && forall r | r in rs :: ValidRequest(r)
    ensures TfsInit(raw).Done? && ServeAll(TfsInit(raw).st, EncodeAll(rs)).Done?
    ensures var answers := ServeAll(TfsInit(raw).st, EncodeAll(rs)).ret;
            |answers| == |rs| && forall i | 0 <= i < |rs| :: answers[i] == if i < 23 then 0 else -1
  {
    hide Inv, Abs, TfsInit, ServeAll, AnswerAll, NewBoxes, ValidRequest;
    InitRefines(raw);
    ServeAllRefinesSet(TfsInit(raw).st, {}, rs);
    BoxesInARow(raw.p, {}, rs);
  }

  // ---------------------------------------------------------------- one box among others

  function AboutBox(rs: seq<Request>, b: CStr): seq<Request> {
    if rs == [] then [] else (if rs[0].box == b then [rs[0]] else []) + AboutBox(rs[1..], b)
  }

  /** Of the results `xs` of requests `rs`, those about box `b`. */
  function ResultsFor(rs: seq<Request>, xs: seq<int>, b: CStr): seq<int> {
    if rs == [] || xs == [] then []
    else (if rs[0].box == b then [xs[0]] else []) + ResultsFor(rs[1..], xs[1..], b)
  }

  /** The create of a new box would find room if other boxes did not take it all. */
  predicate CrowdedOut(p: Params, boxes: set<CStr>, r: Request)
    requires p.blockSize > 0
  {
    r.code == 3 && r.box !in boxes && r.box != [] && 0 < MaxBoxes(p) <= |boxes|
  }

  /** Whenever box `b` is to be created, there is room for it. */
  predicate NeverCrowdedOut(p: Params, boxes: set<CStr>, rs: seq<Request>, b: CStr)
    requires p.blockSize > 0
    decreases |rs|
  {
    rs == [] ||
    ((rs[0].box == b ==> !CrowdedOut(p, boxes, rs[0])) && NeverCrowdedOut(p, Apply(p, boxes, rs[0]).0, rs[1..], b))
  }

  /** One request about `b`, with other boxes there and without. */
  lemma SameOutcomeIff(p: Params, boxes: set<CStr>, r: Request)
    requires p.blockSize > 0
    ensures var ((after, x), (own, y)) := (Apply(p, boxes, r), Apply(p, boxes * {r.box}, r));
            (x == y <==> !CrowdedOut(p, boxes, r)) && (Answer(r, x) == Answer(r, y) <==> !CrowdedOut(p, boxes, r))
            && (x == y ==> own == after * {r.box})
  {
    var own := boxes * {r.box};
    if r.box in boxes {
      assert own == {r.box};
      assert own - {r.box} == (boxes - {r.box}) * {r.box};
    } else {
      assert own == {};
      assert own + {r.box} == (boxes + {r.box}) * {r.box};
    }
  }

  lemma OtherRequest(p: Params, boxes: set<CStr>, r: Request, b: CStr)
    requires p.blockSize > 0 && r.box != b
    ensures Apply(p, boxes, r).0 * {b} == boxes * {b}
  {
  }

  lemma ConsEqual(x: int, y: int, xs: seq<int>, ys: seq<int>)
    ensures [x] + xs == [y] + ys <==> x == y && xs == ys
  {
    assert ([x] + xs)[0] == x && ([x] + xs)[1..] == xs && ([y] + ys)[0] == y && ([y] + ys)[1..] == ys;
  }

  /** Whether requests about box `b` have the outcomes and answers they would have without all other requests depends
      on room alone; and if they do, so has the box. */
  lemma {:induction false} BoxesApartIff(p: Params, boxes: set<CStr>, rs: seq<Request>, b: CStr)
    requires p.blockSize > 0
    ensures var (own, about) := (boxes * {b}, AboutBox(rs, b));
            (ResultsFor(rs, ApplyAll(p, boxes, rs).1, b) == ApplyAll(p, own, about).1
             <==> NeverCrowdedOut(p, boxes, rs, b)) &&
            (ResultsFor(rs, AnswerAll(p, boxes, rs), b) == AnswerAll(p, own, about)
             <==> NeverCrowdedOut(p, boxes, rs, b)) &&
            (NeverCrowdedOut(p, boxes, rs, b) ==> ApplyAll(p, own, about).0 == ApplyAll(p, boxes, rs).0 * {b})
    decreases |rs|
  {
    hide Apply, CrowdedOut, Answer;
    if rs != [] {
      var (r, rest) := (rs[0], rs[1..]);
      var (after, x) := Apply(p, boxes, r);
      BoxesApartIff(p, after, rest, b);
      assert ([x] + ApplyAll(p, after, rest).1)[1..] == ApplyAll(p, after, rest).1;
      assert ([Answer(r, x)] + AnswerAll(p, after, rest))[1..] == AnswerAll(p, after, rest);
      if r.box == b {
        SameOutcomeIff(p, boxes, r);
        assert ([r] + AboutBox(rest, b))[1..] == AboutBox(rest, b);
        var (own, y) := Apply(p, boxes * {b}, r);
        ConsEqual(x, y, ResultsFor(rest, ApplyAll(p, after, rest).1, b), ApplyAll(p, own, AboutBox(rest, b)).1);
        ConsEqual(Answer(r, x), Answer(r, y),
                  ResultsFor(rest, AnswerAll(p, after, rest), b), AnswerAll(p, own, AboutBox(rest, b)));
      } else {
        OtherRequest(p, boxes, r, b);
        assert [] + AboutBox(rest, b) == AboutBox(rest, b);
      }
    }
  }

  lemma {:induction false} AboutBoxFrom(rs: seq<Request>, b: CStr)
    ensures forall r | r in AboutBox(rs, b) :: r in rs
  {
    if rs != [] {
      AboutBoxFrom(rs[1..], b);
    }
  }

  /** Distinct boxes never collide, on the tables, in runs of any length. Next to a file system that has served nothing
      but the requests about box `b`: the answers about `b` are the same if and only if `b` is never to be created when
      other boxes take all the room; and then the box is there in both or in neither. */
  lemma DistinctBoxesNeverCollide(st: State, alone: State, boxes: set<CStr>, rs: seq<Request>, b: CStr)
    requires ServerState(st, boxes) && ServerState(alone, boxes * {b}) && alone.p == st.p
    requires forall r | r in rs :: ValidRequest(r)
    ensures ServeAll(st, EncodeAll(rs)).Done? && ServeAll(alone, EncodeAll(AboutBox(rs, b))).Done?
    ensures var Done(t, xs) := ServeAll(st, EncodeAll(rs));
            var Done(u, ys) := ServeAll(alone, EncodeAll(AboutBox(rs, b)));
            Inv(t) && Inv(u) &&
            (ResultsFor(rs, xs, b) == ys <==> NeverCrowdedOut(st.p, boxes, rs, b)) &&
            (NeverCrowdedOut(st.p, boxes, rs, b) ==> (b in Abs(t).files <==> b in Abs(u).files))
  {
    hide Inv, Abs, ServeAll, ApplyAll, AnswerAll, NeverCrowdedOut, ResultsFor, AboutBox, ValidRequest;
    AboutBoxFrom(rs, b);
    ServeAllRefinesSet(st, boxes, rs);
    ServeAllRefinesSet(alone, boxes * {b}, AboutBox(rs, b));
    BoxesApartIff(st.p, boxes, rs, b);
  }

  function BoxNames(rs: seq<Request>): set<CStr> { set r | r in rs :: r.box }

  /** There is always room when no more boxes than fit are ever named, however many requests there are. */
  lemma {:induction false} FewNamesNeverCrowd(p: Params, boxes: set<CStr>, names: set<CStr>, rs: seq<Request>, b: CStr)
    requires p.blockSize > 0 && boxes <= names && BoxNames(rs) <= names && |names| <= MaxBoxes(p)
    ensures NeverCrowdedOut(p, boxes, rs, b)
    decreases |rs|
  {
    if rs != [] {
      var r := rs[0];
      assert r.box in BoxNames(rs);
      if r.box !in boxes {
        SubsetSize(boxes + {r.box}, names);
      }
      FewNamesNeverCrowd(p, Apply(p, boxes, r).0, names, rs[1..], b);
    }
  }
}
