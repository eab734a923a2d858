/**
 * What holds when files are unlinked or truncated while handles are open on them, as workers that serve requests at
 * the same time may do: everything about names, inodes, blocks and slots. Only the handles' side of the invariant
 * goes, and it comes back once the handles are closed.
 */
module Orphans {
  import opened Bytes
  import opened Bitmap
  import opened Directory
  import opened FsState
  import opened Operations
  import Client = AbstractFs
  import opened Storage
  import opened Refinement
  import opened Runs
  import opened Exactness

  /** The tables as they would be with every handle closed. */
  function Shut(st: State): (s: State)
    ensures s.p == st.p
  {
    st.(handleBits := seq(st.p.handles, _ => FREE), handles := seq(st.p.handles, _ => OpenFile(0, 0)))
  }

  /** The invariant without what it says of open handles. */
  ghost predicate NamesInv(st: State) { Inv(Shut(st)) }

  /** The client's files. */
  ghost function FileMap(st: State): map<CStr, seq<byte>>
    requires NamesInv(st)
  {
    Abs(Shut(st)).files
  }

  lemma ShutOpens(st: State)
    ensures OpenFiles(Shut(st)) == map[]
  {
  }

  /** The invariant is this one while no handle is open, and always implies it. */
  lemma ShutInv(st: State)
    requires Inv(st)
    ensures NamesInv(st) && Abs(Shut(st)) == Abs(st).(handles := map[])
  {
    hide RootOk, InodesOk, BlocksOk, Names, Contents, OpenFiles;
    HandleTableFrame(st, Shut(st).handleBits, Shut(st).handles);
    ShutOpens(st);
  }

  lemma NoHandlesInv(st: State)
    requires NamesInv(st) && Taken(st.handleBits) == {}
    ensures Inv(st) && Abs(st) == Client.Fs(FileMap(st), map[])
  {
    hide RootOk, InodesOk, BlocksOk, Names, Contents, OpenFiles;
    HandleTableFrame(Shut(st), st.handleBits, st.handles);
    assert Shut(st).(handleBits := st.handleBits, handles := st.handles) == st;
    ShutOpens(st);
    assert OpenFiles(st) == map[] by { NothingOpen(st); }
  }

  /** Handle `h` is on an inode in use, with its cursor inside the file. */
  ghost predicate LiveHandle(st: State, h: int) {
    IsOpen(st, h) && IsFile(st, st.handles[h].inumber)
    && st.handles[h].offset <= st.inodes[st.handles[h].inumber].size
  }

  /** The whole invariant is this one and live handles. */
  lemma InvariantIffHandlesLive(st: State)
    requires NamesInv(st)
    ensures Inv(st) <==> forall h | IsOpen(st, h) :: LiveHandle(st, h)
    ensures Inv(st) ==> Abs(st).files == FileMap(st)
  {
    hide RootOk, BlocksOk, Names, Content;
    HandleTableFrame(Shut(st), st.handleBits, st.handles);
    assert Shut(st).(handleBits := st.handleBits, handles := st.handles) == st;
    assert forall h | IsOpen(st, h) :: h in OpenFiles(st) && OpenFiles(st)[h] == st.handles[h];
    assert forall i | IsFile(st, i) :: i in Contents(st) && |Contents(st)[i]| == st.inodes[i].size;
  }

  lemma NothingOpen(st: State)
    requires Taken(st.handleBits) == {}
    ensures OpenFiles(st) == map[]
  {
    assert forall h :: IsOpen(st, h) ==> h in Taken(st.handleBits);
  }

  // ---------------------------------------------------------------- calls do not look at other handles

  /** The same outcome, with every handle closed. */
  function ShutOutcome<T>(o: Outcome<T>): Outcome<T> { if o.Fault? then Fault else Done(Shut(o.st), o.ret) }

  /** The handle table is the same. */
  predicate SameTable<T>(st: State, o: Outcome<T>) {
    o.Done? ==> o.st.p == st.p && o.st.handleBits == st.handleBits && o.st.handles == st.handles
  }

  lemma DirShut(st: State, b: nat)
    requires ValidBlock(st, b)
    ensures Dir(Shut(st), b) == Dir(st, b)
  {
  }

  lemma LookupShut(st: State, path: Path, root: Inode)
    ensures TfsLookup(Shut(st), path, root) == ShutOutcome(TfsLookup(st, path, root))
    ensures TfsLookup(st, path, root).Done? ==> TfsLookup(st, path, root).st == st
  {
    if ValidBlock(st, root.block) {
      DirShut(st, root.block);
    }
  }

  lemma DeleteShut(st: State, i: int)
    ensures InodeDelete(Shut(st), i) == ShutOutcome(InodeDelete(st, i)) && SameTable(st, InodeDelete(st, i))
  {
  }

  lemma CreateShut(st: State)
    ensures InodeCreate(Shut(st), T_FILE) == ShutOutcome(InodeCreate(st, T_FILE))
    ensures SameTable(st, InodeCreate(st, T_FILE))
  {
  }

  lemma AddShut(st: State, dir: Inode, name: CStr, i: int)
    requires 0 <= i <= INT_MAX
    ensures AddDirEntry(Shut(st), dir, name, i) == ShutOutcome(AddDirEntry(st, dir, name, i))
    ensures SameTable(st, AddDirEntry(st, dir, name, i))
  {
    hide Splice, EncodeSlot, Pad;
    if ValidBlock(st, dir.block) {
      DirShut(st, dir.block);
    }
  }

  lemma ClearShut(st: State, dir: Inode, name: CStr)
    ensures ClearDirEntry(Shut(st), dir, name) == ShutOutcome(ClearDirEntry(st, dir, name))
    ensures SameTable(st, ClearDirEntry(st, dir, name))
  {
    hide Splice, EncodeSlot, MatchFrom;
  }

  lemma CreateFileShut(st: State, root: Inode, name: CStr)
    ensures CreateFile(Shut(st), root, name) == ShutOutcome(CreateFile(st, root, name))
    ensures SameTable(st, CreateFile(st, root, name))
  {
    hide InodeCreate, AddDirEntry, InodeDelete, Shut;
    CreateShut(st);
    if InodeCreate(st, T_FILE).Done? && InodeCreate(st, T_FILE).ret != -1 {
      var (s, i) := (InodeCreate(st, T_FILE).st, InodeCreate(st, T_FILE).ret);
      AddShut(s, root, name, i);
      if AddDirEntry(s, root, name, i).Done? {
        DeleteShut(AddDirEntry(s, root, name, i).st, i);
      }
    }
  }

  lemma OpenExistingShut(st: State, i: int, mode: Mode)
    ensures OpenExisting(Shut(st), i, mode) == ShutOutcome(OpenExisting(st, i, mode))
    ensures SameTable(st, OpenExisting(st, i, mode))
  {
  }

  lemma UnlinkShut(st: State, path: Path)
    ensures TfsUnlink(Shut(st), path) == ShutOutcome(TfsUnlink(st, path)) && SameTable(st, TfsUnlink(st, path))
  {
    hide InodeDelete, ClearDirEntry, TfsLookup;
    if ValidPathname(path) && ValidInumber(st, ROOT_DIR_INUM) {
      var root := st.inodes[0];
      LookupShut(st, path, root);
      if TfsLookup(st, path, root).Done? {
        var i := TfsLookup(st, path, root).ret;
        DeleteShut(st, i);
        if InodeDelete(st, i).Done? {
          ClearShut(InodeDelete(st, i).st, root, BaseName(path));
        }
      }
    }
  }

  lemma AddHandleShut(st: State, i: int, offset: nat)
    ensures var (s, fd) := AddToOpenFileTable(st, i, offset);
            var (u, gd) := AddToOpenFileTable(Shut(st), i, offset);
            Shut(s) == Shut(u) == Shut(st) && fd == FirstFree(st.handleBits) && gd >= -1 &&
            (gd == -1 <==> st.p.handles == 0) &&
            s.handleBits == if fd == -1 then st.handleBits else st.handleBits[fd := TAKEN]
  {
    FirstFreeSpec(Shut(st).handleBits);
    if st.p.handles > 0 {
      assert Shut(st).handleBits[0] == FREE;
    }
  }

  /** With another handle table, an open does the same to everything else, and its handle is the first free one. */
  lemma OpenShut(st: State, path: Path, mode: Mode)
    ensures TfsOpen(st, path, mode).Fault? <==> TfsOpen(Shut(st), path, mode).Fault?
    ensures TfsOpen(st, path, mode).Done? ==>
              (var (Done(s, fd), Done(u, gd)) := (TfsOpen(st, path, mode), TfsOpen(Shut(st), path, mode));
               Shut(s) == Shut(u) && fd == (if gd == -1 then -1 else FirstFree(st.handleBits)) && gd >= -1
               && s.handleBits == if fd == -1 then st.handleBits else st.handleBits[fd := TAKEN])
  {
    hide OpenExisting, CreateFile, TfsLookup, AddToOpenFileTable;
    if ValidPathname(path) && ValidInumber(st, ROOT_DIR_INUM) {
      var root := st.inodes[0];
      LookupShut(st, path, root);
      if TfsLookup(st, path, root).Done? {
        var i := TfsLookup(st, path, root).ret;
        if i >= 0 {
          OpenExistingShut(st, i, mode);
          if OpenExisting(st, i, mode).Done? {
            AddHandleShut(OpenExisting(st, i, mode).st, i, OpenExisting(st, i, mode).ret);
          }
        } else if mode.creat {
          CreateFileShut(st, root, BaseName(path));
          if CreateFile(st, root, BaseName(path)).Done? {
            AddHandleShut(CreateFile(st, root, BaseName(path)).st, CreateFile(st, root, BaseName(path)).ret, 0);
          }
        }
      }
    }
  }

  // ---------------------------------------------------------------- calls keep the names

  /** An open does to the files what it does for a client, whatever handles there are. It fails only when the client's
      open of a file system without handles would, or for want of a handle. */
  lemma OpenKeepsNames(st: State, path: Path, mode: Mode)
    requires NamesInv(st)
    ensures TfsOpen(st, path, mode).Done?
    ensures var Done(s, fd) := TfsOpen(st, path, mode);
            var (b, gd) := Client.Open(st.p, Client.Fs(FileMap(st), map[]), path, mode);
            NamesInv(s) && s.p == st.p && FileMap(s) == b.files
            && fd == (if gd == -1 then -1 else FirstFree(st.handleBits)) && gd >= -1
            && s.handleBits == if fd == -1 then st.handleBits else st.handleBits[fd := TAKEN]
  {
    hide Inv, Abs, TfsOpen, Client.Open, Shut;
    NoHandlesShut(st);
    OpenShut(st, path, mode);
    OpenRefines(Shut(st), path, mode);
    var u := TfsOpen(Shut(st), path, mode).st;
    ShutInv(u);
  }

  lemma NoHandlesShut(st: State)
    requires NamesInv(st)
    ensures Abs(Shut(st)) == Client.Fs(FileMap(st), map[])
  {
    hide RootOk, InodesOk, BlocksOk, Names, Contents, OpenFiles;
    ShutOpens(st);
  }

  /** An unlink removes exactly its name, even when handles are open on the file. */
  lemma UnlinkKeepsNames(st: State, path: Path)
    requires NamesInv(st)
    ensures TfsUnlink(st, path).Done?
    ensures var Done(s, r) := TfsUnlink(st, path);
            NamesInv(s) && s.p == st.p && s.handleBits == st.handleBits
            && (if ValidPathname(path) && BaseName(path) in FileMap(st)
                then r == 0 && FileMap(s) == FileMap(st) - {BaseName(path)}
                else r == -1 && FileMap(s) == FileMap(st))
  {
    hide Inv, Abs, TfsUnlink, Shut;
    NoHandlesShut(st);
    UnlinkShut(st, path);
    UnlinkRefines(Shut(st), path);
    ShutInv(TfsUnlink(Shut(st), path).st);
    ShutTwice(TfsUnlink(st, path).st);
  }

  lemma ShutTwice(st: State)
    ensures Shut(Shut(st)) == Shut(st)
  {
  }

  /** A close gives its handle back and touches nothing else. */
  lemma CloseKeepsNames(st: State, h: int)
    requires NamesInv(st)
    ensures TfsClose(st, h).Done?
    ensures var Done(s, r) := TfsClose(st, h);
            NamesInv(s) && s.p == st.p && FileMap(s) == FileMap(st)
            && (if IsOpen(st, h) then r == 0 && s.handleBits == st.handleBits[h := FREE] else r == -1 && s == st)
  {
    hide Inv, Abs;
    assert Shut(TfsClose(st, h).st) == Shut(st);
  }

  // ---------------------------------------------------------------- runs without reads and writes

  /** What an open, close or unlink does to the files alone. */
  ghost function FilesAfter(p: Params, files: map<CStr, seq<byte>>, op: Op): map<CStr, seq<byte>>
    requires p.blockSize > 0
  {
    match op
    case Open(path, mode) => Client.Open(p, Client.Fs(files, map[]), path, mode).0.files
    case Unlink(path) => Client.Unlink(Client.Fs(files, map[]), path).0.files
    case Close(_) => files
    case Write(_, _) => files
    case Read(_, _) => files
  }

  ghost function FilesAfterAll(p: Params, files: map<CStr, seq<byte>>, ops: seq<Op>): map<CStr, seq<byte>>
    requires p.blockSize > 0
    decreases |ops|
  {
    if ops == [] then files else FilesAfterAll(p, FilesAfter(p, files, ops[0]), ops[1..])
  }

  predicate NoData(op: Op) { !op.Write? && !op.Read? }

  lemma StepKeepsNames(st: State, op: Op)
    requires NamesInv(st) && NoData(op)
    ensures Step(st, op).Done?
    ensures var s := Step(st, op).st; NamesInv(s) && s.p == st.p && FileMap(s) == FilesAfter(st.p, FileMap(st), op)
  {
    hide Inv, Abs, TfsOpen, TfsClose, TfsUnlink, Client.Open, Shut, NamesInv, FileMap;
    match op
    case Open(path, mode) => OpenKeepsNames(st, path, mode);
    case Close(h) => CloseKeepsNames(st, h);
    case Unlink(path) => UnlinkKeepsNames(st, path);
  }

  /** Opens, closes and unlinks in any order, with no condition on what is open, never fail an assertion and do to the
      files what a client expects. Once all handles are closed, the whole invariant holds again. */
  lemma {:induction false} RunKeepsNames(st: State, ops: seq<Op>)
    requires NamesInv(st) && forall op | op in ops :: NoData(op)
    ensures Run(st, ops).Done?
    ensures var t := Run(st, ops).st;
            NamesInv(t) && t.p == st.p && FileMap(t) == FilesAfterAll(st.p, FileMap(st), ops)
            && (Taken(t.handleBits) == {} ==> Inv(t) && Abs(t) == Client.Fs(FileMap(t), map[]))
    decreases |ops|
  {
    hide Inv, Abs, Step, FilesAfter, NamesInv, FileMap, NoData;
    if ops == [] {
      if Taken(st.handleBits) == {} {
        NoHandlesInv(st);
      }
    } else {
      StepKeepsNames(st, ops[0]);
      RunKeepsNames(Step(st, ops[0]).st, ops[1..]);
    }
  }

  // ---------------------------------------------------------------- reads and writes through live handles

  /** The tables as they would be with no handle open but `h`. */
  function Only(st: State, h: int): (s: State)
    ensures s.p == st.p
  {
    st.(handleBits := seq(st.p.handles, k => if k == h then TAKEN else FREE))
  }

  lemma OnlyInv(st: State, h: int)
    requires NamesInv(st) && LiveHandle(st, h)
    ensures Inv(Only(st, h)) && IsOpen(Only(st, h), h) && Abs(Only(st, h)).files == FileMap(st)
  {
    hide Inv, Abs;
    assert Shut(Only(st, h)) == Shut(st);
    assert forall k :: IsFile(Only(st, h), k) <==> IsFile(st, k);
    InvariantIffHandlesLive(Only(st, h));
  }

  /** A write does not look at other handles. */
  lemma WriteOnly(st: State, h: int, buffer: seq<byte>)
    requires IsOpen(st, h)
    ensures TfsWrite(st, h, buffer).Fault? <==> TfsWrite(Only(st, h), h, buffer).Fault?
    ensures TfsWrite(st, h, buffer).Done? ==>
              (var (Done(s, r), Done(u, q)) := (TfsWrite(st, h, buffer), TfsWrite(Only(st, h), h, buffer));
               r == q && Shut(s) == Shut(u) && s.handleBits == st.handleBits)
  {
    hide Splice, WriteCount, FirstFree;
  }

  lemma ReadOnly(st: State, h: int, len: nat)
    requires IsOpen(st, h)
    ensures TfsRead(st, h, len).Fault? <==> TfsRead(Only(st, h), h, len).Fault?
    ensures TfsRead(st, h, len).Done? ==>
              (var (Done(s, r), Done(u, q)) := (TfsRead(st, h, len), TfsRead(Only(st, h), h, len));
               r == q && Shut(s) == Shut(u) && s.handleBits == st.handleBits)
  {
    hide ReadCount;
  }

  /** A write through a live handle does to the files what the client's write does, whatever other handles there are. */
  lemma WriteKeepsNames(st: State, h: int, buffer: seq<byte>)
    requires NamesInv(st) && LiveHandle(st, h) && Client.BufferFits(buffer)
    ensures Inv(Only(st, h)) && Client.FsOk(st.p, Abs(Only(st, h))) && TfsWrite(st, h, buffer).Done?
    ensures var Done(s, r) := TfsWrite(st, h, buffer);
            var (b, q) := Client.Write(st.p, Abs(Only(st, h)), h, buffer);
            NamesInv(s) && s.p == st.p && s.handleBits == st.handleBits && r == q && FileMap(s) == b.files
  {
    hide Inv, Abs, TfsWrite, Client.Write, Shut;
    OnlyInv(st, h);
    WriteOnly(st, h, buffer);
    WriteRefines(Only(st, h), h, buffer);
    ShutInv(TfsWrite(Only(st, h), h, buffer).st);
  }

  /** And so does a read. */
  lemma ReadKeepsNames(st: State, h: int, len: nat)
    requires NamesInv(st) && LiveHandle(st, h)
    ensures Inv(Only(st, h)) && Client.FsOk(st.p, Abs(Only(st, h))) && TfsRead(st, h, len).Done?
    ensures var Done(s, r) := TfsRead(st, h, len);
            NamesInv(s) && s.p == st.p && s.handleBits == st.handleBits && FileMap(s) == FileMap(st)
            && r == Client.Read(st.p, Abs(Only(st, h)), h, len).1
  {
    hide Inv, Abs, TfsRead, Shut;
    OnlyInv(st, h);
    ReadOnly(st, h, len);
    ReadRefines(Only(st, h), h, len);
    ShutInv(TfsRead(Only(st, h), h, len).st);
  }

  /** Data goes only through handles that are live when it does; whatever else is open may be orphaned. */
  ghost predicate ThroughLive(st: State, op: Op) {
    match op
    case Write(h, buffer) => Client.BufferFits(buffer) && (IsOpen(st, h) ==> LiveHandle(st, h))
    case Read(h, _) => IsOpen(st, h) ==> LiveHandle(st, h)
    case Open(_, _) => true
    case Close(_) => true
    case Unlink(_) => true
  }

  ghost predicate LiveRun(st: State, ops: seq<Op>)
    decreases |ops|
  {
    ops == [] ||
    (ThroughLive(st, ops[0]) && (Step(st, ops[0]).Done? ==> LiveRun(Step(st, ops[0]).st, ops[1..])))
  }

  lemma LiveStepKeepsNames(st: State, op: Op)
    requires NamesInv(st) && ThroughLive(st, op)
    ensures Step(st, op).Done? && NamesInv(Step(st, op).st) && Step(st, op).st.p == st.p
  {
    hide Inv, Abs, LiveHandle, Shut, NamesInv, FileMap, TfsOpen, TfsClose, TfsUnlink;
    match op
    case Write(h, buffer) => if IsOpen(st, h) { WriteKeepsNames(st, h, buffer); }
    case Read(h, len) => if IsOpen(st, h) { ReadKeepsNames(st, h, len); }
    case Open(_, _) => StepKeepsNames(st, op);
    case Close(_) => StepKeepsNames(st, op);
    case Unlink(_) => StepKeepsNames(st, op);
  }

  /** Any run of any calls fails no assertion, stays inside the tables and keeps everything about names, inodes, blocks
      and slots, as long as no read or write goes through a handle that is orphaned or past the end of its file. */
  lemma {:induction false} LiveRunsKeepNames(st: State, ops: seq<Op>)
    requires NamesInv(st) && LiveRun(st, ops)
    ensures Run(st, ops).Done?
    ensures var t := Run(st, ops).st;
            NamesInv(t) && t.p == st.p && (Inv(t) <==> forall h | IsOpen(t, h) :: LiveHandle(t, h))
    decreases |ops|
  {
    hide Inv, Step, NamesInv, ThroughLive, LiveHandle;
    if ops == [] {
      InvariantIffHandlesLive(st);
    } else {
      LiveStepKeepsNames(st, ops[0]);
      LiveRunsKeepNames(Step(st, ops[0]).st, ops[1..]);
    }
  }

  // ---------------------------------------------------------------- what becomes of an orphaned handle

  /** With no file there, the next inode is number 1. */
  lemma NextInode(st: State)
    requires NamesInv(st) && FileMap(st) == map[] && st.p.inodes >= 2
    ensures FirstFree(st.inodeBits) == 1
  {
    InodeCount(Shut(st));
    FirstFreeIsLeastUnused(st.inodeBits, 0);
    var taken := Taken(st.inodeBits);
    assert 0 in taken;
    SubsetSize({0}, taken);
    assert LeastUnused({0}, st.p.inodes, 1) == 1;
  }

  /** An open that creates its file puts the handle on the first FREE inode. */
  lemma NewFileInode(st: State, path: Path)
    requires ValidPathname(path) && ValidInumber(st, ROOT_DIR_INUM)
    requires TfsLookup(st, path, st.inodes[0]) == Done(st, -1)
    requires TfsOpen(st, path, CREATE).Done? && TfsOpen(st, path, CREATE).ret >= 0
    ensures var (Done(s, fd), i) := (TfsOpen(st, path, CREATE), FirstFree(st.inodeBits));
            0 <= i < st.p.inodes && s.inodeBits == st.inodeBits[i := TAKEN]
            && fd < st.p.handles && s.handles == st.handles[fd := OpenFile(i, 0)]
  {
    hide TfsLookup, InodeDelete, FirstFree, Splice, EncodeSlot;
  }

  lemma LookupNothing(st: State, path: Path)
    requires NamesInv(st) && FileMap(st) == map[] && ValidPathname(path)
    ensures ValidInumber(st, ROOT_DIR_INUM) && TfsLookup(st, path, st.inodes[0]) == Done(st, -1)
  {
    hide Inv, Abs, TfsLookup;
    LookupRefines(Shut(st), path);
    LookupShut(st, path, Shut(st).inodes[0]);
  }

  lemma CreateInEmpty(p: Params, path: Path)
    requires RoomForOneFile(p) && ValidPathname(path) && ValidName(BaseName(path))
    ensures Client.Open(p, Client.EMPTY_FS, path, CREATE)
         == (Client.Fs(map[BaseName(path) := []], map[0 := Client.Handle(BaseName(path), 0)]), 0)
  {
    assert Client.EMPTY_FS.handles.Keys == {};
    assert Client.EMPTY_FS.files[BaseName(path) := []] == map[BaseName(path) := []];
  }

  /** Creating the only file takes inode 1, under the first free handle. */
  lemma OpenOnlyFile(st: State, path: Path)
    requires NamesInv(st) && FileMap(st) == map[] && RoomForOneFile(st.p) && FirstFree(st.handleBits) != -1
    requires ValidPathname(path) && ValidName(BaseName(path))
    ensures TfsOpen(st, path, CREATE).Done?
    ensures var Done(s, fd) := TfsOpen(st, path, CREATE);
            fd == FirstFree(st.handleBits) && s.p == st.p && NamesInv(s) && FileMap(s) == map[BaseName(path) := []]
            && s.inodeBits[1] == TAKEN
            && s.handleBits == st.handleBits[fd := TAKEN] && s.handles == st.handles[fd := OpenFile(1, 0)]
  {
    hide Inv, Abs, TfsOpen, TfsLookup, NamesInv, FileMap, Shut, Client.Open;
    OpenKeepsNames(st, path, CREATE);
    LookupNothing(st, path);
    CreateInEmpty(st.p, path);
    FirstFreeSpec(st.handleBits);
    NewFileInode(st, path);
    NextInode(st);
  }

  /** The only file, when it is inode 1. */
  lemma OnlyFile(st: State, n: CStr)
    requires NamesInv(st) && FileMap(st) == map[n := []] && st.p.inodes >= 2 && st.inodeBits[1] == TAKEN
    ensures IsFile(st, 1) && st.inodes[1].size == 0
  {
    hide RootOk, InodesOk, BlocksOk, Names, Content;
    var s := Shut(st);
    InodeCount(s);
    TakenInodes(s);
    AbsKeys(s);
    assert n in Abs(s).files;
    NamedFile(s, n);
    assert 1 in Taken(st.inodeBits);
    SubsetSize({0, 1}, Taken(st.inodeBits));
  }

  /** Creating, unlinking and creating again, possibly under another name, with the first handle kept open. */
  lemma ReusedInode(raw: State, first: Path, second: Path) returns (v: State)
    requires RoomForOneFile(raw.p) && raw.p.handles >= 2
    requires ValidPathname(first) && ValidName(BaseName(first)) && ValidPathname(second) && ValidName(BaseName(second))
    ensures TfsInit(raw).Done? && TfsOpen(TfsInit(raw).st, first, CREATE).Done?
    ensures var Done(t, fd) := TfsOpen(TfsInit(raw).st, first, CREATE);
            fd == 0 && TfsUnlink(t, first).Done? && TfsUnlink(t, first).ret == 0
            && TfsOpen(TfsUnlink(t, first).st, second, CREATE) == Done(v, 1)
    ensures v.p == raw.p && NamesInv(v) && FileMap(v) == map[BaseName(second) := []] && v.inodeBits[1] == TAKEN
    ensures v.handles[0] == v.handles[1] == OpenFile(1, 0) && Taken(v.handleBits) == {0, 1}
  {
    hide Inv, Abs, TfsInit, TfsOpen, TfsUnlink, NamesInv, Shut;
    InitRefines(raw);
    var init := TfsInit(raw).st;
    ShutInv(init);
    HandlesInOrder(init.handleBits);
    OpenOnlyFile(init, first);
    var t := TfsOpen(init, first, CREATE).st;
    UnlinkKeepsNames(t, first);
    UnlinkShut(t, first);
    var u := TfsUnlink(t, first).st;
    assert FileMap(u) == map[];
    OpenOnlyFile(u, second);
    v := TfsOpen(u, second, CREATE).st;
  }

  lemma HandlesInOrder(bits: seq<Alloc>)
    requires |bits| >= 2 && bits == seq(|bits|, _ => FREE)
    ensures FirstFree(bits) == 0 && FirstFree(bits[0 := TAKEN]) == 1
    ensures Taken(bits[0 := TAKEN][1 := TAKEN]) == {0, 1}
  {
    assert FirstFreeFrom(bits[0 := TAKEN], 1) == 1;
  }

  /** The handle that an unlink leaves on a FREE inode comes to denote the file that gets the inode next: handle 0,
      which the open of `first` returned, is a handle on `second`, and a write through it changes `second`. */
  lemma OrphanDenotesAnother(raw: State, first: Path, second: Path, b: byte) returns (v: State)
    requires RoomForOneFile(raw.p) && raw.p.handles >= 2
    requires ValidPathname(first) && ValidName(BaseName(first)) && ValidPathname(second) && ValidName(BaseName(second))
    ensures TfsInit(raw).Done? && TfsOpen(TfsInit(raw).st, first, CREATE).Done?
    ensures var Done(t, fd) := TfsOpen(TfsInit(raw).st, first, CREATE);
            fd == 0 && TfsUnlink(t, first).Done? && TfsUnlink(t, first).ret == 0
            && TfsOpen(TfsUnlink(t, first).st, second, CREATE) == Done(v, 1)
    ensures var n := BaseName(second);
            Inv(v) && Abs(v) == Client.Fs(map[n := []], map[0 := Client.Handle(n, 0), 1 := Client.Handle(n, 0)]) &&
            TfsWrite(v, 0, [b]).Done? && Inv(TfsWrite(v, 0, [b]).st) &&
            Abs(TfsWrite(v, 0, [b]).st).files == map[n := [b]]
  {
    hide Inv, Abs, TfsInit, TfsOpen, TfsUnlink, TfsWrite, NamesInv, FileMap;
    var n := BaseName(second);
    v := ReusedInode(raw, first, second);
    OnlyFile(v, n);
    assert forall h | IsOpen(v, h) :: h in Taken(v.handleBits);
    InvariantIffHandlesLive(v);
    TwoHandles(v, n);
    WriteRefines(v, 0, [b]);
    SharedWrite(v.p, n, b);
  }

  lemma TwoHandles(st: State, n: CStr)
    requires Inv(st) && Abs(st).files == map[n := []] && Taken(st.handleBits) == {0, 1}
    ensures Abs(st).handles == map[0 := Client.Handle(n, 0), 1 := Client.Handle(n, 0)]
  {
    hide Inv, Abs, Names;
    AbsKeys(st);
    assert 0 in Taken(st.handleBits) && 1 in Taken(st.handleBits);
    OpenHandle(st, 0);
    OpenHandle(st, 1);
    assert Abs(st).handles[0] == Abs(st).handles[1] == Client.Handle(n, 0);
    assert Abs(st).handles.Keys == {0, 1};
  }

  lemma SharedWrite(p: Params, n: CStr, b: byte)
    requires RoomForOneFile(p) && ValidName(n)
    ensures var a := Client.Fs(map[n := []], map[0 := Client.Handle(n, 0), 1 := Client.Handle(n, 0)]);
            p.handles >= 2 ==> Client.FsOk(p, a) && Client.Write(p, a, 0, [b]).0.files == map[n := [b]]
  {
    var a := Client.Fs(map[n := []], map[0 := Client.Handle(n, 0), 1 := Client.Handle(n, 0)]);
    assert Client.NonEmpty(a.files) == {};
    assert a.files[n := [b]] == map[n := [b]];
    assert [b][..1] == [b];
    assert Client.Overwrite([], 0, [b]) == [b];
  }
}
