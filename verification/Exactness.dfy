/** Exactly when each operation succeeds, keeps the invariant, and leaves the client's file system alone. */
module Exactness {
  import opened Bytes
  import opened Bitmap
  import opened Directory
  import opened FsState
  import opened Operations
  import Client = AbstractFs
  import opened Storage
  import opened Abstraction
  import opened Refinement
  import opened Runs

  // ---------------------------------------------------------------- the invariant, spelled out

  /** The records of the root block that are in use. */
  ghost predicate LiveSlot(st: State, k: int)
    requires RootOk(st)
  {
    0 <= k < |Dir(st, 0)| && Live(Dir(st, 0)[k])
  }

  lemma LiveSlotLinks(st: State, k: int)
    requires Inv(st) && LiveSlot(st, k)
    ensures var slot := Dir(st, 0)[k];
            NameOf(slot) in Names(st) && Names(st)[NameOf(slot)] == slot.inum
            && IsFile(st, slot.inum) && ValidName(NameOf(slot))
  {
    hide BlocksOk, HandlesOk;
    NamedFile(st, NameOf(Dir(st, 0)[k]));
  }

  lemma FileHasSlot(st: State, i: int) returns (k: int)
    requires Inv(st) && IsFile(st, i)
    ensures LiveSlot(st, k) && Dir(st, 0)[k].inum == i
  {
    hide BlocksOk, HandlesOk;
    assert i in Contents(st);
    var n := NameFor(Names(st), i);
    k :| 0 <= k < |Dir(st, 0)| && Live(Dir(st, 0)[k]) && NameOf(Dir(st, 0)[k]) == n;
  }

  lemma SlotsLinkApart(st: State, j: int, k: int)
    requires Inv(st) && LiveSlot(st, j) && LiveSlot(st, k) && j != k
    ensures Dir(st, 0)[j].inum != Dir(st, 0)[k].inum && NameOf(Dir(st, 0)[j]) != NameOf(Dir(st, 0)[k])
  {
    hide BlocksOk, HandlesOk, InodesOk;
    LiveSlotLinks(st, j);
    LiveSlotLinks(st, k);
  }

  /** The invariant in terms of the tables alone. The TAKEN inodes are the root and the inumbers of live slots; no two
      live slots share a name or an inumber; names are 1 to 39 bytes long. */
  lemma InodesAreRootAndLinks(st: State)
    requires Inv(st)
    ensures forall i | 0 <= i < st.p.inodes ::
              st.inodeBits[i] == TAKEN <==> i == 0 || exists k :: LiveSlot(st, k) && Dir(st, 0)[k].inum == i
    ensures forall j, k | LiveSlot(st, j) && LiveSlot(st, k) && j != k ::
              Dir(st, 0)[j].inum != Dir(st, 0)[k].inum && NameOf(Dir(st, 0)[j]) != NameOf(Dir(st, 0)[k])
    ensures forall k | LiveSlot(st, k) ::
              0 < Dir(st, 0)[k].inum < st.p.inodes && 1 <= |NameOf(Dir(st, 0)[k])| <= 39
  {
    hide DirOk, BlocksOk, InodesOk, ViewOk, Dir, NameOf;
    forall k | LiveSlot(st, k)
      ensures IsFile(st, Dir(st, 0)[k].inum) && ValidName(NameOf(Dir(st, 0)[k]))
    {
      LiveSlotLinks(st, k);
    }
    forall i | IsFile(st, i)
      ensures exists k :: LiveSlot(st, k) && Dir(st, 0)[k].inum == i
    {
      var k := FileHasSlot(st, i);
    }
    assert forall i | 0 <= i < st.p.inodes :: IsFile(st, i) <==> (i > 0 && st.inodeBits[i] == TAKEN);
    forall j, k | LiveSlot(st, j) && LiveSlot(st, k) && j != k
      ensures Dir(st, 0)[j].inum != Dir(st, 0)[k].inum && NameOf(Dir(st, 0)[j]) != NameOf(Dir(st, 0)[k])
    {
      SlotsLinkApart(st, j, k);
    }
  }

  /** The TAKEN blocks are exactly those owned by TAKEN inodes with a positive size, the root among them, and no two
      such inodes own the same block. */
  lemma BlocksAreOwnedOnce(st: State)
    requires Inv(st)
    ensures forall b | 0 <= b < st.p.blocks ::
              st.blockBits[b] == TAKEN <==>
              exists i :: 0 <= i < st.p.inodes && st.inodeBits[i] == TAKEN
                          && st.inodes[i].size > 0 && st.inodes[i].block == b
    ensures forall i, j | 0 <= i < j < st.p.inodes && st.inodeBits[i] == TAKEN && st.inodeBits[j] == TAKEN
                          && st.inodes[i].size > 0 && st.inodes[j].size > 0 :: st.inodes[i].block != st.inodes[j].block
    ensures forall i | 0 <= i < st.p.inodes && st.inodeBits[i] == TAKEN :: st.inodes[i].size <= st.p.blockSize
  {
    hide DirOk, ViewOk, Names;
    forall b | 0 <= b < st.p.blocks && st.blockBits[b] == TAKEN
      ensures exists i :: 0 <= i < st.p.inodes && st.inodeBits[i] == TAKEN
                          && st.inodes[i].size > 0 && st.inodes[i].block == b
    {
      assert b in Taken(st.blockBits);
      if b == 0 {
        assert st.inodes[0].block == b;
      } else {
        var i :| i in Owners(st) && Owners(st)[i] == b;
        assert st.inodes[i].block == b;
      }
    }
    forall i | 0 <= i < st.p.inodes && st.inodeBits[i] == TAKEN && st.inodes[i].size > 0
      ensures 0 <= st.inodes[i].block && st.inodes[i].block in Taken(st.blockBits)
    {
      if i > 0 {
        assert IsFile(st, i) && Owners(st)[i] == st.inodes[i].block;
      }
    }
    forall i, j | 0 <= i < j < st.p.inodes && st.inodeBits[i] == TAKEN && st.inodeBits[j] == TAKEN
                  && st.inodes[i].size > 0 && st.inodes[j].size > 0
      ensures st.inodes[i].block != st.inodes[j].block
    {
      assert IsFile(st, j) && Owners(st)[j] == st.inodes[j].block;
      if i > 0 {
        assert IsFile(st, i) && Owners(st)[i] == st.inodes[i].block;
      }
    }
  }

  // ---------------------------------------------------------------- the two things the code does not check

  /** `tfs_unlink` keeps the invariant exactly when no handle is open on the file it removes. */
  lemma UnlinkKeepsInvariantIff(st: State, path: Path)
    requires Inv(st)
    ensures TfsUnlink(st, path).Done?
    ensures Inv(TfsUnlink(st, path).st) <==> Client.UnlinkAllowed(Abs(st), path)
  {
    if Client.UnlinkAllowed(Abs(st), path) {
      UnlinkRefines(st, path);
    } else {
      var h := UnlinkOrphansHandle(st, path);
      if Inv(TfsUnlink(st, path).st) {
        OpenHandle(TfsUnlink(st, path).st, h);
        assert false;
      }
    }
  }

  /** Otherwise some open handle is left on an inode that is FREE. */
  lemma UnlinkOrphansHandle(st: State, path: Path) returns (h: int)
    requires Inv(st) && !Client.UnlinkAllowed(Abs(st), path)
    ensures TfsUnlink(st, path).Done? && TfsUnlink(st, path).ret == 0
    ensures var s := TfsUnlink(st, path).st;
            IsOpen(s, h) && !IsFile(s, s.handles[h].inumber)
  {
    hide RootOk, InodesOk, BlocksOk, ViewOk, AbsOf, Names, Contents, FindInDir;
    var n := BaseName(path);
    LookupRefines(st, path);
    AbsKeys(st);
    h :| h in Abs(st).handles && Abs(st).handles[h].name == n;
    OpenHandle(st, h);
    var s := InodeDelete(st, Names(st)[n]).st;
    DeleteInode(st, Names(st)[n]);
    ClearEntry(s, n);
  }

  /** `tfs_open` keeps the invariant exactly when it does not truncate a file under a cursor past its start. */
  lemma OpenKeepsInvariantIff(st: State, path: Path, mode: Mode)
    requires Inv(st)
    ensures TfsOpen(st, path, mode).Done?
    ensures Inv(TfsOpen(st, path, mode).st) <==> Client.TruncAllowed(Abs(st), path, mode)
  {
    if Client.TruncAllowed(Abs(st), path, mode) {
      OpenRefines(st, path, mode);
    } else {
      var h := TruncateStrandsCursor(st, path, mode);
      if Inv(TfsOpen(st, path, mode).st) {
        OpenHandle(TfsOpen(st, path, mode).st, h);
        assert false;
      }
    }
  }

  /** Otherwise some open handle's cursor is left past the end of its file, which is now empty. */
  lemma TruncateStrandsCursor(st: State, path: Path, mode: Mode) returns (h: int)
    requires Inv(st) && !Client.TruncAllowed(Abs(st), path, mode)
    ensures TfsOpen(st, path, mode).Done?
    ensures var s := TfsOpen(st, path, mode).st;
            IsOpen(s, h) && 0 <= s.handles[h].inumber < s.p.inodes && s.handles[h].offset <= OBJECT_MAX
            && s.inodes[s.handles[h].inumber].size == 0 < s.handles[h].offset
  {
    hide StorageOk, ViewOk, AbsOf, Names, Content, TfsLookup, TfsOpen;
    var n := BaseName(path);
    LookupRefines(st, path);
    AbsKeys(st);
    h :| h in Abs(st).handles && Abs(st).handles[h].name == n && Abs(st).handles[h].cursor != 0;
    OpenHandle(st, h);
    NamedFile(st, n);
    OpenTruncates(st, path, mode, Names(st)[n]);
  }

  /** A truncating open empties the file and leaves every open handle as it was. */
  lemma OpenTruncates(st: State, path: Path, mode: Mode, i: int)
    requires ValidPathname(path) && mode.trunc && ValidInumber(st, ROOT_DIR_INUM) && ValidInumber(st, i)
    requires TfsLookup(st, path, st.inodes[0]) == Done(st, i) && InodeOk(st.p, st.inodes[i]) && st.inodes[i].size > 0
    ensures TfsOpen(st, path, mode).Done?
    ensures var s := TfsOpen(st, path, mode).st;
            s.p == st.p && s.inodes[i].size == 0
            && forall h | IsOpen(st, h) :: IsOpen(s, h) && s.handles[h] == st.handles[h]
  {
    hide TfsLookup;
    FirstFreeSpec(st.handleBits);
  }

  /** A call with a C object for a buffer keeps the invariant exactly when it is one of those a client may make. */
  lemma AllowedIff(st: State, op: Op)
    requires Inv(st) && (op.Write? ==> |op.buffer| <= 0x7FFF_FFFF_FFFF_FFFF)
    ensures Step(st, op).Done?
    ensures Inv(Step(st, op).st) <==> Allowed(Abs(st), op)
  {
    hide Inv, Abs, TfsOpen, TfsClose, TfsWrite, TfsRead, TfsUnlink, Client.TruncAllowed, Client.UnlinkAllowed;
    match op
    case Open(path, mode) => OpenKeepsInvariantIff(st, path, mode);
    case Unlink(path) => UnlinkKeepsInvariantIff(st, path);
    case Write(h, buffer) => WriteRefines(st, h, buffer);
    case Read(h, len) => ReadRefines(st, h, len);
    case Close(h) => CloseRefines(st, h);
  }

  /** The count computed with `size_t` subtraction is what the file has left exactly when the cursor is not past the
      end, or nothing is asked for. */
  lemma ReadCountExactIff(size: nat, offset: nat, len: nat)
    requires size <= OBJECT_MAX && offset <= OBJECT_MAX
    ensures ReadCount(size, offset, len) == Min(if offset <= size then size - offset else 0, len)
            <==> offset <= size || len == 0
  {
  }

  /** Past the end of an empty file by `offset`, a read leaves the tables or returns the lesser of `len` and what the
      difference wraps round to. */
  predicate Invents(read: Outcome<(int, seq<byte>)>, offset: nat, len: nat) {
    var count := 0x1_0000_0000_0000_0000 - offset;
    read.Fault? || read.ret.0 == if count <= len then count else len
  }

  lemma WrappedCount(offset: nat, len: nat)
    requires 0 < offset <= OBJECT_MAX
    ensures var count := 0x1_0000_0000_0000_0000 - offset;
            ReadCount(0, offset, len) == if count <= len then count else len
  {
  }

  /** What the truncation comes to: a read through the stranded handle, whose file is empty, either leaves the tables
      or returns bytes all the same, because the subtraction on `size_t` wraps round. */
  lemma StrandedReadInvents(st: State, path: Path, mode: Mode, len: nat) returns (h: int)
    requires Inv(st) && !Client.TruncAllowed(Abs(st), path, mode) && len > 0
    ensures TfsOpen(st, path, mode).Done?
    ensures var s := TfsOpen(st, path, mode).st;
            IsOpen(s, h) && 0 <= s.handles[h].inumber < s.p.inodes && s.inodes[s.handles[h].inumber].size == 0
            && 0 < s.handles[h].offset <= OBJECT_MAX && Invents(TfsRead(s, h, len), s.handles[h].offset, len)
  {
    hide Inv, Abs, Client.TruncAllowed, TfsOpen, Addr;
    h := TruncateStrandsCursor(st, path, mode);
    var s := TfsOpen(st, path, mode).st;
    WrappedCount(s.handles[h].offset, len);
  }

  // Both conditions fail in runs that any client can make, from `tfs_init` on and under all parameters that leave room
  // for one file.

  predicate RoomForOneFile(p: Params) {
    p.inodes >= 2 && p.blocks >= 2 && p.handles >= 1 && p.blockSize >= ENTRY_SIZE
  }

  const CREATE := Mode(true, false, false)
  const TRUNCATE := Mode(false, true, false)

  /** After initialisation and one open, the client sees one empty file and handle 0 on it. */
  lemma FirstOpen(raw: State, path: Path)
    requires RoomForOneFile(raw.p) && ValidPathname(path) && ValidName(BaseName(path))
    ensures TfsInit(raw).Done? && TfsOpen(TfsInit(raw).st, path, CREATE).Done?
    ensures var t := TfsOpen(TfsInit(raw).st, path, CREATE).st;
            Inv(t) && t.p == raw.p
            && Abs(t) == Client.Fs(map[BaseName(path) := []], map[0 := Client.Handle(BaseName(path), 0)])
  {
    hide Inv, Abs, TfsInit, TfsOpen;
    InitRefines(raw);
    OpenRefines(TfsInit(raw).st, path, CREATE);
    assert Client.EMPTY_FS.handles.Keys == {};
  }

  /** Opening a new file and unlinking it at once leaves the handle on a FREE inode. */
  lemma UnlinkingOpenFile(raw: State, path: Path)
    requires RoomForOneFile(raw.p) && ValidPathname(path) && ValidName(BaseName(path))
    ensures TfsInit(raw).Done? && TfsOpen(TfsInit(raw).st, path, CREATE).Done?
    ensures var t := TfsOpen(TfsInit(raw).st, path, CREATE).st;
            Inv(t) && !Client.UnlinkAllowed(Abs(t), path) && TfsUnlink(t, path).Done? && TfsUnlink(t, path).ret == 0
            && !Inv(TfsUnlink(t, path).st)
  {
    hide Inv, Abs, TfsInit, TfsOpen, TfsUnlink;
    FirstOpen(raw, path);
    var t := TfsOpen(TfsInit(raw).st, path, CREATE).st;
    assert Abs(t).handles[0].name == BaseName(path);
    UnlinkKeepsInvariantIff(t, path);
    var _ := UnlinkOrphansHandle(t, path);
  }

  /** Opening a new file, writing one byte and opening it again to truncate it strands the first handle's cursor: a read
      through it then leaves the tables or returns bytes of an empty file. */
  lemma TruncatingOpenFile(raw: State, path: Path, b: byte, len: nat) returns (h: int)
    requires RoomForOneFile(raw.p) && ValidPathname(path) && ValidName(BaseName(path)) && len > 0
    ensures TfsInit(raw).Done? && TfsOpen(TfsInit(raw).st, path, CREATE).Done?
    ensures var t := TfsOpen(TfsInit(raw).st, path, CREATE).st;
            TfsWrite(t, 0, [b]).Done? &&
            (var u := TfsWrite(t, 0, [b]).st;
             Inv(u) && !Client.TruncAllowed(Abs(u), path, TRUNCATE) && TfsOpen(u, path, TRUNCATE).Done? &&
             (var s := TfsOpen(u, path, TRUNCATE).st;
              !Inv(s) && IsOpen(s, h) && 0 <= s.handles[h].inumber < s.p.inodes
              && s.inodes[s.handles[h].inumber].size == 0 && 0 < s.handles[h].offset <= OBJECT_MAX
              && Invents(TfsRead(s, h, len), s.handles[h].offset, len)))
  {
    hide Inv, Abs, TfsInit, TfsOpen, TfsWrite, TfsRead;
    FirstOpen(raw, path);
    var t := TfsOpen(TfsInit(raw).st, path, CREATE).st;
    WriteRefines(t, 0, [b]);
    FirstWrite(raw.p, BaseName(path), b);
    var u := TfsWrite(t, 0, [b]).st;
    assert Abs(u).handles[0].name == BaseName(path);
    OpenKeepsInvariantIff(u, path, TRUNCATE);
    h := StrandedReadInvents(u, path, TRUNCATE, len);
  }

  lemma FirstWrite(p: Params, n: CStr, b: byte)
    requires RoomForOneFile(p) && ValidName(n)
    ensures var a := Client.Fs(map[n := []], map[0 := Client.Handle(n, 0)]);
            Client.FsOk(p, a) && Client.Write(p, a, 0, [b])
                                 == (Client.Fs(map[n := [b]], map[0 := Client.Handle(n, 1)]), 1)
  {
    var a := Client.Fs(map[n := []], map[0 := Client.Handle(n, 0)]);
    assert Client.NonEmpty(a.files) == {};
    assert a.files[n := [b]] == map[n := [b]] && a.handles[0 := Client.Handle(n, 1)] == map[0 := Client.Handle(n, 1)];
    assert [b][..1] == [b];
    assert Client.Overwrite([], 0, [b]) == [b];
  }

  // ---------------------------------------------------------------- success and failure

  /** A new name is created and opened exactly when its path is valid, its name is at most 39 bytes, and a free
      inode, a free directory slot and a free handle exist. */
  lemma CreateSucceedsIff(st: State, path: Path, mode: Mode)
    requires Inv(st) && mode.creat
    requires path.Name? && 2 <= |path.chars| && path.chars[0] == '/' as int ==> path.chars[1..] !in Abs(st).files
    ensures TfsOpen(st, path, mode).Done?
    ensures TfsOpen(st, path, mode).ret >= 0 <==>
            (path.Name? && 2 <= |path.chars| <= 40 && path.chars[0] == '/' as int && FirstFree(st.inodeBits) != -1
             && EmptyFrom(Dir(st, 0), 0) != -1 && FirstFree(st.handleBits) != -1)
    ensures TfsOpen(st, path, mode).ret >= -1
  {
    hide Inv, Abs, TfsOpen;
    OpenRefines(st, path, mode);
    ResourcesRunOut(st);
  }

  /** A write through an open handle fails exactly when there is something to store, the file is empty and no block
      is free; otherwise it stores whatever fits the block. */
  lemma WriteFailsIff(st: State, h: int, buffer: seq<byte>)
    requires Inv(st) && Client.BufferFits(buffer)
    ensures TfsWrite(st, h, buffer).Done?
    ensures TfsWrite(st, h, buffer).ret == -1 <==>
            (!IsOpen(st, h) ||
             (var OpenFile(i, off) := st.handles[h];
              buffer != [] && off < st.p.blockSize && 0 <= i < st.p.inodes && st.inodes[i].size == 0
              && FirstFree(st.blockBits) == -1))
  {
    hide Inv, StorageOk, Abs, Names, Content, Client.FsOk, Client.StoreAt, Client.BlocksFull, InodeOk, TfsWrite;
    WriteRefines(st, h, buffer);
    ResourcesRunOut(st);
    AbsKeys(st);
    if IsOpen(st, h) {
      OpenHandle(st, h);
    }
  }

  /** The one failure that leaves a trace: the file was created or truncated, but the open-file table is full. */
  ghost predicate LeavesEmptyFile(st: State, op: Op)
    requires Inv(st)
  {
    op.Open? && ValidPathname(op.path) && FirstFree(st.handleBits) == -1 &&
    (var n := BaseName(op.path);
     if n in Abs(st).files then op.mode.trunc
     else op.mode.creat && ValidName(n) && FirstFree(st.inodeBits) != -1 && EmptyFrom(Dir(st, 0), 0) != -1)
  }

  /** Every other -1 leaves the client's file system as it was. */
  lemma FailureAtomic(st: State, op: Op)
    requires Inv(st) && Allowed(Abs(st), op)
    ensures Step(st, op).Done?
    ensures var Done(s, r) := Step(st, op);
            Inv(s) &&
            (LeavesEmptyFile(st, op) ==>
               r.code == -1 && Abs(s) == Abs(st).(files := Abs(st).files[BaseName(op.path) := []])) &&
            (!LeavesEmptyFile(st, op) && r.code == -1 ==> Abs(s) == Abs(st))
  {
    hide Inv, Abs, Step, Client.FsOk;
    StepRefines(st, op);
    ResourcesRunOut(st);
    if op.Open? && ValidPathname(op.path) && BaseName(op.path) in Abs(st).files {
      var n := BaseName(op.path);
      assert Abs(st).files[n := Abs(st).files[n]] == Abs(st).files;
    }
  }

  // ---------------------------------------------------------------- where a write goes

  /** The two regions differ at most at addresses in `[lo, hi)`. */
  ghost predicate SameOutside(before: seq<byte>, after: seq<byte>, lo: int, hi: int) {
    |after| == |before| && forall k | 0 <= k < |before| && !(lo <= k < hi) :: after[k] == before[k]
  }

  /** Inode `k` has the same fields and the same bytes. */
  ghost predicate SameFile(st: State, s: State, k: int) {
    IsFile(st, k) && IsFile(s, k) && s.p == st.p && s.inodes[k] == st.inodes[k] && InodeOk(st.p, st.inodes[k]) &&
    Content(s.p, s.data, s.inodes[k]) == Content(st.p, st.data, st.inodes[k])
  }

  /** From `st` to `s`, `n` bytes at offset `off` of block `b` may have changed, and nothing else that a name other
      than that of inode `i` leads to. */
  ghost predicate WroteInside(st: State, s: State, i: int, b: nat, off: nat, n: nat) {
    0 < b < st.p.blocks && off + n <= st.p.blockSize && Addr(st.p, b) + st.p.blockSize <= |st.data| &&
    SameOutside(st.data, s.data, Addr(st.p, b) + off, Addr(st.p, b) + off + n) &&
    s.p == st.p && Dir(s, 0) == Dir(st, 0) &&
    (forall k | IsFile(st, k) && k != i :: SameFile(st, s, k))
  }

  lemma WriteOutcome(st: State, h: int, buffer: seq<byte>)
    requires Inv(st) && Client.BufferFits(buffer)
    ensures TfsWrite(st, h, buffer).Done?
    ensures var n := TfsWrite(st, h, buffer).ret;
            n > 0 ==> n <= |buffer| && WriteFits(st, h, n)
                      && n == WriteCount(st.p.blockSize, st.handles[h].offset, |buffer|)
  {
    hide Inv, Abs, WriteCount, Addr, Store, Content, Client.FsOk, Client.StoreAt, Client.BlocksFull, FirstFree;
    WriteRefines(st, h, buffer);
    ResourcesRunOut(st);
    if IsOpen(st, h) {
      OpenHandle(st, h);
      WriteCountInBounds(st.p.blockSize, st.handles[h].offset, |buffer|);
    }
  }

  lemma StoreFrame(st: State, i: nat, b: nat, off: nat, w: seq<byte>)
    requires InodesOk(st) && Injective(Owners(st)) && BlockFor(st, i, b) && off + |w| <= st.p.blockSize
    ensures Addr(st.p, b) + off + |w| <= |st.data| && WroteInside(st, Store(st, i, b, off, w), i, b, off, |w|)
  {
    hide Injective, Splice, Content;
    BlocksAreDisjoint(st.p, b, st.p.blocks);
    OtherFilesKept(st, i, b, off, w);
    RootRecordsKept(st, b, off, w);
    var s := Store(st, i, b, off, w);
    assert Dir(s, 0) == Dir(st.(data := s.data), 0);
    forall k | 0 <= k < |st.data| && !(Addr(st.p, b) + off <= k < Addr(st.p, b) + off + |w|)
      ensures s.data[k] == st.data[k]
    {
      SpliceAt(st.data, Addr(st.p, b) + off, w, k);
    }
  }

  lemma WroteInsideFrame(st: State, s: State, u: State, t: State, i: int, b: nat, off: nat, n: nat)
    requires WroteInside(s, u, i, b, off, n)
    requires st.p == s.p && st.inodes == s.inodes && st.inodeBits == s.inodeBits && st.data == s.data
    requires t.p == u.p && t.inodes == u.inodes && t.inodeBits == u.inodeBits && t.data == u.data
    ensures WroteInside(st, t, i, b, off, n)
  {
    assert Dir(st, 0) == Dir(s, 0) && Dir(t, 0) == Dir(u, 0);
    assert forall k :: IsFile(st, k) <==> IsFile(s, k);
    assert forall k | IsFile(s, k) && k != i :: SameFile(s, u, k);
    assert forall k | IsFile(st, k) && k != i :: SameFile(st, t, k);
  }

  /** A write that stores `n` bytes changes the data region only inside one block, at the cursor. The file owns that
      block afterwards and it is not the root's; directory records and all other files stay as they are. */
  lemma WriteStaysInBlock(st: State, h: int, buffer: seq<byte>)
    requires Inv(st) && Client.BufferFits(buffer)
    ensures TfsWrite(st, h, buffer).Done?
    ensures var Done(s, n) := TfsWrite(st, h, buffer);
            n > 0 ==>
              IsOpen(st, h) && IsFile(st, st.handles[h].inumber) && IsFile(s, st.handles[h].inumber) &&
              (var OpenFile(i, off) := st.handles[h];
               s.inodes[i].block > 0 && WroteInside(st, s, i, s.inodes[i].block, off, n))
  {
    hide Inv, StorageOk, RootOk, InodesOk, Injective, Abs, Names, Contents, Content,
         Addr, WriteCount, WroteInside, Splice;
    WriteOutcome(st, h, buffer);
    if TfsWrite(st, h, buffer).ret > 0 {
      OpenHandle(st, h);
      var OpenFile(i, off) := st.handles[h];
      var w := buffer[..TfsWrite(st, h, buffer).ret];
      var s, b := AllocateForWrite(st, i);
      StoreFrame(s, i, b, off, w);
      WroteInsideFrame(st, s, Store(s, i, b, off, w), TfsWrite(st, h, buffer).st, i, b, off, |w|);
    }
  }
}
