/** Every operation on the tables is the operation of the same name on the client's file system. */
module Refinement {
  import opened Bytes
  import opened Bitmap
  import opened Directory
  import opened FsState
  import opened Operations
  import opened AbstractFs
  import opened Storage
  import opened Abstraction

  ghost function ViewOf(st: State): View
    requires StorageOk(st)
  {
    View(Names(st), Contents(st), OpenFiles(st))
  }

  /** The global invariant. */
  ghost predicate Inv(st: State) { StorageOk(st) && ViewOk(ViewOf(st)) }

  /** The client's file system. */
  ghost function Abs(st: State): Fs
    requires Inv(st)
  {
    AbsOf(ViewOf(st))
  }

  // ---------------------------------------------------------------- resources

  /** What a named file is, on both sides. */
  lemma NamedFile(st: State, n: CStr)
    requires Inv(st) && n in Names(st)
    ensures n in Abs(st).files && IsFile(st, Names(st)[n]) && Names(st)[n] in Contents(st)
    ensures Abs(st).files[n] == Contents(st)[Names(st)[n]] == Content(st.p, st.data, st.inodes[Names(st)[n]])
    ensures |Abs(st).files[n]| == st.inodes[Names(st)[n]].size <= st.p.blockSize
    ensures ValidName(n)
  {
    assert Names(st)[n] in Contents(st);
    var i :| 0 <= i < |Dir(st, 0)| && Live(Dir(st, 0)[i]) && NameOf(Dir(st, 0)[i]) == n;
    assert SlotOk(Dir(st, 0)[i]);
  }

  lemma AbsKeys(st: State)
    requires Inv(st)
    ensures Abs(st).files.Keys == Names(st).Keys
    ensures Abs(st).handles.Keys == OpenFiles(st).Keys == Taken(st.handleBits)
    ensures forall h :: h in Abs(st).handles <==> IsOpen(st, h)
  {
    hide RootOk, InodesOk, BlocksOk, ViewOk, Names, Contents;
    assert OpenFiles(st).Keys == Taken(st.handleBits);
  }

  lemma AbsOk(st: State)
    requires Inv(st)
    ensures FsOk(st.p, Abs(st))
    ensures Abs(st).files.Keys == Names(st).Keys
    ensures Abs(st).handles.Keys == OpenFiles(st).Keys == Taken(st.handleBits)
  {
    hide RootOk, InodesOk, BlocksOk, ViewOk, AbsOf, Names, Contents, OpenFiles;
    AbsKeys(st);
    forall n | n in Abs(st).files
      ensures ValidName(n) && |Abs(st).files[n]| <= st.p.blockSize
    {
      NamedFile(st, n);
    }
    forall h | h in Abs(st).handles
      ensures 0 <= h < st.p.handles && HandleOk(Abs(st), h)
    {
      OpenHandle(st, h);
    }
  }

  lemma InodeCount(st: State)
    requires Inv(st)
    ensures |Taken(st.inodeBits)| == 1 + |Abs(st).files| <= st.p.inodes
    ensures |Contents(st)| == |Names(st)| == |Abs(st).files| <= MaxDirEntries(st.p)
  {
    TakenInodes(st);
    FilesSize(ViewOf(st));
    FullIffMapFull(Dir(st, 0));
    FirstFreeSpec(st.inodeBits);
  }

  lemma OwnersAreNonEmpty(st: State)
    requires InodesOk(st)
    ensures Owners(st).Keys == set i | i in Contents(st) && Contents(st)[i] != []
  {
  }

  lemma BlockCount(st: State)
    requires Inv(st)
    ensures |Taken(st.blockBits)| == 1 + |NonEmpty(Abs(st).files)| <= st.p.blocks
  {
    hide RootOk, InodesOk, BlocksOk, HandlesOk, Names, Contents, Owners, NonEmpty, Addr;
    TakenBlocks(st);
    FirstFreeSpec(st.blockBits);
    OwnersAreNonEmpty(st);
    NonEmptySize(ViewOf(st), Owners(st).Keys);
  }

  lemma HandleCount(st: State)
    requires Inv(st)
    ensures |Taken(st.handleBits)| == |Abs(st).handles| <= st.p.handles
  {
    AbsOk(st);
    FirstFreeSpec(st.handleBits);
  }

  /** The counts a client can see decide when inodes, directory slots, blocks and handles run out. */
  lemma ResourcesRunOut(st: State)
    requires Inv(st)
    ensures FirstFree(st.inodeBits) == -1 <==> InodesFull(st.p, Abs(st))
    ensures FirstFree(st.blockBits) == -1 <==> BlocksFull(st.p, Abs(st))
    ensures EmptyFrom(Dir(st, 0), 0) == -1 <==> DirectoryFull(st.p, Abs(st))
    ensures FirstFree(st.handleBits) == LeastUnused(Abs(st).handles.Keys, st.p.handles, 0)
  {
    InodeCount(st);
    BlockCount(st);
    AbsOk(st);
    FirstFreeSpec(st.inodeBits);
    FirstFreeSpec(st.blockBits);
    FullIffMapFull(Dir(st, 0));
    FirstFreeIsLeastUnused(st.handleBits, 0);
  }

  // ---------------------------------------------------------------- lookup

  lemma LookupRefines(st: State, path: Path)
    requires Inv(st) && ValidPathname(path)
    ensures TfsLookup(st, path, st.inodes[0]) ==
            Done(st, if BaseName(path) in Abs(st).files then Names(st)[BaseName(path)] else -1)
    ensures BaseName(path) in Abs(st).files ==> IsFile(st, Names(st)[BaseName(path)])
    ensures BaseName(path) in Abs(st).files <==> BaseName(path) in Names(st)
    ensures ValidInumber(st, ROOT_DIR_INUM)
  {
    FindRefinesLookup(Dir(st, 0), BaseName(path));
    if BaseName(path) in Names(st) {
      assert Names(st)[BaseName(path)] in Contents(st);
    }
  }

  lemma HandleTableFrame(st: State, handleBits: seq<Alloc>, handles: seq<OpenFile>)
    requires StorageOk(st) && |handleBits| == |handles| == st.p.handles
    ensures var s := st.(handleBits := handleBits, handles := handles);
            StorageOk(s) && Names(s) == Names(st) && Contents(s) == Contents(st)
  {
    var s := st.(handleBits := handleBits, handles := handles);
    RootFrame(st, s);
    assert forall k :: IsFile(s, k) <==> IsFile(st, k);
    assert Owners(s) == Owners(st);
  }

  // Changes of the views, lifted to states.

  lemma SetHandleStep(st: State, s: State, h: int, n: CStr, off: nat)
    requires Inv(st) && n in Names(st) && off <= |Abs(st).files[n]|
    requires StorageOk(s) && ViewOf(s) == ViewOf(st).(open := OpenFiles(st)[h := OpenFile(Names(st)[n], off)])
    ensures Inv(s) && Abs(s) == Abs(st).(handles := Abs(st).handles[h := Handle(n, off)])
  {
    NamedFile(st, n);
    SetHandle(ViewOf(st), h, n, off);
  }

  lemma DropHandleStep(st: State, s: State, h: int)
    requires Inv(st) && h in OpenFiles(st)
    requires StorageOk(s) && ViewOf(s) == ViewOf(st).(open := OpenFiles(st) - {h})
    ensures Inv(s) && Abs(s) == Abs(st).(handles := Abs(st).handles - {h})
  {
    DropHandle(ViewOf(st), h);
  }

  lemma InsertFileStep(st: State, s: State, n: CStr, i: int)
    requires Inv(st) && n !in Names(st) && i !in Contents(st)
    requires StorageOk(s) && ViewOf(s) == View(Names(st)[n := i], Contents(st)[i := []], OpenFiles(st))
    ensures Inv(s) && Abs(s) == Abs(st).(files := Abs(st).files[n := []])
  {
    InsertFile(ViewOf(st), n, i);
  }

  lemma RemoveFileStep(st: State, s: State, n: CStr)
    requires Inv(st) && n in Names(st) && !Refers(Abs(st), n)
    requires StorageOk(s) && ViewOf(s) == View(Names(st) - {n}, Contents(st) - {Names(st)[n]}, OpenFiles(st))
    ensures Inv(s) && Abs(s) == Abs(st).(files := Abs(st).files - {n})
  {
    RemoveFile(ViewOf(st), n);
  }

  lemma ChangeFileStep(st: State, s: State, n: CStr, c: seq<byte>)
    requires Inv(st) && n in Names(st)
    requires forall h | h in Abs(st).handles && Abs(st).handles[h].name == n :: Abs(st).handles[h].cursor <= |c|
    requires StorageOk(s) && ViewOf(s) == ViewOf(st).(contents := Contents(st)[Names(st)[n] := c])
    ensures Inv(s) && Abs(s) == Abs(st).(files := Abs(st).files[n := c])
  {
    forall h | h in OpenFiles(st) && OpenFiles(st)[h].inumber == Names(st)[n]
      ensures OpenFiles(st)[h].offset <= |c|
    {
      assert Abs(st).handles[h].name == n;
    }
    ChangeFile(ViewOf(st), n, c);
  }

  lemma SameViewStep(st: State, s: State)
    requires Inv(st) && StorageOk(s) && ViewOf(s) == ViewOf(st)
    ensures Inv(s) && Abs(s) == Abs(st)
  {
  }

  // ---------------------------------------------------------------- pieces of operations

  lemma OpenEntry(st: State, handleBits: seq<Alloc>, h: nat, e: OpenFile)
    requires StorageOk(st) && h < st.p.handles && |handleBits| == st.p.handles
    requires forall k | 0 <= k < st.p.handles :: handleBits[k] == if k == h then TAKEN else st.handleBits[k]
    ensures var s := st.(handleBits := handleBits, handles := st.handles[h := e]);
            StorageOk(s) && ViewOf(s) == ViewOf(st).(open := OpenFiles(st)[h := e])
  {
    var s := st.(handleBits := handleBits, handles := st.handles[h := e]);
    HandleTableFrame(st, handleBits, s.handles);
    assert OpenFiles(s) == OpenFiles(st)[h := e];
  }

  lemma CloseEntry(st: State, h: nat)
    requires StorageOk(st) && IsOpen(st, h)
    ensures var s := st.(handleBits := st.handleBits[h := FREE]);
            StorageOk(s) && ViewOf(s) == ViewOf(st).(open := OpenFiles(st) - {h})
  {
    hide StorageOk, Names, Contents;
    var s := st.(handleBits := st.handleBits[h := FREE]);
    HandleTableFrame(st, s.handleBits, st.handles);
    assert s == st.(handleBits := s.handleBits, handles := st.handles);
    assert OpenFiles(s) == OpenFiles(st) - {h};
  }

  lemma AddHandleRefines(st: State, n: CStr, offset: nat)
    requires Inv(st) && n in Names(st) && offset <= |Abs(st).files[n]|
    ensures var (s, fd) := AddToOpenFileTable(st, Names(st)[n], offset);
            Inv(s) && s.p == st.p && (Abs(s), fd) == AddHandle(st.p, Abs(st), n, offset)
  {
    hide RootOk, InodesOk, BlocksOk, ViewOk, AbsOf, Names, Contents, OpenFiles;
    ResourcesRunOut(st);
    var fd := FirstFree(st.handleBits);
    if fd != -1 {
      OpenEntry(st, st.handleBits[fd := TAKEN], fd, OpenFile(Names(st)[n], offset));
      SetHandleStep(st, AddToOpenFileTable(st, Names(st)[n], offset).0, fd, n, offset);
    }
  }

  lemma OpenExistingRefines(st: State, n: CStr, mode: Mode)
    requires Inv(st) && n in Names(st)
    requires mode.trunc && Abs(st).files[n] != [] ==>
               forall h | h in Abs(st).handles && Abs(st).handles[h].name == n :: Abs(st).handles[h].cursor == 0
    ensures OpenExisting(st, Names(st)[n], mode).Done?
    ensures var Done(s, offset) := OpenExisting(st, Names(st)[n], mode);
            var content := if mode.trunc then [] else Abs(st).files[n];
            Inv(s) && s.p == st.p && Names(s) == Names(st)
            && Abs(s) == Abs(st).(files := Abs(st).files[n := content])
            && offset == if mode.append then |content| else 0
  {
    hide RootOk, InodesOk, BlocksOk, ViewOk, AbsOf, Names, Contents, OpenFiles;
    NamedFile(st, n);
    var i := Names(st)[n];
    if mode.trunc && st.inodes[i].size > 0 {
      TruncateInode(st, i);
      ChangeFileStep(st, OpenExisting(st, i, mode).st, n, []);
    } else {
      assert Abs(st).files[n := Abs(st).files[n]] == Abs(st).files;
    }
  }

  lemma NewInode(st: State) returns (s: State, i: nat)
    requires Inv(st) && !InodesFull(st.p, Abs(st))
    ensures 0 < i < st.p.inodes && i !in Contents(st) && InodeCreate(st, T_FILE) == Done(s, i)
    ensures StorageOk(s) && IsFile(s, i) && s.p == st.p && s.inodes[0] == st.inodes[0]
    ensures ViewOf(s) == ViewOf(st).(contents := Contents(st)[i := []])
    ensures DirectoryFull(st.p, Abs(st)) <==> |Names(s)| == MaxDirEntries(st.p)
  {
    InodeCount(st);
    CreateInode(st);
    i := FirstFree(st.inodeBits);
    s := FreshInode(st, i);
    FreshInodeOk(st, i);
  }

  /** A new name gets a fresh empty inode. */
  lemma CreateFileSucceeds(st: State, n: CStr)
    requires Inv(st) && n !in Names(st) && ValidName(n)
    requires !InodesFull(st.p, Abs(st)) && !DirectoryFull(st.p, Abs(st))
    ensures CreateFile(st, st.inodes[0], n).Done?
    ensures var Done(s, i) := CreateFile(st, st.inodes[0], n);
            Inv(s) && s.p == st.p && i >= 0 && n in Names(s) && Names(s)[n] == i
            && Abs(s) == Abs(st).(files := Abs(st).files[n := []])
  {
    hide RootOk, InodesOk, BlocksOk, ViewOk, AbsOf, Names, Contents, OpenFiles;
    var s, i := NewInode(st);
    AddEntry(s, n, i);
    var t := AddDirEntry(s, s.inodes[0], n, i).st;
    InsertFileStep(st, t, n, i);
    assert CreateFile(st, st.inodes[0], n) == Done(t, i);
  }

  /** Giving a fresh inode back leaves the file system as it was. */
  lemma UndoInode(st: State, s: State, i: int)
    requires Inv(st) && i !in Contents(st) && StorageOk(s) && IsFile(s, i)
    requires ViewOf(s) == ViewOf(st).(contents := Contents(st)[i := []])
    ensures InodeDelete(s, i).Done?
    ensures var t := InodeDelete(s, i).st; Inv(t) && t.p == s.p && Abs(t) == Abs(st)
  {
    hide RootOk, InodesOk, BlocksOk, ViewOk, AbsOf, Names, Contents, OpenFiles, InodeDelete;
    DeleteInode(s, i);
    assert Contents(st)[i := []] - {i} == Contents(st);
    SameViewStep(st, InodeDelete(s, i).st);
  }

  /** A bad name or a full directory: the fresh inode is given back. */
  lemma CreateFileRollsBack(st: State, n: CStr)
    requires Inv(st) && n !in Names(st)
    requires !InodesFull(st.p, Abs(st)) && (!ValidName(n) || DirectoryFull(st.p, Abs(st)))
    ensures CreateFile(st, st.inodes[0], n).Done?
    ensures var Done(s, i) := CreateFile(st, st.inodes[0], n);
            Inv(s) && s.p == st.p && i == -1 && Abs(s) == Abs(st)
  {
    hide RootOk, InodesOk, BlocksOk, ViewOk, AbsOf, Names, Contents, OpenFiles;
    var s, i := NewInode(st);
    AddEntry(s, n, i);
    UndoInode(st, s, i);
    assert CreateFile(st, st.inodes[0], n) == Done(InodeDelete(s, i).st, -1);
  }

  lemma CreateFileRefines(st: State, n: CStr)
    requires Inv(st) && n !in Names(st)
    ensures CreateFile(st, st.inodes[0], n).Done?
    ensures var Done(s, i) := CreateFile(st, st.inodes[0], n);
            Inv(s) && s.p == st.p &&
            if ValidName(n) && !InodesFull(st.p, Abs(st)) && !DirectoryFull(st.p, Abs(st))
            then (i >= 0 && n in Names(s) && Names(s)[n] == i
                  && Abs(s) == Abs(st).(files := Abs(st).files[n := []]))
            else (i == -1 && Abs(s) == Abs(st))
  {
    hide RootOk, InodesOk, BlocksOk, ViewOk, AbsOf, Names, Contents, OpenFiles;
    if InodesFull(st.p, Abs(st)) {
      InodeCount(st);
      CreateInode(st);
    } else if ValidName(n) && !DirectoryFull(st.p, Abs(st)) {
      CreateFileSucceeds(st, n);
    } else {
      CreateFileRollsBack(st, n);
    }
  }

  // ---------------------------------------------------------------- operations

  lemma OpenRefines(st: State, path: Path, mode: Mode)
    requires Inv(st) && TruncAllowed(Abs(st), path, mode)
    ensures TfsOpen(st, path, mode).Done?
    ensures var Done(s, fd) := TfsOpen(st, path, mode);
            Inv(s) && s.p == st.p && (Abs(s), fd) == Open(st.p, Abs(st), path, mode)
  {
    hide RootOk, InodesOk, BlocksOk, ViewOk, AbsOf, Names, Contents, OpenFiles, FindInDir;
    if ValidPathname(path) {
      var n := BaseName(path);
      LookupRefines(st, path);
      if n in Names(st) {
        OpenExistingRefines(st, n, mode);
        var Done(s, offset) := OpenExisting(st, Names(st)[n], mode);
        AddHandleRefines(s, n, offset);
      } else if mode.creat {
        CreateFileRefines(st, n);
        var Done(s, i) := CreateFile(st, st.inodes[0], n);
        if i != -1 {
          AddHandleRefines(s, n, 0);
        }
      }
    }
  }

  lemma CloseRefines(st: State, fhandle: int)
    requires Inv(st)
    ensures TfsClose(st, fhandle).Done?
    ensures var Done(s, r) := TfsClose(st, fhandle);
            Inv(s) && s.p == st.p && (Abs(s), r) == Close(Abs(st), fhandle)
  {
    hide RootOk, InodesOk, BlocksOk, ViewOk, AbsOf, Names, Contents, OpenFiles;
    AbsOk(st);
    if IsOpen(st, fhandle) {
      var s := TfsClose(st, fhandle).st;
      CloseEntry(st, fhandle);
      DropHandleStep(st, s, fhandle);
    }
  }

  /** With at least one block, a block is no larger than the data region. */
  lemma BlockIsObject(st: State)
    requires st.p.blocks > 0
    ensures st.p.blockSize <= OBJECT_MAX
  {
  }

  /** What an open handle is, on both sides. */
  lemma OpenHandle(st: State, h: int)
    requires Inv(st) && IsOpen(st, h)
    ensures h in Abs(st).handles && RootOk(st) && st.p.blockSize <= OBJECT_MAX
    ensures var OpenFile(i, off) := st.handles[h];
            var Handle(n, cursor) := Abs(st).handles[h];
            IsFile(st, i) && n in Names(st) && Names(st)[n] == i && cursor == off
            && off <= st.inodes[i].size <= st.p.blockSize && InodeOk(st.p, st.inodes[i])
            && n in Abs(st).files && Abs(st).files[n] == Content(st.p, st.data, st.inodes[i])
  {
    BlockIsObject(st);
    assert h in OpenFiles(st);
    assert st.handles[h].inumber in Contents(st);
  }

  lemma WriteCountInBounds(blockSize: nat, offset: nat, toWrite: nat)
    requires offset <= blockSize <= OBJECT_MAX && toWrite <= OBJECT_MAX
    ensures WriteCount(blockSize, offset, toWrite) == Min(toWrite, blockSize - offset)
  {
  }

  /** How many bytes a write through open handle `h` stores, and whether it needs a block it cannot have. */
  ghost predicate WriteFits(st: State, h: int, n: nat) {
    IsOpen(st, h) && 0 <= st.handles[h].inumber < st.p.inodes && 0 < n && st.handles[h].offset + n <= st.p.blockSize &&
    !(st.inodes[st.handles[h].inumber].size == 0 && FirstFree(st.blockBits) == -1)
  }

  lemma WriteStores(st: State, h: int, buffer: seq<byte>, n: nat) returns (t: State)
    requires Inv(st) && n <= |buffer| && WriteFits(st, h, n)
    requires n == WriteCount(st.p.blockSize, st.handles[h].offset, |buffer|)
    ensures TfsWrite(st, h, buffer) == Done(t, n)
    ensures Inv(t) && t.p == st.p && HandleOk(Abs(st), h) && Abs(t) == StoreAt(Abs(st), h, buffer[..n])
  {
    hide Inv, Abs, Names, GivenBlock, WriteCount, Addr, StoreAt, Splice;
    OpenHandle(st, h);
    var s, b := AllocateForWrite(st, st.handles[h].inumber);
    t := StoreRefines(st, h, buffer[..n], s, b);
  }

  lemma WriteRefines(st: State, h: int, buffer: seq<byte>)
    requires Inv(st) && BufferFits(buffer)
    ensures FsOk(st.p, Abs(st))
    ensures TfsWrite(st, h, buffer).Done?
    ensures var Done(s, r) := TfsWrite(st, h, buffer);
            Inv(s) && s.p == st.p && (Abs(s), r) == Write(st.p, Abs(st), h, buffer)
  {
    hide Inv, StorageOk, Abs, Names, WriteCount, Addr, StoreAt, Store, Content, FsOk, BlocksFull, FirstFree, InodeOk;
    AbsOk(st);
    if IsOpen(st, h) {
      OpenHandle(st, h);
      var off := st.handles[h].offset;
      WriteCountInBounds(st.p.blockSize, off, |buffer|);
      var n := Min(|buffer|, st.p.blockSize - off);
      ResourcesRunOut(st);
      if WriteFits(st, h, n) {
        var t := WriteStores(st, h, buffer, n);
      }
    }
  }

  /** The block a write goes to: the file's own, or the first free one. */
  ghost predicate GivenBlock(st: State, i: int, s: State, b: nat) {
    s.p == st.p && s.inodes == st.inodes && s.inodeBits == st.inodeBits && s.data == st.data &&
    s.handleBits == st.handleBits && s.handles == st.handles &&
    RootOk(s) && InodesOk(s) && Injective(Owners(s)) && BlockFor(s, i, b) &&
    RootOk(st) && InodesOk(st) && Names(s) == Names(st) && Contents(s) == Contents(st) && Owners(s) == Owners(st) &&
    OpenFiles(s) == OpenFiles(st) && Taken(s.blockBits) == Taken(st.blockBits) + {b}
  }

  lemma BlockBitsFrame(st: State, blockBits: seq<Alloc>)
    requires RootOk(st) && InodesOk(st) && |blockBits| == st.p.blocks
    ensures var s := st.(blockBits := blockBits);
            RootOk(s) && InodesOk(s) && Names(s) == Names(st) && Contents(s) == Contents(st)
            && Owners(s) == Owners(st) && OpenFiles(s) == OpenFiles(st)
  {
  }

  lemma AllocateForWrite(st: State, i: int) returns (s: State, b: nat)
    requires Inv(st) && IsFile(st, i)
    requires st.inodes[i].size == 0 ==> FirstFree(st.blockBits) != -1
    ensures (s, b) == if st.inodes[i].size == 0 then DataBlockAlloc(st) else (st, st.inodes[i].block)
    ensures GivenBlock(st, i, s, b) && ValidBlock(s, b) && s.p == st.p
  {
    if st.inodes[i].size == 0 {
      FirstFreeSpec(st.blockBits);
      s, b := DataBlockAlloc(st).0, DataBlockAlloc(st).1;
      BlockBitsFrame(st, s.blockBits);
      assert b !in Taken(st.blockBits);
      TakenUpdate(st.blockBits, b, TAKEN);
    } else {
      s, b := st, st.inodes[i].block;
      assert Owners(st)[i] == b;
    }
  }

  lemma StoreBlocks(st: State, s: State, i: int, b: nat, off: nat, w: seq<byte>)
    requires StorageOk(st) && IsFile(st, i) && GivenBlock(st, i, s, b) && Storable(s, i, b, off, w)
    ensures BlocksOk(Store(s, i, b, off, w))
  {
    StoreOwners(s, i, b, off, w);
    if st.inodes[i].size == 0 {
      InsertValue(Owners(st), i, b);
    } else {
      assert Owners(st)[i] == b;
      assert Owners(st)[i := b] == Owners(st);
    }
  }

  lemma StoreView(st: State, i: nat, w: seq<byte>, s: State, b: nat, off: nat)
    requires StorageOk(st) && IsFile(st, i) && GivenBlock(st, i, s, b) && Storable(s, i, b, off, w)
    ensures StorageOk(Store(s, i, b, off, w))
    ensures ViewOf(Store(s, i, b, off, w))
         == ViewOf(st).(contents := Contents(st)[i := Overwrite(Contents(st)[i], off, w)])
  {
    StoreContents(s, i, b, off, w);
    StoreRoot(s, i, b, off, w);
    StoreBlocks(st, s, i, b, off, w);
  }

  lemma StoreFileStep(st: State, h: int, w: seq<byte>, u: State)
    requires Inv(st) && IsOpen(st, h) && st.handles[h].inumber in Contents(st)
    requires st.handles[h].offset <= |Contents(st)[st.handles[h].inumber]|
    requires StorageOk(u)
    requires ViewOf(u) == (var OpenFile(i, off) := st.handles[h];
                           ViewOf(st).(contents := Contents(st)[i := Overwrite(Contents(st)[i], off, w)]))
    ensures HandleOk(Abs(st), h)
    ensures var Handle(n, cursor) := Abs(st).handles[h];
            Inv(u) && Abs(u) == Abs(st).(files := Abs(st).files[n := Overwrite(Abs(st).files[n], cursor, w)])
  {
    OpenHandle(st, h);
    var n := Abs(st).handles[h].name;
    NamedFile(st, n);
    AbsOk(st);
    ChangeFileStep(st, u, n, Overwrite(Abs(st).files[n], st.handles[h].offset, w));
  }

  /** Moving the cursor of an open handle. */
  lemma MoveCursor(st: State, h: int, n: CStr, end: nat)
    requires Inv(st) && IsOpen(st, h) && n in Names(st) && end <= |Abs(st).files[n]|
    ensures var t := st.(handles := st.handles[h := OpenFile(Names(st)[n], end)]);
            Inv(t) && Abs(t) == Abs(st).(handles := Abs(st).handles[h := Handle(n, end)])
  {
    hide RootOk, InodesOk, BlocksOk, ViewOk, AbsOf, Names, Contents, OpenFiles, ViewOf, Addr;
    var e := OpenFile(Names(st)[n], end);
    var t := st.(handles := st.handles[h := e]);
    OpenEntry(st, st.handleBits, h, e);
    SetHandleStep(st, t, h, n, end);
  }

  /** The branch of `tfs_write` that stores bytes. */
  lemma StoreRefines(st: State, h: int, w: seq<byte>, s: State, b: nat) returns (t: State)
    requires Inv(st) && IsOpen(st, h) && GivenBlock(st, st.handles[h].inumber, s, b)
    requires w != [] && st.handles[h].offset + |w| <= st.p.blockSize
    ensures Addr(s.p, b) + st.handles[h].offset + |w| <= |s.data|
    ensures var u := Store(s, st.handles[h].inumber, b, st.handles[h].offset, w);
            t == u.(handles := u.handles[h := OpenFile(st.handles[h].inumber, st.handles[h].offset + |w|)])
    ensures Inv(t) && t.p == st.p && HandleOk(Abs(st), h) && Abs(t) == StoreAt(Abs(st), h, w)
  {
    hide Inv, StorageOk, GivenBlock, Abs, Names;
    var u, n := StoreFile(st, h, w, s, b);
    var OpenFile(i, off) := st.handles[h];
    t := u.(handles := u.handles[h := OpenFile(i, off + |w|)]);
    MoveCursor(u, h, n, off + |w|);
  }

  lemma StoreFile(st: State, h: int, w: seq<byte>, s: State, b: nat) returns (u: State, n: CStr)
    requires Inv(st) && IsOpen(st, h) && GivenBlock(st, st.handles[h].inumber, s, b)
    requires w != [] && st.handles[h].offset + |w| <= st.p.blockSize
    ensures Addr(s.p, b) + st.handles[h].offset + |w| <= |s.data|
    ensures u == Store(s, st.handles[h].inumber, b, st.handles[h].offset, w) && u.p == st.p
    ensures Inv(u) && HandleOk(Abs(st), h) && Abs(st).handles[h] == Handle(n, st.handles[h].offset)
    ensures IsOpen(u, h) && n in Names(u) && Names(u)[n] == st.handles[h].inumber
    ensures Abs(u) == Abs(st).(files := Abs(st).files[n := Overwrite(Abs(st).files[n], st.handles[h].offset, w)])
  {
    OpenHandle(st, h);
    var OpenFile(i, off) := st.handles[h];
    StoreInBounds(s, b, off, w);
    StoreView(st, i, w, s, b, off);
    u := Store(s, i, b, off, w);
    StoreFileStep(st, h, w, u);
    n := Abs(st).handles[h].name;
  }

  lemma ReadCountInBounds(size: nat, offset: nat, len: nat)
    requires offset <= size <= OBJECT_MAX
    ensures ReadCount(size, offset, len) == Min(size - offset, len)
  {
  }

  /** A stretch of a file's contents, in memory. */
  lemma ContentSlice(p: Params, data: seq<byte>, inode: Inode, lo: nat, hi: nat)
    requires InodeOk(p, inode) && |data| == Addr(p, p.blocks) && lo < hi <= inode.size
    ensures Addr(p, inode.block) + hi <= |data|
    ensures Content(p, data, inode)[lo..hi] == data[Addr(p, inode.block) + lo..Addr(p, inode.block) + hi]
  {
    BlocksAreDisjoint(p, inode.block, p.blocks);
    var at := Addr(p, inode.block);
    SliceOfSlice(data, at, at + inode.size, lo, hi);
  }

  lemma ReadRefines(st: State, h: int, len: nat)
    requires Inv(st)
    ensures FsOk(st.p, Abs(st))
    ensures TfsRead(st, h, len).Done?
    ensures var Done(s, r) := TfsRead(st, h, len);
            Inv(s) && s.p == st.p && (Abs(s), r) == Read(st.p, Abs(st), h, len)
  {
    hide Inv, StorageOk, Abs, Names, ReadCount, Addr, Content;
    AbsOk(st);
    if IsOpen(st, h) {
      OpenHandle(st, h);
      var (i, off) := (st.handles[h].inumber, st.handles[h].offset);
      var n := Min(st.inodes[i].size - off, len);
      ReadCountInBounds(st.inodes[i].size, off, len);
      if n == 0 {
        assert Abs(st).handles[h := Abs(st).handles[h]] == Abs(st).handles;
        assert Content(st.p, st.data, st.inodes[i])[off..off + n] == [];
      } else {
        ContentSlice(st.p, st.data, st.inodes[i], off, off + n);
        MoveCursor(st, h, Abs(st).handles[h].name, off + n);
      }
    }
  }

  lemma UnlinkRefines(st: State, path: Path)
    requires Inv(st) && UnlinkAllowed(Abs(st), path)
    ensures TfsUnlink(st, path).Done?
    ensures var Done(s, r) := TfsUnlink(st, path);
            Inv(s) && s.p == st.p && (Abs(s), r) == Unlink(Abs(st), path)
  {
    hide RootOk, InodesOk, BlocksOk, ViewOk, AbsOf, Names, Contents, OpenFiles, FindInDir;
    if ValidPathname(path) {
      var n := BaseName(path);
      LookupRefines(st, path);
      if n in Names(st) {
        DeleteInode(st, Names(st)[n]);
        ClearEntry(InodeDelete(st, Names(st)[n]).st, n);
        RemoveFileStep(st, TfsUnlink(st, path).st, n);
      }
    }
  }

  // ---------------------------------------------------------------- initialisation

  /** The bitmaps just after a successful `tfs_init`: the root's inode and its block. */
  predicate OnlyRootTaken(st: State) {
    st.inodeBits == seq(st.p.inodes, i => if i == 0 then TAKEN else FREE) &&
    st.blockBits == seq(st.p.blocks, b => if b == 0 then TAKEN else FREE) &&
    st.handleBits == seq(st.p.handles, _ => FREE)
  }

  predicate NothingTaken(st: State) {
    st.inodeBits == seq(st.p.inodes, _ => FREE) && st.blockBits == seq(st.p.blocks, _ => FREE) &&
    st.handleBits == seq(st.p.handles, _ => FREE)
  }

  /** `tfs_init` succeeds exactly when there is room for the root, and then the file system is empty, whatever `malloc`
      left in the tables; otherwise nothing stays allocated. */
  lemma InitRefines(raw: State)
    ensures TfsInit(raw).Done?
    ensures TfsInit(raw).ret == if raw.p.inodes > 0 && raw.p.blocks > 0 then 0 else -1
    ensures TfsInit(raw).ret == -1 ==> NothingTaken(TfsInit(raw).st)
    ensures TfsInit(raw).ret == 0 ==>
              (var st := TfsInit(raw).st; Inv(st) && st.p == raw.p && Abs(st) == EMPTY_FS && OnlyRootTaken(st))
  {
    if raw.p.inodes > 0 && raw.p.blocks > 0 {
      var st := RootState(raw);
      RootStateOk(raw, st);
    }
  }

  lemma RootState(raw: State) returns (st: State)
    requires raw.p.inodes > 0 && raw.p.blocks > 0
    ensures TfsInit(raw) == Done(st, 0) && st.p == raw.p && OnlyRootTaken(st)
    ensures st.inodes == raw.inodes[0 := Inode(T_DIRECTORY, raw.p.blockSize, 0)]
    ensures ENTRY_SIZE * MaxDirEntries(raw.p) <= |raw.data| && st.data == LabelEmpty(raw.data, 0, MaxDirEntries(raw.p))
  {
    BlocksAreDisjoint(raw.p, 0, raw.p.blocks);
    st := TfsInit(raw).st;
    assert FirstFree(StateInit(raw).inodeBits) == 0 && FirstFree(StateInit(raw).blockBits) == 0;
  }

  lemma RootStateOk(raw: State, st: State)
    requires st.p == raw.p && raw.p.inodes > 0 && raw.p.blocks > 0 && OnlyRootTaken(st)
    requires st.inodes == raw.inodes[0 := Inode(T_DIRECTORY, raw.p.blockSize, 0)]
    requires ENTRY_SIZE * MaxDirEntries(raw.p) <= |raw.data| && st.data == LabelEmpty(raw.data, 0, MaxDirEntries(raw.p))
    ensures Inv(st) && Abs(st) == EMPTY_FS
  {
    forall i | 0 <= i < MaxDirEntries(st.p)
      ensures !Live(Dir(st, 0)[i])
    {
      LabelEmptySlot(raw.data, 0, MaxDirEntries(raw.p), i);
    }
    EmptyDirectory(Dir(st, 0));
    assert forall i :: !IsFile(st, i);
    assert Owners(st) == map[];
    assert Taken(st.blockBits) == {0};
    assert Names(st) == map[] && Contents(st) == map[] && OpenFiles(st) == map[];
  }
}
