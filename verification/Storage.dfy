/**
 * The invariant of the inode table, the block bitmap and the root block, and what each primitive of
 * fs/state.c does to the three things they stand for: the directory map, the contents of every inode
 * and the open-file table.
 */
module Storage {
  import opened Bytes
  import opened Bitmap
  import opened Directory
  import opened FsState
  import opened Operations
  import opened AbstractFs

  ghost predicate IsFile(st: State, i: int) { 0 < i < st.p.inodes && st.inodeBits[i] == TAKEN }

  predicate InodeOk(p: Params, inode: Inode) {
    inode.kind == T_FILE && inode.size <= p.blockSize && (inode.size > 0 ==> 0 < inode.block < p.blocks)
  }

  /** The bytes an inode stands for. */
  function Content(p: Params, data: seq<byte>, inode: Inode): (c: seq<byte>)
    requires InodeOk(p, inode) && |data| == Addr(p, p.blocks)
    ensures |c| == inode.size
  {
    if inode.size == 0 then []
    else
      BlocksAreDisjoint(p, inode.block, p.blocks);
      data[Addr(p, inode.block)..Addr(p, inode.block) + inode.size]
  }

  ghost function Owners(st: State): map<int, int> {
    map i | 0 <= i < st.p.inodes && IsFile(st, i) && st.inodes[i].size > 0 :: st.inodes[i].block
  }

  /** The root inode and its block are TAKEN and the block holds a well-formed directory. */
  ghost predicate RootOk(st: State) {
    st.p.inodes > 0 && st.p.blocks > 0 &&
    st.inodeBits[0] == TAKEN && st.inodes[0] == Inode(T_DIRECTORY, st.p.blockSize, 0) &&
    DirOk(Dir(st, 0))
  }

  ghost predicate InodesOk(st: State) {
    forall i | IsFile(st, i) :: InodeOk(st.p, st.inodes[i])
  }

  /** The TAKEN blocks are the root's and those owned by non-empty files, each by one file. */
  ghost predicate BlocksOk(st: State) {
    Injective(Owners(st)) && Taken(st.blockBits) == {0} + Owners(st).Values
  }

  ghost predicate StorageOk(st: State) {
    RootOk(st) && InodesOk(st) && BlocksOk(st)
  }

  // ---------------------------------------------------------------- the three views

  ghost function Names(st: State): map<CStr, int>
    requires RootOk(st)
  {
    DirMap(Dir(st, 0))
  }

  ghost function Contents(st: State): map<int, seq<byte>>
    requires InodesOk(st)
  {
    map i | 0 <= i < st.p.inodes && IsFile(st, i) :: Content(st.p, st.data, st.inodes[i])
  }

  ghost function OpenFiles(st: State): map<int, OpenFile> {
    map h | 0 <= h < st.p.handles && IsOpen(st, h) :: st.handles[h]
  }

  // ---------------------------------------------------------------- inodes

  lemma TakenInodes(st: State)
    requires StorageOk(st)
    ensures Taken(st.inodeBits) == {0} + Contents(st).Keys
    ensures |Taken(st.inodeBits)| == 1 + |Contents(st)|
  {
    assert Taken(st.inodeBits) == {0} + Contents(st).Keys;
  }

  lemma TakenBlocks(st: State)
    requires StorageOk(st)
    ensures |Taken(st.blockBits)| == 1 + |Owners(st)|
  {
    InjectiveSize(Owners(st));
    assert 0 !in Owners(st).Values;
  }

  /** The directory depends on the root inode and the data region only. */
  lemma RootFrame(st: State, s: State)
    requires RootOk(st) && s.p == st.p && s.data == st.data
    requires s.inodeBits[0] == TAKEN && s.inodes[0] == st.inodes[0]
    ensures RootOk(s) && Names(s) == Names(st)
  {
  }

  function FreshInode(st: State, i: nat): State
    requires i < st.p.inodes
  {
    SetInode(st.(inodeBits := st.inodeBits[i := TAKEN]), i, Inode(T_FILE, 0, -1))
  }

  lemma FreshInodeOk(st: State, i: nat)
    requires StorageOk(st) && i < st.p.inodes && st.inodeBits[i] == FREE
    ensures StorageOk(FreshInode(st, i))
    ensures Names(FreshInode(st, i)) == Names(st)
    ensures Contents(FreshInode(st, i)) == Contents(st)[i := []]
    ensures OpenFiles(FreshInode(st, i)) == OpenFiles(st)
  {
    hide DirOk, Names, BlocksOk, Content;
    var s := FreshInode(st, i);
    assert forall k :: IsFile(s, k) <==> IsFile(st, k) || k == i;
    assert forall k | IsFile(st, k) :: s.inodes[k] == st.inodes[k];
    assert Owners(s) == Owners(st);
    assert BlocksOk(s) by { SameBlocks(st, s); }
    RootFrame(st, s);
    OpenFilesFrame(st, s);
  }

  lemma SameBlocks(st: State, s: State)
    requires BlocksOk(st) && s.blockBits == st.blockBits && Owners(s) == Owners(st)
    ensures BlocksOk(s)
  {
  }

  /** A new file inode is fresh and empty; there is none exactly when every inode is in use. */
  lemma CreateInode(st: State)
    requires StorageOk(st)
    ensures var i := FirstFree(st.inodeBits);
            if |Contents(st)| + 1 == st.p.inodes then InodeCreate(st, T_FILE) == Done(st, -1)
            else (0 < i < st.p.inodes && i !in Contents(st) && st.inodeBits[i] == FREE
                  && InodeCreate(st, T_FILE) == Done(FreshInode(st, i), i))
    ensures |Contents(st)| + 1 <= st.p.inodes
  {
    TakenInodes(st);
    FirstFreeSpec(st.inodeBits);
  }

  /** Deleting a file inode frees it and its block, and nothing else changes. */
  lemma DeleteInode(st: State, i: int)
    requires StorageOk(st) && IsFile(st, i)
    ensures InodeDelete(st, i).Done?
    ensures var s := InodeDelete(st, i).st;
            StorageOk(s) && s.p == st.p && Names(s) == Names(st) && Contents(s) == Contents(st) - {i}
            && OpenFiles(s) == OpenFiles(st) && s.inodes == st.inodes && s.data == st.data
            && s.handleBits == st.handleBits
  {
    hide DirOk, InodesOk, BlocksOk, Names, Contents, Owners, OpenFiles;
    assert InodeOk(st.p, st.inodes[i]) by { FileInode(st, i); }
    var s := InodeDelete(st, i).st;
    assert s.inodes == st.inodes && s.inodeBits == st.inodeBits[i := FREE];
    RootFrame(st, s);
    ForgetFile(st, s, i);
    FreeOwned(st, s, i);
    OpenFilesFrame(st, s);
  }

  lemma FileInode(st: State, i: int)
    requires InodesOk(st) && IsFile(st, i)
    ensures InodeOk(st.p, st.inodes[i])
  {
  }

  /** Freeing the inode of file `i` takes it out of the contents and the block accounting. */
  lemma ForgetFile(st: State, s: State, i: int)
    requires InodesOk(st) && IsFile(st, i)
    requires s.p == st.p && s.data == st.data && s.inodes == st.inodes && s.inodeBits == st.inodeBits[i := FREE]
    ensures InodesOk(s) && Contents(s) == Contents(st) - {i} && Owners(s) == Owners(st) - {i}
  {
    hide Content;
    assert forall k :: IsFile(s, k) <==> IsFile(st, k) && k != i;
  }

  lemma OpenFilesFrame(st: State, s: State)
    requires s.p == st.p && s.handleBits == st.handleBits && s.handles == st.handles
    ensures OpenFiles(s) == OpenFiles(st)
  {
    assert forall h :: IsOpen(s, h) <==> IsOpen(st, h);
  }

  /** Releasing the block of file `i`, whose inode stops owning it, keeps the block accounting. */
  lemma FreeOwned(st: State, s: State, i: int)
    requires BlocksOk(st) && InodesOk(st) && IsFile(st, i) && Owners(s) == Owners(st) - {i}
    requires s.p == st.p
    requires s.blockBits == if st.inodes[i].size > 0 then st.blockBits[st.inodes[i].block := FREE] else st.blockBits
    ensures BlocksOk(s)
  {
    if st.inodes[i].size > 0 {
      RemoveValue(Owners(st), i);
      TakenUpdate(st.blockBits, st.inodes[i].block, FREE);
    } else {
      assert Owners(st) - {i} == Owners(st);
    }
  }

  /** Truncating a non-empty file frees its block and empties it. */
  lemma TruncateInode(st: State, i: int)
    requires StorageOk(st) && IsFile(st, i) && st.inodes[i].size > 0
    ensures DataBlockFree(st, st.inodes[i].block).Done?
    ensures var s := SetInode(DataBlockFree(st, st.inodes[i].block).st, i, st.inodes[i].(size := 0));
            StorageOk(s) && s.p == st.p && Names(s) == Names(st) && Contents(s) == Contents(st)[i := []]
            && OpenFiles(s) == OpenFiles(st) && s.handleBits == st.handleBits
  {
    hide DirOk, Names, BlocksOk, Content;
    var s := SetInode(DataBlockFree(st, st.inodes[i].block).st, i, st.inodes[i].(size := 0));
    assert forall k :: IsFile(s, k) <==> IsFile(st, k);
    RootFrame(st, s);
    assert Owners(s) == Owners(st) - {i};
    FreeOwned(st, s, i);
  }

  // ---------------------------------------------------------------- the data region

  /** A copy into block `b` leaves the contents of every file with another block alone. */
  lemma ContentFrame(p: Params, data: seq<byte>, inode: Inode, b: nat, off: nat, w: seq<byte>)
    requires InodeOk(p, inode) && |data| == Addr(p, p.blocks) && b < p.blocks && off + |w| <= p.blockSize
    requires inode.size > 0 ==> inode.block != b
    ensures Addr(p, b) + off + |w| <= |data|
    ensures Content(p, Splice(data, Addr(p, b) + off, w), inode) == Content(p, data, inode)
  {
    BlocksAreDisjoint(p, b, p.blocks);
    if inode.size > 0 {
      BlocksAreDisjoint(p, inode.block, p.blocks);
      if inode.block < b { BlocksAreDisjoint(p, inode.block, b); } else { BlocksAreDisjoint(p, b, inode.block); }
      SpliceOutside(data, Addr(p, b) + off, w, Addr(p, inode.block), Addr(p, inode.block) + inode.size);
    }
  }

  lemma OverwriteAt(content: seq<byte>, at: nat, w: seq<byte>, k: nat)
    requires at <= |content| && k < |Overwrite(content, at, w)|
    ensures Overwrite(content, at, w)[k] == if at <= k < at + |w| then w[k - at] else content[k]
  {
  }

  /** A copy into a file's own block overwrites exactly that stretch of its contents. */
  lemma ContentWrite(p: Params, data: seq<byte>, inode: Inode, b: nat, off: nat, w: seq<byte>)
    requires InodeOk(p, inode) && |data| == Addr(p, p.blocks) && 0 < b < p.blocks
    requires w != [] && off + |w| <= p.blockSize && off <= inode.size
    requires inode.size > 0 ==> inode.block == b
    ensures Addr(p, b) + off + |w| <= |data|
    ensures var end := off + |w|;
            var inode' := inode.(block := b, size := if end > inode.size then end else inode.size);
            InodeOk(p, inode') &&
            Content(p, Splice(data, Addr(p, b) + off, w), inode') == Overwrite(Content(p, data, inode), off, w)
  {
    hide Splice, Overwrite;
    BlocksAreDisjoint(p, b, p.blocks);
    var at := Addr(p, b);
    var end := off + |w|;
    var inode' := inode.(block := b, size := if end > inode.size then end else inode.size);
    var after := Splice(data, at + off, w);
    var old' := Content(p, data, inode);
    var new' := Content(p, after, inode');
    forall k | 0 <= k < |new'|
      ensures new'[k] == Overwrite(old', off, w)[k]
    {
      SpliceAt(data, at + off, w, at + k);
      OverwriteAt(old', off, w, k);
    }
  }

  // ---------------------------------------------------------------- the directory block

  /** Writing a record of the root block changes that record and no file. */
  lemma PutRootEntry(st: State, i: nat, slot: Slot)
    requires StorageOk(st) && i < MaxDirEntries(st.p)
    requires |slot.name| == MAX_FILE_NAME && -1 <= slot.inum <= INT_MAX && DirOk(Dir(st, 0)[i := slot])
    ensures var s := PutEntry(st, 0, i, slot);
            StorageOk(s) && Dir(s, 0) == Dir(st, 0)[i := slot] && Contents(s) == Contents(st)
            && OpenFiles(s) == OpenFiles(st)
  {
    hide DirOk, Content, Splice, EncodeSlot;
    var s := PutEntry(st, 0, i, slot);
    BlocksAreDisjoint(st.p, 0, st.p.blocks);
    PutSlot(st.data, 0, MaxDirEntries(st.p), i, slot);
    assert Addr(st.p, 0) == 0;
    assert Owners(s) == Owners(st);
    forall k | IsFile(s, k)
      ensures Content(s.p, s.data, s.inodes[k]) == Content(st.p, st.data, st.inodes[k])
    {
      ContentFrame(st.p, st.data, st.inodes[k], 0, ENTRY_SIZE * i, EncodeSlot(slot));
    }
  }

  /** `add_dir_entry` inserts into the directory map, or refuses a bad name or a full directory. */
  lemma AddEntry(st: State, n: CStr, inum: int)
    requires StorageOk(st) && n !in Names(st) && 0 <= inum <= INT_MAX
    ensures AddDirEntry(st, st.inodes[0], n, inum).Done?
    ensures var (s, r) := (AddDirEntry(st, st.inodes[0], n, inum).st, AddDirEntry(st, st.inodes[0], n, inum).ret);
            if !ValidName(n) || |Names(st)| == MaxDirEntries(st.p) then (r == -1 && s == st)
            else (r == 0 && StorageOk(s) && s.p == st.p && Names(s) == Names(st)[n := inum]
                  && Contents(s) == Contents(st) && OpenFiles(s) == OpenFiles(st)
                  && s.inodes == st.inodes && s.handleBits == st.handleBits && s.inodeBits == st.inodeBits)
  {
    FullIffMapFull(Dir(st, 0));
    EmptyFromSpec(Dir(st, 0), 0);
    var i := EmptyFrom(Dir(st, 0), 0);
    if ValidName(n) && i != -1 {
      FillRefinesInsert(Dir(st, 0), i, n, inum);
      PutRootEntry(st, i, Slot(Pad(n, MAX_FILE_NAME), inum));
    }
  }

  /** The clearing scan stops at the slot that the lookup found. */
  lemma ClearFindsSlot(st: State, n: CStr) returns (i: nat)
    requires RootOk(st) && n in Names(st)
    ensures i < MaxDirEntries(st.p) && Live(Dir(st, 0)[i]) && NameOf(Dir(st, 0)[i]) == n
    ensures 0 + ENTRY_SIZE * MaxDirEntries(st.p) <= |st.data|
    ensures MatchFrom(st.data, 0, MaxDirEntries(st.p), n, 0) == i
  {
    hide DirOk, DirMap, NameOf, MatchFrom;
    BlocksAreDisjoint(st.p, 0, st.p.blocks);
    i := SlotOfName(Dir(st, 0), n);
    assert Dir(st, 0) == Slots(st.data, 0, MaxDirEntries(st.p));
    MatchHits(st.data, 0, MaxDirEntries(st.p), n, 0, i);
  }

  /** `clear_dir_entry` after a successful lookup removes that very name. */
  lemma ClearEntry(st: State, n: CStr)
    requires StorageOk(st) && n in Names(st)
    ensures ClearDirEntry(st, st.inodes[0], n).Done? && ClearDirEntry(st, st.inodes[0], n).ret == 0
    ensures var s := ClearDirEntry(st, st.inodes[0], n).st;
            StorageOk(s) && s.p == st.p && Names(s) == Names(st) - {n} && Contents(s) == Contents(st)
            && OpenFiles(s) == OpenFiles(st) && s.handleBits == st.handleBits && s.inodeBits == st.inodeBits
  {
    hide DirOk, InodesOk, BlocksOk, DirMap, MatchFrom, Contents, OpenFiles;
    var i := ClearFindsSlot(st, n);
    ClearRefinesRemove(Dir(st, 0), i);
    PutRootEntry(st, i, Slot(Zeros(MAX_FILE_NAME), -1));
    assert ClearDirEntry(st, st.inodes[0], n) == Done(PutEntry(st, 0, i, Slot(Zeros(MAX_FILE_NAME), -1)), 0);
  }

  // ---------------------------------------------------------------- writing

  /** Block `b` belongs to inode `i`, or to nobody while `i` is still empty. */
  ghost predicate BlockFor(st: State, i: int, b: nat) {
    IsFile(st, i) && 0 < b < st.p.blocks &&
    if st.inodes[i].size > 0 then st.inodes[i].block == b else b !in Owners(st).Values
  }

  /** A write into block `b` of inode `i` leaves the contents of every other file alone. */
  lemma OtherFilesKept(st: State, i: int, b: nat, off: nat, w: seq<byte>)
    requires InodesOk(st) && Injective(Owners(st)) && BlockFor(st, i, b) && off + |w| <= st.p.blockSize
    ensures Addr(st.p, b) + off + |w| <= |st.data|
    ensures forall k | IsFile(st, k) && k != i ::
              Content(st.p, Splice(st.data, Addr(st.p, b) + off, w), st.inodes[k])
              == Content(st.p, st.data, st.inodes[k])
  {
    BlocksAreDisjoint(st.p, b, st.p.blocks);
    forall k | IsFile(st, k) && k != i
      ensures Content(st.p, Splice(st.data, Addr(st.p, b) + off, w), st.inodes[k])
           == Content(st.p, st.data, st.inodes[k])
    {
      if st.inodes[k].size > 0 {
        assert Owners(st)[k] == st.inodes[k].block;
        assert st.inodes[i].size > 0 ==> Owners(st)[i] == b;
      }
      ContentFrame(st.p, st.data, st.inodes[k], b, off, w);
    }
  }

  /** A write into any other block leaves the root block's records alone. */
  lemma RootRecordsKept(st: State, b: nat, off: nat, w: seq<byte>)
    requires 0 < b < st.p.blocks && off + |w| <= st.p.blockSize
    ensures Addr(st.p, b) + off + |w| <= |st.data|
    ensures Dir(st.(data := Splice(st.data, Addr(st.p, b) + off, w)), 0) == Dir(st, 0)
  {
    BlocksAreDisjoint(st.p, b, st.p.blocks);
    BlocksAreDisjoint(st.p, 0, b);
    SlotsFrame(st.data, Addr(st.p, b) + off, w, 0, MaxDirEntries(st.p));
  }

  ghost predicate Storable(st: State, i: int, b: nat, off: nat, w: seq<byte>) {
    RootOk(st) && InodesOk(st) && Injective(Owners(st)) && BlockFor(st, i, b)
    && w != [] && off + |w| <= st.p.blockSize && off <= st.inodes[i].size
    && Addr(st.p, b) + off + |w| <= |st.data|
  }

  lemma StoreInBounds(st: State, b: nat, off: nat, w: seq<byte>)
    requires b < st.p.blocks && off + |w| <= st.p.blockSize
    ensures Addr(st.p, b) + off + |w| <= |st.data|
  {
    BlocksAreDisjoint(st.p, b, st.p.blocks);
  }

  /** A write overwrites a stretch of one file's contents and leaves those of all other files alone. */
  lemma StoreContents(st: State, i: nat, b: nat, off: nat, w: seq<byte>)
    requires Storable(st, i, b, off, w)
    ensures InodesOk(Store(st, i, b, off, w))
    ensures Contents(Store(st, i, b, off, w)) == Contents(st)[i := Overwrite(Contents(st)[i], off, w)]
  {
    hide Store, RootOk, Injective, InodeOk, Content, Overwrite;
    var s := Store(st, i, b, off, w);
    StoreFiles(st, i, b, off, w);
    forall k | IsFile(st, k)
      ensures InodeOk(s.p, s.inodes[k])
      ensures Content(s.p, s.data, s.inodes[k])
           == if k == i then Overwrite(Contents(st)[i], off, w) else Contents(st)[k]
    {
      StoreContent(st, i, b, off, w, k);
    }
  }

  lemma StoreFiles(st: State, i: nat, b: nat, off: nat, w: seq<byte>)
    requires Storable(st, i, b, off, w)
    ensures Store(st, i, b, off, w).p == st.p && InodesOk(st) && i in Contents(st) && off <= |Contents(st)[i]|
    ensures forall k :: IsFile(Store(st, i, b, off, w), k) <==> IsFile(st, k)
  {
    hide RootOk, Injective, Splice;
  }

  /** What one file holds after a write to file `i`. */
  lemma StoreContent(st: State, i: nat, b: nat, off: nat, w: seq<byte>, k: int)
    requires Storable(st, i, b, off, w) && IsFile(st, k)
    ensures InodesOk(st) && off <= |Contents(st)[i]|
    ensures var s := Store(st, i, b, off, w);
            s.p == st.p && InodeOk(s.p, s.inodes[k])
            && Content(s.p, s.data, s.inodes[k])
               == if k == i then Overwrite(Contents(st)[i], off, w) else Contents(st)[k]
  {
    hide RootOk, Injective, Content, Splice, Overwrite;
    if k == i {
      ContentWrite(st.p, st.data, st.inodes[i], b, off, w);
    } else {
      OtherFilesKept(st, i, b, off, w);
    }
  }

  lemma StoreOwners(st: State, i: nat, b: nat, off: nat, w: seq<byte>)
    requires Storable(st, i, b, off, w)
    ensures Owners(Store(st, i, b, off, w)) == Owners(st)[i := b]
  {
  }

  lemma StoreRoot(st: State, i: nat, b: nat, off: nat, w: seq<byte>)
    requires Storable(st, i, b, off, w)
    ensures RootOk(Store(st, i, b, off, w))
    ensures Names(Store(st, i, b, off, w)) == Names(st)
    ensures OpenFiles(Store(st, i, b, off, w)) == OpenFiles(st)
  {
    RootRecordsKept(st, b, off, w);
    assert Dir(Store(st, i, b, off, w), 0) == Dir(st, 0);
  }
}
