/**
 * TecnicoFS as the program it is: fixed tables that loops scan and update in place. Every method is proved equal
 * to the step of the same name on the tables' values; the operations are then the client's operations.
 * ALWAYS_ASSERT conditions and array bounds are the `Done?` part of each precondition.
 */
module FileSystem {
  import opened Bytes
  import opened Bitmap
  import opened Directory
  import opened FsState
  import opened Operations
  import Client = AbstractFs
  import opened Refinement

  /** The three allocation loops: the first FREE entry becomes TAKEN. */
  method TakeFirstFree(bits: array<Alloc>) returns (r: int)
    modifies bits
    ensures r == FirstFree(old(bits[..]))
    ensures bits[..] == if r == -1 then old(bits[..]) else old(bits[..])[r := TAKEN]
  {
    var i := 0;
    while i < bits.Length
      invariant 0 <= i <= bits.Length
      invariant bits[..] == old(bits[..])
      invariant FirstFree(bits[..]) == FirstFreeFrom(bits[..], i)
    {
      if bits[i] == FREE {
        bits[i] := TAKEN;
        return i;
      }
      i := i + 1;
    }
    return -1;
  }

  /** The clearing loops of `state_init`. */
  method ClearBits(bits: array<Alloc>)
    modifies bits
    ensures bits[..] == seq(bits.Length, _ => FREE)
  {
    for i := 0 to bits.Length
      invariant forall k | 0 <= k < i :: bits[k] == FREE
    {
      bits[i] := FREE;
    }
  }

  class Tfs {
    const p: Params
    const inodeBits: array<Alloc>
    const inodeTable: array<Inode>
    const blockBits: array<Alloc>
    const data: array<byte>
    const handleBits: array<Alloc>
    const openFileTable: array<OpenFile>

    ghost predicate Valid() {
      ParamsFit(p) &&
      inodeBits.Length == inodeTable.Length == p.inodes &&
      blockBits.Length == p.blocks && data.Length == Addr(p, p.blocks) &&
      handleBits.Length == openFileTable.Length == p.handles &&
      inodeBits != blockBits && inodeBits != handleBits && blockBits != handleBits
    }

    /** The tables as a value. */
    ghost function Snap(): State
      requires Valid()
      reads inodeBits, inodeTable, blockBits, data, handleBits, openFileTable
    {
      Tables(p, inodeBits[..], inodeTable[..], blockBits[..], data[..], handleBits[..], openFileTable[..])
    }

    /** `state_init`: fresh tables with clear bitmaps and arbitrary contents. */
    constructor (arg: ParamsArg)
      requires arg.Given? ==> ParamsFit(arg.params)
      ensures Valid() && p == ParamsOf(arg) && Snap() == StateInit(Snap())
      ensures arg.Given? ==> p == arg.params
      ensures arg.NoParams? ==> p.inodes == 64 && p.blocks == 1024 && p.handles == 16 && p.blockSize == 1024
      ensures fresh(inodeBits) && fresh(inodeTable) && fresh(blockBits) && fresh(data)
      ensures fresh(handleBits) && fresh(openFileTable)
    {
      var params := ParamsOf(arg);
      p := params;
      inodeTable := new Inode[params.inodes];
      inodeBits := new Alloc[params.inodes];
      data := new byte[Addr(params, params.blocks)];
      blockBits := new Alloc[params.blocks];
      openFileTable := new OpenFile[params.handles];
      handleBits := new Alloc[params.handles];
      new;
      ClearBits(inodeBits);
      ClearBits(blockBits);
      ClearBits(handleBits);
    }

    // -------------------------------------------------------------- state.c

    method InodeAlloc() returns (r: int)
      requires Valid()
      modifies inodeBits
      ensures (Snap(), r) == FsState.InodeAlloc(old(Snap()))
    {
      r := TakeFirstFree(inodeBits);
    }

    method DataBlockAlloc() returns (r: int)
      requires Valid()
      modifies blockBits
      ensures (Snap(), r) == FsState.DataBlockAlloc(old(Snap()))
    {
      r := TakeFirstFree(blockBits);
    }

    method DataBlockFree(b: int)
      requires Valid() && FsState.DataBlockFree(Snap(), b).Done?
      modifies blockBits
      ensures Snap() == FsState.DataBlockFree(old(Snap()), b).st
    {
      assert ValidBlock(Snap(), b);
      blockBits[b] := FREE;
    }

    method InodeDelete(inumber: int)
      requires Valid() && FsState.InodeDelete(Snap(), inumber).Done?
      modifies inodeBits, blockBits
      ensures Snap() == FsState.InodeDelete(old(Snap()), inumber).st
    {
      assert ValidInumber(Snap(), inumber);
      assert inodeBits[inumber] == TAKEN;
      if inodeTable[inumber].size > 0 {
        DataBlockFree(inodeTable[inumber].block);
      }
      inodeBits[inumber] := FREE;
    }

    method InodeCreate(kind: Kind) returns (r: int)
      requires Valid() && FsState.InodeCreate(Snap(), kind).Done?
      modifies inodeBits, inodeTable, blockBits, data
      ensures Done(Snap(), r) == FsState.InodeCreate(old(Snap()), kind)
    {
      r := InodeAlloc();
      if r == -1 {
        return;
      }
      match kind
      case T_DIRECTORY =>
        var b := DataBlockAlloc();
        if b == -1 {
          inodeTable[r] := Inode(kind, 0, -1);
          InodeDelete(r);
          return -1;
        }
        inodeTable[r] := Inode(kind, p.blockSize, b);
        LabelEntries(b);
      case T_FILE =>
        inodeTable[r] := Inode(kind, 0, -1);
    }

    /** Labels every record of the new directory's block empty. */
    method LabelEntries(b: nat)
      requires Valid() && ValidBlock(Snap(), b)
      modifies data
      ensures Addr(p, b) + ENTRY_SIZE * MaxDirEntries(p) <= |old(Snap()).data|
      ensures Snap() == old(Snap()).(data := LabelEmpty(old(Snap()).data, Addr(p, b), MaxDirEntries(p)))
    {
      hide EncodeInt, Splice;
      BlocksAreDisjoint(p, b, p.blocks);
      var base := Addr(p, b);
      var i := 0;
      while i < MaxDirEntries(p)
        invariant 0 <= i <= MaxDirEntries(p)
        invariant data[..] == LabelEmpty(old(data[..]), base, i)
      {
        assert base + ENTRY_SIZE * (i + 1) <= data.Length;
        MemCopy(base + ENTRY_SIZE * i + MAX_FILE_NAME, EncodeInt(-1));
        i := i + 1;
      }
    }

    /** `memcpy` into the data region. */
    method MemCopy(at: nat, w: seq<byte>)
      requires at + |w| <= data.Length
      modifies data
      ensures data[..] == Splice(old(data[..]), at, w)
    {
      forall k | 0 <= k < |w| {
        data[at + k] := w[k];
      }
    }

    method FindInDir(dir: Inode, name: CStr) returns (r: int)
      requires Valid() && FsState.FindInDir(Snap(), dir, name).Done?
      ensures r == FsState.FindInDir(Snap(), dir, name).ret
    {
      if dir.kind != T_DIRECTORY {
        return -1;
      }
      ghost var slots := Dir(Snap(), dir.block);
      BlocksAreDisjoint(p, dir.block, p.blocks);
      var i := 0;
      while i < MaxDirEntries(p)
        invariant 0 <= i <= MaxDirEntries(p)
        invariant FindFrom(slots, name, 0) == FindFrom(slots, name, i)
      {
        var entry := Entry(dir.block, i);
        if entry.inum != -1 && StrncmpEq(entry.name, name, MAX_FILE_NAME) {
          return entry.inum;
        }
        i := i + 1;
      }
      return -1;
    }

    /** Record `i` of the directory in block `b`. */
    method Entry(b: nat, i: nat) returns (s: Slot)
      requires Valid() && ValidBlock(Snap(), b) && i < MaxDirEntries(p)
      ensures s == Dir(Snap(), b)[i]
    {
      BlocksAreDisjoint(p, b, p.blocks);
      var at := Addr(p, b) + ENTRY_SIZE * i;
      s := Slot(data[at..at + MAX_FILE_NAME], DecodeInt(data[at + MAX_FILE_NAME..at + ENTRY_SIZE]));
      assert data[..][at..at + MAX_FILE_NAME] == data[at..at + MAX_FILE_NAME];
      assert data[..][at + MAX_FILE_NAME..at + ENTRY_SIZE] == data[at + MAX_FILE_NAME..at + ENTRY_SIZE];
    }

    method AddDirEntry(dir: Inode, name: CStr, inumber: int) returns (r: int)
      requires Valid() && 0 <= inumber <= INT_MAX && FsState.AddDirEntry(Snap(), dir, name, inumber).Done?
      modifies data
      ensures Done(Snap(), r) == FsState.AddDirEntry(old(Snap()), dir, name, inumber)
    {
      hide PutEntry, Addr;
      if |name| == 0 || |name| > MAX_FILE_NAME - 1 {
        return -1;
      }
      if dir.kind != T_DIRECTORY {
        return -1;
      }
      ghost var slots := Dir(Snap(), dir.block);
      BlocksAreDisjoint(p, dir.block, p.blocks);
      var i := 0;
      while i < MaxDirEntries(p)
        invariant 0 <= i <= MaxDirEntries(p)
        invariant Snap() == old(Snap())
        invariant EmptyFrom(slots, 0) == EmptyFrom(slots, i)
      {
        var entry := Entry(dir.block, i);
        if entry.inum == -1 {
          FillEntry(dir.block, i, name, inumber);
          return 0;
        }
        i := i + 1;
      }
      return -1;
    }

    /** Stores the inumber, then the name with `strncpy` to 39 bytes, then the last byte. */
    method FillEntry(b: nat, i: nat, name: CStr, inumber: int)
      requires Valid() && ValidBlock(Snap(), b) && i < MaxDirEntries(p)
      requires |name| <= MAX_FILE_NAME - 1 && 0 <= inumber <= INT_MAX
      modifies data
      ensures Snap() == PutEntry(old(Snap()), b, i, Slot(Pad(name, MAX_FILE_NAME), inumber))
    {
      BlocksAreDisjoint(p, b, p.blocks);
      var at := Addr(p, b) + ENTRY_SIZE * i;
      MemCopy(at + MAX_FILE_NAME, EncodeInt(inumber));
      ghost var labelled := data[..];
      MemCopy(at, Pad(name, MAX_FILE_NAME - 1));
      MemCopy(at + MAX_FILE_NAME - 1, [0]);
      SpliceAdjacent(labelled, at, Pad(name, MAX_FILE_NAME - 1), [0]);
      assert Pad(name, MAX_FILE_NAME - 1) + [0] == Pad(name, MAX_FILE_NAME);
      SpliceAdjacent(old(data[..]), at, Pad(name, MAX_FILE_NAME), EncodeInt(inumber));
    }

    /** Labels the record empty and zeroes its name. */
    method BlankEntry(b: nat, i: nat)
      requires Valid() && ValidBlock(Snap(), b) && i < MaxDirEntries(p)
      modifies data
      ensures Snap() == PutEntry(old(Snap()), b, i, Slot(Zeros(MAX_FILE_NAME), -1))
    {
      BlocksAreDisjoint(p, b, p.blocks);
      var at := Addr(p, b) + ENTRY_SIZE * i;
      MemCopy(at + MAX_FILE_NAME, EncodeInt(-1));
      MemCopy(at, Zeros(MAX_FILE_NAME));
      SpliceAdjacent(old(data[..]), at, Zeros(MAX_FILE_NAME), EncodeInt(-1));
    }

    method ClearDirEntry(dir: Inode, name: CStr) returns (r: int)
      requires Valid() && FsState.ClearDirEntry(Snap(), dir, name).Done?
      modifies data
      ensures Done(Snap(), r) == FsState.ClearDirEntry(old(Snap()), dir, name)
    {
      if dir.kind != T_DIRECTORY {
        return -1;
      }
      BlocksAreDisjoint(p, dir.block, p.blocks);
      var base := Addr(p, dir.block);
      ghost var mem := data[..];
      var i := 0;
      while i < MaxDirEntries(p)
        invariant 0 <= i <= MaxDirEntries(p)
        invariant Snap() == old(Snap()) && data[..] == mem
        invariant MatchFrom(mem, base, MaxDirEntries(p), name, 0) == MatchFrom(mem, base, MaxDirEntries(p), name, i)
      {
        var at := base + ENTRY_SIZE * i;
        assert data[at..] == mem[at..];
        if StrcmpEq(data[at..], name) {
          BlankEntry(dir.block, i);
          return 0;
        }
        i := i + 1;
      }
      return -1;
    }

    method AddToOpenFileTable(inumber: int, offset: nat) returns (r: int)
      requires Valid()
      modifies handleBits, openFileTable
      ensures (Snap(), r) == FsState.AddToOpenFileTable(old(Snap()), inumber, offset)
    {
      r := TakeFirstFree(handleBits);
      if r != -1 {
        openFileTable[r] := OpenFile(inumber, offset);
      }
    }

    /** `get_open_file_entry(fhandle) != NULL`. */
    method IsOpenHandle(fhandle: int) returns (r: bool)
      requires Valid()
      ensures r <==> IsOpen(Snap(), fhandle)
    {
      r := 0 <= fhandle < p.handles && handleBits[fhandle] == TAKEN;
    }

    // -------------------------------------------------------------- operations.c

    method TfsInit() returns (r: int)
      requires Valid() && Snap() == StateInit(Snap())
      modifies inodeBits, inodeTable, blockBits, data
      ensures Done(Snap(), r) == Operations.TfsInit(old(Snap()))
      ensures r == if p.inodes > 0 && p.blocks > 0 then 0 else -1
      ensures r == 0 ==> Inv(Snap()) && Abs(Snap()) == Client.EMPTY_FS
    {
      InitRefines(Snap());
      var root := InodeCreate(T_DIRECTORY);
      r := if root != ROOT_DIR_INUM then -1 else 0;
    }

    method TfsLookup(path: Path, root: Inode) returns (r: int)
      requires Valid() && Operations.TfsLookup(Snap(), path, root).Done?
      ensures r == Operations.TfsLookup(Snap(), path, root).ret
    {
      if !ValidPathname(path) {
        return -1;
      }
      r := FindInDir(root, BaseName(path));
    }

    method TfsOpen(path: Path, mode: Mode) returns (fd: int)
      requires Valid() && Operations.TfsOpen(Snap(), path, mode).Done?
      modifies inodeBits, inodeTable, blockBits, data, handleBits, openFileTable
      ensures Done(Snap(), fd) == Operations.TfsOpen(old(Snap()), path, mode)
      ensures old(Inv(Snap()) && Client.TruncAllowed(Abs(Snap()), path, mode)) ==>
                Inv(Snap()) && (Abs(Snap()), fd) == Client.Open(p, old(Abs(Snap())), path, mode)
    {
      ghost var st := Snap();
      fd := OpenFileByName(path, mode);
      if Inv(st) && Client.TruncAllowed(Abs(st), path, mode) {
        OpenRefines(st, path, mode);
      }
    }

    method OpenFileByName(path: Path, mode: Mode) returns (fd: int)
      requires Valid() && Operations.TfsOpen(Snap(), path, mode).Done?
      modifies inodeBits, inodeTable, blockBits, data, handleBits, openFileTable
      ensures Done(Snap(), fd) == Operations.TfsOpen(old(Snap()), path, mode)
    {
      if !ValidPathname(path) {
        return -1;
      }
      var root := inodeTable[ROOT_DIR_INUM];
      var inum := TfsLookup(path, root);
      var offset := 0;
      if inum >= 0 {
        offset := PrepareExisting(inum, mode);
      } else if mode.creat {
        inum := CreateFile(root, BaseName(path));
        if inum == -1 {
          return -1;
        }
      } else {
        return -1;
      }
      fd := AddToOpenFileTable(inum, offset);
    }

    /** Truncates the file if asked to and determines the initial offset. */
    method PrepareExisting(inum: int, mode: Mode) returns (offset: nat)
      requires Valid() && Operations.OpenExisting(Snap(), inum, mode).Done?
      modifies inodeTable, blockBits
      ensures Done(Snap(), offset) == Operations.OpenExisting(old(Snap()), inum, mode)
    {
      if mode.trunc && inodeTable[inum].size > 0 {
        DataBlockFree(inodeTable[inum].block);
        inodeTable[inum] := inodeTable[inum].(size := 0);
      }
      offset := if mode.append then inodeTable[inum].size else 0;
    }

    method CreateFile(root: Inode, name: CStr) returns (inum: int)
      requires Valid() && Operations.CreateFile(Snap(), root, name).Done?
      modifies inodeBits, inodeTable, blockBits, data
      ensures Done(Snap(), inum) == Operations.CreateFile(old(Snap()), root, name)
    {
      inum := InodeCreate(T_FILE);
      if inum == -1 {
        return -1;
      }
      var added := AddDirEntry(root, name, inum);
      if added == -1 {
        InodeDelete(inum);
        return -1;
      }
    }

    method TfsClose(fhandle: int) returns (r: int)
      requires Valid()
      modifies handleBits
      ensures Done(Snap(), r) == Operations.TfsClose(old(Snap()), fhandle)
      ensures old(Inv(Snap())) ==> Inv(Snap()) && (Abs(Snap()), r) == Client.Close(old(Abs(Snap())), fhandle)
    {
      ghost var st := Snap();
      var open := IsOpenHandle(fhandle);
      if !open {
        r := -1;
      } else {
        assert handleBits[fhandle] == TAKEN;
        handleBits[fhandle] := FREE;
        r := 0;
      }
      assert Done(Snap(), r) == Operations.TfsClose(st, fhandle);
      if Inv(st) {
        CloseRefines(st, fhandle);
      }
    }

    method TfsWrite(fhandle: int, buffer: seq<byte>) returns (n: int)
      requires Valid() && Operations.TfsWrite(Snap(), fhandle, buffer).Done?
      modifies inodeTable, blockBits, data, openFileTable
      ensures Done(Snap(), n) == Operations.TfsWrite(old(Snap()), fhandle, buffer)
      ensures old(Inv(Snap())) && Client.BufferFits(buffer) ==>
                Client.FsOk(p, old(Abs(Snap())))
                && Inv(Snap()) && (Abs(Snap()), n) == Client.Write(p, old(Abs(Snap())), fhandle, buffer)
    {
      ghost var st := Snap();
      n := WriteBytes(fhandle, buffer);
      if Inv(st) && Client.BufferFits(buffer) {
        WriteRefines(st, fhandle, buffer);
      }
    }

    method WriteBytes(fhandle: int, buffer: seq<byte>) returns (n: int)
      requires Valid() && Operations.TfsWrite(Snap(), fhandle, buffer).Done?
      modifies inodeTable, blockBits, data, openFileTable
      ensures Done(Snap(), n) == Operations.TfsWrite(old(Snap()), fhandle, buffer)
    {
      hide Addr, Splice, SizeAdd, SizeSub, Store;
      var open := IsOpenHandle(fhandle);
      if !open {
        return -1;
      }
      var OpenFile(i, offset) := openFileTable[fhandle];
      n := |buffer|;
      if SizeAdd(n, offset) > p.blockSize {
        n := SizeSub(p.blockSize, offset);
      }
      if n > 0 {
        if inodeTable[i].size == 0 {
          var b := DataBlockAlloc();
          if b == -1 {
            return -1;
          }
          inodeTable[i] := inodeTable[i].(block := b);
        }
        ghost var st := Snap();
        CopyToFile(fhandle, i, offset, buffer[..n]);
        StoreSetsBlock(old(Snap()).(blockBits := st.blockBits), i, st.inodes[i].block, offset, buffer[..n]);
      }
    }

    /** The copy into inode `i`'s block, and the cursor and size that follow it. */
    method CopyToFile(fhandle: int, i: int, offset: nat, w: seq<byte>)
      requires Valid() && IsOpen(Snap(), fhandle) && 0 <= i < p.inodes && ValidBlock(Snap(), inodeTable[i].block)
      requires Addr(p, inodeTable[i].block) + offset + |w| <= data.Length
      modifies inodeTable, data, openFileTable
      ensures Snap() == (var st := old(Snap()); var s := Store(st, i, st.inodes[i].block, offset, w);
                         s.(handles := s.handles[fhandle := OpenFile(i, offset + |w|)]))
    {
      MemCopy(Addr(p, inodeTable[i].block) + offset, w);
      openFileTable[fhandle] := OpenFile(i, offset + |w|);
      if offset + |w| > inodeTable[i].size {
        inodeTable[i] := inodeTable[i].(size := offset + |w|);
      }
    }

    method TfsRead(fhandle: int, len: nat) returns (n: int, buffer: seq<byte>)
      requires Valid() && Operations.TfsRead(Snap(), fhandle, len).Done?
      modifies openFileTable
      ensures Done(Snap(), (n, buffer)) == Operations.TfsRead(old(Snap()), fhandle, len)
      ensures old(Inv(Snap())) ==>
                Client.FsOk(p, old(Abs(Snap())))
                && Inv(Snap()) && (Abs(Snap()), (n, buffer)) == Client.Read(p, old(Abs(Snap())), fhandle, len)
    {
      ghost var st := Snap();
      n, buffer := ReadBytes(fhandle, len);
      if Inv(st) {
        ReadRefines(st, fhandle, len);
      }
    }

    method ReadBytes(fhandle: int, len: nat) returns (n: int, buffer: seq<byte>)
      requires Valid() && Operations.TfsRead(Snap(), fhandle, len).Done?
      modifies openFileTable
      ensures Done(Snap(), (n, buffer)) == Operations.TfsRead(old(Snap()), fhandle, len)
    {
      var open := IsOpenHandle(fhandle);
      if !open {
        return -1, [];
      }
      var OpenFile(i, offset) := openFileTable[fhandle];
      buffer := [];
      n := SizeSub(inodeTable[i].size, offset);
      if n > len {
        n := len;
      }
      if n > 0 {
        var from := Addr(p, inodeTable[i].block) + offset;
        buffer := data[from..from + n];
        assert buffer == data[..][from..from + n];
        openFileTable[fhandle] := OpenFile(i, offset + n);
      }
    }

    method TfsUnlink(path: Path) returns (r: int)
      requires Valid() && Operations.TfsUnlink(Snap(), path).Done?
      modifies inodeBits, blockBits, data
      ensures Done(Snap(), r) == Operations.TfsUnlink(old(Snap()), path)
      ensures old(Inv(Snap()) && Client.UnlinkAllowed(Abs(Snap()), path)) ==>
                Inv(Snap()) && (Abs(Snap()), r) == Client.Unlink(old(Abs(Snap())), path)
    {
      ghost var st := Snap();
      r := RemoveByName(path);
      if Inv(st) && Client.UnlinkAllowed(Abs(st), path) {
        UnlinkRefines(st, path);
      }
    }

    method RemoveByName(path: Path) returns (r: int)
      requires Valid() && Operations.TfsUnlink(Snap(), path).Done?
      modifies inodeBits, blockBits, data
      ensures Done(Snap(), r) == Operations.TfsUnlink(old(Snap()), path)
    {
      if !ValidPathname(path) {
        return -1;
      }
      var root := inodeTable[ROOT_DIR_INUM];
      var inum := TfsLookup(path, root);
      if inum == -1 {
        return -1;
      }
      InodeDelete(inum);
      r := ClearDirEntry(root, BaseName(path));
    }
  }

  /** `Store` records the block it is given. */
  lemma StoreSetsBlock(st: State, i: nat, b: nat, off: nat, w: seq<byte>)
    requires i < st.p.inodes && b < st.p.blocks && Addr(st.p, b) + off + |w| <= |st.data|
    ensures Store(SetInode(st, i, st.inodes[i].(block := b)), i, b, off, w) == Store(st, i, b, off, w)
    ensures Store(st, i, b, off, w).handles == st.handles
  {
  }

  /** Copying to adjacent places, in either order, is one copy. */
  lemma SpliceAdjacent(mem: seq<byte>, at: nat, a: seq<byte>, b: seq<byte>)
    requires at + |a| + |b| <= |mem|
    ensures Splice(Splice(mem, at + |a|, b), at, a) == Splice(mem, at, a + b)
    ensures Splice(Splice(mem, at, a), at + |a|, b) == Splice(mem, at, a + b)
  {
  }
}
