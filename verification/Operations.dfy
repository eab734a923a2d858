/** The public operations of fs/operations.c as steps on the tables. */
module Operations {
  import opened Bytes
  import opened Bitmap
  import opened FsState

  /** A `char const *` argument. */
  datatype Path = Null | Name(chars: CStr)

  /** The flags of `tfs_file_mode_t`. */
  datatype Mode = Mode(creat: bool, trunc: bool, append: bool)

  predicate ValidPathname(path: Path) { path.Name? && |path.chars| > 1 && path.chars[0] == '/' as int }

  /** The path without its leading slash. */
  function BaseName(path: Path): CStr
    requires ValidPathname(path)
  {
    path.chars[1..]
  }

  function InodeGet(st: State, inumber: int): Outcome<Inode> {
    if ValidInumber(st, inumber) then Done(st, st.inodes[inumber]) else Fault
  }

  function TfsInit(raw: State): Outcome<int> {
    var (st, root) :- InodeCreate(StateInit(raw), T_DIRECTORY);
    Done(st, if root != ROOT_DIR_INUM then -1 else 0)
  }

  function TfsLookup(st: State, path: Path, root: Inode): Outcome<int> {
    if !ValidPathname(path) then Done(st, -1) else FindInDir(st, root, BaseName(path))
  }

  function TfsOpen(st: State, path: Path, mode: Mode): Outcome<int> {
    if !ValidPathname(path) then Done(st, -1)
    else
      var (_, root) :- InodeGet(st, ROOT_DIR_INUM);
      var (_, inum) :- TfsLookup(st, path, root);
      if inum >= 0 then
        var (s, offset) :- OpenExisting(st, inum, mode);
        var (s', fd) := AddToOpenFileTable(s, inum, offset);
        Done(s', fd)
      else if mode.creat then
        var (s, inum') :- CreateFile(st, root, BaseName(path));
        if inum' == -1 then Done(s, -1)
        else
          var (s', fd) := AddToOpenFileTable(s, inum', 0);
          Done(s', fd)
      else Done(st, -1)
  }

  /** The file exists: truncate it if asked to, and return the initial offset. */
  function OpenExisting(st: State, inum: int, mode: Mode): Outcome<nat> {
    var (_, inode) :- InodeGet(st, inum);
    if mode.trunc && inode.size > 0 then
      var (s, _) :- DataBlockFree(st, inode.block);
      Done(SetInode(s, inum, inode.(size := 0)), 0)
    else Done(st, if mode.append then inode.size else 0)
  }

  /** The file does not exist: make an inode and a directory entry, or undo the inode. */
  function CreateFile(st: State, root: Inode, name: CStr): Outcome<int> {
    var (s, inum) :- InodeCreate(st, T_FILE);
    if inum == -1 then Done(s, -1)
    else
      var (s', added) :- AddDirEntry(s, root, name, inum);
      if added == -1 then
        var (s'', _) :- InodeDelete(s', inum);
        Done(s'', -1)
      else Done(s', inum)
  }

  function TfsClose(st: State, fhandle: int): Outcome<int> {
    if !IsOpen(st, fhandle) then Done(st, -1)
    else Done(st.(handleBits := st.handleBits[fhandle := FREE]), 0)
  }

  /** How many bytes `tfs_write` stores. */
  function WriteCount(blockSize: nat, offset: nat, toWrite: nat): nat {
    if SizeAdd(toWrite, offset) > blockSize then SizeSub(blockSize, offset) else toWrite
  }

  /** How many bytes `tfs_read` returns. */
  function ReadCount(size: nat, offset: nat, len: nat): nat {
    Min(SizeSub(size, offset), len)
  }

  function TfsWrite(st: State, fhandle: int, buffer: seq<byte>): Outcome<int> {
    if !IsOpen(st, fhandle) then Done(st, -1)
    else
      var file := st.handles[fhandle];
      var (_, inode) :- InodeGet(st, file.inumber);
      var n: int := WriteCount(st.p.blockSize, file.offset, |buffer|);
      if n == 0 then Done(st, 0)
      else
        var (s, b) := if inode.size == 0 then DataBlockAlloc(st) else (st, inode.block);
        if inode.size == 0 && b == -1 then Done(st, -1)
        else if !ValidBlock(s, b) || n > |buffer| || Addr(s.p, b) + file.offset + n > |s.data| then Fault
        else
          var s' := Store(s, file.inumber, b, file.offset, buffer[..n]);
          Done(s'.(handles := s'.handles[fhandle := OpenFile(file.inumber, file.offset + n)]), n)
  }

  /** Copies `w` to offset `off` of inode `i`, whose data is in block `b`, and lets the inode grow to cover it. */
  function Store(st: State, i: nat, b: nat, off: nat, w: seq<byte>): State
    requires i < st.p.inodes && b < st.p.blocks && Addr(st.p, b) + off + |w| <= |st.data|
  {
    var inode := st.inodes[i];
    SetInode(st, i, inode.(block := b, size := if off + |w| > inode.size then off + |w| else inode.size)).(
      data := Splice(st.data, Addr(st.p, b) + off, w))
  }

  /** Returns the count and the bytes copied to the caller's buffer. */
  function TfsRead(st: State, fhandle: int, len: nat): Outcome<(int, seq<byte>)> {
    if !IsOpen(st, fhandle) then Done(st, (-1, []))
    else
      var file := st.handles[fhandle];
      var (_, inode) :- InodeGet(st, file.inumber);
      var n := ReadCount(inode.size, file.offset, len);
      if n == 0 then Done(st, (0, []))
      else if !ValidBlock(st, inode.block) || Addr(st.p, inode.block) + file.offset + n > |st.data| then Fault
      else
        var from := Addr(st.p, inode.block) + file.offset;
        Done(st.(handles := st.handles[fhandle := OpenFile(file.inumber, file.offset + n)]),
             (n, st.data[from..from + n]))
  }

  function TfsUnlink(st: State, path: Path): Outcome<int> {
    if !ValidPathname(path) then Done(st, -1)
    else
      var (_, root) :- InodeGet(st, ROOT_DIR_INUM);
      var (_, inum) :- TfsLookup(st, path, root);
      if inum == -1 then Done(st, -1)
      else
        var (s, _) :- InodeDelete(st, inum);
        ClearDirEntry(s, root, BaseName(path))
  }
}
