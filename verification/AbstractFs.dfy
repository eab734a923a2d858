/** What a client sees: named byte strings and open handles with cursors. No inodes, no blocks, no slots. */
module AbstractFs {
  import opened Bytes
  import opened Bitmap
  import opened Directory
  import opened FsState
  import opened Operations

  datatype Handle = Handle(name: CStr, cursor: nat)
  datatype Fs = Fs(files: map<CStr, seq<byte>>, handles: map<int, Handle>)

  const EMPTY_FS := Fs(map[], map[])

  /** Every file fits a block, every cursor is inside its file, and handles are numbers below the limit. */
  ghost predicate FsOk(p: Params, a: Fs) {
    (forall n | n in a.files :: ValidName(n) && |a.files[n]| <= p.blockSize) &&
    (forall h | h in a.handles :: 0 <= h < p.handles && HandleOk(a, h))
  }

  ghost function NonEmpty(files: map<CStr, seq<byte>>): set<CStr> {
    set n | n in files && files[n] != []
  }

  // One inode is the root's, and so is one block.
  ghost predicate InodesFull(p: Params, a: Fs) { |a.files| + 1 >= p.inodes }
  ghost predicate BlocksFull(p: Params, a: Fs) { |NonEmpty(a.files)| + 1 >= p.blocks }
  ghost predicate DirectoryFull(p: Params, a: Fs)
    requires p.blockSize > 0
  {
    |a.files| >= MaxDirEntries(p)
  }

  ghost predicate Refers(a: Fs, n: CStr) { exists h :: h in a.handles && a.handles[h].name == n }

  // ---------------------------------------------------------------- operations

  ghost function AddHandle(p: Params, a: Fs, n: CStr, cursor: nat): (Fs, int) {
    var h := LeastUnused(a.handles.Keys, p.handles, 0);
    if h == -1 then (a, -1) else (a.(handles := a.handles[h := Handle(n, cursor)]), h)
  }

  ghost function Open(p: Params, a: Fs, path: Path, mode: Mode): (Fs, int)
    requires p.blockSize > 0
  {
    if !ValidPathname(path) then (a, -1)
    else
      var n := BaseName(path);
      if n in a.files then
        var content := if mode.trunc then [] else a.files[n];
        AddHandle(p, a.(files := a.files[n := content]), n, if mode.append then |content| else 0)
      else if mode.creat && ValidName(n) && !InodesFull(p, a) && !DirectoryFull(p, a) then
        AddHandle(p, a.(files := a.files[n := []]), n, 0)
      else (a, -1)
  }

  ghost function Close(a: Fs, h: int): (Fs, int) {
    if h in a.handles then (a.(handles := a.handles - {h}), 0) else (a, -1)
  }

  function Overwrite(content: seq<byte>, at: nat, w: seq<byte>): (r: seq<byte>)
    requires at <= |content|
    ensures |r| == if at + |w| > |content| then at + |w| else |content|
  {
    content[..at] + w + (if at + |w| < |content| then content[at + |w|..] else [])
  }

  ghost predicate HandleOk(a: Fs, h: int) {
    h in a.handles && a.handles[h].name in a.files && a.handles[h].cursor <= |a.files[a.handles[h].name]|
  }

  /** Overwrites the file under the cursor and advances the cursor. */
  ghost function StoreAt(a: Fs, h: int, w: seq<byte>): Fs
    requires HandleOk(a, h)
  {
    var Handle(n, cursor) := a.handles[h];
    Fs(a.files[n := Overwrite(a.files[n], cursor, w)], a.handles[h := Handle(n, cursor + |w|)])
  }

  ghost function Write(p: Params, a: Fs, h: int, buffer: seq<byte>): (Fs, int)
    requires FsOk(p, a)
  {
    if h !in a.handles then (a, -1)
    else
      var Handle(n, cursor) := a.handles[h];
      var count: int := Min(|buffer|, p.blockSize - cursor);
      if count == 0 then (a, 0)
      else if a.files[n] == [] && BlocksFull(p, a) then (a, -1)
      else (StoreAt(a, h, buffer[..count]), count)
  }

  ghost function Read(p: Params, a: Fs, h: int, len: nat): (Fs, (int, seq<byte>))
    requires FsOk(p, a)
  {
    if h !in a.handles then (a, (-1, []))
    else
      var Handle(n, cursor) := a.handles[h];
      var count: int := Min(|a.files[n]| - cursor, len);
      (a.(handles := a.handles[h := Handle(n, cursor + count)]), (count, a.files[n][cursor..cursor + count]))
  }

  ghost function Unlink(a: Fs, path: Path): (Fs, int) {
    if ValidPathname(path) && BaseName(path) in a.files
    then (a.(files := a.files - {BaseName(path)}), 0)
    else (a, -1)
  }

  // ---------------------------------------------------------------- what a client must not do

  /** The file is truncated only while no open handle on it is past its start. */
  ghost predicate TruncAllowed(a: Fs, path: Path, mode: Mode) {
    (mode.trunc && ValidPathname(path) && BaseName(path) in a.files && a.files[BaseName(path)] != []) ==>
      forall h | h in a.handles && a.handles[h].name == BaseName(path) :: a.handles[h].cursor == 0
  }

  /** A file is unlinked only while no handle is open on it. */
  ghost predicate UnlinkAllowed(a: Fs, path: Path) {
    ValidPathname(path) && BaseName(path) in a.files ==> !Refers(a, BaseName(path))
  }

  /** A buffer is a C object. */
  predicate BufferFits(buffer: seq<byte>) { |buffer| <= OBJECT_MAX }
}
