/** The tables of fs/state.c as one value, and each of its functions as a step on that value. */
module FsState {
  import opened Bytes
  import opened Bitmap
  import opened Directory

  const ROOT_DIR_INUM: nat := 0

  datatype Params = Params(inodes: nat, blocks: nat, handles: nat, blockSize: nat)

  /** `tfs_default_params` */
  const DEFAULT_PARAMS := Params(64, 1024, 16, 1024)

  /** The argument of `tfs_init`, which may be NULL. */
  datatype ParamsArg = NoParams | Given(params: Params)

  function ParamsOf(arg: ParamsArg): Params { if arg.Given? then arg.params else DEFAULT_PARAMS }

  datatype Kind = T_FILE | T_DIRECTORY
  datatype Inode = Inode(kind: Kind, size: nat, block: int)
  datatype OpenFile = OpenFile(inumber: int, offset: nat)

  datatype Tables = Tables(
    p: Params,
    inodeBits: seq<Alloc>, inodes: seq<Inode>,
    blockBits: seq<Alloc>, data: seq<byte>,
    handleBits: seq<Alloc>, handles: seq<OpenFile>)

  /** Where block `b` starts in the data region. */
  function Addr(p: Params, b: nat): nat { b * p.blockSize }

  function MaxDirEntries(p: Params): nat
    requires p.blockSize > 0
  {
    p.blockSize / ENTRY_SIZE
  }

  /** Every count is a positive-or-zero `int`, and so is the number of records in a block, which `find_in_dir` counts
      through with an `int`; the data region is one C object. */
  predicate ParamsFit(p: Params) {
    p.blockSize > 0 && p.inodes <= INT_MAX && p.blocks <= INT_MAX && p.handles <= INT_MAX &&
    MaxDirEntries(p) <= INT_MAX && Addr(p, p.blocks) <= OBJECT_MAX
  }

  predicate WellSized(t: Tables) {
    ParamsFit(t.p) &&
    |t.inodeBits| == t.p.inodes && |t.inodes| == t.p.inodes &&
    |t.blockBits| == t.p.blocks && |t.data| == Addr(t.p, t.p.blocks) &&
    |t.handleBits| == t.p.handles && |t.handles| == t.p.handles
  }

  type State = t: Tables | WellSized(t) witness Tables(Params(0, 0, 0, 1), [], [], [], [], [], [])

  /** `Fault` is a failed ALWAYS_ASSERT or an access outside the tables; anything else goes on. */
  datatype Outcome<+T> = Fault | Done(st: State, ret: T) {
    predicate IsFailure() { Fault? }
    function PropagateFailure<U>(): Outcome<U>
      requires Fault?
    {
      Fault
    }
    function Extract(): (State, T)
      requires Done?
    {
      (st, ret)
    }
  }

  predicate ValidInumber(st: State, inumber: int) { 0 <= inumber < st.p.inodes }
  predicate ValidBlock(st: State, b: int) { 0 <= b < st.p.blocks }
  predicate IsOpen(st: State, fhandle: int) { 0 <= fhandle < st.p.handles && st.handleBits[fhandle] == TAKEN }

  /** Blocks lie inside the data region, one after another. */
  lemma {:induction false} BlocksAreDisjoint(p: Params, b: nat, c: nat)
    requires b < c
    ensures Addr(p, b) + p.blockSize <= Addr(p, c)
  {
    assert Addr(p, c) == Addr(p, c - 1) + p.blockSize;
    if b < c - 1 {
      BlocksAreDisjoint(p, b, c - 1);
    }
  }

  /** The records of the directory in block `b`. */
  function Dir(st: State, b: nat): (s: seq<Slot>)
    requires ValidBlock(st, b)
    ensures |s| == MaxDirEntries(st.p)
    ensures forall i | 0 <= i < |s| :: |s[i].name| == MAX_FILE_NAME
  {
    BlocksAreDisjoint(st.p, b, st.p.blocks);
    Slots(st.data, Addr(st.p, b), MaxDirEntries(st.p))
  }

  // ---------------------------------------------------------------- allocation

  function InodeAlloc(st: State): (State, int) {
    var i := FirstFree(st.inodeBits);
    if i == -1 then (st, -1) else (st.(inodeBits := st.inodeBits[i := TAKEN]), i)
  }

  function DataBlockAlloc(st: State): (State, int) {
    var b := FirstFree(st.blockBits);
    if b == -1 then (st, -1) else (st.(blockBits := st.blockBits[b := TAKEN]), b)
  }

  function DataBlockFree(st: State, b: int): Outcome<()> {
    if !ValidBlock(st, b) then Fault else Done(st.(blockBits := st.blockBits[b := FREE]), ())
  }

  function InodeDelete(st: State, inumber: int): Outcome<()> {
    if !ValidInumber(st, inumber) || st.inodeBits[inumber] != TAKEN then Fault
    else
      var inode := st.inodes[inumber];
      var (s, _) :- if inode.size > 0 then DataBlockFree(st, inode.block) else Done(st, ());
      Done(s.(inodeBits := s.inodeBits[inumber := FREE]), ())
  }

  function InodeCreate(st: State, kind: Kind): (r: Outcome<int>)
    ensures r.Done? ==> -1 <= r.ret < st.p.inodes
  {
    var (s, inumber) := InodeAlloc(st);
    if inumber == -1 then Done(s, -1)
    else
      match kind
      case T_DIRECTORY =>
        var (s', b) := DataBlockAlloc(s);
        if b == -1 then
          var (s'', _) :- InodeDelete(SetInode(s', inumber, Inode(kind, 0, -1)), inumber);
          Done(s'', -1)
        else
          var s'' := SetInode(s', inumber, Inode(kind, st.p.blockSize, b));
          BlocksAreDisjoint(st.p, b, st.p.blocks);
          Done(s''.(data := LabelEmpty(s''.data, Addr(st.p, b), MaxDirEntries(st.p))), inumber)
      case T_FILE =>
        Done(SetInode(s, inumber, Inode(kind, 0, -1)), inumber)
  }

  function SetInode(st: State, inumber: nat, inode: Inode): State
    requires inumber < st.p.inodes
  {
    st.(inodes := st.inodes[inumber := inode])
  }

  // ---------------------------------------------------------------- directory

  function FindInDir(st: State, dir: Inode, name: CStr): Outcome<int> {
    if dir.kind != T_DIRECTORY then Done(st, -1)
    else if !ValidBlock(st, dir.block) then Fault
    else Done(st, FindFrom(Dir(st, dir.block), name, 0))
  }

  function AddDirEntry(st: State, dir: Inode, name: CStr, inumber: int): Outcome<int>
    requires 0 <= inumber <= INT_MAX
  {
    if |name| == 0 || |name| > MAX_FILE_NAME - 1 then Done(st, -1)
    else if dir.kind != T_DIRECTORY then Done(st, -1)
    else if !ValidBlock(st, dir.block) then Fault
    else
      var i := EmptyFrom(Dir(st, dir.block), 0);
      if i == -1 then Done(st, -1)
      else Done(PutEntry(st, dir.block, i, Slot(Pad(name, MAX_FILE_NAME), inumber)), 0)
  }

  function ClearDirEntry(st: State, dir: Inode, name: CStr): Outcome<int> {
    if dir.kind != T_DIRECTORY then Done(st, -1)
    else if !ValidBlock(st, dir.block) then Fault
    else
      BlocksAreDisjoint(st.p, dir.block, st.p.blocks);
      var i := MatchFrom(st.data, Addr(st.p, dir.block), MaxDirEntries(st.p), name, 0);
      if i == -1 then Done(st, -1)
      else Done(PutEntry(st, dir.block, i, Slot(Zeros(MAX_FILE_NAME), -1)), 0)
  }

  function PutEntry(st: State, b: nat, i: nat, s: Slot): State
    requires ValidBlock(st, b) && i < MaxDirEntries(st.p)
    requires |s.name| == MAX_FILE_NAME && -1 <= s.inum <= INT_MAX
  {
    BlocksAreDisjoint(st.p, b, st.p.blocks);
    st.(data := Splice(st.data, Addr(st.p, b) + ENTRY_SIZE * i, EncodeSlot(s)))
  }

  // ---------------------------------------------------------------- open files

  function AddToOpenFileTable(st: State, inumber: int, offset: nat): (State, int) {
    var h := FirstFree(st.handleBits);
    if h == -1 then (st, -1)
    else (st.(handleBits := st.handleBits[h := TAKEN], handles := st.handles[h := OpenFile(inumber, offset)]), h)
  }

  // ---------------------------------------------------------------- initialisation

  /** Freshly allocated tables: the bitmaps are cleared, all other memory is whatever `malloc` left. */
  function StateInit(raw: State): State {
    raw.(inodeBits := seq(raw.p.inodes, _ => FREE),
         blockBits := seq(raw.p.blocks, _ => FREE),
         handleBits := seq(raw.p.handles, _ => FREE))
  }
}
