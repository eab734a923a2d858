/**
 * The operations as a caller states them: on the characters of a path, the numbers in the parameters and what the
 * client sees, without the model's own readings of them.
 */
module Interface {
  import opened Bytes
  import opened Bitmap
  import opened Directory
  import opened FsState
  import opened Operations
  import Client = AbstractFs
  import opened Storage
  import opened Refinement
  import opened Runs
  import opened Exactness

  // ---------------------------------------------------------------- paths

  /** Every operation refuses a bad path with -1 and leaves every table as it was, in any state at all. */
  lemma BadPathsAreRefused(st: State, path: Path, mode: Mode, root: Inode)
    requires path == Null || |path.chars| < 2 || path.chars[0] != '/' as int
    ensures TfsOpen(st, path, mode) == Done(st, -1)
    ensures TfsLookup(st, path, root) == Done(st, -1)
    ensures TfsUnlink(st, path) == Done(st, -1)
  {
  }

  /** What follows the slash is the name, whole. */
  lemma PathNames(n: CStr)
    requires n != []
    ensures ValidPathname(Name(['/' as int] + n)) && BaseName(Name(['/' as int] + n)) == n
  {
  }

  /** A lookup of "/" and `n` finds the file named `n`. */
  lemma LookupByName(st: State, n: CStr)
    requires Inv(st) && n != []
    ensures TfsLookup(st, Name(['/' as int] + n), st.inodes[0]) ==
            Done(st, if n in Abs(st).files then Names(st)[n] else -1)
    ensures n in Abs(st).files <==> n in Names(st)
  {
    PathNames(n);
    LookupRefines(st, Name(['/' as int] + n));
  }

  /** The file named `n` is gone, and nothing else. */
  predicate Unlinked(a: Fs, n: CStr, b: Fs, r: int) {
    b.handles == a.handles &&
    if n in a.files then r == 0 && b.files == a.files - {n} else r == -1 && b.files == a.files
  }

  ghost predicate NobodyHas(a: Fs, n: CStr) { forall h | h in a.handles :: a.handles[h].name != n }

  ghost predicate UnlinksFile(st: State, n: CStr, o: Outcome<int>)
    requires Inv(st)
  {
    o.Done? && Inv(o.st) && o.st.p == st.p && Unlinked(Abs(st), n, Abs(o.st), o.ret)
  }

  /** An unlink of "/" and `n` removes the file named `n` and nothing else. */
  lemma UnlinkByName(st: State, n: CStr)
    requires Inv(st) && n != [] && NobodyHas(Abs(st), n)
    ensures UnlinksFile(st, n, TfsUnlink(st, Name(['/' as int] + n)))
  {
    hide Inv, Abs, TfsUnlink;
    PathNames(n);
    UnlinkRefines(st, Name(['/' as int] + n));
  }

  /** There is an inode and a directory record for one more file: one inode is the root's, and a record takes 44 bytes
      of the root's block. */
  predicate RoomForFile(p: Params, a: Fs) { |a.files| + 1 < p.inodes && 44 * (|a.files| + 1) <= p.blockSize }

  /** The file that an open of `n` leads to, and its contents afterwards. */
  predicate Reaches(p: Params, a: Fs, n: CStr, mode: Mode) {
    n in a.files || (mode.creat && 1 <= |n| <= 39 && RoomForFile(p, a))
  }

  /** `fd` is the least handle number not in use, and -1 if there is none. */
  ghost predicate NextHandle(p: Params, a: Fs, fd: int) {
    if |a.handles| >= p.handles then fd == -1
    else 0 <= fd < p.handles && fd !in a.handles && forall g | 0 <= g < fd :: g in a.handles
  }

  lemma RoomIsRoom(p: Params, a: Fs)
    requires p.blockSize > 0
    ensures RoomForFile(p, a) <==> !Client.InodesFull(p, a) && !Client.DirectoryFull(p, a)
  {
    var k := p.blockSize / 44;
    assert 44 * k <= p.blockSize < 44 * (k + 1);
  }

  lemma {:induction false} LeastIsNext(used: set<int>, max: nat, i: nat)
    requires i <= max && LeastUnused(used, max, i) >= 0
    ensures forall g | i <= g < LeastUnused(used, max, i) :: g in used
    decreases max - i
  {
    if i in used {
      LeastIsNext(used, max, i + 1);
    }
  }

  lemma HandleIsNext(p: Params, a: Fs)
    requires forall h | h in a.handles :: 0 <= h < p.handles
    ensures NextHandle(p, a, LeastUnused(a.handles.Keys, p.handles, 0))
  {
    var used := a.handles.Keys;
    assert used <= Range(p.handles);
    LeastUnusedFails(used, p.handles, 0);
    SubsetSize(used, Range(p.handles));
    assert |used| == |a.handles|;
    if LeastUnused(used, p.handles, 0) >= 0 {
      LeastIsNext(used, p.handles, 0);
    }
  }

  /** The file named `n` is opened, created if asked for, allowed and possible, and truncated if asked for; the handle
      is the next one, at the start or the end of that file. */
  ghost predicate Opened(p: Params, a: Fs, n: CStr, mode: Mode, b: Fs, fd: int) {
    if Reaches(p, a, n, mode) then
      (var content := if n in a.files && !mode.trunc then a.files[n] else [];
       b.files == a.files[n := content] && NextHandle(p, a, fd)
       && b.handles == if fd == -1 then a.handles
                       else a.handles[fd := Client.Handle(n, if mode.append then |content| else 0)])
    else fd == -1 && b == a
  }

  /** A truncation finds no cursor past the start of the file. */
  ghost predicate MayOpen(a: Fs, n: CStr, mode: Mode) {
    mode.trunc && n in a.files && a.files[n] != [] ==>
      forall h | h in a.handles && a.handles[h].name == n :: a.handles[h].cursor == 0
  }

  ghost predicate OpensFile(st: State, n: CStr, mode: Mode, o: Outcome<int>)
    requires Inv(st)
  {
    o.Done? && Inv(o.st) && o.st.p == st.p && Opened(st.p, Abs(st), n, mode, Abs(o.st), o.ret)
  }

  /** An open of "/" and `n` opens the file named `n`. */
  lemma OpenByName(st: State, n: CStr, mode: Mode)
    requires Inv(st) && n != [] && MayOpen(Abs(st), n, mode)
    ensures OpensFile(st, n, mode, TfsOpen(st, Name(['/' as int] + n), mode))
  {
    hide Inv, Abs, TfsOpen, Opened, Client.Open, Client.FsOk, ValidPathname, BaseName;
    HandleNumbers(st);
    MayTruncate(Abs(st), n, mode);
    OpenRefines(st, Name(['/' as int] + n), mode);
    ClientOpens(st.p, Abs(st), n, mode);
  }

  lemma HandleNumbers(st: State)
    requires Inv(st)
    ensures forall h | h in Abs(st).handles :: 0 <= h < st.p.handles
  {
    hide Inv, Abs;
    AbsOk(st);
  }

  lemma MayTruncate(a: Fs, n: CStr, mode: Mode)
    requires n != [] && MayOpen(a, n, mode)
    ensures Client.TruncAllowed(a, Name(['/' as int] + n), mode)
  {
    PathNames(n);
  }

  lemma ClientOpens(p: Params, a: Fs, n: CStr, mode: Mode)
    requires p.blockSize > 0 && n != [] && forall h | h in a.handles :: 0 <= h < p.handles
    ensures var (b, fd) := Client.Open(p, a, Name(['/' as int] + n), mode); Opened(p, a, n, mode, b, fd)
  {
    hide NextHandle, RoomForFile, Client.InodesFull, Client.DirectoryFull;
    PathNames(n);
    RoomIsRoom(p, a);
    HandleIsNext(p, a);
  }

  /** A file that is not there yet is created and opened exactly when creation is asked for, its path has 2 to 40
      characters, the first of them a slash, and an inode, a directory record and a handle are free. */
  lemma CreatesIff(st: State, chars: CStr, mode: Mode)
    requires Inv(st) && forall n | chars == ['/' as int] + n :: n !in Abs(st).files
    ensures TfsOpen(st, Name(chars), mode).Done?
    ensures TfsOpen(st, Name(chars), mode).ret >= 0 <==>
            mode.creat && 2 <= |chars| <= 40 && chars[0] == '/' as int
            && RoomForFile(st.p, Abs(st)) && |Abs(st).handles| < st.p.handles
  {
    hide Inv, Abs, TfsOpen, RoomForFile;
    if |chars| < 2 || chars[0] != '/' as int {
      BadPathsAreRefused(st, Name(chars), mode, Inode(T_DIRECTORY, 0, 0));
    } else {
      var n := chars[1..];
      assert chars == ['/' as int] + n;
      OpenByName(st, n, mode);
    }
  }

  // ---------------------------------------------------------------- parameters

  /** There are tables of any size whose numbers fit the C types. */
  lemma AnyParams(p: Params) returns (raw: State)
    requires p.blockSize > 0 && p.inodes <= 0x7FFF_FFFF && p.blocks <= 0x7FFF_FFFF && p.handles <= 0x7FFF_FFFF
    requires p.blockSize / 44 <= 0x7FFF_FFFF && p.blocks * p.blockSize <= 0x7FFF_FFFF_FFFF_FFFF
    ensures raw.p == p
  {
    var t := Tables(p, seq(p.inodes, _ => FREE), seq(p.inodes, _ => Inode(T_FILE, 0, 0)), seq(p.blocks, _ => FREE),
                    seq(Addr(p, p.blocks), _ => 0), seq(p.handles, _ => FREE), seq(p.handles, _ => OpenFile(0, 0)));
    assert WellSized(t);
    raw := t;
  }

  /** In every state: no more files than inodes and directory records allow, no more handles than there are, no file
      longer than a block. */
  lemma Limits(st: State)
    requires Inv(st)
    ensures |Abs(st).files| + 1 <= st.p.inodes && 44 * |Abs(st).files| <= st.p.blockSize
    ensures |Abs(st).handles| <= st.p.handles
    ensures forall n | n in Abs(st).files :: |Abs(st).files[n]| <= st.p.blockSize
  {
    hide Inv, Abs;
    InodeCount(st);
    HandleCount(st);
    AbsOk(st);
    var k := st.p.blockSize / 44;
    assert 44 * |Abs(st).files| <= 44 * k <= st.p.blockSize;
  }

  /** What a write is to return: what fits the block after the cursor, unless a first block is needed and there is
      none. */
  ghost predicate Written(p: Params, a: Fs, h: int, length: nat, r: int) {
    Client.HandleOk(a, h) && a.handles[h].cursor <= p.blockSize &&
    var (n, room) := (a.handles[h].name, p.blockSize - a.handles[h].cursor);
    var count := if length <= room then length else room;
    r == if count > 0 && a.files[n] == [] && |Client.NonEmpty(a.files)| + 1 >= p.blocks then -1 else count
  }

  lemma ClientWrites(p: Params, a: Fs, h: int, buffer: seq<byte>)
    requires Client.FsOk(p, a) && h in a.handles
    ensures Written(p, a, h, |buffer|, Client.Write(p, a, h, buffer).1)
  {
    hide Client.NonEmpty, Client.StoreAt, ValidName;
    assert Client.HandleOk(a, h);
  }

  lemma WriteByHandle(st: State, h: int, buffer: seq<byte>)
    requires Inv(st) && |buffer| <= 0x7FFF_FFFF_FFFF_FFFF && h in Abs(st).handles
    ensures TfsWrite(st, h, buffer).Done? && Written(st.p, Abs(st), h, |buffer|, TfsWrite(st, h, buffer).ret)
  {
    hide Inv, Abs, TfsWrite, Client.Write, Client.FsOk, Written;
    WriteRefines(st, h, buffer);
    ClientWrites(st.p, Abs(st), h, buffer);
  }

  /** `k` opens of one file in a row. */
  function OpenAgain(n: CStr, k: nat): seq<Op> {
    if k == 0 then [] else [Open(Name(['/' as int] + n), CREATE)] + OpenAgain(n, k - 1)
  }

  /** Handles `0` to `k - 1` are open. */
  ghost predicate InARow(a: Fs, k: int) { |a.handles| == k && forall g :: g in a.handles <==> 0 <= g < k }

  lemma NextInARow(p: Params, a: Fs, n: CStr, b: Fs, fd: int, k: int)
    requires Opened(p, a, n, CREATE, b, fd) && Reaches(p, a, n, CREATE) && InARow(a, k) && k <= p.handles
    ensures n in b.files && (if k < p.handles then fd == k && InARow(b, k + 1) else fd == -1 && InARow(b, k))
  {
    hide Reaches;
    if k < p.handles {
      NextNumber(p, a, fd, k);
      MoreInARow(a.handles, b.handles, fd, k);
    }
  }

  lemma NextNumber(p: Params, a: Fs, fd: int, k: int)
    requires NextHandle(p, a, fd) && InARow(a, k) && k < p.handles
    ensures fd == k
  {
    assert k !in a.handles;
  }

  lemma MoreInARow(a: map<int, Client.Handle>, b: map<int, Client.Handle>, fd: int, k: int)
    requires |a| == k && (forall g :: g in a <==> 0 <= g < k) && fd == k && b.Keys == a.Keys + {fd}
    ensures |b| == k + 1 && forall g :: g in b <==> 0 <= g < k + 1
  {
    assert |b| == |b.Keys| && |a| == |a.Keys|;
  }

  /** Opens of one file, none of them closed, return the handles in order until there are none left, and then -1. */
  lemma {:induction false} HandlesInARow(st: State, n: CStr, j: nat, k: nat)
    requires Inv(st) && Reaches(st.p, Abs(st), n, CREATE) && n != [] && InARow(Abs(st), j)
    ensures Run(st, OpenAgain(n, k)).Done? && |Run(st, OpenAgain(n, k)).ret| == k
    ensures forall i | 0 <= i < k ::
              Run(st, OpenAgain(n, k)).ret[i].code == if j + i < st.p.handles then j + i else -1
    decreases k
  {
    hide Inv, Abs, TfsOpen, Opened, InARow, RoomForFile;
    if k > 0 {
      var path := Name(['/' as int] + n);
      OpenByName(st, n, CREATE);
      HandlesBounded(st, j);
      var Done(s, fd) := TfsOpen(st, path, CREATE);
      NextInARow(st.p, Abs(st), n, Abs(s), fd, j);
      assert OpenAgain(n, k)[1..] == OpenAgain(n, k - 1);
      assert OpenAgain(n, k)[0] == Open(path, CREATE);
      HandlesInARow(s, n, if fd == -1 then j else j + 1, k - 1);
      var rest := Run(s, OpenAgain(n, k - 1)).ret;
      assert Run(st, OpenAgain(n, k)).ret == [Ret(fd, [])] + rest;
    }
  }

  lemma HandlesBounded(st: State, j: nat)
    requires Inv(st) && InARow(Abs(st), j)
    ensures j <= st.p.handles
  {
    hide Inv, Abs;
    HandleCount(st);
  }

  /** After `tfs_init(NULL)`, whose parameters are these, a file can be opened 16 times at once and no more. */
  lemma SixteenHandles(raw: State, n: CStr, k: nat)
    requires raw.p.inodes == 64 && raw.p.blocks == 1024 && raw.p.handles == 16 && raw.p.blockSize == 1024
    requires 1 <= |n| <= 39
    ensures TfsInit(raw).Done? && TfsInit(raw).ret == 0 && Run(TfsInit(raw).st, OpenAgain(n, k)).Done?
    ensures |Run(TfsInit(raw).st, OpenAgain(n, k)).ret| == k
    ensures forall i | 0 <= i < k ::
              Run(TfsInit(raw).st, OpenAgain(n, k)).ret[i].code == if i < 16 then i else -1
  {
    hide Inv, Abs, TfsInit, Run;
    InitRefines(raw);
    HandlesInARow(TfsInit(raw).st, n, 0, k);
  }
}
