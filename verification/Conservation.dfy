/** Nothing leaks: the bitmaps always account for exactly the names, non-empty files and open handles there are. */
module Conservation {
  import opened Bytes
  import opened Bitmap
  import opened FsState
  import opened Operations
  import Client = AbstractFs
  import opened Refinement
  import opened Runs

  /** After any allowed run from `tfs_init`: one inode for the root and one per name, one block for the root and one
      per non-empty file, one table entry per open handle. */
  lemma BitmapsAccountForEverything(raw: State, ops: seq<Op>)
    requires raw.p.inodes > 0 && raw.p.blocks > 0 && AllowedRun(raw.p, Client.EMPTY_FS, ops)
    ensures TfsInit(raw).Done? && Run(TfsInit(raw).st, ops).Done?
    ensures var t := Run(TfsInit(raw).st, ops).st;
            Inv(t) &&
            |Taken(t.inodeBits)| == 1 + |Abs(t).files| &&
            |Taken(t.blockBits)| == 1 + |Client.NonEmpty(Abs(t).files)| &&
            |Taken(t.handleBits)|
            == Opens(ops, Run(TfsInit(raw).st, ops).ret) - Closes(ops, Run(TfsInit(raw).st, ops).ret)
  {
    hide Inv, Abs, Run, TfsInit, ClientRun, AllowedRun, Opens, Closes;
    FileSystemRefinesClient(raw, ops);
    var t := Run(TfsInit(raw).st, ops).st;
    InodeCount(t);
    BlockCount(t);
    HandleCount(t);
    HandlesBalance(raw.p, Client.EMPTY_FS, ops);
  }

  /** How many opens of a run succeeded. */
  function Opens(ops: seq<Op>, rets: seq<Ret>): nat {
    if ops == [] || rets == [] then 0
    else (if ops[0].Open? && rets[0].code >= 0 then 1 else 0) + Opens(ops[1..], rets[1..])
  }

  /** How many closes of a run succeeded. */
  function Closes(ops: seq<Op>, rets: seq<Ret>): nat {
    if ops == [] || rets == [] then 0
    else (if ops[0].Close? && rets[0].code >= 0 then 1 else 0) + Closes(ops[1..], rets[1..])
  }

  lemma OpenBalance(p: Params, a: Fs, path: Path, mode: Mode)
    requires p.blockSize > 0
    ensures var (b, r) := Client.Open(p, a, path, mode);
            |b.handles| == |a.handles| + if r >= 0 then 1 else 0
  {
  }

  lemma StepBalance(p: Params, a: Fs, op: Op)
    requires p.blockSize > 0 && Client.FsOk(p, a) && Allowed(a, op)
    ensures var (b, r) := ClientStep(p, a, op);
            |b.handles| == |a.handles| + Opens([op], [r]) - Closes([op], [r])
  {
    hide Client.Open, Client.Overwrite, Allowed;
    var (b, r) := ClientStep(p, a, op);
    assert |b.handles| == |b.handles.Keys| && |a.handles| == |a.handles.Keys|;
    match op
    case Open(path, mode) =>
      OpenBalance(p, a, path, mode);
    case Close(h) =>
      assert r.code >= 0 ==> b.handles.Keys == a.handles.Keys - {h};
    case Write(_, _) =>
      assert b.handles.Keys == a.handles.Keys;
    case Read(_, _) =>
      assert b.handles.Keys == a.handles.Keys;
    case Unlink(_) =>
  }

  lemma {:induction false} HandlesBalance(p: Params, a: Fs, ops: seq<Op>)
    requires p.blockSize > 0 && Client.FsOk(p, a) && AllowedRun(p, a, ops)
    ensures var (b, rets) := ClientRun(p, a, ops);
            |b.handles| == |a.handles| + Opens(ops, rets) - Closes(ops, rets)
    decreases |ops|
  {
    hide Allowed, ClientStep, Client.FsOk;
    if ops != [] {
      StepBalance(p, a, ops[0]);
      ClientStepOk(p, a, ops[0]);
      HandlesBalance(p, ClientStep(p, a, ops[0]).0, ops[1..]);
    }
  }

  // ---------------------------------------------------------------- putting everything back

  /** With no names and no handles left, all three bitmaps are exactly as `tfs_init` leaves them. */
  lemma EmptyMeansInitialBitmaps(st: State)
    requires Inv(st) && Abs(st) == Client.EMPTY_FS
    ensures OnlyRootTaken(st)
  {
    InodeCount(st);
    BlockCount(st);
    HandleCount(st);
    assert Client.NonEmpty(Abs(st).files) == {};
    OneTaken(st.inodeBits);
    OneTaken(st.blockBits);
    NoneTaken(st.handleBits);
  }

  lemma OneTaken(bits: seq<Alloc>)
    requires |Taken(bits)| == 1 && |bits| > 0 && bits[0] == TAKEN
    ensures bits == seq(|bits|, i => if i == 0 then TAKEN else FREE)
  {
    assert 0 in Taken(bits);
    forall i | 0 < i < |bits|
      ensures bits[i] == FREE
    {
      if bits[i] == TAKEN {
        SubsetSize({0, i}, Taken(bits));
      }
    }
  }

  lemma NoneTaken(bits: seq<Alloc>)
    requires |Taken(bits)| == 0
    ensures bits == seq(|bits|, _ => FREE)
  {
    forall i | 0 <= i < |bits|
      ensures bits[i] == FREE
    {
      assert i !in Taken(bits);
    }
  }

  /** The path of a file. */
  function PathOf(n: CStr): Path { Name(['/' as int] + n) }

  ghost function SomeKey<K, V>(m: map<K, V>): (k: K)
    requires m != map[]
    ensures k in m
  {
    var k :| k in m;
    k
  }

  /** Closes every handle, then unlinks every name. */
  ghost function Cleanup(a: Fs): seq<Op>
    decreases |a.handles| + |a.files|
  {
    if a.handles != map[] then
      var h := SomeKey(a.handles);
      ShrinkMap(a.handles, h);
      [Close(h)] + Cleanup(a.(handles := a.handles - {h}))
    else if a.files != map[] then
      var n := SomeKey(a.files);
      ShrinkMap(a.files, n);
      [Unlink(PathOf(n))] + Cleanup(a.(files := a.files - {n}))
    else []
  }

  lemma ShrinkMap<K, V>(m: map<K, V>, k: K)
    requires k in m
    ensures |m - {k}| < |m|
  {
  }

  lemma {:induction false} CleanupEmpties(p: Params, a: Fs)
    requires p.blockSize > 0 && Client.FsOk(p, a)
    ensures AllowedRun(p, a, Cleanup(a)) && ClientRun(p, a, Cleanup(a)).0 == Client.EMPTY_FS
    ensures forall r | r in ClientRun(p, a, Cleanup(a)).1 :: r.code == 0
    decreases |a.handles| + |a.files|
  {
    if Cleanup(a) != [] {
      var op := Cleanup(a)[0];
      var b := ClientStep(p, a, op).0;
      if op.Close? {
        ShrinkMap(a.handles, op.h);
      } else {
        ShrinkMap(a.files, BaseName(op.path));
      }
      ClientStepOk(p, a, op);
      CleanupEmpties(p, b);
    }
  }

  /** From every state the invariant allows, closing all handles and unlinking all names succeeds call by call and
      restores the three bitmaps to what they were after `tfs_init`. */
  lemma CleanupRestoresBitmaps(st: State)
    requires Inv(st)
    ensures Run(st, Cleanup(Abs(st))).Done?
    ensures OnlyRootTaken(Run(st, Cleanup(Abs(st))).st)
    ensures forall r | r in Run(st, Cleanup(Abs(st))).ret :: r.code == 0
  {
    hide Inv, Abs, Run, ClientRun, Cleanup, AllowedRun, OnlyRootTaken;
    AbsOk(st);
    CleanupEmpties(st.p, Abs(st));
    RunRefines(st, Cleanup(Abs(st)));
    EmptyMeansInitialBitmaps(Run(st, Cleanup(Abs(st))).st);
  }
}
