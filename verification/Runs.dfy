/** Whole runs: any sequence of calls, on the tables and on the client's file system. */
module Runs {
  import opened Bytes
  import opened FsState
  import opened Operations
  import Client = AbstractFs
  import opened Refinement

  type Fs = Client.Fs

  datatype Op =
    | Open(path: Path, mode: Mode)
    | Close(h: int)
    | Write(h: int, buffer: seq<byte>)
    | Read(h: int, len: nat)
    | Unlink(path: Path)

  /** A return value, and the bytes a read delivers. */
  datatype Ret = Ret(code: int, bytes: seq<byte>)

  function Step(st: State, op: Op): Outcome<Ret> {
    match op
    case Open(path, mode) => var (s, r) :- TfsOpen(st, path, mode); Done(s, Ret(r, []))
    case Close(h) => var (s, r) :- TfsClose(st, h); Done(s, Ret(r, []))
    case Write(h, buffer) => var (s, r) :- TfsWrite(st, h, buffer); Done(s, Ret(r, []))
    case Read(h, len) => var (s, r) :- TfsRead(st, h, len); Done(s, Ret(r.0, r.1))
    case Unlink(path) => var (s, r) :- TfsUnlink(st, path); Done(s, Ret(r, []))
  }

  function Run(st: State, ops: seq<Op>): Outcome<seq<Ret>>
    decreases |ops|
  {
    if ops == [] then Done(st, [])
    else
      var (s, r) :- Step(st, ops[0]);
      var (t, rs) :- Run(s, ops[1..]);
      Done(t, [r] + rs)
  }

  /** What a client may do in state `a`. */
  ghost predicate Allowed(a: Fs, op: Op) {
    match op
    case Open(path, mode) => Client.TruncAllowed(a, path, mode)
    case Write(_, buffer) => Client.BufferFits(buffer)
    case Unlink(path) => Client.UnlinkAllowed(a, path)
    case Close(_) => true
    case Read(_, _) => true
  }

  ghost function ClientStep(p: Params, a: Fs, op: Op): (Fs, Ret)
    requires p.blockSize > 0 && Client.FsOk(p, a)
  {
    match op
    case Open(path, mode) => var (b, r) := Client.Open(p, a, path, mode); (b, Ret(r, []))
    case Close(h) => var (b, r) := Client.Close(a, h); (b, Ret(r, []))
    case Write(h, buffer) => var (b, r) := Client.Write(p, a, h, buffer); (b, Ret(r, []))
    case Read(h, len) => var (b, r) := Client.Read(p, a, h, len); (b, Ret(r.0, r.1))
    case Unlink(path) => var (b, r) := Client.Unlink(a, path); (b, Ret(r, []))
  }

  lemma ClientOpenOk(p: Params, a: Fs, path: Path, mode: Mode)
    requires p.blockSize > 0 && Client.FsOk(p, a) && Client.TruncAllowed(a, path, mode)
    ensures Client.FsOk(p, Client.Open(p, a, path, mode).0)
  {
    hide Client.InodesFull, Client.DirectoryFull;
  }

  lemma ClientWriteOk(p: Params, a: Fs, h: int, buffer: seq<byte>)
    requires p.blockSize > 0 && Client.FsOk(p, a)
    ensures Client.FsOk(p, Client.Write(p, a, h, buffer).0)
  {
  }

  lemma ClientUnlinkOk(p: Params, a: Fs, path: Path)
    requires Client.FsOk(p, a) && Client.UnlinkAllowed(a, path)
    ensures Client.FsOk(p, Client.Unlink(a, path).0)
  {
  }

  /** The client's file system stays well-formed. */
  lemma ClientStepOk(p: Params, a: Fs, op: Op)
    requires p.blockSize > 0 && Client.FsOk(p, a) && Allowed(a, op)
    ensures Client.FsOk(p, ClientStep(p, a, op).0)
  {
    hide Client.Open, Client.Write, Client.Unlink, Client.TruncAllowed, Client.UnlinkAllowed;
    match op
    case Open(path, mode) => ClientOpenOk(p, a, path, mode);
    case Write(h, buffer) => ClientWriteOk(p, a, h, buffer);
    case Unlink(path) => ClientUnlinkOk(p, a, path);
    case Close(_) =>
    case Read(_, _) =>
  }

  ghost predicate AllowedRun(p: Params, a: Fs, ops: seq<Op>)
    requires p.blockSize > 0 && Client.FsOk(p, a)
    decreases |ops|
  {
    ops == [] ||
    (Allowed(a, ops[0]) &&
     (ClientStepOk(p, a, ops[0]); AllowedRun(p, ClientStep(p, a, ops[0]).0, ops[1..])))
  }

  ghost function ClientRun(p: Params, a: Fs, ops: seq<Op>): (Fs, seq<Ret>)
    requires p.blockSize > 0 && Client.FsOk(p, a) && AllowedRun(p, a, ops)
    decreases |ops|
  {
    if ops == [] then (a, [])
    else
      var (b, r) := ClientStep(p, a, ops[0]);
      ClientStepOk(p, a, ops[0]);
      var (c, rs) := ClientRun(p, b, ops[1..]);
      (c, [r] + rs)
  }

  /** From `st`, every call of the run is allowed when it is made. */
  ghost predicate CanRun(st: State, ops: seq<Op>) {
    Inv(st) && Client.FsOk(st.p, Abs(st)) && AllowedRun(st.p, Abs(st), ops)
  }

  lemma StepRefines(st: State, op: Op)
    requires Inv(st) && Allowed(Abs(st), op)
    ensures Client.FsOk(st.p, Abs(st))
    ensures Step(st, op).Done?
    ensures var Done(s, r) := Step(st, op);
            Inv(s) && s.p == st.p && (Abs(s), r) == ClientStep(st.p, Abs(st), op)
  {
    hide Inv, Abs, Client.Open, Client.Close, Client.Write, Client.Read, Client.Unlink,
         TfsOpen, TfsClose, TfsWrite, TfsRead, TfsUnlink, Client.FsOk;
    AbsOk(st);
    match op
    case Open(path, mode) => OpenRefines(st, path, mode);
    case Close(h) => CloseRefines(st, h);
    case Write(h, buffer) => WriteRefines(st, h, buffer);
    case Read(h, len) => ReadRefines(st, h, len);
    case Unlink(path) => UnlinkRefines(st, path);
  }

  /** Any allowed run goes through without a failed assertion or a stray access, keeps the invariant, returns
      exactly what the client's file system returns, and ends in the corresponding state. */
  lemma {:induction false} RunRefines(st: State, ops: seq<Op>)
    requires CanRun(st, ops)
    ensures Run(st, ops).Done?
    ensures var Done(t, rs) := Run(st, ops);
            Inv(t) && t.p == st.p && (Abs(t), rs) == ClientRun(st.p, Abs(st), ops)
    decreases |ops|
  {
    hide Inv, Abs, Step, ClientStep, Allowed, Client.FsOk;
    if ops != [] {
      StepRefines(st, ops[0]);
      ClientStepOk(st.p, Abs(st), ops[0]);
      RunRefines(Step(st, ops[0]).st, ops[1..]);
    }
  }

  /** The file system from `tfs_init` on, whatever `malloc` left in its tables. */
  lemma FileSystemRefinesClient(raw: State, ops: seq<Op>)
    requires raw.p.inodes > 0 && raw.p.blocks > 0
    requires AllowedRun(raw.p, Client.EMPTY_FS, ops)
    ensures TfsInit(raw).Done? && TfsInit(raw).ret == 0
    ensures Run(TfsInit(raw).st, ops).Done?
    ensures var Done(t, rs) := Run(TfsInit(raw).st, ops);
            Inv(t) && t.p == raw.p && (Abs(t), rs) == ClientRun(raw.p, Client.EMPTY_FS, ops)
  {
    hide Inv, Abs, TfsInit, Run, AllowedRun, ClientRun;
    InitRefines(raw);
    AbsOk(TfsInit(raw).st);
    RunRefines(TfsInit(raw).st, ops);
  }
}
