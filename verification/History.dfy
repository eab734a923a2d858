/** No stale data: what a file holds is decided by the log of calls alone, however blocks and inodes are recycled. */
module History {
  import opened Bytes
  import opened Directory
  import opened FsState
  import opened Operations
  import Client = AbstractFs
  import opened Refinement
  import opened Runs

  /** What a call did: a file was created or truncated, removed, or written at a position. */
  datatype Event = Emptied(name: CStr) | Removed(name: CStr) | Wrote(name: CStr, at: nat, bytes: seq<byte>)

  ghost function EventsOf(p: Params, a: Fs, op: Op): seq<Event>
    requires p.blockSize > 0 && Client.FsOk(p, a)
  {
    var (b, r) := ClientStep(p, a, op);
    match op
    case Open(path, mode) =>
      if ValidPathname(path) && BaseName(path) in b.files && (BaseName(path) in a.files ==> mode.trunc)
      then [Emptied(BaseName(path))] else []
    case Write(h, buffer) =>
      if r.code > 0 then [Wrote(a.handles[h].name, a.handles[h].cursor, buffer[..r.code])] else []
    case Unlink(path) => if r.code == 0 then [Removed(BaseName(path))] else []
    case Close(_) => []
    case Read(_, _) => []
  }

  ghost function Log(p: Params, a: Fs, ops: seq<Op>): seq<Event>
    requires p.blockSize > 0 && Client.FsOk(p, a) && AllowedRun(p, a, ops)
    decreases |ops|
  {
    if ops == [] then []
    else
      ClientStepOk(p, a, ops[0]);
      EventsOf(p, a, ops[0]) + Log(p, ClientStep(p, a, ops[0]).0, ops[1..])
  }

  datatype Latest = Nothing | Byte(b: byte)

  /** The latest byte written at position `pos` of file `n` since it was last created, truncated or removed. */
  function LatestByte(log: seq<Event>, n: CStr, pos: nat): Latest {
    if log == [] then Nothing
    else
      var e := log[|log| - 1];
      if e.name != n then LatestByte(log[..|log| - 1], n, pos)
      else
        match e
        case Wrote(_, at, bytes) =>
          if at <= pos < at + |bytes| then Byte(bytes[pos - at]) else LatestByte(log[..|log| - 1], n, pos)
        case Emptied(_) => Nothing
        case Removed(_) => Nothing
  }

  /** The byte a client sees at a position of a file, if there is one. */
  ghost function ByteAt(a: Fs, n: CStr, pos: nat): Latest {
    if n in a.files && pos < |a.files[n]| then Byte(a.files[n][pos]) else Nothing
  }

  ghost predicate Describes(log: seq<Event>, a: Fs) {
    forall n: CStr, pos: nat :: LatestByte(log, n, pos) == ByteAt(a, n, pos)
  }

  lemma LatestAfter(log: seq<Event>, e: Event, n: CStr, pos: nat)
    ensures LatestByte(log + [e], n, pos) ==
            (if e.name != n then LatestByte(log, n, pos)
             else match e
                  case Wrote(_, at, bytes) =>
                    if at <= pos < at + |bytes| then Byte(bytes[pos - at]) else LatestByte(log, n, pos)
                  case Emptied(_) => Nothing
                  case Removed(_) => Nothing)
    ensures log + [] == log
  {
    assert (log + [e])[..|log|] == log;
  }

  lemma WriteByte(p: Params, a: Fs, h: int, buffer: seq<byte>, n: CStr, pos: nat)
    requires p.blockSize > 0 && Client.FsOk(p, a)
    ensures Client.Write(p, a, h, buffer).1 <= |buffer|
    ensures Client.Write(p, a, h, buffer).1 > 0 ==> h in a.handles
    ensures var (b, r) := Client.Write(p, a, h, buffer);
            ByteAt(b, n, pos) ==
            if r > 0 && a.handles[h].name == n && a.handles[h].cursor <= pos < a.handles[h].cursor + r
            then Byte(buffer[pos - a.handles[h].cursor])
            else ByteAt(a, n, pos)
  {
    hide Client.BlocksFull, ValidName;
    assert h in a.handles ==> Client.HandleOk(a, h);
  }

  lemma OpenByte(p: Params, a: Fs, path: Path, mode: Mode, n: CStr, pos: nat)
    requires p.blockSize > 0
    ensures ValidPathname(path) && BaseName(path) in a.files ==> BaseName(path) in Client.Open(p, a, path, mode).0.files
    ensures var b := Client.Open(p, a, path, mode).0;
            ByteAt(b, n, pos) ==
            if ValidPathname(path) && BaseName(path) == n && (n !in a.files || mode.trunc) then Nothing
            else ByteAt(a, n, pos)
  {
    hide Client.InodesFull, Client.DirectoryFull, ValidName;
  }

  /** What the log says after one call, byte by byte. */
  lemma StepByte(p: Params, a: Fs, op: Op, log: seq<Event>, n: CStr, pos: nat)
    requires p.blockSize > 0 && Client.FsOk(p, a) && LatestByte(log, n, pos) == ByteAt(a, n, pos)
    ensures LatestByte(log + EventsOf(p, a, op), n, pos) == ByteAt(ClientStep(p, a, op).0, n, pos)
  {
    hide Client.Open, Client.Write, LatestByte;
    var events := EventsOf(p, a, op);
    assert events == [] || events == [events[0]];
    LatestAfter(log, if events == [] then Emptied(n) else events[0], n, pos);
    match op
    case Open(path, mode) => OpenByte(p, a, path, mode, n, pos);
    case Write(h, buffer) => WriteByte(p, a, h, buffer, n, pos);
    case Close(_) =>
    case Read(_, _) =>
    case Unlink(_) =>
  }

  lemma StepDescribes(p: Params, a: Fs, op: Op, log: seq<Event>)
    requires p.blockSize > 0 && Client.FsOk(p, a) && Describes(log, a)
    ensures Describes(log + EventsOf(p, a, op), ClientStep(p, a, op).0)
  {
    hide ClientStep, EventsOf, Client.FsOk, LatestByte, ByteAt;
    forall n: CStr, pos: nat
      ensures LatestByte(log + EventsOf(p, a, op), n, pos) == ByteAt(ClientStep(p, a, op).0, n, pos)
    {
      StepByte(p, a, op, log, n, pos);
    }
  }

  lemma {:induction false} RunDescribes(p: Params, a: Fs, ops: seq<Op>, log: seq<Event>)
    requires p.blockSize > 0 && Client.FsOk(p, a) && AllowedRun(p, a, ops) && Describes(log, a)
    ensures Describes(log + Log(p, a, ops), ClientRun(p, a, ops).0)
    decreases |ops|
  {
    hide ClientStep, EventsOf, Describes, Client.FsOk, Allowed;
    if ops == [] {
      assert log + Log(p, a, ops) == log;
    } else {
      ClientStepOk(p, a, ops[0]);
      StepDescribes(p, a, ops[0], log);
      var rest := Log(p, ClientStep(p, a, ops[0]).0, ops[1..]);
      RunDescribes(p, ClientStep(p, a, ops[0]).0, ops[1..], log + EventsOf(p, a, ops[0]));
      assert log + EventsOf(p, a, ops[0]) + rest == log + (EventsOf(p, a, ops[0]) + rest);
    }
  }

  /** After any allowed run from `tfs_init`, the log of its calls gives every byte of every file that the tables stand
      for, and the end of each file. */
  lemma LogDescribesTables(raw: State, ops: seq<Op>)
    requires raw.p.inodes > 0 && raw.p.blocks > 0
    requires AllowedRun(raw.p, Client.EMPTY_FS, ops)
    ensures TfsInit(raw).Done? && Run(TfsInit(raw).st, ops).Done?
    ensures Inv(Run(TfsInit(raw).st, ops).st)
    ensures Describes(Log(raw.p, Client.EMPTY_FS, ops), Abs(Run(TfsInit(raw).st, ops).st))
  {
    hide Inv, Abs, TfsInit, Run, AllowedRun, Log, Describes, Client.FsOk;
    FileSystemRefinesClient(raw, ops);
    EmptyLog(raw.p);
    RunDescribes(raw.p, Client.EMPTY_FS, ops, []);
    assert [] + Log(raw.p, Client.EMPTY_FS, ops) == Log(raw.p, Client.EMPTY_FS, ops);
  }

  /** `bytes` are the latest bytes written from `cursor` on, and only the end of the file cuts them short of `len`. */
  ghost predicate IsLatest(log: seq<Event>, n: CStr, cursor: nat, len: nat, bytes: seq<byte>) {
    |bytes| <= len &&
    (forall k: nat | k < |bytes| :: LatestByte(log, n, cursor + k) == Byte(bytes[k])) &&
    (|bytes| < len ==> LatestByte(log, n, cursor + |bytes|) == Nothing)
  }

  lemma ReadIsLatest(p: Params, a: Fs, log: seq<Event>, h: int, len: nat)
    requires p.blockSize > 0 && Client.FsOk(p, a) && Describes(log, a) && h in a.handles
    ensures var (count, bytes) := Client.Read(p, a, h, len).1;
            count == |bytes| && IsLatest(log, a.handles[h].name, a.handles[h].cursor, len, bytes)
  {
  }

  /** After any allowed run from `tfs_init`, each byte that `tfs_read` returns is the latest one written there. */
  lemma ReadsLatestBytes(raw: State, ops: seq<Op>, h: int, len: nat)
    requires raw.p.inodes > 0 && raw.p.blocks > 0
    requires AllowedRun(raw.p, Client.EMPTY_FS, ops)
    ensures TfsInit(raw).Done? && Run(TfsInit(raw).st, ops).Done?
    ensures var t := Run(TfsInit(raw).st, ops).st;
            Inv(t) && TfsRead(t, h, len).Done? &&
            (IsOpen(t, h) ==>
               h in Abs(t).handles && TfsRead(t, h, len).ret.0 == |TfsRead(t, h, len).ret.1|
               && IsLatest(Log(raw.p, Client.EMPTY_FS, ops), Abs(t).handles[h].name, Abs(t).handles[h].cursor, len,
                           TfsRead(t, h, len).ret.1))
  {
    hide Inv, Abs, TfsInit, TfsRead, Run, AllowedRun, Log, Describes, IsLatest, Client.Read, Client.FsOk;
    FileSystemRefinesClient(raw, ops);
    EmptyLog(raw.p);
    LogDescribesTables(raw, ops);
    var t := Run(TfsInit(raw).st, ops).st;
    ReadRefines(t, h, len);
    AbsKeys(t);
    if IsOpen(t, h) {
      ReadIsLatest(raw.p, Abs(t), Log(raw.p, Client.EMPTY_FS, ops), h, len);
    }
  }

  lemma EmptyLog(p: Params)
    ensures Client.FsOk(p, Client.EMPTY_FS) && Describes([], Client.EMPTY_FS)
  {
  }
}
