/** One handle over a whole run: it stays on its file, and chunked writes and reads add up. */
module Streams {
  import opened Bytes
  import opened Directory
  import opened FsState
  import opened Operations
  import Client = AbstractFs
  import opened Refinement
  import opened Runs

  // ---------------------------------------------------------------- handle stability

  predicate NeverCloses(ops: seq<Op>, h: int) { forall k | 0 <= k < |ops| :: ops[k] != Close(h) }

  lemma StepKeepsName(p: Params, a: Fs, op: Op, h: int)
    requires p.blockSize > 0 && Client.FsOk(p, a) && Allowed(a, op) && h in a.handles && op != Close(h)
    ensures var b := ClientStep(p, a, op).0; h in b.handles && b.handles[h].name == a.handles[h].name
  {
  }

  lemma {:induction false} RunKeepsName(p: Params, a: Fs, ops: seq<Op>, h: int)
    requires p.blockSize > 0 && Client.FsOk(p, a) && AllowedRun(p, a, ops) && h in a.handles && NeverCloses(ops, h)
    ensures var b := ClientRun(p, a, ops).0; h in b.handles && b.handles[h].name == a.handles[h].name
    decreases |ops|
  {
    hide ClientStep, Allowed, Client.FsOk;
    if ops != [] {
      StepKeepsName(p, a, ops[0], h);
      ClientStepOk(p, a, ops[0]);
      RunKeepsName(p, ClientStep(p, a, ops[0]).0, ops[1..], h);
    }
  }

  lemma HandleFollowsName(st: State, ops: seq<Op>, h: int)
    requires CanRun(st, ops)
    requires h in Abs(st).handles && NeverCloses(ops, h)
    ensures Run(st, ops).Done?
    ensures var t := Run(st, ops).st;
            IsOpen(t, h) && t.p == st.p && ValidBlock(t, 0) &&
            FindFrom(Dir(t, 0), Abs(st).handles[h].name, 0) == t.handles[h].inumber
  {
    hide Run, ClientRun, Abs, Allowed;
    RunRefines(st, ops);
    RunKeepsName(st.p, Abs(st), ops, h);
    var t := Run(st, ops).st;
    AbsKeys(t);
    OpenHandle(t, h);
    FindRefinesLookup(Dir(t, 0), Abs(st).handles[h].name);
  }

  /** The handle `tfs_open` returns denotes the file of that name until it is closed: after any run that does not
      close it, looking the name up in the directory still gives the inode the handle is on. */
  lemma HandleIsStable(st: State, path: Path, mode: Mode, ops: seq<Op>)
    requires Inv(st) && Client.TruncAllowed(Abs(st), path, mode) && TfsOpen(st, path, mode).Done?
    requires TfsOpen(st, path, mode).ret >= 0
    requires CanRun(TfsOpen(st, path, mode).st, ops) && NeverCloses(ops, TfsOpen(st, path, mode).ret)
    ensures Run(TfsOpen(st, path, mode).st, ops).Done?
    ensures var Done(s, h) := TfsOpen(st, path, mode);
            var t := Run(s, ops).st;
            IsOpen(t, h) && t.p == st.p && ValidBlock(t, 0) && ValidPathname(path) &&
            FindFrom(Dir(t, 0), BaseName(path), 0) == t.handles[h].inumber
  {
    hide Run, Inv, Abs, TfsOpen, AllowedRun, NeverCloses, FindFrom, Client.TruncAllowed, Client.FsOk;
    OpenRefines(st, path, mode);
    HandleFollowsName(TfsOpen(st, path, mode).st, ops, TfsOpen(st, path, mode).ret);
  }

  // ---------------------------------------------------------------- calls on other files

  /** The call neither uses handle `h` nor changes the contents of its file. */
  ghost predicate Elsewhere(a: Fs, op: Op, h: int)
    requires h in a.handles
  {
    var n := a.handles[h].name;
    match op
    case Open(path, mode) => !(mode.trunc && ValidPathname(path) && BaseName(path) == n)
    case Close(g) => g != h
    case Write(g, _) => !(g in a.handles && a.handles[g].name == n)
    case Read(g, _) => g != h
    case Unlink(_) => true
  }

  lemma ElsewhereKeeps(p: Params, a: Fs, op: Op, h: int)
    requires p.blockSize > 0 && Client.FsOk(p, a) && Allowed(a, op) && h in a.handles && Elsewhere(a, op, h)
    ensures var b := ClientStep(p, a, op).0;
            h in b.handles && b.handles[h] == a.handles[h]
            && a.handles[h].name in b.files && b.files[a.handles[h].name] == a.files[a.handles[h].name]
  {
  }

  // ---------------------------------------------------------------- chunked writes

  function Prefix(s: seq<byte>, n: nat): seq<byte> { s[..Min(|s|, n)] }

  lemma PrefixAppend(s: seq<byte>, w: seq<byte>, rest: seq<byte>, n: nat)
    ensures Prefix(Prefix(s + w, n) + rest, n) == Prefix(s + (w + rest), n)
  {
  }

  /** Every call in the run is a successful write through `h` or happens elsewhere. */
  ghost predicate OneWriter(p: Params, a: Fs, ops: seq<Op>, h: int)
    requires p.blockSize > 0 && Client.FsOk(p, a) && AllowedRun(p, a, ops)
    decreases |ops|
  {
    ops == [] ||
    (h in a.handles &&
     (if ops[0].Write? && ops[0].h == h then ClientStep(p, a, ops[0]).1.code >= 0 else Elsewhere(a, ops[0], h)) &&
     (ClientStepOk(p, a, ops[0]); OneWriter(p, ClientStep(p, a, ops[0]).0, ops[1..], h)))
  }

  /** All the bytes offered through `h`. */
  function Offered(ops: seq<Op>, h: int): seq<byte> {
    if ops == [] then []
    else (if ops[0].Write? && ops[0].h == h then ops[0].buffer else []) + Offered(ops[1..], h)
  }

  /** The sum of the counts that the writes through `h` return. */
  function Counted(ops: seq<Op>, rets: seq<Ret>, h: int): int
    requires |ops| == |rets|
  {
    if ops == [] then 0
    else (if ops[0].Write? && ops[0].h == h then rets[0].code else 0) + Counted(ops[1..], rets[1..], h)
  }

  lemma {:induction false} ClientRunLength(p: Params, a: Fs, ops: seq<Op>)
    requires p.blockSize > 0 && Client.FsOk(p, a) && AllowedRun(p, a, ops)
    ensures |ClientRun(p, a, ops).1| == |ops|
    decreases |ops|
  {
    if ops != [] {
      ClientStepOk(p, a, ops[0]);
      ClientRunLength(p, ClientStep(p, a, ops[0]).0, ops[1..]);
    }
  }

  /** A write at the end of its file appends what fits. */
  lemma WriteAppends(p: Params, a: Fs, h: int, w: seq<byte>)
    requires p.blockSize > 0 && Client.FsOk(p, a) && h in a.handles
    requires a.handles[h].cursor == |a.files[a.handles[h].name]| && Client.Write(p, a, h, w).1 >= 0
    ensures var (b, count) := Client.Write(p, a, h, w);
            var n := a.handles[h].name;
            h in b.handles && n in b.files && b.files[n] == Prefix(a.files[n] + w, p.blockSize)
            && b.handles[h] == Client.Handle(n, |b.files[n]|) && count == |b.files[n]| - |a.files[n]|
  {
  }

  /** Writing through one handle at the end of its file, in any chunks and whatever happens on other files, appends
      the concatenation of the chunks up to the block size, and the counts add up to what was stored. */
  lemma {:induction false} ChunkedWrites(p: Params, a: Fs, ops: seq<Op>, h: int)
    requires p.blockSize > 0 && Client.FsOk(p, a) && AllowedRun(p, a, ops) && h in a.handles
    requires a.handles[h].cursor == |a.files[a.handles[h].name]| && OneWriter(p, a, ops, h)
    ensures |ClientRun(p, a, ops).1| == |ops|
    ensures var (b, rets) := ClientRun(p, a, ops);
            var n := a.handles[h].name;
            h in b.handles && n in b.files && b.files[n] == Prefix(a.files[n] + Offered(ops, h), p.blockSize)
            && b.handles[h] == Client.Handle(n, |b.files[n]|)
            && Counted(ops, rets, h) == |b.files[n]| - |a.files[n]|
    decreases |ops|
  {
    hide Allowed, Elsewhere, Prefix;
    var n := a.handles[h].name;
    ClientRunLength(p, a, ops);
    if ops == [] {
      assert Prefix(a.files[n] + [], p.blockSize) == a.files[n] by { PrefixWhole(a.files[n], p.blockSize); }
    } else {
      ClientStepOk(p, a, ops[0]);
      var c := ClientStep(p, a, ops[0]).0;
      var w := if ops[0].Write? && ops[0].h == h then ops[0].buffer else [];
      if ops[0].Write? && ops[0].h == h {
        WriteAppends(p, a, h, w);
      } else {
        ElsewhereKeeps(p, a, ops[0], h);
        PrefixWhole(a.files[n], p.blockSize);
      }
      ChunkedWrites(p, c, ops[1..], h);
      PrefixAppend(a.files[n], w, Offered(ops[1..], h), p.blockSize);
    }
  }

  lemma PrefixWhole(s: seq<byte>, n: nat)
    requires |s| <= n
    ensures Prefix(s + [], n) == s
  {
  }

  // ---------------------------------------------------------------- chunked reads

  /** Every call in the run is a read through `h` or happens elsewhere. */
  ghost predicate OneReader(p: Params, a: Fs, ops: seq<Op>, h: int)
    requires p.blockSize > 0 && Client.FsOk(p, a) && AllowedRun(p, a, ops)
    decreases |ops|
  {
    ops == [] ||
    (h in a.handles && ((ops[0].Read? && ops[0].h == h) || Elsewhere(a, ops[0], h)) &&
     (ClientStepOk(p, a, ops[0]); OneReader(p, ClientStep(p, a, ops[0]).0, ops[1..], h)))
  }

  /** How many bytes the reads through `h` ask for. */
  function Asked(ops: seq<Op>, h: int): nat {
    if ops == [] then 0
    else (if ops[0].Read? && ops[0].h == h then ops[0].len else 0) + Asked(ops[1..], h)
  }

  /** The bytes the reads through `h` return, in order. */
  function Delivered(ops: seq<Op>, rets: seq<Ret>, h: int): seq<byte>
    requires |ops| == |rets|
  {
    if ops == [] then []
    else (if ops[0].Read? && ops[0].h == h then rets[0].bytes else []) + Delivered(ops[1..], rets[1..], h)
  }

  /** A read delivers the bytes from the cursor on and leaves the cursor after them. */
  lemma ReadAdvances(p: Params, a: Fs, h: int, len: nat)
    requires p.blockSize > 0 && Client.FsOk(p, a) && h in a.handles
    ensures Client.HandleOk(a, h)
    ensures var (n, cursor) := (a.handles[h].name, a.handles[h].cursor);
            var got := Min(|a.files[n]| - cursor, len);
            var (b, (count, bytes)) := Client.Read(p, a, h, len);
            b.files == a.files && h in b.handles && b.handles[h] == Client.Handle(n, cursor + got)
            && bytes == a.files[n][cursor..cursor + got]
  {
    hide ValidName;
    assert Client.HandleOk(a, h);
  }

  /** Reading through one handle, in any chunks and whatever happens on other files, delivers the consecutive
      bytes of the file from the cursor on, and then nothing. */
  lemma {:induction false} ChunkedReads(p: Params, a: Fs, ops: seq<Op>, h: int)
    requires p.blockSize > 0 && Client.FsOk(p, a) && AllowedRun(p, a, ops) && h in a.handles
    requires OneReader(p, a, ops, h)
    ensures |ClientRun(p, a, ops).1| == |ops|
    ensures var (n, cursor) := (a.handles[h].name, a.handles[h].cursor);
            Delivered(ops, ClientRun(p, a, ops).1, h) == Prefix(a.files[n][cursor..], Asked(ops, h))
    decreases |ops|
  {
    hide Allowed, Elsewhere, Client.FsOk, Client.Read, Prefix;
    ClientRunLength(p, a, ops);
    ReadAdvances(p, a, h, 0);
    var (n, cursor) := (a.handles[h].name, a.handles[h].cursor);
    if ops == [] {
      PrefixNone(a.files[n][cursor..]);
    } else {
      ClientStepOk(p, a, ops[0]);
      var c := ClientStep(p, a, ops[0]).0;
      if ops[0].Read? && ops[0].h == h {
        ReadAdvances(p, a, h, ops[0].len);
        ChunkedReads(p, c, ops[1..], h);
        PrefixSplit(a.files[n], cursor, ops[0].len, Asked(ops[1..], h));
      } else {
        ElsewhereKeeps(p, a, ops[0], h);
        ChunkedReads(p, c, ops[1..], h);
      }
    }
  }

  lemma PrefixNone(s: seq<byte>)
    ensures Prefix(s, 0) == []
  {
  }

  lemma PrefixSplit(s: seq<byte>, at: nat, k: nat, m: nat)
    requires at <= |s|
    ensures var got := Min(|s| - at, k);
            s[at..at + got] + Prefix(s[at + got..], m) == Prefix(s[at..], k + m)
  {
  }

  // ---------------------------------------------------------------- on the tables

  /** Chunked writes through a handle at the end of its file, on the tables. */
  lemma ChunkedWritesOnTables(st: State, ops: seq<Op>, h: int)
    requires CanRun(st, ops) && h in Abs(st).handles && Client.HandleOk(Abs(st), h)
    requires Abs(st).handles[h].cursor == |Abs(st).files[Abs(st).handles[h].name]| && OneWriter(st.p, Abs(st), ops, h)
    ensures Run(st, ops).Done? && |Run(st, ops).ret| == |ops|
    ensures var Done(t, rets) := Run(st, ops);
            var (n, before) := (Abs(st).handles[h].name, Abs(st).files[Abs(st).handles[h].name]);
            Inv(t) && t.p == st.p && n in Abs(t).files && h in Abs(t).handles
            && Abs(t).files[n] == Prefix(before + Offered(ops, h), st.p.blockSize)
            && Abs(t).handles[h] == Client.Handle(n, |Abs(t).files[n]|)
            && Counted(ops, rets, h) == |Abs(t).files[n]| - |before|
  {
    hide Run, Inv, Abs, AllowedRun, ClientRun, OneWriter, Offered, Counted;
    RunRefines(st, ops);
    ChunkedWrites(st.p, Abs(st), ops, h);
  }

  /** Chunked reads through a handle, on the tables. */
  lemma ChunkedReadsOnTables(st: State, ops: seq<Op>, h: int)
    requires CanRun(st, ops) && h in Abs(st).handles && Client.HandleOk(Abs(st), h) && OneReader(st.p, Abs(st), ops, h)
    ensures Run(st, ops).Done? && |Run(st, ops).ret| == |ops|
    ensures var (n, cursor) := (Abs(st).handles[h].name, Abs(st).handles[h].cursor);
            Delivered(ops, Run(st, ops).ret, h) == Prefix(Abs(st).files[n][cursor..], Asked(ops, h))
  {
    hide Run, Inv, Abs, AllowedRun, ClientRun, OneReader, Asked, Delivered;
    RunRefines(st, ops);
    ChunkedReads(st.p, Abs(st), ops, h);
  }

  // ---------------------------------------------------------------- round trip

  /** Write an empty file through one handle in any chunks, open it again, read it in any chunks: what comes back is
      what was written, up to the block size and to what was asked for, and the counts returned by the writes add up
      to what was stored; on the tables themselves. */
  lemma WriteReadRoundTrip(st: State, writeOps: seq<Op>, w: int, path: Path, readOps: seq<Op>)
    requires CanRun(st, writeOps)
    requires w in Abs(st).handles && ValidPathname(path) && Abs(st).handles[w].name == BaseName(path)
    requires BaseName(path) in Abs(st).files && Abs(st).files[BaseName(path)] == []
    requires OneWriter(st.p, Abs(st), writeOps, w)
    requires Run(st, writeOps).Done?
    requires var reopened := TfsOpen(Run(st, writeOps).st, path, Mode(false, false, false));
             reopened.Done? && reopened.ret >= 0 && CanRun(reopened.st, readOps) &&
             reopened.ret in Abs(reopened.st).handles &&
             OneReader(reopened.st.p, Abs(reopened.st), readOps, reopened.ret)
    ensures var Done(s, r) := TfsOpen(Run(st, writeOps).st, path, Mode(false, false, false));
            |Run(st, writeOps).ret| == |writeOps| &&
            Counted(writeOps, Run(st, writeOps).ret, w) == Min(|Offered(writeOps, w)|, st.p.blockSize) &&
            Run(s, readOps).Done? && |Run(s, readOps).ret| == |readOps| &&
            Delivered(readOps, Run(s, readOps).ret, r)
            == Prefix(Prefix(Offered(writeOps, w), st.p.blockSize), Asked(readOps, r))
  {
    hide Run, Inv, Abs, TfsOpen, AllowedRun, OneWriter, OneReader, Offered, Asked, Delivered, Counted;
    var n := BaseName(path);
    var mode := Mode(false, false, false);
    ChunkedWritesOnTables(st, writeOps, w);
    assert [] + Offered(writeOps, w) == Offered(writeOps, w);
    var mid := Run(st, writeOps).st;
    OpenRefines(mid, path, mode);
    var Done(s, r) := TfsOpen(mid, path, mode);
    var content := Abs(mid).files[n];
    assert Abs(s).files[n] == content && Abs(s).handles[r] == Client.Handle(n, 0);
    ChunkedReadsOnTables(s, readOps, r);
    assert content[0..] == content;
  }
}
