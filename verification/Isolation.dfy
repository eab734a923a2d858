/**
 * Non-interference: erasing from a run every call on other files changes nothing that the calls on one file see,
 * although that file's inode, block and handle numbers may all be different ones.
 */
module Isolation {
  import opened Bytes
  import opened Bitmap
  import opened Directory
  import opened FsState
  import opened Operations
  import Client = AbstractFs
  import opened Refinement
  import opened Runs

  /** A client's calls name open files by identifiers of its own, since handle numbers differ between runs. */
  datatype Call =
    | COpen(id: nat, path: Path, mode: Mode)
    | CClose(id: nat)
    | CWrite(id: nat, buffer: seq<byte>)
    | CRead(id: nat, len: nat)
    | CUnlink(path: Path)

  type Env = map<nat, int>

  function HandleOf(env: Env, id: nat): int { if id in env then env[id] else -1 }

  function Resolve(env: Env, call: Call): Op {
    match call
    case COpen(_, path, mode) => Open(path, mode)
    case CClose(id) => Close(HandleOf(env, id))
    case CWrite(id, buffer) => Write(HandleOf(env, id), buffer)
    case CRead(id, len) => Read(HandleOf(env, id), len)
    case CUnlink(path) => Unlink(path)
  }

  /** The client remembers the handle an open returned and forgets it when it closes it. */
  function NextEnv(env: Env, call: Call, r: Ret): Env {
    match call
    case COpen(id, _, _) => if r.code >= 0 then env[id := r.code] else env
    case CClose(id) => env - {id}
    case CWrite(_, _) => env
    case CRead(_, _) => env
    case CUnlink(_) => env
  }

  /** What the client sees of a return value: of an open, only whether it succeeded. */
  function Seen(call: Call, r: Ret): Ret {
    if call.COpen? then Ret(if r.code >= 0 then 0 else -1, []) else r
  }

  datatype Session = Session(a: Fs, env: Env)

  /** The identifiers in use stand for the open handles, one for one. */
  ghost predicate SessionOk(p: Params, s: Session) {
    p.blockSize > 0 && Client.FsOk(p, s.a) && Injective(s.env) && s.env.Values == s.a.handles.Keys
  }

  ghost predicate HandlesFull(p: Params, a: Fs) { |a.handles| >= p.handles }

  /** The call needs an inode, a directory slot, a block or a handle, and there is none. */
  ghost predicate RunsOut(p: Params, a: Fs, op: Op)
    requires p.blockSize > 0
  {
    match op
    case Open(path, mode) =>
      ValidPathname(path) &&
      if BaseName(path) in a.files then HandlesFull(p, a)
      else mode.creat && ValidName(BaseName(path)) &&
           (Client.InodesFull(p, a) || Client.DirectoryFull(p, a) || HandlesFull(p, a))
    case Write(h, _) =>
      h in a.handles && a.handles[h].name in a.files && a.files[a.handles[h].name] == [] && Client.BlocksFull(p, a)
    case Close(_) => false
    case Read(_, _) => false
    case Unlink(_) => false
  }

  /** Nothing runs out when a call succeeds. An open of a proper name that is there or may be created fails only because
      something ran out, and so does a write through an open handle. */
  lemma RunsOutWhenFailing(p: Params, a: Fs, op: Op)
    requires p.blockSize > 0 && Client.FsOk(p, a)
    ensures var r := ClientStep(p, a, op).1.code;
            match op
            case Open(path, mode) =>
              RunsOut(p, a, op) <==>
              r == -1 && path.Name? && 2 <= |path.chars| && path.chars[0] == '/' as int
              && (path.chars[1..] in a.files || (mode.creat && |path.chars| <= 40))
            case Write(h, _) => (r == -1 && h in a.handles ==> RunsOut(p, a, op)) && (RunsOut(p, a, op) ==> r <= 0)
            case Close(_) => !RunsOut(p, a, op)
            case Read(_, _) => !RunsOut(p, a, op)
            case Unlink(_) => !RunsOut(p, a, op)
  {
    hide Client.Overwrite, Client.InodesFull, Client.DirectoryFull, Client.BlocksFull;
    HandleAvailable(p, a);
  }

  ghost predicate CallOk(p: Params, s: Session, call: Call)
    requires SessionOk(p, s)
  {
    Allowed(s.a, Resolve(s.env, call)) && !RunsOut(p, s.a, Resolve(s.env, call)) &&
    (call.COpen? ==> call.id !in s.env)
  }

  ghost function SessionStep(p: Params, s: Session, call: Call): (Session, Ret)
    requires SessionOk(p, s)
  {
    var (b, r) := ClientStep(p, s.a, Resolve(s.env, call));
    (Session(b, NextEnv(s.env, call, r)), r)
  }

  lemma SessionStepOk(p: Params, s: Session, call: Call)
    requires SessionOk(p, s) && CallOk(p, s, call)
    ensures SessionOk(p, SessionStep(p, s, call).0)
  {
    hide Client.Overwrite, Client.FsOk, RunsOut;
    var (s', r) := SessionStep(p, s, call);
    ClientStepOk(p, s.a, Resolve(s.env, call));
    ClientKeys(p, s.a, Resolve(s.env, call));
    NoNegativeHandle(p, s.a);
    match call
    case COpen(id, _, _) =>
      if r.code >= 0 {
        InsertValue(s.env, id, r.code);
      }
    case CClose(id) =>
      if id in s.env {
        RemoveValue(s.env, id);
      } else {
        assert s.env - {id} == s.env;
      }
    case CWrite(_, _) =>
    case CRead(_, _) =>
    case CUnlink(_) =>
  }

  lemma NoNegativeHandle(p: Params, a: Fs)
    requires Client.FsOk(p, a)
    ensures -1 !in a.handles
  {
  }

  lemma ClientKeys(p: Params, a: Fs, op: Op)
    requires p.blockSize > 0 && Client.FsOk(p, a)
    ensures var (b, r) := ClientStep(p, a, op);
            b.handles.Keys == match op
                              case Open(_, _) => if r.code >= 0 then a.handles.Keys + {r.code} else a.handles.Keys
                              case Close(h) => a.handles.Keys - {h}
                              case Write(_, _) => a.handles.Keys
                              case Read(_, _) => a.handles.Keys
                              case Unlink(_) => a.handles.Keys
    ensures op.Open? ==> ClientStep(p, a, op).1.code !in a.handles
  {
  }

  // ---------------------------------------------------------------- one file's part of a run

  predicate Names(path: Path, n: CStr) { ValidPathname(path) && BaseName(path) == n }

  /** Identifier `id` is open on file `n`. */
  ghost predicate On(s: Session, id: nat, n: CStr) {
    id in s.env && s.env[id] in s.a.handles && s.a.handles[s.env[id]].name == n
  }

  /** The call is about file `n`. */
  ghost predicate About(s: Session, call: Call, n: CStr) {
    match call
    case COpen(_, path, _) => Names(path, n)
    case CUnlink(path) => Names(path, n)
    case CClose(id) => On(s, id, n)
    case CWrite(id, _) => On(s, id, n)
    case CRead(id, _) => On(s, id, n)
  }

  /** Session `t` is what is left of session `s` when only file `n` is looked at. */
  ghost predicate Related(p: Params, s: Session, t: Session, n: CStr) {
    SessionOk(p, s) && SessionOk(p, t) &&
    t.a.files.Keys <= {n} && (n in s.a.files <==> n in t.a.files) &&
    (n in s.a.files ==> s.a.files[n] == t.a.files[n]) &&
    (forall id :: id in t.env <==> On(s, id, n)) &&
    (forall id | id in t.env :: t.a.handles[t.env[id]] == s.a.handles[s.env[id]])
  }

  lemma OtherCall(p: Params, s: Session, t: Session, call: Call, n: CStr)
    requires Related(p, s, t, n) && CallOk(p, s, call) && !About(s, call, n)
    ensures Related(p, SessionStep(p, s, call).0, t, n)
  {
    hide Client.Overwrite, Client.FsOk, RunsOut, Injective;
    SessionStepOk(p, s, call);
    OtherCallKeeps(p, s, call, n);
  }

  /** The file and the handles on it are the same in both sessions. */
  ghost predicate SameFor(s: Session, s': Session, n: CStr) {
    (n in s'.a.files <==> n in s.a.files) && (n in s.a.files ==> s'.a.files[n] == s.a.files[n]) &&
    (forall id :: On(s', id, n) <==> On(s, id, n)) &&
    (forall id | On(s, id, n) :: s'.a.handles[s'.env[id]] == s.a.handles[s.env[id]])
  }

  /** Opening another file leaves file `n` and every open handle alone. */
  lemma OpenElsewhere(p: Params, a: Fs, path: Path, mode: Mode, n: CStr)
    requires p.blockSize > 0 && Client.FsOk(p, a) && !Names(path, n)
    ensures var b := Client.Open(p, a, path, mode).0;
            (n in b.files <==> n in a.files) && (n in a.files ==> b.files[n] == a.files[n])
    ensures var b := Client.Open(p, a, path, mode).0;
            forall h | h in a.handles :: h in b.handles && b.handles[h] == a.handles[h]
    ensures var (b, r) := Client.Open(p, a, path, mode);
            r >= 0 ==> r in b.handles && b.handles[r].name != n
  {
    hide Client.FsOk, Client.InodesFull, Client.DirectoryFull, ValidName;
  }

  /** More handles on other files change nothing for file `n`. */
  lemma MoreHandles(p: Params, s: Session, s': Session, n: CStr)
    requires SessionOk(p, s)
    requires (n in s'.a.files <==> n in s.a.files) && (n in s.a.files ==> s'.a.files[n] == s.a.files[n])
    requires forall h | h in s.a.handles :: h in s'.a.handles && s'.a.handles[h] == s.a.handles[h]
    requires forall x | x in s.env :: x in s'.env && s'.env[x] == s.env[x]
    requires forall x | x in s'.env && x !in s.env :: !On(s', x, n)
    ensures SameFor(s, s', n)
  {
    hide Client.FsOk, Injective;
    forall x
      ensures On(s', x, n) <==> On(s, x, n)
      ensures On(s, x, n) ==> s'.a.handles[s'.env[x]] == s.a.handles[s.env[x]]
    {
      if x in s.env {
        assert s.env[x] in s.env.Values;
        assert s.env[x] in s.a.handles;
      }
    }
  }

  lemma OtherOpenKeeps(p: Params, s: Session, id: nat, path: Path, mode: Mode, n: CStr)
    requires SessionOk(p, s) && id !in s.env && !Names(path, n)
    ensures SameFor(s, SessionStep(p, s, COpen(id, path, mode)).0, n)
  {
    hide Client.Open, Client.FsOk, Injective, SameFor;
    OpenElsewhere(p, s.a, path, mode, n);
    MoreHandles(p, s, SessionStep(p, s, COpen(id, path, mode)).0, n);
  }

  lemma OtherWriteKeeps(p: Params, s: Session, id: nat, buffer: seq<byte>, n: CStr)
    requires SessionOk(p, s) && !On(s, id, n)
    ensures SameFor(s, SessionStep(p, s, CWrite(id, buffer)).0, n)
  {
  }

  /** A call about another file leaves file `n` and the handles on it alone. */
  lemma OtherCallKeeps(p: Params, s: Session, call: Call, n: CStr)
    requires SessionOk(p, s) && CallOk(p, s, call) && !About(s, call, n)
    ensures SameFor(s, SessionStep(p, s, call).0, n)
  {
    hide Client.Open, Client.Write, RunsOut, Allowed;
    NoNegativeHandle(p, s.a);
    match call
    case COpen(id, path, mode) => OtherOpenKeeps(p, s, id, path, mode, n);
    case CWrite(id, buffer) => OtherWriteKeeps(p, s, id, buffer, n);
    case CClose(_) =>
    case CRead(_, _) =>
    case CUnlink(_) =>
  }

  // ---------------------------------------------------------------- resources

  /** What is left of a session uses no more of anything. */
  lemma FewerResources(p: Params, s: Session, t: Session, n: CStr)
    requires Related(p, s, t, n)
    ensures |t.a.files| <= |s.a.files|
    ensures |Client.NonEmpty(t.a.files)| <= |Client.NonEmpty(s.a.files)|
    ensures |t.a.handles| <= |s.a.handles|
  {
    SubsetSize(t.a.files.Keys, s.a.files.Keys);
    SubsetSize(Client.NonEmpty(t.a.files), Client.NonEmpty(s.a.files));
    SubsetSize(t.env.Keys, s.env.Keys);
    InjectiveSize(s.env);
    InjectiveSize(t.env);
  }

  lemma HandleAvailable(p: Params, a: Fs)
    requires Client.FsOk(p, a)
    ensures LeastUnused(a.handles.Keys, p.handles, 0) == -1 <==> HandlesFull(p, a)
  {
    assert a.handles.Keys <= Range(p.handles);
    LeastUnusedFails(a.handles.Keys, p.handles, 0);
    SubsetSize(a.handles.Keys, Range(p.handles));
  }

  /** Every handle of what is left has a twin, on the same file and with the same cursor. */
  lemma HandleTwin(p: Params, s: Session, t: Session, n: CStr, h: int) returns (g: int)
    requires Related(p, s, t, n) && h in t.a.handles
    ensures g in s.a.handles && s.a.handles[g] == t.a.handles[h] && t.a.handles[h].name == n
  {
    assert h in t.env.Values;
    var id :| id in t.env && t.env[id] == h;
    assert On(s, id, n);
    g := s.env[id];
  }

  lemma OnIsIn(s: Session, n: CStr)
    ensures forall x | On(s, x, n) :: x in s.env
  {
  }

  /** An identifier on the file is on it in both sessions, with one cursor and one contents. */
  lemma OnBoth(p: Params, s: Session, t: Session, id: nat, n: CStr)
    requires Related(p, s, t, n) && On(s, id, n)
    ensures On(t, id, n) && s.a.handles[s.env[id]] == t.a.handles[t.env[id]]
    ensures n in s.a.files && n in t.a.files && s.a.files[n] == t.a.files[n]
  {
    assert t.env[id] in t.env.Values;
    assert Client.HandleOk(s.a, s.env[id]);
  }

  lemma StaysAllowed(p: Params, s: Session, t: Session, call: Call, n: CStr)
    requires Related(p, s, t, n) && Allowed(s.a, Resolve(s.env, call)) && About(s, call, n)
    ensures Allowed(t.a, Resolve(t.env, call))
  {
    if !Allowed(t.a, Resolve(t.env, call)) {
      var h :| h in t.a.handles && t.a.handles[h].name == n && (call.COpen? ==> t.a.handles[h].cursor != 0);
      var g := HandleTwin(p, s, t, n, h);
      assert Client.Refers(s.a, n);
    }
  }

  lemma StaysProvided(p: Params, s: Session, t: Session, call: Call, n: CStr)
    requires Related(p, s, t, n) && About(s, call, n) && !RunsOut(p, s.a, Resolve(s.env, call))
    ensures !RunsOut(p, t.a, Resolve(t.env, call))
  {
    hide SessionOk;
    FewerResources(p, s, t, n);
    match call
    case CWrite(id, _) => OnBoth(p, s, t, id, n);
    case COpen(_, _, _) =>
    case CClose(_) =>
    case CRead(_, _) =>
    case CUnlink(_) =>
  }

  lemma StaysAbout(p: Params, s: Session, t: Session, call: Call, n: CStr)
    requires Related(p, s, t, n) && About(s, call, n)
    ensures About(t, call, n)
  {
    hide SessionOk;
    match call
    case CWrite(id, _) => OnBoth(p, s, t, id, n);
    case CClose(id) => OnBoth(p, s, t, id, n);
    case CRead(id, _) => OnBoth(p, s, t, id, n);
    case COpen(_, _, _) =>
    case CUnlink(_) =>
  }

  lemma CallStaysOk(p: Params, s: Session, t: Session, call: Call, n: CStr)
    requires Related(p, s, t, n) && CallOk(p, s, call) && About(s, call, n)
    ensures CallOk(p, t, call) && About(t, call, n)
  {
    hide Allowed, RunsOut, SessionOk, About, Resolve;
    StaysAllowed(p, s, t, call, n);
    StaysProvided(p, s, t, call, n);
    StaysAbout(p, s, t, call, n);
    OnIsIn(s, n);
  }

  // ---------------------------------------------------------------- calls about the file

  ghost predicate SameStep(p: Params, s: Session, t: Session, call: Call, n: CStr)
    requires SessionOk(p, s) && SessionOk(p, t)
  {
    var (s', r) := SessionStep(p, s, call);
    var (t', q) := SessionStep(p, t, call);
    Seen(call, r) == Seen(call, q) && Related(p, s', t', n)
  }

  /** What opening a valid path does when nothing runs out. */
  lemma OpenEffect(p: Params, a: Fs, path: Path, mode: Mode)
    requires p.blockSize > 0 && Client.FsOk(p, a) && ValidPathname(path) && !RunsOut(p, a, Open(path, mode))
    ensures var n := BaseName(path);
            var (b, r) := Client.Open(p, a, path, mode);
            if n in a.files || (mode.creat && ValidName(n)) then
              (var content := if n in a.files && !mode.trunc then a.files[n] else [];
               r >= 0 && r !in a.handles &&
               b == Client.Fs(a.files[n := content],
                              a.handles[r := Client.Handle(n, if mode.append then |content| else 0)]))
            else (r == -1 && b == a)
  {
    HandleAvailable(p, a);
  }

  /** Session `s` after opening file `n`, now with contents `c`, as handle `r` under identifier `id`. */
  function Opened(s: Session, id: nat, n: CStr, c: seq<byte>, r: int, cursor: nat): Session {
    Session(Client.Fs(s.a.files[n := c], s.a.handles[r := Client.Handle(n, cursor)]), s.env[id := r])
  }

  lemma OnOpened(p: Params, s: Session, id: nat, n: CStr, c: seq<byte>, r: int, cursor: nat)
    requires SessionOk(p, s) && id !in s.env && r !in s.a.handles
    ensures forall x :: On(Opened(s, id, n, c, r, cursor), x, n) <==> x == id || On(s, x, n)
    ensures forall x | x in s.env ::
              s.env[x] in s.a.handles && s.env[x] != r
              && Opened(s, id, n, c, r, cursor).a.handles[s.env[x]] == s.a.handles[s.env[x]]
  {
    hide Client.FsOk, Injective;
    forall x | x in s.env
      ensures s.env[x] in s.a.handles
    {
      assert s.env[x] in s.env.Values;
    }
  }

  /** Opening the file in both sessions, under whatever handle numbers, keeps them related. */
  lemma OpenedRelated(p: Params, s: Session, t: Session, id: nat, n: CStr, c: seq<byte>, r: int, q: int, cursor: nat)
    requires Related(p, s, t, n) && id !in s.env && id !in t.env && r !in s.a.handles && q !in t.a.handles
    requires SessionOk(p, Opened(s, id, n, c, r, cursor)) && SessionOk(p, Opened(t, id, n, c, q, cursor))
    ensures Related(p, Opened(s, id, n, c, r, cursor), Opened(t, id, n, c, q, cursor), n)
  {
    hide SessionOk, On;
    OnOpened(p, s, id, n, c, r, cursor);
    OnOpened(p, t, id, n, c, q, cursor);
    OnIsIn(s, n);
  }

  lemma SameOpen(p: Params, s: Session, t: Session, id: nat, path: Path, mode: Mode, n: CStr)
    requires Related(p, s, t, n) && Names(path, n)
    requires CallOk(p, s, COpen(id, path, mode)) && CallOk(p, t, COpen(id, path, mode))
    ensures SameStep(p, s, t, COpen(id, path, mode), n)
  {
    hide Client.FsOk, Client.Open, Injective, RunsOut, Allowed, On;
    var call := COpen(id, path, mode);
    SessionStepOk(p, s, call);
    SessionStepOk(p, t, call);
    OpenEffect(p, s.a, path, mode);
    OpenEffect(p, t.a, path, mode);
    var (r, q) := (Client.Open(p, s.a, path, mode).1, Client.Open(p, t.a, path, mode).1);
    if r >= 0 {
      var c := if n in s.a.files && !mode.trunc then s.a.files[n] else [];
      OpenedRelated(p, s, t, id, n, c, r, q, if mode.append then |c| else 0);
    }
  }

  lemma SameClose(p: Params, s: Session, t: Session, id: nat, n: CStr)
    requires Related(p, s, t, n) && On(s, id, n)
    requires CallOk(p, s, CClose(id)) && CallOk(p, t, CClose(id))
    ensures SameStep(p, s, t, CClose(id), n)
  {
    SessionStepOk(p, s, CClose(id));
    SessionStepOk(p, t, CClose(id));
  }

  /** Session `s` after moving the cursor of `id`, which is on file `n`, whose contents are now `c`. */
  function Moved(s: Session, id: nat, n: CStr, c: seq<byte>, cursor: nat): Session
    requires id in s.env
  {
    s.(a := Client.Fs(s.a.files[n := c], s.a.handles[s.env[id] := Client.Handle(n, cursor)]))
  }

  lemma OnMoved(p: Params, s: Session, id: nat, n: CStr, c: seq<byte>, cursor: nat)
    requires SessionOk(p, s) && On(s, id, n)
    ensures forall x :: On(Moved(s, id, n, c, cursor), x, n) <==> On(s, x, n)
    ensures forall x | x in s.env && x != id :: s.env[x] != s.env[id]
  {
    hide Client.FsOk;
  }

  lemma MovedRelated(p: Params, s: Session, t: Session, id: nat, n: CStr, c: seq<byte>, cursor: nat)
    requires Related(p, s, t, n) && On(s, id, n) && id in t.env
    requires SessionOk(p, Moved(s, id, n, c, cursor)) && SessionOk(p, Moved(t, id, n, c, cursor))
    ensures Related(p, Moved(s, id, n, c, cursor), Moved(t, id, n, c, cursor), n)
  {
    hide SessionOk, On;
    assert On(t, id, n) by { OnBoth(p, s, t, id, n); }
    OnMoved(p, s, id, n, c, cursor);
    OnMoved(p, t, id, n, c, cursor);
    OnIsIn(s, n);
  }

  lemma WriteEffect(p: Params, s: Session, id: nat, buffer: seq<byte>, n: CStr)
    requires SessionOk(p, s) && On(s, id, n) && CallOk(p, s, CWrite(id, buffer))
    ensures n in s.a.files && s.a.handles[s.env[id]].cursor <= |s.a.files[n]| <= p.blockSize
    ensures var (c, cursor) := (s.a.files[n], s.a.handles[s.env[id]].cursor);
            var count := Min(|buffer|, p.blockSize - cursor);
            SessionStep(p, s, CWrite(id, buffer)) ==
            (if count == 0 then s
             else Moved(s, id, n, Client.Overwrite(c, cursor, buffer[..count]), cursor + count), Ret(count, []))
  {
    hide Client.Overwrite, Injective, Client.BlocksFull, ValidName;
    assert Client.HandleOk(s.a, s.env[id]);
  }

  lemma ReadEffect(p: Params, s: Session, id: nat, len: nat, n: CStr)
    requires SessionOk(p, s) && On(s, id, n)
    ensures n in s.a.files && s.a.handles[s.env[id]].cursor <= |s.a.files[n]|
    ensures var (c, cursor) := (s.a.files[n], s.a.handles[s.env[id]].cursor);
            var count := Min(|c| - cursor, len);
            SessionStep(p, s, CRead(id, len)) ==
            (Moved(s, id, n, c, cursor + count), Ret(count, c[cursor..cursor + count]))
  {
    hide Injective, ValidName;
    assert Client.HandleOk(s.a, s.env[id]);
    assert s.a.files[n := s.a.files[n]] == s.a.files;
  }

  lemma SameWrite(p: Params, s: Session, t: Session, id: nat, buffer: seq<byte>, n: CStr)
    requires Related(p, s, t, n) && On(s, id, n)
    requires CallOk(p, s, CWrite(id, buffer)) && CallOk(p, t, CWrite(id, buffer))
    ensures SameStep(p, s, t, CWrite(id, buffer), n)
  {
    hide SessionStep, CallOk, SessionOk, Moved, Client.Overwrite;
    SessionStepOk(p, s, CWrite(id, buffer));
    SessionStepOk(p, t, CWrite(id, buffer));
    OnBoth(p, s, t, id, n);
    WriteEffect(p, s, id, buffer, n);
    WriteEffect(p, t, id, buffer, n);
    var (c, cursor) := (s.a.files[n], s.a.handles[s.env[id]].cursor);
    var count := Min(|buffer|, p.blockSize - cursor);
    if count > 0 {
      MovedRelated(p, s, t, id, n, Client.Overwrite(c, cursor, buffer[..count]), cursor + count);
    }
  }

  lemma SameRead(p: Params, s: Session, t: Session, id: nat, len: nat, n: CStr)
    requires Related(p, s, t, n) && On(s, id, n)
    requires CallOk(p, s, CRead(id, len)) && CallOk(p, t, CRead(id, len))
    ensures SameStep(p, s, t, CRead(id, len), n)
  {
    hide SessionStep, CallOk, SessionOk, Moved;
    SessionStepOk(p, s, CRead(id, len));
    SessionStepOk(p, t, CRead(id, len));
    OnBoth(p, s, t, id, n);
    ReadEffect(p, s, id, len, n);
    ReadEffect(p, t, id, len, n);
    var (c, cursor) := (s.a.files[n], s.a.handles[s.env[id]].cursor);
    MovedRelated(p, s, t, id, n, c, cursor + Min(|c| - cursor, len));
  }

  lemma SameUnlink(p: Params, s: Session, t: Session, path: Path, n: CStr)
    requires Related(p, s, t, n) && Names(path, n)
    requires CallOk(p, s, CUnlink(path)) && CallOk(p, t, CUnlink(path))
    ensures SameStep(p, s, t, CUnlink(path), n)
  {
    hide Client.FsOk, Injective, RunsOut;
    SessionStepOk(p, s, CUnlink(path));
    SessionStepOk(p, t, CUnlink(path));
  }

  /** A call about the file is seen to do the same in both sessions. */
  lemma SameCall(p: Params, s: Session, t: Session, call: Call, n: CStr)
    requires Related(p, s, t, n) && CallOk(p, s, call) && About(s, call, n)
    ensures CallOk(p, t, call) && About(t, call, n) && SameStep(p, s, t, call, n)
  {
    hide Related, CallOk, SameStep;
    CallStaysOk(p, s, t, call, n);
    match call
    case COpen(id, path, mode) => SameOpen(p, s, t, id, path, mode, n);
    case CClose(id) => SameClose(p, s, t, id, n);
    case CWrite(id, buffer) => SameWrite(p, s, t, id, buffer, n);
    case CRead(id, len) => SameRead(p, s, t, id, len, n);
    case CUnlink(path) => SameUnlink(p, s, t, path, n);
  }

  // ---------------------------------------------------------------- whole runs

  /** Every call of the run is allowed and nothing runs out. */
  ghost predicate CallsOk(p: Params, s: Session, calls: seq<Call>)
    requires SessionOk(p, s)
    decreases |calls|
  {
    calls == [] ||
    (CallOk(p, s, calls[0]) && (SessionStepOk(p, s, calls[0]); CallsOk(p, SessionStep(p, s, calls[0]).0, calls[1..])))
  }

  /** The calls of the run about file `n`. */
  ghost function Project(p: Params, s: Session, calls: seq<Call>, n: CStr): seq<Call>
    requires SessionOk(p, s) && CallsOk(p, s, calls)
    decreases |calls|
  {
    if calls == [] then []
    else
      SessionStepOk(p, s, calls[0]);
      (if About(s, calls[0], n) then [calls[0]] else []) +
      Project(p, SessionStep(p, s, calls[0]).0, calls[1..], n)
  }

  /** What the calls about file `n` are seen to return. */
  ghost function Observed(p: Params, s: Session, calls: seq<Call>, n: CStr): seq<Ret>
    requires SessionOk(p, s) && CallsOk(p, s, calls)
    decreases |calls|
  {
    if calls == [] then []
    else
      SessionStepOk(p, s, calls[0]);
      var (s', r) := SessionStep(p, s, calls[0]);
      (if About(s, calls[0], n) then [Seen(calls[0], r)] else []) + Observed(p, s', calls[1..], n)
  }

  lemma {:induction false} ErasureIsInvisible(p: Params, s: Session, t: Session, calls: seq<Call>, n: CStr)
    requires Related(p, s, t, n) && CallsOk(p, s, calls)
    ensures CallsOk(p, t, Project(p, s, calls, n))
    ensures Observed(p, t, Project(p, s, calls, n), n) == Observed(p, s, calls, n)
    decreases |calls|
  {
    hide SessionStep, CallOk, About, SessionOk;
    if calls != [] {
      var s' := SessionStep(p, s, calls[0]).0;
      SessionStepOk(p, s, calls[0]);
      if About(s, calls[0], n) {
        SameCall(p, s, t, calls[0], n);
        var t' := SessionStep(p, t, calls[0]).0;
        SessionStepOk(p, t, calls[0]);
        ErasureIsInvisible(p, s', t', calls[1..], n);
        assert ([calls[0]] + Project(p, s', calls[1..], n))[1..] == Project(p, s', calls[1..], n);
      } else {
        OtherCall(p, s, t, calls[0], n);
        ErasureIsInvisible(p, s', t, calls[1..], n);
        assert Project(p, s, calls, n) == Project(p, s', calls[1..], n);
        assert Observed(p, s, calls, n) == Observed(p, s', calls[1..], n);
      }
    }
  }

  // ---------------------------------------------------------------- on the tables

  ghost predicate CallsFit(st: State, env: Env, calls: seq<Call>) {
    Inv(st) && SessionOk(st.p, Session(Abs(st), env)) && CallsOk(st.p, Session(Abs(st), env), calls)
  }

  lemma CallRefines(st: State, env: Env, call: Call)
    requires Inv(st) && SessionOk(st.p, Session(Abs(st), env)) && CallOk(st.p, Session(Abs(st), env), call)
    ensures Step(st, Resolve(env, call)).Done?
    ensures var Done(s, r) := Step(st, Resolve(env, call));
            Inv(s) && s.p == st.p &&
            (Session(Abs(s), NextEnv(env, call, r)), r) == SessionStep(st.p, Session(Abs(st), env), call)
  {
    hide Inv, Abs, Step, ClientStep, Allowed, Client.FsOk, RunsOut, Resolve;
    StepRefines(st, Resolve(env, call));
  }

  /** What the calls about file `n` are seen to return when the calls run on the tables. */
  ghost function ObservedOnTables(st: State, env: Env, calls: seq<Call>, n: CStr): seq<Ret>
    requires CallsFit(st, env, calls)
    decreases |calls|
  {
    if calls == [] then []
    else
      CallRefines(st, env, calls[0]);
      SessionStepOk(st.p, Session(Abs(st), env), calls[0]);
      var Done(s, r) := Step(st, Resolve(env, calls[0]));
      (if About(Session(Abs(st), env), calls[0], n) then [Seen(calls[0], r)] else []) +
      ObservedOnTables(s, NextEnv(env, calls[0], r), calls[1..], n)
  }

  lemma {:induction false} TablesObserveTheSame(st: State, env: Env, calls: seq<Call>, n: CStr)
    requires CallsFit(st, env, calls)
    ensures ObservedOnTables(st, env, calls, n) == Observed(st.p, Session(Abs(st), env), calls, n)
    decreases |calls|
  {
    hide Inv, Abs, Step, SessionStep, CallOk, About, SessionOk, Resolve, NextEnv;
    if calls != [] {
      CallRefines(st, env, calls[0]);
      SessionStepOk(st.p, Session(Abs(st), env), calls[0]);
      var Done(s, r) := Step(st, Resolve(env, calls[0]));
      TablesObserveTheSame(s, NextEnv(env, calls[0], r), calls[1..], n);
    }
  }

  lemma StartRelated(p: Params, n: CStr)
    requires p.blockSize > 0
    ensures SessionOk(p, Session(Client.EMPTY_FS, map[]))
    ensures Related(p, Session(Client.EMPTY_FS, map[]), Session(Client.EMPTY_FS, map[]), n)
  {
  }

  /** Two runs from two `tfs_init`s with the same parameters and any leftover memory: one with all calls, the other
      with only those about file `n`. If nothing runs out in the first, nothing is refused in the second and the
      client of `n` sees the same counts, bytes and outcomes in both. */
  lemma NonInterference(raw: State, raw': State, calls: seq<Call>, n: CStr)
    requires raw.p.inodes > 0 && raw.p.blocks > 0 && raw'.p == raw.p
    requires CallsOk(raw.p, Session(Client.EMPTY_FS, map[]), calls)
    ensures var kept := Project(raw.p, Session(Client.EMPTY_FS, map[]), calls, n);
            TfsInit(raw).Done? && TfsInit(raw').Done? &&
            CallsFit(TfsInit(raw).st, map[], calls) && CallsFit(TfsInit(raw').st, map[], kept) &&
            ObservedOnTables(TfsInit(raw).st, map[], calls, n) == ObservedOnTables(TfsInit(raw').st, map[], kept, n)
  {
    hide Inv, Abs, TfsInit, CallsOk, ObservedOnTables, Observed, Project, SessionOk;
    InitRefines(raw);
    InitRefines(raw');
    var start := Session(Client.EMPTY_FS, map[]);
    StartRelated(raw.p, n);
    ErasureIsInvisible(raw.p, start, start, calls, n);
    TablesObserveTheSame(TfsInit(raw).st, map[], calls, n);
    TablesObserveTheSame(TfsInit(raw').st, map[], Project(raw.p, start, calls, n), n);
  }
}
