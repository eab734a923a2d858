/** The request path as the program it is: the manager's message buffer, the server's reused buffer, the queue and the
    worker's calls on the file system; and the whole path from any ready interleaving of the queue to the files. */
module Broker {
  import opened Bytes
  import opened FsState
  import opened Operations
  import opened Refinement
  import FileSystem
  import opened Ring
  import PcQueue
  import Queue
  import QueueTheorems
  import opened Requests

  // ---------------------------------------------------------------- manager.c

  /** `memcpy` into a buffer. */
  method CopyInto(buffer: array<byte>, at: nat, w: seq<byte>)
    requires at + |w| <= buffer.Length
    modifies buffer
    ensures buffer[..] == Splice(old(buffer[..]), at, w)
  {
    forall k | 0 <= k < |w| {
      buffer[at + k] := w[k];
    }
  }

  /** Copying a string into a zeroed field pads it. */
  lemma FillField(before: seq<byte>, s: CStr, n: nat, m: nat)
    requires |s| <= n
    ensures Splice(before + Zeros(n + m), |before|, s) == before + Pad(s, n) + Zeros(m)
  {
  }

  lemma FillByte(before: seq<byte>, c: byte, m: nat)
    ensures Splice(before + Zeros(1 + m), |before|, [c]) == before + [c] + Zeros(m)
  {
  }

  lemma NoMoreZeros(s: seq<byte>)
    ensures s + Zeros(0) == s
  {
  }

  /** The message part of `box_request`: a zeroed buffer filled field by field. */
  method BoxRequest(pipe: CStr, box: CStr, code: byte) returns (message: array<byte>)
    ensures fresh(message) && message[..] == Encode(Request(code, pipe, box))
  {
    hide Splice, Pad, Zeros;
    message := new byte[REQUEST_LENGTH](_ => 0);
    assert message[..] == [] + Zeros(REQUEST_LENGTH);
    var at := 0;
    CopyInto(message, at, [code]);
    FillByte([], code, PIPE_NAME_LENGTH + BOX_NAME_LENGTH);
    at := at + 1;
    var pipeBytes := if |pipe| > PIPE_NAME_LENGTH then PIPE_NAME_LENGTH else |pipe|;
    CopyInto(message, at, pipe[..pipeBytes]);
    assert [] + [code] == [code];
    FillField([code], pipe[..pipeBytes], PIPE_NAME_LENGTH, BOX_NAME_LENGTH);
    at := at + PIPE_NAME_LENGTH;
    ghost var before := [code] + Pad(pipe[..pipeBytes], PIPE_NAME_LENGTH);
    CopyInto(message, at, [SLASH]);
    FillByte(before, SLASH, BOX_NAME_LENGTH - 1);
    at := at + 1;
    var boxBytes := if |box| > BOX_NAME_LENGTH - 1 then BOX_NAME_LENGTH - 1 else |box|;
    CopyInto(message, at, box[..boxBytes]);
    FillField(before + [SLASH], box[..boxBytes], BOX_NAME_LENGTH - 1, 0);
    NoMoreZeros(before + [SLASH] + Pad(box[..boxBytes], BOX_NAME_LENGTH - 1));
  }

  // ---------------------------------------------------------------- mbroker.c

  /** `main` starts the file system with `tfs_init(NULL)`. */
  method StartFileSystem() returns (fs: FileSystem.Tfs)
    ensures fresh(fs) && fs.Valid()
    ensures fs.p.inodes == 64 && fs.p.blocks == 1024 && fs.p.handles == 16 && fs.p.blockSize == 1024
    ensures ServerState(fs.Snap(), {}) && Abs(fs.Snap()).files == map[]
  {
    fs := new FileSystem.Tfs(NoParams);
    var r := fs.TfsInit();
    assert r == 0;
  }

  class Server {
    const fs: FileSystem.Tfs
    const queue: PcQueue.PcQueue
    const message: array<byte>

    ghost predicate Valid()
      reads queue
    {
      fs.Valid() && queue.Valid() && message.Length == REQUEST_LENGTH && message != fs.data
    }

    constructor (fs: FileSystem.Tfs, queue: PcQueue.PcQueue)
      requires fs.Valid() && queue.Valid()
      ensures Valid() && this.fs == fs && this.queue == queue && fresh(message)
    {
      this.fs, this.queue := fs, queue;
      message := new byte[REQUEST_LENGTH](_ => 0);
    }

    /** One turn of the loop of `main`: the request is read into the one message buffer, copied into the queue, and the
        buffer is zeroed for the next. */
    method Dispatch(request: array<byte>, ghost contents: seq<Elem>)
      requires Valid() && request.Length == REQUEST_LENGTH && request != message
      requires Holds(queue.Snap(), contents) && |contents| < queue.buffer.Length
      modifies message, queue, queue.buffer
      ensures Valid() && Holds(queue.Snap(), contents + [request[..]])
      ensures message[..] == Zeros(REQUEST_LENGTH)
    {
      CopyInto(message, 0, request[..]);
      assert message[..] == request[..];
      queue.Enqueue(message, contents);
      CopyInto(message, 0, Zeros(REQUEST_LENGTH));
      assert message[..] == Zeros(REQUEST_LENGTH);
    }

    /** `deleteBox`: the search along the list, and its return value. */
    method DeleteBox(head: BoxList, name: CStr) returns (r: int)
      ensures r == Requests.DeleteBox(head, name)
    {
      var curr := head;
      while curr != NULL_LIST && curr.name != name
        invariant Requests.DeleteBox(head, name) == Requests.DeleteBox(curr, name)
        decreases curr
      {
        curr := curr.next;
      }
      r := if curr != NULL_LIST then 0 else -1;
    }

    /** One turn of `working_thread` on a create or remove request, and the code it hands to `box_answer`. */
    method Handle(request: Elem) returns (r: int)
      requires Valid() && Requests.Serve(fs.Snap(), request).Done?
      modifies fs.inodeBits, fs.inodeTable, fs.blockBits, fs.data, fs.handleBits, fs.openFileTable
      ensures Valid() && Done(fs.Snap(), r) == Requests.Serve(old(fs.Snap()), request)
    {
      var opCode := request[0];
      var name := UpToNul(request[1 + PIPE_NAME_LENGTH..]);
      if opCode == BOX_CREATION_R {
        r := Create(name);
      } else {
        r := Remove(name);
      }
    }

    /** `create_box` */
    method Create(name: CStr) returns (r: int)
      requires Valid() && Requests.CreateBox(fs.Snap(), name).Done?
      modifies fs.inodeBits, fs.inodeTable, fs.blockBits, fs.data, fs.handleBits, fs.openFileTable
      ensures Valid() && Done(fs.Snap(), r) == Requests.CreateBox(old(fs.Snap()), name)
    {
      var fd := fs.TfsOpen(Name(name), Mode(true, false, false));
      if fd == -1 {
        return BOX_ERROR;
      }
      var closed := fs.TfsClose(fd);
      if closed == -1 || InsertBox(HEAD, name) == -1 {
        return BOX_ERROR;
      }
      r := BOX_SUCCESS;
    }

    /** `remove_box` */
    method Remove(name: CStr) returns (r: int)
      requires Valid() && Requests.RemoveBox(fs.Snap(), name).Done?
      modifies fs.inodeBits, fs.inodeTable, fs.blockBits, fs.data, fs.handleBits, fs.openFileTable
      ensures Valid() && Done(fs.Snap(), r) == Requests.RemoveBox(old(fs.Snap()), name)
    {
      var unlinked := fs.TfsUnlink(Name(name));
      if unlinked == -1 {
        return BOX_ERROR;
      }
      var deleted := DeleteBox(HEAD, name);
      if deleted == -1 {
        return BOX_ERROR;
      }
      r := BOX_SUCCESS;
    }

    /** Requests arrive one after the other and are served one after the other: the files end up as the same inserts
        and removals leave the set of box names, and the answers are those that go with the outcomes. */
    method ServeBatch(requests: seq<Request>, ghost boxes: set<CStr>) returns (answers: seq<int>)
      requires Valid() && ServerState(fs.Snap(), boxes)
      requires Holds(queue.Snap(), []) && |requests| <= queue.buffer.Length
      requires forall r | r in requests :: ValidRequest(r)
      modifies message, queue, queue.buffer
      modifies fs.inodeBits, fs.inodeTable, fs.blockBits, fs.data, fs.handleBits, fs.openFileTable
      ensures Valid() && Holds(queue.Snap(), [])
      ensures answers == AnswerAll(fs.p, boxes, requests)
      ensures ServerState(fs.Snap(), ApplyAll(fs.p, boxes, requests).0)
    {
      DispatchAll(requests);
      answers := HandleAll(requests, boxes);
    }

    method DispatchAll(requests: seq<Request>)
      requires Valid() && Holds(queue.Snap(), []) && |requests| <= queue.buffer.Length
      modifies message, queue, queue.buffer
      ensures Valid() && Holds(queue.Snap(), EncodeAll(requests))
    {
      hide Encode, Holds;
      var i := 0;
      while i < |requests|
        invariant 0 <= i <= |requests|
        invariant Valid() && Holds(queue.Snap(), EncodeAll(requests)[..i])
      {
        var request := BoxRequest(requests[i].pipe, requests[i].box, requests[i].code);
        Dispatch(request, EncodeAll(requests)[..i]);
        assert EncodeAll(requests)[..i] + [Encode(requests[i])] == EncodeAll(requests)[..i + 1];
        i := i + 1;
      }
      assert EncodeAll(requests)[..i] == EncodeAll(requests);
    }

    method HandleAll(requests: seq<Request>, ghost boxes: set<CStr>) returns (answers: seq<int>)
      requires Valid() && ServerState(fs.Snap(), boxes) && Holds(queue.Snap(), EncodeAll(requests))
      requires forall r | r in requests :: ValidRequest(r)
      modifies queue
      modifies fs.inodeBits, fs.inodeTable, fs.blockBits, fs.data, fs.handleBits, fs.openFileTable
      ensures Valid() && Holds(queue.Snap(), [])
      ensures answers == AnswerAll(fs.p, boxes, requests)
      ensures ServerState(fs.Snap(), ApplyAll(fs.p, boxes, requests).0)
    {
      hide Encode, EncodeAll, Holds, ServerState, ValidRequest, Apply, ApplyAll, Answer, AnswerAll, Requests.Serve;
      EncodeAllAt(requests);
      ApplyNone(fs.p, boxes);
      answers := [];
      ghost var current := boxes;
      var i := 0;
      assert requests[0..] == requests && EncodeAll(requests)[0..] == EncodeAll(requests);
      assert answers + AnswerAll(fs.p, boxes, requests) == AnswerAll(fs.p, boxes, requests);
      while i < |requests|
        invariant 0 <= i <= |requests|
        invariant Valid() && ServerState(fs.Snap(), current)
        invariant Holds(queue.Snap(), EncodeAll(requests)[i..])
        invariant ApplyAll(fs.p, boxes, requests).0 == ApplyAll(fs.p, current, requests[i..]).0
        invariant AnswerAll(fs.p, boxes, requests) == answers + AnswerAll(fs.p, current, requests[i..])
      {
        var request := queue.Dequeue(EncodeAll(requests)[i..]);
        ServeRefinesApply(fs.Snap(), current, requests[i]);
        var r := Handle(request);
        ApplyHead(fs.p, current, requests, i, answers);
        current, answers := Apply(fs.p, current, requests[i]).0, answers + [r];
        i := i + 1;
      }
      assert requests[i..] == [] && EncodeAll(requests)[i..] == [];
      ApplyNone(fs.p, current);
    }
  }

  // ---------------------------------------------------------------- end to end

  function Elements(cells: seq<Cell>): seq<Elem>
    requires forall c | c in cells :: c.Stored?
  {
    seq(|cells|, i requires 0 <= i < |cells| => cells[i].elem)
  }

  /** However the threads of the queue interleave, as long as slots are ready: if the messages written are those of
      `requests` in order, then what the workers have taken so far, served in that order on a fresh file system, gets
      the answers that go with the same inserts and removals on a set, and leaves exactly that set of files. */
  lemma EndToEnd(raw: FsState.State, q: Queue.State, events: seq<Queue.Event>, requests: seq<Request>)
    requires raw.p.inodes > 0 && raw.p.blocks > 0 && raw.p.handles > 0
    requires Queue.Initial(q) && Queue.IsRun(q, events) && QueueTheorems.ReadyRun(q, events)
    requires Queue.After(q, events).written == EncodeAll(requests)
    requires forall r | r in requests :: ValidRequest(r)
    ensures var taken := Queue.After(q, events).taken;
            |taken| <= |requests| && (forall c | c in taken :: c.Stored?) &&
            TfsInit(raw).Done? && ServeAll(TfsInit(raw).st, Elements(taken)).Done? &&
            var Done(t, answers) := ServeAll(TfsInit(raw).st, Elements(taken));
            answers == AnswerAll(raw.p, {}, requests[..|taken|]) &&
            ServerState(t, ApplyAll(raw.p, {}, requests[..|taken|]).0)
  {
    hide Queue.IsRun, Queue.After, Queue.Inv, QueueTheorems.ReadyRun, ServeAll, ApplyAll, AnswerAll, TfsInit, Encode;
    hide Inv, Abs;
    Queue.InitialInv(q);
    QueueTheorems.ReadyRunsAreFifo(q, events);
    var taken := Queue.After(q, events).taken;
    assert Elements(taken) == EncodeAll(requests[..|taken|]);
    InitRefines(raw);
    ServeAllRefinesSet(TfsInit(raw).st, {}, requests[..|taken|]);
  }
}
