/**
 The remote data path as functions: a client call is encoded, the Worker decodes it, runs the system
 calls on its descriptor table, encodes a reply, and the client decodes that. Run after run, the
 answers are those of a local file system whose handles are never recycled.
 */
module RemoteFiles {
  import opened Codec
  import opened Files
  import opened Commands

  datatype Op =
    | OpOpen(path: blob, flags: int32, mode: int32)
    | OpClose(id: int32)
    | OpRead(id: int32, size: uint32)
    | OpPread(id: int32, size: uint32, offset: int64)
    | OpWrite(id: int32, bytes: blob)
    | OpPwrite(id: int32, offset: int64, bytes: blob)

  // ---------- Requests ----------

  function TypeOf(op: Op): byte {
    match op
    case OpOpen(_, _, _) => OPEN
    case OpClose(_) => CLOSE
    case OpRead(_, _) => READ
    case OpPread(_, _, _) => PREAD
    case OpWrite(_, _) => WRITE
    case OpPwrite(_, _, _) => PWRITE
  }

  function ArgsOf(op: Op): seq<Field> {
    match op
    case OpOpen(path, flags, mode) => [Blob(path), I32(flags), I32(mode)]
    case OpClose(id) => [I32(id)]
    case OpRead(id, size) => [I32(id), U32(size)]
    case OpPread(id, size, offset) => [I32(id), U32(size), I64(offset)]
    case OpWrite(id, bytes) => [I32(id), Blob(bytes)]
    case OpPwrite(id, offset, bytes) => [I32(id), I64(offset), Blob(bytes)]
  }

  predicate IsFileCommand(typ: byte) {
    OPEN <= typ <= PWRITE
  }

  /** rename, truncate, unlink, chmod, chown, utimens, mkdir and rmdir: they may change the files in
      ways of their own. */
  predicate IsOutside(typ: byte) {
    RENAME <= typ <= SET_TIMES || typ == MAKE_DIR || typ == REMOVE_DIR
  }

  function ArgKinds(typ: byte): seq<Kind>
    requires IsFileCommand(typ)
  {
    if typ == OPEN then [KBlob, KI32, KI32]
    else if typ == CLOSE then [KI32]
    else if typ == READ then [KI32, KU32]
    else if typ == PREAD then [KI32, KU32, KI64]
    else if typ == WRITE then [KI32, KBlob]
    else [KI32, KI64, KBlob]
  }

  function EncodeRequest(op: Op): Request {
    Request(TypeOf(op), Encode(ArgsOf(op)))
  }

  /** What a handler makes of a request; None when a deserializer call throws. */
  function DecodeRequest(req: Request): Option<Op>
    requires IsFileCommand(req.typ)
  {
    var d := Decode(ArgKinds(req.typ), req.data, 0).fields;
    if d.None? then None else OpFrom(req.typ, d.value)
  }

  /** The file operation behind a request, if it is one that decodes. */
  function OpOf(req: Request): Option<Op> {
    if IsFileCommand(req.typ) then DecodeRequest(req) else None
  }

  function OpFrom(typ: byte, fs: seq<Field>): Option<Op>
    requires IsFileCommand(typ)
  {
    if typ == OPEN && |fs| == 3 && fs[0].Blob? && fs[1].I32? && fs[2].I32?
    then Some(OpOpen(fs[0].bytes, fs[1].i32, fs[2].i32))
    else if typ == CLOSE && |fs| == 1 && fs[0].I32?
    then Some(OpClose(fs[0].i32))
    else if typ == READ && |fs| == 2 && fs[0].I32? && fs[1].U32?
    then Some(OpRead(fs[0].i32, fs[1].u32))
    else if typ == PREAD && |fs| == 3 && fs[0].I32? && fs[1].U32? && fs[2].I64?
    then Some(OpPread(fs[0].i32, fs[1].u32, fs[2].i64))
    else if typ == WRITE && |fs| == 2 && fs[0].I32? && fs[1].Blob?
    then Some(OpWrite(fs[0].i32, fs[1].bytes))
    else if typ == PWRITE && |fs| == 3 && fs[0].I32? && fs[1].I64? && fs[2].Blob?
    then Some(OpPwrite(fs[0].i32, fs[1].i64, fs[2].bytes))
    else None
  }

  lemma ArgKindsMatch(op: Op)
    ensures KindsOf(ArgsOf(op)) == ArgKinds(TypeOf(op))
  {
    var fs := ArgsOf(op);
    if |fs| == 1 { assert fs == [fs[0]] + []; }
    if |fs| == 2 { KindsOfTwo(fs[0], fs[1]); }
    if |fs| == 3 { KindsOfThree(fs[0], fs[1], fs[2]); }
  }

  /** A handler decodes exactly the operation the client encoded. */
  lemma RequestRoundTrip(op: Op)
    ensures DecodeRequest(EncodeRequest(op)) == Some(op)
  {
    var s := Encode(ArgsOf(op));
    assert s[0..0 + |s|] == s;
    RoundTrip(ArgsOf(op), s, 0);
    ArgKindsMatch(op);
  }

  // ---------- The Worker ----------

  /** The operating system's descriptors, the handler's id table and its id counter. */
  datatype Worker = Worker(os: Tab, table: map<int, int>, nextId: nat)

  /** What the environment decides during one command: where the system looks for an unused
      descriptor, the stale errno a successful call leaves to be reported, the text of the exception
      if one is thrown, the reply to any other command, and the files that a command outside the
      data path leaves behind. */
  datatype Env = Env(pick: nat, stale: int32, what: blob, other: Reply, files: map<blob, seq<byte>>)

  /** The first descriptor from `k` on that is not in use; `k` itself when that is free. */
  function FirstUnused(used: set<int>, k: nat): (r: nat)
    ensures r !in used && k <= r && (k !in used ==> r == k)
    decreases |set x | x in used && x >= k|
  {
    if k !in used then k
    else
      assert (set x | x in used && x >= k + 1) == (set x | x in used && x >= k) - {k};
      FirstUnused(used, k + 1)
  }

  /** The n-th value of the 32-bit id counter. */
  function IdAt(n: nat): int32 {
    var m := n % LIMIT;
    if m < 0x8000_0000 then m else m - LIMIT
  }

  function GetFd(w: Worker, id: int32): int {
    if id in w.table then w.table[id] else -1
  }

  function ErrnoOf(r: Sys, env: Env): int32 {
    if r.Failed? then r.errno else env.stale
  }

  function ValueOf(r: Sys): int32 {
    if r.Failed? then -1 else r.value
  }

  /** After a failed read the buffer keeps its full size. */
  function BufferOf(r: Sys, size: uint32): blob
    requires r.Ok? ==> |r.bytes| <= size
  {
    if r.Failed? then seq(size, _ => 0) else r.bytes
  }

  /** One command: the new state and the fields of the reply. */
  function Handle(w: Worker, op: Op, env: Env): (Worker, seq<Field>) {
    match op
    case OpOpen(path, flags, _) =>
      if !CanOpen(w.os, path, flags) then (w, [I32(-1), I32(ENOENT)])
      else
        var fd, id := FirstUnused(w.os.descs.Keys, env.pick), IdAt(w.nextId);
        (Worker(OpenAs(w.os, path, flags, fd), if id in w.table then w.table else w.table[id := fd], w.nextId + 1),
         [I32(id), I32(env.stale)])
    case OpClose(id) =>
      var (os, r) := CloseKey(w.os, GetFd(w, id));
      (w.(os := os, table := w.table - {id}), [U8(if r.Ok? then 1 else 0), I32(ErrnoOf(r, env))])
    case OpRead(id, size) =>
      var (os, r) := ReadKey(w.os, GetFd(w, id), size);
      (w.(os := os), [I32(ValueOf(r)), I32(ErrnoOf(r, env)), Blob(BufferOf(r, size))])
    case OpPread(id, size, offset) =>
      var r := PreadKey(w.os, GetFd(w, id), size, offset);
      (w, [I32(ValueOf(r)), I32(ErrnoOf(r, env)), Blob(BufferOf(r, size))])
    case OpWrite(id, bytes) =>
      var (os, r) := WriteKey(w.os, GetFd(w, id), bytes);
      (w.(os := os), [I32(ValueOf(r)), I32(ErrnoOf(r, env))])
    case OpPwrite(id, offset, bytes) =>
      var (os, r) := PwriteKey(w.os, GetFd(w, id), offset, bytes);
      (w.(os := os), [I32(ValueOf(r)), I32(ErrnoOf(r, env))])
  }

  /** _do_command. An exception becomes a CommandError reply with its text; queries (getattr, access,
      statvfs and the directory listings) touch neither the files nor the table. */
  function Serve(w: Worker, req: Request, env: Env): (Worker, Reply) {
    if IsFileCommand(req.typ) then
      var op := DecodeRequest(req);
      if op.None? then (w, Reply(COMMAND_ERROR, Encode([Blob(env.what)])))
      else
        var (w', fields) := Handle(w, op.value, env);
        (w', Reply(COMMAND_RESULT, Encode(fields)))
    else if req.typ == DISCONNECT then (w, Reply(COMMAND_RESULT, []))
    else if req.typ > REMOVE_DIR then (w, Reply(COMMAND_UNKNOWN, []))
    else if IsOutside(req.typ) then (w.(os := w.os.(files := env.files)), env.other)
    else (w, env.other)
  }

  // ---------- Replies ----------

  /** What the caller gets: value, errno and the contents of its buffer; or an exception; or a memcpy
      from beyond the bytes received, which C++ leaves undefined. */
  datatype Answer = Answer(value: int32, errno: int32, buffer: seq<byte>) | Throws | Undefined

  function ReadSize(op: Op): nat {
    if op.OpRead? || op.OpPread? then op.size else 0
  }

  /** memcpy of the first `n` bytes of `src` over `dst`. */
  function CopyOver(dst: seq<byte>, src: seq<byte>, n: nat): (r: seq<byte>)
    requires n <= |src| && n <= |dst|
    ensures |r| == |dst| && r[..n] == src[..n] && r[n..] == dst[n..]
  {
    src[..n] + dst[n..]
  }

  function DecodeReply(op: Op, reply: Reply, buffer: seq<byte>): Answer
    requires ReadSize(op) <= |buffer|
  {
    if reply.typ != COMMAND_RESULT then Throws
    else
      var d := Decode([if op.OpClose? then KU8 else KI32, KI32], reply.data, 0);
      if d.fields.None? then Throws else DecodeValues(op, reply, buffer, d.fields.value, d.next)
  }

  function DecodeValues(op: Op, reply: Reply, buffer: seq<byte>, fs: seq<Field>, next: nat): Answer
    requires ReadSize(op) <= |buffer| && next <= |reply.data|
  {
    if |fs| != 2 || !fs[1].I32? then Throws
    else if op.OpClose? then
      if fs[0].U8? then Answer(fs[0].u8, fs[1].i32, buffer) else Throws
    else if !fs[0].I32? then Throws
    else if !(op.OpRead? || op.OpPread?) || fs[0].i32 <= 0 then Answer(fs[0].i32, fs[1].i32, buffer)
    else
      var b := ReadField(KBlob, reply.data, next).field;
      if b.None? || |b.value.bytes| > op.size then Throws
      else if fs[0].i32 > |b.value.bytes| then Undefined
      else Answer(fs[0].i32, fs[1].i32, CopyOver(buffer, b.value.bytes, fs[0].i32))
  }

  /** Two fields and what follows them are found again at the front of a reply. */
  lemma FrontRoundTrip(first: Field, second: Field, rest: seq<byte>)
    ensures var data := Encode([first, second]) + rest;
            Decode([KindOf(first), KindOf(second)], data, 0)
            == Readings(Some([first, second]), |Encode([first, second])|)
  {
    var fs := [first, second];
    var data := Encode(fs) + rest;
    assert data[0..0 + |Encode(fs)|] == Encode(fs);
    RoundTrip(fs, data, 0);
    KindsOfTwo(first, second);
  }

  lemma BackRoundTrip(front: seq<byte>, last: Field)
    requires last.Blob?
    ensures ReadField(KBlob, front + EncodeField(last), |front|).field == Some(last)
  {
    var data, i := front + EncodeField(last), |front|;
    assert data[i..i + |EncodeField(last)|] == EncodeField(last);
    FieldRoundTrip(last, data, i);
  }

  /** The client reads back what the handler put into the reply. */
  lemma ReplyRoundTrip(op: Op, first: Field, second: Field, tail: seq<Field>, buffer: seq<byte>)
    requires ReadSize(op) <= |buffer|
    requires KindOf(first) == (if op.OpClose? then KU8 else KI32) && second.I32?
    requires |tail| <= 1 && (tail != [] ==> tail[0].Blob?)
    ensures var reply := Reply(COMMAND_RESULT, Encode([first, second] + tail));
            var head := |Encode([first, second])|;
            && head <= |reply.data|
            && DecodeReply(op, reply, buffer) == DecodeValues(op, reply, buffer, [first, second], head)
            && (tail != [] ==> ReadField(KBlob, reply.data, head).field == Some(tail[0]))
  {
    EncodeAppend([first, second], tail);
    FrontRoundTrip(first, second, Encode(tail));
    if tail != [] {
      assert tail == [tail[0]];
      EncodeOne(tail[0]);
      BackRoundTrip(Encode([first, second]), tail[0]);
    }
  }

  /** One whole remote call. */
  function RemoteCall(w: Worker, op: Op, buffer: seq<byte>, env: Env): (Worker, Answer)
    requires ReadSize(op) <= |buffer|
  {
    var (w', reply) := Serve(w, EncodeRequest(op), env);
    (w', DecodeReply(op, reply, buffer))
  }

  // ---------- The local model ----------

  /** Files under handles that are counted up and never reused. */
  datatype Local = Local(tab: Tab, next: nat)

  function LocalCall(l: Local, op: Op): (Local, Sys) {
    match op
    case OpOpen(path, flags, _) =>
      if !CanOpen(l.tab, path, flags) then (l, Failed(ENOENT))
      else (Local(OpenAs(l.tab, path, flags, l.next), l.next + 1), Ok(IdAt(l.next), []))
    case OpClose(id) => var (t, r) := CloseKey(l.tab, id); (l.(tab := t), r)
    case OpRead(id, size) => var (t, r) := ReadKey(l.tab, id, size); (l.(tab := t), r)
    case OpPread(id, size, offset) => (l, PreadKey(l.tab, id, size, offset))
    case OpWrite(id, bytes) => var (t, r) := WriteKey(l.tab, id, bytes); (l.(tab := t), r)
    case OpPwrite(id, offset, bytes) => var (t, r) := PwriteKey(l.tab, id, offset, bytes); (l.(tab := t), r)
  }

  /** The remote answer says what the local call says: value, errno of a failure, and exactly the
      bytes read over the front of an otherwise untouched buffer. close() answers 1 or 0. */
  predicate Agrees(op: Op, a: Answer, r: Sys, buffer: seq<byte>) {
    && a.Answer?
    && (r.Ok? ==> |r.bytes| <= |buffer|)
    && a.value == (if op.OpClose? then (if r.Ok? then 1 else 0) else ValueOf(r))
    && (r.Failed? ==> a.errno == r.errno)
    && a.buffer == (if r.Failed? then buffer else r.bytes + buffer[|r.bytes|..])
  }

  ghost predicate Sim(w: Worker, l: Local) {
    && Renames(l.tab, w.os, w.table)
    && l.next == w.nextId
    && (forall id :: id in w.table ==> 0 <= id < w.nextId)
    && (forall fd :: fd in w.os.descs ==> fd >= 0)
  }

  lemma MissingId(w: Worker, l: Local, id: int32)
    requires Sim(w, l) && id !in w.table
    ensures GetFd(w, id) !in w.os.descs && id !in l.tab.descs
  {
  }

  /** What _get_fd finds: for an id that stands for an open file, an open descriptor of that very
      file, another one for every other id; for any other id, -1 or nothing open. */
  lemma GetFdFindsTheFile(w: Worker, l: Local, id: int32, other: int32)
    requires Sim(w, l)
    ensures id in l.tab.descs <==> GetFd(w, id) in w.os.descs
    ensures id in l.tab.descs ==> w.os.descs[GetFd(w, id)] == l.tab.descs[id]
    ensures id in l.tab.descs && other in l.tab.descs && GetFd(w, id) == GetFd(w, other) ==> id == other
  {
    if id !in w.table {
      MissingId(w, l, id);
    }
  }

  lemma OpenSim(w: Worker, l: Local, op: Op, env: Env)
    requires Sim(w, l) && op.OpOpen? && w.nextId < 0x8000_0000
    ensures Sim(Handle(w, op, env).0, LocalCall(l, op).0)
  {
    if CanOpen(w.os, op.path, op.flags) {
      OpenRenames(l.tab, w.os, w.table, op.path, op.flags, w.nextId, FirstUnused(w.os.descs.Keys, env.pick));
    }
  }

  lemma OpenAgrees(w: Worker, l: Local, op: Op, buffer: seq<byte>, env: Env)
    requires Sim(w, l) && op.OpOpen? && w.nextId < 0x8000_0000
    ensures Sim(Handle(w, op, env).0, LocalCall(l, op).0)
    ensures Agrees(op, DecodeReply(op, Reply(COMMAND_RESULT, Encode(Handle(w, op, env).1)), buffer), LocalCall(l, op).1, buffer)
  {
    OpenSim(w, l, op, env);
    var fs := Handle(w, op, env).1;
    ReplyRoundTrip(op, fs[0], fs[1], [], buffer);
    assert [fs[0], fs[1]] + [] == fs;
  }

  lemma CloseAgrees(w: Worker, l: Local, op: Op, buffer: seq<byte>, env: Env)
    requires Sim(w, l) && op.OpClose?
    ensures Sim(Handle(w, op, env).0, LocalCall(l, op).0)
    ensures Agrees(op, DecodeReply(op, Reply(COMMAND_RESULT, Encode(Handle(w, op, env).1)), buffer), LocalCall(l, op).1, buffer)
  {
    var fs := Handle(w, op, env).1;
    ReplyRoundTrip(op, fs[0], fs[1], [], buffer);
    assert [fs[0], fs[1]] + [] == fs;
    if op.id in w.table {
      CloseRenames(l.tab, w.os, w.table, op.id);
    } else {
      MissingId(w, l, op.id);
      assert w.table - {op.id} == w.table;
    }
  }

  lemma WritesAgree(w: Worker, l: Local, op: Op, buffer: seq<byte>, env: Env)
    requires Sim(w, l) && (op.OpWrite? || op.OpPwrite?)
    ensures Sim(Handle(w, op, env).0, LocalCall(l, op).0)
    ensures Agrees(op, DecodeReply(op, Reply(COMMAND_RESULT, Encode(Handle(w, op, env).1)), buffer), LocalCall(l, op).1, buffer)
  {
    var fs := Handle(w, op, env).1;
    ReplyRoundTrip(op, fs[0], fs[1], [], buffer);
    assert [fs[0], fs[1]] + [] == fs;
    if op.id !in w.table {
      MissingId(w, l, op.id);
    } else if op.OpWrite? {
      WriteRenames(l.tab, w.os, w.table, op.id, op.bytes);
    } else {
      PwriteRenames(l.tab, w.os, w.table, op.id, op.offset, op.bytes);
    }
  }

  lemma ReadStates(w: Worker, l: Local, op: Op, env: Env)
    requires Sim(w, l) && (op.OpRead? || op.OpPread?)
    ensures Sim(Handle(w, op, env).0, LocalCall(l, op).0)
    ensures var r := LocalCall(l, op).1;
            && (r.Ok? ==> r.value == |r.bytes| && |r.bytes| <= op.size)
            && Handle(w, op, env).1 == [I32(ValueOf(r)), I32(ErrnoOf(r, env)), Blob(BufferOf(r, op.size))]
  {
    if op.id !in w.table {
      MissingId(w, l, op.id);
    } else if op.OpRead? {
      ReadRenames(l.tab, w.os, w.table, op.id, op.size);
    }
  }

  lemma ReadsAgree(w: Worker, l: Local, op: Op, buffer: seq<byte>, env: Env)
    requires Sim(w, l) && (op.OpRead? || op.OpPread?) && op.size <= |buffer|
    ensures Sim(Handle(w, op, env).0, LocalCall(l, op).0)
    ensures Agrees(op, DecodeReply(op, Reply(COMMAND_RESULT, Encode(Handle(w, op, env).1)), buffer), LocalCall(l, op).1, buffer)
  {
    ReadStates(w, l, op, env);
    ReadReplyAgrees(op, LocalCall(l, op).1, env, buffer);
  }

  /** What the client makes of value, errno and buffer of a read. */
  lemma ReadReplyAgrees(op: Op, r: Sys, env: Env, buffer: seq<byte>)
    requires (op.OpRead? || op.OpPread?) && op.size <= |buffer|
    requires r.Ok? ==> r.value == |r.bytes| && |r.bytes| <= op.size
    ensures var fs := [I32(ValueOf(r)), I32(ErrnoOf(r, env)), Blob(BufferOf(r, op.size))];
            Agrees(op, DecodeReply(op, Reply(COMMAND_RESULT, Encode(fs)), buffer), r, buffer)
  {
    var a, b, c := I32(ValueOf(r)), I32(ErrnoOf(r, env)), Blob(BufferOf(r, op.size));
    ReplyRoundTrip(op, a, b, [c], buffer);
    assert [a, b] + [c] == [a, b, c];
    if r.Ok? {
      assert r.bytes[..|r.bytes|] == r.bytes;
      assert [] + buffer[0..] == buffer;
    }
  }

  lemma HandleAgrees(w: Worker, l: Local, op: Op, buffer: seq<byte>, env: Env)
    requires Sim(w, l) && ReadSize(op) <= |buffer| && w.nextId < 0x8000_0000
    ensures Sim(Handle(w, op, env).0, LocalCall(l, op).0)
    ensures Agrees(op, DecodeReply(op, Reply(COMMAND_RESULT, Encode(Handle(w, op, env).1)), buffer), LocalCall(l, op).1, buffer)
  {
    match op {
      case OpOpen(_, _, _) => OpenAgrees(w, l, op, buffer, env);
      case OpClose(_) => CloseAgrees(w, l, op, buffer, env);
      case OpRead(_, _) => ReadsAgree(w, l, op, buffer, env);
      case OpPread(_, _, _) => ReadsAgree(w, l, op, buffer, env);
      case OpWrite(_, _) => WritesAgree(w, l, op, buffer, env);
      case OpPwrite(_, _, _) => WritesAgree(w, l, op, buffer, env);
    }
  }

  /** One remote call, from encoding to memcpy, against the local call. */
  lemma RemoteCallAgrees(w: Worker, l: Local, op: Op, buffer: seq<byte>, env: Env)
    requires Sim(w, l) && ReadSize(op) <= |buffer| && w.nextId < 0x8000_0000
    ensures Sim(RemoteCall(w, op, buffer, env).0, LocalCall(l, op).0)
    ensures Agrees(op, RemoteCall(w, op, buffer, env).1, LocalCall(l, op).1, buffer)
  {
    RequestRoundTrip(op);
    HandleAgrees(w, l, op, buffer, env);
  }

  // ---------- Whole runs ----------

  datatype Step = Step(op: Op, buffer: seq<byte>, env: Env)

  predicate GoodSteps(steps: seq<Step>) {
    forall i :: 0 <= i < |steps| ==> ReadSize(steps[i].op) <= |steps[i].buffer|
  }

  function RemoteRun(w: Worker, steps: seq<Step>): (r: seq<Answer>)
    requires GoodSteps(steps)
    ensures |r| == |steps|
    decreases |steps|
  {
    if steps == [] then []
    else
      var (w', a) := RemoteCall(w, steps[0].op, steps[0].buffer, steps[0].env);
      [a] + RemoteRun(w', steps[1..])
  }

  /** What one request does to the local model: a file operation its call, a command outside the
      data path whatever it does to the files. */
  function LocalStep(l: Local, req: Request, env: Env): Local {
    if OpOf(req).Some? then LocalCall(l, OpOf(req).value).0
    else if IsOutside(req.typ) then l.(tab := l.tab.(files := env.files))
    else l
  }

  function LocalAfter(l: Local, reqs: seq<Request>, envs: seq<Env>): Local
    requires |reqs| == |envs|
    decreases |reqs|
  {
    if reqs == [] then l else LocalAfter(LocalStep(l, reqs[0], envs[0]), reqs[1..], envs[1..])
  }

  function LocalRun(l: Local, ops: seq<Op>): (r: seq<Sys>)
    ensures |r| == |ops|
    decreases |ops|
  {
    if ops == [] then [] else var (l', s) := LocalCall(l, ops[0]); [s] + LocalRun(l', ops[1..])
  }

  function OpsOf(steps: seq<Step>): (r: seq<Op>)
    ensures |r| == |steps| && forall i :: 0 <= i < |r| ==> r[i] == steps[i].op
  {
    seq(|steps|, i requires 0 <= i < |steps| => steps[i].op)
  }

  lemma HandleCounts(w: Worker, op: Op, env: Env)
    ensures Handle(w, op, env).0.nextId <= w.nextId + 1
  {
  }

  lemma {:induction false} RunAgrees(w: Worker, l: Local, steps: seq<Step>, i: nat)
    requires Sim(w, l) && GoodSteps(steps) && i < |steps| && w.nextId + |steps| <= 0x8000_0000
    ensures Agrees(steps[i].op, RemoteRun(w, steps)[i], LocalRun(l, OpsOf(steps))[i], steps[i].buffer)
    decreases |steps|
  {
    var s := steps[0];
    RemoteCallAgrees(w, l, s.op, s.buffer, s.env);
    assert OpsOf(steps)[1..] == OpsOf(steps[1..]);
    if i > 0 {
      RequestRoundTrip(s.op);
      HandleCounts(w, s.op, s.env);
      RunAgrees(RemoteCall(w, s.op, s.buffer, s.env).0, LocalCall(l, s.op).0, steps[1..], i - 1);
    }
  }

  /** Any run of open, close, read, pread, write and pwrite from an initial set of files, whatever
      descriptors the system recycles: the remote answers agree with the local ones throughout. */
  lemma RemoteRefinesLocal(files: map<blob, seq<byte>>, steps: seq<Step>, i: nat)
    requires GoodSteps(steps) && i < |steps| <= 0x8000_0000
    ensures var start := Tab(files, map[]);
            Agrees(steps[i].op, RemoteRun(Worker(start, map[], 0), steps)[i],
                   LocalRun(Local(start, 0), OpsOf(steps))[i], steps[i].buffer)
  {
    var start := Tab(files, map[]);
    assert Renames(start, start, map[]);
    RunAgrees(Worker(start, map[], 0), Local(start, 0), steps, i);
  }

  /** What pread promises its caller in particular: as many bytes of the file at the offset as there
      are and were asked for, the rest of the buffer untouched, all of it after a failure. */
  predicate PreadMeans(l: Local, op: Op, a: Answer, buffer: seq<byte>)
    requires op.OpPread?
  {
    && a.Answer? && |a.buffer| == |buffer| && -1 <= a.value <= op.size && a.value <= |buffer|
    && (a.value == -1 ==> a.buffer == buffer)
    && (a.value >= 0 ==> op.id in l.tab.descs && a.buffer[a.value..] == buffer[a.value..])
    && (a.value == -1 <==> op.offset < 0 || op.id !in l.tab.descs || !l.tab.descs[op.id].readable)
    && (a.value >= 0 && l.tab.descs[op.id].path in l.tab.files ==>
          var c := l.tab.files[l.tab.descs[op.id].path];
          if op.offset < |c| then
            && a.value == Min(Min(op.size, MAX_RW), |c| - op.offset)
            && a.buffer[..a.value] == c[op.offset..op.offset + a.value]
          else a.value == 0)
  }

  lemma PreadDeliversTheSlice(w: Worker, l: Local, op: Op, buffer: seq<byte>, env: Env)
    requires Sim(w, l) && op.OpPread? && op.size <= |buffer| && w.nextId < 0x8000_0000
    ensures PreadMeans(l, op, RemoteCall(w, op, buffer, env).1, buffer)
  {
    RemoteCallAgrees(w, l, op, buffer, env);
    PreadAnswerMeans(l, op, RemoteCall(w, op, buffer, env).1, LocalCall(l, op).1, buffer);
  }

  lemma PreadAnswerMeans(l: Local, op: Op, a: Answer, r: Sys, buffer: seq<byte>)
    requires op.OpPread? && op.size <= |buffer| && r == PreadKey(l.tab, op.id, op.size, op.offset)
    requires Agrees(op, a, r, buffer)
    ensures PreadMeans(l, op, a, buffer)
  {
    if r.Ok? {
      assert (r.bytes + buffer[|r.bytes|..])[..|r.bytes|] == r.bytes;
      assert (r.bytes + buffer[|r.bytes|..])[|r.bytes|..] == buffer[|r.bytes|..];
    }
  }
}
