/**
 commander/Commander: the calls that encode a request and decode its reply. The trip in between is
 that of RpcTheorems.Correlation: the reply is the one _do_command makes from this request.
 */
module CommanderModel {
  import opened Codec
  import opened Commands
  import opened Messages
  import F = RemoteFiles
  import opened BinarySerializerModel
  import opened BinaryDeserializerModel
  import opened FileCommandsHandlerModel

  // What a call ends in. Undefined: it would copy from beyond the bytes received.
  datatype Result = Returns(value: int, errno: int32) | Throws | Undefined

  /** The call ended in what `a` says and left `buffer` in the caller's hands. */
  ghost predicate Is(r: Result, buffer: seq<byte>, a: F.Answer) {
    match a
    case Throws => r.Throws?
    case Undefined => r.Undefined?
    case Answer(value, errno, bytes) => r == Returns(value, errno) && buffer == bytes
  }

  // What becomes of a command in _send_command: never run, as when it is refused or its write throws;
  // run, but the caller was drained; or answered (see CallFates.FateIsFinal).
  datatype Trip = NeverRun | ReplyLost | Answered

  /** The state after the trip, and the answer it brings the caller. */
  function After(trip: Trip, before: F.Worker, c: (F.Worker, F.Answer)): (F.Worker, F.Answer) {
    match trip
    case NeverRun => (before, F.Throws)
    case ReplyLost => (c.0, F.Throws)
    case Answered => c
  }

  /** _send_command with the Worker at the other end; None when it throws. */
  method SendCommand(worker: FileCommandsHandler, typ: byte, data: blob, env: F.Env, trip: Trip)
    returns (reply: Option<Reply>)
    modifies worker
    ensures trip.NeverRun? ==> reply.None? && worker.State() == old(worker.State())
    ensures !trip.NeverRun? ==> worker.State() == F.Serve(old(worker.State()), Request(typ, data), env).0
    ensures trip.Answered? ==> reply == Some(F.Serve(old(worker.State()), Request(typ, data), env).1)
    ensures trip.ReplyLost? ==> reply.None?
  {
    if trip.NeverRun? {
      return None;
    }
    var served := worker.DoCommand(typ, data, env);
    reply := if trip.Answered? then Some(served) else None;
  }

  /** Payload and header together stay below 2^32 bytes. */
  predicate Transportable(payload: nat) {
    payload + HEADER < LIMIT
  }

  lemma SizeOfThree(a: int32, b: int32, c: blob)
    ensures |Encode([I32(a), I32(b), Blob(c)])| == 12 + |c|
  {
    EncodeThree(I32(a), I32(b), Blob(c));
  }

  lemma SizeOfTwo(a: Field, b: int32)
    requires a.I32? || a.U8?
    ensures |Encode([a, I32(b)])| <= 8
  {
    EncodeTwo(a, I32(b));
  }

  lemma ErrorSize(what: blob)
    ensures |Encode([Blob(what)])| == 4 + |what|
  {
    EncodeOne(Blob(what));
  }

  lemma ReadReplySize(w: F.Worker, op: F.Op, env: F.Env)
    requires (op.OpRead? || op.OpPread?) && Transportable(12 + op.size) && Transportable(4 + |env.what|)
    ensures |F.Serve(w, F.EncodeRequest(op), env).1.data| < LIMIT
  {
    F.RequestRoundTrip(op);
    ErrorSize(env.what);
    var fs := F.Handle(w, op, env).1;
    SizeOfThree(fs[0].i32, fs[1].i32, fs[2].bytes);
    assert fs == [I32(fs[0].i32), I32(fs[1].i32), Blob(fs[2].bytes)];
  }

  lemma PlainReplySize(w: F.Worker, op: F.Op, env: F.Env)
    requires !(op.OpRead? || op.OpPread?) && Transportable(4 + |env.what|)
    ensures |F.Serve(w, F.EncodeRequest(op), env).1.data| < LIMIT
  {
    F.RequestRoundTrip(op);
    ErrorSize(env.what);
    var fs := F.Handle(w, op, env).1;
    SizeOfTwo(fs[0], fs[1].i32);
    assert fs == [fs[0], I32(fs[1].i32)];
  }

  lemma Prefix(a: seq<byte>)
    ensures [] + a == a
  {
  }

  method OpenRequest(path: blob, flags: int32, mode: int32) returns (data: blob)
    requires Transportable(12 + |path|)
    ensures Request(OPEN, data) == F.EncodeRequest(F.OpOpen(path, flags, mode))
  {
    var s := new BinarySerializer();
    s.SerializeBytes(path);
    s.SerializeInt32(flags);
    s.SerializeInt32(mode);
    EncodeThree(Blob(path), I32(flags), I32(mode));
    Prefix(EncodeField(Blob(path)));
    data := s.Data();
  }

  method PreadRequest(fd: int32, size: uint32, offset: int64) returns (data: blob)
    ensures Request(PREAD, data) == F.EncodeRequest(F.OpPread(fd, size, offset))
  {
    var s := new BinarySerializer();
    s.SerializeInt32(fd);
    s.SerializeUint32(size);
    s.SerializeInt64(offset);
    EncodeThree(I32(fd), U32(size), I64(offset));
    Prefix(EncodeField(I32(fd)));
    data := s.Data();
  }

  method PwriteRequest(fd: int32, bytes: blob, offset: int64) returns (data: blob)
    requires Transportable(16 + |bytes|)
    ensures Request(PWRITE, data) == F.EncodeRequest(F.OpPwrite(fd, offset, bytes))
  {
    var s := new BinarySerializer();
    s.SerializeInt32(fd);
    s.SerializeInt64(offset);
    s.SerializeBytes(bytes);
    EncodeThree(I32(fd), I64(offset), Blob(bytes));
    Prefix(EncodeField(I32(fd)));
    data := s.Data();
  }

  method Open(worker: FileCommandsHandler, path: blob, flags: int32, mode: int32, env: F.Env, trip: Trip)
    returns (r: Result)
    requires Transportable(12 + |path|) && Transportable(4 + |env.what|)
    modifies worker
    ensures var c := After(trip, old(worker.State()), F.RemoteCall(old(worker.State()), F.OpOpen(path, flags, mode), [], env));
            worker.State() == c.0 && Is(r, [], c.1)
  {
    var data := OpenRequest(path, flags, mode);
    PlainReplySize(worker.State(), F.OpOpen(path, flags, mode), env);
    var reply := SendCommand(worker, OPEN, data, env, trip);
    if reply.None? { return Throws; }
    r := DecodePlain(F.OpOpen(path, flags, mode), reply.value);
  }

  method Close(worker: FileCommandsHandler, fd: int32, env: F.Env, trip: Trip)
    returns (r: Result)
    requires Transportable(4 + |env.what|)
    modifies worker
    ensures var c := After(trip, old(worker.State()), F.RemoteCall(old(worker.State()), F.OpClose(fd), [], env));
            worker.State() == c.0 && Is(r, [], c.1)
  {
    var s := new BinarySerializer();
    s.SerializeInt32(fd);
    EncodeOne(I32(fd));
    Prefix(EncodeField(I32(fd)));
    var data := s.Data();
    assert Request(CLOSE, data) == F.EncodeRequest(F.OpClose(fd));
    PlainReplySize(worker.State(), F.OpClose(fd), env);
    var reply := SendCommand(worker, CLOSE, data, env, trip);
    if reply.None? { return Throws; }
    r := DecodeFlag(F.OpClose(fd), reply.value);
  }

  method Pread(worker: FileCommandsHandler, fd: int32, bytes: array<byte>, size: uint32, offset: int64, env: F.Env, trip: Trip)
    returns (r: Result)
    requires size <= bytes.Length && Transportable(12 + size) && Transportable(4 + |env.what|)
    modifies worker, bytes
    ensures var c := After(trip, old(worker.State()), F.RemoteCall(old(worker.State()), F.OpPread(fd, size, offset), old(bytes[..]), env));
            worker.State() == c.0 && Is(r, bytes[..], c.1)
    ensures !r.Returns? ==> bytes[..] == old(bytes[..])
  {
    var data := PreadRequest(fd, size, offset);
    ReadReplySize(worker.State(), F.OpPread(fd, size, offset), env);
    var reply := SendCommand(worker, PREAD, data, env, trip);
    if reply.None? { return Throws; }
    r := DecodeRead(F.OpPread(fd, size, offset), reply.value, bytes, size);
  }

  method Read(worker: FileCommandsHandler, fd: int32, bytes: array<byte>, size: uint32, env: F.Env, trip: Trip)
    returns (r: Result)
    requires size <= bytes.Length && Transportable(12 + size) && Transportable(4 + |env.what|)
    modifies worker, bytes
    ensures var c := After(trip, old(worker.State()), F.RemoteCall(old(worker.State()), F.OpRead(fd, size), old(bytes[..]), env));
            worker.State() == c.0 && Is(r, bytes[..], c.1)
    ensures !r.Returns? ==> bytes[..] == old(bytes[..])
  {
    var s := new BinarySerializer();
    s.SerializeInt32(fd);
    s.SerializeUint32(size);
    EncodeTwo(I32(fd), U32(size));
    Prefix(EncodeField(I32(fd)));
    var data := s.Data();
    assert Request(READ, data) == F.EncodeRequest(F.OpRead(fd, size));
    ReadReplySize(worker.State(), F.OpRead(fd, size), env);
    var reply := SendCommand(worker, READ, data, env, trip);
    if reply.None? { return Throws; }
    r := DecodeRead(F.OpRead(fd, size), reply.value, bytes, size);
  }

  method Pwrite(worker: FileCommandsHandler, fd: int32, bytes: blob, offset: int64, env: F.Env, trip: Trip)
    returns (r: Result)
    requires Transportable(16 + |bytes|) && Transportable(4 + |env.what|)
    modifies worker
    ensures var c := After(trip, old(worker.State()), F.RemoteCall(old(worker.State()), F.OpPwrite(fd, offset, bytes), [], env));
            worker.State() == c.0 && Is(r, [], c.1)
  {
    var data := PwriteRequest(fd, bytes, offset);
    PlainReplySize(worker.State(), F.OpPwrite(fd, offset, bytes), env);
    var reply := SendCommand(worker, PWRITE, data, env, trip);
    if reply.None? { return Throws; }
    r := DecodePlain(F.OpPwrite(fd, offset, bytes), reply.value);
  }

  method Write(worker: FileCommandsHandler, fd: int32, bytes: blob, env: F.Env, trip: Trip)
    returns (r: Result)
    requires Transportable(8 + |bytes|) && Transportable(4 + |env.what|)
    modifies worker
    ensures var c := After(trip, old(worker.State()), F.RemoteCall(old(worker.State()), F.OpWrite(fd, bytes), [], env));
            worker.State() == c.0 && Is(r, [], c.1)
  {
    var s := new BinarySerializer();
    s.SerializeInt32(fd);
    s.SerializeBytes(bytes);
    EncodeTwo(I32(fd), Blob(bytes));
    Prefix(EncodeField(I32(fd)));
    var data := s.Data();
    assert Request(WRITE, data) == F.EncodeRequest(F.OpWrite(fd, bytes));
    PlainReplySize(worker.State(), F.OpWrite(fd, bytes), env);
    var reply := SendCommand(worker, WRITE, data, env, trip);
    if reply.None? { return Throws; }
    r := DecodePlain(F.OpWrite(fd, bytes), reply.value);
  }

  /** Value and errno, the whole reply of open, write and pwrite. */
  method DecodePlain(ghost op: F.Op, reply: Reply) returns (r: Result)
    requires op.OpOpen? || op.OpWrite? || op.OpPwrite?
    requires |reply.data| < LIMIT
    ensures Is(r, [], F.DecodeReply(op, reply, []))
  {
    if reply.typ != COMMAND_RESULT {
      return Throws;
    }
    DecodeTwo(KI32, KI32, reply.data, 0);
    var d := new BinaryDeserializer(reply.data);
    var value := d.DeserializeInt32();
    if value.None? { return Throws; }
    var errno := d.DeserializeInt32();
    if errno.None? { return Throws; }
    return Returns(value.value, errno.value);
  }

  /** The decoding half of close. */
  method DecodeFlag(ghost op: F.Op, reply: Reply) returns (r: Result)
    requires op.OpClose? && |reply.data| < LIMIT
    ensures Is(r, [], F.DecodeReply(op, reply, []))
  {
    if reply.typ != COMMAND_RESULT {
      return Throws;
    }
    DecodeTwo(KU8, KI32, reply.data, 0);
    var d := new BinaryDeserializer(reply.data);
    var value := d.DeserializeUint8();
    if value.None? { return Throws; }
    var errno := d.DeserializeInt32();
    if errno.None? { return Throws; }
    return Returns(value.value, errno.value);
  }

  /** The decoding half of read and pread, memcpy included. */
  method DecodeRead(ghost op: F.Op, reply: Reply, bytes: array<byte>, size: uint32) returns (r: Result)
    requires (op.OpRead? || op.OpPread?) && op.size == size <= bytes.Length
    requires |reply.data| < LIMIT
    modifies bytes
    ensures Is(r, bytes[..], F.DecodeReply(op, reply, old(bytes[..])))
    ensures !r.Returns? ==> bytes[..] == old(bytes[..])
  {
    if reply.typ != COMMAND_RESULT {
      return Throws;
    }
    DecodeTwo(KI32, KI32, reply.data, 0);
    var d := new BinaryDeserializer(reply.data);
    var value := d.DeserializeInt32();
    if value.None? { return Throws; }
    var errno := d.DeserializeInt32();
    if errno.None? { return Throws; }
    if value.value > 0 {
      var b := d.DeserializeBytes();
      if b.None? { return Throws; }
      if |b.value| > size { return Throws; }
      // RemoteCallAgrees shows that the Worker never causes this
      if value.value > |b.value| { return Undefined; }
      var n: nat := value.value;
      forall k | 0 <= k < n {
        bytes[k] := b.value[k];
      }
      assert bytes[..] == F.CopyOver(old(bytes[..]), b.value, n);
    }
    return Returns(value.value, errno.value);
  }
}
