/**
 worker/FileCommandsHandler: the handler object itself, proved against RemoteFiles.Handle. A method
 returns None where the C++ code throws out of a deserializer call.
 */
module FileCommandsHandlerModel {
  import opened Codec
  import opened Commands
  import opened Files
  import F = RemoteFiles
  import opened BinarySerializerModel
  import opened BinaryDeserializerModel

  class FileCommandsHandler {
    var os: Tab              // the operating system's side
    var fds: map<int, int>
    var nextFdId: nat        // drawn as a 32-bit integer, see RemoteFiles.IdAt

    function State(): F.Worker
      reads this
    {
      F.Worker(os, fds, nextFdId)
    }

    constructor (files: map<blob, seq<byte>>)
      ensures State() == F.Worker(Tab(files, map[]), map[], 0)
    {
      os, fds, nextFdId := Tab(files, map[]), map[], 0;
    }

    /** Every id in the table is one the counter has passed: fewer than 2^31 were drawn. */
    predicate IdsBelowCounter()
      reads this
    {
      forall id :: id in fds ==> 0 <= id < nextFdId
    }

    /** The destructor closes every descriptor in the table, in the map's order. */
    method Destroy()
      requires IdsBelowCounter()
      modifies this
      ensures os.files == old(os.files) && fds == old(fds)
      ensures forall id :: id in fds ==> fds[id] !in os.descs
      ensures forall k :: k in os.descs ==> k in old(os.descs)
      ensures forall k :: k in old(os.descs) && k !in fds.Values ==> k in os.descs
      ensures old(os.descs).Keys == fds.Values ==> os.descs.Keys == {}
    {
      for id := 0 to nextFdId
        invariant fds == old(fds) && nextFdId == old(nextFdId) && os.files == old(os.files)
        invariant forall i :: i in fds && i < id ==> fds[i] !in os.descs
        invariant forall k :: k in os.descs ==> k in old(os.descs)
        invariant forall k :: k in old(os.descs) && k !in fds.Values ==> k in os.descs
      {
        if id in fds {
          os := CloseKey(os, fds[id]).0;
        }
      }
      if old(os.descs).Keys == fds.Values {
        forall k ensures k !in os.descs {
          if k in fds.Values {
            var id :| id in fds && fds[id] == k;
          }
        }
      }
    }

    /** _get_fd */
    function GetFd(id: int32): (fd: int)
      reads this
      ensures fd == F.GetFd(State(), id)
    {
      if id in fds then fds[id] else -1
    }

    /** The reply `r` and the state after are those of the operation the payload holds; a payload
        that does not decode throws before anything has happened. */
    ghost predicate Serves(before: F.Worker, typ: byte, data: seq<byte>, env: F.Env, r: Option<seq<byte>>)
      requires F.IsFileCommand(typ)
      reads this
    {
      var op := F.DecodeRequest(Request(typ, data));
      if op.None? then r.None? && State() == before
      else r == Some(Encode(F.Handle(before, op.value, env).1)) && State() == F.Handle(before, op.value, env).0
    }

    method Open(data: blob, env: F.Env) returns (r: Option<seq<byte>>)
      modifies this
      ensures Serves(old(State()), OPEN, data, env, r)
    {
      var op := OpenArguments(data);
      if op.None? { return None; }

      var fdId: int32, errno: int32 := -1, ENOENT;
      if CanOpen(os, op.value.path, op.value.flags) {
        var fd := F.FirstUnused(os.descs.Keys, env.pick);
        os := OpenAs(os, op.value.path, op.value.flags, fd);
        errno := env.stale;
        fdId := F.IdAt(nextFdId);
        nextFdId := nextFdId + 1;
        if fdId !in fds {
          fds := fds[fdId := fd];
        }
      }
      var bytes := ReplyOfTwo(fdId, errno);
      r := Some(bytes);
    }

    method Close(data: blob, env: F.Env) returns (r: Option<seq<byte>>)
      modifies this
      ensures Serves(old(State()), CLOSE, data, env, r)
    {
      DecodeOne(KI32, data, 0);
      var d := new BinaryDeserializer(data);
      var id := d.DeserializeInt32();
      if id.None? { return None; }

      var (closedOs, result) := CloseKey(os, GetFd(id.value));
      os := closedOs;
      fds := fds - {id.value};

      var bytes := ReplyOfFlag(result.Ok?, F.ErrnoOf(result, env));
      r := Some(bytes);
    }

    method Read(data: blob, env: F.Env) returns (r: Option<seq<byte>>)
      modifies this
      ensures Serves(old(State()), READ, data, env, r)
    {
      DecodeTwo(KI32, KU32, data, 0);
      var d := new BinaryDeserializer(data);
      var id := d.DeserializeInt32();
      if id.None? { return None; }
      var size := d.DeserializeUint32();
      if size.None? { return None; }

      var (readOs, result) := ReadKey(os, GetFd(id.value), size.value);
      os := readOs;
      var bytes := ReplyOfRead(result, size.value, env);
      r := Some(bytes);
    }

    method Pread(data: blob, env: F.Env) returns (r: Option<seq<byte>>)
      modifies this
      ensures Serves(old(State()), PREAD, data, env, r)
    {
      var op := PreadArguments(data);
      if op.None? { return None; }

      var result := PreadKey(os, GetFd(op.value.id), op.value.size, op.value.offset);
      var bytes := ReplyOfRead(result, op.value.size, env);
      r := Some(bytes);
    }

    method Write(data: blob, env: F.Env) returns (r: Option<seq<byte>>)
      modifies this
      ensures Serves(old(State()), WRITE, data, env, r)
    {
      DecodeTwo(KI32, KBlob, data, 0);
      var d := new BinaryDeserializer(data);
      var id := d.DeserializeInt32();
      if id.None? { return None; }
      var payload := d.DeserializeBytes();
      if payload.None? { return None; }

      var (writtenOs, result) := WriteKey(os, GetFd(id.value), payload.value);
      os := writtenOs;
      var bytes := ReplyOfTwo(F.ValueOf(result), F.ErrnoOf(result, env));
      r := Some(bytes);
    }

    method Pwrite(data: blob, env: F.Env) returns (r: Option<seq<byte>>)
      modifies this
      ensures Serves(old(State()), PWRITE, data, env, r)
    {
      var op := PwriteArguments(data);
      if op.None? { return None; }

      var (writtenOs, result) := PwriteKey(os, GetFd(op.value.id), op.value.offset, op.value.bytes);
      os := writtenOs;
      var bytes := ReplyOfTwo(F.ValueOf(result), F.ErrnoOf(result, env));
      r := Some(bytes);
    }

    /** Worker::_do_command. The flag that a disconnect raises is part of Rpc. */
    method DoCommand(typ: byte, data: blob, env: F.Env) returns (reply: Reply)
      modifies this
      ensures F.Serve(old(State()), Request(typ, data), env) == (State(), reply)
    {
      if typ == DISCONNECT {
        return Reply(COMMAND_RESULT, []);
      } else if typ > REMOVE_DIR {
        return Reply(COMMAND_UNKNOWN, []);
      } else if F.IsOutside(typ) {
        os := Tab(env.files, os.descs);
        return env.other;
      } else if !F.IsFileCommand(typ) {
        return env.other;
      }
      reply := DoFileCommand(typ, data, env);
    }

    method DoFileCommand(typ: byte, data: blob, env: F.Env) returns (reply: Reply)
      requires F.IsFileCommand(typ)
      modifies this
      ensures F.Serve(old(State()), Request(typ, data), env) == (State(), reply)
    {
      var r: Option<seq<byte>>;
      if typ == OPEN { r := Open(data, env); }
      else if typ == CLOSE { r := Close(data, env); }
      else if typ == READ { r := Read(data, env); }
      else if typ == PREAD { r := Pread(data, env); }
      else if typ == WRITE { r := Write(data, env); }
      else { r := Pwrite(data, env); }
      if r.Some? {
        return Reply(COMMAND_RESULT, r.value);
      }
      var s := new BinarySerializer();
      s.SerializeBytes(env.what);
      EncodeOne(Blob(env.what));
      assert [] + EncodeField(Blob(env.what)) == EncodeField(Blob(env.what));
      var bytes := s.Data();
      return Reply(COMMAND_ERROR, bytes);
    }
  }

  method OpenArguments(data: blob) returns (op: Option<F.Op>)
    ensures op == F.DecodeRequest(Request(OPEN, data))
    ensures op.Some? ==> op.value.OpOpen?
  {
    DecodeThree(KBlob, KI32, KI32, data, 0);
    var d := new BinaryDeserializer(data);
    var path := d.DeserializeBytes();
    if path.None? { return None; }
    var flags := d.DeserializeInt32();
    if flags.None? { return None; }
    var mode := d.DeserializeInt32();
    if mode.None? { return None; }
    return Some(F.OpOpen(path.value, flags.value, mode.value));
  }

  method PreadArguments(data: blob) returns (op: Option<F.Op>)
    ensures op == F.DecodeRequest(Request(PREAD, data))
    ensures op.Some? ==> op.value.OpPread?
  {
    DecodeThree(KI32, KU32, KI64, data, 0);
    var d := new BinaryDeserializer(data);
    var id := d.DeserializeInt32();
    if id.None? { return None; }
    var size := d.DeserializeUint32();
    if size.None? { return None; }
    var offset := d.DeserializeInt64();
    if offset.None? { return None; }
    return Some(F.OpPread(id.value, size.value, offset.value));
  }

  method PwriteArguments(data: blob) returns (op: Option<F.Op>)
    ensures op == F.DecodeRequest(Request(PWRITE, data))
    ensures op.Some? ==> op.value.OpPwrite?
  {
    DecodeThree(KI32, KI64, KBlob, data, 0);
    var d := new BinaryDeserializer(data);
    var id := d.DeserializeInt32();
    if id.None? { return None; }
    var offset := d.DeserializeInt64();
    if offset.None? { return None; }
    var payload := d.DeserializeBytes();
    if payload.None? { return None; }
    return Some(F.OpPwrite(id.value, offset.value, payload.value));
  }

  method ReplyOfTwo(value: int32, errno: int32) returns (bytes: seq<byte>)
    ensures bytes == Encode([I32(value), I32(errno)])
  {
    var s := new BinarySerializer();
    s.SerializeInt32(value);
    s.SerializeInt32(errno);
    EncodeTwo(I32(value), I32(errno));
    assert [] + EncodeField(I32(value)) == EncodeField(I32(value));
    bytes := s.Data();
  }

  method ReplyOfFlag(ok: bool, errno: int32) returns (bytes: seq<byte>)
    ensures bytes == Encode([U8(if ok then 1 else 0), I32(errno)])
  {
    var flag: byte := if ok then 1 else 0;
    var s := new BinarySerializer();
    s.SerializeUint8(flag);
    s.SerializeInt32(errno);
    EncodeTwo(U8(flag), I32(errno));
    assert [] + EncodeField(U8(flag)) == EncodeField(U8(flag));
    bytes := s.Data();
  }

  /** The tail of read and pread: value, errno, and the buffer cut to what was read. */
  method ReplyOfRead(result: Sys, size: uint32, env: F.Env) returns (bytes: seq<byte>)
    requires result.Ok? ==> result.value == |result.bytes| && |result.bytes| <= size
    ensures bytes == Encode([I32(F.ValueOf(result)), I32(F.ErrnoOf(result, env)), Blob(F.BufferOf(result, size))])
  {
    var buffer: seq<byte> := seq(size, _ => 0);
    if result.Ok? {
      buffer := result.bytes + buffer[|result.bytes|..];   // the system call fills the buffer
    }
    var value, errno := F.ValueOf(result), F.ErrnoOf(result, env);
    var s := new BinarySerializer();
    s.SerializeInt32(value);
    s.SerializeInt32(errno);
    if value >= 0 {
      buffer := Resize(buffer, value);
    }
    assert buffer == F.BufferOf(result, size);
    EncodeThree(I32(value), I32(errno), Blob(F.BufferOf(result, size)));
    assert [] + EncodeField(I32(value)) == EncodeField(I32(value));
    s.SerializeBytes(buffer);
    bytes := s.Data();
  }
}
