/**
 Message types and bodies, without the id that routes them.
 */
module Commands {
  import opened Codec

  // CommanderMessageType, as far as the model tells the commands apart
  const DISCONNECT: byte := 0
  const RENAME: byte := 3
  const SET_TIMES: byte := 8
  const OPEN: byte := 10
  const CLOSE: byte := 11
  const READ: byte := 12
  const PREAD: byte := 13
  const WRITE: byte := 14
  const PWRITE: byte := 15
  const MAKE_DIR: byte := 19
  const REMOVE_DIR: byte := 20     // the last type _do_command knows

  // WorkerMessageType
  const COMMAND_RESULT: byte := 0
  const COMMAND_ERROR: byte := 1
  const COMMAND_UNKNOWN: byte := 2

  // errno values of the calls modelled
  const ENOENT: int32 := 2
  const EBADF: int32 := 9
  const EINVAL: int32 := 22

  datatype Request = Request(typ: byte, data: seq<byte>)
  datatype Reply = Reply(typ: byte, data: seq<byte>)
}
