# ZControl, modelled and proved in Dafny

ZControl lets many threads issue file system commands to a remote Worker over one connection. A
`Commander` numbers each command, stores a promise under the number, writes the command and waits.
The `Worker` reads commands into a queue, several handler threads run them and write the replies in
whatever order they finish, and the Commander's reader thread matches each reply to the waiting
caller by its number.

The model has four layers; each is proved on its own and used by the next.

* **Codec** (`Codec.dfy`, `BinarySerializer.dfy`, `BinaryDeserializer.dfy`). The wire format as
  functions, with round trip, canonicity and prefix-freeness for every list of typed fields, and
  the two cursor classes proved against those functions, call by call and for any sequence of calls,
  32-bit cursor wrap-around and the cursor left behind by a throwing call included.
* **Transport** (`Messages.dfy`, `MessageTransport.dfy`, `Wire.dfy`). `Messages.Parse` says which
  messages a byte stream holds. The class is proved against it for every way `recv` may split the
  stream and every moment another thread may run `close`. `Wire` adds concurrent writers: at byte
  granularity and in every interleaving the connection is a FIFO of whole messages in lock order.
* **RPC** (`ConcurrentQueue.dfy`, `Rpc.dfy`, `RpcInvariant.dfy`, `RpcTheorems.dfy`,
  `RpcStranding.dfy`, `RpcProgress.dfy`, `RpcStop.dfy`, `RpcRest.dfy`, `RpcOverWire.dfy`,
  `ThreadPool.dfy`). One step system for any number of callers, the reader thread, both channels,
  the Worker's reader, the queue with its condition variable, and any number of handlers. Every lock
  region and atomic access is one step. Proved over every run: correlation, conservation,
  at-most-once execution, linearizability, no stranded caller after a reader failure, exactly when
  `disconnect` strands one, no lost wakeup, and that every call returns: the system's own steps are
  bounded by a measure and cannot run out while a call waits, whatever object the handlers run. A
  Worker told to stop comes to rest, and what tells it to is known exactly. The pool that the
  handlers run in starts every one of them. With both channels replaced by byte streams, every run
  still is a run of this system (`RpcOverWire.dfy`).
* **Files and directories** (`Descriptors.dfy`, `Files.dfy`, `RemoteFiles.dfy`, `FileLaws.dfy`,
  `FileCommandsHandler.dfy`, `Commander.dfy`, `ConcurrentFiles.dfy`, `FileService.dfy`,
  `CallFates.dfy`, `Listing.dfy`, `DirCommandsHandler.dfy`, `ReaddirLoop.dfy`). The id table under
  concurrency and descriptor recycling, which refines a table whose operations are single steps;
  remote runs of open, close, read, pread, write and pwrite agree with a local model whose handles
  are never recycled, first call by call and then for concurrent callers end to end, and every such
  call returns. `FileLaws.dfy` says what that local model is worth: reads go on where the last one
  ended, writes land one behind the other, what was written is read back, and everything else is
  left alone. Batched listings are complete and terminate.

A method or function returns `None` where the C++ code throws. Fields and message parts marked as
history are never looked at by a step.

## Where the code falls short of what one would expect

Each of these is a lemma: a concrete run, and the exact condition.

* `disconnect()` clears `_connected` (commander/Commander.cpp:93). If the reader is at its loop test
  at that moment it leaves without draining, and callers blocked on their futures wait for ever:
  `RpcStranding.DisconnectCanStrand` is a run, `StrandedForever` says that nothing helps.
  `StrandsExactly` gives the condition call by call: some continuation blocks a call for ever if and
  only if its promise is in the map and its write has not failed, or it holds the lock to register.
  `LeavesCleanlyExactly` gives it for all calls: nobody is stranded if and only if the map was drained,
  or nobody holds the lock and only failed writes are pending.
* Registering a command whose number is still pending destroys the older promise:
  `RpcTheorems.OverwriteExactly` gives the condition, `OverwriteCanHappen` the run in which 2^32 later
  calls draw their numbers first, and `OverwriteAhead` the same from any state.
* Two overlapping closes of one id can close somebody else's new descriptor:
  `Descriptors.OverlappingClosesBreakOthers` is a run. `DisciplineIsExact`: a call can lead there if
  and only if its id has its entry and it overlaps a close of it, or closes under a use.
* The queue's flag alone does not wake a consumer, the notification after it does:
  `ConcurrentQueue.FlagAloneDoesNotWake` is a run. `FlagSufficesExactly`: the flag is enough if and
  only if no consumer is asleep or has already decided to sleep.
* A full filler ends only the inner loop of `zcfs_readdir`, so later batches are still offered; an
  errno hides the whole batch it ends. `ReaddirLoop.ReadAllBatches` says exactly what the filler is
  left with, and `TakenAll` that this is the listing if and only if no place in it was refused.
* A poll on a closed socket whose cancellation byte was already taken waits for ever:
  `MessageTransportModel.SecondPollSticks` is the sequence of calls, `StuckExactly` the condition. The
  loops of the Commander and the Worker stop at the first cancellation and never get there, which is
  what `Read` and `ReadMessages` promise.

## Assumptions

* `TcpSocket::send` transfers the whole buffer or throws without sending anything; the code does not
  loop on a short send (base/TcpSocket.cpp:99-104).
* A payload and its 9-byte header together stay below 2^32 bytes, because the serializer's cursor is
  a `uint32_t`.
* No promise is stored over another one (`RpcInvariant.NoOverwrite`). It is enough that a call that is
  pending, or on its way to be, is overtaken by fewer than 2^32 later allocations of a command id
  (`Rpc.Fresh`). Fewer than 2^31 descriptor ids are issued.
* Signed shifts are two's complement, as in C++20 and later.
* Steps are sequentially consistent. In `Rpc` one handler run is one step; what happens inside the
  descriptor table meanwhile is the subject of `Descriptors`.
* The operating system may return any unused descriptor, including one closed a moment ago.
* A successful command reports whatever errno was left behind (`Env.stale`).
* `Commander::pread` compares the size of the received vector, not the value it copies by, with the
  caller's size. A value beyond the vector is the outcome `Undefined`; `RemoteFiles.RemoteCallAgrees`
  shows that this Worker never causes it.

## Model

| member | source | states |
|---|---|---|
| Codec.SignedRoundTrip | common/BinaryDeserializer.cpp:32-51 | every two's-complement value of a width comes back from its big-endian bytes |
| Codec.WrapStep | common/BinaryDeserializer.cpp:35-38 | one round of the signed accumulation loop (shift in fixed width, add a byte) is the wrapped value of the longer number |
| Codec.BigEndianOfUnsigned | common/BinarySerializer.cpp:13-42 | a number determines its bytes up to the modulus of the width |
| Codec.FieldRoundTrip | common/BinarySerializer.cpp:7-76 | one field of any type reads back from any place in a buffer, the cursor right behind it |
| Codec.RoundTrip | common/BinarySerializer.cpp:7-76 | any list of typed fields reads back unchanged by its schema and leaves exactly the suffix |
| Codec.Canonical | common/BinaryDeserializer.cpp:17-71 | whatever a schema accepts is the encoding of what it returns |
| Codec.PrefixFree | common/BinarySerializer.cpp:7-76 | encodings of one schema are prefix-free: what follows them is determined too |
| Codec.EncodeAppend | common/BinarySerializer.cpp:7-76 | encoding a concatenation of field lists is concatenating encodings |
| BinarySerializerModel.DigitsSplit | common/BinarySerializer.cpp:31-42 | a wide integer's bytes are those of its high part followed by those of its low part |
| BinarySerializerModel.StoreWord | common/BinarySerializer.cpp:13-29 | the four indexed stores put the big-endian word at the cursor and change nothing else |
| BinarySerializerModel.BinarySerializer.constructor | common/BinarySerializer.cpp:5 | starts empty with the cursor at the end |
| BinarySerializerModel.BinarySerializer.SerializeUint8 | common/BinarySerializer.cpp:7-11 | appends the byte; the cursor stays at the end exactly when the length stays below 2^32 |
| BinarySerializerModel.BinarySerializer.SerializeUint32 | common/BinarySerializer.cpp:13-20 | appends the encoded field, dropping nothing; exact condition for the cursor |
| BinarySerializerModel.BinarySerializer.SerializeInt32 | common/BinarySerializer.cpp:22-29 | the same for two's complement |
| BinarySerializerModel.BinarySerializer.SerializeInt64 | common/BinarySerializer.cpp:31-42 | the same for 64 bits |
| BinarySerializerModel.BinarySerializer.SerializeBytes | common/BinarySerializer.cpp:44-76 | appends length and contents; exact condition under which the truncated length and the cursor are right |
| BinarySerializerModel.BinarySerializer.Data | common/BinarySerializer.cpp:78-85 | hands over the whole buffer and restores the empty state |
| BinarySerializerModel.SerializeAll | common/BinarySerializer.cpp:7-85 | any sequence of calls appends the encoding of its fields; `resize` never drops a byte |
| BinaryDeserializerModel.BinaryDeserializer.BytesAvailable | common/BinaryDeserializer.cpp:13-15 | cursor and rest make up the buffer, without wrap-around |
| BinaryDeserializerModel.BinaryDeserializer.DeserializeUint8 | common/BinaryDeserializer.cpp:17-20 | result, failure and cursor are those of reading a byte field; the cursor never passes the end |
| BinaryDeserializerModel.BinaryDeserializer.DeserializeUint32 | common/BinaryDeserializer.cpp:22-30 | the accumulation loop reads the big-endian field or fails without moving |
| BinaryDeserializerModel.BinaryDeserializer.DeserializeInt32 | common/BinaryDeserializer.cpp:32-40 | the signed loop reads the two's-complement field or fails without moving |
| BinaryDeserializerModel.BinaryDeserializer.DeserializeInt64 | common/BinaryDeserializer.cpp:42-51 | the same for 64 bits |
| BinaryDeserializerModel.BinaryDeserializer.TakeBytes | common/BinaryDeserializer.cpp:66-71 | succeeds exactly when enough bytes are left, returns exactly those, moves only then |
| BinaryDeserializerModel.BinaryDeserializer.DeserializeBytes | common/BinaryDeserializer.cpp:53-64 | prefix and contents, or failure with the cursor behind a readable prefix whose contents are missing |
| BinaryDeserializerModel.DeserializeAll | common/BinaryDeserializer.cpp:17-71 | any sequence of calls, on arbitrary bytes and up to the first that throws, reads what its schema says and leaves the cursor inside the buffer |
| BinaryDeserializerModel.WriteThenRead | common/BinaryDeserializer.cpp:17-71 | writing any fields through one class and reading them through the other gives them back |
| Messages.FrameIsHeaderAndBody | common/MessageTransport.cpp:54-58 | a frame is nine header bytes and the payload |
| Messages.HeaderDecodes | common/MessageTransport.cpp:41-44 | any nine bytes are the header of what they decode to |
| Messages.CompleteExactly | common/MessageTransport.cpp:36-51 | behind a header a complete frame is present exactly when the announced payload is |
| Messages.NextFrameExact | common/MessageTransport.cpp:36-52 | a stream's next message is `m` exactly when it starts with the frame of `m` |
| Messages.ParseSound | common/MessageTransport.cpp:36-52 | parsing accounts for every byte and stops only where no complete frame is left |
| Messages.ParseFrames | common/MessageTransport.cpp:36-61 | concatenated frames parse back to the messages whatever follows |
| Messages.ParseOfCutStream | common/MessageTransport.cpp:21-52 | a stream cut at any byte yields exactly the frames that fit before the cut |
| MessageTransportModel.StuckExactly | base/TcpSocket.cpp:106-119 | some timing of close calls leaves the next poll waiting for ever if and only if a cancellation was already taken and no byte is left |
| MessageTransportModel.SecondPollSticks | base/TcpSocket.cpp:106-119 | after a close on a fresh transport the first poll is cancelled, the second waits until another close |
| MessageTransportModel.NotificationIsSeen | common/MessageTransport.cpp:63-66 | a notification given between polls is seen by the next one whatever else happens; a first poll never sticks |
| MessageTransportModel.MessageTransport.Close | common/MessageTransport.cpp:63-66 | one more cancellation byte, written before the socket is shut down and given up |
| MessageTransportModel.MessageTransport.Poll | base/TcpSocket.cpp:106-119 | ends as the pipe and the socket stand at some moment between the steps of other threads' closes; a byte that is there cancels; never sticks before a cancellation was taken |
| MessageTransportModel.MessageTransport.Recv | base/TcpSocket.cpp:87-93 | delivers some prefix of what is to come, or fails; on an open socket it is empty exactly at the end of the stream; always fails when the descriptor is gone |
| MessageTransportModel.MessageTransport.ReadExactly | common/MessageTransport.cpp:21-34 | for every chunking: done exactly when the buffer was filled with the next bytes; without a close it ends done, by a recv that failed, or closed by the peer when too few were left; never stuck before a cancellation was taken |
| MessageTransportModel.MessageTransport.Read | common/MessageTransport.cpp:36-52 | a returned message was the next frame; closed by the peer, without a close, means there was no complete frame; a pending close cancels before a byte is taken; never stuck before a cancellation was taken |
| MessageTransportModel.MessageTransport.Write | common/MessageTransport.cpp:54-61 | appends exactly one frame to the outgoing bytes, for every message |
| MessageTransportModel.DecodeHeader | common/MessageTransport.cpp:41-44 | the three reads recover the header |
| MessageTransportModel.DecodeBody | common/MessageTransport.cpp:49-51 | header values and body make up the frame that was read |
| MessageTransportModel.ReadMessages | worker/Worker.cpp:32-53 | hands on a prefix of the parsed messages, however it ends; all of them when the peer closed and nobody else did; none when cancelled before; never hangs on a transport whose cancellation is still to come |
| Wire.StepKeepsInv | common/MessageTransport.cpp:21-61 | bytes read, in flight and unsent are always the frames of the undelivered messages in lock order |
| Wire.BodyKeepsInv | common/MessageTransport.cpp:46-51 | completing a body delivers the oldest undelivered message |
| Wire.RefinesFifo | common/MessageTransport.cpp:21-61 | every byte-level step is an enqueue at the lock, a dequeue at the end of a body, or nothing |
| Wire.DeliveredIsLockOrder | common/MessageTransport.cpp:54-61 | over every run, what was read is a prefix of the lock order, and all of it when nothing is under way |
| Wire.NeverStuck | common/MessageTransport.cpp:21-34 | while a message is undelivered, some byte can move or some buffer is full |
| Wire.EverythingArrives | common/MessageTransport.cpp:21-61 | from every reachable state and with no further write, a bounded number of byte steps is possible, in any order; then every message has been delivered in lock order and the lock is free |
| ConcurrentQueue.StepKeepsInv | base/ConcurrentQueue.hpp:38-72 | every step keeps mutual exclusion, the wakeup balance, the shutdown state and the FIFO equation |
| ConcurrentQueue.NoLostWakeup | base/ConcurrentQueue.hpp:47-62 | over every run, beside a sleeper each queued item has an awake consumer; with the lock free it is one that was woken |
| ConcurrentQueue.ShutdownWakesEveryone | base/ConcurrentQueue.hpp:64-72 | after the notification nobody sleeps, sleeps again or takes an item, although the flag is set outside the lock |
| ConcurrentQueue.ShutdownTerminatesPop | base/ConcurrentQueue.hpp:53-58 | in every reachable state after the notification, every step of a consumer inside pop brings it closer to throwing, and pop ends only by throwing |
| ConcurrentQueue.PopIsSafe | base/ConcurrentQueue.hpp:53-62 | in every reachable state `front` is never called on an empty queue, and whoever holds the mutex has an enabled step |
| ConcurrentQueue.SpuriousWakeupIsHarmless | base/ConcurrentQueue.hpp:55 | a spurious wakeup can hit any sleeper, sends it back to the test, and changes nothing else |
| ConcurrentQueue.Fifo | base/ConcurrentQueue.hpp:47-61 | over every run, taken followed by queued items are the pushed items |
| ConcurrentQueue.FlagAloneDoesNotWake | base/ConcurrentQueue.hpp:64-72 | a run in which the flag is set, the notification pending and a consumer asleep |
| ConcurrentQueue.FlagSufficesExactly | base/ConcurrentQueue.hpp:53-69 | once the flag is set nobody sleeps now or later if and only if no consumer is asleep or has decided to sleep |
| RpcInvariant.ReplyIsAwaited | commander/Commander.cpp:28-37 | a reply in the reader's hands belongs to a pending, unresolved promise under its id |
| RpcInvariant.ClientStep | commander/Commander.cpp:63-94 | every step of a caller, disconnect included, keeps the invariant as long as it does not overwrite a promise |
| RpcInvariant.ReaderStep | commander/Commander.cpp:25-46 | every step of the reader, failure drain included, keeps the invariant |
| RpcInvariant.WorkerStep | worker/Worker.cpp:21-53 | every step of the Worker's reader and of close keeps the invariant |
| RpcInvariant.HandlerStep | worker/Worker.cpp:55-77 | every step of a handler keeps the invariant (what it does to the flag is RpcStop.StopExactly) |
| RpcInvariant.StepKeepsInv | commander/Commander.cpp:25-94 | every step of the whole system that does not overwrite a promise keeps the invariant |
| RpcInvariant.RunKeepsInv | commander/Commander.cpp:25-94 | and so does every run |
| RpcInvariant.FreshRunsDoNotOverwrite | commander/Commander.cpp:71 | where no call stays pending for 2^32 allocations no run overwrites a promise |
| RpcTheorems.Correlation | commander/Commander.cpp:25-37 | in every reachable state a caller's reply is the one the handlers made from its own request, in the only run of it |
| RpcTheorems.ExactlyOnePlace | worker/Worker.cpp:32-60 | every registered command is in exactly one place, executed at most once, its promise satisfied at most once |
| RpcTheorems.NothingIsLost | worker/Worker.cpp:55-77 | over every run replies are lost only where a handler's write throws |
| RpcTheorems.LookupNeverThrows | commander/Commander.cpp:31 | the map lookup finds the caller the reply was made for |
| RpcTheorems.MapIsGuarded | commander/Commander.cpp:30-71 | while a caller holds the lock nobody else changes the promise map or takes the lock |
| RpcTheorems.AnythingCanHappen | commander/Commander.cpp:27-93 | what the model lets go wrong at any time: failing reads and writes, new calls, close, shutdown, spurious wakeups |
| RpcTheorems.IdsInUseAreDistinct | commander/Commander.cpp:71 | under wrap-around no two calls between drawing their id and the resolution of their promise share it, and assignment never overwrites a promise |
| RpcTheorems.OverwriteExactly | commander/Commander.cpp:71 | up to the first overwrite: registering destroys a live promise if and only if a pending call lies a multiple of 2^32 allocations away |
| RpcTheorems.OverwriteAhead | commander/Commander.cpp:71 | from every state in which a call can register, a run to a state in which registering breaks its promise |
| RpcTheorems.OverwriteCanHappen | commander/Commander.cpp:71 | the same from the start: call 2^32 breaks the promise of call 0 |
| RpcTheorems.RpcIsLinearizable | commander/Commander.cpp:63-76 | the order of handler runs is a legal sequential history with each returned call's effect inside that call, respecting real-time order |
| RpcStranding.NoStrandedCaller | commander/Commander.cpp:38-45 | once the reader left without a disconnect, every promise ever registered is resolved and no later one is registered, however long the run goes on |
| RpcStranding.DrainedForGood | commander/Commander.cpp:38-45 | the same from any drained state onwards |
| RpcStranding.FailureIsCaught | commander/Commander.cpp:38-44 | over every run, a failed read of the reader is never forgotten: its catch block is running or has run |
| RpcStranding.CatchBlockGetsThrough | commander/Commander.cpp:38-44 | the catch block gets through: clearing waits for nobody, draining only for a caller who can let go of the lock at once |
| RpcStranding.DisconnectStrandsTheWaiting | commander/Commander.cpp:78-94 | clearing the flag while the reader stands at its test: if it tests next, exactly the callers then waiting are stranded; over all continuations exactly the threatened calls can be |
| RpcStranding.StrandsExactly | commander/Commander.cpp:25-46 | with the flag down and the reader at its test, some continuation blocks a call for ever if and only if its promise is pending and its write has not failed, or it holds the lock to register, and the map was not drained |
| RpcStranding.LeavesCleanlyExactly | commander/Commander.cpp:25-46 | a reader about to leave strands nobody, then or later, if and only if its catch block has drained the map, or nobody holds the lock to register and only failed writes are pending |
| RpcStranding.StrandedForever | commander/Commander.cpp:73-75 | a caller blocked in `future.get` after the reader has gone stays blocked in every later state |
| RpcStranding.DisconnectCanStrand | commander/Commander.cpp:78-94 | a run in which disconnect leaves another caller blocked |
| RpcProgress.QueuedRequestMoves | worker/Worker.cpp:55-60 | with handlers that answer every accepted request after every history they allow, a queued request is never left alone with sleeping handlers |
| RpcProgress.WaiterSeesWork | worker/Worker.cpp:32-60 | no deadlock: a waiting caller always sees an enabled step of the system |
| RpcProgress.WorkGoesDown | worker/Worker.cpp:32-60 | every step the healthy system takes on its own decreases a measure |
| RpcProgress.WorkStaysHealthy | worker/Worker.cpp:32-60 | such steps neither take an end down, lose a reply nor make a call throw |
| RpcProgress.EveryCallReturns | commander/Commander.cpp:63-76 | from every healthy reachable state the system takes at most a bounded number of its own steps, in any order, and stops only when every call has returned its own reply; for any object that answers the requests invoked |
| RpcStop.StopExactly | worker/Worker.cpp:21-83 | over every run, the Worker is told to stop if and only if a read or write of it failed, a handler met the shut-down queue, close was called, or a handler has run a disconnect |
| RpcStop.StopIsForGood | worker/Worker.cpp:21-83 | the flag is never taken back |
| RpcStop.ConnectedExactly | commander/Commander.cpp:38-93 | over every run, the Commander is connected until its reader first fails or a disconnect ends, and never again |
| RpcStop.LoopTest | worker/Worker.cpp:32-56 | at its loop test a thread of the Worker leaves exactly when the flag is up |
| RpcRest.StepStopsSoon | worker/Worker.cpp:32-77 | once closed, each step of the Worker's threads brings it closer to rest and no other step takes it away |
| RpcRest.WorkerComesToRest | worker/Worker.cpp:21-26 | once the flag is up and the queue has notified, the Worker's threads take a bounded number of steps, whatever else happens, and then have all left their loops |
| RpcOverWire.StepRefines | common/MessageTransport.cpp:21-61 | every step of the system over byte streams is a step of the system over messages, or only moves bytes; what a read assembles is what the abstract channel delivers |
| RpcOverWire.RunRefines | common/MessageTransport.cpp:21-61 | and so is every run |
| RpcOverWire.LinearizableOverBytes | commander/Commander.cpp:25-76 | over byte streams, chunked reads and concurrent writers too, calls are linearizable and every caller's reply is the one made from its own request |
| RpcOverWire.RequestOnItsWayMoves | worker/Worker.cpp:32-36 | while the Worker is inside read and a request is on its way, bytes can move or read goes on or returns |
| ThreadPoolModel.StepKeepsInv | base/ThreadPool.cpp:15-26 | every step of a pool thread keeps the queue's invariant and the place of every task |
| ThreadPoolModel.TasksAreConserved | base/ThreadPool.cpp:15-26 | over every run each task, as often as it was submitted, is queued, running in a thread or finished, and tasks start in order of submission |
| ThreadPoolModel.QueuedTaskMoves | base/ThreadPool.cpp:19-26 | a queued task moves as long as some thread is not busy |
| ThreadPoolModel.EveryHandlerStarts | worker/Worker.cpp:10-12 | with no more tasks than threads, every task starts although none ever ends, whatever order the pool's steps take |
| Descriptors.StepKeepsInv | worker/FileCommandsHandler.cpp:194-228 | every step of a disciplined client keeps the correspondence of ids, descriptors and files |
| Descriptors.ReachesItsOwnFile | worker/FileCommandsHandler.cpp:25-32 | in every disciplined run an operation reaches the file opened for its id, in the window between close and erase too |
| Descriptors.DisciplineIsExact | worker/FileCommandsHandler.cpp:214-222 | a call on an id its client was given can lead some thread to reach or close another's file if and only if the id has its entry and the call overlaps a close of it, or closes under a use; ids without an entry harm nobody |
| Descriptors.RefinesAtomicTable | worker/FileCommandsHandler.cpp:194-228 | in every interleaving each operation takes effect at one of its own steps, as on a table whose open, close and use are single steps |
| Descriptors.OperationsEnd | worker/FileCommandsHandler.cpp:194-292 | inside an operation a thread always has a step, each brings it closer to the end, and no other thread can help or hinder it |
| Descriptors.OneRoleEach | worker/FileCommandsHandler.cpp:194-228 | live ids map injectively to open descriptors, disjoint from those held by opens under way |
| Descriptors.Accounting | worker/FileCommandsHandler.cpp:200-222 | opens = closes + live entries + opens under way, and the open descriptors are exactly those |
| Descriptors.DestructorClosesEverything | worker/FileCommandsHandler.cpp:16-23 | at rest the table lists every open descriptor exactly once |
| Descriptors.OverlappingClosesBreakOthers | worker/FileCommandsHandler.cpp:214-222 | a run of two overlapping closes that closes another open's descriptor |
| Files.Slice | worker/FileCommandsHandler.cpp:248-259 | which bytes a read returns, for every size and offset |
| Files.Splice | worker/FileCommandsHandler.cpp:280-286 | what a write leaves in the file, gaps included |
| Files.OpenRenames | worker/FileCommandsHandler.cpp:194-206 | opening under a fresh id and a fresh descriptor keeps the renaming between ids and descriptors |
| Files.CloseRenames | worker/FileCommandsHandler.cpp:214-222 | closing on both sides keeps it, with the same result |
| RemoteFiles.RequestRoundTrip | commander/Commander.cpp:242-340 | the handler decodes exactly the operation the client encoded |
| RemoteFiles.FirstUnused | worker/FileCommandsHandler.cpp:200 | the system returns some unused descriptor, any of them |
| RemoteFiles.ReplyRoundTrip | worker/FileCommandsHandler.cpp:208-292 | the client reads back the fields and bytes the handler wrote |
| RemoteFiles.HandleAgrees | worker/FileCommandsHandler.cpp:194-292 | one handler run agrees with the local call and keeps the simulation |
| RemoteFiles.GetFdFindsTheFile | worker/FileCommandsHandler.cpp:25-32 | the descriptor found is open exactly for ids that stand for an open file, refers to that file, and differs between ids |
| RemoteFiles.RemoteCallAgrees | commander/Commander.cpp:242-340 | one call from encoding to memcpy agrees with the local call |
| RemoteFiles.RunAgrees | worker/FileCommandsHandler.cpp:194-292 | so does every run from simulating states |
| RemoteFiles.RemoteRefinesLocal | commander/Commander.cpp:242-340 | every run from the start answers like the local model, whatever descriptors are recycled |
| RemoteFiles.PreadDeliversTheSlice | commander/Commander.cpp:291-311 | pread fails exactly on a negative offset or an id not open for reading; otherwise `value` is exactly what the file holds at the offset up to the size asked for, those bytes are in the buffer, and the rest of it is untouched |
| FileLaws.OpenFails | worker/FileCommandsHandler.cpp:200 | opening a missing path without O_CREAT fails with ENOENT and changes nothing |
| FileLaws.OpenKeepsFiles | worker/FileCommandsHandler.cpp:200 | opening an existing path without O_TRUNC leaves every file as it was |
| FileLaws.OpenEmpties | worker/FileCommandsHandler.cpp:200 | O_TRUNC on an existing path, O_CREAT on a missing one: exactly that path is empty afterwards |
| FileLaws.OpenGivesAHandle | worker/FileCommandsHandler.cpp:200-206 | a successful open gives the next id, at position 0, readable and writable exactly as the access mode says, and changes no other id |
| FileLaws.AccessModes | worker/FileCommandsHandler.cpp:200 | O_RDONLY only reads, O_WRONLY only writes, O_RDWR does both |
| FileLaws.FailsExactly | worker/FileCommandsHandler.cpp:214-292 | exactly when each call fails, and with which errno |
| FileLaws.FailuresChangeNothing | worker/FileCommandsHandler.cpp:194-292 | a failed call changes nothing |
| FileLaws.CloseForgets | worker/FileCommandsHandler.cpp:218-222 | closing an open id succeeds and forgets exactly that id, which is good for nothing afterwards |
| FileLaws.PreadExactly | worker/FileCommandsHandler.cpp:254 | pread gives all the bytes there are up to the size asked for, none at or past the end, and moves nothing |
| FileLaws.PwriteExactly | worker/FileCommandsHandler.cpp:286 | after a pwrite its bytes stand where it was told to put them, the rest of the file is as it was with zeros in a gap, and nothing else has changed |
| FileLaws.WrittenIsRead | worker/FileCommandsHandler.cpp:248-292 | what pwrite wrote pread reads back, through any id on the same file |
| FileLaws.OthersUntouched | worker/FileCommandsHandler.cpp:214-292 | a call on one id touches no other id and no other file |
| FileLaws.ReadsContinue | worker/FileCommandsHandler.cpp:236 | however a file is cut into reads, they give what lies between the first position and the last, each going on where the one before ended |
| FileLaws.ReadsToTheEnd | worker/FileCommandsHandler.cpp:200-236 | from open on, reads that ask for enough give the whole file |
| FileLaws.WritesContinue | worker/FileCommandsHandler.cpp:272 | consecutive writes of any sizes land one behind the other and change nothing else |
| FileLaws.FileRoundTrip | worker/FileCommandsHandler.cpp:194-278 | create or empty a file, write it in any pieces, open it again, read it in any pieces: the same bytes |
| FileLaws.RemoteReadsBack | commander/Commander.cpp:291-340 | through the whole remote path: pread returns what pwrite wrote and leaves the rest of the buffer alone |
| FileLaws.RemoteCloseAnswers | commander/Commander.cpp:257-268 | a remote close answers 1 exactly on open ids, and EBADF with 0 on others |
| FileLaws.FixedReplies | worker/Worker.cpp:79-131 | a disconnect is acknowledged with an empty result, an unknown type answered as unknown; neither touches files or table |
| FileLaws.OnlyResultsReturn | commander/Commander.cpp:48-61 | a reply that is not a result reaches the caller as an exception |
| FileLaws.IdAtWraps | worker/FileCommandsHandler.cpp:203 | ids are the count modulo 2^32 as a signed number |
| FileLaws.WireNumbers | common/MessageTransport.hpp:10-36 | the command types on the wire |
| ConcurrentFiles.FirstIsRight | worker/Worker.cpp:85-142 | one served file operation gives the local answer into every buffer |
| ConcurrentFiles.ExplainedIsRight | worker/Worker.cpp:85-142 | every file operation of a sequential run gets the answer of the local model after the requests before it, other commands included |
| ConcurrentFiles.LegalIsPossible | worker/Worker.cpp:55-60 | a history allowed step by step is one possible sequential run of the Worker |
| FileService.ConcurrentAgreesWithLocal | commander/Commander.cpp:63-76 | end to end: one account of what other commands did to the files under which every concurrent caller's answer is that of the local model at its place in the order of handler runs, inside its own call |
| ConcurrentFiles.FileSpecResponds | worker/Worker.cpp:85-142 | after every history the Worker allows it has an answer to every request |
| CallFates.FateIsFinal | commander/Commander.cpp:63-76 | these fates in the whole system, for ever: a call refused or whose write threw never runs, one with a reply has run exactly once with it, a drained one runs at most once and gets none |
| FileService.StartsHealthy | worker/Worker.cpp:7-13 | the start is such a state, with any number of handlers |
| FileService.EveryFileCallReturnsRight | commander/Commander.cpp:63-76 | the whole service: from every healthy reachable state it stops within a bounded number of its own steps, and then every call has returned its own reply, the file operations the local model's |
| FileService.DisconnectIsAcknowledged | worker/Worker.cpp:79-83 | in every run of the service, a disconnect that was run has raised the flag and was acknowledged with an empty result |
| FileService.FileWorkerComesToRest | worker/Worker.cpp:21-26 | closing the file Worker comes to an end |
| FileCommandsHandlerModel.FileCommandsHandler.constructor | worker/FileCommandsHandler.cpp:14 | starts with an empty table and counter 0 |
| FileCommandsHandlerModel.FileCommandsHandler.Destroy | worker/FileCommandsHandler.cpp:16-23 | closes every descriptor in the table and no other; all of them when the table lists all |
| FileCommandsHandlerModel.FileCommandsHandler.Open | worker/FileCommandsHandler.cpp:194-212 | reply and new state are those of the decoded operation; a payload that does not decode changes nothing |
| FileCommandsHandlerModel.FileCommandsHandler.Close | worker/FileCommandsHandler.cpp:214-228 | the same for close |
| FileCommandsHandlerModel.FileCommandsHandler.Read | worker/FileCommandsHandler.cpp:230-246 | the same for read |
| FileCommandsHandlerModel.FileCommandsHandler.Pread | worker/FileCommandsHandler.cpp:248-265 | the same for pread |
| FileCommandsHandlerModel.FileCommandsHandler.Write | worker/FileCommandsHandler.cpp:267-278 | the same for write |
| FileCommandsHandlerModel.FileCommandsHandler.Pwrite | worker/FileCommandsHandler.cpp:280-292 | the same for pwrite |
| FileCommandsHandlerModel.FileCommandsHandler.DoCommand | worker/Worker.cpp:85-142 | dispatch of every type: file operations change the state and answer as decoded, an exception becomes an error reply, disconnect and unknown types have their fixed replies, other commands leave the table alone |
| FileCommandsHandlerModel.OpenArguments | worker/FileCommandsHandler.cpp:195-198 | the three reads recover exactly the operation a payload encodes, or fail with it |
| FileCommandsHandlerModel.PreadArguments | worker/FileCommandsHandler.cpp:249-252 | the same for pread |
| FileCommandsHandlerModel.PwriteArguments | worker/FileCommandsHandler.cpp:281-284 | the same for pwrite |
| FileCommandsHandlerModel.ReplyOfRead | worker/FileCommandsHandler.cpp:257-264 | the reply holds value, errno and the bytes read; after a failure the whole buffer |
| CommanderModel.SendCommand | commander/Commander.cpp:63-76 | a command that never ran leaves the Worker alone and throws; one whose reply was lost has run and throws; otherwise the reply is the Worker's |
| CommanderModel.Open | commander/Commander.cpp:242-255 | the call's result and the Worker's new state are those of the remote call, for each of the three fates of a command |
| CommanderModel.Close | commander/Commander.cpp:257-268 | the same for close |
| CommanderModel.Read | commander/Commander.cpp:270-289 | the same for read, with the caller's buffer, which an exception leaves untouched |
| CommanderModel.Pread | commander/Commander.cpp:291-311 | the same for pread |
| CommanderModel.Write | commander/Commander.cpp:313-325 | the same for write |
| CommanderModel.Pwrite | commander/Commander.cpp:327-340 | the same for pwrite |
| CommanderModel.DecodeRead | commander/Commander.cpp:279-288 | on any reply: value and errno with the first bytes of the buffer replaced, an exception, or an undefined copy exactly when the value exceeds the bytes received; the buffer is untouched unless the call returns |
| CommanderModel.DecodePlain | commander/Commander.cpp:250-254 | on any reply: value and errno, or an exception |
| CommanderModel.DecodeFlag | commander/Commander.cpp:263-267 | the same for the one-byte result of close |
| Listing.ReadEntryBack | commander/Commander.cpp:379-381 | an entry reads back with its inode modulo 2^32 |
| Listing.ListingRoundTrip | commander/Commander.cpp:377-384 | the parsing loop recovers every listing and the errno behind it, the empty listing included |
| DirCommandsHandlerModel.DirCommandsHandler.constructor | worker/DirCommandsHandler.cpp:18 | starts with both tables empty |
| DirCommandsHandlerModel.DirCommandsHandler.Opendir | worker/DirCommandsHandler.cpp:38-63 | decodes the path, issues a fresh id in exactly one of the two tables or reports the errno and changes nothing, and encodes both; ids stay disjoint and below the counter |
| DirCommandsHandlerModel.DirCommandsHandler.Closedir | worker/DirCommandsHandler.cpp:65-88 | decodes the id, removes it from its table and closes its stream, and encodes the outcome; fails exactly on unknown ids |
| DirCommandsHandlerModel.DirCommandsHandler.Readdir | worker/DirCommandsHandler.cpp:90-126 | the reply is the next batch and its errno, requests for no entries included, and the stream has moved past exactly that batch |
| DirCommandsHandlerModel.DirCommandsHandler.AppendBatch | worker/DirCommandsHandler.cpp:108-124 | the loop appends exactly the next batch |
| DirCommandsHandlerModel.DirCommandsHandler.Destroy | worker/DirCommandsHandler.cpp:20-27 | every opened stream has been closed, each once |
| DirCommandsHandlerModel.AppendEntry | worker/DirCommandsHandler.cpp:120-122 | appends one entry's bytes |
| ReaddirLoop.ParseListing | commander/Commander.cpp:375-384 | the loop computes the reference parse on every payload and terminates |
| ReaddirLoop.Readdir | commander/Commander.cpp:368-385 | one call returns the next batch and its errno and advances the stream past it |
| ReaddirLoop.FillBatch | zcfs/main.cpp:354-361 | of each batch the filler gets exactly the entries in front of the first refusal |
| ReaddirLoop.TakenBatch | zcfs/main.cpp:354-361 | which of a batch's entries are taken, and that they extend what was taken before |
| ReaddirLoop.TakenAll | zcfs/main.cpp:347-363 | what was taken is the listing if and only if no place in it was refused |
| ReaddirLoop.TakenInOrder | zcfs/main.cpp:347-363 | nothing is delivered twice or out of order: what was taken stands at increasing places, namely those not cut off in their batch |
| ReaddirLoop.BlocksBelow | zcfs/main.cpp:362-363 | what was read in whole batches is the whole blocks of the listing |
| ReaddirLoop.ReadAllBatches | zcfs/main.cpp:347-363 | for every batch size the loop ends, and leaves the filler with exactly the taken part of every batch that no error ended; without an error that is the listing, once and in order, if and only if the filler never refused |
| ReaddirLoop.ZcfsReaddir | zcfs/main.cpp:335-366 | the same for the batch size in use |

## Left out

- BinaryDeserializerModel.BinaryDeserializer.constructor: takes buffers below 2^32 bytes only, as every caller's are; beyond that `bytes_available` would wrap.
- BinarySerializerModel.BinarySerializer.SerializeBytes: covers the null pointer check of the `const char *` overload only by having no null value.
- CommanderModel.Open: what becomes of the command between the two ends is a parameter with three values, of which `CallFates.FateIsFinal` says when they apply; a drained command that is still queued may run after its caller has thrown.
- CommanderModel.Close: the same as for `CommanderModel.Open`.
- CommanderModel.Read: the same as for `CommanderModel.Open`.
- CommanderModel.Pread: the same as for `CommanderModel.Open`.
- CommanderModel.Write: the same as for `CommanderModel.Open`.
- CommanderModel.Pwrite: the same as for `CommanderModel.Open`.
- DirCommandsHandlerModel.DirCommandsHandler.Opendir: fewer than 2^31 directory ids are issued.
- DirCommandsHandlerModel.DirCommandsHandler.Readdir: a reply of 2^32 bytes or more is excluded, as for every payload.
- ReaddirLoop.ReadAllBatches: an overridden listing, which starts over on every call, must be shorter than a batch, as the built-in ones are; another reader of the same stream is excluded.
- Descriptors.ReachesItsOwnFile: needs the discipline that `DisciplineIsExact` shows to be needed; ids a client was never given are excluded.
- Descriptors.RefinesAtomicTable: is about descriptors, not file contents. `RemoteFiles.Handle` draws the id of an open at its system call, where the code draws it a little later, so concurrent opens may get their ids in another order than there; this is why handler runs are single steps in `ConcurrentFiles` and `FileService`.
- RpcProgress.EveryCallReturns: counts steps of the system itself; arrivals, failures, shutdown and spurious wakeups are not among them.
- FileService.ConcurrentAgreesWithLocal: rename, truncate, unlink, chmod, chown, utimens, mkdir and rmdir may do anything to the contents of files, but leave open descriptors pointing where they did; a handler run is one step; fewer than 2^31 commands have run.
- FileService.EveryFileCallReturnsRight: the same.
- FileCommandsHandlerModel.FileCommandsHandler.DoCommand: what commands other than the six file operations do to the files, and their replies, are parameters.
- ConcurrentQueue.StepKeepsInv: the flag check of the copying `push` is not modelled, an item may be pushed at any time as with the moving one that the Worker uses.
- RemoteFiles.RemoteRefinesLocal: the file system is a map from paths to contents under the access mode, O_CREAT and O_TRUNC (which empties a file whatever the access mode, as on Linux); permissions, O_EXCL, O_APPEND, directories, full disks and removal of open files are not in it.
- ThreadPoolModel.EveryHandlerStarts: the pool size is a parameter of at least the number of tasks; the narrowing of the hardware concurrency to 16 bits is not modelled. `Rpc` takes the number of started handlers as a parameter.
- RpcOverWire.StepRefines: a write either hands over its whole frame or throws before any byte; cancellation and broken streams are failures of `Rpc`, their effect on a single reader is in `MessageTransport.dfy`; payloads are below 2^32 bytes.
- MessageTransportModel.MessageTransport.Poll: a failing `::poll` is not modelled.
- Real sockets, poll, pipes, address resolution and their error categories; the Logger; signal handling.
- FUSE callbacks other than the readdir loop; `stat` and `name` conversions for the filler.
- The commands that are one system call: their payloads are instances of the codec theorems.
- getattr, statvfs and utimens, whose fields are narrowed or dropped by design.
- The Server's client registry.
- Concurrent directory handlers, in particular the lookups in `_overridden_fds` outside the lock.
- Memory ordering weaker than sequential consistency, move semantics, destructor exception macros.
