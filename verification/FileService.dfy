/**
 The whole service, end to end: callers, connection, Worker and files.
 */
module FileService {
  import opened Codec
  import opened Commands
  import opened Rpc
  import opened RpcInvariant
  import opened RpcTheorems
  import opened RpcProgress
  import opened RpcStop
  import opened RpcRest
  import opened ConcurrentFiles
  import F = RemoteFiles

  /** Any concurrent run: every file operation that returned a reply returned the local model's. */
  lemma ConcurrentAgreesWithLocal(files: map<blob, seq<byte>>, handlers: nat, acts: seq<Action>, s: State)
    requires SafeRun(FileSpec(Start(files)), handlers, acts, s) && |s.log| <= 0x8000_0000
    ensures exists envs :: AllRight(files, s, envs)
  {
    Reached(FileSpec(Start(files)), handlers, acts, s);
    var envs := InvIsRight(files, s);
  }

  /** The service starts in a state of which the next theorem speaks. */
  lemma StartsHealthy(w: F.Worker, handlers: nat)
    ensures FreshRun(FileSpec(w), handlers, [], Init(handlers)) && Healthy(Init(handlers))
  {
  }

  /** The file service as a whole. From every reachable state in which both ends are up, the system
      takes a bounded number of its own steps, in any order, and stops only when every call, unless
      it had thrown before, has returned its own reply, and the file operations among them the local
      model's answers. */
  lemma EveryFileCallReturnsRight(files: map<blob, seq<byte>>, handlers: nat, acts: seq<Action>, s: State,
                                  work: seq<Action>, s': State)
    requires FreshRun(FileSpec(Start(files)), handlers, acts, s) && Healthy(s) && handlers > 0
    requires |s.calls| <= 0x8000_0000
    requires AllWork(work) && Run(FileSpec(Start(files)), s, work) == Some(s')
    ensures |work| <= Measure(s)
    ensures exists envs :: AllRight(files, s', envs)
    ensures !CanWork(FileSpec(Start(files)), s') ==>
              forall n :: 0 <= n < |s.calls| && !Threw(s.calls[n]) ==> Answered(s', n) && ReturnedReply(s', n)
  {
    var spec := FileSpec(Start(files));
    FileSpecResponds(Start(files));
    EveryCallReturns(spec, AnyRequest, handlers, acts, s, work, s');
    LogFitsCalls(spec, s');
    var envs := InvIsRight(files, s');
  }

  // ---------- disconnect and close ----------

  lemma {:induction false} ExplainedDisconnect(w: F.Worker, trace: seq<(Request, Reply)>, envs: seq<F.Env>, i: nat)
    requires Explains(w, trace, envs) && i < |trace| && trace[i].0.typ == DISCONNECT
    ensures trace[i].1 == Reply(COMMAND_RESULT, [])
    decreases |trace|
  {
    if i > 0 {
      assert trace[1..][i - 1] == trace[i];
      ExplainedDisconnect(F.Serve(w, trace[0].0, envs[0]).0, trace[1..], envs[1..], i - 1);
    }
  }

  /** In every run of the service a disconnect that was run has told the Worker to stop, and was
      acknowledged with an empty result. */
  lemma DisconnectIsAcknowledged(files: map<blob, seq<byte>>, handlers: nat, acts: seq<Action>, s: State, i: nat)
    requires SafeRun(FileSpec(Start(files)), handlers, acts, s) && i < |s.log| && s.log[i].req.typ == DISCONNECT
    ensures s.stop && s.log[i].reply == Reply(COMMAND_RESULT, [])
  {
    var spec := FileSpec(Start(files));
    Reached(spec, handlers, acts, s);
    StopExactly(spec, handlers, acts, s);
    TracePrefix(s.log, i);
    LogIsLegal(spec, s);
    LegalIsPossible(Start(files), Trace(s.log));
    var envs :| Explains(Start(files), Trace(s.log), envs);
    ExplainedDisconnect(Start(files), Trace(s.log), envs, i);
  }

  /** close() of the file Worker comes to an end (see RpcRest.WorkerComesToRest). */
  lemma FileWorkerComesToRest(files: map<blob, seq<byte>>, handlers: nat, acts: seq<Action>, s: State,
                              later: seq<Action>, s': State)
    requires SafeRun(FileSpec(Start(files)), handlers, acts, s) && s.stop && s.queue.broadcast
    requires NoOverwrite(FileSpec(Start(files)), s, later) && Run(FileSpec(Start(files)), s, later) == Some(s')
    ensures WorkerSteps(later) <= StopMeasure(s)
    ensures !WorkerCanStep(FileSpec(Start(files)), s') ==> AtRest(s')
  {
    FileSpecResponds(Start(files));
    WorkerComesToRest(FileSpec(Start(files)), AnyRequest, handlers, acts, s, later, s');
  }
}
