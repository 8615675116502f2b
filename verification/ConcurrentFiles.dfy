/**
 The two halves together: the RPC system running the file commands. Any number of threads calling
 concurrently, handlers answering out of order, descriptors being recycled: every answer a caller
 decodes is the one a local file system gives in the order of the handler runs, and that order
 respects the callers' program order (see RpcTheorems.Linearizable).
 */
module ConcurrentFiles {
  import opened Codec
  import opened Commands
  import opened Files
  import F = RemoteFiles
  import opened Rpc
  import opened RpcInvariant
  import opened RpcTheorems
  import opened RpcProgress

  // ---------- The handlers as a sequential object ----------

  /** `envs` are environment choices under which the Worker, started in `w`, gives these replies. */
  ghost predicate Explains(w: F.Worker, trace: seq<(Request, Reply)>, envs: seq<F.Env>)
    decreases |trace|
  {
    && |trace| == |envs|
    && (trace != [] ==>
          && F.Serve(w, trace[0].0, envs[0]).1 == trace[0].1
          && Explains(F.Serve(w, trace[0].0, envs[0]).0, trace[1..], envs[1..]))
  }

  ghost predicate Possible(w: F.Worker, trace: seq<(Request, Reply)>) {
    exists envs :: Explains(w, trace, envs)
  }

  /** The handlers' sequential behaviour. */
  ghost function FileSpec(w: F.Worker): Spec {
    (trace: seq<(Request, Reply)>, req: Request, reply: Reply) => Possible(w, trace + [(req, reply)])
  }

  predicate AnyRequest(req: Request) {
    true
  }

  lemma {:induction false} ExplainsOneMore(w: F.Worker, trace: seq<(Request, Reply)>, envs: seq<F.Env>, req: Request, env: F.Env)
    returns (reply: Reply)
    requires Explains(w, trace, envs)
    ensures Explains(w, trace + [(req, reply)], envs + [env])
    decreases |trace|
  {
    if trace == [] {
      reply := F.Serve(w, req, env).1;
      assert trace + [(req, reply)] == [(req, reply)] && envs + [env] == [env];
      assert [(req, reply)][1..] == [] && [env][1..] == [];
    } else {
      reply := ExplainsOneMore(F.Serve(w, trace[0].0, envs[0]).0, trace[1..], envs[1..], req, env);
      assert (trace + [(req, reply)])[1..] == trace[1..] + [(req, reply)];
      assert (envs + [env])[1..] == envs[1..] + [env];
    }
  }

  lemma LegalIsPossible(w: F.Worker, trace: seq<(Request, Reply)>)
    requires Legal(FileSpec(w), trace)
    ensures Possible(w, trace)
  {
    if trace == [] {
      assert Explains(w, trace, []);
    } else {
      var last := |trace| - 1;
      assert FileSpec(w)(trace[..last], trace[last].0, trace[last].1);
      assert trace[..last] + [(trace[last].0, trace[last].1)] == trace;
    }
  }

  /** The file Worker always has an answer: its specification meets what progress asks for. */
  lemma FileSpecResponds(w: F.Worker)
    ensures Responsive(FileSpec(w), AnyRequest)
  {
    forall trace, req | Legal(FileSpec(w), trace) && AnyRequest(req) ensures Answers(FileSpec(w), trace, req) {
      LegalIsPossible(w, trace);
      var envs :| Explains(w, trace, envs);
      var reply := ExplainsOneMore(w, trace, envs, req, F.Env(0, 0, [], Reply(COMMAND_RESULT, []), map[]));
      assert Possible(w, trace + [(req, reply)]);
      assert FileSpec(w)(trace, req, reply);
    }
  }

  // ---------- What it answers ----------

  function Start(files: map<blob, seq<byte>>): F.Worker {
    F.Worker(Tab(files, map[]), map[], 0)
  }

  function LocalStart(files: map<blob, seq<byte>>): F.Local {
    F.Local(Tab(files, map[]), 0)
  }

  /** Reply `reply` to `op` is what the local call gives, whatever buffer it is decoded into. */
  ghost predicate Right(op: F.Op, reply: Reply, r: Sys) {
    forall buffer :: F.ReadSize(op) <= |buffer| ==> F.Agrees(op, F.DecodeReply(op, reply, buffer), r, buffer)
  }

  function ReqsOf(trace: seq<(Request, Reply)>): (r: seq<Request>)
    ensures |r| == |trace|
  {
    seq(|trace|, i requires 0 <= i < |trace| => trace[i].0)
  }

  lemma FirstIsRight(w: F.Worker, l: F.Local, req: Request, env: F.Env, op: F.Op)
    requires F.Sim(w, l) && w.nextId < 0x8000_0000 && F.OpOf(req) == Some(op)
    ensures var (w', reply) := F.Serve(w, req, env);
            F.Sim(w', F.LocalCall(l, op).0) && w'.nextId <= w.nextId + 1 && Right(op, reply, F.LocalCall(l, op).1)
  {
    F.HandleCounts(w, op, env);
    F.HandleAgrees(w, l, op, seq(F.ReadSize(op), _ => 0), env);
    forall buffer | F.ReadSize(op) <= |buffer|
      ensures F.Agrees(op, F.DecodeReply(op, F.Serve(w, req, env).1, buffer), F.LocalCall(l, op).1, buffer)
    {
      F.HandleAgrees(w, l, op, buffer, env);
    }
  }

  lemma FirstSim(w: F.Worker, l: F.Local, req: Request, env: F.Env)
    requires F.Sim(w, l) && w.nextId < 0x8000_0000
    ensures var w', l' := F.Serve(w, req, env).0, F.LocalStep(l, req, env);
            F.Sim(w', l') && w'.nextId <= w.nextId + 1
  {
    if F.OpOf(req).Some? {
      FirstIsRight(w, l, req, env, F.OpOf(req).value);
    }
  }

  lemma ReqsBefore(l: F.Local, trace: seq<(Request, Reply)>, envs: seq<F.Env>, i: nat)
    requires 0 < i < |trace| == |envs|
    ensures trace[1..][i - 1] == trace[i]
    ensures F.LocalAfter(l, ReqsOf(trace[..i]), envs[..i])
            == F.LocalAfter(F.LocalStep(l, trace[0].0, envs[0]), ReqsOf(trace[1..][..i - 1]), envs[1..][..i - 1])
  {
    assert ReqsOf(trace[..i])[1..] == ReqsOf(trace[1..][..i - 1]);
    assert envs[..i][1..] == envs[1..][..i - 1];
  }

  /** Every reply of a sequential run is that of the local model after the requests before it. */
  lemma {:induction false} ExplainedIsRight(w: F.Worker, l: F.Local, trace: seq<(Request, Reply)>, envs: seq<F.Env>,
                                            i: nat, op: F.Op)
    requires F.Sim(w, l) && Explains(w, trace, envs) && i < |trace| && F.OpOf(trace[i].0) == Some(op)
    requires w.nextId + |trace| <= 0x8000_0000
    ensures Right(op, trace[i].1, F.LocalCall(F.LocalAfter(l, ReqsOf(trace[..i]), envs[..i]), op).1)
    decreases |trace|
  {
    var req, rest := trace[0].0, trace[1..];
    if i == 0 {
      assert ReqsOf(trace[..i]) == [] && envs[..i] == [];
      FirstIsRight(w, l, req, envs[0], op);
    } else {
      FirstSim(w, l, req, envs[0]);
      ReqsBefore(l, trace, envs, i);
      ExplainedIsRight(F.Serve(w, req, envs[0]).0, F.LocalStep(l, req, envs[0]), rest, envs[1..], i - 1, op);
    }
  }

  // ---------- End to end ----------

  /** With `envs` for what the commands outside the data path did to the files, call `n` took effect
      at entry `i` of the log, inside the call, and its reply is that of the local model after the
      requests logged before. */
  ghost predicate RightAt(files: map<blob, seq<byte>>, s: State, envs: seq<F.Env>, n: nat, op: F.Op, i: nat) {
    && i < |s.log| == |envs| && PointOf(s, n, i)
    && Right(op, s.calls[n].outcome.value.reply,
             F.LocalCall(F.LocalAfter(LocalStart(files), ReqsOf(Trace(s.log[..i])), envs[..i]), op).1)
  }

  /** One account of what the other commands did under which every file operation that returned a
      reply returned the local model's. */
  ghost predicate AllRight(files: map<blob, seq<byte>>, s: State, envs: seq<F.Env>) {
    && |envs| == |s.log|
    && forall n: nat, op :: ReturnedReply(s, n) && F.OpOf(s.calls[n].req) == Some(op) ==> exists i :: RightAt(files, s, envs, n, op, i)
  }

  lemma TracePrefix(log: seq<Exec>, i: nat)
    requires i < |log|
    ensures Trace(log)[..i] == Trace(log[..i]) && Trace(log)[i] == (log[i].req, log[i].reply)
  {
  }

  lemma EntryIsRight(files: map<blob, seq<byte>>, s: State, envs: seq<F.Env>, i: nat, op: F.Op)
    requires Explains(Start(files), Trace(s.log), envs)
    requires i < |s.log| <= 0x8000_0000 && F.OpOf(s.log[i].req) == Some(op)
    ensures |envs| == |s.log|
    ensures Right(op, s.log[i].reply,
                  F.LocalCall(F.LocalAfter(LocalStart(files), ReqsOf(Trace(s.log[..i])), envs[..i]), op).1)
  {
    TracePrefix(s.log, i);
    assert Renames(Tab(files, map[]), Tab(files, map[]), map[]);
    ExplainedIsRight(Start(files), LocalStart(files), Trace(s.log), envs, i, op);
  }

  lemma ReturnedIsRight(files: map<blob, seq<byte>>, s: State, envs: seq<F.Env>, n: nat, op: F.Op)
    requires Inv(FileSpec(Start(files)), s) && |s.log| <= 0x8000_0000
    requires Explains(Start(files), Trace(s.log), envs)
    requires ReturnedReply(s, n) && F.OpOf(s.calls[n].req) == Some(op)
    ensures exists i :: RightAt(files, s, envs, n, op, i)
  {
    HasPoint(FileSpec(Start(files)), s, n);
    var i :| 0 <= i < |s.log| && PointOf(s, n, i);
    EntryIsRight(files, s, envs, i, op);
    assert RightAt(files, s, envs, n, op, i);
  }

  lemma InvIsRight(files: map<blob, seq<byte>>, s: State) returns (envs: seq<F.Env>)
    requires Inv(FileSpec(Start(files)), s) && |s.log| <= 0x8000_0000
    ensures AllRight(files, s, envs)
  {
    LogIsLegal(FileSpec(Start(files)), s);
    LegalIsPossible(Start(files), Trace(s.log));
    envs :| Explains(Start(files), Trace(s.log), envs);
    forall n: nat, op | ReturnedReply(s, n) && F.OpOf(s.calls[n].req) == Some(op)
      ensures exists i :: RightAt(files, s, envs, n, op, i)
    {
      ReturnedIsRight(files, s, envs, n, op);
    }
  }

  lemma {:induction false} DistinctBelow(xs: seq<nat>, bound: nat)
    requires forall i :: 0 <= i < |xs| ==> xs[i] < bound
    requires forall i, j :: 0 <= i < j < |xs| ==> xs[i] != xs[j]
    ensures |xs| <= bound
    decreases bound
  {
    assert xs != [] ==> xs[0] < bound;
    if i: nat :| i < |xs| && xs[i] == bound - 1 {
      DistinctBelow(xs[..i] + xs[i + 1..], bound - 1);
    } else if bound > 0 {
      DistinctBelow(xs, bound - 1);
    }
  }

  lemma LogFitsCalls(spec: Spec, s: State)
    requires Inv(spec, s)
    ensures |s.log| <= |s.calls|
  {
    RunOnce(spec, s);
    DistinctBelow(seq(|s.log|, i requires 0 <= i < |s.log| => s.log[i].tag), |s.calls|);
  }
}
