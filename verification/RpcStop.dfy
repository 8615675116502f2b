/**
 The two flags that end the system: `_should_stop` of the Worker and `_connected` of the Commander.
 When each is raised or cleared, that this is for good, and what the Worker's loops make of it.
 */
module RpcStop {
  import opened Codec
  import opened Commands
  import opened Rpc
  import opened RpcInvariant

  // ---------- When the flags change ----------

  /** A read or write of the Worker failed, its queue was shut down under a handler, or close(). */
  predicate Breaks(a: Action) {
    match a
    case Worker(w) => w.WReadFail? || w.WClose?
    case Handler(_, ha) => ha.HThrow? || ha.HSendFail?
    case _ => false
  }

  ghost predicate Ran(log: seq<Exec>, typ: byte) {
    exists i :: 0 <= i < |log| && log[i].req.typ == typ
  }

  ghost predicate Broke(acts: seq<Action>) {
    exists i :: 0 <= i < |acts| && Breaks(acts[i])
  }

  /** One step raises the flag when it breaks something or runs a disconnect, and only then. */
  lemma StopStep(spec: Spec, s: State, a: Action)
    requires Enabled(spec, s, a)
    ensures var s' := Apply(spec, s, a);
            && s.log <= s'.log && |s'.log| <= |s.log| + 1
            && (s'.stop <==> s.stop || Breaks(a) || (|s.log| < |s'.log| && s'.log[|s.log|].req.typ == DISCONNECT))
  {
    match a {
      case Client(c) => ClientKeepsStop(s, c);
      case Reader(r) => ReaderKeepsStop(s, r);
      case Worker(w) => WorkerStops(s, w);
      case Handler(h, ha) => HandlerStops(spec, s, h, ha);
      case Queue(_) =>
    }
  }

  lemma ClientKeepsStop(s: State, c: ClientAction)
    requires ClientEnabled(s, c)
    ensures ClientApply(s, c).stop == s.stop && ClientApply(s, c).log == s.log
    ensures ClientApply(s, c).connected == (s.connected && !c.ClearConnected?)
  {
  }

  lemma ReaderKeepsStop(s: State, r: ReaderAction)
    requires ReaderEnabled(s, r)
    ensures ReaderApply(s, r).stop == s.stop && ReaderApply(s, r).log == s.log
    ensures ReaderApply(s, r).connected == (s.connected && !r.Clear?)
  {
  }

  lemma WorkerStops(s: State, w: WorkerAction)
    requires WorkerEnabled(s, w)
    ensures WorkerApply(s, w).log == s.log
    ensures WorkerApply(s, w).stop <==> s.stop || w.WReadFail? || w.WClose?
  {
  }

  lemma HandlerStops(spec: Spec, s: State, h: nat, a: HandlerAction)
    requires HandlerEnabled(spec, s, h, a)
    ensures var s' := HandlerApply(spec, s, h, a);
            && s.log <= s'.log && |s'.log| <= |s.log| + 1
            && (s'.stop <==> s.stop || Breaks(Handler(h, a))
                             || (|s.log| < |s'.log| && s'.log[|s.log|].req.typ == DISCONNECT))
  {
  }

  lemma {:induction false} StopFrom(spec: Spec, s: State, acts: seq<Action>)
    requires Run(spec, s, acts).Some? && (Ran(s.log, DISCONNECT) ==> s.stop)
    ensures var s' := Run(spec, s, acts).value;
            s'.stop <==> s.stop || Broke(acts) || Ran(s'.log, DISCONNECT)
    ensures s.log <= Run(spec, s, acts).value.log
    decreases acts
  {
    if acts != [] {
      var s1, rest := Apply(spec, s, acts[0]), acts[1..];
      StopStep(spec, s, acts[0]);
      LogGrows(s.log, s1.log);
      StopFrom(spec, s1, rest);
      BrokeCons(acts);
      var s' := Run(spec, s, acts).value;
      if |s.log| < |s1.log| && s1.log[|s.log|].req.typ == DISCONNECT {
        assert s'.log[|s.log|] == s1.log[|s.log|];
      }
    }
  }

  lemma LogGrows(log: seq<Exec>, log': seq<Exec>)
    requires log <= log' && |log'| <= |log| + 1
    ensures Ran(log', DISCONNECT) <==>
            Ran(log, DISCONNECT) || (|log| < |log'| && log'[|log|].req.typ == DISCONNECT)
  {
    if Ran(log, DISCONNECT) {
      var i :| 0 <= i < |log| && log[i].req.typ == DISCONNECT;
      assert log'[i] == log[i];
    }
    if Ran(log', DISCONNECT) {
      var i :| 0 <= i < |log'| && log'[i].req.typ == DISCONNECT;
      assert i < |log| ==> log[i] == log'[i];
    }
  }

  lemma BrokeCons(acts: seq<Action>)
    requires acts != []
    ensures Broke(acts) <==> Breaks(acts[0]) || Broke(acts[1..])
  {
    if Broke(acts[1..]) {
      var i :| 0 <= i < |acts[1..]| && Breaks(acts[1..][i]);
      assert Breaks(acts[i + 1]);
    }
    if Broke(acts) {
      var i :| 0 <= i < |acts| && Breaks(acts[i]);
      assert i > 0 ==> acts[i] == acts[1..][i - 1];
    }
  }

  /** Over every run: the Worker is told to stop if and only if one of its reads or writes failed, a
      handler met the shut-down queue, close() was called, or a handler has run a disconnect. */
  lemma StopExactly(spec: Spec, handlers: nat, acts: seq<Action>, s: State)
    requires Run(spec, Init(handlers), acts) == Some(s)
    ensures s.stop <==> Broke(acts) || Ran(s.log, DISCONNECT)
  {
    StopFrom(spec, Init(handlers), acts);
  }

  lemma {:induction false} StopIsForGood(spec: Spec, s: State, later: seq<Action>)
    requires s.stop && Run(spec, s, later).Some?
    ensures Run(spec, s, later).value.stop
    decreases later
  {
    if later != [] {
      StopStep(spec, s, later[0]);
      StopIsForGood(spec, Apply(spec, s, later[0]), later[1..]);
    }
  }

  predicate Disconnects(a: Action) {
    (a.Client? && a.c.ClearConnected?) || (a.Reader? && a.r.Clear?)
  }

  ghost predicate Disconnected(acts: seq<Action>) {
    exists i :: 0 <= i < |acts| && Disconnects(acts[i])
  }

  lemma ConnectedStep(spec: Spec, s: State, a: Action)
    requires Enabled(spec, s, a)
    ensures Apply(spec, s, a).connected == (s.connected && !Disconnects(a))
  {
    match a {
      case Client(c) => ClientKeepsStop(s, c);
      case Reader(r) => ReaderKeepsStop(s, r);
      case Worker(w) => WorkerFrame(s, w);
      case Handler(h, ha) => HandlerFrame(spec, s, h, ha);
      case Queue(_) =>
    }
  }

  /** Over every run: the Commander is connected until the first time its reader fails or a
      disconnect() ends, and never again. */
  lemma {:induction false} ConnectedExactly(spec: Spec, s: State, acts: seq<Action>)
    requires Run(spec, s, acts).Some?
    ensures Run(spec, s, acts).value.connected <==> s.connected && !Disconnected(acts)
    decreases acts
  {
    if acts != [] {
      ConnectedStep(spec, s, acts[0]);
      ConnectedExactly(spec, Apply(spec, s, acts[0]), acts[1..]);
      if Disconnected(acts[1..]) {
        var i :| 0 <= i < |acts[1..]| && Disconnects(acts[1..][i]);
        assert Disconnects(acts[i + 1]);
      }
      if Disconnected(acts) {
        var i :| 0 <= i < |acts| && Disconnects(acts[i]);
        assert i > 0 ==> acts[i] == acts[1..][i - 1];
      }
    }
  }

  // ---------- The loop tests ----------

  /** At its loop test a thread of the Worker goes on exactly while the flag is down. */
  lemma LoopTest(spec: Spec, s: State, h: nat)
    ensures s.worker.WTesting? ==>
              WorkerApply(s, WTest).worker == if s.stop then WExited else WReading
    ensures HandlerEnabled(spec, s, h, HTest) ==>
              HandlerApply(spec, s, h, HTest).handlers[h] == if s.stop then HExited else HPopping
    ensures h < |s.handlers| && s.handlers[h].HTesting? && s.stop ==> HandlerEnabled(spec, s, h, HTest)
  {
  }
}
