/**
 What the RPC system promises, over every run that never stores a promise over another one. Runs in
 which no call stays pending for 2^32 later id allocations ("fresh" ones) are such runs.
 */
module RpcTheorems {
  import opened Codec
  import opened Commands
  import opened Rpc
  import opened RpcInvariant
  import Q = ConcurrentQueue

  ghost predicate SafeRun(spec: Spec, handlers: nat, acts: seq<Action>, s: State) {
    Run(spec, Init(handlers), acts) == Some(s) && NoOverwrite(spec, Init(handlers), acts)
  }

  ghost predicate FreshRun(spec: Spec, handlers: nat, acts: seq<Action>, s: State) {
    Run(spec, Init(handlers), acts) == Some(s) && FreshAlong(spec, Init(handlers), acts)
  }

  lemma FreshRunIsSafe(spec: Spec, handlers: nat, acts: seq<Action>, s: State)
    requires FreshRun(spec, handlers, acts, s)
    ensures SafeRun(spec, handlers, acts, s)
  {
    InitInv(spec, handlers);
    FreshRunsDoNotOverwrite(spec, Init(handlers), acts);
  }

  lemma Reached(spec: Spec, handlers: nat, acts: seq<Action>, s: State)
    requires SafeRun(spec, handlers, acts, s)
    ensures Inv(spec, s)
  {
    InitInv(spec, handlers);
    RunKeepsInv(spec, Init(handlers), acts);
  }

  // ---------- Correlation, conservation, at most once ----------

  /** The one log entry of call `n`. */
  ghost predicate ExecutedAs(s: State, n: nat, i: nat, reply: Reply)
  {
    && n < |s.calls| && i < |s.log|
    && s.log[i].tag == n && s.log[i].req == s.calls[n].req && s.log[i].reply == reply
    && (forall j :: 0 <= j < |s.log| && s.log[j].tag == n ==> j == i)
  }

  /** Whatever reply a caller holds, the handlers produced it from that caller's own request, in
      the only run of it. */
  lemma Correlation(spec: Spec, handlers: nat, acts: seq<Action>, s: State, n: nat)
    requires SafeRun(spec, handlers, acts, s)
    requires n < |s.calls| && GotReply(s.calls[n])
    ensures exists i :: ExecutedAs(s, n, i, s.calls[n].outcome.value.reply)
  {
    Reached(spec, handlers, acts, s);
    ReplyIsOwn(spec, s, n);
  }

  lemma ReplyIsOwn(spec: Spec, s: State, n: nat)
    requires Inv(spec, s) && n < |s.calls| && GotReply(s.calls[n])
    ensures exists i :: ExecutedAs(s, n, i, s.calls[n].outcome.value.reply)
  {
    assert GoodCall(s, n);
    var r := s.calls[n].outcome.value.reply;
    var i :| 0 <= i < |s.log| && s.log[i].tag == n && s.log[i].reply == r;
    assert ConservedAt(s, n);
    forall j | 0 <= j < |s.log| && s.log[j].tag == n ensures j == i {
      if j < i { CountLogTwice(s.log, j, i); }
      if i < j { CountLogTwice(s.log, i, j); }
    }
    assert ExecutedAs(s, n, i, r);
  }

  /** Every registered command whose write did not throw is in exactly one place; every command is
      executed at most once; a promise is satisfied at most once, and exactly when its future is
      ready. */
  lemma ExactlyOnePlace(spec: Spec, handlers: nat, acts: seq<Action>, s: State, n: nat)
    requires SafeRun(spec, handlers, acts, s) && n < |s.calls|
    ensures One(s.calls[n].pc.Registered?) + Waiting(s, n) + Returning(s, n) + s.resolved[n] + s.lost[n]
            == One(s.calls[n].pc.Registered? || WasSent(s.calls[n].pc))
    ensures CountLog(s.log, n) <= 1
    ensures s.calls[n].settled == One(s.calls[n].outcome.Some?)
  {
    Reached(spec, handlers, acts, s);
    assert ConservedAt(s, n);
    assert GoodCall(s, n);
  }

  predicate LosesReply(a: Action) {
    a.Handler? && a.ha.HSendFail?
  }

  /** A reply is lost only where a handler's write throws; in particular the reader never meets an
      id it has no promise for, so until then nothing drops out of `ExactlyOnePlace`. */
  lemma {:induction false} NothingIsLost(spec: Spec, s: State, acts: seq<Action>)
    requires Inv(spec, s) && NoOverwrite(spec, s, acts) && Run(spec, s, acts).Some?
    requires forall i :: 0 <= i < |acts| ==> !LosesReply(acts[i])
    ensures Run(spec, s, acts).value.lost == s.lost
    decreases acts
  {
    if acts != [] {
      var s' := Apply(spec, s, acts[0]);
      StepKeepsInv(spec, s, acts[0]);
      NothingLostByStep(spec, s, acts[0]);
      NothingIsLost(spec, s', acts[1..]);
    }
  }

  lemma NothingLostByStep(spec: Spec, s: State, a: Action)
    requires Inv(spec, s) && Enabled(spec, s, a) && !LosesReply(a)
    ensures Apply(spec, s, a).lost == s.lost
  {
    match a {
      case Client(c) => ClientFrame(s, c);
      case Reader(r) => ReplyIsAwaited(s); ReaderFrame(s, r);
      case Worker(w) => WorkerFrame(s, w);
      case Handler(h, ha) => HandlerFrame(spec, s, h, ha);
      case Queue(_) =>
    }
  }

  /** The reader's map lookup never throws, and finds the caller the reply was made for. */
  lemma LookupNeverThrows(spec: Spec, handlers: nat, acts: seq<Action>, s: State)
    requires SafeRun(spec, handlers, acts, s) && s.reader.RHolding?
    ensures s.reader.answer.id in s.pending && s.pending[s.reader.answer.id] == s.reader.answer.tag
  {
    Reached(spec, handlers, acts, s);
    ReplyIsAwaited(s);
  }

  /** What can go wrong or come in at any time: every read and every write may fail, calls arrive, the
      Worker may be closed and its queue shut down, sleepers may wake up for nothing. */
  lemma AnythingCanHappen(spec: Spec, s: State, req: Request, n: nat, h: nat)
    ensures Enabled(spec, s, Client(Invoke(req))) && Enabled(spec, s, Worker(WClose))
    ensures Enabled(spec, s, Client(Write(n))) ==> Enabled(spec, s, Client(WriteFail(n)))
    ensures s.reader.RReading? ==> Enabled(spec, s, Reader(Fail))
    ensures s.worker.WReading? ==> Enabled(spec, s, Worker(WReadFail))
    ensures Enabled(spec, s, Handler(h, HSend)) ==> Enabled(spec, s, Handler(h, HSendFail))
    ensures !s.queue.flag ==> Enabled(spec, s, Queue(Q.ShutdownRead))
    ensures Q.At(s.queue, h, Q.Asleep) ==> Enabled(spec, s, Queue(Q.Spurious(h)))
  {
  }

  /** The promise map is guarded: while a caller holds the lock nobody else changes the map or takes
      the lock. */
  lemma MapIsGuarded(spec: Spec, s: State, a: Action, n: nat)
    requires Inv(spec, s) && Enabled(spec, s, a) && s.lock == Some(n)
    ensures a == Client(Register(n)) || (Apply(spec, s, a).pending == s.pending && Apply(spec, s, a).lock == s.lock)
  {
    match a {
      case Client(c) =>
        assert c.Register? ==> GoodCall(s, c.n);
        CallerRespectsLock(s, c, n);
      case Reader(r) => ReaderRespectsLock(s, r);
      case Worker(w) => WorkerFrame(s, w);
      case Handler(h, ha) => HandlerFrame(spec, s, h, ha);
      case Queue(_) =>
    }
  }

  lemma CallerRespectsLock(s: State, c: ClientAction, n: nat)
    requires ClientEnabled(s, c) && s.lock == Some(n) && (c.Register? ==> c.n == n)
    ensures c == Register(n) || (ClientApply(s, c).pending == s.pending && ClientApply(s, c).lock == s.lock)
  {
  }

  lemma ReaderRespectsLock(s: State, r: ReaderAction)
    requires ReaderEnabled(s, r) && s.lock.Some?
    ensures !r.Deliver? && !r.Drain?
    ensures ReaderApply(s, r).pending == s.pending && ReaderApply(s, r).lock == s.lock
  {
  }

  // ---------- Command ids ----------

  /** From drawing its id to the resolution of its promise. */
  predicate InUse(c: Call) {
    c.pc.Invoked? || c.pc.Checked? || (WasRegistered(c.pc) && c.outcome.None?)
  }

  predicate InUseAt(s: State, n: nat) {
    n < |s.calls| && InUse(s.calls[n])
  }

  /** Under wrap-around no two calls in use share a command id, and storing a promise never
      overwrites one. */
  lemma IdsInUseAreDistinct(spec: Spec, handlers: nat, acts: seq<Action>, s: State)
    requires FreshRun(spec, handlers, acts, s)
    ensures forall m, n :: InUseAt(s, m) && InUseAt(s, n) && IdOf(m) == IdOf(n) ==> m == n
    ensures forall n :: CallAt(s, n, Checked) ==> IdOf(n) !in s.pending
  {
    FreshRunIsSafe(spec, handlers, acts, s);
    Reached(spec, handlers, acts, s);
    LastIsFresh(spec, Init(handlers), acts);
    forall m, n | InUseAt(s, m) && InUseAt(s, n) && IdOf(m) == IdOf(n) ensures m == n {
      InUseIsRecent(s, m);
      InUseIsRecent(s, n);
      IdsDistinct(m, n, |s.calls|);
    }
    forall n | CallAt(s, n, Checked) ensures IdOf(n) !in s.pending {
      IdIsFree(s, n);
    }
  }

  lemma InUseIsRecent(s: State, n: nat)
    requires GoodCalls(s) && Fresh(s) && n < |s.calls| && InUse(s.calls[n])
    ensures |s.calls| <= n + LIMIT
  {
    assert GoodCall(s, n);
  }

  lemma {:induction false} LastIsFresh(spec: Spec, s: State, acts: seq<Action>)
    requires FreshAlong(spec, s, acts) && Run(spec, s, acts).Some?
    ensures Fresh(Run(spec, s, acts).value)
    decreases acts
  {
    if acts != [] {
      LastIsFresh(spec, Apply(spec, s, acts[0]), acts[1..]);
    }
  }

  /** Without that assumption: registering a call destroys a live promise exactly when a pending
      call lies a multiple of 2^32 allocations before it. */
  lemma OverwriteExactly(spec: Spec, s: State, n: nat)
    requires Inv(spec, s) && s.connected && CallAt(s, n, Checked)
    ensures (exists m :: 0 <= m < |s.calls| && m != n && s.calls[m].outcome.None?
                      && ClientApply(s, Register(n)).calls[m].outcome == Some(Broken))
       <==> (exists m :: 0 <= m < |s.calls| && IsPending(s.pending, m) && (n - m) % LIMIT == 0)
  {
    assert GoodCall(s, n);
    var calls' := ClientApply(s, Register(n)).calls;
    if IdOf(n) in s.pending {
      var m := s.pending[IdOf(n)];
      SameId(m, n);
      assert m != n && calls'[m].outcome == Some(Broken) && IsPending(s.pending, m);
    } else {
      assert calls' == s.calls[n := s.calls[n].(pc := Registered)];
      NoneShares(s, n);
    }
  }

  lemma SameId(m: nat, n: nat)
    ensures IdOf(m) == IdOf(n) <==> (n - m) % LIMIT == 0
  {
  }

  lemma NoneShares(s: State, n: nat)
    requires IdOf(n) !in s.pending
    ensures forall m: nat :: IsPending(s.pending, m) ==> (n - m) % LIMIT != 0
  {
    forall m: nat | IsPending(s.pending, m) ensures (n - m) % LIMIT != 0 {
      SameId(m, n);
    }
  }

  // ---------- Linearizability ----------

  /** `s.log` is a sequential history that explains the run: it is one the handlers' sequential
      specification allows, it holds only commands that were invoked, each once, every caller that
      returned a reply finds its own command and that reply in it, inside its own call, and a call
      that returned before another was invoked comes first. */
  ghost predicate Linearizable(spec: Spec, s: State) {
    && (forall i :: 0 <= i < |s.log| ==> spec(Trace(s.log[..i]), s.log[i].req, s.log[i].reply))
    && (forall i :: 0 <= i < |s.log| ==> s.log[i].tag < |s.calls| && s.log[i].req == s.calls[s.log[i].tag].req)
    && (forall i, j :: 0 <= i < j < |s.log| ==> s.log[i].tag != s.log[j].tag)
    && (forall n :: 0 <= n < |s.calls| && ReturnedReply(s, n) ==> exists i :: 0 <= i < |s.log| && PointOf(s, n, i))
    && (forall i, j :: 0 <= i < |s.log| && 0 <= j < |s.log| && Precedes(s, s.log[i].tag, s.log[j].tag) ==> i < j)
  }

  predicate ReturnedReply(s: State, n: nat) {
    n < |s.calls| && s.calls[n].pc.Returned? && GotReply(s.calls[n])
  }

  /** Entry `i` is where call `n` takes effect: its request, its reply, between its invocation and
      its return. */
  predicate PointOf(s: State, n: nat, i: nat)
    requires i < |s.log|
  {
    && ReturnedReply(s, n)
    && s.log[i].tag == n && s.log[i].req == s.calls[n].req && s.log[i].reply == s.calls[n].outcome.value.reply
    && s.calls[n].invokedAt < s.log[i].at < s.calls[n].returnedAt
  }

  predicate Precedes(s: State, m: nat, n: nat) {
    ReturnedReply(s, m) && n < |s.calls| && s.calls[m].returnedAt <= s.calls[n].invokedAt
  }

  /** A call that has returned a reply has its point. */
  lemma HasPoint(spec: Spec, s: State, n: nat)
    requires Inv(spec, s) && ReturnedReply(s, n)
    ensures exists i :: 0 <= i < |s.log| && PointOf(s, n, i)
  {
    var i :| 0 <= i < |s.log| && s.log[i].tag == n && s.log[i].reply == s.calls[n].outcome.value.reply
             && s.log[i].at < s.calls[n].returnedAt;
    assert PointOf(s, n, i);
  }

  lemma RunOnce(spec: Spec, s: State)
    requires Inv(spec, s)
    ensures forall i, j :: 0 <= i < j < |s.log| ==> s.log[i].tag != s.log[j].tag
  {
    forall i, j | 0 <= i < j < |s.log| ensures s.log[i].tag != s.log[j].tag {
      assert ConservedAt(s, s.log[i].tag);
      if s.log[i].tag == s.log[j].tag {
        CountLogTwice(s.log, i, j);
      }
    }
  }

  lemma RpcIsLinearizable(spec: Spec, handlers: nat, acts: seq<Action>, s: State)
    requires SafeRun(spec, handlers, acts, s)
    ensures Linearizable(spec, s)
  {
    Reached(spec, handlers, acts, s);
    RunOnce(spec, s);
    forall n | 0 <= n < |s.calls| && ReturnedReply(s, n)
      ensures exists i :: 0 <= i < |s.log| && PointOf(s, n, i)
    {
      HasPoint(spec, s, n);
    }
    forall i, j | 0 <= i < |s.log| && 0 <= j < |s.log| && Precedes(s, s.log[i].tag, s.log[j].tag)
      ensures i < j
    {
      var m := s.log[i].tag;
      var k :| 0 <= k < |s.log| && PointOf(s, m, k);
      assert k == i;
      assert s.log[i].at < s.log[j].at;
    }
  }

  // ---------- Runs that lead to an overwrite ----------

  /** One call drawing its id and registering its promise, undisturbed. */
  function Registering(req: Request, n: nat): seq<Action> {
    [Client(Invoke(req)), Client(LockAndCheck(n)), Client(Register(n))]
  }

  lemma RegisterUndisturbed(spec: Spec, s: State, req: Request)
    requires s.connected && s.lock.None? && IdOf(|s.calls|) !in s.pending
    ensures var n := |s.calls|;
            var r := Run(spec, s, Registering(req, n));
            && r.Some? && NoOverwrite(spec, s, Registering(req, n))
            && r.value.connected && r.value.lock.None? && r.value.reader == s.reader
            && r.value.calls == s.calls + [Call(req, Registered, None, 0, s.clock, 0)]
            && r.value.pending == s.pending[IdOf(n) := n]
  {
    var n, acts := |s.calls|, Registering(req, |s.calls|);
    var s1, s2, s3 := RegisteringSteps(s, req);
    assert acts[2..][1..] == [] && acts[1..][1..] == acts[2..];
    Unfold(spec, s2, acts[2..]);
    Unfold(spec, s1, acts[1..]);
    Unfold(spec, s, acts);
    assert NoOverwrite(spec, s2, acts[2..]) by {
      assert FindsFree(s2, acts[2..][0]);
      assert NoOverwrite(spec, s3, []);
    }
    assert NoOverwrite(spec, s1, acts[1..]);
  }

  lemma RegisteringSteps(s: State, req: Request) returns (s1: State, s2: State, s3: State)
    requires s.connected && s.lock.None? && IdOf(|s.calls|) !in s.pending
    ensures var n := |s.calls|;
            && s1 == ClientApply(s, Invoke(req))
            && ClientEnabled(s1, LockAndCheck(n)) && s2 == ClientApply(s1, LockAndCheck(n))
            && ClientEnabled(s2, Register(n)) && IdOf(n) !in s2.pending && s3 == ClientApply(s2, Register(n))
            && s3.connected && s3.lock.None? && s3.reader == s.reader
            && s3.calls == s.calls + [Call(req, Registered, None, 0, s.clock, 0)]
            && s3.pending == s.pending[IdOf(n) := n]
  {
    var n := |s.calls|;
    s1 := ClientApply(s, Invoke(req));
    s2 := ClientApply(s1, LockAndCheck(n));
    assert s2.calls == s.calls + [Call(req, Checked, None, 0, s.clock, 0)];
    s3 := ClientApply(s2, Register(n));
  }

  lemma RunsJoin(spec: Spec, s0: State, a: seq<Action>, s1: State, b: seq<Action>, s2: State, c: seq<Action>)
    requires Run(spec, s0, a) == Some(s1) && Run(spec, s1, b) == Some(s2)
    ensures Run(spec, s0, a + b + c) == Run(spec, s2, c)
  {
    RunAppend(spec, s0, a, b);
    RunAppend(spec, s0, a + b, c);
  }

  /** `k` callers drawing an id each and going no further. */
  function Arrivals(req: Request, k: nat): (r: seq<Action>)
    ensures |r| == k
  {
    seq(k, _ => Client(Invoke(req)))
  }

  lemma {:induction false} ArrivalsRun(spec: Spec, s: State, req: Request, k: nat)
    ensures NoOverwrite(spec, s, Arrivals(req, k)) && Run(spec, s, Arrivals(req, k)).Some?
    ensures var r := Run(spec, s, Arrivals(req, k)).value;
            && r.connected == s.connected && r.lock == s.lock && r.pending == s.pending
            && |r.calls| == |s.calls| + k && s.calls <= r.calls
            && (forall n :: |s.calls| <= n < |r.calls| ==> r.calls[n].pc.Invoked?)
    decreases k
  {
    if k > 0 {
      var acts := Arrivals(req, k);
      var s1 := ClientApply(s, Invoke(req));
      assert acts[0] == Client(Invoke(req)) && acts[1..] == Arrivals(req, k - 1);
      ArrivalsRun(spec, s1, req, k - 1);
      Unfold(spec, s, acts);
    }
  }

  lemma CheckUndisturbed(spec: Spec, s: State, n: nat) returns (s': State)
    requires s.connected && s.lock.None? && CallAt(s, n, Invoked)
    ensures Run(spec, s, [Client(LockAndCheck(n))]) == Some(s') && NoOverwrite(spec, s, [Client(LockAndCheck(n))])
    ensures s'.connected && s'.pending == s.pending && s'.calls == s.calls[n := s.calls[n].(pc := Checked)]
  {
    var acts := [Client(LockAndCheck(n))];
    s' := ClientApply(s, LockAndCheck(n));
    Unfold(spec, s, acts);
    assert acts[1..] == [];
    assert NoOverwrite(spec, s', []);
  }

  /** Such a state lies ahead of every state in which a call can register: its promise is pending
      while LIMIT more calls draw ids; the last of them has its id, and registering that one breaks
      the promise. */
  lemma OverwriteAhead(spec: Spec, s0: State, req: Request) returns (acts: seq<Action>, s: State)
    requires Inv(spec, s0) && s0.connected && s0.lock.None? && IdOf(|s0.calls|) !in s0.pending
    ensures Run(spec, s0, acts) == Some(s) && NoOverwrite(spec, s0, acts) && Inv(spec, s)
    ensures var m, n := |s0.calls|, |s0.calls| + LIMIT;
            && s.connected && CallAt(s, n, Checked) && m < |s.calls| && IsPending(s.pending, m) && s.calls[m].outcome.None?
            && ClientApply(s, Register(n)).calls[m].outcome == Some(Broken)
  {
    var m := |s0.calls|;
    var n := m + LIMIT;
    var a, b, c := Registering(req, m), Arrivals(req, LIMIT), [Client(LockAndCheck(n))];
    RegisterUndisturbed(spec, s0, req);
    var s1 := Run(spec, s0, a).value;
    ArrivalsRun(spec, s1, req, LIMIT);
    var s2 := Run(spec, s1, b).value;
    assert s2.calls[m] == s1.calls[m];
    s := CheckUndisturbed(spec, s2, n);
    acts := a + b + c;
    RunsInTurn(spec, s0, a, s1, b, s2, c, s);
    RunKeepsInv(spec, s0, acts);
    RegisterBreaks(s, m, n);
  }

  lemma OverwriteCanHappen(spec: Spec, handlers: nat, req: Request) returns (acts: seq<Action>, s: State)
    ensures Run(spec, Init(handlers), acts) == Some(s) && NoOverwrite(spec, Init(handlers), acts) && Inv(spec, s)
    ensures s.connected && CallAt(s, LIMIT, Checked) && IsPending(s.pending, 0) && s.calls[0].outcome.None?
    ensures ClientApply(s, Register(LIMIT)).calls[0].outcome == Some(Broken)
  {
    InitInv(spec, handlers);
    acts, s := OverwriteAhead(spec, Init(handlers), req);
  }

  lemma RunsInTurn(spec: Spec, s0: State, a: seq<Action>, s1: State, b: seq<Action>, s2: State, c: seq<Action>, s3: State)
    requires Run(spec, s0, a) == Some(s1) && Run(spec, s1, b) == Some(s2) && Run(spec, s2, c) == Some(s3)
    requires NoOverwrite(spec, s0, a) && NoOverwrite(spec, s1, b) && NoOverwrite(spec, s2, c)
    ensures Run(spec, s0, a + b + c) == Some(s3) && NoOverwrite(spec, s0, a + b + c)
  {
    RunAppend(spec, s0, a, b);
    RunAppend(spec, s0, a + b, c);
  }

  lemma RegisterBreaks(s: State, m: nat, n: nat)
    requires CallAt(s, n, Checked) && m < |s.calls| && s.calls[m].outcome.None? && m != n
    requires IsPending(s.pending, m) && (n - m) % LIMIT == 0
    ensures ClientApply(s, Register(n)).calls[m].outcome == Some(Broken)
  {
    SameId(m, n);
  }

  lemma {:induction false} RunAppend(spec: Spec, s: State, a: seq<Action>, b: seq<Action>)
    requires Run(spec, s, a).Some?
    ensures Run(spec, s, a + b) == Run(spec, Run(spec, s, a).value, b)
    ensures NoOverwrite(spec, s, a) && NoOverwrite(spec, Run(spec, s, a).value, b) ==> NoOverwrite(spec, s, a + b)
    decreases a
  {
    if a == [] {
      assert a + b == b;
    } else {
      assert (a + b)[1..] == a[1..] + b;
      RunAppend(spec, Apply(spec, s, a[0]), a[1..], b);
    }
  }

  lemma Unfold(spec: Spec, s: State, acts: seq<Action>)
    requires acts != [] && Enabled(spec, s, acts[0])
    ensures Run(spec, s, acts) == Run(spec, Apply(spec, s, acts[0]), acts[1..])
  {
  }
}
