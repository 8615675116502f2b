/**
 Progress of the RPC system: while both ends are up, its own steps cannot go on for ever and cannot
 stop before every call has returned with its reply, whatever order they are taken in.
 */
module RpcProgress {
  import opened Codec
  import opened Commands
  import opened Rpc
  import opened RpcInvariant
  import opened RpcTheorems
  import Q = ConcurrentQueue

  // ---------- Something can move ----------

  ghost predicate Answers(spec: Spec, trace: seq<(Request, Reply)>, req: Request) {
    exists reply :: spec(trace, req, reply)
  }

  /** A history the specification allows. */
  ghost predicate Legal(spec: Spec, trace: seq<(Request, Reply)>) {
    forall i :: 0 <= i < |trace| ==> spec(trace[..i], trace[i].0, trace[i].1)
  }

  /** After every history it allows, the specification has an answer to every accepted request. */
  ghost predicate Responsive(spec: Spec, accepted: Request -> bool) {
    forall trace, req :: Legal(spec, trace) && accepted(req) ==> Answers(spec, trace, req)
  }

  predicate AllAccepted(calls: seq<Call>, accepted: Request -> bool) {
    forall n :: 0 <= n < |calls| ==> accepted(calls[n].req)
  }

  lemma LogIsLegal(spec: Spec, s: State)
    requires GoodLog(spec, s)
    ensures Legal(spec, Trace(s.log))
  {
    var trace := Trace(s.log);
    forall i | 0 <= i < |trace| ensures spec(trace[..i], trace[i].0, trace[i].1) {
      assert trace[..i] == Trace(s.log[..i]);
    }
  }

  /** The system's own steps: no new call, no failure, no shutdown, no spurious wakeup. */
  predicate IsWork(a: Action) {
    match a
    case Client(c) => c.LockAndCheck? || c.Register? || c.Write? || c.Return?
    case Reader(r) => !r.Fail?
    case Worker(w) => w.WTest? || w.WRead? || w.WPush?
    case Handler(_, ha) => !ha.HSendFail?
    case Queue(step) => Q.IsWaitStep(step)
  }

  ghost predicate CanWork(spec: Spec, s: State) {
    exists a :: IsWork(a) && Enabled(spec, s, a)
  }

  lemma Works(spec: Spec, s: State, a: Action)
    requires IsWork(a) && Enabled(spec, s, a)
    ensures CanWork(spec, s)
  {
  }

  lemma {:induction false} SomeHandlerHoldsReq(hs: seq<HandlerPc>, n: nat)
    requires CountHeldReq(hs, n) > 0
    ensures exists h :: 0 <= h < |hs| && hs[h].HHolding?
  {
    if !HoldsReq(hs[0], n) {
      SomeHandlerHoldsReq(hs[1..], n);
      var h :| 0 <= h < |hs[1..]| && hs[1..][h].HHolding?;
      assert hs[h + 1].HHolding?;
    }
  }

  lemma {:induction false} SomeHandlerHoldsAns(hs: seq<HandlerPc>, n: nat)
    requires CountHeldAns(hs, n) > 0
    ensures exists h :: 0 <= h < |hs| && hs[h].HReplying?
  {
    if !HoldsAns(hs[0], n) {
      SomeHandlerHoldsAns(hs[1..], n);
      var h :| 0 <= h < |hs[1..]| && hs[1..][h].HReplying?;
      assert hs[h + 1].HReplying?;
    }
  }

  lemma HandlerCanWork(spec: Spec, accepted: Request -> bool, s: State, h: nat)
    requires Inv(spec, s) && Responsive(spec, accepted) && AllAccepted(s.calls, accepted)
    requires h < |s.handlers| && (s.handlers[h].HHolding? || s.handlers[h].HReplying?)
    ensures CanWork(spec, s)
  {
    if s.handlers[h].HHolding? {
      LogIsLegal(spec, s);
      assert GoodSent(s.calls, s.handlers[h].msg);
      assert Answers(spec, Trace(s.log), s.handlers[h].msg.req);
      var reply :| spec(Trace(s.log), s.handlers[h].msg.req, reply);
      Works(spec, s, Handler(h, HRun(reply)));
    } else {
      Works(spec, s, Handler(h, HSend));
    }
  }

  lemma QueueHolderCanWork(spec: Spec, s: State)
    requires GoodHandlers(s) && Q.Inv(s.queue) && s.queue.mutex.Some?
    ensures CanWork(spec, s)
  {
    var c := s.queue.mutex.value;
    match s.queue.pcs[c] {
      case Checking => Works(spec, s, Queue(Q.Test(c)));
      case GoingToSleep => Works(spec, s, Queue(Q.Sleep(c)));
      case Passed =>
        if s.queue.flag { Works(spec, s, Handler(c, HThrow)); }
        else { Works(spec, s, Handler(c, HTake)); }
    }
  }

  /** A queued request is never left alone with sleeping handlers. */
  lemma QueuedRequestMoves(spec: Spec, accepted: Request -> bool, s: State)
    requires Inv(spec, s) && Responsive(spec, accepted) && AllAccepted(s.calls, accepted)
    requires !s.stop && !s.queue.flag
    requires s.handlers != [] && s.queue.items != []
    ensures CanWork(spec, s)
  {
    if s.queue.mutex.Some? {
      QueueHolderCanWork(spec, s);
    } else if Q.SomeoneAsleep(s.queue.pcs) {
      Q.AwakeExists(s.queue.pcs);
      var c :| 0 <= c < |s.queue.pcs| && Q.IsAwake(s.queue.pcs[c]);
      Works(spec, s, Queue(Q.Acquire(c)));
    } else {
      match s.handlers[0] {
        case HTesting => Works(spec, s, Handler(0, HTest));
        case HPopping =>
          assert s.queue.pcs[0] != Q.Asleep;
          Works(spec, s, Queue(Q.Acquire(0)));
        case HHolding(_) => HandlerCanWork(spec, accepted, s, 0);
        case HReplying(_) => HandlerCanWork(spec, accepted, s, 0);
      }
    }
  }

  lemma WorkerCanWork(spec: Spec, s: State)
    requires GoodHandlers(s) && Q.Inv(s.queue) && !s.stop
    requires s.requests != [] || s.worker.WHolding?
    ensures CanWork(spec, s)
  {
    match s.worker {
      case WTesting => Works(spec, s, Worker(WTest));
      case WReading => Works(spec, s, Worker(WRead));
      case WHolding(m) =>
        if s.queue.mutex.Some? {
          QueueHolderCanWork(spec, s);
        } else if Q.SomeoneAsleep(s.queue.pcs) {
          var c: nat :| c < |s.queue.pcs| && s.queue.pcs[c] == Q.Asleep;
          Works(spec, s, Worker(WPush(Some(c))));
        } else {
          Works(spec, s, Worker(WPush(None)));
        }
    }
  }

  lemma ReplyMoves(spec: Spec, s: State)
    requires GoodReader(s) && s.connected && (s.replies != [] || s.reader.RHolding?)
    ensures CanWork(spec, s)
  {
    match s.reader {
      case RTesting => Works(spec, s, Reader(Test));
      case RReading => Works(spec, s, Reader(Read));
      case RHolding(_) =>
        if s.lock.None? { Works(spec, s, Reader(Deliver)); }
        else { Works(spec, s, Client(Register(s.lock.value))); }
      case RFailing => Works(spec, s, Reader(Clear));
    }
  }

  /** No deadlock: a caller waiting for a reply that has not been lost always sees some step of the
      system enabled. */
  lemma WaiterSeesWork(spec: Spec, accepted: Request -> bool, s: State, n: nat)
    requires Inv(spec, s) && Responsive(spec, accepted) && AllAccepted(s.calls, accepted) && s.handlers != []
    requires CallAt(s, n, Written) && s.calls[n].outcome.None? && s.lost[n] == 0
    requires s.connected && !s.stop && !s.queue.flag
    ensures CanWork(spec, s)
  {
    assert ConservedAt(s, n);
    assert GoodCall(s, n);
    if CountHeldReq(s.handlers, n) > 0 {
      SomeHandlerHoldsReq(s.handlers, n);
      var h :| 0 <= h < |s.handlers| && s.handlers[h].HHolding?;
      HandlerCanWork(spec, accepted, s, h);
    } else if CountHeldAns(s.handlers, n) > 0 {
      SomeHandlerHoldsAns(s.handlers, n);
      var h :| 0 <= h < |s.handlers| && s.handlers[h].HReplying?;
      HandlerCanWork(spec, accepted, s, h);
    } else if s.queue.items != [] {
      QueuedRequestMoves(spec, accepted, s);
    } else if s.requests != [] || s.worker.WHolding? {
      WorkerCanWork(spec, s);
    } else {
      ReplyMoves(spec, s);
    }
  }

  lemma HandlersStep(spec: Spec, s: State, a: Action)
    requires Enabled(spec, s, a)
    ensures |Apply(spec, s, a).handlers| == |s.handlers|
  {
    match a {
      case Client(c) => ClientFrame(s, c);
      case Reader(r) => ReaderFrame(s, r);
      case Worker(w) => WorkerFrame(s, w);
      case Handler(h, ha) => HandlerFrame(spec, s, h, ha);
      case Queue(_) =>
    }
  }

  lemma {:induction false} HandlersCount(spec: Spec, s: State, acts: seq<Action>)
    requires Run(spec, s, acts).Some?
    ensures |Run(spec, s, acts).value.handlers| == |s.handlers|
    decreases acts
  {
    if acts != [] {
      HandlersStep(spec, s, acts[0]);
      HandlersCount(spec, Apply(spec, s, acts[0]), acts[1..]);
    }
  }

  // ---------- Nothing moves for ever ----------

  // How many more steps a call, a message or a thread can still cause.
  function CallWeight(c: Call): nat {
    match c.pc
    case Invoked => 20
    case Checked => 19
    case Registered => 18
    case Written => 1
    case _ => 0
  }

  function HandlerWeight(h: HandlerPc): nat {
    match h
    case HTesting => 5
    case HHolding(_) => 10
    case HReplying(_) => 9
    case _ => 0
  }

  function ReaderWeight(r: ReaderPc): nat {
    if r.RTesting? then 1 else if r.RHolding? then 2 else 0
  }

  function WorkerWeight(w: WorkerPc): nat {
    if w.WTesting? then 1 else if w.WHolding? then 15 else 0
  }

  function ServerMeasure(s: State): nat {
    16 * |s.requests| + WorkerWeight(s.worker) + 9 * |s.queue.items|
    + Q.Sum(s.handlers, HandlerWeight) + Q.Sum(s.queue.pcs, Q.PcWeight)
  }

  function Measure(s: State): nat {
    Q.Sum(s.calls, CallWeight) + ServerMeasure(s) + 3 * |s.replies| + ReaderWeight(s.reader)
  }

  /** Both ends are up and staying up, no disconnect() has been asked for, and no reply was lost. */
  ghost predicate Healthy(s: State) {
    && s.connected && !s.stop && !s.queue.flag
    && (s.reader.RTesting? || s.reader.RReading? || s.reader.RHolding?)
    && (forall n :: 0 <= n < |s.calls| ==> s.calls[n].req.typ != DISCONNECT)
    && s.lost == multiset{}
  }

  lemma ClientGoesDown(spec: Spec, s: State, c: ClientAction)
    requires Inv(spec, s) && Healthy(s) && Fresh(s) && IsWork(Client(c)) && ClientEnabled(s, c)
    ensures Measure(ClientApply(s, c)) < Measure(s)
  {
    if c.Register? {
      IdIsFree(s, c.n);
      RegisterGoesDown(s, c.n);
    } else {
      Q.SumUpdate(s.calls, CallWeight, c.n, ClientApply(s, c).calls[c.n]);
    }
  }

  lemma RegisterGoesDown(s: State, n: nat)
    requires CallAt(s, n, Checked) && IdOf(n) !in s.pending
    ensures Measure(ClientApply(s, Register(n))) < Measure(s)
  {
    assert Overwrite(s, n) == s.calls;
    Q.SumUpdate(s.calls, CallWeight, n, ClientApply(s, Register(n)).calls[n]);
  }

  lemma ReaderGoesDown(spec: Spec, s: State, r: ReaderAction)
    requires Inv(spec, s) && Healthy(s) && IsWork(Reader(r)) && ReaderEnabled(s, r)
    ensures Measure(ReaderApply(s, r)) < Measure(s)
  {
    ReplyIsAwaited(s);
    if r.Deliver? {
      var n := s.reader.answer.tag;
      Q.SumUpdate(s.calls, CallWeight, n, Settle(s.calls[n], Got(s.reader.answer.reply)));
    }
  }

  lemma WorkerGoesDown(s: State, w: WorkerAction)
    requires IsWork(Worker(w)) && WorkerEnabled(s, w)
    ensures Measure(WorkerApply(s, w)) < Measure(s)
  {
    if w.WPush? && w.wake.Some? {
      Q.SumUpdate(s.queue.pcs, Q.PcWeight, w.wake.value, Q.Woken);
    }
  }

  lemma HandlerGoesDown(spec: Spec, s: State, h: nat, a: HandlerAction)
    requires GoodHandlers(s) && Healthy(s) && IsWork(Handler(h, a)) && HandlerEnabled(spec, s, h, a)
    ensures Measure(HandlerApply(spec, s, h, a)) < Measure(s)
  {
    var s' := HandlerApply(spec, s, h, a);
    Q.SumUpdate(s.handlers, HandlerWeight, h, s'.handlers[h]);
    Q.SumUpdate(s.queue.pcs, Q.PcWeight, h, s'.queue.pcs[h]);
  }

  lemma QueueGoesDown(s: State, step: Q.Action<Sent>)
    requires IsWork(Queue(step)) && Q.Enabled(s.queue, step)
    ensures Measure(QueueApply(s, step)) < Measure(s)
  {
    Q.WaitStepGoesDown(s.queue, step);
  }

  lemma WorkGoesDown(spec: Spec, s: State, a: Action)
    requires Inv(spec, s) && Healthy(s) && Fresh(s) && IsWork(a) && Enabled(spec, s, a)
    ensures Measure(Apply(spec, s, a)) < Measure(s)
  {
    match a {
      case Client(c) => ClientGoesDown(spec, s, c);
      case Reader(r) => ReaderGoesDown(spec, s, r);
      case Worker(w) => WorkerGoesDown(s, w);
      case Handler(h, ha) => HandlerGoesDown(spec, s, h, ha);
      case Queue(step) => QueueGoesDown(s, step);
    }
  }

  /** A call that has been refused or could not be written has thrown. */
  predicate Threw(c: Call) {
    c.pc.Refused? || c.pc.WriteFailed?
  }

  /** No call arrives and none throws. */
  predicate SameCallers(calls: seq<Call>, calls': seq<Call>) {
    && |calls'| == |calls|
    && (forall n :: 0 <= n < |calls| ==> calls'[n].req == calls[n].req && (Threw(calls'[n]) ==> Threw(calls[n])))
  }

  lemma ClientStaysHealthy(spec: Spec, s: State, c: ClientAction)
    requires Inv(spec, s) && Healthy(s) && Fresh(s) && IsWork(Client(c)) && ClientEnabled(s, c)
    ensures Healthy(ClientApply(s, c)) && Fresh(ClientApply(s, c)) && SameCallers(s.calls, ClientApply(s, c).calls)
  {
    if c.Register? {
      IdIsFree(s, c.n);
    }
  }

  lemma ReaderStaysHealthy(spec: Spec, s: State, r: ReaderAction)
    requires Inv(spec, s) && Healthy(s) && Fresh(s) && IsWork(Reader(r)) && ReaderEnabled(s, r)
    ensures Healthy(ReaderApply(s, r)) && Fresh(ReaderApply(s, r)) && SameCallers(s.calls, ReaderApply(s, r).calls)
  {
    ReplyIsAwaited(s);
  }

  lemma WorkStaysHealthy(spec: Spec, s: State, a: Action)
    requires Inv(spec, s) && Healthy(s) && Fresh(s) && IsWork(a) && Enabled(spec, s, a)
    ensures var s' := Apply(spec, s, a);
            Healthy(s') && Fresh(s') && SameCallers(s.calls, s'.calls)
  {
    match a {
      case Client(c) => ClientStaysHealthy(spec, s, c);
      case Reader(r) => ReaderStaysHealthy(spec, s, r);
      case Worker(w) =>
      case Handler(h, ha) => HandlerStaysHealthy(spec, s, h, ha);
      case Queue(_) =>
    }
  }

  lemma HandlerStaysHealthy(spec: Spec, s: State, h: nat, a: HandlerAction)
    requires FaithfulRequests(s) && Healthy(s) && Fresh(s) && IsWork(Handler(h, a)) && HandlerEnabled(spec, s, h, a)
    ensures Healthy(HandlerApply(spec, s, h, a)) && Fresh(HandlerApply(spec, s, h, a))
    ensures SameCallers(s.calls, HandlerApply(spec, s, h, a).calls)
  {
    HandlerFrame(spec, s, h, a);
    assert a.HRun? ==> GoodSent(s.calls, s.handlers[h].msg);
  }

  ghost predicate AllWork(acts: seq<Action>) {
    forall i :: 0 <= i < |acts| ==> IsWork(acts[i])
  }

  lemma {:induction false} WorkRun(spec: Spec, s: State, work: seq<Action>)
    requires Inv(spec, s) && Healthy(s) && Fresh(s) && AllWork(work) && Run(spec, s, work).Some?
    ensures var s' := Run(spec, s, work).value;
            && |work| + Measure(s') <= Measure(s)
            && Inv(spec, s') && Healthy(s') && SameCallers(s.calls, s'.calls)
            && |s'.handlers| == |s.handlers|
    decreases work
  {
    if work != [] {
      FreshStep(spec, s, work[0]);
      WorkGoesDown(spec, s, work[0]);
      WorkStaysHealthy(spec, s, work[0]);
      HandlersStep(spec, s, work[0]);
      WorkRun(spec, Apply(spec, s, work[0]), work[1..]);
    }
  }

  /** When no step is left, every call that has not thrown has returned with a reply. */
  lemma NothingLeftToDo(spec: Spec, accepted: Request -> bool, s: State, n: nat)
    requires Inv(spec, s) && Healthy(s) && Responsive(spec, accepted) && AllAccepted(s.calls, accepted) && s.handlers != []
    requires !CanWork(spec, s) && n < |s.calls| && !Threw(s.calls[n])
    ensures s.calls[n].pc.Returned? && GotReply(s.calls[n])
  {
    assert GoodCall(s, n);
    match s.calls[n].pc {
      case Invoked =>
        if s.lock.None? { Works(spec, s, Client(LockAndCheck(n))); }
        else { Works(spec, s, Client(Register(s.lock.value))); }
      case Checked => Works(spec, s, Client(Register(n)));
      case Registered => Works(spec, s, Client(Write(n)));
      case Written =>
        if s.calls[n].outcome.Some? { Works(spec, s, Client(Return(n))); }
        else { WaiterSeesWork(spec, accepted, s, n); }
      case Returned =>
    }
  }

  ghost predicate Answered(s: State, n: nat) {
    && n < |s.calls| && s.calls[n].pc.Returned? && GotReply(s.calls[n])
    && exists i :: ExecutedAs(s, n, i, s.calls[n].outcome.value.reply)
  }

  /** Every call returns. From any reachable state in which both ends are up, let the system take
      its own steps in any order: it takes at most Measure(s) of them, and once none is left every
      call that had not thrown has returned with the reply the handlers made from its own request. */
  lemma EveryCallReturns(spec: Spec, accepted: Request -> bool, handlers: nat, acts: seq<Action>, s: State,
                         work: seq<Action>, s': State)
    requires FreshRun(spec, handlers, acts, s) && Healthy(s) && handlers > 0
    requires Responsive(spec, accepted) && AllAccepted(s.calls, accepted)
    requires AllWork(work) && Run(spec, s, work) == Some(s')
    ensures |work| <= Measure(s) && Inv(spec, s') && SameCallers(s.calls, s'.calls)
    ensures !CanWork(spec, s') ==> forall n :: 0 <= n < |s.calls| && !Threw(s.calls[n]) ==> Answered(s', n)
  {
    FreshRunIsSafe(spec, handlers, acts, s);
    Reached(spec, handlers, acts, s);
    LastIsFresh(spec, Init(handlers), acts);
    HandlersCount(spec, Init(handlers), acts);
    WorkRun(spec, s, work);
    if !CanWork(spec, s') {
      forall n | 0 <= n < |s.calls| && !Threw(s.calls[n])
        ensures Answered(s', n)
      {
        NothingLeftToDo(spec, accepted, s', n);
        ReplyIsOwn(spec, s', n);
      }
    }
  }
}
