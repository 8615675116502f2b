/**
 A stopped Worker whose queue is shut down comes to rest: its reader and its handlers all leave their
 loops, so close() can be waited for.
 */
module RpcRest {
  import opened Codec
  import opened Commands
  import opened Rpc
  import opened RpcInvariant
  import opened RpcTheorems
  import opened RpcProgress
  import opened RpcStop
  import Q = ConcurrentQueue

  /** Steps of the Worker's own threads; the end of a read that fails is one, close() is not. */
  predicate IsWorkerStep(a: Action) {
    match a
    case Worker(w) => !w.WClose?
    case Handler(_, _) => true
    case Queue(step) => Q.IsWaitStep(step)
    case _ => false
  }

  function StopWeight(h: HandlerPc): nat {
    match h
    case HHolding(_) => 3
    case HReplying(_) => 2
    case HTesting => 1
    case HPopping => 1
    case HExited => 0
  }

  function ReaderStopWeight(w: WorkerPc): nat {
    match w
    case WReading => 3
    case WHolding(_) => 2
    case WTesting => 1
    case WExited => 0
  }

  /** How many steps the Worker's threads still have. */
  function StopMeasure(s: State): nat {
    ReaderStopWeight(s.worker) + Q.Sum(s.handlers, StopWeight) + Q.Sum(s.queue.pcs, Q.StepsToThrow)
  }

  /** close() has done its work: the flag is up and the queue's consumers have been told. */
  ghost predicate Closed(s: State) {
    s.stop && s.queue.broadcast && Q.Inv(s.queue) && GoodHandlers(s)
  }

  lemma WorkerReaderGoesDown(s: State, w: WorkerAction)
    requires Closed(s) && WorkerEnabled(s, w) && !w.WClose?
    ensures StopMeasure(WorkerApply(s, w)) < StopMeasure(s)
  {
    if w.WPush? {
      assert w.wake.None?;
    }
  }

  lemma HandlerStopsSoon(spec: Spec, s: State, h: nat, a: HandlerAction)
    requires Closed(s) && HandlerEnabled(spec, s, h, a)
    ensures StopMeasure(HandlerApply(spec, s, h, a)) < StopMeasure(s)
  {
    var s' := HandlerApply(spec, s, h, a);
    Q.SumUpdate(s.handlers, StopWeight, h, s'.handlers[h]);
    Q.SumUpdate(s.queue.pcs, Q.StepsToThrow, h, s'.queue.pcs[h]);
  }

  lemma WaitStepStopsSoon(s: State, step: Q.Action<Sent>)
    requires Closed(s) && Q.IsWaitStep(step) && Q.Enabled(s.queue, step)
    ensures StopMeasure(QueueApply(s, step)) < StopMeasure(s)
  {
    Q.SumUpdate(s.queue.pcs, Q.StepsToThrow, step.c, Q.Apply(s.queue, step).pcs[step.c]);
  }

  /** Each step of its threads brings a closed Worker closer to rest; nothing else takes it away. */
  lemma StepStopsSoon(spec: Spec, s: State, a: Action)
    requires Closed(s) && Enabled(spec, s, a)
    ensures var s' := Apply(spec, s, a);
            if IsWorkerStep(a) then StopMeasure(s') < StopMeasure(s) else StopMeasure(s') == StopMeasure(s)
  {
    match a {
      case Client(c) => ClientLeavesWorker(s, c);
      case Reader(r) => ReaderLeavesWorker(s, r);
      case Worker(w) => if !w.WClose? { WorkerReaderGoesDown(s, w); }
      case Handler(h, ha) => HandlerStopsSoon(spec, s, h, ha);
      case Queue(step) => if Q.IsWaitStep(step) { WaitStepStopsSoon(s, step); } else { NoOneWaits(s, step); }
    }
  }

  lemma ClientLeavesWorker(s: State, c: ClientAction)
    requires ClientEnabled(s, c)
    ensures var s' := ClientApply(s, c);
            s'.worker == s.worker && s'.handlers == s.handlers && s'.queue == s.queue && s'.stop == s.stop
  {
  }

  lemma ReaderLeavesWorker(s: State, r: ReaderAction)
    requires ReaderEnabled(s, r)
    ensures var s' := ReaderApply(s, r);
            s'.worker == s.worker && s'.handlers == s.handlers && s'.queue == s.queue && s'.stop == s.stop
  {
  }

  lemma NoOneWaits(s: State, step: Q.Action<Sent>)
    requires Closed(s) && Internal(step) && !Q.IsWaitStep(step) && Q.Enabled(s.queue, step)
    ensures QueueApply(s, step).queue.pcs == s.queue.pcs
  {
  }

  lemma ClosedStep(spec: Spec, s: State, a: Action)
    requires Closed(s) && Enabled(spec, s, a)
    ensures Closed(Apply(spec, s, a))
  {
    StopStep(spec, s, a);
    match a {
      case Client(c) => ClientLeavesWorker(s, c);
      case Reader(r) => ReaderLeavesWorker(s, r);
      case Worker(w) => if w.WPush? { Q.StepKeepsInv(s.queue, Q.Push(s.worker.msg, w.wake)); }
      case Handler(h, ha) => HandlerPops(spec, s, h, ha);
      case Queue(step) => Q.StepKeepsInv(s.queue, step);
    }
  }

  function WorkerSteps(acts: seq<Action>): nat {
    if acts == [] then 0 else (if IsWorkerStep(acts[0]) then 1 else 0) + WorkerSteps(acts[1..])
  }

  lemma {:induction false} ClosedRun(spec: Spec, s: State, acts: seq<Action>)
    requires Closed(s) && Run(spec, s, acts).Some?
    ensures var s' := Run(spec, s, acts).value;
            Closed(s') && WorkerSteps(acts) + StopMeasure(s') <= StopMeasure(s)
    decreases acts
  {
    if acts != [] {
      StepStopsSoon(spec, s, acts[0]);
      ClosedStep(spec, s, acts[0]);
      ClosedRun(spec, Apply(spec, s, acts[0]), acts[1..]);
    }
  }

  ghost predicate WorkerCanStep(spec: Spec, s: State) {
    exists a :: IsWorkerStep(a) && Enabled(spec, s, a)
  }

  lemma StepsOn(spec: Spec, s: State, a: Action)
    requires IsWorkerStep(a) && Enabled(spec, s, a)
    ensures WorkerCanStep(spec, s)
  {
  }

  predicate AtRest(s: State) {
    s.worker.WExited? && forall h :: 0 <= h < |s.handlers| ==> s.handlers[h].HExited?
  }

  lemma QueueHolderSteps(spec: Spec, s: State)
    requires Closed(s) && s.queue.mutex.Some?
    ensures WorkerCanStep(spec, s)
  {
    var c := s.queue.mutex.value;
    if s.queue.pcs[c].Checking? {
      StepsOn(spec, s, Queue(Q.Test(c)));
    } else {
      StepsOn(spec, s, Handler(c, HThrow));
    }
  }

  lemma ReaderSteps(spec: Spec, s: State)
    requires Closed(s) && !s.worker.WExited?
    ensures WorkerCanStep(spec, s)
  {
    match s.worker {
      case WTesting => StepsOn(spec, s, Worker(WTest));
      case WReading => StepsOn(spec, s, Worker(WReadFail));
      case WHolding(_) =>
        if s.queue.mutex.Some? { QueueHolderSteps(spec, s); }
        else { StepsOn(spec, s, Worker(WPush(None))); }
    }
  }

  lemma HandlerSteps(spec: Spec, accepted: Request -> bool, s: State, h: nat)
    requires Inv(spec, s) && Closed(s) && Responsive(spec, accepted) && AllAccepted(s.calls, accepted)
    requires h < |s.handlers| && !s.handlers[h].HExited?
    ensures WorkerCanStep(spec, s)
  {
    match s.handlers[h] {
      case HTesting => StepsOn(spec, s, Handler(h, HTest));
      case HReplying(_) => StepsOn(spec, s, Handler(h, HSend));
      case HHolding(m) =>
        LogIsLegal(spec, s);
        assert GoodSent(s.calls, m);
        assert Answers(spec, Trace(s.log), m.req);
        var reply :| spec(Trace(s.log), m.req, reply);
        StepsOn(spec, s, Handler(h, HRun(reply)));
      case HPopping =>
        if s.queue.mutex.Some? { QueueHolderSteps(spec, s); }
        else {
          assert s.queue.pcs[h].Entering? || s.queue.pcs[h].Woken?;
          StepsOn(spec, s, Queue(Q.Acquire(h)));
        }
    }
  }

  /** close() comes to an end. Once the flag is up and the queue has notified, the Worker's threads
      take a bounded number of steps, whatever callers, the network and each other do in between, and
      when none of them can step any more the reader and every handler have left their loops. */
  lemma WorkerComesToRest(spec: Spec, accepted: Request -> bool, handlers: nat, acts: seq<Action>, s: State,
                          later: seq<Action>, s': State)
    requires SafeRun(spec, handlers, acts, s) && s.stop && s.queue.broadcast
    requires NoOverwrite(spec, s, later) && Run(spec, s, later) == Some(s')
    requires Responsive(spec, accepted) && AllAccepted(s'.calls, accepted)
    ensures WorkerSteps(later) <= StopMeasure(s)
    ensures !WorkerCanStep(spec, s') ==> AtRest(s')
  {
    Reached(spec, handlers, acts, s);
    RunKeepsInv(spec, s, later);
    ClosedRun(spec, s, later);
    if !WorkerCanStep(spec, s') {
      if !s'.worker.WExited? {
        ReaderSteps(spec, s');
      }
      forall h | 0 <= h < |s'.handlers| ensures s'.handlers[h].HExited? {
        if !s'.handlers[h].HExited? {
          HandlerSteps(spec, accepted, s', h);
        }
      }
    }
  }
}
