/**
 base/ThreadPool over the step system of its queue: threads that pop a task, run it and pop again.
 The Worker's message handlers are such tasks, and none of them ends before the Worker stops.
 */
module ThreadPoolModel {
  import opened Codec
  import Q = ConcurrentQueue

  // Ready: about to call pop(). Left: pop() has thrown QueueShutdown.
  datatype Thread = Ready | Popping | Running(task: nat) | Left

  datatype State = State(
    queue: Q.State<nat>,
    threads: seq<Thread>,
    finished: multiset<nat>)  // history: the tasks that have ended

  datatype Action =
    | Submit(task: nat, wake: Option<nat>)
    | Call(i: nat)
    | Inside(step: Q.Action<nat>)     // steps inside pop() and shutdown()
    | Start(i: nat)
    | Leave(i: nat)
    | Finish(i: nat)

  function Init(size: nat): State {
    State(Q.Init(size), seq(size, _ => Ready), multiset{})
  }

  predicate At(s: State, i: nat, t: Thread) {
    i < |s.threads| && s.threads[i] == t
  }

  predicate Internal(a: Q.Action<nat>) {
    Q.IsWaitStep(a) || a.Spurious? || a.ShutdownRead? || a.ShutdownSet? || a.ShutdownNotify?
  }

  predicate Enabled(s: State, a: Action) {
    match a
    case Submit(task, wake) => Q.Enabled(s.queue, Q.Push(task, wake))
    case Call(i) => At(s, i, Ready) && Q.Enabled(s.queue, Q.Enter(i))
    case Inside(step) => Internal(step) && Q.Enabled(s.queue, step)
    case Start(i) => At(s, i, Popping) && Q.Enabled(s.queue, Q.Take(i)) && s.queue.items != []
    case Leave(i) => At(s, i, Popping) && Q.Enabled(s.queue, Q.Throw(i))
    case Finish(i) => i < |s.threads| && s.threads[i].Running?
  }

  function Apply(s: State, a: Action): State
    requires Enabled(s, a)
  {
    match a
    case Submit(task, wake) => s.(queue := Q.Apply(s.queue, Q.Push(task, wake)))
    case Call(i) => s.(queue := Q.Apply(s.queue, Q.Enter(i)), threads := s.threads[i := Popping])
    case Inside(step) => s.(queue := Q.Apply(s.queue, step))
    case Start(i) => s.(queue := Q.Apply(s.queue, Q.Take(i)), threads := s.threads[i := Running(s.queue.items[0])])
    case Leave(i) => s.(queue := Q.Apply(s.queue, Q.Throw(i)), threads := s.threads[i := Left])
    case Finish(i) => s.(threads := s.threads[i := Ready], finished := s.finished + multiset{s.threads[i].task})
  }

  function Run(s: State, acts: seq<Action>): Option<State>
    decreases acts
  {
    if acts == [] then Some(s)
    else if Enabled(s, acts[0]) then Run(Apply(s, acts[0]), acts[1..])
    else None
  }

  function IsRunning(t: Thread): nat {
    if t.Running? then 1 else 0
  }

  function IsBusyWith(t: Thread, task: nat): nat {
    if t == Running(task) then 1 else 0
  }

  /** How many threads are busy with `task`. */
  function BusyWith(ts: seq<Thread>, task: nat): nat {
    if ts == [] then 0 else IsBusyWith(ts[0], task) + BusyWith(ts[1..], task)
  }

  lemma {:induction false} BusyUpdate(ts: seq<Thread>, i: nat, t: Thread, task: nat)
    requires i < |ts|
    ensures BusyWith(ts[i := t], task) + IsBusyWith(ts[i], task) == BusyWith(ts, task) + IsBusyWith(t, task)
  {
    if i == 0 {
      assert ts[i := t][1..] == ts[1..];
    } else {
      BusyUpdate(ts[1..], i - 1, t, task);
      assert ts[i := t][1..] == ts[1..][i - 1 := t];
    }
  }

  /** What has been taken is running or has ended. */
  ghost predicate Placed(s: State, task: nat) {
    multiset(s.queue.popped)[task] == BusyWith(s.threads, task) + s.finished[task]
  }

  ghost predicate Inv(s: State) {
    && Q.Inv(s.queue)
    && |s.threads| == |s.queue.pcs|
    && (forall i :: 0 <= i < |s.threads| ==> (s.threads[i].Popping? <==> !s.queue.pcs[i].Idle?))
    && (forall i :: 0 <= i < |s.threads| && s.threads[i].Left? ==> s.queue.flag)
    && (forall task: nat :: Placed(s, task))
    && |s.queue.popped| == Q.Sum(s.threads, IsRunning) + |s.finished|
  }

  lemma {:induction false} NobodyRuns(ts: seq<Thread>)
    requires forall i :: 0 <= i < |ts| ==> ts[i].Ready?
    ensures Q.Sum(ts, IsRunning) == 0 && forall task: nat :: BusyWith(ts, task) == 0
  {
    if ts != [] {
      NobodyRuns(ts[1..]);
    }
  }

  lemma InitInv(size: nat)
    ensures Inv(Init(size))
  {
    Q.InitInv<nat>(size);
    NobodyRuns(Init(size).threads);
  }

  lemma QueueKeepsInv(s: State, a: Action)
    requires Inv(s) && Enabled(s, a)
    ensures Q.Inv(Apply(s, a).queue) && |Apply(s, a).queue.pcs| == |s.queue.pcs|
  {
    match a {
      case Submit(task, wake) => Q.StepKeepsInv(s.queue, Q.Push(task, wake));
      case Call(i) => Q.StepKeepsInv(s.queue, Q.Enter(i));
      case Inside(step) => Q.StepKeepsInv(s.queue, step);
      case Start(i) => Q.StepKeepsInv(s.queue, Q.Take(i));
      case Leave(i) => Q.StepKeepsInv(s.queue, Q.Throw(i));
      case Finish(_) =>
    }
  }

  lemma StepKeepsInv(s: State, a: Action)
    requires Inv(s) && Enabled(s, a)
    ensures Inv(Apply(s, a)) && |Apply(s, a).threads| == |s.threads|
  {
    QueueKeepsInv(s, a);
    ThreadsStep(s, a);
    CountStep(s, a);
    forall task: nat ensures Placed(Apply(s, a), task) { PlacedStep(s, a, task); }
  }

  lemma ThreadsStep(s: State, a: Action)
    requires Inv(s) && Enabled(s, a)
    ensures var s' := Apply(s, a);
            && |s'.threads| == |s.threads| == |s'.queue.pcs|
            && (forall i :: 0 <= i < |s'.threads| ==> (s'.threads[i].Popping? <==> !s'.queue.pcs[i].Idle?))
            && (forall i :: 0 <= i < |s'.threads| && s'.threads[i].Left? ==> s'.queue.flag)
  {
  }

  lemma CountStep(s: State, a: Action)
    requires Inv(s) && Enabled(s, a)
    ensures var s' := Apply(s, a);
            |s'.queue.popped| == Q.Sum(s'.threads, IsRunning) + |s'.finished|
  {
    if a.Call? || a.Start? || a.Leave? || a.Finish? {
      Q.SumUpdate(s.threads, IsRunning, a.i, Apply(s, a).threads[a.i]);
    }
  }

  lemma PlacedStart(s: State, i: nat, task: nat)
    requires Placed(s, task) && Enabled(s, Start(i))
    ensures Placed(Apply(s, Start(i)), task)
  {
    BusyUpdate(s.threads, i, Running(s.queue.items[0]), task);
    var popped := Apply(s, Start(i)).queue.popped;
    assert multiset(popped) == multiset(s.queue.popped) + multiset{s.queue.items[0]};
  }

  lemma PlacedFinish(s: State, i: nat, task: nat)
    requires Placed(s, task) && Enabled(s, Finish(i))
    ensures Placed(Apply(s, Finish(i)), task)
  {
    BusyUpdate(s.threads, i, Ready, task);
  }

  lemma PlacedStep(s: State, a: Action, task: nat)
    requires Placed(s, task) && Enabled(s, a)
    ensures Placed(Apply(s, a), task)
  {
    match a {
      case Start(i) => PlacedStart(s, i, task);
      case Finish(i) => PlacedFinish(s, i, task);
      case Call(i) => BusyUpdate(s.threads, i, Popping, task);
      case Leave(i) => BusyUpdate(s.threads, i, Left, task);
      case Submit(_, _) =>
      case Inside(_) =>
    }
  }

  lemma {:induction false} RunKeepsInv(s: State, acts: seq<Action>)
    requires Inv(s) && Run(s, acts).Some?
    ensures Inv(Run(s, acts).value) && |Run(s, acts).value.threads| == |s.threads|
    decreases acts
  {
    if acts != [] {
      StepKeepsInv(s, acts[0]);
      RunKeepsInv(Apply(s, acts[0]), acts[1..]);
    }
  }

  /** Each task submitted is queued, running in one thread, or finished, as often as it was
      submitted; tasks start in the order they were submitted. */
  lemma TasksAreConserved(size: nat, acts: seq<Action>, s: State)
    requires Run(Init(size), acts) == Some(s)
    ensures forall task: nat ::
              multiset(s.queue.pushed)[task]
              == multiset(s.queue.items)[task] + BusyWith(s.threads, task) + s.finished[task]
    ensures s.queue.pushed == s.queue.popped + s.queue.items
  {
    InitInv(size);
    RunKeepsInv(Init(size), acts);
    forall task: nat
      ensures multiset(s.queue.pushed)[task]
              == multiset(s.queue.items)[task] + BusyWith(s.threads, task) + s.finished[task]
    {
      assert Placed(s, task);
      assert multiset(s.queue.pushed) == multiset(s.queue.popped) + multiset(s.queue.items);
    }
  }

  // ---------- Every handler starts ----------

  /** What the pool does by itself to start a task: no submission, no shutdown, no end of a task. */
  predicate IsPoolStep(a: Action) {
    a.Call? || a.Start? || (a.Inside? && Q.IsWaitStep(a.step))
  }

  ghost predicate CanStep(s: State) {
    exists a :: IsPoolStep(a) && Enabled(s, a)
  }

  lemma Steps(s: State, a: Action)
    requires IsPoolStep(a) && Enabled(s, a)
    ensures CanStep(s)
  {
  }

  lemma {:induction false} FreeThread(ts: seq<Thread>) returns (i: nat)
    requires Q.Sum(ts, IsRunning) < |ts|
    ensures i < |ts| && !ts[i].Running?
  {
    i := 0;
    if ts[0].Running? {
      var j := FreeThread(ts[1..]);
      i := j + 1;
    }
  }

  /** A queued task moves as long as some thread is not busy. */
  lemma QueuedTaskMoves(s: State)
    requires Inv(s) && !s.queue.flag && s.queue.items != []
    requires Q.Sum(s.threads, IsRunning) < |s.threads|
    ensures CanStep(s)
  {
    var q := s.queue;
    if q.mutex.Some? {
      var c := q.mutex.value;
      match q.pcs[c] {
        case Checking => Steps(s, Inside(Q.Test(c)));
        case GoingToSleep => Steps(s, Inside(Q.Sleep(c)));
        case Passed => Steps(s, Start(c));
      }
    } else if Q.SomeoneAsleep(q.pcs) {
      Q.AwakeExists(q.pcs);
      var c :| 0 <= c < |q.pcs| && Q.IsAwake(q.pcs[c]);
      Steps(s, Inside(Q.Acquire(c)));
    } else {
      var i := FreeThread(s.threads);
      if s.threads[i].Ready? {
        Steps(s, Call(i));
      } else {
        assert q.pcs[i] != Q.Asleep;
        Steps(s, Inside(Q.Acquire(i)));
      }
    }
  }

  function ThreadWeight(t: Thread): nat {
    if t.Ready? then 5 else 0
  }

  function Measure(s: State): nat {
    Q.Sum(s.threads, ThreadWeight) + Q.Sum(s.queue.pcs, Q.PcWeight)
  }

  lemma PoolStepGoesDown(s: State, a: Action)
    requires Inv(s) && IsPoolStep(a) && Enabled(s, a)
    ensures Measure(Apply(s, a)) < Measure(s)
    ensures Apply(s, a).queue.pushed == s.queue.pushed && Apply(s, a).queue.flag == s.queue.flag
  {
    if a.Inside? {
      Q.WaitStepGoesDown(s.queue, a.step);
    } else {
      Q.SumUpdate(s.threads, ThreadWeight, a.i, Apply(s, a).threads[a.i]);
      Q.SumUpdate(s.queue.pcs, Q.PcWeight, a.i, Apply(s, a).queue.pcs[a.i]);
    }
  }

  ghost predicate AllPoolSteps(acts: seq<Action>) {
    forall i :: 0 <= i < |acts| ==> IsPoolStep(acts[i])
  }

  lemma {:induction false} PoolRun(s: State, acts: seq<Action>)
    requires Inv(s) && AllPoolSteps(acts) && Run(s, acts).Some?
    ensures var s' := Run(s, acts).value;
            && Inv(s') && |acts| + Measure(s') <= Measure(s) && |s'.threads| == |s.threads|
            && s'.queue.pushed == s.queue.pushed && s'.queue.flag == s.queue.flag
    decreases acts
  {
    if acts != [] {
      StepKeepsInv(s, acts[0]);
      PoolStepGoesDown(s, acts[0]);
      PoolRun(Apply(s, acts[0]), acts[1..]);
    }
  }

  /** With at most as many tasks submitted as there are threads (the Worker submits max(1, n - 1) to
      a pool of n) every task is started even if none of them ever ends: from any reachable state the pool takes a
      bounded number of its own steps, in any order, and stops only when nothing is queued. */
  lemma EveryHandlerStarts(size: nat, acts: seq<Action>, s: State, own: seq<Action>, s': State)
    requires Run(Init(size), acts) == Some(s) && !s.queue.flag && |s.queue.pushed| <= size
    requires AllPoolSteps(own) && Run(s, own) == Some(s')
    ensures |own| <= Measure(s)
    ensures !CanStep(s') ==> s'.queue.items == [] && s'.queue.popped == s.queue.pushed
  {
    InitInv(size);
    RunKeepsInv(Init(size), acts);
    PoolRun(s, own);
    if !CanStep(s') {
      if s'.queue.items != [] {
        assert |s'.queue.popped| < |s'.queue.pushed|;
        QueuedTaskMoves(s');
      }
      assert s'.queue.popped + [] == s'.queue.popped;
    }
  }
}
