/**
 The whole RPC system as one step system: any number of threads calling Commander methods, the
 Commander's reader thread, both channels, and the Worker's reader, message queue and handler
 threads. Each lock region or atomic access is a step; steps interleave arbitrarily.
 The channels carry whole messages (see Wire.dfy) and the queue is ConcurrentQueue.State.
 */
module Rpc {
  import opened Codec
  import opened Commands
  import Q = ConcurrentQueue

  // `tag` is the number of the call a message stems from. It is history: no step looks at it.
  datatype Sent = Sent(id: uint32, tag: nat, req: Request)
  datatype SentReply = SentReply(id: uint32, tag: nat, reply: Reply)

  // Invoked: id drawn. Checked: holds _promises_mx, has seen _connected. Registered: promise in
  // the map. Written: blocked in future.get(). Refused and WriteFailed threw.
  datatype CallPc = Invoked | Checked | Refused | Registered | Written | WriteFailed | Returned

  // What a promise was given. A reply whose type is not CommandResult reaches the caller as the
  // exception built from it. Broken: the promise was overwritten in the map.
  datatype Outcome = Got(reply: Reply) | Drained | Broken

  datatype Call = Call(req: Request, pc: CallPc, outcome: Option<Outcome>, settled: nat,
                       invokedAt: nat, returnedAt: nat)

  datatype ReaderPc = RTesting | RReading | RHolding(answer: SentReply) | RFailing | RDraining | RExited
  datatype WorkerPc = WTesting | WReading | WHolding(msg: Sent) | WExited
  datatype HandlerPc = HTesting | HPopping | HHolding(msg: Sent) | HReplying(answer: SentReply) | HExited

  datatype Exec = Exec(tag: nat, req: Request, reply: Reply, at: nat)

  datatype State = State(
    // Commander
    connected: bool,
    lock: Option<nat>,              // the caller holding _promises_mx between steps
    calls: seq<Call>,               // call n drew command id n modulo 2^32
    pending: map<uint32, nat>,      // _responses_promises, to call numbers
    reader: ReaderPc,
    // channels
    requests: seq<Sent>,
    replies: seq<SentReply>,
    // Worker
    stop: bool,
    worker: WorkerPc,
    queue: Q.State<Sent>,
    handlers: seq<HandlerPc>,
    // history
    clock: nat,
    log: seq<Exec>,                 // handler runs, in order
    drained: bool,                  // the reader's catch block has run to its end
    disconnected: bool,             // a disconnect() call has cleared _connected
    resolved: multiset<nat>,        // calls whose reply has been delivered
    lost: multiset<nat>)            // calls whose reply was thrown away by a failure

  datatype ClientAction =
    | Invoke(req: Request)
    | LockAndCheck(n: nat)
    | Register(n: nat)
    | Write(n: nat)
    | WriteFail(n: nat)
    | Return(n: nat)
    | ClearConnected(n: nat)        // the end of disconnect()

  datatype ReaderAction = Test | Read | Fail | Deliver | Clear | Drain

  datatype WorkerAction = WTest | WRead | WReadFail | WPush(wake: Option<nat>) | WClose

  datatype HandlerAction = HTest | HTake | HThrow | HRun(reply: Reply) | HSend | HSendFail

  datatype Action =
    | Client(c: ClientAction)
    | Reader(r: ReaderAction)
    | Worker(w: WorkerAction)
    | Handler(h: nat, ha: HandlerAction)
    | Queue(step: Q.Action<Sent>)   // steps inside pop() and shutdown()

  // What a handler may answer, given everything run before it: any sequential object, possibly
  // nondeterministic.
  type Spec = (seq<(Request, Reply)>, Request, Reply) -> bool

  function Init(handlers: nat): State {
    State(true, None, [], map[], RTesting, [], [], false, WTesting, Q.Init(handlers),
          seq(handlers, _ => HTesting), 0, [], false, false, multiset{}, multiset{})
  }

  predicate CallAt(s: State, n: nat, pc: CallPc) {
    n < |s.calls| && s.calls[n].pc == pc
  }

  predicate Internal(a: Q.Action<Sent>) {
    a.Acquire? || a.Test? || a.Sleep? || a.Spurious? || a.ShutdownRead? || a.ShutdownSet? || a.ShutdownNotify?
  }

  function Trace(log: seq<Exec>): seq<(Request, Reply)> {
    seq(|log|, i requires 0 <= i < |log| => (log[i].req, log[i].reply))
  }

  predicate ClientEnabled(s: State, c: ClientAction) {
    match c
    case Invoke(_) => true
    case LockAndCheck(n) => CallAt(s, n, Invoked) && s.lock.None?
    case Register(n) => CallAt(s, n, Checked)
    case Write(n) => CallAt(s, n, Registered)
    case WriteFail(n) => CallAt(s, n, Registered)
    case Return(n) => CallAt(s, n, Written) && s.calls[n].outcome.Some?
    case ClearConnected(n) =>
      && n < |s.calls| && s.calls[n].req.typ == DISCONNECT
      && (s.calls[n].pc.Returned? || s.calls[n].pc.Refused? || s.calls[n].pc.WriteFailed?)
  }

  predicate ReaderEnabled(s: State, r: ReaderAction) {
    match r
    case Test => s.reader.RTesting?
    case Read => s.reader.RReading? && s.replies != []
    case Fail => s.reader.RReading?
    case Deliver => s.reader.RHolding? && s.lock.None?
    case Clear => s.reader.RFailing?
    case Drain => s.reader.RDraining? && s.lock.None?
  }

  predicate WorkerEnabled(s: State, w: WorkerAction) {
    match w
    case WTest => s.worker.WTesting?
    case WRead => s.worker.WReading? && s.requests != []
    case WReadFail => s.worker.WReading?
    case WPush(wake) => s.worker.WHolding? && Q.Enabled(s.queue, Q.Push(s.worker.msg, wake))
    case WClose => true
  }

  predicate HandlerEnabled(spec: Spec, s: State, h: nat, a: HandlerAction) {
    h < |s.handlers| &&
    match a
    case HTest => s.handlers[h].HTesting? && (s.stop || Q.Enabled(s.queue, Q.Enter(h)))
    case HTake => s.handlers[h].HPopping? && Q.Enabled(s.queue, Q.Take(h)) && s.queue.items != []
    case HThrow => s.handlers[h].HPopping? && Q.Enabled(s.queue, Q.Throw(h))
    case HRun(reply) => s.handlers[h].HHolding? && spec(Trace(s.log), s.handlers[h].msg.req, reply)
    case HSend => s.handlers[h].HReplying?
    case HSendFail => s.handlers[h].HReplying?
  }

  predicate Enabled(spec: Spec, s: State, a: Action) {
    match a
    case Client(c) => ClientEnabled(s, c)
    case Reader(r) => ReaderEnabled(s, r)
    case Worker(w) => WorkerEnabled(s, w)
    case Handler(h, ha) => HandlerEnabled(spec, s, h, ha)
    case Queue(step) => Internal(step) && Q.Enabled(s.queue, step)
  }

  function IdOf(n: nat): uint32 {
    n % LIMIT
  }

  function Settle(c: Call, o: Outcome): Call {
    c.(outcome := Some(o), settled := c.settled + 1)
  }

  function SetPc(s: State, n: nat, pc: CallPc): State
    requires n < |s.calls|
  {
    s.(calls := s.calls[n := s.calls[n].(pc := pc)])
  }

  predicate IsPending(pending: map<uint32, nat>, n: nat) {
    IdOf(n) in pending && pending[IdOf(n)] == n
  }

  /** The drain loop: every promise still in the map gets the exception. */
  function DrainAll(calls: seq<Call>, pending: map<uint32, nat>): (r: seq<Call>)
    ensures |r| == |calls|
    ensures forall n :: 0 <= n < |calls| ==> r[n] == (if IsPending(pending, n) then Settle(calls[n], Drained) else calls[n])
  {
    seq(|calls|, n requires 0 <= n < |calls| => if IsPending(pending, n) then Settle(calls[n], Drained) else calls[n])
  }

  /** Assignment into the map: a promise already stored under the id is destroyed. */
  function Overwrite(s: State, n: nat): seq<Call>
  {
    if IdOf(n) in s.pending && s.pending[IdOf(n)] < |s.calls| && s.calls[s.pending[IdOf(n)]].outcome.None?
    then s.calls[s.pending[IdOf(n)] := Settle(s.calls[s.pending[IdOf(n)]], Broken)]
    else s.calls
  }

  function Tick(s: State): State {
    s.(clock := s.clock + 1)
  }

  function ClientApply(s: State, c: ClientAction): State
    requires ClientEnabled(s, c)
  {
    Tick(
      match c
      case Invoke(req) => s.(calls := s.calls + [Call(req, Invoked, None, 0, s.clock, 0)])
      case LockAndCheck(n) => if s.connected then SetPc(s, n, Checked).(lock := Some(n)) else SetPc(s, n, Refused)
      case Register(n) =>
        SetPc(s.(calls := Overwrite(s, n)), n, Registered).(lock := None, pending := s.pending[IdOf(n) := n])
      case Write(n) => SetPc(s, n, Written).(requests := s.requests + [Sent(IdOf(n), n, s.calls[n].req)])
      case WriteFail(n) => SetPc(s, n, WriteFailed)
      case Return(n) => s.(calls := s.calls[n := s.calls[n].(pc := Returned, returnedAt := s.clock)])
      case ClearConnected(n) => s.(connected := false, disconnected := true)
    )
  }

  function ReaderApply(s: State, r: ReaderAction): State
    requires ReaderEnabled(s, r)
  {
    Tick(
      match r
      case Test => s.(reader := if s.connected then RReading else RExited)
      case Read => s.(reader := RHolding(s.replies[0]), replies := s.replies[1..])
      case Fail => s.(reader := RFailing)
      case Deliver =>
        var m := s.reader.answer;
        if m.id in s.pending && s.pending[m.id] < |s.calls| then
          var n := s.pending[m.id];
          s.(calls := s.calls[n := Settle(s.calls[n], Got(m.reply))], pending := s.pending - {m.id},
             reader := RTesting, resolved := s.resolved + multiset{m.tag})
        else s.(reader := RFailing, lost := s.lost + multiset{m.tag})
      case Clear => s.(connected := false, reader := RDraining)
      case Drain => s.(calls := DrainAll(s.calls, s.pending), drained := true, reader := RTesting)
    )
  }

  function WorkerApply(s: State, w: WorkerAction): State
    requires WorkerEnabled(s, w)
  {
    Tick(
      match w
      case WTest => s.(worker := if s.stop then WExited else WReading)
      case WRead => s.(worker := WHolding(s.requests[0]), requests := s.requests[1..])
      case WReadFail => s.(worker := WTesting, stop := true)
      case WPush(wake) => s.(queue := Q.Apply(s.queue, Q.Push(s.worker.msg, wake)), worker := WTesting)
      case WClose => s.(stop := true)
    )
  }

  function HandlerApply(spec: Spec, s: State, h: nat, a: HandlerAction): State
    requires HandlerEnabled(spec, s, h, a)
  {
    Tick(
      match a
      case HTest =>
        if s.stop then s.(handlers := s.handlers[h := HExited])
        else s.(handlers := s.handlers[h := HPopping], queue := Q.Apply(s.queue, Q.Enter(h)))
      case HTake => s.(handlers := s.handlers[h := HHolding(s.queue.items[0])], queue := Q.Apply(s.queue, Q.Take(h)))
      case HThrow => s.(handlers := s.handlers[h := HTesting], queue := Q.Apply(s.queue, Q.Throw(h)), stop := true)
      case HRun(reply) =>
        var m := s.handlers[h].msg;
        s.(handlers := s.handlers[h := HReplying(SentReply(m.id, m.tag, reply))],
           log := s.log + [Exec(m.tag, m.req, reply, s.clock)],
           stop := s.stop || m.req.typ == DISCONNECT)
      case HSend => s.(handlers := s.handlers[h := HTesting], replies := s.replies + [s.handlers[h].answer])
      case HSendFail =>
        s.(handlers := s.handlers[h := HTesting], stop := true, lost := s.lost + multiset{s.handlers[h].answer.tag})
    )
  }

  function QueueApply(s: State, step: Q.Action<Sent>): State
    requires Internal(step) && Q.Enabled(s.queue, step)
  {
    Tick(s.(queue := Q.Apply(s.queue, step)))
  }

  function Apply(spec: Spec, s: State, a: Action): State
    requires Enabled(spec, s, a)
  {
    match a
    case Client(c) => ClientApply(s, c)
    case Reader(r) => ReaderApply(s, r)
    case Worker(w) => WorkerApply(s, w)
    case Handler(h, ha) => HandlerApply(spec, s, h, ha)
    case Queue(step) => QueueApply(s, step)
  }

  function Run(spec: Spec, s: State, acts: seq<Action>): Option<State>
    decreases acts
  {
    if acts == [] then Some(s)
    else if Enabled(spec, s, acts[0]) then Run(spec, Apply(spec, s, acts[0]), acts[1..])
    else None
  }

  /** Assumption on the environment: a call that is pending, or on its way to be, is overtaken by
      fewer than 2^32 later id allocations. */
  predicate Fresh(s: State) {
    && (forall id :: id in s.pending ==> |s.calls| <= s.pending[id] + LIMIT)
    && (forall n :: 0 <= n < |s.calls| && (s.calls[n].pc.Invoked? || s.calls[n].pc.Checked?) ==> |s.calls| <= n + LIMIT)
  }

  predicate FreshAlong(spec: Spec, s: State, acts: seq<Action>)
    decreases acts
  {
    Fresh(s) && (acts != [] && Enabled(spec, s, acts[0]) ==> FreshAlong(spec, Apply(spec, s, acts[0]), acts[1..]))
  }
}
