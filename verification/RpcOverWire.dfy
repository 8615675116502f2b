/**
 The RPC system over its real channels: two byte streams with write locks, chunked delivery and a
 reader that fills its buffers piece by piece. Every run of it is a run of the system of Rpc.dfy,
 in which the channels carry whole messages, so what is proved there holds here.
 */
module RpcOverWire {
  import opened Codec
  import opened Commands
  import opened Messages
  import opened Rpc
  import opened RpcInvariant
  import opened RpcTheorems
  import W = Wire

  // The lists `requests` and `replies` inside `rpc` are history here: steps take from them only the
  // tags, which are history themselves. What is received comes from the bytes.
  datatype Net = Net(rpc: State, up: W.State, down: W.State)

  datatype Step =
    | Local(a: Action)       // any step that touches no channel
    | StartRequest(n: nat)   // a caller takes the write lock and hands its frame over
    | StartReply(h: nat)
    | Up(w: W.Action)        // bytes moving towards the Worker
    | Down(w: W.Action)
    | EndRequest             // the Worker's read() returns
    | EndReply

  function Begin(handlers: nat): Net {
    Net(Init(handlers), W.Init(), W.Init())
  }

  predicate TouchesNoChannel(a: Action) {
    match a
    case Client(c) => !c.Write?
    case Reader(r) => !r.Read?
    case Worker(w) => !w.WRead?
    case Handler(_, ha) => !ha.HSend?
    case Queue(_) => true
  }

  /** Byte steps: the kernel and the end of a write, always; the reader's own only inside read(). */
  predicate MovesBytes(w: W.Action, reading: bool) {
    w.Send? || w.Unlock? || (reading && (w.Recv? || w.HeaderFull?))
  }

  predicate StepEnabled(spec: Spec, s: Net, a: Step) {
    match a
    case Local(l) => TouchesNoChannel(l) && Enabled(spec, s.rpc, l)
    case StartRequest(n) =>
      ClientEnabled(s.rpc, Write(n)) && s.up.lock.None? && |s.rpc.calls[n].req.data| < LIMIT
    case StartReply(h) =>
      HandlerEnabled(spec, s.rpc, h, HSend) && s.down.lock.None? && |s.rpc.handlers[h].answer.reply.data| < LIMIT
    case Up(w) => MovesBytes(w, s.rpc.worker.WReading?) && W.Enabled(s.up, w)
    case Down(w) => MovesBytes(w, s.rpc.reader.RReading?) && W.Enabled(s.down, w)
    case EndRequest => s.rpc.worker.WReading? && W.Enabled(s.up, W.BodyFull)
    case EndReply => s.rpc.reader.RReading? && W.Enabled(s.down, W.BodyFull)
  }

  /** The message whose last byte has arrived. */
  function Arrived(w: W.State): Message
    requires W.Enabled(w, W.BodyFull)
  {
    Message(w.phase.id, w.phase.typ, w.buffer)
  }

  function TagOf(ms: seq<Sent>): nat {
    if ms == [] then 0 else ms[0].tag
  }

  function ReplyTagOf(ms: seq<SentReply>): nat {
    if ms == [] then 0 else ms[0].tag
  }

  function StepApply(spec: Spec, s: Net, a: Step): Net
    requires StepEnabled(spec, s, a)
  {
    match a
    case Local(l) => s.(rpc := Apply(spec, s.rpc, l))
    case StartRequest(n) =>
      var req := s.rpc.calls[n].req;
      s.(rpc := ClientApply(s.rpc, Write(n)), up := W.Apply(s.up, W.Lock(Message(IdOf(n), req.typ, req.data))))
    case StartReply(h) =>
      var answer := s.rpc.handlers[h].answer;
      s.(rpc := HandlerApply(spec, s.rpc, h, HSend),
         down := W.Apply(s.down, W.Lock(Message(answer.id, answer.reply.typ, answer.reply.data))))
    case Up(w) => s.(up := W.Apply(s.up, w))
    case Down(w) => s.(down := W.Apply(s.down, w))
    case EndRequest =>
      var m := Arrived(s.up);
      s.(up := W.Apply(s.up, W.BodyFull),
         rpc := Tick(s.rpc.(worker := WHolding(Sent(m.id, TagOf(s.rpc.requests), Request(m.typ, m.data))),
                            requests := if s.rpc.requests == [] then [] else s.rpc.requests[1..])))
    case EndReply =>
      var m := Arrived(s.down);
      s.(down := W.Apply(s.down, W.BodyFull),
         rpc := Tick(s.rpc.(reader := RHolding(SentReply(m.id, ReplyTagOf(s.rpc.replies), Reply(m.typ, m.data))),
                            replies := if s.rpc.replies == [] then [] else s.rpc.replies[1..])))
  }

  // ---------- The coupling ----------

  predicate SameRequest(m: Message, r: Sent) {
    m.id == r.id && m.typ == r.req.typ && m.data == r.req.data
  }

  predicate SameReply(m: Message, r: SentReply) {
    m.id == r.id && m.typ == r.reply.typ && m.data == r.reply.data
  }

  /** The messages a stream still owes its reader are those the abstract channel holds. */
  ghost predicate Carries(w: W.State, requests: seq<Sent>) {
    && W.Inv(w) && |W.Abs(w)| == |requests|
    && (forall i :: 0 <= i < |requests| ==> SameRequest(W.Abs(w)[i], requests[i]))
  }

  ghost predicate CarriesBack(w: W.State, replies: seq<SentReply>) {
    && W.Inv(w) && |W.Abs(w)| == |replies|
    && (forall i :: 0 <= i < |replies| ==> SameReply(W.Abs(w)[i], replies[i]))
  }

  ghost predicate Coupled(s: Net) {
    Carries(s.up, s.rpc.requests) && CarriesBack(s.down, s.rpc.replies)
  }

  lemma BeginCoupled(handlers: nat)
    ensures Coupled(Begin(handlers))
  {
    assert FrameAll([]) == [];
  }

  /** The step of Rpc a step here amounts to, if it is more than bytes moving. */
  function Abstract(a: Step): Option<Action> {
    match a
    case Local(l) => Some(l)
    case StartRequest(n) => Some(Client(Write(n)))
    case StartReply(h) => Some(Handler(h, HSend))
    case Up(_) => None
    case Down(_) => None
    case EndRequest => Some(Worker(WRead))
    case EndReply => Some(Reader(Read))
  }

  predicate SameChannels(s: State, s': State) {
    s'.requests == s.requests && s'.replies == s.replies
  }

  lemma ClientLeavesChannels(s: State, c: ClientAction)
    requires !c.Write? && ClientEnabled(s, c)
    ensures SameChannels(s, ClientApply(s, c))
  {
  }

  lemma ReaderLeavesChannels(s: State, r: ReaderAction)
    requires !r.Read? && ReaderEnabled(s, r)
    ensures SameChannels(s, ReaderApply(s, r))
  {
  }

  lemma WorkerLeavesChannels(s: State, w: WorkerAction)
    requires !w.WRead? && WorkerEnabled(s, w)
    ensures SameChannels(s, WorkerApply(s, w))
  {
  }

  lemma HandlerLeavesChannels(spec: Spec, s: State, h: nat, a: HandlerAction)
    requires !a.HSend? && HandlerEnabled(spec, s, h, a)
    ensures SameChannels(s, HandlerApply(spec, s, h, a))
  {
  }

  lemma LocalLeavesChannels(spec: Spec, s: State, a: Action)
    requires TouchesNoChannel(a) && Enabled(spec, s, a)
    ensures SameChannels(s, Apply(spec, s, a))
  {
    match a {
      case Client(c) => ClientLeavesChannels(s, c);
      case Reader(r) => ReaderLeavesChannels(s, r);
      case Worker(w) => WorkerLeavesChannels(s, w);
      case Handler(h, ha) => HandlerLeavesChannels(spec, s, h, ha);
      case Queue(_) =>
    }
  }

  lemma BytesCarry(w: W.State, a: W.Action, requests: seq<Sent>)
    requires Carries(w, requests) && W.Enabled(w, a) && !a.Lock? && !a.BodyFull?
    ensures Carries(W.Apply(w, a), requests)
  {
    W.RefinesFifo(w, a);
  }

  lemma BytesCarryBack(w: W.State, a: W.Action, replies: seq<SentReply>)
    requires CarriesBack(w, replies) && W.Enabled(w, a) && !a.Lock? && !a.BodyFull?
    ensures CarriesBack(W.Apply(w, a), replies)
  {
    W.RefinesFifo(w, a);
  }

  lemma LockCarries(w: W.State, m: Message, requests: seq<Sent>, r: Sent)
    requires Carries(w, requests) && w.lock.None? && SameRequest(m, r)
    ensures Carries(W.Apply(w, W.Lock(m)), requests + [r])
  {
    W.RefinesFifo(w, W.Lock(m));
  }

  lemma LockCarriesBack(w: W.State, m: Message, replies: seq<SentReply>, r: SentReply)
    requires CarriesBack(w, replies) && w.lock.None? && SameReply(m, r)
    ensures CarriesBack(W.Apply(w, W.Lock(m)), replies + [r])
  {
    W.RefinesFifo(w, W.Lock(m));
  }

  lemma ArrivedIsFirst(w: W.State, requests: seq<Sent>)
    requires Carries(w, requests) && W.Enabled(w, W.BodyFull)
    ensures requests != [] && SameRequest(Arrived(w), requests[0])
    ensures Carries(W.Apply(w, W.BodyFull), requests[1..])
  {
    W.RefinesFifo(w, W.BodyFull);
    assert W.Abs(w)[0] == Arrived(w) && W.Abs(w)[1..] == W.Abs(W.Apply(w, W.BodyFull));
  }

  lemma ArrivedReplyIsFirst(w: W.State, replies: seq<SentReply>)
    requires CarriesBack(w, replies) && W.Enabled(w, W.BodyFull)
    ensures replies != [] && SameReply(Arrived(w), replies[0])
    ensures CarriesBack(W.Apply(w, W.BodyFull), replies[1..])
  {
    W.RefinesFifo(w, W.BodyFull);
    assert W.Abs(w)[0] == Arrived(w) && W.Abs(w)[1..] == W.Abs(W.Apply(w, W.BodyFull));
  }

  /** The step below amounts to `a` above. */
  ghost predicate Amounts(spec: Spec, s: State, a: Option<Action>, s': State) {
    if a.None? then s' == s else Enabled(spec, s, a.value) && s' == Apply(spec, s, a.value)
  }

  lemma RequestEnds(spec: Spec, s: Net)
    requires Coupled(s) && StepEnabled(spec, s, EndRequest)
    ensures Coupled(StepApply(spec, s, EndRequest))
    ensures Amounts(spec, s.rpc, Abstract(EndRequest), StepApply(spec, s, EndRequest).rpc)
  {
    ArrivedIsFirst(s.up, s.rpc.requests);
    var m, r := Arrived(s.up), s.rpc.requests[0];
    assert Sent(m.id, r.tag, Request(m.typ, m.data)) == r;
  }

  lemma ReplyEnds(spec: Spec, s: Net)
    requires Coupled(s) && StepEnabled(spec, s, EndReply)
    ensures Coupled(StepApply(spec, s, EndReply))
    ensures Amounts(spec, s.rpc, Abstract(EndReply), StepApply(spec, s, EndReply).rpc)
  {
    ArrivedReplyIsFirst(s.down, s.rpc.replies);
    var m, r := Arrived(s.down), s.rpc.replies[0];
    assert SentReply(m.id, r.tag, Reply(m.typ, m.data)) == r;
  }

  /** Every step of the system over bytes is a step of the system over messages, or only moves
      bytes; and the message a read() assembles is the one the abstract channel delivers. */
  lemma StepRefines(spec: Spec, s: Net, a: Step)
    requires Coupled(s) && StepEnabled(spec, s, a)
    ensures Coupled(StepApply(spec, s, a))
    ensures Amounts(spec, s.rpc, Abstract(a), StepApply(spec, s, a).rpc)
  {
    match a {
      case Local(l) => LocalLeavesChannels(spec, s.rpc, l);
      case StartRequest(n) =>
        var req := s.rpc.calls[n].req;
        LockCarries(s.up, Message(IdOf(n), req.typ, req.data), s.rpc.requests, Sent(IdOf(n), n, req));
      case StartReply(h) =>
        var answer := s.rpc.handlers[h].answer;
        LockCarriesBack(s.down, Message(answer.id, answer.reply.typ, answer.reply.data), s.rpc.replies, answer);
      case Up(w) => BytesCarry(s.up, w, s.rpc.requests);
      case Down(w) => BytesCarryBack(s.down, w, s.rpc.replies);
      case EndRequest => RequestEnds(spec, s);
      case EndReply => ReplyEnds(spec, s);
    }
  }

  // ---------- Runs ----------

  function NetRun(spec: Spec, s: Net, steps: seq<Step>): Option<Net>
    decreases steps
  {
    if steps == [] then Some(s)
    else if StepEnabled(spec, s, steps[0]) then NetRun(spec, StepApply(spec, s, steps[0]), steps[1..])
    else None
  }

  function AbstractAll(steps: seq<Step>): seq<Action> {
    if steps == [] then []
    else if Abstract(steps[0]).Some? then [Abstract(steps[0]).value] + AbstractAll(steps[1..])
    else AbstractAll(steps[1..])
  }

  lemma {:induction false} RunRefines(spec: Spec, s: Net, steps: seq<Step>)
    requires Coupled(s) && NetRun(spec, s, steps).Some?
    ensures Coupled(NetRun(spec, s, steps).value)
    ensures Run(spec, s.rpc, AbstractAll(steps)) == Some(NetRun(spec, s, steps).value.rpc)
    decreases steps
  {
    if steps != [] {
      var a, s' := Abstract(steps[0]), StepApply(spec, s, steps[0]);
      StepRefines(spec, s, steps[0]);
      RunRefines(spec, s', steps[1..]);
      if a.Some? {
        var all := AbstractAll(steps);
        assert all[0] == a.value && all[1..] == AbstractAll(steps[1..]);
      }
    }
  }

  /** What holds of the system over messages holds over bytes: every run of callers, handlers and
      bytes in which no promise is overwritten is linearizable in the order of the handler runs, and
      whoever holds a reply holds the one made from its own request. */
  lemma LinearizableOverBytes(spec: Spec, handlers: nat, steps: seq<Step>, s: Net)
    requires NetRun(spec, Begin(handlers), steps) == Some(s)
    requires NoOverwrite(spec, Init(handlers), AbstractAll(steps))
    ensures Linearizable(spec, s.rpc)
    ensures forall n :: 0 <= n < |s.rpc.calls| && GotReply(s.rpc.calls[n]) ==>
              exists i :: ExecutedAs(s.rpc, n, i, s.rpc.calls[n].outcome.value.reply)
  {
    BeginCoupled(handlers);
    RunRefines(spec, Begin(handlers), steps);
    RpcIsLinearizable(spec, handlers, AbstractAll(steps), s.rpc);
    forall n | 0 <= n < |s.rpc.calls| && GotReply(s.rpc.calls[n])
      ensures exists i :: ExecutedAs(s.rpc, n, i, s.rpc.calls[n].outcome.value.reply)
    {
      Correlation(spec, handlers, AbstractAll(steps), s.rpc, n);
    }
  }

  /** A request that is on its way never rests: while the Worker is inside read(), some of its bytes
      can move, or a buffer is full and read() goes on or returns. */
  lemma RequestOnItsWayMoves(spec: Spec, s: Net)
    requires Coupled(s) && s.rpc.requests != [] && s.rpc.worker.WReading?
    ensures StepEnabled(spec, s, Up(W.Recv(1))) || StepEnabled(spec, s, Up(W.Send(1)))
         || StepEnabled(spec, s, Up(W.HeaderFull)) || StepEnabled(spec, s, EndRequest)
  {
    W.NeverStuck(s.up);
  }

  lemma ReplyOnItsWayMoves(spec: Spec, s: Net)
    requires Coupled(s) && s.rpc.replies != [] && s.rpc.reader.RReading?
    ensures StepEnabled(spec, s, Down(W.Recv(1))) || StepEnabled(spec, s, Down(W.Send(1)))
         || StepEnabled(spec, s, Down(W.HeaderFull)) || StepEnabled(spec, s, EndReply)
  {
    W.NeverStuck(s.down);
  }
}
