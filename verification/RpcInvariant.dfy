/**
 The invariant of the RPC step system, and its preservation by every step.
 */
module RpcInvariant {
  import opened Codec
  import opened Commands
  import opened Rpc
  import Q = ConcurrentQueue

  // ---------- Where the messages are ----------

  function One(b: bool): nat {
    if b then 1 else 0
  }

  function CountReq(ms: seq<Sent>, n: nat): nat {
    if ms == [] then 0 else One(ms[0].tag == n) + CountReq(ms[1..], n)
  }

  function CountAns(ms: seq<SentReply>, n: nat): nat {
    if ms == [] then 0 else One(ms[0].tag == n) + CountAns(ms[1..], n)
  }

  function CountLog(log: seq<Exec>, n: nat): nat {
    if log == [] then 0 else CountLog(log[..|log| - 1], n) + One(log[|log| - 1].tag == n)
  }

  predicate HoldsReq(h: HandlerPc, n: nat) {
    h.HHolding? && h.msg.tag == n
  }

  predicate HoldsAns(h: HandlerPc, n: nat) {
    h.HReplying? && h.answer.tag == n
  }

  function CountHeldReq(hs: seq<HandlerPc>, n: nat): nat {
    if hs == [] then 0 else One(HoldsReq(hs[0], n)) + CountHeldReq(hs[1..], n)
  }

  function CountHeldAns(hs: seq<HandlerPc>, n: nat): nat {
    if hs == [] then 0 else One(HoldsAns(hs[0], n)) + CountHeldAns(hs[1..], n)
  }

  /** Copies of call `n`'s request that have been sent and not yet executed. */
  function Waiting(s: State, n: nat): nat {
    CountReq(s.requests, n) + One(s.worker.WHolding? && s.worker.msg.tag == n)
    + CountReq(s.queue.items, n) + CountHeldReq(s.handlers, n)
  }

  /** Copies of call `n`'s reply that have been made and not yet delivered. */
  function Returning(s: State, n: nat): nat {
    CountHeldAns(s.handlers, n) + CountAns(s.replies, n) + One(s.reader.RHolding? && s.reader.answer.tag == n)
  }

  lemma {:induction false} CountReqAppend(ms: seq<Sent>, m: Sent, n: nat)
    ensures CountReq(ms + [m], n) == CountReq(ms, n) + One(m.tag == n)
  {
    if ms != [] {
      assert (ms + [m])[1..] == ms[1..] + [m];
      CountReqAppend(ms[1..], m, n);
    }
  }

  lemma {:induction false} CountAnsAppend(ms: seq<SentReply>, m: SentReply, n: nat)
    ensures CountAns(ms + [m], n) == CountAns(ms, n) + One(m.tag == n)
  {
    if ms != [] {
      assert (ms + [m])[1..] == ms[1..] + [m];
      CountAnsAppend(ms[1..], m, n);
    }
  }

  lemma CountLogAppend(log: seq<Exec>, e: Exec, n: nat)
    ensures CountLog(log + [e], n) == CountLog(log, n) + One(e.tag == n)
  {
    assert (log + [e])[..|log|] == log;
  }

  lemma {:induction false} CountHeldUpdate(hs: seq<HandlerPc>, h: nat, p: HandlerPc, n: nat)
    requires h < |hs|
    ensures CountHeldReq(hs[h := p], n) + One(HoldsReq(hs[h], n)) == CountHeldReq(hs, n) + One(HoldsReq(p, n))
    ensures CountHeldAns(hs[h := p], n) + One(HoldsAns(hs[h], n)) == CountHeldAns(hs, n) + One(HoldsAns(p, n))
  {
    if h == 0 {
      assert hs[h := p][1..] == hs[1..];
    } else {
      CountHeldUpdate(hs[1..], h - 1, p, n);
      assert hs[h := p][1..] == hs[1..][h - 1 := p];
    }
  }

  lemma {:induction false} CountLogOf(log: seq<Exec>, i: nat)
    requires i < |log|
    ensures CountLog(log, log[i].tag) >= 1
  {
    if i < |log| - 1 {
      CountLogOf(log[..|log| - 1], i);
    }
  }

  lemma {:induction false} CountLogTwice(log: seq<Exec>, i: nat, j: nat)
    requires i < j < |log| && log[i].tag == log[j].tag
    ensures CountLog(log, log[i].tag) >= 2
  {
    if j == |log| - 1 {
      CountLogOf(log[..j], i);
    } else {
      CountLogTwice(log[..|log| - 1], i, j);
    }
  }

  lemma {:induction false} CountLogSome(log: seq<Exec>, n: nat)
    requires CountLog(log, n) >= 1
    ensures exists i :: 0 <= i < |log| && log[i].tag == n
  {
    var last := |log| - 1;
    if log[last].tag != n {
      CountLogSome(log[..last], n);
      var i :| 0 <= i < last && log[..last][i].tag == n;
      assert log[i].tag == n;
    }
  }

  // ---------- The invariant ----------

  predicate WasSent(pc: CallPc) {
    pc.Written? || pc.Returned?
  }

  predicate WasRegistered(pc: CallPc) {
    pc.Registered? || pc.Written? || pc.WriteFailed? || pc.Returned?
  }

  predicate SentCall(s: State, n: nat) {
    n < |s.calls| && WasSent(s.calls[n].pc)
  }

  /** A sent request is waiting or has been executed, once; an execution's reply is on its way
      back, delivered, or lost with a failed write, once. */
  predicate ConservedAt(s: State, n: nat) {
    && Waiting(s, n) + CountLog(s.log, n) == One(SentCall(s, n))
    && Returning(s, n) + s.resolved[n] + s.lost[n] == CountLog(s.log, n)
  }

  ghost predicate Conserved(s: State) {
    forall n: nat :: ConservedAt(s, n)
  }

  predicate GoodSent(calls: seq<Call>, m: Sent) {
    m.tag < |calls| && m.id == IdOf(m.tag) && m.req == calls[m.tag].req
  }

  ghost predicate Logged(log: seq<Exec>, n: nat, r: Reply) {
    exists i :: 0 <= i < |log| && log[i].tag == n && log[i].reply == r
  }

  ghost predicate GoodAnswer(s: State, a: SentReply) {
    a.tag < |s.calls| && a.id == IdOf(a.tag) && Logged(s.log, a.tag, a.reply)
  }

  /** Every message on its way still says what its call said. */
  ghost predicate FaithfulRequests(s: State) {
    && (forall i :: 0 <= i < |s.requests| ==> GoodSent(s.calls, s.requests[i]))
    && (forall i :: 0 <= i < |s.queue.items| ==> GoodSent(s.calls, s.queue.items[i]))
    && (s.worker.WHolding? ==> GoodSent(s.calls, s.worker.msg))
    && (forall h :: 0 <= h < |s.handlers| && s.handlers[h].HHolding? ==> GoodSent(s.calls, s.handlers[h].msg))
  }

  ghost predicate FaithfulAnswers(s: State) {
    && (forall i :: 0 <= i < |s.replies| ==> GoodAnswer(s, s.replies[i]))
    && (s.reader.RHolding? ==> GoodAnswer(s, s.reader.answer))
    && (forall h :: 0 <= h < |s.handlers| && s.handlers[h].HReplying? ==> GoodAnswer(s, s.handlers[h].answer))
  }

  ghost predicate GoodCall(s: State, n: nat)
    requires n < |s.calls|
  {
    var c := s.calls[n];
    && c.settled == (if c.outcome.Some? then 1 else 0)
    && (WasRegistered(c.pc) ==> c.outcome.Some? || IsPending(s.pending, n))
    && (!WasRegistered(c.pc) ==> c.outcome.None?)
    && (c.outcome.Some? ==> c.outcome.value.Got? || (c.outcome.value.Drained? && s.drained))
    && (GotReply(c) ==> Logged(s.log, n, c.outcome.value.reply))
    && (c.outcome.Some? && !s.drained ==> s.resolved[n] == 1)
    && (s.resolved[n] > 0 ==> c.outcome.Some?)
    && (c.pc.Returned? ==> c.outcome.Some?)
    && c.invokedAt < s.clock
    && (c.pc.Checked? ==> s.lock == Some(n))
  }

  ghost predicate GoodCalls(s: State) {
    forall n :: 0 <= n < |s.calls| ==> GoodCall(s, n)
  }

  ghost predicate GoodPending(s: State) {
    forall id :: id in s.pending ==>
      && s.pending[id] < |s.calls| && IdOf(s.pending[id]) == id
      && WasRegistered(s.calls[s.pending[id]].pc)
      && s.calls[s.pending[id]].outcome.Some? == s.drained
  }

  ghost predicate GoodReader(s: State) {
    && (s.drained ==> !s.connected && s.lock.None? && (s.reader.RTesting? || s.reader.RExited?))
    && (s.reader.RDraining? ==> !s.connected)
    && (s.reader.RExited? ==> !s.connected)
    && (!s.connected && !s.disconnected ==> s.drained || s.reader.RDraining?)
    && (s.lock.Some? ==> CallAt(s, s.lock.value, Checked))
  }

  ghost predicate GoodHandlers(s: State) {
    && |s.handlers| == |s.queue.pcs|
    && (forall h :: 0 <= h < |s.handlers| ==> (s.handlers[h].HPopping? <==> !s.queue.pcs[h].Idle?))
    && (forall h :: 0 <= h < |s.handlers| && s.handlers[h].HExited? ==> s.stop)
    && (s.worker.WExited? ==> s.stop)
  }

  predicate GotReply(c: Call) {
    c.outcome.Some? && c.outcome.value.Got?
  }

  ghost predicate GoodLog(spec: Spec, s: State) {
    && (forall i :: 0 <= i < |s.log| ==>
          && s.log[i].tag < |s.calls| && s.log[i].req == s.calls[s.log[i].tag].req
          && s.calls[s.log[i].tag].invokedAt < s.log[i].at < s.clock)
    && (forall i, j :: 0 <= i < j < |s.log| ==> s.log[i].at < s.log[j].at)
    && (forall i :: 0 <= i < |s.log| ==> spec(Trace(s.log[..i]), s.log[i].req, s.log[i].reply))
    && (forall n :: 0 <= n < |s.calls| && GotReply(s.calls[n]) && s.calls[n].pc.Returned? ==>
          ReturnedAfter(s.log, n, s.calls[n].outcome.value.reply, s.calls[n].returnedAt))
  }

  /** A run of call `n` with this reply lies before time `t`. */
  ghost predicate ReturnedAfter(log: seq<Exec>, n: nat, r: Reply, t: nat) {
    exists i :: 0 <= i < |log| && log[i].tag == n && log[i].reply == r && log[i].at < t
  }

  ghost predicate Inv(spec: Spec, s: State) {
    && Conserved(s)
    && FaithfulRequests(s)
    && FaithfulAnswers(s)
    && GoodCalls(s)
    && GoodPending(s)
    && GoodReader(s)
    && GoodHandlers(s)
    && GoodLog(spec, s)
    && Q.Inv(s.queue)
  }

  lemma {:induction false} NothingHeld(hs: seq<HandlerPc>, n: nat)
    requires forall h :: 0 <= h < |hs| ==> hs[h].HTesting?
    ensures CountHeldReq(hs, n) == 0 && CountHeldAns(hs, n) == 0
  {
    if hs != [] {
      NothingHeld(hs[1..], n);
    }
  }

  lemma InitInv(spec: Spec, handlers: nat)
    ensures Inv(spec, Init(handlers))
  {
    Q.InitInv<Sent>(handlers);
    var s := Init(handlers);
    forall n: nat ensures ConservedAt(s, n) {
      NothingHeld(s.handlers, n);
    }
  }

  // ---------- What every step leaves alone ----------

  predicate SameOrigin(c: Call, c': Call) {
    c'.req == c.req && c'.invokedAt == c.invokedAt
  }

  /** Calls are only added; a call keeps its request and invocation time. */
  ghost predicate Extends(calls: seq<Call>, calls': seq<Call>) {
    && |calls| <= |calls'|
    && (forall n :: 0 <= n < |calls| ==> SameOrigin(calls[n], calls'[n]))
  }

  lemma LoggedStays(log: seq<Exec>, e: Exec)
    ensures forall n: nat, r :: Logged(log, n, r) ==> Logged(log + [e], n, r)
  {
    forall n: nat, r | Logged(log, n, r) ensures Logged(log + [e], n, r) {
      var i :| 0 <= i < |log| && log[i].tag == n && log[i].reply == r;
      assert (log + [e])[i] == log[i];
    }
  }

  lemma ReturnedStays(log: seq<Exec>, e: Exec)
    ensures forall n: nat, r, t: nat :: ReturnedAfter(log, n, r, t) ==> ReturnedAfter(log + [e], n, r, t)
  {
    forall n: nat, r, t: nat | ReturnedAfter(log, n, r, t) ensures ReturnedAfter(log + [e], n, r, t) {
      var i :| 0 <= i < |log| && log[i].tag == n && log[i].reply == r && log[i].at < t;
      assert (log + [e])[i] == log[i];
    }
  }

  /** A step that touches neither the calls, the pending map, the lock nor the log keeps what is
      said about them. */
  lemma Untouched(spec: Spec, s: State, s': State)
    requires GoodCalls(s) && GoodPending(s) && GoodLog(spec, s)
    requires s'.calls == s.calls && s'.pending == s.pending && s'.lock == s.lock && s'.log == s.log
    requires s'.drained == s.drained && s'.resolved == s.resolved && s'.clock == s.clock + 1
    ensures GoodCalls(s') && GoodPending(s') && GoodLog(spec, s')
  {
    forall n | 0 <= n < |s'.calls| ensures GoodCall(s', n) {
      assert GoodCall(s, n);
    }
  }

  /** Messages stay faithful while calls are only added and no message is. */
  lemma StillFaithful(s: State, s': State)
    requires FaithfulRequests(s) && FaithfulAnswers(s) && Extends(s.calls, s'.calls)
    requires s.requests <= s'.requests && |s'.requests| <= |s.requests| + 1
    requires s'.queue == s.queue && s'.worker == s.worker && s'.handlers == s.handlers && s'.log == s.log
    requires s'.replies == s.replies || (s.replies != [] && s'.replies == s.replies[1..])
    requires s'.reader.RHolding? ==> s'.reader == s.reader || (s.replies != [] && s'.reader.answer == s.replies[0])
    ensures forall i :: 0 <= i < |s.requests| ==> GoodSent(s'.calls, s'.requests[i])
    ensures |s'.requests| == |s.requests| ==> FaithfulRequests(s')
    ensures |s'.requests| > |s.requests| && GoodSent(s'.calls, s'.requests[|s.requests|]) ==> FaithfulRequests(s')
    ensures FaithfulAnswers(s')
  {
    forall i | 0 <= i < |s.requests| ensures GoodSent(s'.calls, s'.requests[i]) {
      assert GoodSent(s.calls, s.requests[i]);
    }
    forall i | 0 <= i < |s'.replies| ensures GoodAnswer(s', s'.replies[i]) {
      assert s'.replies[i] in s.replies;
      assert GoodAnswer(s, s'.replies[i]);
    }
  }

  // ---------- Client steps ----------

  /** Two calls within 2^32 of each other never share a command id. */
  lemma IdsDistinct(m: nat, n: nat, total: nat)
    requires IdOf(m) == IdOf(n) && m < total <= n + LIMIT && n < total <= m + LIMIT
    ensures m == n
  {
  }

  lemma IdIsFree(s: State, n: nat)
    requires GoodCalls(s) && GoodPending(s) && Fresh(s) && CallAt(s, n, Checked)
    ensures IdOf(n) !in s.pending
  {
    if IdOf(n) in s.pending {
      IdsDistinct(s.pending[IdOf(n)], n, |s.calls|);
    }
  }

  lemma ClientConserved(s: State, c: ClientAction, n: nat)
    requires ConservedAt(s, n) && ClientEnabled(s, c)
    ensures ConservedAt(ClientApply(s, c), n)
  {
    if c.Write? {
      WriteConserved(s, c.n, n);
    }
  }

  lemma WriteConserved(s: State, m: nat, n: nat)
    requires ConservedAt(s, n) && CallAt(s, m, Registered)
    ensures ConservedAt(ClientApply(s, Write(m)), n)
  {
    CountReqAppend(s.requests, Sent(IdOf(m), m, s.calls[m].req), n);
  }

  lemma ClientExtends(s: State, c: ClientAction)
    requires ClientEnabled(s, c)
    ensures Extends(s.calls, ClientApply(s, c).calls)
  {
    if c.Register? {
      RegisterExtends(s, c.n);
    }
  }

  lemma RegisterExtends(s: State, n: nat)
    requires CallAt(s, n, Checked)
    ensures Extends(s.calls, ClientApply(s, Register(n)).calls)
  {
    assert Extends(s.calls, Overwrite(s, n));
  }

  lemma ClientFaithful(s: State, c: ClientAction)
    requires FaithfulRequests(s) && FaithfulAnswers(s) && ClientEnabled(s, c)
    ensures FaithfulRequests(ClientApply(s, c)) && FaithfulAnswers(ClientApply(s, c))
  {
    ClientExtends(s, c);
    var s' := ClientApply(s, c);
    StillFaithful(s, s');
    if c.Write? {
      assert GoodSent(s'.calls, Sent(IdOf(c.n), c.n, s.calls[c.n].req));
    }
  }

  lemma ClientCall(s: State, c: ClientAction, n: nat)
    requires GoodCalls(s) && ClientEnabled(s, c) && n < |ClientApply(s, c).calls|
    requires n == |s.calls| ==> s.resolved[n] == 0
    requires c.Register? ==> IdOf(c.n) !in s.pending
    ensures GoodCall(ClientApply(s, c), n)
  {
    if c.Register? {
      RegisterCall(s, c.n, n);
    } else if n < |s.calls| {
      assert GoodCall(s, n);
    }
  }

  lemma RegisterCall(s: State, m: nat, n: nat)
    requires GoodCalls(s) && CallAt(s, m, Checked) && n < |s.calls| && IdOf(m) !in s.pending
    ensures GoodCall(ClientApply(s, Register(m)), n)
  {
    assert GoodCall(s, n);
    assert GoodCall(s, m);
    assert n != m ==> ClientApply(s, Register(m)).calls[n] == s.calls[n];
  }

  lemma ClientPending(s: State, c: ClientAction)
    requires GoodPending(s) && GoodCalls(s) && GoodReader(s) && ClientEnabled(s, c)
    requires c.Register? ==> IdOf(c.n) !in s.pending
    ensures GoodPending(ClientApply(s, c)) && GoodReader(ClientApply(s, c))
  {
    if c.Register? {
      assert GoodCall(s, c.n);
    }
  }

  lemma ClientLog(spec: Spec, s: State, c: ClientAction)
    requires GoodLog(spec, s) && GoodCalls(s) && ClientEnabled(s, c)
    requires c.Register? ==> IdOf(c.n) !in s.pending
    ensures GoodLog(spec, ClientApply(s, c))
  {
    var s' := ClientApply(s, c);
    ClientExtends(s, c);
    forall n | 0 <= n < |s'.calls| && GotReply(s'.calls[n]) && s'.calls[n].pc.Returned?
      ensures ReturnedAfter(s'.log, n, s'.calls[n].outcome.value.reply, s'.calls[n].returnedAt)
    {
      assert GoodCall(s, n);
      if c == Return(n) {
        ReturnsAfter(spec, s, n);
      } else {
        assert s'.calls[n] == s.calls[n];
      }
    }
  }

  lemma ReturnsAfter(spec: Spec, s: State, n: nat)
    requires GoodLog(spec, s) && n < |s.calls| && GoodCall(s, n) && GotReply(s.calls[n])
    ensures ReturnedAfter(s.log, n, s.calls[n].outcome.value.reply, s.clock)
  {
    var i :| 0 <= i < |s.log| && s.log[i].tag == n && s.log[i].reply == s.calls[n].outcome.value.reply;
    assert s.log[i].at < s.clock;
  }

  lemma ClientStep(spec: Spec, s: State, c: ClientAction)
    requires Inv(spec, s) && ClientEnabled(s, c)
    requires c.Register? ==> IdOf(c.n) !in s.pending
    ensures Inv(spec, ClientApply(s, c))
  {
    var s' := ClientApply(s, c);
    assert ConservedAt(s, |s.calls|);
    forall n: nat ensures ConservedAt(s', n) {
      ClientConserved(s, c, n);
    }
    forall n | 0 <= n < |s'.calls| ensures GoodCall(s', n) {
      ClientCall(s, c, n);
    }
    ClientFaithful(s, c);
    ClientPending(s, c);
    ClientLog(spec, s, c);
  }

  // ---------- Reader steps ----------

  /** The reply in the reader's hands belongs to a call that is pending under exactly its id. */
  predicate Awaited(s: State) {
    s.reader.RHolding? ==>
      var a := s.reader.answer;
      && a.id in s.pending && s.pending[a.id] == a.tag
      && a.tag < |s.calls| && s.calls[a.tag].outcome.None? && s.resolved[a.tag] == 0
  }

  lemma ReplyIsAwaited(s: State)
    requires Conserved(s) && FaithfulAnswers(s) && GoodCalls(s) && GoodReader(s)
    ensures Awaited(s)
  {
    if s.reader.RHolding? {
      var a := s.reader.answer;
      assert GoodAnswer(s, a);
      assert ConservedAt(s, a.tag);
      assert Returning(s, a.tag) >= 1;
      assert GoodCall(s, a.tag);
    }
  }

  lemma ReaderConserved(s: State, r: ReaderAction, n: nat)
    requires ConservedAt(s, n) && ReaderEnabled(s, r)
    ensures ConservedAt(ReaderApply(s, r), n)
  {
    if r.Deliver? {
      DeliverConserved(s, n);
    }
  }

  lemma DeliverConserved(s: State, n: nat)
    requires ConservedAt(s, n) && ReaderEnabled(s, Deliver)
    ensures ConservedAt(ReaderApply(s, Deliver), n)
  {
    var s' := ReaderApply(s, Deliver);
    assert s'.resolved[n] + s'.lost[n] == s.resolved[n] + s.lost[n] + One(s.reader.answer.tag == n);
    assert SentCall(s', n) == SentCall(s, n);
  }

  lemma ReaderExtends(s: State, r: ReaderAction)
    requires ReaderEnabled(s, r)
    ensures Extends(s.calls, ReaderApply(s, r).calls)
  {
  }

  lemma ReaderFaithful(s: State, r: ReaderAction)
    requires FaithfulRequests(s) && FaithfulAnswers(s) && ReaderEnabled(s, r)
    ensures FaithfulRequests(ReaderApply(s, r)) && FaithfulAnswers(ReaderApply(s, r))
  {
    ReaderExtends(s, r);
    StillFaithful(s, ReaderApply(s, r));
  }

  lemma ReaderCall(s: State, r: ReaderAction, n: nat)
    requires GoodCalls(s) && GoodPending(s) && GoodReader(s) && FaithfulAnswers(s) && Awaited(s)
    requires ReaderEnabled(s, r) && n < |s.calls|
    ensures GoodCall(ReaderApply(s, r), n)
  {
    assert GoodCall(s, n);
    if r.Deliver? {
      assert GoodAnswer(s, s.reader.answer);
    }
  }

  lemma ReaderPending(s: State, r: ReaderAction)
    requires GoodPending(s) && GoodReader(s) && Awaited(s) && ReaderEnabled(s, r)
    ensures GoodPending(ReaderApply(s, r)) && GoodReader(ReaderApply(s, r))
  {
    if r.Deliver? {
      forall id | id in s.pending && id != s.reader.answer.id ensures s.pending[id] != s.reader.answer.tag {
      }
    }
  }

  lemma ReaderLog(spec: Spec, s: State, r: ReaderAction)
    requires GoodLog(spec, s) && GoodCalls(s) && GoodPending(s) && GoodReader(s) && Awaited(s) && ReaderEnabled(s, r)
    ensures GoodLog(spec, ReaderApply(s, r))
  {
    var s' := ReaderApply(s, r);
    forall n | 0 <= n < |s'.calls| && GotReply(s'.calls[n]) && s'.calls[n].pc.Returned?
      ensures ReturnedAfter(s'.log, n, s'.calls[n].outcome.value.reply, s'.calls[n].returnedAt)
    {
      assert GoodCall(s, n);
      assert s'.calls[n] == s.calls[n];
    }
  }

  lemma ReaderStep(spec: Spec, s: State, r: ReaderAction)
    requires Inv(spec, s) && ReaderEnabled(s, r)
    ensures Inv(spec, ReaderApply(s, r))
  {
    var s' := ReaderApply(s, r);
    ReplyIsAwaited(s);
    forall n: nat ensures ConservedAt(s', n) {
      ReaderConserved(s, r, n);
    }
    forall n | 0 <= n < |s'.calls| ensures GoodCall(s', n) {
      ReaderCall(s, r, n);
    }
    ReaderFaithful(s, r);
    ReaderPending(s, r);
    ReaderLog(spec, s, r);
  }

  // ---------- Worker, handler and queue steps ----------

  lemma WorkerConserved(s: State, w: WorkerAction, n: nat)
    requires ConservedAt(s, n) && WorkerEnabled(s, w)
    ensures ConservedAt(WorkerApply(s, w), n)
  {
    if w.WPush? {
      CountReqAppend(s.queue.items, s.worker.msg, n);
    }
  }

  lemma WorkerFaithful(s: State, w: WorkerAction)
    requires FaithfulRequests(s) && FaithfulAnswers(s) && WorkerEnabled(s, w)
    ensures FaithfulRequests(WorkerApply(s, w)) && FaithfulAnswers(WorkerApply(s, w))
  {
  }

  lemma WorkerStep(spec: Spec, s: State, w: WorkerAction)
    requires Inv(spec, s) && WorkerEnabled(s, w)
    ensures Inv(spec, WorkerApply(s, w))
  {
    forall n: nat ensures ConservedAt(WorkerApply(s, w), n) {
      WorkerConserved(s, w, n);
    }
    if w.WPush? {
      Q.StepKeepsInv(s.queue, Q.Push(s.worker.msg, w.wake));
    }
    WorkerFaithful(s, w);
    Untouched(spec, s, WorkerApply(s, w));
  }

  lemma TakeConserved(spec: Spec, s: State, h: nat, n: nat)
    requires ConservedAt(s, n) && HandlerEnabled(spec, s, h, HTake)
    ensures ConservedAt(HandlerApply(spec, s, h, HTake), n)
  {
    CountHeldUpdate(s.handlers, h, HHolding(s.queue.items[0]), n);
  }

  lemma RunConserved(spec: Spec, s: State, h: nat, reply: Reply, n: nat)
    requires ConservedAt(s, n) && HandlerEnabled(spec, s, h, HRun(reply))
    ensures ConservedAt(HandlerApply(spec, s, h, HRun(reply)), n)
  {
    var s' := HandlerApply(spec, s, h, HRun(reply));
    CountHeldUpdate(s.handlers, h, s'.handlers[h], n);
    CountLogAppend(s.log, s'.log[|s.log|], n);
  }

  lemma SendConserved(spec: Spec, s: State, h: nat, n: nat)
    requires ConservedAt(s, n) && HandlerEnabled(spec, s, h, HSend)
    ensures ConservedAt(HandlerApply(spec, s, h, HSend), n)
  {
    CountHeldUpdate(s.handlers, h, HTesting, n);
    CountAnsAppend(s.replies, s.handlers[h].answer, n);
  }

  /** A handler that neither takes, runs nor sends. */
  lemma TestConserved(spec: Spec, s: State, h: nat, n: nat)
    requires ConservedAt(s, n) && HandlerEnabled(spec, s, h, HTest)
    ensures ConservedAt(HandlerApply(spec, s, h, HTest), n)
  {
    CountHeldUpdate(s.handlers, h, if s.stop then HExited else HPopping, n);
  }

  lemma ThrowConserved(spec: Spec, s: State, h: nat, n: nat)
    requires ConservedAt(s, n) && HandlerEnabled(spec, s, h, HThrow)
    ensures ConservedAt(HandlerApply(spec, s, h, HThrow), n)
  {
    CountHeldUpdate(s.handlers, h, HTesting, n);
  }

  lemma SendFailConserved(spec: Spec, s: State, h: nat, n: nat)
    requires ConservedAt(s, n) && HandlerEnabled(spec, s, h, HSendFail)
    ensures ConservedAt(HandlerApply(spec, s, h, HSendFail), n)
  {
    CountHeldUpdate(s.handlers, h, HTesting, n);
  }

  lemma HandlerConserved(spec: Spec, s: State, h: nat, a: HandlerAction, n: nat)
    requires ConservedAt(s, n) && HandlerEnabled(spec, s, h, a)
    ensures ConservedAt(HandlerApply(spec, s, h, a), n)
  {
    match a {
      case HTake => TakeConserved(spec, s, h, n);
      case HRun(reply) => RunConserved(spec, s, h, reply, n);
      case HSend => SendConserved(spec, s, h, n);
      case HTest => TestConserved(spec, s, h, n);
      case HThrow => ThrowConserved(spec, s, h, n);
      case HSendFail => SendFailConserved(spec, s, h, n);
    }
  }

  lemma HandlerRequests(spec: Spec, s: State, h: nat, a: HandlerAction)
    requires FaithfulRequests(s) && HandlerEnabled(spec, s, h, a)
    ensures FaithfulRequests(HandlerApply(spec, s, h, a))
  {
  }

  lemma HandlerAnswers(spec: Spec, s: State, h: nat, a: HandlerAction)
    requires FaithfulRequests(s) && FaithfulAnswers(s) && HandlerEnabled(spec, s, h, a)
    ensures FaithfulAnswers(HandlerApply(spec, s, h, a))
  {
    if a.HRun? {
      var m := s.handlers[h].msg;
      assert GoodSent(s.calls, m);
      var e := Exec(m.tag, m.req, a.reply, s.clock);
      LoggedStays(s.log, e);
      assert (s.log + [e])[|s.log|] == e;
    }
  }

  lemma HandlerPops(spec: Spec, s: State, h: nat, a: HandlerAction)
    requires GoodHandlers(s) && Q.Inv(s.queue) && HandlerEnabled(spec, s, h, a)
    ensures GoodHandlers(HandlerApply(spec, s, h, a)) && Q.Inv(HandlerApply(spec, s, h, a).queue)
  {
    if a.HTake? {
      Q.StepKeepsInv(s.queue, Q.Take(h));
    } else if a.HThrow? {
      Q.StepKeepsInv(s.queue, Q.Throw(h));
    } else if a.HTest? && !s.stop {
      Q.StepKeepsInv(s.queue, Q.Enter(h));
    }
  }

  lemma RunLog(spec: Spec, s: State, h: nat, reply: Reply)
    requires GoodLog(spec, s) && GoodCalls(s) && FaithfulRequests(s) && HandlerEnabled(spec, s, h, HRun(reply))
    ensures GoodLog(spec, HandlerApply(spec, s, h, HRun(reply)))
  {
    var s' := HandlerApply(spec, s, h, HRun(reply));
    var m := s.handlers[h].msg;
    assert GoodSent(s.calls, m);
    assert GoodCall(s, m.tag);
    ReturnedStays(s.log, s'.log[|s.log|]);
    forall i | 0 <= i < |s'.log| ensures spec(Trace(s'.log[..i]), s'.log[i].req, s'.log[i].reply) {
      assert s'.log[..i] == s.log[..i];
      if i == |s.log| {
        assert s.log[..i] == s.log;
      }
    }
  }

  lemma RunCalls(spec: Spec, s: State, h: nat, reply: Reply)
    requires GoodCalls(s) && GoodPending(s) && HandlerEnabled(spec, s, h, HRun(reply))
    ensures GoodCalls(HandlerApply(spec, s, h, HRun(reply))) && GoodPending(HandlerApply(spec, s, h, HRun(reply)))
  {
    var s' := HandlerApply(spec, s, h, HRun(reply));
    LoggedStays(s.log, s'.log[|s.log|]);
    forall n | 0 <= n < |s'.calls| ensures GoodCall(s', n) {
      assert GoodCall(s, n);
    }
  }

  lemma HandlerStep(spec: Spec, s: State, h: nat, a: HandlerAction)
    requires Inv(spec, s) && HandlerEnabled(spec, s, h, a)
    ensures Inv(spec, HandlerApply(spec, s, h, a))
  {
    forall n: nat ensures ConservedAt(HandlerApply(spec, s, h, a), n) {
      HandlerConserved(spec, s, h, a, n);
    }
    HandlerRequests(spec, s, h, a);
    HandlerAnswers(spec, s, h, a);
    HandlerPops(spec, s, h, a);
    if a.HRun? {
      RunCalls(spec, s, h, a.reply);
      RunLog(spec, s, h, a.reply);
    } else {
      Untouched(spec, s, HandlerApply(spec, s, h, a));
    }
  }

  lemma QueueConserved(s: State, step: Q.Action<Sent>, n: nat)
    requires ConservedAt(s, n) && Internal(step) && Q.Enabled(s.queue, step)
    ensures ConservedAt(QueueApply(s, step), n)
  {
  }

  lemma QueueStep(spec: Spec, s: State, step: Q.Action<Sent>)
    requires Inv(spec, s) && Internal(step) && Q.Enabled(s.queue, step)
    ensures Inv(spec, QueueApply(s, step))
  {
    var s' := QueueApply(s, step);
    assert s'.queue.items == s.queue.items;
    forall n: nat ensures ConservedAt(s', n) {
      QueueConserved(s, step, n);
    }
    Q.StepKeepsInv(s.queue, step);
    Untouched(spec, s, s');
  }

  /** Worker-side steps leave the Commander's state alone. */
  ghost predicate SameCommander(s: State, s': State) {
    && s'.calls == s.calls && s'.pending == s.pending && s'.lock == s.lock && s'.reader == s.reader
    && s'.connected == s.connected && s'.drained == s.drained && s'.disconnected == s.disconnected
    && s'.resolved == s.resolved
  }

  lemma WorkerFrame(s: State, w: WorkerAction)
    requires WorkerEnabled(s, w)
    ensures SameCommander(s, WorkerApply(s, w))
    ensures WorkerApply(s, w).lost == s.lost && WorkerApply(s, w).handlers == s.handlers
  {
  }

  lemma HandlerFrame(spec: Spec, s: State, h: nat, a: HandlerAction)
    requires HandlerEnabled(spec, s, h, a)
    ensures SameCommander(s, HandlerApply(spec, s, h, a))
    ensures |HandlerApply(spec, s, h, a).handlers| == |s.handlers|
    ensures !a.HSendFail? ==> HandlerApply(spec, s, h, a).lost == s.lost
  {
  }

  lemma ReaderFrame(s: State, r: ReaderAction)
    requires ReaderEnabled(s, r)
    ensures ReaderApply(s, r).handlers == s.handlers
    ensures Awaited(s) ==> ReaderApply(s, r).lost == s.lost
  {
  }

  lemma ClientFrame(s: State, c: ClientAction)
    requires ClientEnabled(s, c)
    ensures ClientApply(s, c).lost == s.lost && ClientApply(s, c).handlers == s.handlers
  {
  }

  // ---------- Every step, every run ----------

  /** The step does not store a promise over another one. */
  predicate FindsFree(s: State, a: Action) {
    a.Client? && a.c.Register? ==> IdOf(a.c.n) !in s.pending
  }

  predicate NoOverwrite(spec: Spec, s: State, acts: seq<Action>)
    decreases acts
  {
    acts != [] && Enabled(spec, s, acts[0]) ==>
      FindsFree(s, acts[0]) && NoOverwrite(spec, Apply(spec, s, acts[0]), acts[1..])
  }

  lemma StepKeepsInv(spec: Spec, s: State, a: Action)
    requires Inv(spec, s) && FindsFree(s, a) && Enabled(spec, s, a)
    ensures Inv(spec, Apply(spec, s, a))
  {
    match a {
      case Client(c) => ClientStep(spec, s, c);
      case Reader(r) => ReaderStep(spec, s, r);
      case Worker(w) => WorkerStep(spec, s, w);
      case Handler(h, ha) => HandlerStep(spec, s, h, ha);
      case Queue(step) => QueueStep(spec, s, step);
    }
  }

  lemma {:induction false} RunKeepsInv(spec: Spec, s: State, acts: seq<Action>)
    requires Inv(spec, s) && NoOverwrite(spec, s, acts) && Run(spec, s, acts).Some?
    ensures Inv(spec, Run(spec, s, acts).value)
    decreases acts
  {
    if acts != [] {
      StepKeepsInv(spec, s, acts[0]);
      RunKeepsInv(spec, Apply(spec, s, acts[0]), acts[1..]);
    }
  }

  lemma FreshStep(spec: Spec, s: State, a: Action)
    requires Inv(spec, s) && Fresh(s) && Enabled(spec, s, a)
    ensures FindsFree(s, a) && Inv(spec, Apply(spec, s, a))
  {
    if a.Client? && a.c.Register? {
      IdIsFree(s, a.c.n);
    }
    StepKeepsInv(spec, s, a);
  }

  /** A run that is fresh throughout never overwrites a promise. */
  lemma {:induction false} FreshRunsDoNotOverwrite(spec: Spec, s: State, acts: seq<Action>)
    requires Inv(spec, s) && FreshAlong(spec, s, acts) && Run(spec, s, acts).Some?
    ensures NoOverwrite(spec, s, acts)
    decreases acts
  {
    if acts != [] {
      FreshStep(spec, s, acts[0]);
      FreshRunsDoNotOverwrite(spec, Apply(spec, s, acts[0]), acts[1..]);
    }
  }
}
