/**
 Who is left waiting when the reader goes: nobody after a failure of the reader, and exactly whom
 when disconnect() lets the reader leave its loop without draining.
 */
module RpcStranding {
  import opened Codec
  import opened Commands
  import opened Rpc
  import opened RpcInvariant
  import opened RpcTheorems

  // ---------- No caller is stranded ----------

  /** Once the reader has left its loop, and nobody called disconnect(), every promise ever
      registered is resolved; no later state registers another, so each later caller is refused. */
  lemma NoStrandedCaller(spec: Spec, handlers: nat, acts: seq<Action>, s: State, later: seq<Action>)
    requires SafeRun(spec, handlers, acts, s) && s.reader.RExited? && !s.disconnected
    requires Run(spec, s, later).Some?
    ensures var s' := Run(spec, s, later).value;
            forall n :: 0 <= n < |s'.calls| && WasRegistered(s'.calls[n].pc) ==>
              s'.calls[n].outcome.Some? && n < |s.calls| && WasRegistered(s.calls[n].pc)
  {
    Reached(spec, handlers, acts, s);
    DrainedForGood(spec, s, later);
  }

  lemma {:induction false} DrainedForGood(spec: Spec, s: State, later: seq<Action>)
    requires Inv(spec, s) && s.drained && Run(spec, s, later).Some?
    ensures var s' := Run(spec, s, later).value;
            forall n :: 0 <= n < |s'.calls| && WasRegistered(s'.calls[n].pc) ==>
              s'.calls[n].outcome.Some? && n < |s.calls| && WasRegistered(s.calls[n].pc)
    decreases later
  {
    if later == [] {
      DrainedMeansResolved(spec, s);
    } else {
      NobodyOverwrites(s, later[0]);
      StepKeepsInv(spec, s, later[0]);
      NoNewRegistration(spec, s, later[0]);
      DrainedForGood(spec, Apply(spec, s, later[0]), later[1..]);
    }
  }

  /** In a drained state nobody waits: what is pending was given the exception. */
  lemma DrainedMeansResolved(spec: Spec, s: State)
    requires Inv(spec, s) && s.drained
    ensures forall n :: 0 <= n < |s.calls| && WasRegistered(s.calls[n].pc) ==> s.calls[n].outcome.Some?
  {
    forall n | 0 <= n < |s.calls| && WasRegistered(s.calls[n].pc) ensures s.calls[n].outcome.Some? {
      assert GoodCall(s, n);
    }
  }

  lemma NobodyIsRegistering(s: State, n: nat)
    requires GoodCalls(s) && s.lock.None?
    ensures !CallAt(s, n, Checked)
  {
    if n < |s.calls| {
      assert GoodCall(s, n);
    }
  }

  lemma NobodyOverwrites(s: State, a: Action)
    requires GoodCalls(s) && GoodReader(s) && s.drained && (a.Client? ==> ClientEnabled(s, a.c))
    ensures FindsFree(s, a)
  {
    if a.Client? && a.c.Register? {
      NobodyIsRegistering(s, a.c.n);
    }
  }

  predicate NothingNew(s: State, s': State) {
    && s'.drained
    && (forall n :: 0 <= n < |s'.calls| && WasRegistered(s'.calls[n].pc) ==>
          n < |s.calls| && WasRegistered(s.calls[n].pc))
  }

  lemma ClientRefused(s: State, c: ClientAction)
    requires GoodCalls(s) && GoodReader(s) && s.drained && ClientEnabled(s, c)
    ensures NothingNew(s, ClientApply(s, c))
  {
    if c.Register? || c.LockAndCheck? {
      NobodyIsRegistering(s, c.n);
    }
  }

  lemma ReaderRegistersNothing(s: State, r: ReaderAction)
    requires s.drained && ReaderEnabled(s, r)
    ensures NothingNew(s, ReaderApply(s, r))
  {
  }

  lemma NoNewRegistration(spec: Spec, s: State, a: Action)
    requires Inv(spec, s) && s.drained && Enabled(spec, s, a)
    ensures NothingNew(s, Apply(spec, s, a))
  {
    match a {
      case Client(c) => ClientRefused(s, c);
      case Reader(r) => ReaderRegistersNothing(s, r);
      case Worker(w) => WorkerFrame(s, w);
      case Handler(h, ha) => HandlerFrame(spec, s, h, ha);
      case Queue(_) =>
    }
  }

  // ---------- A failure of the reader drains ----------

  ghost predicate ReaderFailed(acts: seq<Action>) {
    exists i :: 0 <= i < |acts| && acts[i] == Reader(Fail)
  }

  /** The reader's catch block is running or has run. */
  predicate Caught(s: State) {
    s.reader.RFailing? || s.reader.RDraining? || s.drained
  }

  lemma ReaderStaysCaught(s: State, r: ReaderAction)
    requires ReaderEnabled(s, r) && (Caught(s) || r.Fail?)
    ensures Caught(ReaderApply(s, r))
  {
  }

  lemma StepStaysCaught(spec: Spec, s: State, a: Action)
    requires Enabled(spec, s, a) && (Caught(s) || a == Reader(Fail))
    ensures Caught(Apply(spec, s, a))
  {
    match a {
      case Client(c) => ClientLeavesReader(s, c);
      case Reader(r) => ReaderStaysCaught(s, r);
      case Worker(w) => WorkerFrame(s, w);
      case Handler(h, ha) => HandlerFrame(spec, s, h, ha);
      case Queue(_) =>
    }
  }

  lemma ClientLeavesReader(s: State, c: ClientAction)
    requires ClientEnabled(s, c)
    ensures ClientApply(s, c).reader == s.reader && ClientApply(s, c).drained == s.drained
  {
  }

  /** A failed read is never forgotten: from then on the catch block is running or has run. */
  lemma {:induction false} FailureIsCaught(spec: Spec, s: State, acts: seq<Action>)
    requires Run(spec, s, acts).Some? && (Caught(s) || ReaderFailed(acts))
    ensures Caught(Run(spec, s, acts).value)
    decreases acts
  {
    if acts != [] {
      if Caught(s) || acts[0] == Reader(Fail) {
        StepStaysCaught(spec, s, acts[0]);
      } else {
        var i :| 0 <= i < |acts| && acts[i] == Reader(Fail);
        assert acts[1..][i - 1] == Reader(Fail);
      }
      FailureIsCaught(spec, Apply(spec, s, acts[0]), acts[1..]);
    }
  }

  /** And the catch block gets through: clearing the flag needs nobody, and draining only waits for
      a caller that holds the lock, who can register and let go at once. */
  lemma CatchBlockGetsThrough(spec: Spec, s: State)
    requires Inv(spec, s) && Caught(s)
    ensures s.reader.RFailing? ==> ReaderEnabled(s, Clear) && ReaderApply(s, Clear).reader.RDraining?
    ensures s.reader.RDraining? && s.lock.None? ==> ReaderEnabled(s, Drain) && ReaderApply(s, Drain).drained
    ensures s.reader.RDraining? && s.lock.Some? ==>
              var n := s.lock.value;
              ClientEnabled(s, Register(n)) && ClientApply(s, Register(n)).lock.None?
              && ClientApply(s, Register(n)).reader == s.reader
  {
  }

  // ---------- disconnect() beside other calls ----------

  /** A caller blocked in future.get() on a promise nobody will ever touch. */
  predicate Stranded(s: State, n: nat) {
    s.reader.RExited? && CallAt(s, n, Written) && s.calls[n].outcome.None?
  }

  /** Some continuation strands call `n`. */
  ghost predicate CanStrand(spec: Spec, s: State, n: nat) {
    exists later :: NoOverwrite(spec, s, later) && Run(spec, s, later).Some? && Stranded(Run(spec, s, later).value, n)
  }

  /** No continuation strands anybody. */
  ghost predicate StrandsNobody(spec: Spec, s: State) {
    forall n: nat :: !CanStrand(spec, s, n)
  }

  lemma ClientLeavesStranded(s: State, c: ClientAction, n: nat)
    requires GoodPending(s) && ClientEnabled(s, c) && Stranded(s, n)
    requires c.Register? ==> IdOf(c.n) !in s.pending
    ensures Stranded(ClientApply(s, c), n)
  {
  }

  lemma StrandedByStep(spec: Spec, s: State, a: Action, n: nat)
    requires Inv(spec, s) && FindsFree(s, a) && Enabled(spec, s, a) && Stranded(s, n)
    ensures Stranded(Apply(spec, s, a), n)
  {
    match a {
      case Client(c) => ClientLeavesStranded(s, c, n);
      case Reader(_) =>
      case Worker(w) => WorkerFrame(s, w);
      case Handler(h, ha) => HandlerFrame(spec, s, h, ha);
      case Queue(_) =>
    }
  }

  /** A stranded caller stays blocked in every later state. */
  lemma {:induction false} StrandedForever(spec: Spec, s: State, later: seq<Action>, n: nat)
    requires Inv(spec, s) && Stranded(s, n) && NoOverwrite(spec, s, later) && Run(spec, s, later).Some?
    ensures Stranded(Run(spec, s, later).value, n)
    decreases later
  {
    if later != [] {
      StepKeepsInv(spec, s, later[0]);
      StrandedByStep(spec, s, later[0], n);
      StrandedForever(spec, Apply(spec, s, later[0]), later[1..], n);
    }
  }

  // ---------- Who can still be stranded ----------

  /** Call `n` waits for the reader or is about to: its promise is in the map and its write has not
      failed, or it stands between its check of the flag and its registration. */
  predicate Threatened(s: State, n: nat) {
    !s.drained && (s.lock == Some(n) || (n < |s.calls| && IsPending(s.pending, n) && !s.calls[n].pc.WriteFailed?))
  }

  /** The flag is down, and call `n` has its outcome or never will wait for one. */
  predicate OutOfReach(s: State, n: nat) {
    !s.connected && (n < |s.calls| ==>
      s.calls[n].outcome.Some? || s.calls[n].pc.Invoked? || s.calls[n].pc.Refused? || s.calls[n].pc.WriteFailed?)
  }

  lemma OutOfReachExactly(spec: Spec, s: State, n: nat)
    requires Inv(spec, s) && !s.connected
    ensures OutOfReach(s, n) <==> !Threatened(s, n)
  {
    if n < |s.calls| {
      assert GoodCall(s, n);
    }
  }

  lemma ClientKeepsOut(s: State, c: ClientAction, n: nat)
    requires GoodPending(s) && ClientEnabled(s, c) && OutOfReach(s, n)
    requires c.Register? ==> IdOf(c.n) !in s.pending
    ensures OutOfReach(ClientApply(s, c), n)
  {
  }

  lemma ReaderKeepsOut(s: State, r: ReaderAction, n: nat)
    requires ReaderEnabled(s, r) && OutOfReach(s, n)
    ensures OutOfReach(ReaderApply(s, r), n)
  {
  }

  lemma StepKeepsOut(spec: Spec, s: State, a: Action, n: nat)
    requires Inv(spec, s) && FindsFree(s, a) && Enabled(spec, s, a) && OutOfReach(s, n)
    ensures OutOfReach(Apply(spec, s, a), n)
  {
    match a {
      case Client(c) => ClientKeepsOut(s, c, n);
      case Reader(r) => ReaderKeepsOut(s, r, n);
      case Worker(w) => WorkerFrame(s, w);
      case Handler(h, ha) => HandlerFrame(spec, s, h, ha);
      case Queue(_) =>
    }
  }

  lemma {:induction false} StaysOutOfReach(spec: Spec, s: State, later: seq<Action>, n: nat)
    requires Inv(spec, s) && OutOfReach(s, n) && NoOverwrite(spec, s, later) && Run(spec, s, later).Some?
    ensures !Stranded(Run(spec, s, later).value, n)
    decreases later
  {
    if later != [] {
      StepKeepsInv(spec, s, later[0]);
      StepKeepsOut(spec, s, later[0], n);
      StaysOutOfReach(spec, Apply(spec, s, later[0]), later[1..], n);
    }
  }

  lemma StrandsNow(spec: Spec, s: State, n: nat)
    requires Stranded(s, n)
    ensures CanStrand(spec, s, n)
  {
    assert NoOverwrite(spec, s, []) && Run(spec, s, []) == Some(s);
  }

  lemma StrandsLater(spec: Spec, s: State, a: Action, n: nat)
    requires Enabled(spec, s, a) && FindsFree(s, a) && CanStrand(spec, Apply(spec, s, a), n)
    ensures CanStrand(spec, s, n)
  {
    var s' := Apply(spec, s, a);
    var later :| NoOverwrite(spec, s', later) && Run(spec, s', later).Some? && Stranded(Run(spec, s', later).value, n);
    var all := [a] + later;
    assert all[1..] == later;
    Unfold(spec, s, all);
    assert NoOverwrite(spec, s, all);
    assert Stranded(Run(spec, s, all).value, n);
  }

  /** The reader has gone and call `n` is registered and unresolved: it has only to write. */
  lemma RegisteredStrands(spec: Spec, s: State, n: nat)
    requires s.reader.RExited? && n < |s.calls| && s.calls[n].outcome.None?
    requires s.calls[n].pc.Registered? || s.calls[n].pc.Written?
    ensures CanStrand(spec, s, n)
  {
    if s.calls[n].pc.Registered? {
      StrandsNow(spec, ClientApply(s, Write(n)), n);
      StrandsLater(spec, s, Client(Write(n)), n);
    } else {
      StrandsNow(spec, s, n);
    }
  }

  lemma HolderStrands(spec: Spec, s: State, n: nat)
    requires s.reader.RExited? && CallAt(s, n, Checked) && s.calls[n].outcome.None? && IdOf(n) !in s.pending
    ensures CanStrand(spec, s, n)
  {
    RegisteredStrands(spec, ClientApply(s, Register(n)), n);
    StrandsLater(spec, s, Client(Register(n)), n);
  }

  lemma ThreatenedStrands(spec: Spec, s: State, n: nat)
    requires Inv(spec, s) && s.reader.RTesting? && !s.connected && Threatened(s, n)
    requires s.lock == Some(n) ==> IdOf(n) !in s.pending
    ensures CanStrand(spec, s, n)
  {
    var left := ReaderApply(s, Test);
    assert GoodCall(s, n);
    if s.lock == Some(n) {
      HolderStrands(spec, left, n);
    } else {
      RegisteredStrands(spec, left, n);
    }
    StrandsLater(spec, s, Reader(Test), n);
  }

  /** The exact condition, call by call: with the flag down and the reader at its loop test, some
      continuation blocks call `n` for ever if and only if it is threatened. */
  lemma StrandsExactly(spec: Spec, s: State, n: nat)
    requires Inv(spec, s) && s.reader.RTesting? && !s.connected
    requires s.lock == Some(n) ==> IdOf(n) !in s.pending
    ensures CanStrand(spec, s, n) <==> Threatened(s, n)
  {
    OutOfReachExactly(spec, s, n);
    if Threatened(s, n) {
      ThreatenedStrands(spec, s, n);
    } else if CanStrand(spec, s, n) {
      var later :| NoOverwrite(spec, s, later) && Run(spec, s, later).Some? && Stranded(Run(spec, s, later).value, n);
      StaysOutOfReach(spec, s, later, n);
    }
  }

  /** Every promise still in the map belongs to a call whose write has failed, and which has thrown. */
  predicate OnlyFailedWritesPending(s: State) {
    forall id :: id in s.pending ==> s.pending[id] < |s.calls| && s.calls[s.pending[id]].pc.WriteFailed?
  }

  /** The exact condition for all calls: a reader about to leave its loop strands nobody, now or
      later, if and only if its catch block has drained the map, or nobody holds the lock to register
      and what is pending are failed writes. */
  lemma LeavesCleanlyExactly(spec: Spec, s: State)
    requires Inv(spec, s) && s.reader.RTesting? && !s.connected
    requires s.lock.Some? ==> IdOf(s.lock.value) !in s.pending
    ensures StrandsNobody(spec, s) <==> s.drained || (s.lock.None? && OnlyFailedWritesPending(s))
  {
    forall n: nat ensures CanStrand(spec, s, n) <==> Threatened(s, n) {
      StrandsExactly(spec, s, n);
    }
    if !s.drained {
      if s.lock.Some? {
        assert Threatened(s, s.lock.value);
      } else {
        forall id | id in s.pending
          ensures s.calls[s.pending[id]].pc.WriteFailed? <==> !Threatened(s, s.pending[id])
        {
        }
      }
    }
  }

  /** disconnect() clearing the flag while the reader stands at its loop test. If the reader tests it
      next, exactly the calls waiting at that moment are stranded at once; and over all continuations
      exactly the threatened ones can be. */
  lemma DisconnectStrandsTheWaiting(spec: Spec, s: State, d: nat, n: nat)
    requires Inv(spec, s) && s.reader.RTesting? && !s.drained && ClientEnabled(s, ClearConnected(d))
    requires s.lock == Some(n) ==> IdOf(n) !in s.pending
    ensures var cleared := ClientApply(s, ClearConnected(d));
            && ReaderEnabled(cleared, Test)
            && (Stranded(ReaderApply(cleared, Test), n) <==> CallAt(s, n, Written) && IsPending(s.pending, n))
            && (CanStrand(spec, cleared, n) <==> Threatened(s, n))
  {
    var cleared := ClientApply(s, ClearConnected(d));
    if n < |s.calls| {
      assert GoodCall(s, n);
    }
    StepKeepsInv(spec, s, Client(ClearConnected(d)));
    StrandsExactly(spec, cleared, n);
  }

  // ---------- A run that strands a caller ----------

  function LeavingUndrained(d: nat, n: nat): seq<Action> {
    [Client(Write(n)), Client(WriteFail(d)), Client(ClearConnected(d)), Reader(Test)]
  }

  lemma LeaveUndrained(spec: Spec, s: State, d: nat, n: nat)
    requires s.reader.RTesting? && CallAt(s, d, Registered) && s.calls[d].req.typ == DISCONNECT
    requires CallAt(s, n, Registered) && s.calls[n].outcome.None? && n != d
    ensures var r := Run(spec, s, LeavingUndrained(d, n));
            r.Some? && Stranded(r.value, n)
  {
    var acts := LeavingUndrained(d, n);
    var s1, s2, s3 := LeavingSteps(s, d, n);
    assert acts[1..][1..] == acts[2..] && acts[2..][1..] == acts[3..] && acts[3..][1..] == [];
    Unfold(spec, s3, acts[3..]);
    Unfold(spec, s2, acts[2..]);
    Unfold(spec, s1, acts[1..]);
    Unfold(spec, s, acts);
  }

  lemma LeavingSteps(s: State, d: nat, n: nat) returns (s1: State, s2: State, s3: State)
    requires s.reader.RTesting? && CallAt(s, d, Registered) && s.calls[d].req.typ == DISCONNECT
    requires CallAt(s, n, Registered) && s.calls[n].outcome.None? && n != d
    ensures s1 == ClientApply(s, Write(n))
    ensures ClientEnabled(s1, WriteFail(d)) && s2 == ClientApply(s1, WriteFail(d))
    ensures ClientEnabled(s2, ClearConnected(d)) && s3 == ClientApply(s2, ClearConnected(d))
    ensures ReaderEnabled(s3, Test) && Stranded(ReaderApply(s3, Test), n)
  {
    s1 := ClientApply(s, Write(n));
    s2 := ClientApply(s1, WriteFail(d));
    s3 := ClientApply(s2, ClearConnected(d));
  }

  /** Such a run exists: call 0 is written and waits; disconnect(), call 1, fails to write and clears
      the flag; the reader tests it and leaves. */
  lemma DisconnectCanStrand(spec: Spec, handlers: nat)
    ensures var acts := Registering(Request(1, []), 0) + Registering(Request(DISCONNECT, []), 1) + LeavingUndrained(1, 0);
            Run(spec, Init(handlers), acts).Some? && Stranded(Run(spec, Init(handlers), acts).value, 0)
  {
    var s0 := Init(handlers);
    var a, b := Registering(Request(1, []), 0), Registering(Request(DISCONNECT, []), 1);
    RegisterUndisturbed(spec, s0, Request(1, []));
    var s1 := Run(spec, s0, a).value;
    RegisterUndisturbed(spec, s1, Request(DISCONNECT, []));
    var s2 := Run(spec, s1, b).value;
    LeaveUndrained(spec, s2, 1, 0);
    RunsJoin(spec, s0, a, s1, b, s2, LeavingUndrained(1, 0));
  }
}
