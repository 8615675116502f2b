/**
 What becomes of a command, for ever.
 */
module CallFates {
  import opened Codec
  import opened Rpc
  import opened RpcInvariant
  import opened RpcTheorems
  import opened RpcProgress
  import C = CommanderModel

  /** The three fates of a command that Commander.dfy tells apart, read off the system's state. */
  function FateOf(s: State, n: nat): C.Trip
    requires n < |s.calls|
  {
    if GotReply(s.calls[n]) then C.Answered
    else if CountLog(s.log, n) > 0 then C.ReplyLost
    else C.NeverRun
  }

  lemma ClientKeepsEnds(s: State, c: ClientAction, n: nat)
    requires GoodCalls(s) && GoodPending(s) && ClientEnabled(s, c) && n < |s.calls|
    requires c.Register? ==> IdOf(c.n) !in s.pending
    ensures Threw(s.calls[n]) ==> Threw(ClientApply(s, c).calls[n])
    ensures s.calls[n].outcome.Some? ==> ClientApply(s, c).calls[n].outcome == s.calls[n].outcome
  {
    if c.Register? {
      RegisterKeepsEnds(s, c.n, n);
    } else {
      assert GoodCall(s, n);
    }
  }

  lemma RegisterKeepsEnds(s: State, m: nat, n: nat)
    requires CallAt(s, m, Checked) && IdOf(m) !in s.pending && n < |s.calls|
    ensures Threw(s.calls[n]) ==> Threw(ClientApply(s, Register(m)).calls[n])
    ensures ClientApply(s, Register(m)).calls[n].outcome == s.calls[n].outcome
  {
  }

  lemma ReaderKeepsEnds(s: State, r: ReaderAction, n: nat)
    requires GoodCalls(s) && GoodPending(s) && GoodReader(s) && Awaited(s) && ReaderEnabled(s, r) && n < |s.calls|
    ensures Threw(s.calls[n]) ==> Threw(ReaderApply(s, r).calls[n])
    ensures s.calls[n].outcome.Some? ==> ReaderApply(s, r).calls[n].outcome == s.calls[n].outcome
  {
    assert GoodCall(s, n);
  }

  lemma StepKeepsEnds(spec: Spec, s: State, a: Action, n: nat)
    requires Inv(spec, s) && FindsFree(s, a) && Enabled(spec, s, a) && n < |s.calls|
    ensures var s' := Apply(spec, s, a);
            && n < |s'.calls| && (Threw(s.calls[n]) ==> Threw(s'.calls[n]))
            && (s.calls[n].outcome.Some? ==> s'.calls[n].outcome == s.calls[n].outcome)
  {
    match a {
      case Client(c) => ClientExtends(s, c); ClientKeepsEnds(s, c, n);
      case Reader(r) => ReplyIsAwaited(s); ReaderExtends(s, r); ReaderKeepsEnds(s, r, n);
      case Worker(w) => WorkerFrame(s, w);
      case Handler(h, ha) => HandlerFrame(spec, s, h, ha);
      case Queue(_) =>
    }
  }

  lemma FateNow(spec: Spec, s: State, n: nat)
    requires Inv(spec, s) && n < |s.calls|
    ensures Threw(s.calls[n]) ==> FateOf(s, n).NeverRun?
    ensures GotReply(s.calls[n]) ==> exists i :: ExecutedAs(s, n, i, s.calls[n].outcome.value.reply)
    ensures CountLog(s.log, n) <= 1
  {
    assert ConservedAt(s, n) && GoodCall(s, n);
    if GotReply(s.calls[n]) {
      ReplyIsOwn(spec, s, n);
      var i :| ExecutedAs(s, n, i, s.calls[n].outcome.value.reply);
      CountLogOf(s.log, i);
    }
  }

  /** The fates are final. A call that was refused or whose write threw is never run, in any later
      state; one that has its reply has run exactly once, with that reply; one that was drained never
      gets a reply, and has run or will run at most once. */
  lemma {:induction false} FateIsFinal(spec: Spec, s: State, later: seq<Action>, n: nat)
    requires Inv(spec, s) && NoOverwrite(spec, s, later) && Run(spec, s, later).Some? && n < |s.calls|
    ensures var s' := Run(spec, s, later).value;
            && n < |s'.calls|
            && (Threw(s.calls[n]) ==> FateOf(s', n).NeverRun?)
            && (GotReply(s.calls[n]) ==>
                  && s'.calls[n].outcome == s.calls[n].outcome && FateOf(s', n).Answered?
                  && exists i :: ExecutedAs(s', n, i, s.calls[n].outcome.value.reply))
            && (s.calls[n].outcome == Some(Drained) ==> !FateOf(s', n).Answered? && CountLog(s'.log, n) <= 1)
    decreases later
  {
    if later == [] {
      FateNow(spec, s, n);
    } else {
      StepKeepsInv(spec, s, later[0]);
      StepKeepsEnds(spec, s, later[0], n);
      FateIsFinal(spec, Apply(spec, s, later[0]), later[1..], n);
    }
  }
}
