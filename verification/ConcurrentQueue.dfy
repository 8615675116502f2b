/**
 base/ConcurrentQueue as a step system. Every lock acquisition, predicate test, wait, flag access
 and notification is a step of its own, so `_shutdown` can change under a consumer that holds the
 mutex. Consumers are numbered; producers and shutdown callers need no identity.
 */
module ConcurrentQueue {
  import opened Codec

  // Where a consumer is inside pop(): about to lock, holding the lock and testing the wait
  // predicate, past it with either outcome, asleep on the condition variable, or awake again
  // (notified or spuriously) and waiting for the lock.
  datatype Pc = Idle | Entering | Checking | GoingToSleep | Passed | Asleep | Woken

  datatype State<T> = State(
    items: seq<T>,
    flag: bool,             // _shutdown
    mutex: Option<nat>,     // the consumer holding _mx between steps
    pcs: seq<Pc>,
    sawClear: nat,          // shutdown() calls that read the flag as false and have not set it
    flagSetters: nat,       // shutdown() calls that set the flag and have not yet notified
    broadcast: bool,        // some shutdown() call has finished its notify_all
    pushed: seq<T>,         // history
    popped: seq<T>)

  datatype Action<T> =
    | Push(value: T, wake: Option<nat>)   // the lock region of push, with notify_one's choice
    | Enter(c: nat)
    | Acquire(c: nat)
    | Test(c: nat)
    | Sleep(c: nat)
    | Take(c: nat)
    | Throw(c: nat)
    | Spurious(c: nat)
    | ShutdownRead
    | ShutdownSet
    | ShutdownNotify

  function Init<T>(consumers: nat): State<T> {
    State([], false, None, seq(consumers, _ => Idle), 0, 0, false, [], [])
  }

  predicate At<T>(s: State<T>, c: nat, p: Pc) {
    c < |s.pcs| && s.pcs[c] == p
  }

  predicate SomeoneAsleep(pcs: seq<Pc>) {
    Asleep in pcs
  }

  predicate Enabled<T>(s: State<T>, a: Action<T>) {
    match a
    case Push(_, wake) =>
      && s.mutex.None?
      && (if SomeoneAsleep(s.pcs) then wake.Some? && At(s, wake.value, Asleep) else wake.None?)
    case Enter(c) => At(s, c, Idle)
    case Acquire(c) => s.mutex.None? && (At(s, c, Entering) || At(s, c, Woken))
    case Test(c) => At(s, c, Checking)
    case Sleep(c) => At(s, c, GoingToSleep)
    case Take(c) => At(s, c, Passed) && !s.flag
    case Throw(c) => At(s, c, Passed) && s.flag
    case Spurious(c) => At(s, c, Asleep)
    case ShutdownRead => !s.flag
    case ShutdownSet => s.sawClear > 0
    case ShutdownNotify => s.flagSetters > 0 && s.mutex.None?
  }

  function WakeAll(pcs: seq<Pc>): (r: seq<Pc>)
    ensures |r| == |pcs|
    ensures forall i :: 0 <= i < |pcs| ==> r[i] == (if pcs[i].Asleep? then Woken else pcs[i])
  {
    seq(|pcs|, i requires 0 <= i < |pcs| => if pcs[i].Asleep? then Woken else pcs[i])
  }

  function Apply<T>(s: State<T>, a: Action<T>): State<T>
    requires Enabled(s, a)
  {
    match a
    case Push(v, wake) =>
      var s' := s.(items := s.items + [v], pushed := s.pushed + [v]);
      if wake.Some? then s'.(pcs := s.pcs[wake.value := Woken]) else s'
    case Enter(c) => s.(pcs := s.pcs[c := Entering])
    case Acquire(c) => s.(mutex := Some(c), pcs := s.pcs[c := Checking])
    case Test(c) => s.(pcs := s.pcs[c := if s.items != [] || s.flag then Passed else GoingToSleep])
    case Sleep(c) => s.(mutex := None, pcs := s.pcs[c := Asleep])
    case Take(c) =>
      // front() on an empty queue is undefined; PopIsSafe shows it never happens.
      if s.items == [] then s
      else s.(mutex := None, pcs := s.pcs[c := Idle], items := s.items[1..], popped := s.popped + [s.items[0]])
    case Throw(c) => s.(mutex := None, pcs := s.pcs[c := Idle])
    case Spurious(c) => s.(pcs := s.pcs[c := Woken])
    case ShutdownRead => s.(sawClear := s.sawClear + 1)
    case ShutdownSet => s.(sawClear := s.sawClear - 1, flag := true, flagSetters := s.flagSetters + 1)
    case ShutdownNotify => s.(flagSetters := s.flagSetters - 1, broadcast := true, pcs := WakeAll(s.pcs))
  }

  // ---------- The invariant ----------

  predicate HoldsLock(p: Pc) {
    p.Checking? || p.GoingToSleep? || p.Passed?
  }

  /** Awake inside wait(): will look at the queue before it can sleep (again). */
  predicate IsAwake(p: Pc) {
    p.Woken? || p.Checking? || p.Passed?
  }

  function Awake(pcs: seq<Pc>): nat {
    if pcs == [] then 0 else (if IsAwake(pcs[0]) then 1 else 0) + Awake(pcs[1..])
  }

  lemma {:induction false} AwakeUpdate(pcs: seq<Pc>, c: nat, p: Pc)
    requires c < |pcs|
    ensures Awake(pcs[c := p]) ==
            Awake(pcs) - (if IsAwake(pcs[c]) then 1 else 0) + (if IsAwake(p) then 1 else 0)
  {
    if c > 0 {
      AwakeUpdate(pcs[1..], c - 1, p);
      assert pcs[c := p][1..] == pcs[1..][c - 1 := p];
    } else {
      assert pcs[c := p][1..] == pcs[1..];
    }
  }

  lemma {:induction false} AwakeExists(pcs: seq<Pc>)
    requires Awake(pcs) > 0
    ensures exists c :: 0 <= c < |pcs| && IsAwake(pcs[c])
  {
    if !IsAwake(pcs[0]) {
      AwakeExists(pcs[1..]);
      var c :| 0 <= c < |pcs[1..]| && IsAwake(pcs[1..][c]);
      assert IsAwake(pcs[c + 1]);
    }
  }

  ghost predicate MutexInv<T>(s: State<T>) {
    && (s.mutex.Some? ==> s.mutex.value < |s.pcs| && HoldsLock(s.pcs[s.mutex.value]))
    && (forall c :: 0 <= c < |s.pcs| && HoldsLock(s.pcs[c]) ==> s.mutex == Some(c))
  }

  ghost predicate TestInv<T>(s: State<T>) {
    forall c :: 0 <= c < |s.pcs| ==>
      && (s.pcs[c].GoingToSleep? ==> s.items == [])
      && (s.pcs[c].Passed? ==> s.items != [] || s.flag)
  }

  /** While not shut down, a sleeper implies that every queued item has an awake consumer. */
  ghost predicate WakeupInv<T>(s: State<T>) {
    !s.flag && SomeoneAsleep(s.pcs) ==> |s.items| <= Awake(s.pcs)
  }

  ghost predicate ShutdownInv<T>(s: State<T>) {
    && (s.flag ==> s.broadcast || s.flagSetters > 0)
    && (s.flagSetters > 0 ==> s.flag)
    && (s.broadcast ==> s.flag && forall c :: 0 <= c < |s.pcs| ==> !s.pcs[c].Asleep? && !s.pcs[c].GoingToSleep?)
  }

  ghost predicate Inv<T>(s: State<T>) {
    && MutexInv(s)
    && TestInv(s)
    && WakeupInv(s)
    && ShutdownInv(s)
    && s.pushed == s.popped + s.items
  }

  lemma InitInv<T>(consumers: nat)
    ensures Inv(Init<T>(consumers))
  {
  }

  lemma WakeupStep<T>(s: State<T>, a: Action<T>)
    requires Inv(s) && Enabled(s, a)
    ensures WakeupInv(Apply(s, a))
  {
    var s' := Apply(s, a);
    match a {
      case Push(_, wake) =>
        if wake.Some? { AwakeUpdate(s.pcs, wake.value, Woken); }
      case Enter(c) => AwakeUpdate(s.pcs, c, Entering); StillAsleep(s.pcs, c, Entering);
      case Acquire(c) => AwakeUpdate(s.pcs, c, Checking); StillAsleep(s.pcs, c, Checking);
      case Test(c) => AwakeUpdate(s.pcs, c, s'.pcs[c]); StillAsleep(s.pcs, c, s'.pcs[c]);
      case Sleep(c) => AwakeUpdate(s.pcs, c, Asleep);
      case Take(c) =>
        if s.items != [] {
          AwakeUpdate(s.pcs, c, Idle);
          StillAsleep(s.pcs, c, Idle);
        }
      case Throw(c) =>
      case Spurious(c) => AwakeUpdate(s.pcs, c, Woken); StillAsleep(s.pcs, c, Woken);
      case ShutdownRead =>
      case ShutdownSet =>
      case ShutdownNotify =>
    }
  }

  lemma StillAsleep(pcs: seq<Pc>, c: nat, p: Pc)
    requires c < |pcs| && !p.Asleep?
    ensures SomeoneAsleep(pcs[c := p]) ==> SomeoneAsleep(pcs)
  {
    if SomeoneAsleep(pcs[c := p]) {
      var i :| 0 <= i < |pcs| && pcs[c := p][i] == Asleep;
      assert pcs[i] == Asleep;
    }
  }

  lemma LocksStep<T>(s: State<T>, a: Action<T>)
    requires Inv(s) && Enabled(s, a)
    ensures MutexInv(Apply(s, a)) && TestInv(Apply(s, a)) && ShutdownInv(Apply(s, a))
  {
    MutexStep(s, a);
    TestStep(s, a);
    ShutdownStep(s, a);
  }

  lemma MutexStep<T>(s: State<T>, a: Action<T>)
    requires MutexInv(s) && Enabled(s, a)
    ensures MutexInv(Apply(s, a))
  {
  }

  lemma TestStep<T>(s: State<T>, a: Action<T>)
    requires MutexInv(s) && TestInv(s) && Enabled(s, a)
    ensures TestInv(Apply(s, a))
  {
  }

  lemma ShutdownStep<T>(s: State<T>, a: Action<T>)
    requires MutexInv(s) && ShutdownInv(s) && Enabled(s, a)
    ensures ShutdownInv(Apply(s, a))
  {
  }

  lemma StepKeepsInv<T>(s: State<T>, a: Action<T>)
    requires Inv(s) && Enabled(s, a)
    ensures Inv(Apply(s, a)) && |Apply(s, a).pcs| == |s.pcs|
  {
    LocksStep(s, a);
    WakeupStep(s, a);
    if a.Push? {
      Assoc(s.popped, s.items, [a.value]);
    }
    if a.Take? && s.items != [] {
      Assoc(s.popped, [s.items[0]], s.items[1..]);
      assert [s.items[0]] + s.items[1..] == s.items;
    }
  }

  function Run<T>(s: State<T>, acts: seq<Action<T>>): Option<State<T>>
    decreases acts
  {
    if acts == [] then Some(s)
    else if Enabled(s, acts[0]) then Run(Apply(s, acts[0]), acts[1..])
    else None
  }

  lemma {:induction false} RunKeepsInv<T>(s: State<T>, acts: seq<Action<T>>)
    requires Inv(s) && Run(s, acts).Some?
    ensures Inv(Run(s, acts).value)
    ensures s.broadcast ==> Run(s, acts).value.broadcast
    decreases acts
  {
    if acts != [] {
      StepKeepsInv(s, acts[0]);
      RunKeepsInv(Apply(s, acts[0]), acts[1..]);
    }
  }

  // ---------- A measure for a consumer's own steps ----------

  function Sum<U(!new)>(xs: seq<U>, w: U -> nat): nat {
    if xs == [] then 0 else w(xs[0]) + Sum(xs[1..], w)
  }

  lemma {:induction false} SumUpdate<U(!new)>(xs: seq<U>, w: U -> nat, i: nat, x: U)
    requires i < |xs|
    ensures Sum(xs[i := x], w) + w(xs[i]) == Sum(xs, w) + w(x)
  {
    if i == 0 {
      assert xs[i := x][1..] == xs[1..];
    } else {
      SumUpdate(xs[1..], w, i - 1, x);
      assert xs[i := x][1..] == xs[1..][i - 1 := x];
    }
  }

  function PcWeight(p: Pc): nat {
    match p
    case Entering => 4
    case Woken => 4
    case Checking => 3
    case Passed => 2
    case GoingToSleep => 1
    case _ => 0
  }

  predicate IsWaitStep<T>(a: Action<T>) {
    a.Acquire? || a.Test? || a.Sleep?
  }

  lemma WaitStepGoesDown<T>(s: State<T>, a: Action<T>)
    requires IsWaitStep(a) && Enabled(s, a)
    ensures Apply(s, a).items == s.items && Sum(Apply(s, a).pcs, PcWeight) < Sum(s.pcs, PcWeight)
  {
    SumUpdate(s.pcs, PcWeight, a.c, Apply(s, a).pcs[a.c]);
  }

  // ---------- What the queue promises ----------

  /** No lost wakeup: in every reachable state that is not shut down, an item waiting beside a
      sleeper means some consumer is awake to take it; between lock regions it is one that has
      been woken and has yet to resume. */
  lemma NoLostWakeup<T>(consumers: nat, acts: seq<Action<T>>)
    requires Run(Init(consumers), acts).Some?
    ensures var s := Run(Init(consumers), acts).value;
            && (!s.flag && SomeoneAsleep(s.pcs) ==> |s.items| <= Awake(s.pcs))
            && (!s.flag && SomeoneAsleep(s.pcs) && s.items != [] ==>
                  exists c :: 0 <= c < |s.pcs| && IsAwake(s.pcs[c]))
            && (!s.flag && SomeoneAsleep(s.pcs) && s.items != [] && s.mutex.None? ==>
                  exists c :: 0 <= c < |s.pcs| && s.pcs[c].Woken?)
  {
    InitInv<T>(consumers);
    RunKeepsInv(Init<T>(consumers), acts);
    var s := Run(Init<T>(consumers), acts).value;
    if !s.flag && SomeoneAsleep(s.pcs) && s.items != [] {
      AwakeExists(s.pcs);
      var c :| 0 <= c < |s.pcs| && IsAwake(s.pcs[c]);
      assert s.mutex.None? ==> s.pcs[c].Woken?;
    }
  }

  /** Once a shutdown() call has notified, no consumer is asleep, none falls asleep in any later
      state, and no item is ever taken again: pop() can only throw. A set flag without that
      notification means a shutdown() call is still about to give it. */
  lemma ShutdownWakesEveryone<T>(consumers: nat, acts: seq<Action<T>>, later: seq<Action<T>>)
    requires Run(Init(consumers), acts).Some?
    requires Run(Run(Init(consumers), acts).value, later).Some?
    ensures var s := Run(Init(consumers), acts).value;
            var s' := Run(s, later).value;
            && (s.flag && !s.broadcast ==> s.flagSetters > 0)
            && (s.broadcast ==> forall c :: 0 <= c < |s'.pcs| ==>
                  !s'.pcs[c].Asleep? && !s'.pcs[c].GoingToSleep? && !Enabled(s', Take(c)))
  {
    InitInv<T>(consumers);
    RunKeepsInv(Init<T>(consumers), acts);
    RunKeepsInv(Run(Init<T>(consumers), acts).value, later);
  }

  /** No consumer is asleep in `s` or in any later state. */
  ghost predicate SleepsNeverAgain<T(!new)>(s: State<T>) {
    forall later, c: nat :: Run(s, later).Some? ==> !At(Run(s, later).value, c, Asleep)
  }

  ghost predicate NoneSleepy<T>(s: State<T>) {
    forall c :: 0 <= c < |s.pcs| ==> !s.pcs[c].Asleep? && !s.pcs[c].GoingToSleep?
  }

  lemma {:induction false} FlagKeepsAwake<T>(s: State<T>, later: seq<Action<T>>)
    requires s.flag && NoneSleepy(s) && Run(s, later).Some?
    ensures NoneSleepy(Run(s, later).value)
    decreases later
  {
    if later != [] {
      var s' := Apply(s, later[0]);
      assert s'.flag && NoneSleepy(s');
      FlagKeepsAwake(s', later[1..]);
    }
  }

  /** What the flag alone promises: once it is set, nobody sleeps from now on if and only if no
      consumer is asleep or has already decided to sleep. */
  lemma FlagSufficesExactly<T(!new)>(s: State<T>)
    requires s.flag
    ensures SleepsNeverAgain(s) <==> NoneSleepy(s)
  {
    if NoneSleepy(s) {
      forall later, c: nat | Run(s, later).Some? ensures !At(Run(s, later).value, c, Asleep) {
        FlagKeepsAwake(s, later);
      }
    } else {
      var c :| 0 <= c < |s.pcs| && (s.pcs[c].Asleep? || s.pcs[c].GoingToSleep?);
      if s.pcs[c].Asleep? {
        assert Run(s, []) == Some(s);
        assert At(s, c, Asleep);
      } else {
        var later: seq<Action<T>> := [Sleep(c)];
        assert later[1..] == [];
        assert Run(s, later) == Some(Apply(s, Sleep(c)));
        assert At(Run(s, later).value, c, Asleep);
      }
    }
  }

  /** Steps a consumer inside pop() still needs to throw once the queue is shut down. */
  function StepsToThrow(p: Pc): nat {
    match p
    case Idle => 0
    case Passed => 1
    case Checking => 2
    case Entering => 3
    case Woken => 3
    case GoingToSleep => 4
    case Asleep => 5
  }

  /** After the broadcast each step of a consumer inside pop() brings it closer to throwing: none
      can circle, and none returns an item. */
  lemma ShutdownTerminatesPop<T>(consumers: nat, acts: seq<Action<T>>, s: State<T>, c: nat, a: Action<T>)
    requires Run(Init(consumers), acts) == Some(s) && s.broadcast && c < |s.pcs| && !s.pcs[c].Idle?
    requires a in {Acquire(c), Test(c), Sleep(c), Take(c), Throw(c), Spurious(c)} && Enabled(s, a)
    ensures StepsToThrow(Apply(s, a).pcs[c]) < StepsToThrow(s.pcs[c])
    ensures Apply(s, a).pcs[c].Idle? ==> a == Throw(c)
  {
    InitInv<T>(consumers);
    RunKeepsInv(Init<T>(consumers), acts);
  }

  /** pop() never calls front() on an empty queue, and whoever holds the mutex between steps has a
      step that is enabled. */
  lemma PopIsSafe<T>(consumers: nat, acts: seq<Action<T>>, s: State<T>)
    requires Run(Init(consumers), acts) == Some(s)
    ensures forall c: nat :: Enabled(s, Take(c)) ==> s.items != []
    ensures s.mutex.Some? ==>
              var c := s.mutex.value;
              Enabled(s, Test(c)) || Enabled(s, Sleep(c)) || Enabled(s, Take(c)) || Enabled(s, Throw(c))
  {
    InitInv<T>(consumers);
    RunKeepsInv(Init<T>(consumers), acts);
  }

  /** A spurious wakeup can hit any sleeper at any time; it is on its way to the lock and to the test
      again, and nothing else has changed: it is no licence to take. */
  lemma SpuriousWakeupIsHarmless<T>(s: State<T>, c: nat)
    requires At(s, c, Asleep)
    ensures Enabled(s, Spurious(c))
    ensures var s' := Apply(s, Spurious(c));
            && At(s', c, Woken) && !Enabled(s', Take(c)) && (s'.mutex.None? ==> Enabled(s', Acquire(c)))
            && s' == s.(pcs := s'.pcs) && |s'.pcs| == |s.pcs|
            && (forall i :: 0 <= i < |s.pcs| && i != c ==> s'.pcs[i] == s.pcs[i])
  {
  }

  /** FIFO and conservation over every run: what has been taken, followed by what is queued, is
      what has been pushed. */
  lemma Fifo<T>(consumers: nat, acts: seq<Action<T>>)
    requires Run(Init(consumers), acts).Some?
    ensures var s := Run(Init(consumers), acts).value;
            s.pushed == s.popped + s.items && s.popped <= s.pushed
  {
    InitInv<T>(consumers);
    RunKeepsInv(Init<T>(consumers), acts);
  }

  /** Without the wait between the flag and the notification a consumer can indeed be asleep on a
      queue whose flag is set: the flag alone promises nothing. */
  lemma FlagAloneDoesNotWake(acts: seq<Action<int>>)
    requires acts == [Enter(0), Acquire(0), ShutdownRead, Test(0), ShutdownSet, Sleep(0)]
    ensures var s := Run(Init<int>(1), acts);
            s.Some? && s.value.flag && At(s.value, 0, Asleep) && !s.value.broadcast
  {
    var s0 := Init<int>(1);
    var s1 := Apply(s0, Enter(0));
    var s2 := Apply(s1, Acquire(0));
    var s3 := Apply(s2, ShutdownRead);
    var s4 := Apply(s3, Test(0));
    var s5 := Apply(s4, ShutdownSet);
    assert Run(s5, [Sleep(0)]) == Run(Apply(s5, Sleep(0)), []);
    assert acts[1..][1..][1..][1..][1..] == [Sleep(0)];
    assert Run(s4, acts[1..][1..][1..][1..]) == Run(s5, [Sleep(0)]);
    assert Run(s3, acts[1..][1..][1..]) == Run(s4, acts[1..][1..][1..][1..]);
    assert Run(s2, acts[1..][1..]) == Run(s3, acts[1..][1..][1..]);
    assert Run(s1, acts[1..]) == Run(s2, acts[1..][1..]);
  }
}
