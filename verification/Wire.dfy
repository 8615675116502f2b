/**
 One direction of a connection as a step system: any number of threads calling write() under the
 write lock, the kernel moving bytes in pieces of any size, and one thread inside read().
 Whatever the interleaving, the messages delivered are the messages written, in lock order.
 */
module Wire {
  import opened Codec
  import opened Messages

  // The reader is filling either the header buffer or the body announced by a header.
  datatype Phase = AwaitHeader | AwaitBody(id: uint32, typ: byte, size: uint32)

  /** `order` lists the messages in the order their writers took the lock. */
  datatype State = State(
    lock: Option<seq<byte>>,   // held by a writer that still has these bytes to hand over
    inFlight: seq<byte>,
    phase: Phase,
    buffer: seq<byte>,         // what _read_exactly has filled so far
    order: seq<Message>,
    delivered: seq<Message>)

  datatype Action =
    | Lock(m: Message)
    | Send(n: nat)
    | Unlock
    | Recv(n: nat)
    | HeaderFull
    | BodyFull

  function Init(): State {
    State(None, [], AwaitHeader, [], [], [])
  }

  function Needed(p: Phase): nat {
    if p.AwaitHeader? then HEADER else p.size
  }

  predicate Enabled(s: State, a: Action) {
    match a
    case Lock(_) => s.lock.None?
    case Send(n) => s.lock.Some? && 1 <= n <= |s.lock.value|
    case Unlock => s.lock == Some([])
    case Recv(n) => 1 <= n <= |s.inFlight| && |s.buffer| + n <= Needed(s.phase)
    case HeaderFull => s.phase.AwaitHeader? && |s.buffer| == HEADER
    case BodyFull => s.phase.AwaitBody? && |s.buffer| == s.phase.size
  }

  function Apply(s: State, a: Action): State
    requires Enabled(s, a)
  {
    match a
    case Lock(m) => s.(lock := Some(Frame(m)), order := s.order + [m])
    case Send(n) => s.(lock := Some(s.lock.value[n..]), inFlight := s.inFlight + s.lock.value[..n])
    case Unlock => s.(lock := None)
    case Recv(n) => s.(buffer := s.buffer + s.inFlight[..n], inFlight := s.inFlight[n..])
    case HeaderFull =>
      HeaderDecodes(s.buffer);
      var fs := Decode(HEADER_KINDS, s.buffer, 0).fields.value;
      s.(phase := AwaitBody(fs[0].u32, fs[1].u8, fs[2].u32), buffer := [])
    case BodyFull =>
      var m := Message(s.phase.id, s.phase.typ, s.buffer);
      s.(phase := AwaitHeader, buffer := [], delivered := s.delivered + [m])
  }

  // ---------- The invariant ----------

  function Unsent(s: State): seq<byte> {
    if s.lock.Some? then s.lock.value else []
  }

  /** The bytes of the message being read. */
  function Partial(s: State): seq<byte> {
    match s.phase
    case AwaitHeader => s.buffer
    case AwaitBody(id, typ, size) => Header(id, typ, size) + s.buffer
  }

  ghost predicate Inv(s: State) {
    && |s.buffer| <= Needed(s.phase)
    && s.delivered <= s.order
    && FrameAll(s.order[|s.delivered|..]) == Partial(s) + s.inFlight + Unsent(s)
  }

  lemma LockKeepsInv(s: State, m: Message)
    requires Inv(s) && s.lock.None?
    ensures Inv(Apply(s, Lock(m)))
  {
    var left := s.order[|s.delivered|..];
    assert (s.order + [m])[|s.delivered|..] == left + [m];
    FrameAllSnoc(left, m);
    assert Partial(s) + s.inFlight + [] == Partial(s) + s.inFlight;
  }

  lemma SendKeepsInv(s: State, n: nat)
    requires Inv(s) && Enabled(s, Send(n))
    ensures Inv(Apply(s, Send(n)))
  {
    var u := s.lock.value;
    assert u == u[..n] + u[n..];
    Assoc(Partial(s), s.inFlight, u[..n]);
    Assoc(Partial(s) + s.inFlight, u[..n], u[n..]);
  }

  lemma RecvKeepsInv(s: State, n: nat)
    requires Inv(s) && Enabled(s, Recv(n))
    ensures Inv(Apply(s, Recv(n)))
  {
    var head, tail := s.inFlight[..n], s.inFlight[n..];
    assert s.inFlight == head + tail;
    Assoc(Partial(s), head, tail);
    if s.phase.AwaitBody? {
      Assoc(Header(s.phase.id, s.phase.typ, s.phase.size), s.buffer, head);
    }
  }

  lemma BodyKeepsInv(s: State)
    requires Inv(s) && Enabled(s, BodyFull)
    ensures Inv(Apply(s, BodyFull))
    ensures |s.delivered| < |s.order| && Apply(s, BodyFull).delivered == s.delivered + [s.order[|s.delivered|]]
  {
    var m := Message(s.phase.id, s.phase.typ, s.buffer);
    var left := s.order[|s.delivered|..];
    FrameIsHeaderAndBody(m);
    HeaderShape(m.id, m.typ, |m.data|);
    assert Partial(s) == Frame(m);
    Assoc(Partial(s), s.inFlight, Unsent(s));
    assert |FrameAll(left)| >= HEADER;
    FrameIsHeaderAndBody(left[0]);
    PrefixFree(FrameFields(m), FrameFields(left[0]), s.inFlight + Unsent(s), FrameAll(left[1..]));
    assert FrameFields(m)[0] == FrameFields(left[0])[0] && FrameFields(m)[1] == FrameFields(left[0])[1]
        && FrameFields(m)[2] == FrameFields(left[0])[2];
    assert s.order[|s.delivered| + 1..] == left[1..];
    assert [] + s.inFlight + Unsent(s) == s.inFlight + Unsent(s);
  }

  lemma StepKeepsInv(s: State, a: Action)
    requires Inv(s) && Enabled(s, a)
    ensures Inv(Apply(s, a))
  {
    match a {
      case Lock(m) => LockKeepsInv(s, m);
      case Send(n) => SendKeepsInv(s, n);
      case Unlock =>
      case Recv(n) => RecvKeepsInv(s, n);
      case HeaderFull =>
        HeaderDecodes(s.buffer);
        var p := Apply(s, a).phase;
        assert Header(p.id, p.typ, p.size) + [] == s.buffer;
      case BodyFull => BodyKeepsInv(s);
    }
  }

  // ---------- Runs ----------

  /** The state after a run, or None when some action of it was not enabled. */
  function Run(s: State, acts: seq<Action>): Option<State>
    decreases acts
  {
    if acts == [] then Some(s)
    else if Enabled(s, acts[0]) then Run(Apply(s, acts[0]), acts[1..])
    else None
  }

  lemma {:induction false} RunKeepsInv(s: State, acts: seq<Action>)
    requires Inv(s) && Run(s, acts).Some?
    ensures Inv(Run(s, acts).value)
    decreases acts
  {
    if acts != [] {
      StepKeepsInv(s, acts[0]);
      RunKeepsInv(Apply(s, acts[0]), acts[1..]);
    }
  }

  /** Safety over every run: what read() has returned is a prefix of the lock order, and once no
      byte is on its way it is all of it. */
  lemma DeliveredIsLockOrder(acts: seq<Action>)
    requires Run(Init(), acts).Some?
    ensures var s := Run(Init(), acts).value;
            && s.delivered <= s.order
            && (Unsent(s) == [] && s.inFlight == [] && Partial(s) == [] ==> s.delivered == s.order)
  {
    assert FrameAll([]) == [];
    RunKeepsInv(Init(), acts);
    var s := Run(Init(), acts).value;
    var left := s.order[|s.delivered|..];
    if left != [] {
      FrameIsHeaderAndBody(left[0]);
    }
  }

  // ---------- Refinement of a message queue ----------

  function Abs(s: State): seq<Message>
    requires s.delivered <= s.order
  {
    s.order[|s.delivered|..]
  }

  /** Every byte-level step is an enqueue at the lock, a dequeue at the end of a body, or nothing. */
  lemma RefinesFifo(s: State, a: Action)
    requires Inv(s) && Enabled(s, a)
    ensures Inv(Apply(s, a))
    ensures var q, q' := Abs(s), Abs(Apply(s, a));
            match a
            case Lock(m) => q' == q + [m]
            case BodyFull => q == [Message(s.phase.id, s.phase.typ, s.buffer)] + q'
            case _ => q' == q
  {
    StepKeepsInv(s, a);
    if a.BodyFull? {
      BodyKeepsInv(s);
    }
  }

  /** The reader never starves on bytes that are there: with anything left to deliver some step
      other than taking the lock is enabled. */
  lemma NeverStuck(s: State)
    requires Inv(s) && Abs(s) != []
    ensures Enabled(s, Recv(1)) || Enabled(s, Send(1)) || Enabled(s, HeaderFull) || Enabled(s, BodyFull)
  {
    var left := Abs(s);
    FrameIsHeaderAndBody(left[0]);
    if s.inFlight == [] && Unsent(s) == [] && |s.buffer| < Needed(s.phase) {
      assert FrameAll(left) == Partial(s);
      var f := Frame(left[0]);
      assert f <= Partial(s);
      if s.phase.AwaitBody? {
        var h := Header(s.phase.id, s.phase.typ, s.phase.size);
        HeaderShape(s.phase.id, s.phase.typ, s.phase.size);
        assert Partial(s)[..HEADER] == h;
        CompleteExactly(Partial(s), s.phase.id, s.phase.typ, s.phase.size);
        assert Partial(s)[..|f|] == f;
        NextFrameExact(Partial(s), left[0]);
        assert false;
      }
    }
  }

  // ---------- Everything arrives ----------

  /** How many steps the bytes on their way and the writer at work can still cause. */
  function Pending(s: State): nat {
    3 * |Unsent(s)| + (if s.lock.Some? then 1 else 0) + 2 * |s.inFlight| + |s.buffer|
    + (if s.phase.AwaitBody? then 1 else 0)
  }

  lemma StepsRunOut(s: State, a: Action)
    requires Enabled(s, a) && !a.Lock?
    ensures Pending(Apply(s, a)) < Pending(s)
  {
  }

  ghost predicate CanMove(s: State) {
    exists a: Action :: !a.Lock? && Enabled(s, a)
  }

  lemma Moves(s: State, a: Action)
    requires !a.Lock? && Enabled(s, a)
    ensures CanMove(s)
  {
  }

  lemma StillMoves(s: State)
    requires Inv(s) && (s.lock.Some? || Abs(s) != [])
    ensures CanMove(s)
  {
    if s.lock.Some? {
      if s.lock.value == [] { Moves(s, Unlock); } else { Moves(s, Send(1)); }
    } else {
      NeverStuck(s);
      if Enabled(s, Recv(1)) { Moves(s, Recv(1)); }
      else if Enabled(s, HeaderFull) { Moves(s, HeaderFull); }
      else { Moves(s, BodyFull); }
    }
  }

  lemma {:induction false} QuietRun(s: State, acts: seq<Action>)
    requires Inv(s) && Run(s, acts).Some? && forall i :: 0 <= i < |acts| ==> !acts[i].Lock?
    ensures var s' := Run(s, acts).value;
            Inv(s') && |acts| + Pending(s') <= Pending(s) && s'.order == s.order
    decreases acts
  {
    if acts != [] {
      StepKeepsInv(s, acts[0]);
      StepsRunOut(s, acts[0]);
      QuietRun(Apply(s, acts[0]), acts[1..]);
    }
  }

  /** Every message arrives, and the write lock is released. From any reachable state, with no further
      write, a bounded number of steps is possible, in any order and with chunks of any size; when none
      is left, every message has been delivered, in lock order, and the lock is free. */
  lemma EverythingArrives(acts: seq<Action>, s: State, rest: seq<Action>, s': State)
    requires Run(Init(), acts) == Some(s) && Run(s, rest) == Some(s')
    requires forall i :: 0 <= i < |rest| ==> !rest[i].Lock?
    ensures |rest| <= Pending(s)
    ensures !CanMove(s') ==> s'.delivered == s.order && s'.lock.None?
  {
    Reached(acts, s);
    QuietRun(s, rest);
    if !CanMove(s') {
      if s'.lock.Some? || Abs(s') != [] {
        StillMoves(s');
      }
      NothingOwed(s');
    }
  }

  lemma Reached(acts: seq<Action>, s: State)
    requires Run(Init(), acts) == Some(s)
    ensures Inv(s)
  {
    assert FrameAll([]) == [];
    RunKeepsInv(Init(), acts);
  }

  lemma NothingOwed(s: State)
    requires Inv(s) && Abs(s) == []
    ensures s.delivered == s.order
  {
  }
}
