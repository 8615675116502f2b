/**
 The descriptor table of FileCommandsHandler under concurrency. Handler threads run open, close
 and read/write commands; each system call and each lock region is a step. The operating system
 may hand out any unused descriptor, including one closed a moment ago.
 */
module Descriptors {
  import opened Codec

  // Where a handler thread is. `file` numbers the successful ::open calls.
  datatype Op =
    | Opened(fd: nat, file: nat)                 // ::open returned, id not drawn yet
    | Drawn(id: int, fd: nat, file: nat)         // id drawn, not in the table yet
    | CloseBegun(id: int)
    | CloseLooked(id: int, found: Option<nat>)   // _get_fd returned; None is -1
    | Closed(id: int)                            // ::close returned, entry not erased yet
    | UseBegun(id: int)
    | UseLooked(id: int, found: Option<nat>)

  // What an open descriptor is there for: the entry of an id, or an open still under way.
  datatype Role = Entry(id: int) | Hand(t: nat)

  datatype State = State(
    os: map<nat, nat>,          // open descriptors, to the files they refer to
    table: map<int, nat>,       // _fds
    nextId: nat,
    ops: map<nat, Op>,
    // history
    role: map<nat, Role>,       // of each open descriptor
    owner: map<int, nat>,       // the file each id was issued for
    drawn: map<int, nat>,       // the thread that drew each id
    closing: map<int, nat>,     // the thread inside a close of the id
    opens: nat,
    closes: nat)

  datatype Action =
    | Open(t: nat, fd: nat)
    | DrawId(t: nat)
    | Emplace(t: nat)
    | CloseCall(t: nat, id: int)
    | CloseLook(t: nat)
    | CloseSys(t: nat)
    | Erase(t: nat)
    | UseCall(t: nat, id: int)
    | UseLook(t: nat)
    | UseSys(t: nat)

  function Init(): State {
    State(map[], map[], 0, map[], map[], map[], map[], map[], 0, 0)
  }

  predicate Enabled(s: State, a: Action) {
    match a
    case Open(t, fd) => t !in s.ops && fd !in s.os
    case DrawId(t) => t in s.ops && s.ops[t].Opened?
    case Emplace(t) => t in s.ops && s.ops[t].Drawn?
    case CloseCall(t, _) => t !in s.ops
    case CloseLook(t) => t in s.ops && s.ops[t].CloseBegun?
    case CloseSys(t) => t in s.ops && s.ops[t].CloseLooked?
    case Erase(t) => t in s.ops && s.ops[t].Closed?
    case UseCall(t, _) => t !in s.ops
    case UseLook(t) => t in s.ops && s.ops[t].UseBegun?
    case UseSys(t) => t in s.ops && s.ops[t].UseLooked?
  }

  function Look(s: State, id: int): Option<nat> {
    if id in s.table then Some(s.table[id]) else None
  }

  function Apply(s: State, a: Action): State
    requires Enabled(s, a)
  {
    match a
    case Open(t, fd) =>
      s.(os := s.os[fd := s.opens], role := s.role[fd := Hand(t)], ops := s.ops[t := Opened(fd, s.opens)],
         opens := s.opens + 1)
    case DrawId(t) =>
      s.(ops := s.ops[t := Drawn(s.nextId, s.ops[t].fd, s.ops[t].file)], nextId := s.nextId + 1,
         drawn := s.drawn[s.nextId := t])
    case Emplace(t) =>
      var o := s.ops[t];
      // map::emplace keeps an existing entry
      s.(table := if o.id in s.table then s.table else s.table[o.id := o.fd], role := s.role[o.fd := Entry(o.id)],
         owner := s.owner[o.id := o.file], ops := s.ops - {t})
    case CloseCall(t, id) => s.(ops := s.ops[t := CloseBegun(id)], closing := s.closing[id := t])
    case CloseLook(t) => s.(ops := s.ops[t := CloseLooked(s.ops[t].id, Look(s, s.ops[t].id))])
    case CloseSys(t) =>
      var o := s.ops[t];
      var s' := s.(ops := s.ops[t := Closed(o.id)]);
      if o.found.Some? && o.found.value in s.os
      then s'.(os := s.os - {o.found.value}, role := s.role - {o.found.value}, closes := s.closes + 1) else s'
    case Erase(t) => s.(table := s.table - {s.ops[t].id}, ops := s.ops - {t}, closing := s.closing - {s.ops[t].id})
    case UseCall(t, id) => s.(ops := s.ops[t := UseBegun(id)])
    case UseLook(t) => s.(ops := s.ops[t := UseLooked(s.ops[t].id, Look(s, s.ops[t].id))])
    case UseSys(t) => s.(ops := s.ops - {t})
  }

  /** The file a read or write in thread `t` is about to reach, or None for EBADF. */
  function Reaches(s: State, t: nat): Option<nat>
    requires t in s.ops && (s.ops[t].UseLooked? || s.ops[t].CloseLooked?)
  {
    var f := s.ops[t].found;
    if f.Some? && f.value in s.os then Some(s.os[f.value]) else None
  }

  // ---------- The clients' discipline ----------

  predicate Closes(o: Op, id: int) {
    (o.CloseBegun? || o.CloseLooked? || o.Closed?) && o.id == id
  }

  predicate Uses(o: Op, id: int) {
    (o.UseBegun? || o.UseLooked?) && o.id == id
  }

  /** An id that stands for nothing and never will again. */
  predicate Dead(s: State, id: int) {
    id < 0 || (id in s.owner && id !in s.table)
  }

  predicate Given(s: State, id: int) {
    id < 0 || id in s.owner
  }

  /** Clients use ids they were given (or a negative one), and while an id has its entry no
      operation on it overlaps a close of it. */
  predicate Disciplined(s: State, a: Action) {
    match a
    case CloseCall(_, id) =>
      Dead(s, id) || (id in s.owner && id !in s.closing && forall t :: t in s.ops ==> !Uses(s.ops[t], id))
    case UseCall(_, id) => Dead(s, id) || (id in s.owner && id !in s.closing)
    case _ => true
  }

  // ---------- The invariant ----------

  predicate IsHeld(o: Op) {
    o.Opened? || o.Drawn?
  }

  /** ::close has returned for this id and its entry is about to be erased. */
  predicate InWindow(s: State, id: int) {
    id in s.closing && s.closing[id] in s.ops && s.ops[s.closing[id]].Closed?
  }

  /** The entry of `id` stands for an open file. */
  predicate Live(s: State, id: int) {
    id in s.table && !InWindow(s, id)
  }

  predicate LiveInv(s: State, id: int) {
    Live(s, id) ==>
      && id in s.owner && s.table[id] in s.os && s.table[id] in s.role
      && s.os[s.table[id]] == s.owner[id] && s.role[s.table[id]] == Entry(id)
  }

  predicate IdInv(s: State, id: int) {
    && (id in s.table ==> id in s.owner)
    && (id in s.owner || id in s.drawn ==> 0 <= id < s.nextId)
    && (id in s.owner ==> s.owner[id] < s.opens)
    && (id in s.closing ==> Given(s, id))
    && (id in s.closing && id in s.table ==> s.closing[id] in s.ops && Closes(s.ops[s.closing[id]], id))
    && (id in s.table && InWindow(s, id) && s.table[id] in s.os ==> s.os[s.table[id]] != s.owner[id])
    && LiveInv(s, id)
  }

  predicate RoleInv(s: State, fd: nat) {
    && (fd in s.os <==> fd in s.role)
    && (fd in s.role ==>
          match s.role[fd]
          case Entry(id) => Live(s, id) && s.table[id] == fd
          case Hand(t) => t in s.ops && IsHeld(s.ops[t]) && s.ops[t].fd == fd)
  }

  predicate OpInv(s: State, t: nat) {
    t in s.ops ==>
      var o := s.ops[t];
      && (IsHeld(o) ==> o.file < s.opens)
      && (IsHeld(o) ==> o.fd in s.os && o.fd in s.role && s.os[o.fd] == o.file && s.role[o.fd] == Hand(t))
      && (o.Drawn? ==> o.id !in s.owner && o.id in s.drawn && s.drawn[o.id] == t)
      && (!IsHeld(o) ==> Given(s, o.id))
      && (!IsHeld(o) && o.id in s.table && Closes(o, o.id) ==> o.id in s.closing && s.closing[o.id] == t)
      && (!IsHeld(o) && o.id in s.table && Uses(o, o.id) ==> o.id !in s.closing)
      && (o.CloseLooked? || o.UseLooked? ==> o.found == Look(s, o.id))
  }

  ghost predicate Inv(s: State) {
    && (forall id :: IdInv(s, id))
    && (forall fd: nat :: RoleInv(s, fd))
    && (forall t: nat :: OpInv(s, t))
    && s.opens == s.closes + |s.os|
  }

  /** In a disciplined state, whoever has looked an id up and not yet finished sees a live entry. */
  lemma LookedIsLive(s: State, t: nat)
    requires OpInv(s, t) && t in s.ops && (s.ops[t].CloseLooked? || s.ops[t].UseLooked?)
    ensures s.ops[t].found.Some? ==> Live(s, s.ops[t].id) && s.table[s.ops[t].id] == s.ops[t].found.value
  {
  }

  lemma IdOpenStep(s: State, a: Action, id: int)
    requires Inv(s) && Enabled(s, a) && (a.Open? || a.DrawId? || a.Emplace?)
    ensures IdInv(Apply(s, a), id)
  {
    assert IdInv(s, id) && OpInv(s, a.t);
    if a.Open? {
      assert RoleInv(s, a.fd);
    } else if a.Emplace? {
      assert IdInv(s, s.ops[a.t].id);
    }
  }

  lemma IdCloseStep(s: State, a: Action, id: int)
    requires Inv(s) && Enabled(s, a) && Disciplined(s, a)
    requires a.CloseCall? || a.CloseLook? || a.CloseSys? || a.Erase?
    ensures IdInv(Apply(s, a), id)
  {
    assert IdInv(s, id) && OpInv(s, a.t);
    if a.CloseSys? {
      LookedIsLive(s, a.t);
      assert IdInv(s, s.ops[a.t].id);
    }
  }

  lemma IdStep(s: State, a: Action, id: int)
    requires Inv(s) && Enabled(s, a) && Disciplined(s, a)
    ensures IdInv(Apply(s, a), id)
  {
    if a.Open? || a.DrawId? || a.Emplace? {
      IdOpenStep(s, a, id);
    } else if a.UseCall? || a.UseLook? || a.UseSys? {
      assert IdInv(s, id) && OpInv(s, a.t);
    } else {
      IdCloseStep(s, a, id);
    }
  }

  lemma RoleHeld(s: State, fd: nat)
    requires Inv(s)
    ensures RoleInv(s, fd)
    ensures fd in s.role ==>
              match s.role[fd]
              case Entry(id) => IdInv(s, id)
              case Hand(t) => OpInv(s, t)
  {
  }

  lemma RoleCloseStep(s: State, a: Action, fd: nat)
    requires Inv(s) && Enabled(s, a) && Disciplined(s, a)
    requires a.CloseCall? || a.CloseLook? || a.CloseSys? || a.Erase?
    ensures RoleInv(Apply(s, a), fd)
  {
    RoleHeld(s, fd);
    assert OpInv(s, a.t);
    match a {
      case CloseCall(_, id) => assert IdInv(s, id);
      case CloseSys(t) => LookedIsLive(s, t); assert IdInv(s, s.ops[t].id);
      case _ =>
    }
  }

  lemma RoleStep(s: State, a: Action, fd: nat)
    requires Inv(s) && Enabled(s, a) && Disciplined(s, a)
    ensures RoleInv(Apply(s, a), fd)
  {
    if a.CloseCall? || a.CloseLook? || a.CloseSys? || a.Erase? {
      RoleCloseStep(s, a, fd);
    } else {
      RoleHeld(s, fd);
      if a.Emplace? {
        assert OpInv(s, a.t) && IdInv(s, s.ops[a.t].id);
      }
    }
  }

  /** The acting thread. */
  lemma OwnOpStep(s: State, a: Action)
    requires Inv(s) && Enabled(s, a) && Disciplined(s, a)
    ensures OpInv(Apply(s, a), a.t)
  {
    assert OpInv(s, a.t);
    match a {
      case DrawId(_) => assert IdInv(s, s.nextId);
      case UseCall(_, id) => assert IdInv(s, id);
      case CloseLook(t) => OwnLook(s, t);
      case CloseSys(t) => OwnClose(s, t);
      case _ =>
    }
  }

  lemma OwnLook(s: State, t: nat)
    requires OpInv(s, t) && Enabled(s, CloseLook(t))
    ensures OpInv(Apply(s, CloseLook(t)), t)
  {
  }

  lemma OwnClose(s: State, t: nat)
    requires OpInv(s, t) && Enabled(s, CloseSys(t))
    ensures OpInv(Apply(s, CloseSys(t)), t)
  {
  }

  /** A thread beside one that opens. */
  lemma OtherOpOpen(s: State, a: Action, t: nat)
    requires Inv(s) && Enabled(s, a) && t != a.t && (a.Open? || a.DrawId? || a.Emplace?)
    ensures OpInv(Apply(s, a), t)
  {
    assert OpInv(s, t) && OpInv(s, a.t);
    match a {
      case Open(_, fd) => assert RoleInv(s, fd);
      case DrawId(_) => assert IdInv(s, s.nextId);
      case Emplace(u) => assert IdInv(s, s.ops[u].id);
    }
  }

  /** A thread beside one that closes. */
  lemma OtherOpClose(s: State, a: Action, t: nat)
    requires Inv(s) && Enabled(s, a) && Disciplined(s, a) && t != a.t
    requires a.CloseCall? || a.CloseLook? || a.CloseSys? || a.Erase?
    ensures OpInv(Apply(s, a), t)
  {
    assert OpInv(s, t);
    match a {
      case CloseCall(_, id) => assert IdInv(s, id);
      case CloseLook(_) =>
      case CloseSys(u) => OtherOpSys(s, u, t);
      case Erase(u) => OtherOpErase(s, u, t);
    }
  }

  lemma OtherOpSys(s: State, u: nat, t: nat)
    requires Inv(s) && Enabled(s, CloseSys(u)) && t != u
    ensures OpInv(Apply(s, CloseSys(u)), t)
  {
    assert OpInv(s, t) && OpInv(s, u);
    LookedIsLive(s, u);
    assert IdInv(s, s.ops[u].id);
  }

  lemma OtherOpErase(s: State, u: nat, t: nat)
    requires Inv(s) && Enabled(s, Erase(u)) && t != u
    ensures OpInv(Apply(s, Erase(u)), t)
  {
    assert OpInv(s, t) && OpInv(s, u);
  }

  lemma OpStep(s: State, a: Action, t: nat)
    requires Inv(s) && Enabled(s, a) && Disciplined(s, a)
    ensures OpInv(Apply(s, a), t)
  {
    if t == a.t {
      OwnOpStep(s, a);
    } else if a.Open? || a.DrawId? || a.Emplace? {
      OtherOpOpen(s, a, t);
    } else if a.CloseCall? || a.CloseLook? || a.CloseSys? || a.Erase? {
      OtherOpClose(s, a, t);
    } else {
      assert OpInv(s, t);
    }
  }

  lemma CountStep(s: State, a: Action)
    requires Inv(s) && Enabled(s, a)
    ensures Apply(s, a).opens == Apply(s, a).closes + |Apply(s, a).os|
  {
    if a.CloseSys? {
      var f := s.ops[a.t].found;
      if f.Some? && f.value in s.os {
        assert Apply(s, a).os.Keys == s.os.Keys - {f.value};
      }
    }
  }

  lemma StepKeepsInv(s: State, a: Action)
    requires Inv(s) && Enabled(s, a) && Disciplined(s, a)
    ensures Inv(Apply(s, a))
  {
    var s' := Apply(s, a);
    forall id ensures IdInv(s', id) { IdStep(s, a, id); }
    forall fd: nat ensures RoleInv(s', fd) { RoleStep(s, a, fd); }
    forall t: nat ensures OpInv(s', t) { OpStep(s, a, t); }
    CountStep(s, a);
  }

  // ---------- Runs ----------

  function Run(s: State, acts: seq<Action>): Option<State>
    decreases acts
  {
    if acts == [] then Some(s)
    else if Enabled(s, acts[0]) then Run(Apply(s, acts[0]), acts[1..])
    else None
  }

  predicate DisciplinedRun(s: State, acts: seq<Action>)
    decreases acts
  {
    acts != [] && Enabled(s, acts[0]) ==> Disciplined(s, acts[0]) && DisciplinedRun(Apply(s, acts[0]), acts[1..])
  }

  lemma {:induction false} RunKeepsInv(s: State, acts: seq<Action>)
    requires Inv(s) && DisciplinedRun(s, acts) && Run(s, acts).Some?
    ensures Inv(Run(s, acts).value)
    decreases acts
  {
    if acts != [] {
      StepKeepsInv(s, acts[0]);
      RunKeepsInv(Apply(s, acts[0]), acts[1..]);
    }
  }

  lemma InitInv()
    ensures Inv(Init())
  {
  }

  /** In every disciplined run an operation on an id reaches the file opened for that id and no
      other, or fails because the id has no entry; this includes ::close itself, and the moment
      between a ::close and the erasure of its entry, when the descriptor may already be reused. */
  lemma ReachesItsOwnFile(acts: seq<Action>, s: State, t: nat)
    requires DisciplinedRun(Init(), acts) && Run(Init(), acts) == Some(s)
    requires t in s.ops && (s.ops[t].UseLooked? || s.ops[t].CloseLooked?)
    ensures var id := s.ops[t].id;
            && (id in s.table ==> id in s.owner && Reaches(s, t) == Some(s.owner[id]))
            && (id !in s.table ==> Reaches(s, t) == None)
  {
    InitInv();
    RunKeepsInv(Init(), acts);
    assert OpInv(s, t) && IdInv(s, s.ops[t].id);
    LookedIsLive(s, t);
  }

  // ---------- Every operation ends ----------

  /** Steps a thread still needs for its operation. */
  function StepsLeft(s: State, t: nat): nat {
    if t !in s.ops then 0
    else
      match s.ops[t]
      case Opened(_, _) => 2
      case Drawn(_, _, _) => 1
      case CloseBegun(_) => 3
      case CloseLooked(_, _) => 2
      case Closed(_) => 1
      case UseBegun(_) => 2
      case UseLooked(_, _) => 1
  }

  predicate IsCall(a: Action) {
    a.Open? || a.CloseCall? || a.UseCall?
  }

  /** No thread ever waits for another: inside an operation it always has a step, each one brings it
      closer to the end, others neither help nor hinder, and at the end the thread is free. */
  lemma OperationsEnd(s: State, t: nat, a: Action)
    ensures t in s.ops ==> exists b: Action :: b.t == t && !IsCall(b) && Enabled(s, b)
    ensures Enabled(s, a) && a.t == t && !IsCall(a) ==> StepsLeft(Apply(s, a), t) == StepsLeft(s, t) - 1
    ensures Enabled(s, a) && a.t != t ==> StepsLeft(Apply(s, a), t) == StepsLeft(s, t)
    ensures StepsLeft(s, t) == 0 <==> t !in s.ops
  {
    OwnStep(s, t, a);
    if t in s.ops {
      var b := match s.ops[t]
        case Opened(_, _) => DrawId(t)
        case Drawn(_, _, _) => Emplace(t)
        case CloseBegun(_) => CloseLook(t)
        case CloseLooked(_, _) => CloseSys(t)
        case Closed(_) => Erase(t)
        case UseBegun(_) => UseLook(t)
        case UseLooked(_, _) => UseSys(t);
      assert b.t == t && !IsCall(b) && Enabled(s, b);
    }
  }

  lemma OwnStep(s: State, t: nat, a: Action)
    ensures Enabled(s, a) && a.t == t && !IsCall(a) ==> StepsLeft(Apply(s, a), t) == StepsLeft(s, t) - 1
    ensures Enabled(s, a) && a.t != t ==> StepsLeft(Apply(s, a), t) == StepsLeft(s, t)
  {
  }

  // ---------- Accounting ----------

  function LiveEntries(s: State): map<int, nat> {
    map id | id in s.table && Live(s, id) :: s.table[id]
  }

  function HeldByOpens(s: State): map<nat, nat> {
    map t | t in s.ops && IsHeld(s.ops[t]) :: s.ops[t].fd
  }

  predicate Injective<K, V(==)>(m: map<K, V>) {
    forall i, j :: i in m && j in m && i != j ==> m[i] != m[j]
  }

  lemma {:induction false} InjectiveSize<K, V>(m: map<K, V>)
    requires Injective(m)
    ensures |m.Values| == |m|
    decreases |m|
  {
    if m.Keys != {} {
      var k :| k in m;
      var rest := m - {k};
      assert rest.Keys == m.Keys - {k};
      InjectiveSize(rest);
      assert m.Values == rest.Values + {m[k]} by {
        forall v | v in m.Values ensures v in rest.Values + {m[k]} {
          var i :| i in m && m[i] == v;
          assert i == k || i in rest;
        }
      }
      assert m[k] !in rest.Values;
    } else {
      assert m == map[];
    }
  }

  /** Every successful ::open is accounted for: closed, in the table (a close whose ::close has
      returned no longer counts), or between its system call and its emplace. */
  lemma Accounting(acts: seq<Action>, s: State)
    requires DisciplinedRun(Init(), acts) && Run(Init(), acts) == Some(s)
    ensures s.opens == s.closes + |LiveEntries(s)| + |HeldByOpens(s)|
    ensures s.os.Keys == LiveEntries(s).Values + HeldByOpens(s).Values
  {
    InitInv();
    RunKeepsInv(Init(), acts);
    var live, held := LiveEntries(s), HeldByOpens(s);
    OneRoleEach(s);
    InjectiveSize(live);
    InjectiveSize(held);
    assert s.os.Keys == live.Values + held.Values;
  }

  /** Open descriptors are split between the live entries and the opens under way. */
  lemma OneRoleEach(s: State)
    requires Inv(s)
    ensures Injective(LiveEntries(s)) && Injective(HeldByOpens(s))
    ensures LiveEntries(s).Values !! HeldByOpens(s).Values
    ensures s.os.Keys == LiveEntries(s).Values + HeldByOpens(s).Values
  {
    var live, held := LiveEntries(s), HeldByOpens(s);
    forall id | id in live ensures live[id] in s.os && live[id] in s.role && s.role[live[id]] == Entry(id) {
      assert IdInv(s, id) && RoleInv(s, live[id]);
    }
    forall t | t in held ensures held[t] in s.os && held[t] in s.role && s.role[held[t]] == Hand(t) {
      assert OpInv(s, t) && RoleInv(s, held[t]);
    }
    forall fd | fd in s.os ensures fd in live.Values + held.Values {
      assert RoleInv(s, fd);
      match s.role[fd] {
        case Entry(id) => assert live[id] == fd;
        case Hand(t) => assert held[t] == fd;
      }
    }
  }

  /** The destructor, run when no handler is: closing what the table lists closes every descriptor
      the handler ever opened, each exactly once. */
  lemma DestructorClosesEverything(acts: seq<Action>, s: State)
    requires DisciplinedRun(Init(), acts) && Run(Init(), acts) == Some(s) && s.ops == map[]
    ensures Injective(s.table) && s.os.Keys == s.table.Values && s.opens == s.closes + |s.table|
  {
    Accounting(acts, s);
    InitInv();
    RunKeepsInv(Init(), acts);
    forall id ensures !InWindow(s, id) {
      assert IdInv(s, id);
    }
    assert LiveEntries(s) == s.table;
    assert HeldByOpens(s) == map[];
    OneRoleEach(s);
  }

  // ---------- Each operation is one step of an atomic table ----------

  /** What clients see: live ids, and the files behind them. */
  datatype Atomic = Atomic(os: map<nat, nat>, table: map<int, nat>)

  function Abs(s: State): Atomic {
    Atomic(map fd: nat | fd in s.os && ForEntry(s, fd) :: s.os[fd], LiveEntries(s))
  }

  function OpenAtOnce(t: Atomic, id: int, fd: nat, file: nat): Atomic {
    Atomic(t.os[fd := file], t.table[id := fd])
  }

  function CloseAtOnce(t: Atomic, id: int): Atomic {
    if id in t.table then Atomic(t.os - {t.table[id]}, t.table - {id}) else t
  }

  function FileOf(t: Atomic, id: int): Option<nat> {
    if id in t.table && t.table[id] in t.os then Some(t.os[t.table[id]]) else None
  }

  /** The files of live ids are seen in the abstraction. */
  lemma AbsOfLive(s: State, id: int)
    requires Inv(s)
    ensures Live(s, id) ==> id in s.owner && FileOf(Abs(s), id) == Some(s.owner[id])
    ensures !Live(s, id) ==> FileOf(Abs(s), id) == None
  {
    assert IdInv(s, id);
  }

  lemma EmplaceAtOnce(s: State, t: nat)
    requires Inv(s) && Enabled(s, Emplace(t))
    ensures var o := s.ops[t];
            && o.id !in Abs(s).table && o.fd !in Abs(s).os
            && Abs(Apply(s, Emplace(t))) == OpenAtOnce(Abs(s), o.id, o.fd, o.file)
  {
    var o, s' := s.ops[t], Apply(s, Emplace(t));
    assert OpInv(s, t) && IdInv(s, o.id);
    assert Abs(s').os == Abs(s).os[o.fd := o.file];
    assert Abs(s').table == Abs(s).table[o.id := o.fd];
  }

  /** The open descriptors that have an entry. */
  predicate ForEntry(s: State, fd: nat) {
    fd in s.os && fd in s.role && s.role[fd].Entry?
  }

  lemma ClosedEntry(s: State, t: nat, fd: nat)
    requires Inv(s) && Enabled(s, CloseSys(t))
    ensures var o, s' := s.ops[t], Apply(s, CloseSys(t));
            && (ForEntry(s', fd) <==> ForEntry(s, fd) && o.found != Some(fd))
            && (ForEntry(s', fd) ==> s'.os[fd] == s.os[fd])
  {
    assert OpInv(s, t) && RoleInv(s, fd);
  }

  lemma ClosedId(s: State, t: nat, id: int)
    requires Inv(s) && Enabled(s, CloseSys(t))
    ensures var s' := Apply(s, CloseSys(t));
            && s'.table == s.table
            && (Live(s', id) <==> Live(s, id) && id != s.ops[t].id)
  {
    assert OpInv(s, t) && IdInv(s, id) && IdInv(s, s.ops[t].id);
  }

  lemma CloseSysAtOnce(s: State, t: nat)
    requires Inv(s) && Enabled(s, CloseSys(t))
    ensures Abs(Apply(s, CloseSys(t))) == CloseAtOnce(Abs(s), s.ops[t].id)
  {
    var id, s' := s.ops[t].id, Apply(s, CloseSys(t));
    assert OpInv(s, t);
    LookedIsLive(s, t);
    forall fd: nat ensures ForEntry(s', fd) <==> ForEntry(s, fd) && s.ops[t].found != Some(fd)
                   ensures ForEntry(s', fd) ==> s'.os[fd] == s.os[fd] {
      ClosedEntry(s, t, fd);
    }
    forall i: int ensures s'.table == s.table && (Live(s', i) <==> Live(s, i) && i != id) {
      ClosedId(s, t, i);
    }
    ClosedAbs(s, s', id, s.ops[t].found);
  }

  lemma ClosedAbs(s: State, s': State, id: int, found: Option<nat>)
    requires s'.table == s.table && (if Live(s, id) then found == Some(s.table[id]) else found.None?)
    requires forall fd: nat :: ForEntry(s', fd) <==> ForEntry(s, fd) && found != Some(fd)
    requires forall fd: nat :: ForEntry(s', fd) ==> ForEntry(s, fd) && s'.os[fd] == s.os[fd]
    requires forall i: int :: Live(s', i) <==> Live(s, i) && i != id
    ensures Abs(s') == CloseAtOnce(Abs(s), id)
  {
    forall fd: nat ensures fd in Abs(s').os <==> ForEntry(s', fd) { }
    forall fd: nat ensures fd in Abs(s).os <==> ForEntry(s, fd) { }
    assert Abs(s').os == if found.Some? then Abs(s).os - {found.value} else Abs(s).os;
    assert Abs(s').table == Abs(s).table - {id};
  }

  lemma SameEntry(s: State, a: Action, fd: nat)
    requires Inv(s) && Enabled(s, a) && !a.Emplace? && !a.CloseSys?
    ensures ForEntry(Apply(s, a), fd) <==> ForEntry(s, fd)
    ensures ForEntry(s, fd) ==> Apply(s, a).os[fd] == s.os[fd]
  {
  }

  lemma SameLive(s: State, a: Action, id: int)
    requires Inv(s) && Enabled(s, a) && Disciplined(s, a) && !a.Emplace? && !a.CloseSys?
    ensures Live(Apply(s, a), id) <==> Live(s, id)
    ensures Live(s, id) ==> Apply(s, a).table[id] == s.table[id]
  {
    assert IdInv(s, id);
    match a {
      case CloseCall(t, i) => SameLiveCall(s, t, i, id);
      case Erase(t) => SameLiveErase(s, t, id);
      case _ =>
    }
  }

  lemma SameLiveCall(s: State, t: nat, i: int, id: int)
    requires Inv(s) && Enabled(s, CloseCall(t, i)) && Disciplined(s, CloseCall(t, i))
    ensures Live(Apply(s, CloseCall(t, i)), id) <==> Live(s, id)
  {
    assert IdInv(s, id);
  }

  lemma SameLiveErase(s: State, t: nat, id: int)
    requires Inv(s) && Enabled(s, Erase(t))
    ensures Live(Apply(s, Erase(t)), id) <==> Live(s, id)
    ensures Live(s, id) ==> Apply(s, Erase(t)).table[id] == s.table[id]
  {
    assert IdInv(s, id) && OpInv(s, t);
  }

  lemma SameAbs(s: State, s': State)
    requires forall fd: nat :: ForEntry(s', fd) <==> ForEntry(s, fd)
    requires forall fd: nat :: ForEntry(s, fd) ==> ForEntry(s', fd) && s'.os[fd] == s.os[fd]
    requires forall i: int :: Live(s', i) <==> Live(s, i)
    requires forall i: int :: Live(s, i) ==> Live(s', i) && s'.table[i] == s.table[i]
    ensures Abs(s') == Abs(s)
  {
    assert Abs(s').os == Abs(s).os;
    assert Abs(s').table == Abs(s).table;
  }

  lemma OthersStutter(s: State, a: Action)
    requires Inv(s) && Enabled(s, a) && Disciplined(s, a) && !a.Emplace? && !a.CloseSys?
    ensures Abs(Apply(s, a)) == Abs(s)
  {
    var s' := Apply(s, a);
    forall fd: nat
      ensures ForEntry(s', fd) <==> ForEntry(s, fd)
      ensures ForEntry(s, fd) ==> s'.os[fd] == s.os[fd]
    {
      SameEntry(s, a, fd);
    }
    forall id: int
      ensures Live(s', id) <==> Live(s, id)
      ensures Live(s, id) ==> s'.table[id] == s.table[id]
    {
      SameLive(s, a, id);
    }
    SameAbs(s, s');
  }

  /** However the system calls and lock regions of many handlers interleave, each operation takes
      effect at one of its own steps, as on a table whose open, close and use are single steps: an
      open when it enters the table, a close and a use at the system call. All other steps are
      invisible. */
  lemma RefinesAtomicTable(s: State, a: Action)
    requires Inv(s) && Enabled(s, a) && Disciplined(s, a)
    ensures var t, t' := Abs(s), Abs(Apply(s, a));
            match a
            case Emplace(i) =>
              var o := s.ops[i];
              && o.id !in t.table && o.fd !in t.os && t' == OpenAtOnce(t, o.id, o.fd, o.file)
            case CloseSys(i) => t' == CloseAtOnce(t, s.ops[i].id) && Reaches(s, i) == FileOf(t, s.ops[i].id)
            case UseSys(i) => t' == t && Reaches(s, i) == FileOf(t, s.ops[i].id)
            case _ => t' == t
  {
    if a.Emplace? {
      EmplaceAtOnce(s, a.t);
    } else if a.CloseSys? {
      CloseSysAtOnce(s, a.t);
      ReachesLive(s, a.t);
    } else {
      OthersStutter(s, a);
      if a.UseSys? {
        ReachesLive(s, a.t);
      }
    }
  }

  lemma ReachesLive(s: State, t: nat)
    requires Inv(s) && t in s.ops && (s.ops[t].UseLooked? || s.ops[t].CloseLooked?)
    ensures Reaches(s, t) == FileOf(Abs(s), s.ops[t].id)
  {
    assert OpInv(s, t) && IdInv(s, s.ops[t].id);
    LookedIsLive(s, t);
    AbsOfLive(s, s.ops[t].id);
  }

  // ---------- The discipline is exactly what is needed ----------

  /** Thread `t` is about to reach, or to close, a file that is not its id's own. */
  ghost predicate Harm(s: State, t: nat) {
    && t in s.ops && (s.ops[t].UseLooked? || s.ops[t].CloseLooked?)
    && Reaches(s, t).Some? && (s.ops[t].id !in s.owner || Reaches(s, t).value != s.owner[s.ops[t].id])
  }

  /** Some continuation in which every client keeps to the discipline leads there. */
  ghost predicate HarmAhead(s: State) {
    exists acts, t: nat :: DisciplinedRun(s, acts) && Run(s, acts).Some? && Harm(Run(s, acts).value, t)
  }

  lemma HarmIsAhead(s: State, t: nat)
    requires Harm(s, t)
    ensures HarmAhead(s)
  {
    assert DisciplinedRun(s, []) && Run(s, []) == Some(s);
  }

  lemma HarmFurtherAhead(s: State, a: Action)
    requires Enabled(s, a) && Disciplined(s, a) && HarmAhead(Apply(s, a))
    ensures HarmAhead(s)
  {
    var acts, t: nat :| DisciplinedRun(Apply(s, a), acts) && Run(Apply(s, a), acts).Some? && Harm(Run(Apply(s, a), acts).value, t);
    var all := [a] + acts;
    assert all[1..] == acts;
    Unfold(s, all);
    assert DisciplinedRun(s, all) && Harm(Run(s, all).value, t);
  }

  lemma NoHarmWithin(s: State)
    requires Inv(s)
    ensures !HarmAhead(s)
  {
    forall acts, t: nat | DisciplinedRun(s, acts) && Run(s, acts).Some? ensures !Harm(Run(s, acts).value, t) {
      RunKeepsInv(s, acts);
      NoHarmNow(Run(s, acts).value, t);
    }
  }

  lemma NoHarmNow(s: State, t: nat)
    requires Inv(s)
    ensures !Harm(s, t)
  {
    if t in s.ops && (s.ops[t].UseLooked? || s.ops[t].CloseLooked?) {
      assert OpInv(s, t) && IdInv(s, s.ops[t].id);
      LookedIsLive(s, t);
    }
  }

  predicate OnId(o: Op, id: int) {
    Closes(o, id) || Uses(o, id)
  }

  /** Thread `x` works on `id`, whose entry is `fd`, while thread `y` closes it. */
  predicate Race(s: State, id: int, fd: nat, x: nat, y: nat) {
    && x != y && x in s.ops && y in s.ops
    && id in s.table && s.table[id] == fd && id in s.owner && s.owner[id] < s.opens
    && OnId(s.ops[x], id) && !s.ops[x].Closed? && (s.ops[x].UseLooked? || s.ops[x].CloseLooked? ==> s.ops[x].found == Some(fd))
    && Closes(s.ops[y], id) && (s.ops[y].CloseLooked? ==> s.ops[y].found == Some(fd))
    && (s.ops[y].Closed? && fd in s.os ==> s.os[fd] != s.owner[id])
  }

  lemma FreshThread(used: set<nat>) returns (t: nat)
    ensures t !in used
  {
    t := 0;
    var below: set<nat> := {};
    while t in used
      invariant below == set i: nat | i < t && i in used
      invariant below <= used && |below| == t
      decreases |used - below|
    {
      below := below + {t};
      t := t + 1;
    }
  }

  /** `x` has looked, `y` has closed: whoever opens next may be handed the descriptor. */
  lemma RaceAfterClose(s: State, id: int, fd: nat, x: nat, y: nat)
    requires Race(s, id, fd, x, y) && (s.ops[x].UseLooked? || s.ops[x].CloseLooked?) && s.ops[y].Closed?
    ensures HarmAhead(s)
  {
    if fd in s.os {
      HarmIsAhead(s, x);
    } else {
      var v := FreshThread(s.ops.Keys);
      HarmIsAhead(Apply(s, Open(v, fd)), x);
      HarmFurtherAhead(s, Open(v, fd));
    }
  }

  lemma RaceBothLooked(s: State, id: int, fd: nat, x: nat, y: nat)
    requires Race(s, id, fd, x, y) && (s.ops[x].UseLooked? || s.ops[x].CloseLooked?)
    ensures HarmAhead(s)
  {
    match s.ops[y] {
      case Closed(_) => RaceAfterClose(s, id, fd, x, y);
      case CloseLooked(_, _) =>
        RaceAfterClose(Apply(s, CloseSys(y)), id, fd, x, y);
        HarmFurtherAhead(s, CloseSys(y));
      case CloseBegun(_) =>
        var s1 := Apply(s, CloseLook(y));
        RaceAfterClose(Apply(s1, CloseSys(y)), id, fd, x, y);
        HarmFurtherAhead(s1, CloseSys(y));
        HarmFurtherAhead(s, CloseLook(y));
    }
  }

  lemma RaceHarms(s: State, id: int, fd: nat, x: nat, y: nat)
    requires Race(s, id, fd, x, y)
    ensures HarmAhead(s)
  {
    match s.ops[x] {
      case UseBegun(_) => RaceBothLooked(Apply(s, UseLook(x)), id, fd, x, y); HarmFurtherAhead(s, UseLook(x));
      case CloseBegun(_) => RaceBothLooked(Apply(s, CloseLook(x)), id, fd, x, y); HarmFurtherAhead(s, CloseLook(x));
      case _ => RaceBothLooked(s, id, fd, x, y);
    }
  }

  /** A call that overlaps a close of its id, or a close that overlaps a use, starts a race. */
  lemma OverlapRaces(s: State, a: Action)
    requires Inv(s) && Enabled(s, a) && (a.CloseCall? || a.UseCall?)
    requires a.id in s.table && !Disciplined(s, a)
    ensures HarmAhead(Apply(s, a))
  {
    var id, s' := a.id, Apply(s, a);
    assert IdInv(s, id);
    if id in s.closing {
      var y := s.closing[id];
      assert OpInv(s, y);
      RaceHarms(s', id, s.table[id], a.t, y);
    } else {
      var x: nat :| x in s.ops && Uses(s.ops[x], id);
      assert OpInv(s, x);
      RaceHarms(s', id, s.table[id], x, a.t);
    }
  }

  /** The exact condition. Take any state of disciplined runs and any call on an id the client was
      given: some continuation then makes a thread reach or close a file that is not its id's own if
      and only if the call breaks the discipline, which is that its id has its entry and it overlaps
      a close of it, or closes under a use. Calls on ids whose entry is gone harm nobody. */
  lemma DisciplineIsExact(s: State, a: Action)
    requires Inv(s) && Enabled(s, a) && (a.CloseCall? || a.UseCall?) && Given(s, a.id)
    ensures HarmAhead(Apply(s, a)) <==> !Disciplined(s, a)
    ensures Dead(s, a.id) ==> !HarmAhead(Apply(s, a))
  {
    assert IdInv(s, a.id);
    if Disciplined(s, a) {
      StepKeepsInv(s, a);
      NoHarmWithin(Apply(s, a));
    } else {
      OverlapRaces(s, a);
    }
  }

  lemma Unfold(s: State, acts: seq<Action>)
    requires acts != [] && Enabled(s, acts[0])
    ensures Run(s, acts) == Run(Apply(s, acts[0]), acts[1..])
  {
  }

  lemma {:induction false} RunAppend(s: State, a: seq<Action>, b: seq<Action>)
    requires Run(s, a).Some?
    ensures Run(s, a + b) == Run(Run(s, a).value, b)
    ensures DisciplinedRun(s, a + b) ==> DisciplinedRun(Run(s, a).value, b)
    decreases a
  {
    if a == [] {
      assert a + b == b;
    } else {
      assert (a + b)[1..] == a[1..] + b;
      RunAppend(Apply(s, a[0]), a[1..], b);
    }
  }

  /** Id 0 is issued for descriptor 3. */
  lemma OneFileOpen(acts: seq<Action>)
    requires acts == [Open(0, 3), DrawId(0), Emplace(0)]
    ensures Run(Init(), acts).Some?
    ensures var s := Run(Init(), acts).value;
            && s.ops == map[] && s.table == map[0 := 3] && s.os == map[3 := 0]
            && s.closing == map[] && s.opens == 1
  {
    var s1 := Apply(Init(), Open(0, 3));
    var s2 := Apply(s1, DrawId(0));
    assert acts[1..][1..] == acts[2..] && acts[2..][1..] == [];
    Unfold(Init(), acts);
    Unfold(s1, acts[1..]);
    Unfold(s2, acts[2..]);
  }

  /** Threads 0 and 1 both close id 0 and have both looked it up. */
  lemma TwoClosesLooked(s: State, acts: seq<Action>)
    requires s.ops == map[] && s.table == map[0 := 3] && s.os == map[3 := 0] && s.closing == map[]
    requires acts == [CloseCall(0, 0), CloseCall(1, 0), CloseLook(0), CloseLook(1)]
    ensures Run(s, acts).Some? && !DisciplinedRun(s, acts)
    ensures var r := Run(s, acts).value;
            && r.ops == map[0 := CloseLooked(0, Some(3)), 1 := CloseLooked(0, Some(3))]
            && r.os == s.os && r.opens == s.opens
  {
    var s1 := Apply(s, CloseCall(0, 0));
    var s2 := Apply(s1, CloseCall(1, 0));
    var s3 := Apply(s2, CloseLook(0));
    assert acts[1..][1..] == acts[2..] && acts[2..][1..] == acts[3..] && acts[3..][1..] == [];
    Unfold(s, acts);
    Unfold(s1, acts[1..]);
    Unfold(s2, acts[2..]);
    Unfold(s3, acts[3..]);
    assert 0 in s1.closing;
    assert !DisciplinedRun(s1, acts[1..]);
  }

  /** The first close lets go of descriptor 3, another open gets it, the second close closes it. */
  lemma StolenDescriptor(s: State, acts: seq<Action>)
    requires s.ops == map[0 := CloseLooked(0, Some(3)), 1 := CloseLooked(0, Some(3))]
    requires s.os == map[3 := 0] && s.opens == 1
    requires acts == [CloseSys(0), Open(2, 3), CloseSys(1)]
    ensures Run(s, acts).Some?
    ensures var r := Run(s, acts).value; 2 in r.ops && r.ops[2] == Opened(3, 1) && 3 !in r.os
  {
    var s1 := Apply(s, CloseSys(0));
    var s2 := Apply(s1, Open(2, 3));
    assert acts[1..][1..] == acts[2..] && acts[2..][1..] == [];
    Unfold(s, acts);
    Unfold(s1, acts[1..]);
    Unfold(s2, acts[2..]);
  }

  /** Two overlapping closes of one id: the second closes a descriptor the system has meanwhile
      given to another open, which is left holding a closed descriptor. */
  lemma OverlappingClosesBreakOthers()
    ensures var acts := [Open(0, 3), DrawId(0), Emplace(0)]
                        + [CloseCall(0, 0), CloseCall(1, 0), CloseLook(0), CloseLook(1)]
                        + [CloseSys(0), Open(2, 3), CloseSys(1)];
            && Run(Init(), acts).Some? && !DisciplinedRun(Init(), acts)
            && (var s := Run(Init(), acts).value; 2 in s.ops && s.ops[2] == Opened(3, 1) && 3 !in s.os)
  {
    var a := [Open(0, 3), DrawId(0), Emplace(0)];
    var b := [CloseCall(0, 0), CloseCall(1, 0), CloseLook(0), CloseLook(1)];
    var c := [CloseSys(0), Open(2, 3), CloseSys(1)];
    OneFileOpen(a);
    var s := Run(Init(), a).value;
    TwoClosesLooked(s, b);
    StolenDescriptor(Run(s, b).value, c);
    RunAppend(Init(), a, b);
    RunAppend(Init(), a + b, c);
    UndisciplinedPrefix(Init(), a + b, c);
  }

  lemma {:induction false} UndisciplinedPrefix(s: State, a: seq<Action>, b: seq<Action>)
    requires !DisciplinedRun(s, a)
    ensures !DisciplinedRun(s, a + b)
    decreases a
  {
    assert a != [] && (a + b)[1..] == a[1..] + b;
    if Disciplined(s, a[0]) {
      UndisciplinedPrefix(Apply(s, a[0]), a[1..], b);
    }
  }
}
