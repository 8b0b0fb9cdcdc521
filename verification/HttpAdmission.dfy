/** Admission of connections to the bounded HTTP server, as interleaved atomic steps.

  Any number of acceptors, handler threads and closers take turns.  A step is one access to
  shared state: the semaphore, the closing event, the lock, the set of connections, or one of
  the two sockets that cancel waiting readers. */
module HttpAdmission {

  /** Where one connection stands, from its arrival to the end of its handler. */
  datatype Phase =
    | Arrived | Checked | Permitted | Admitting | Added | Refusing
    | Admitted | StartFailed | Queued | Serving | Exiting
    | ExitLocked | Discarded | Unlocking | Releasing | Gone
  {
    /** Holds one permit of the semaphore. */
    predicate Holds() {
      !(Arrived? || Checked? || Refusing? || Gone?)
    }

    /** Is in the set of connections. */
    predicate Connected() {
      Added? || Admitted? || StartFailed? || Queued? || Serving? || Exiting? || ExitLocked?
    }

    /** Is inside the lock. */
    predicate Locked() {
      Admitting? || Added? || Refusing? || ExitLocked? || Discarded? || Unlocking?
    }

    /** An upper bound on the steps that are left. */
    function Rank(): nat {
      match this
      case Arrived => 13 case Checked => 12 case Permitted => 11 case Admitting => 10
      case Added => 9 case Refusing => 1 case Admitted => 8 case StartFailed => 5
      case Queued => 7 case Serving => 6 case Exiting => 5 case ExitLocked => 4
      case Discarded => 3 case Unlocking => 2 case Releasing => 1 case Gone => 0
    }
  }

  /** Where one call of the server's close stands. */
  datatype Closing = WantsLock | Setting | CuttingWriter | Checking | LeavingLock | Closed {
    predicate Locked() {
      Setting? || CuttingWriter? || Checking? || LeavingLock?
    }

    function Rank(): nat {
      match this
      case WantsLock => 5 case Setting => 4 case CuttingWriter => 3 case Checking => 2 case LeavingLock => 1 case Closed => 0
    }
  }

  datatype Owner = Nobody | Connection(id: nat) | Closer(id: nat)

  /** What all threads share. */
  datatype Shared = Shared(
    limit: nat, held: nat, connections: set<nat>, closing: bool, lock: Owner, writerClosed: bool, readerClosed: bool)
  {
    /** Looks, inside the lock, whether the cancel reader may go. */
    function CloseReaderIfUnused(): Shared {
      if closing && connections == {} then this.(readerClosed := true) else this
    }
  }

  datatype State = State(shared: Shared, phases: map<nat, Phase>, closers: map<nat, Closing>)

  function Start(limit: nat): State {
    State(Shared(limit, 0, {}, false, Nobody, false, false), map[], map[])
  }

  // ---------- steps ----------

  datatype Move<P> = Move(next: P, shared: Shared) | Waits

  /** The acceptor's steps for connection `r`: a full or closing server refuses it. */
  function Accept(s: Shared, r: nat, a: Phase): Move<Phase> {
    match a
    case Arrived => Move(if s.closing then Gone else Checked, s)
    case Checked => if s.held < s.limit then Move(Permitted, s.(held := s.held + 1)) else Move(Gone, s)
    case Permitted => if s.lock == Nobody then Move(Admitting, s.(lock := Connection(r))) else Waits
    case Admitting =>
      if !s.closing then Move(Added, s.(connections := s.connections + {r}))
      else if s.held > 0 then Move(Refusing, s.(held := s.held - 1)) else Waits
    case Added => Move(Admitted, s.(lock := Nobody))
    case Refusing => Move(Gone, s.(lock := Nobody))
    case _ => Waits
  }

  /** Starting and running the handler; `fails` decides whether its thread can be started. */
  function Handle(s: Shared, r: nat, a: Phase, fails: bool): Move<Phase> {
    match a
    case Admitted => Move(if fails then StartFailed else Queued, s)
    case Queued => Move(if s.closing then Exiting else Serving, s)
    case Serving => Move(Exiting, s)
    case _ => Waits
  }

  /** The way out, which a failed start and a finished handler share. */
  function Leave(s: Shared, r: nat, a: Phase): Move<Phase> {
    match a
    case StartFailed => if s.lock == Nobody then Move(ExitLocked, s.(lock := Connection(r))) else Waits
    case Exiting => if s.lock == Nobody then Move(ExitLocked, s.(lock := Connection(r))) else Waits
    case ExitLocked => Move(Discarded, s.(connections := s.connections - {r}))
    case Discarded => Move(Unlocking, s.CloseReaderIfUnused())
    case Unlocking => Move(Releasing, s.(lock := Nobody))
    case Releasing => if s.held > 0 then Move(Gone, s.(held := s.held - 1)) else Waits
    case _ => Waits
  }

  function Advance(s: Shared, r: nat, a: Phase, fails: bool): Move<Phase> {
    if a.Arrived? || a.Checked? || a.Permitted? || a.Admitting? || a.Added? || a.Refusing? then Accept(s, r, a)
    else if a.Admitted? || a.Queued? || a.Serving? then Handle(s, r, a, fails)
    else Leave(s, r, a)
  }

  /** The steps of one call of close. */
  function Close(s: Shared, c: nat, a: Closing): Move<Closing> {
    match a
    case WantsLock => if s.lock == Nobody then Move(Setting, s.(lock := Closer(c))) else Waits
    case Setting => Move(CuttingWriter, s.(closing := true))
    case CuttingWriter => Move(Checking, s.(writerClosed := true))
    case Checking => Move(LeavingLock, s.CloseReaderIfUnused())
    case LeavingLock => Move(Closed, s.(lock := Nobody))
    case Closed => Waits
  }

  datatype Event = Arrive(id: nat) | Run(id: nat, fails: bool) | CallClose(id: nat) | RunClose(id: nat)

  /** One event of an interleaving; an event that is not possible changes nothing. */
  function Next(s: State, e: Event): State {
    match e
    case Arrive(r) => if r in s.phases then s else s.(phases := s.phases[r := Arrived])
    case CallClose(c) => if c in s.closers then s else s.(closers := s.closers[c := WantsLock])
    case Run(r, fails) => if r in s.phases then Moved(s, r, Advance(s.shared, r, s.phases[r], fails)) else s
    case RunClose(c) => if c in s.closers then MovedCloser(s, c, Close(s.shared, c, s.closers[c])) else s
  }

  function Moved(s: State, r: nat, m: Move<Phase>): State {
    if m.Waits? then s else State(m.shared, s.phases[r := m.next], s.closers)
  }

  function MovedCloser(s: State, c: nat, m: Move<Closing>): State {
    if m.Waits? then s else State(m.shared, s.phases, s.closers[c := m.next])
  }

  function Execute(s: State, events: seq<Event>): State
    decreases |events|
  {
    if events == [] then s else Execute(Next(s, events[0]), events[1..])
  }

  // ---------- the invariant ----------

  function Holders(phases: map<nat, Phase>): set<nat> {
    set r | r in phases && phases[r].Holds()
  }

  ghost predicate LockSound(s: State) {
    && (forall r :: r in s.phases ==> (s.phases[r].Locked() <==> s.shared.lock == Connection(r)))
    && (forall c :: c in s.closers ==> (s.closers[c].Locked() <==> s.shared.lock == Closer(c)))
    && (s.shared.lock.Connection? ==> s.shared.lock.id in s.phases)
    && (s.shared.lock.Closer? ==> s.shared.lock.id in s.closers)
  }

  ghost predicate PermitsSound(s: State) {
    s.shared.held == |Holders(s.phases)| && s.shared.held <= s.shared.limit
  }

  ghost predicate ConnectionsSound(s: State) {
    forall r :: r in s.shared.connections <==> r in s.phases && s.phases[r].Connected()
  }

  /** The owner of the lock is still going to look whether the reader is unused. */
  predicate WillCheck(s: State) {
    var owner := s.shared.lock;
    || (owner.Connection? && owner.id in s.phases && s.phases[owner.id] == Discarded)
    || (owner.Closer? && owner.id in s.closers && (s.closers[owner.id].CuttingWriter? || s.closers[owner.id].Checking?))
  }

  ghost predicate ReaderSound(s: State) {
    && (s.shared.readerClosed ==> s.shared.closing && s.shared.connections == {})
    && (s.shared.closing && s.shared.connections == {} ==> s.shared.readerClosed || WillCheck(s))
  }

  ghost predicate Inv(s: State) {
    LockSound(s) && PermitsSound(s) && ConnectionsSound(s) && ReaderSound(s)
  }

  // ---------- what a step does, by the phases it leads from and to ----------

  ghost predicate Effect(s: Shared, t: Shared, r: nat, a: Phase, b: Phase) {
    && t.limit == s.limit && t.closing == s.closing
    && t.held == s.held + (if b.Holds() then 1 else 0) - (if a.Holds() then 1 else 0)
    && (b.Holds() && !a.Holds() ==> s.held < s.limit)
    && t.lock == (if b.Locked() then Connection(r) else if a.Locked() then Nobody else s.lock)
    && (b.Locked() && !a.Locked() ==> s.lock == Nobody)
  }

  ghost predicate ConnectionEffect(s: Shared, t: Shared, r: nat, a: Phase, b: Phase) {
    && t.connections == (if b.Connected() then s.connections + {r} else s.connections - {r})
    && (b.Connected() && !a.Connected() ==> !s.closing)
    && (a == Discarded ==> t.readerClosed == (s.readerClosed || (s.closing && s.connections == {})))
    && (a != Discarded ==> t.readerClosed == s.readerClosed)
    && (b == Discarded <==> a == ExitLocked)
    && (a.Connected() && !b.Connected() ==> b == Discarded)
  }

  lemma AdvanceEffect(s: Shared, r: nat, a: Phase, fails: bool)
    requires Advance(s, r, a, fails).Move? && (a.Locked() <==> s.lock == Connection(r))
    ensures Effect(s, Advance(s, r, a, fails).shared, r, a, Advance(s, r, a, fails).next)
  {
  }

  lemma AdvanceConnectionEffect(s: Shared, r: nat, a: Phase, fails: bool)
    requires Advance(s, r, a, fails).Move? && (r in s.connections <==> a.Connected())
    ensures ConnectionEffect(s, Advance(s, r, a, fails).shared, r, a, Advance(s, r, a, fails).next)
  {
  }

  lemma HoldersMove(phases: map<nat, Phase>, r: nat, b: Phase)
    requires r in phases || !b.Holds()
    ensures |Holders(phases[r := b])| ==
            |Holders(phases)| + (if b.Holds() then 1 else 0) - (if r in phases && phases[r].Holds() then 1 else 0)
  {
    var before, after := Holders(phases), Holders(phases[r := b]);
    assert before - {r} == after - {r};
    assert r in before ==> before == before - {r} + {r};
    assert r in after ==> after == after - {r} + {r};
    assert r !in before ==> before == before - {r};
    assert r !in after ==> after == after - {r};
  }

  lemma EffectKeeps(s: State, r: nat, t: Shared, b: Phase)
    requires Inv(s) && r in s.phases && Effect(s.shared, t, r, s.phases[r], b)
    ensures LockSound(State(t, s.phases[r := b], s.closers)) && PermitsSound(State(t, s.phases[r := b], s.closers))
  {
    HoldersMove(s.phases, r, b);
  }

  lemma ConnectionEffectKeeps(s: State, r: nat, t: Shared, b: Phase)
    requires Inv(s) && r in s.phases
    requires Effect(s.shared, t, r, s.phases[r], b) && ConnectionEffect(s.shared, t, r, s.phases[r], b)
    ensures ConnectionsSound(State(t, s.phases[r := b], s.closers)) && ReaderSound(State(t, s.phases[r := b], s.closers))
    ensures s.shared.closing ==> t.closing && t.connections <= s.shared.connections
  {
    assert r in s.shared.connections <==> s.phases[r].Connected();
    assert s.phases[r].Locked() <==> s.shared.lock == Connection(r);
  }

  lemma AdvanceKeeps(s: State, r: nat, fails: bool)
    requires Inv(s) && r in s.phases
    ensures var t := Moved(s, r, Advance(s.shared, r, s.phases[r], fails));
            Inv(t) && (s.shared.closing ==> t.shared.closing && t.shared.connections <= s.shared.connections)
  {
    var m := Advance(s.shared, r, s.phases[r], fails);
    if m.Move? {
      assert r in s.shared.connections <==> s.phases[r].Connected();
      assert s.phases[r].Locked() <==> s.shared.lock == Connection(r);
      AdvanceEffect(s.shared, r, s.phases[r], fails);
      AdvanceConnectionEffect(s.shared, r, s.phases[r], fails);
      EffectKeeps(s, r, m.shared, m.next);
      ConnectionEffectKeeps(s, r, m.shared, m.next);
    }
  }

  lemma CloseKeeps(s: State, c: nat)
    requires Inv(s) && c in s.closers
    ensures var t := MovedCloser(s, c, Close(s.shared, c, s.closers[c]));
            Inv(t) && (s.shared.closing ==> t.shared.closing) && t.shared.connections == s.shared.connections
  {
    assert s.closers[c].Locked() <==> s.shared.lock == Closer(c);
  }

  lemma StepKeeps(s: State, e: Event)
    requires Inv(s)
    ensures Inv(Next(s, e))
    ensures s.shared.closing ==> Next(s, e).shared.closing && Next(s, e).shared.connections <= s.shared.connections
  {
    match e
    case Arrive(r) =>
      if r !in s.phases {
        HoldersMove(s.phases, r, Arrived);
      }
    case CallClose(c) =>
    case Run(r, fails) =>
      if r in s.phases {
        AdvanceKeeps(s, r, fails);
      }
    case RunClose(c) =>
      if c in s.closers {
        CloseKeeps(s, c);
      }
  }

  // ---------- every interleaving ----------

  lemma {:induction false} ExecuteKeeps(s: State, events: seq<Event>)
    requires Inv(s)
    ensures Inv(Execute(s, events))
    decreases |events|
  {
    if events != [] {
      StepKeeps(s, events[0]);
      ExecuteKeeps(Next(s, events[0]), events[1..]);
    }
  }

  /** Permits stay within the limit, the cancel reader is open while a connection is admitted,
    it is closed once closing has drained, and nothing is kept when all are gone. */
  ghost predicate Safe(s: State) {
    && s.shared.held <= s.shared.limit && s.shared.connections <= Holders(s.phases) && |Holders(s.phases)| == s.shared.held
    && (s.shared.connections != {} ==> !s.shared.readerClosed)
    && (s.shared.closing && s.shared.connections == {} && s.shared.lock == Nobody ==> s.shared.readerClosed)
    && ((forall r :: r in s.phases ==> s.phases[r] == Gone) ==> s.shared.held == 0 && s.shared.connections == {})
  }

  /** Every state that any interleaving reaches is safe, with the limit it started with. */
  lemma Reachable(limit: nat, events: seq<Event>)
    ensures Safe(Execute(Start(limit), events)) && Execute(Start(limit), events).shared.limit == limit
  {
    assert Holders(map[]) == {};
    ExecuteKeeps(Start(limit), events);
    LimitStays(Start(limit), events);
    InvIsSafe(Execute(Start(limit), events));
  }

  lemma InvIsSafe(s: State)
    requires Inv(s)
    ensures Safe(s)
  {
    if forall r :: r in s.phases ==> s.phases[r] == Gone {
      assert Holders(s.phases) == {};
    }
  }

  lemma LimitStep(s: State, e: Event)
    ensures Next(s, e).shared.limit == s.shared.limit
  {
  }

  lemma {:induction false} LimitStays(s: State, events: seq<Event>)
    ensures Execute(s, events).shared.limit == s.shared.limit
    decreases |events|
  {
    if events != [] {
      LimitStep(s, events[0]);
      LimitStays(Next(s, events[0]), events[1..]);
    }
  }

  ghost predicate Serves(s: State, r: nat) {
    r in s.phases && s.phases[r] == Serving
  }

  lemma NoneServedAnew(s: State, e: Event)
    requires s.shared.closing
    ensures forall r :: Serves(Next(s, e), r) ==> Serves(s, r)
  {
  }

  /** Once closing is set it stays set, no connection is admitted any more, and of those that
    were, none that waits for its handler is served. */
  lemma {:induction false} NoneAdmittedAfterClosing(s: State, events: seq<Event>)
    requires Inv(s) && s.shared.closing
    ensures Execute(s, events).shared.closing && Execute(s, events).shared.connections <= s.shared.connections
    ensures forall r :: Serves(Execute(s, events), r) ==> Serves(s, r)
    decreases |events|
  {
    if events != [] {
      StepKeeps(s, events[0]);
      NoneServedAnew(s, events[0]);
      hide Inv, Next, Serves;
      NoneAdmittedAfterClosing(Next(s, events[0]), events[1..]);
    }
  }

  /** How far a call of close has come shows in what all threads share. */
  ghost predicate ClosersSound(s: State) {
    forall c :: c in s.closers ==>
      && (s.closers[c].CuttingWriter? || s.closers[c].Checking? || s.closers[c].LeavingLock? || s.closers[c].Closed? ==> s.shared.closing)
      && (s.closers[c].Checking? || s.closers[c].LeavingLock? || s.closers[c].Closed? ==> s.shared.writerClosed)
  }

  lemma ClosersStep(s: State, e: Event)
    requires ClosersSound(s)
    ensures ClosersSound(Next(s, e))
  {
  }

  lemma {:induction false} ClosersStaySound(s: State, events: seq<Event>)
    requires ClosersSound(s)
    ensures ClosersSound(Execute(s, events))
    decreases |events|
  {
    if events != [] {
      ClosersStep(s, events[0]);
      hide Next, ClosersSound;
      ClosersStaySound(Next(s, events[0]), events[1..]);
    }
  }

  /** When a call of close has returned the server is closing and has woken its waiting readers;
    and once no connection is left the cancel reader is closed as well. */
  lemma ClosedMeansClosing(limit: nat, events: seq<Event>, c: nat)
    requires c in Execute(Start(limit), events).closers && Execute(Start(limit), events).closers[c] == Closed
    ensures var s := Execute(Start(limit), events);
            && s.shared.closing && s.shared.writerClosed
            && (s.shared.connections == {} && s.shared.lock == Nobody ==> s.shared.readerClosed)
  {
    ClosersStaySound(Start(limit), events);
    Reachable(limit, events);
    hide Execute;
  }

  /** The connection arrives and then takes `n` steps on its own. */
  function Arriving(r: nat, n: nat): seq<Event> {
    [Arrive(r)] + seq(n, i => Run(r, false))
  }

  lemma Alone(s: State, r: nat, n: nat)
    requires n > 0
    ensures Execute(s, seq(n, i => Run(r, false))) == Execute(Next(s, Run(r, false)), seq(n - 1, i => Run(r, false)))
  {
    hide Next;
    assert seq(n, i => Run(r, false))[1..] == seq(n - 1, i => Run(r, false));
  }

  /** The state with one connection in this phase. */
  function With(s: State, r: nat, a: Phase, shared: Shared): State {
    State(shared, s.phases[r := a], s.closers)
  }

  /** One step of the connection, of those that are left. */
  lemma Takes(s: State, r: nat, a: Phase, shared: Shared, next: Phase, after: Shared, n: nat)
    requires n > 0 && Advance(shared, r, a, false) == Move(next, after)
    ensures Execute(With(s, r, a, shared), seq(n, i => Run(r, false))) == Execute(With(s, r, next, after), seq(n - 1, i => Run(r, false)))
  {
    hide Advance, Execute;
    assert s.phases[r := a][r := next] == s.phases[r := next];
    Alone(With(s, r, a, shared), r, n);
  }

  lemma Arrives(s: State, r: nat, n: nat)
    requires r !in s.phases
    ensures Execute(s, Arriving(r, n)) == Execute(With(s, r, Arrived, s.shared), seq(n, i => Run(r, false)))
  {
    assert Arriving(r, n)[1..] == seq(n, i => Run(r, false));
  }

  /** Left to itself an arriving connection is served if there is room, and turned away by a
    server that is full or closing, which then keeps nothing of it. */
  lemma ArrivalIsServed(s: State, r: nat)
    requires r !in s.phases && s.shared.lock == Nobody
    ensures Execute(s, Arriving(r, 7)) ==
            if s.shared.closing || s.shared.held >= s.shared.limit then With(s, r, Gone, s.shared)
            else With(s, r, Serving, s.shared.(held := s.shared.held + 1, connections := s.shared.connections + {r}))
  {
    hide Execute, Next, Arriving, With;
    var none := s.shared;
    Arrives(s, r, 7);
    if none.closing {
      Takes(s, r, Arrived, none, Gone, none, 7);
      Stays(s, r, none, 6);
    } else {
      Takes(s, r, Arrived, none, Checked, none, 7);
      if none.held >= none.limit {
        Takes(s, r, Checked, none, Gone, none, 6);
        Stays(s, r, none, 5);
      } else {
        var held := none.(held := none.held + 1);
        Takes(s, r, Checked, none, Permitted, held, 6);
        GetsServed(s, r, held);
      }
    }
  }

  lemma GetsServed(s: State, r: nat, held: Shared)
    requires held.lock == Nobody && !held.closing
    ensures Execute(With(s, r, Permitted, held), seq(5, i => Run(r, false))) ==
            With(s, r, Serving, held.(connections := held.connections + {r}))
  {
    hide Execute, Next, With;
    var locked := held.(lock := Connection(r));
    var kept := locked.(connections := held.connections + {r});
    var last := held.(connections := held.connections + {r});
    Takes(s, r, Permitted, held, Admitting, locked, 5);
    Takes(s, r, Admitting, locked, Added, kept, 4);
    Takes(s, r, Added, kept, Admitted, last, 3);
    Takes(s, r, Admitted, last, Queued, last, 2);
    Takes(s, r, Queued, last, Serving, last, 1);
    Stops(With(s, r, Serving, last), r);
  }

  lemma Stops(s: State, r: nat)
    ensures Execute(s, seq(0, i => Run(r, false))) == s
  {
  }

  lemma {:induction false} Stays(s: State, r: nat, shared: Shared, n: nat)
    ensures Execute(With(s, r, Gone, shared), seq(n, i => Run(r, false))) == With(s, r, Gone, shared)
  {
    if n == 0 {
      Stops(With(s, r, Gone, shared), r);
    } else {
      assert Next(With(s, r, Gone, shared), Run(r, false)) == With(s, r, Gone, shared);
      Alone(With(s, r, Gone, shared), r, n);
      Stays(s, r, shared, n - 1);
    }
  }

  // ---------- nothing gets stuck ----------

  predicate CanRun(s: State, r: nat)
    requires r in s.phases
  {
    Advance(s.shared, r, s.phases[r], false).Move?
  }

  /** Whoever is not done can take a step, or waits for the lock while its owner can. */
  lemma NoDeadlock(s: State, r: nat)
    requires Inv(s) && r in s.phases && s.phases[r] != Gone
    ensures var owner := s.shared.lock;
            || CanRun(s, r)
            || (owner.Connection? && owner.id in s.phases && CanRun(s, owner.id))
            || (owner.Closer? && owner.id in s.closers && Close(s.shared, owner.id, s.closers[owner.id]).Move?)
  {
    forall q | q in s.phases && s.phases[q].Holds() ensures s.shared.held > 0 {
      assert q in Holders(s.phases);
    }
    var owner := s.shared.lock;
    if owner.Connection? {
      assert s.phases[owner.id].Locked();
    } else if owner.Closer? {
      assert s.closers[owner.id].Locked();
    }
  }

  /** Every step brings its connection nearer to its end. */
  lemma ConnectionsRunOut(s: Shared, r: nat, a: Phase, fails: bool)
    requires Advance(s, r, a, fails).Move?
    ensures Advance(s, r, a, fails).next.Rank() < a.Rank()
  {
  }

  lemma ClosersRunOut(s: Shared, c: nat, a: Closing)
    requires Close(s, c, a).Move?
    ensures Close(s, c, a).next.Rank() < a.Rank()
  {
  }

  // ---------- draining ----------

  function PhaseRank(a: Phase): nat { a.Rank() }

  function ClosingRank(a: Closing): nat { a.Rank() }

  ghost function Sum<T>(parts: map<nat, T>, rank: T -> nat): nat
    decreases |parts|
  {
    if parts == map[] then 0
    else
      var k :| k in parts;
      rank(parts[k]) + Sum(parts - {k}, rank)
  }

  lemma {:induction false} SumTakes<T>(parts: map<nat, T>, rank: T -> nat, k: nat)
    requires k in parts
    ensures Sum(parts, rank) == rank(parts[k]) + Sum(parts - {k}, rank)
    decreases |parts|
  {
    var j :| j in parts && Sum(parts, rank) == rank(parts[j]) + Sum(parts - {j}, rank);
    if j != k {
      SumTakes(parts - {j}, rank, k);
      SumTakes(parts - {k}, rank, j);
      assert parts - {j} - {k} == parts - {k} - {j};
    }
  }

  lemma SumUpdates<T>(parts: map<nat, T>, rank: T -> nat, k: nat, a: T)
    requires k in parts
    ensures Sum(parts[k := a], rank) + rank(parts[k]) == Sum(parts, rank) + rank(a)
  {
    SumTakes(parts, rank, k);
    SumTakes(parts[k := a], rank, k);
    assert parts[k := a] - {k} == parts - {k};
  }

  /** An upper bound on the steps that all connections and closers have left. */
  ghost function Work(s: State): nat {
    Sum(s.phases, PhaseRank) + Sum(s.closers, ClosingRank)
  }

  /** The event moves a connection or a closer that is there already. */
  predicate Productive(s: State, e: Event) {
    match e
    case Run(r, fails) => r in s.phases && Advance(s.shared, r, s.phases[r], fails).Move?
    case RunClose(c) => c in s.closers && Close(s.shared, c, s.closers[c]).Move?
    case _ => false
  }

  /** Every connection is gone and every call of close has returned. */
  predicate Idle(s: State) {
    (forall r :: r in s.phases ==> s.phases[r] == Gone) && (forall c :: c in s.closers ==> s.closers[c] == Closed)
  }

  lemma WorkShrinks(s: State, e: Event)
    requires Productive(s, e)
    ensures Work(Next(s, e)) < Work(s)
  {
    match e
    case Run(r, fails) =>
      ConnectionsRunOut(s.shared, r, s.phases[r], fails);
      SumUpdates(s.phases, PhaseRank, r, Advance(s.shared, r, s.phases[r], fails).next);
    case RunClose(c) =>
      ClosersRunOut(s.shared, c, s.closers[c]);
      SumUpdates(s.closers, ClosingRank, c, Close(s.shared, c, s.closers[c]).next);
  }

  /** As long as anything is left to do, something can be done. */
  lemma SomeoneMoves(s: State) returns (e: Event)
    requires Inv(s) && !Idle(s)
    ensures Productive(s, e)
  {
    var owner := s.shared.lock;
    if r :| r in s.phases && s.phases[r] != Gone {
      NoDeadlock(s, r);
      e := if CanRun(s, r) then Run(r, false) else if owner.Connection? then Run(owner.id, false) else RunClose(owner.id);
    } else {
      var c :| c in s.closers && s.closers[c] != Closed;
      assert owner.Closer? ==> s.closers[owner.id].Locked();
      assert forall r :: r in s.phases ==> !s.phases[r].Locked();
      e := RunClose(if owner.Closer? then owner.id else c);
    }
  }

  /** When all is done no permit is held, no connection is kept, and the cancel reader of a
    closing server is closed. */
  lemma IdleIsDrained(s: State)
    requires Inv(s) && Idle(s)
    ensures s.shared.held == 0 && s.shared.connections == {} && s.shared.lock == Nobody
    ensures s.shared.closing ==> s.shared.readerClosed
  {
    InvIsSafe(s);
    assert forall r :: r in s.phases ==> !s.phases[r].Locked();
    assert forall c :: c in s.closers ==> !s.closers[c].Locked();
  }

  /** From every reachable state some schedule of at most `Work` steps drains the server, and
    if it is closing its cancel reader ends up closed. */
  lemma {:induction false} Drains(s: State) returns (events: seq<Event>)
    requires Inv(s)
    ensures |events| <= Work(s)
    ensures var t := Execute(s, events);
            t.shared.held == 0 && t.shared.connections == {} && (s.shared.closing ==> t.shared.readerClosed)
    decreases Work(s)
  {
    if Idle(s) {
      events := [];
      IdleIsDrained(s);
    } else {
      hide Inv, Idle, Productive, Work, Next;
      var e := SomeoneMoves(s);
      WorkShrinks(s, e);
      StepKeeps(s, e);
      var rest := Drains(Next(s, e));
      events := [e] + rest;
      assert events[1..] == rest;
    }
  }

  /** How many of the events move something. */
  function Moves(s: State, events: seq<Event>): nat
    decreases |events|
  {
    if events == [] then 0 else (if Productive(s, events[0]) then 1 else 0) + Moves(Next(s, events[0]), events[1..])
  }

  /** Without new arrivals every schedule comes to an end: it makes at most `Work` moves, and
    where no move is left the server is drained. */
  lemma {:induction false} EverySchedulePeters(s: State, events: seq<Event>)
    requires Inv(s) && forall e :: e in events ==> e.Run? || e.RunClose?
    ensures Moves(s, events) + Work(Execute(s, events)) <= Work(s)
    ensures var t := Execute(s, events);
            (forall e :: !Productive(t, e)) ==>
              t.shared.held == 0 && t.shared.connections == {} && (t.shared.closing ==> t.shared.readerClosed)
    decreases |events|
  {
    if events != [] {
      StepKeeps(s, events[0]);
      if Productive(s, events[0]) {
        WorkShrinks(s, events[0]);
      } else {
        NothingMoves(s, events[0]);
      }
      hide Inv, Productive, Work, Next;
      EverySchedulePeters(Next(s, events[0]), events[1..]);
    } else if Idle(s) {
      IdleIsDrained(s);
    } else {
      var e := SomeoneMoves(s);
    }
  }

  lemma NothingMoves(s: State, e: Event)
    requires !Productive(s, e) && (e.Run? || e.RunClose?)
    ensures Next(s, e) == s
  {
  }

  /** Reachable states drain: the invariant holds in all of them. */
  lemma ReachableDrains(limit: nat, events: seq<Event>) returns (more: seq<Event>)
    requires Execute(Start(limit), events).shared.closing
    ensures var s := Execute(Start(limit), events);
            var t := Execute(s, more);
            |more| <= Work(s) && t.shared.held == 0 && t.shared.connections == {} && t.shared.readerClosed
  {
    assert Holders(map[]) == {};
    ExecuteKeeps(Start(limit), events);
    more := Drains(Execute(Start(limit), events));
  }
}
