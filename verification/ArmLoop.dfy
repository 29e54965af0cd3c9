/** The worker's loop over the arms of an authorised plan: what it executes, what it blocks, and the one
    terminal transition each arm ends with. */
module ArmLoop {
  import opened Outcomes
  import opened ArmExecution
  import Collections
  import Reservations

  type ArmId = nat
  type Journal = map<ArmId, seq<State>>

  datatype Arm = Arm(id: ArmId, dependsOn: Option<ArmId>, requiresPriorSuccess: bool)

  datatype Plan = Plan(arms: seq<Arm>, failClosed: bool, independentInvalidContinues: bool)

  /** What the environment does at one arm: an infrastructure fault before it, an operator's stop request, the
      token cap's answer, what its execution meets, which of its steps fail with which other workers' transactions
      before them, and the name of its reservation. */
  datatype CapAnswer = BelowCap | CapReached | UsageUnknown
  datatype Conduct = Conduct(faultBefore: bool, stopRequested: bool, cap: CapAnswer, inputs: Inputs, world: World,
                             row: Reservations.ReservationId)

  /** The authorization a worker runs under, its attempt and its own number. */
  datatype Account = Account(plan: Reservations.Plan, attempt: nat, worker: nat)

  function BookingOf(account: Account, id: ArmId, c: Conduct): Booking {
    Booking(account.plan, id, account.attempt, c.row, account.worker)
  }

  function History(j: Journal, id: ArmId): seq<State> {
    if id in j then j[id] else []
  }

  function Latest(j: Journal, id: ArmId): Option<State> {
    var s := History(j, id);
    if s == [] then None else Some(s[|s| - 1])
  }

  predicate Done(j: Journal, id: ArmId) {
    Latest(j, id).Some? && Terminal(Latest(j, id).value)
  }

  /** An arm's transitions with those an execution records before its outcome. */
  function Trail(j: Journal, id: ArmId, e: Execution): seq<State> {
    History(j, id) + e.trail
  }

  /** The journal after an execution: all its transitions added to the arm's history. */
  function Extended(j: Journal, id: ArmId, e: Execution): Journal {
    j[id := Trail(j, id, e) + if e.Returns? then [e.outcome] else []]
  }

  lemma HistoryOfUpdate(j: Journal, id: ArmId, s: seq<State>)
    ensures History(j[id := s], id) == s
    ensures forall other :: other != id ==> History(j[id := s], other) == History(j, other)
  {
  }

  ghost predicate DistinctIds(arms: seq<Arm>) {
    forall i, j :: 0 <= i < j < |arms| ==> arms[i].id != arms[j].id
  }

  /** Arms before k have ended, arms from k on have no terminal transition yet. */
  ghost predicate Frontier(j: Journal, arms: seq<Arm>, k: nat) {
    && k <= |arms|
    && (forall i :: 0 <= i < k ==> EndsOnce(History(j, arms[i].id)))
    && (forall i :: k <= i < |arms| ==> AllOpen(History(j, arms[i].id)))
  }

  ghost function IdsBetween(arms: seq<Arm>, m: nat, i: nat): set<ArmId> {
    set x | m <= x < i && x < |arms| :: arms[x].id
  }

  ghost predicate AllEnded(j: Journal, arms: seq<Arm>) {
    forall i :: 0 <= i < |arms| ==> EndsOnce(History(j, arms[i].id))
  }

  /** The states after which the loop goes on to the next arm. */
  predicate Continuable(p: Plan, s: State) {
    || s == Completed
    || (p.independentInvalidContinues && (ModelInvalid(s) || s == Blocked))
    || (!p.failClosed && s != Stopped)
  }

  /** What holds of every loop exit: each arm has ended once; an executed arm's required dependency completed;
      and before an executed arm stand only arms the plan lets the loop go on after. */
  ghost predicate LoopHolds(j: Journal, p: Plan, executed: set<ArmId>) {
    && AllEnded(j, p.arms)
    && (forall i :: 0 <= i < |p.arms| && p.arms[i].id in executed ==> DependencyMet(j, p.arms[i]))
    && (forall i, k :: 0 <= i < k < |p.arms| && p.arms[k].id in executed ==>
          Continuable(p, Latest(j, p.arms[i].id).value))
  }

  ghost predicate DependencyMet(j: Journal, arm: Arm) {
    arm.dependsOn.Some? && arm.requiresPriorSuccess ==> Latest(j, arm.dependsOn.value) == Some(Completed)
  }

  /** The two journals agree on every arm but those from k on. */
  ghost predicate AgreeOutside(j: Journal, j': Journal, arms: seq<Arm>, k: nat) {
    forall id :: id !in IdsBetween(arms, k, |arms|) ==> History(j', id) == History(j, id)
  }

  /** The arms from m up to i, and no others, have been blocked. */
  ghost predicate BlockedBetween(j: Journal, j': Journal, arms: seq<Arm>, m: nat, i: nat) {
    && i <= |arms|
    && (forall x :: m <= x < i ==> History(j', arms[x].id) == History(j, arms[x].id) + [Blocked])
    && (forall id :: id !in IdsBetween(arms, m, i) ==> History(j', id) == History(j, id))
  }

  lemma BlockNext(j: Journal, j': Journal, arms: seq<Arm>, m: nat, i: nat)
    requires DistinctIds(arms) && i < |arms| && BlockedBetween(j, j', arms, m, i)
    ensures History(j', arms[i].id) == History(j, arms[i].id)
    ensures i < m ==> BlockedBetween(j, j', arms, m, i + 1)
    ensures i >= m ==> BlockedBetween(j, j'[arms[i].id := History(j', arms[i].id) + [Blocked]], arms, m, i + 1)
  {
    hide History;
    if i >= m {
      HistoryOfUpdate(j', arms[i].id, History(j', arms[i].id) + [Blocked]);
    }
  }

  lemma BlockedNone(j: Journal, arms: seq<Arm>, m: nat)
    ensures BlockedBetween(j, j, arms, m, 0)
  {
  }

  lemma BlockedAll(j: Journal, j': Journal, arms: seq<Arm>, m: nat)
    requires DistinctIds(arms) && Frontier(j, arms, m) && BlockedBetween(j, j', arms, m, |arms|)
    ensures AllEnded(j', arms) && AgreeOutside(j, j', arms, m)
  {
  }

  lemma DoneIffBefore(j: Journal, j': Journal, arms: seq<Arm>, m: nat, i: nat)
    requires Frontier(j, arms, m) && i < |arms| && History(j', arms[i].id) == History(j, arms[i].id)
    ensures Done(j', arms[i].id) <==> i < m
  {
  }

  lemma AgreeEarlier(j: Journal, j': Journal, arms: seq<Arm>, k: nat, m: nat)
    requires k <= m && AgreeOutside(j, j', arms, m)
    ensures AgreeOutside(j, j', arms, k)
  {
  }

  /** Recording a terminal state for the first open arm. */
  lemma FrontierMoves(j: Journal, arms: seq<Arm>, k: nat, s: seq<State>)
    requires DistinctIds(arms) && k < |arms| && Frontier(j, arms, k) && EndsOnce(s)
    ensures Frontier(j[arms[k].id := s], arms, k + 1)
    ensures AgreeOutside(j, j[arms[k].id := s], arms, k)
  {
    hide History, EndsOnce, AllOpen;
    HistoryOfUpdate(j, arms[k].id, s);
  }

  lemma TerminalEnds(j: Journal, arms: seq<Arm>, k: nat, s: State)
    requires k < |arms| && Frontier(j, arms, k) && Terminal(s)
    ensures EndsOnce(History(j, arms[k].id) + [s])
  {
    hide History, Terminal;
  }

  lemma AgreeChain(a: Journal, b: Journal, c: Journal, arms: seq<Arm>, k: nat)
    requires AgreeOutside(a, b, arms, k) && AgreeOutside(b, c, arms, k)
    ensures AgreeOutside(a, c, arms, k)
  {
  }

  /** The loop's invariant before arm k. */
  ghost predicate LoopCore(j: Journal, p: Plan, executed: set<ArmId>, k: nat) {
    && Frontier(j, p.arms, k)
    && (forall i :: k <= i < |p.arms| ==> p.arms[i].id !in executed)
    && (forall i :: 0 <= i < k && p.arms[i].id in executed ==> DependencyMet(j, p.arms[i]))
    && (forall i :: 0 <= i < k ==> Continuable(p, Latest(j, p.arms[i].id).value))
  }

  /** Leaving the loop at arm k, executed or not, with every arm ended. */
  lemma ExitHolds(j: Journal, j': Journal, p: Plan, executed: set<ArmId>, k: nat, ran: bool)
    requires DistinctIds(p.arms) && k < |p.arms| && LoopCore(j, p, executed, k)
    requires ran ==> DependencyMet(j, p.arms[k])
    requires AgreeOutside(j, j', p.arms, k) && AllEnded(j', p.arms)
    ensures LoopHolds(j', p, if ran then executed + {p.arms[k].id} else executed)
  {
    var after := if ran then executed + {p.arms[k].id} else executed;
    forall i | 0 <= i < |p.arms| && p.arms[i].id in after
      ensures i <= k && DependencyMet(j', p.arms[i])
    {
      DependencyStays(j, j', p.arms, k, p.arms[i]);
    }
    forall i, x | 0 <= i < x < |p.arms| && p.arms[x].id in after
      ensures Continuable(p, Latest(j', p.arms[i].id).value)
    {
      assert x <= k;
      assert History(j', p.arms[i].id) == History(j, p.arms[i].id);
    }
  }

  lemma DependencyStays(j: Journal, j': Journal, arms: seq<Arm>, k: nat, arm: Arm)
    requires Frontier(j, arms, k) && AgreeOutside(j, j', arms, k)
    ensures DependencyMet(j, arm) ==> DependencyMet(j', arm)
  {
  }

  /** Going on to the next arm after arm k has ended in a state the plan continues after. */
  lemma ContinueHolds(j: Journal, j': Journal, p: Plan, executed: set<ArmId>, k: nat, ran: bool)
    requires DistinctIds(p.arms) && k < |p.arms| && LoopCore(j, p, executed, k)
    requires ran ==> DependencyMet(j, p.arms[k])
    requires forall id :: id != p.arms[k].id ==> History(j', id) == History(j, id)
    requires EndsOnce(History(j', p.arms[k].id)) && Continuable(p, Latest(j', p.arms[k].id).value)
    ensures LoopCore(j', p, if ran then executed + {p.arms[k].id} else executed, k + 1)
  {
    assert AgreeOutside(j, j', p.arms, k);
    forall i | 0 <= i < |p.arms| && i != k
      ensures History(j', p.arms[i].id) == History(j, p.arms[i].id)
    {
      assert p.arms[i].id != p.arms[k].id;
    }
    forall i | 0 <= i <= k
      ensures DependencyMet(j, p.arms[i]) ==> DependencyMet(j', p.arms[i])
    {
      DependencyStays(j, j', p.arms, k, p.arms[i]);
    }
  }

  datatype Terminus = SuiteCompleted | SuiteFailed | SuiteStopped | SuiteRaised

  /** Where one arm leaves the loop: execute it, go on to the next one, or leave. */
  datatype Gate = Proceed | Skip | Leave(t: Terminus)

  // ---------- what one pass of the loop comes to ----------

  /** What a pass of the loop did with its arm: nothing, or an execution with this exit, which the tables had
      admitted or not. */
  datatype Seen = Unexecuted | Executed(exit: Exit, admitted: bool)

  /** Nothing outside the plan keeps the arm from being executed. */
  predicate Cleared(c: Conduct) {
    !c.faultBefore && !c.stopRequested && c.cap == BelowCap
  }

  /** The dependency the arm requires, if any, completed before the arm's turn. */
  ghost predicate MetAt(j: Journal, p: Plan, i: nat)
    requires i < |p.arms|
  {
    var arm := p.arms[i];
    arm.dependsOn.Some? && arm.requiresPriorSuccess ==>
      arm.dependsOn.value !in IdsBetween(p.arms, i, |p.arms|) && Latest(j, arm.dependsOn.value) == Some(Completed)
  }

  /** The loop goes on after this pass. */
  predicate GoesOn(p: Plan, c: Conduct, seen: Seen) {
    match seen
    case Unexecuted => Cleared(c) && (!p.failClosed || p.independentInvalidContinues)
    case Executed(Raised(_), _) => false
    case Executed(Returned(outcome), _) =>
      || outcome == Completed
      || (p.independentInvalidContinues && (outcome == SchemaInvalid || outcome == SemanticInvalid))
      || (!p.failClosed && outcome != Stopped)
  }

  function OutcomeOf(exit: Exit): Option<State> {
    if exit.Returned? then Some(exit.outcome) else None
  }

  /** Where the loop goes after an execution. */
  function Onward(p: Plan, outcome: Option<State>): Gate {
    if outcome == None then Leave(SuiteRaised)
    else if outcome == Some(Stopped) then Leave(SuiteStopped)
    else if outcome == Some(Completed) || !p.failClosed
            || (p.independentInvalidContinues && outcome.value in {SchemaInvalid, SemanticInvalid})
    then Skip
    else Leave(SuiteRaised)
  }

  lemma OnwardIs(p: Plan, outcome: Option<State>)
    ensures outcome == None ==> Onward(p, outcome) == Leave(SuiteRaised)
    ensures outcome.Some? ==>
              Onward(p, outcome) == (
                if outcome.value == Stopped then Leave(SuiteStopped)
                else if outcome.value == Completed || !p.failClosed
                        || (p.independentInvalidContinues && outcome.value in {SchemaInvalid, SemanticInvalid})
                then Skip else Leave(SuiteRaised))
  {
  }

  lemma GoesOnAfter(p: Plan, c: Conduct, seen: Seen)
    requires seen.Executed? && Cleared(c)
    ensures Onward(p, OutcomeOf(seen.exit)) ==
            if GoesOn(p, c, seen) then Skip else Leave(if StopsAt(c, seen) then SuiteStopped else SuiteRaised)
  {
  }

  /** The operator's stop ends the loop at this pass: it was requested before the arm, or the execution heeded it. */
  predicate StopsAt(c: Conduct, seen: Seen) {
    (!c.faultBefore && c.stopRequested) || (seen.Executed? && seen.exit == Returned(Stopped))
  }

  /** The arm was executed exactly when nothing stood against it, its exit is the one its own faults give, and its
      last transition is the outcome returned, or tells why it was not executed. */
  ghost predicate Followed(j: Journal, p: Plan, c: Conduct, i: nat, seen: Seen)
    requires i < |p.arms|
  {
    && (seen.Executed? <==> Cleared(c) && MetAt(j, p, i))
    && (seen.Executed? ==> seen.exit == ExitOf(c.world.faults, c.inputs, seen.admitted))
    && (seen.Executed? && seen.exit.Returned? ==> Latest(j, p.arms[i].id) == Some(seen.exit.outcome))
    && (seen.Unexecuted? ==> Latest(j, p.arms[i].id) == Some(Refusal(c)))
  }

  /** How an arm ends that is not executed: failed by a fault or a usage that cannot be told, otherwise blocked. */
  function Refusal(c: Conduct): State {
    if c.faultBefore || (!c.stopRequested && c.cap == UsageUnknown) then Failed else Blocked
  }

  /** The arms from m on ended blocked. */
  ghost predicate ClosedFrom(j: Journal, arms: seq<Arm>, m: nat) {
    forall i :: m <= i < |arms| ==> Latest(j, arms[i].id) == Some(Blocked)
  }

  lemma BlockedIsClosed(j: Journal, j': Journal, arms: seq<Arm>, m: nat)
    requires DistinctIds(arms) && BlockedBetween(j, j', arms, m, |arms|)
    ensures ClosedFrom(j', arms, m)
    ensures forall i :: 0 <= i < m && i < |arms| ==> History(j', arms[i].id) == History(j, arms[i].id)
  {
    forall i | m <= i < |arms|
      ensures Latest(j', arms[i].id) == Some(Blocked)
    {
      LatestOfAppend(j', arms[i].id, History(j, arms[i].id), Blocked);
    }
  }

  /** What the fault handler leaves: the k-th arm failed if it had not ended, and the others after the first m
      blocked. */
  ghost predicate FaultLeaves(j: Journal, j': Journal, arms: seq<Arm>, k: nat, m: nat)
    requires k < |arms|
  {
    if m == k then BlockedBetween(j[arms[k].id := History(j, arms[k].id) + [Failed]], j', arms, k + 1, |arms|)
    else BlockedBetween(j, j', arms, m, |arms|)
  }

  lemma FaultFails(j: Journal, j': Journal, arms: seq<Arm>, k: nat)
    requires DistinctIds(arms) && k < |arms| && FaultLeaves(j, j', arms, k, k)
    ensures ClosedFrom(j', arms, k + 1) && Latest(j', arms[k].id) == Some(Failed)
  {
    var f := j[arms[k].id := History(j, arms[k].id) + [Failed]];
    BlockedIsClosed(f, j', arms, k + 1);
    LatestOfAppend(j', arms[k].id, History(j, arms[k].id), Failed);
  }

  lemma FaultBlocks(j: Journal, j': Journal, arms: seq<Arm>, k: nat)
    requires DistinctIds(arms) && k < |arms| && FaultLeaves(j, j', arms, k, k + 1)
    ensures ClosedFrom(j', arms, k + 1)
  {
    BlockedIsClosed(j, j', arms, k + 1);
  }

  /** With every arm ended the handler changes nothing. */
  lemma FaultIdles(j: Journal, j': Journal, arms: seq<Arm>, k: nat)
    requires DistinctIds(arms) && k < |arms| && FaultLeaves(j, j', arms, k, |arms|)
    ensures History(j', arms[k].id) == History(j, arms[k].id)
    ensures ClosedFrom(j, arms, k + 1) ==> ClosedFrom(j', arms, k + 1)
  {
    BlockedIsClosed(j, j', arms, |arms|);
  }

  /** A dependency met in the journal before an arm's turn is met in every later one, and no other is. */
  lemma MetIsMet(j: Journal, j': Journal, p: Plan, i: nat)
    requires i < |p.arms| && Frontier(j, p.arms, i) && AgreeOutside(j, j', p.arms, i)
    ensures MetAt(j', p, i) <==> DependencyMet(j, p.arms[i])
  {
    var arm := p.arms[i];
    if arm.dependsOn.Some? {
      var id := arm.dependsOn.value;
      if id in IdsBetween(p.arms, i, |p.arms|) {
        var x :| i <= x < |p.arms| && p.arms[x].id == id;
        assert AllOpen(History(j, p.arms[x].id));
      } else {
        assert History(j', id) == History(j, id);
      }
    }
  }

  /** What a pass came to is not changed by later ones. */
  lemma StaysFollowed(j: Journal, j': Journal, p: Plan, c: Conduct, i: nat, k: nat, seen: Seen)
    requires DistinctIds(p.arms) && i < k < |p.arms| && Followed(j, p, c, i, seen) && AgreeOutside(j, j', p.arms, k)
    ensures Followed(j', p, c, i, seen)
  {
    assert p.arms[i].id !in IdsBetween(p.arms, k, |p.arms|);
    assert History(j', p.arms[i].id) == History(j, p.arms[i].id);
    var arm := p.arms[i];
    if arm.dependsOn.Some? {
      var id := arm.dependsOn.value;
      assert IdsBetween(p.arms, k, |p.arms|) <= IdsBetween(p.arms, i, |p.arms|);
      if id !in IdsBetween(p.arms, i, |p.arms|) {
        assert History(j', id) == History(j, id);
      }
    }
  }

  // ---------- the worker's books ----------

  /** The rows of an attempt that reached inference are counted, those it left outstanding are still outstanding,
      and it has no others outstanding. */
  ghost predicate Booked(db: Reservations.Store, account: Account, started: set<Reservations.ReservationId>,
                         stranded: set<Reservations.ReservationId>)
  {
    && Reservations.Valid(db)
    && started <= Reservations.Reached(db, account.plan.authorization)
    && stranded <= Reservations.Outstanding(db, account.plan.authorization)
    && started <= Mine(db, account.attempt).Keys && stranded <= Mine(db, account.attempt).Keys
  }

  lemma RowKept(s: Reservations.Store, t: Reservations.Store, attempt: nat, id: Reservations.ReservationId,
                r: Reservations.ReservationId)
    requires Mine(t, attempt) - {id} == Mine(s, attempt) - {id} && r != id && r in Mine(s, attempt)
    ensures r in Mine(t, attempt) && r in s.reservations && r in t.reservations
    ensures t.reservations[r] == s.reservations[r]
  {
    assert r in Mine(s, attempt) - {id};
    assert (Mine(t, attempt) - {id})[r] == (Mine(s, attempt) - {id})[r];
  }

  /** One arm's execution in the worker's books: its row is added to those that reached inference, or to those left
      outstanding, or to neither. */
  lemma BooksKept(s: Reservations.Store, t: Reservations.Store, account: Account, b: Booking,
                  started: set<Reservations.ReservationId>, stranded: set<Reservations.ReservationId>)
    requires Booked(s, account, started, stranded) && Sound(t, s, b) && RowIn(s, b) == None
    requires b.attempt == account.attempt && b.plan == account.plan
    ensures Booked(t, account, started + (if RowIn(t, b).Some? && RowIn(t, b).value.reached then {b.id} else {}),
                   stranded + if Settled(RowIn(t, b)) then {} else {b.id})
    ensures Mine(t, b.attempt).Keys <= Mine(s, b.attempt).Keys + {b.id}
    ensures Caps(t) == Caps(s) && b.id !in started && b.id !in stranded
  {
    hide Reservations.Valid, Caps;
    forall r | r in started + stranded
      ensures r != b.id && r in Mine(t, b.attempt) && r in s.reservations && r in t.reservations
      ensures t.reservations[r] == s.reservations[r]
    {
      RowKept(s, t, b.attempt, b.id, r);
    }
    forall r | r in Mine(t, b.attempt) && r != b.id
      ensures r in Mine(s, b.attempt)
    {
      RowKept(t, s, b.attempt, b.id, r);
    }
  }

  /** Starts and rows left outstanding share the cap. */
  lemma BooksWithinCap(db: Reservations.Store, account: Account, started: set<Reservations.ReservationId>,
                       stranded: set<Reservations.ReservationId>)
    requires Booked(db, account, started, stranded) && account.plan.authorization in db.authorizations
    ensures |started| + |stranded| <= db.authorizations[account.plan.authorization].maximum
  {
    var a := account.plan.authorization;
    assert Reservations.WithinCap(db, a);
    hide Reservations.Valid, Reservations.Outstanding, Reservations.Reached;
    Collections.SubsetSize(started, Reservations.Reached(db, a));
    Collections.SubsetSize(stranded, Reservations.Outstanding(db, a));
  }

  lemma BooksOpen(s: Reservations.Store, account: Account, b: Booking, started: set<Reservations.ReservationId>,
                  stranded: set<Reservations.ReservationId>)
    requires Booked(s, account, started, stranded) && b.attempt == account.attempt && b.id !in Mine(s, account.attempt)
    ensures Reservations.Valid(s) && RowIn(s, b) == None
  {
  }

  // ---------- a worker undisturbed under an authorization with room ----------

  /** The rows that count against the cap. */
  ghost function Taken(s: Reservations.Store, a: Reservations.AuthorizationId): set<Reservations.ReservationId> {
    set r | r in s.reservations && s.reservations[r].authorization == a
            && (s.reservations[r].reached || !s.reservations[r].released)
  }

  lemma TakenIs(s: Reservations.Store, a: Reservations.AuthorizationId)
    ensures |Taken(s, a)| == |Reservations.Reached(s, a)| + |Reservations.Outstanding(s, a)|
  {
    assert Taken(s, a) == Reservations.Reached(s, a) + Reservations.Outstanding(s, a);
    assert Reservations.Reached(s, a) !! Reservations.Outstanding(s, a);
  }

  /** From arm k on the authorization has a start left for every arm, and neither arm nor row name is taken. */
  ghost predicate Room(db: Reservations.Store, account: Account, p: Plan, world: seq<Conduct>, k: nat)
    requires k <= |p.arms| == |world|
  {
    var a := account.plan.authorization;
    && a in db.authorizations
    && !db.authorizations[a].revoked && !db.authorizations[a].completed
    && db.authorizations[a].fingerprint == account.plan.fingerprint
    && |Taken(db, a)| + (|p.arms| - k) <= db.authorizations[a].maximum
    && |Taken(db, a)| + (|p.arms| - k) <= account.plan.maximum
    && (forall i :: k <= i < |world| ==> world[i].row !in db.reservations)
    && (forall i :: k <= i < |p.arms| ==> !Reservations.ArmTaken(db, a, p.arms[i].id))
  }

  /** No other worker does anything, and no two arms share a row name. */
  ghost predicate Peaceful(world: seq<Conduct>) {
    && (forall i :: 0 <= i < |world| ==> Undisturbed(world[i].world))
    && (forall i, j :: 0 <= i < j < |world| ==> world[i].row != world[j].row)
  }

  lemma RoomAdmits(db: Reservations.Store, account: Account, p: Plan, world: seq<Conduct>, k: nat, n: nat)
    requires k < |p.arms| == |world| && Room(db, account, p, world, k)
    requires Reservations.Valid(db) && Undisturbed(world[k].world)
    ensures Admits(After(world[k].world, db, n), BookingOf(account, p.arms[k].id, world[k]))
  {
    QuietTables(world[k].world, db, n);
    var a := account.plan.authorization;
    TakenIs(db, a);
    assert Reservations.WithinCap(db, a);
    hide Reservations.Valid, Taken, Reservations.Reached, Reservations.Outstanding, Reservations.ArmTaken;
  }

  lemma RoomStays(s: Reservations.Store, t: Reservations.Store, account: Account, p: Plan, world: seq<Conduct>, k: nat)
    requires k < |p.arms| == |world| && Room(s, account, p, world, k) && DistinctIds(p.arms) && Peaceful(world)
    requires OwnOnly(t, s, BookingOf(account, p.arms[k].id, world[k]))
    ensures Room(t, account, p, world, k + 1)
  {
    var a, id := account.plan.authorization, world[k].row;
    assert a in s.authorizations.Keys;
    OneMoreTaken(s, t, a, id);
    forall i | k + 1 <= i < |p.arms|
      ensures world[i].row !in t.reservations && !Reservations.ArmTaken(t, a, p.arms[i].id)
    {
      assert world[i].row !in s.reservations - {id};
      TakenAlready(s, t, a, id, p.arms[i].id);
    }
  }

  lemma TakenAlready(s: Reservations.Store, t: Reservations.Store, a: Reservations.AuthorizationId,
                     id: Reservations.ReservationId, arm: ArmId)
    requires t.reservations - {id} == s.reservations - {id}
    requires id !in s.reservations && (id in t.reservations ==> t.reservations[id].arm != arm)
    ensures Reservations.ArmTaken(t, a, arm) ==> Reservations.ArmTaken(s, a, arm)
  {
    if Reservations.ArmTaken(t, a, arm) {
      var r :| r in t.reservations && t.reservations[r].authorization == a && t.reservations[r].arm == arm;
      assert r in t.reservations - {id};
      assert (t.reservations - {id})[r] == (s.reservations - {id})[r];
    }
  }

  lemma OneMoreTaken(s: Reservations.Store, t: Reservations.Store, a: Reservations.AuthorizationId,
                     id: Reservations.ReservationId)
    requires t.reservations - {id} == s.reservations - {id}
    ensures |Taken(t, a)| <= |Taken(s, a)| + 1
  {
    forall r | r in Taken(t, a) && r != id
      ensures r in Taken(s, a)
    {
      assert r in t.reservations - {id};
      assert (t.reservations - {id})[r] == (s.reservations - {id})[r];
    }
    Collections.SubsetSize(Taken(t, a), Taken(s, a) + {id});
  }

  ghost predicate Admitted(log: seq<Seen>) {
    forall i :: 0 <= i < |log| ==> log[i].Executed? ==> log[i].admitted
  }

  /** So far every arm was admitted, and there is room for the rest. */
  ghost predicate Welcomed(db: Reservations.Store, account: Account, p: Plan, world: seq<Conduct>, k: nat,
                           log: seq<Seen>)
    requires k <= |p.arms| == |world|
  {
    Peaceful(world) && Room(db, account, p, world, k) && Admitted(log)
  }

  lemma NothingAdded(trail: seq<State>)
    ensures trail + [] == trail
  {
  }

  lemma RecordedTail(exit: Exit, trail: seq<State>, before: seq<State>)
    requires exit.Returned? ==> trail != [] && trail[|trail| - 1] == exit.outcome
    ensures var e := Recorded(exit, trail);
      before + trail == before + e.trail + if e.Returns? then [e.outcome] else []
  {
    var e := Recorded(exit, trail);
    var tail := if e.Returns? then [e.outcome] else [];
    assert e.trail + tail == trail;
    assert before + (e.trail + tail) == before + e.trail + tail;
  }

  class Worker {
    const account: Account
    var journal: Journal
    var db: Reservations.Store
    ghost var executed: set<ArmId>
    ghost var started: set<Reservations.ReservationId>
    ghost var stranded: set<Reservations.ReservationId>

    ghost predicate Books()
      reads `db, `started, `stranded
    {
      Booked(db, account, started, stranded)
    }

    /** A conduct whose row has a name of its own, among workers that leave the attempt's rows alone. */
    ghost predicate Fits(c: Conduct)
      reads `db
    {
      Considerate(c.world, account.attempt) && c.row !in Mine(db, account.attempt)
    }

    method Transition(id: ArmId, s: State)
      modifies `journal
      ensures journal == old(journal)[id := History(old(journal), id) + [s]]
    {
      journal := journal[id := History(journal, id) + [s]];
    }

    /** Blocks the arms after the k-th, and the k-th itself when asked, that have not ended. The first `m`
        arms have. */
    method BlockRemaining(arms: seq<Arm>, k: nat, includeCurrent: bool, ghost m: nat)
      requires DistinctIds(arms) && k < |arms| && Frontier(journal, arms, m)
      requires m >= if includeCurrent then k else k + 1
      modifies `journal
      ensures BlockedBetween(old(journal), journal, arms, m, |arms|)
      ensures AllEnded(journal, arms) && AgreeOutside(old(journal), journal, arms, m)
    {
      ghost var j := journal;
      BlockedNone(j, arms, m);
      hide *;
      var seen := false;
      var i := 0;
      while i < |arms|
        invariant 0 <= i <= |arms| && (seen <==> i > k)
        invariant BlockedBetween(j, journal, arms, m, i)
      {
        var id := arms[i].id;
        BlockNext(j, journal, arms, m, i);
        DoneIffBefore(j, journal, arms, m, i);
        if i == k {
          seen := true;
        }
        if seen && (i != k || includeCurrent) && !Done(journal, id) {
          Transition(id, Blocked);
        }
        i := i + 1;
      }
      BlockedAll(j, journal, arms, m);
    }

    /** What this worker has started and what it has left outstanding stay within the cap together. */
    ghost predicate Bounded()
      reads `db, `started, `stranded
    {
      var a := account.plan.authorization;
      a in db.authorizations ==> |started| + |stranded| <= db.authorizations[a].maximum
    }

    lemma BooksBounded()
      requires Books()
      ensures Bounded()
    {
      if account.plan.authorization in db.authorizations {
        BooksWithinCap(db, account, started, stranded);
      }
    }

    /** No maximum has moved, the attempt has at most this one row more, and without other workers nothing else
        has changed. */
    ghost predicate BooksGrow(s: Reservations.Store, t: Reservations.Store, id: ArmId, c: Conduct) {
      && Caps(t) == Caps(s) && Mine(t, account.attempt).Keys <= Mine(s, account.attempt).Keys + {c.row}
      && (Undisturbed(c.world) ==> OwnOnly(t, s, BookingOf(account, id, c)))
    }

    lemma NothingGrows(s: Reservations.Store, id: ArmId, c: Conduct)
      ensures BooksGrow(s, s, id, c)
    {
      OwnAtFirst(s, BookingOf(account, id, c));
    }

    /** Every arm still to come has a row name of its own. */
    ghost predicate NamesLeft(world: seq<Conduct>, k: nat)
      reads `db
    {
      && (forall i :: k <= i < |world| ==> Fits(world[i]))
      && (forall i, j :: k <= i < j < |world| ==> world[i].row != world[j].row)
    }

    lemma NextName(world: seq<Conduct>, k: nat)
      requires NamesLeft(world, k) && k < |world|
      ensures Fits(world[k])
    {
    }

    lemma NamesStay(before: Reservations.Store, id: ArmId, world: seq<Conduct>, k: nat)
      requires k < |world| && BooksGrow(before, db, id, world[k])
      requires forall i :: k <= i < |world| ==>
                 Considerate(world[i].world, account.attempt) && world[i].row !in Mine(before, account.attempt)
      requires forall i, j :: k <= i < j < |world| ==> world[i].row != world[j].row
      ensures NamesLeft(world, k + 1) && Caps(db) == Caps(before)
    {
    }

    /** One arm's execution on the shared tables: its row is entered in the worker's books. */
    method Perform(id: ArmId, c: Conduct) returns (exit: Exit, trail: seq<State>)
      requires Books() && Fits(c)
      modifies `db, `started, `stranded
      ensures Books() && BooksGrow(old(db), db, id, c)
      ensures ExecutionOk(Recorded(exit, trail))
      ensures exit.Returned? ==> trail != [] && trail[|trail| - 1] == exit.outcome
      ensures var b := BookingOf(account, id, c);
        var admitted := Admits(After(c.world, old(db), ReserveStep(c.inputs) + 1), b);
        && exit == ExitOf(c.world.faults, c.inputs, admitted)
        && stranded == old(stranded) + if Stranded(c.world.faults, c.inputs, admitted) then {c.row} else {}
      ensures c.row !in old(stranded) && (started == old(started) || started == old(started) + {c.row})
      ensures exit == Returned(Completed) ==> started == old(started) + {c.row}
    {
      hide Considerate, Undisturbed, OwnOnly, Sound, RowIn, Mine, Booked, Stranded, ExitOf, After, Admits, Caps,
           Reservations.Valid, AllOpen;
      ghost var b := BookingOf(account, id, c);
      BooksOpen(db, account, b, started, stranded);
      var run := new ArmExecution.Run(c.world, BookingOf(account, id, c), db);
      exit := run.Execute(c.inputs);
      trail := run.trail;
      BooksKept(db, run.db, account, b, started, stranded);
      started := started + if run.Row().Some? && run.Row().value.reached then {c.row} else {};
      stranded := stranded + if Settled(run.Row()) then {} else {c.row};
      db := run.db;
    }

    /** Executes one arm: its transitions are added to its history. */
    method ExecuteArm(id: ArmId, c: Conduct) returns (outcome: Option<State>, ghost e: Execution, ghost seen: Seen)
      requires Books() && Fits(c)
      modifies this
      ensures executed == old(executed) + {id}
      ensures seen.Executed? && seen.exit == ExitOf(c.world.faults, c.inputs, seen.admitted)
      ensures outcome == OutcomeOf(seen.exit)
      ensures seen.admitted <==> Admits(After(c.world, old(db), ReserveStep(c.inputs) + 1), BookingOf(account, id, c))
      ensures ExecutionOk(e)
      ensures journal == Extended(old(journal), id, e)
      ensures outcome == if e.Returns? then Some(e.outcome) else None
      ensures Books() && BooksGrow(old(db), db, id, c)
      ensures var b := BookingOf(account, id, c);
        var admitted := Admits(After(c.world, old(db), ReserveStep(c.inputs) + 1), b);
        stranded == old(stranded) + if Stranded(c.world.faults, c.inputs, admitted) then {c.row} else {}
      ensures c.row !in old(stranded) && (started == old(started) || started == old(started) + {c.row})
      ensures outcome == Some(Completed) ==> started == old(started) + {c.row}
    {
      hide Considerate, Mine, Booked, Stranded, ExitOf, After, Admits, Caps, AllOpen, BooksGrow, ExecutionOk, History;
      executed := executed + {id};
      ghost var tables := db;
      var exit, trail := Perform(id, c);
      seen := Executed(exit, Admits(After(c.world, tables, ReserveStep(c.inputs) + 1), BookingOf(account, id, c)));
      e := Recorded(exit, trail);
      RecordedTail(exit, trail, History(journal, id));
      journal := journal[id := History(journal, id) + trail];
      outcome := if exit.Returned? then Some(exit.outcome) else None;
    }

    /** The handler of an infrastructure fault: the current arm fails unless it has ended, the rest are
        blocked. */
    method HandleFault(arms: seq<Arm>, k: nat, ghost m: nat)
      requires DistinctIds(arms) && k < |arms| && Frontier(journal, arms, m) && m >= k
      modifies `journal
      ensures AllEnded(journal, arms) && AgreeOutside(old(journal), journal, arms, k)
      ensures FaultLeaves(old(journal), journal, arms, k, m)
    {
      hide EndsOnce, AllOpen, Frontier, AgreeOutside, AllEnded, BlockedBetween, Done;
      ghost var j := journal;
      var id := arms[k].id;
      DoneIffBefore(journal, journal, arms, m, k);
      if !Done(journal, id) {
        TerminalEnds(j, arms, k, Failed);
        FrontierMoves(journal, arms, k, History(journal, id) + [Failed]);
        Transition(id, Failed);
        ghost var f := journal;
        BlockRemaining(arms, k, false, k + 1);
        AgreeEarlier(f, journal, arms, k, k + 1);
        AgreeChain(j, f, journal, arms, k);
      } else {
        BlockRemaining(arms, k, false, m);
        AgreeEarlier(j, journal, arms, k, m);
      }
    }

    /** The checks before an arm is executed: go ahead, go on without executing it, or leave the loop. */
    method Admit(p: Plan, k: nat, c: Conduct) returns (gate: Gate)
      requires DistinctIds(p.arms) && k < |p.arms| && LoopCore(journal, p, executed, k)
      modifies `journal
      ensures gate == Proceed <==> Cleared(c) && DependencyMet(old(journal), p.arms[k])
      ensures gate == Leave(SuiteStopped) <==> !c.faultBefore && c.stopRequested
      ensures gate == Skip <==> Cleared(c) && !DependencyMet(old(journal), p.arms[k])
                                && (!p.failClosed || p.independentInvalidContinues)
      ensures gate.Leave? ==> gate.t in {SuiteStopped, SuiteRaised}
      ensures gate == Proceed ==> journal == old(journal)
      ensures AgreeOutside(old(journal), journal, p.arms, k)
      ensures gate != Proceed ==> Latest(journal, p.arms[k].id) == Some(Refusal(c))
      ensures gate == Skip ==> LoopCore(journal, p, executed, k + 1)
      ensures gate == Skip ==> forall id :: id != p.arms[k].id ==> History(journal, id) == History(old(journal), id)
      ensures gate.Leave? ==> LoopHolds(journal, p, executed) && ClosedFrom(journal, p.arms, k + 1)
    {
      ghost var j := journal;
      var arms, arm := p.arms, p.arms[k];
      FrontierOf(j, p, executed, k);
      AgreesItself(j, arms, k);
      DependencyChecked(j, arm);
      hide LoopCore, LoopHolds, Frontier, AgreeOutside, AllEnded, BlockedBetween, EndsOnce, AllOpen, DependencyMet,
           Latest, Terminal, ClosedFrom, History, FaultLeaves;
      if c.faultBefore {
        HandleFault(arms, k, k);
        FaultFails(j, journal, arms, k);
        ExitHolds(j, journal, p, executed, k, false);
        return Leave(SuiteRaised);
      }
      if c.stopRequested {
        BlockRemaining(arms, k, true, k);
        AllBlocked(j, journal, arms, k);
        ExitHolds(j, journal, p, executed, k, false);
        return Leave(SuiteStopped);
      }
      if c.cap == UsageUnknown {
        HandleFault(arms, k, k);
        FaultFails(j, journal, arms, k);
        ExitHolds(j, journal, p, executed, k, false);
        return Leave(SuiteRaised);
      }
      if c.cap == CapReached {
        CloseAll(p, k);
        return Leave(SuiteRaised);
      }
      if arm.dependsOn.Some? && arm.requiresPriorSuccess && Latest(journal, arm.dependsOn.value) != Some(Completed) {
        gate := BlockDependent(p, k);
        return;
      }
      gate := Proceed;
    }

    /** At the token cap the arm and everything after it are blocked, and the fault handler finds nothing left. */
    method CloseAll(p: Plan, k: nat)
      requires DistinctIds(p.arms) && k < |p.arms| && LoopCore(journal, p, executed, k)
      modifies `journal
      ensures LoopHolds(journal, p, executed) && AgreeOutside(old(journal), journal, p.arms, k)
      ensures ClosedFrom(journal, p.arms, k + 1) && Latest(journal, p.arms[k].id) == Some(Blocked)
    {
      ghost var j := journal;
      FrontierOf(j, p, executed, k);
      hide *;
      BlockRemaining(p.arms, k, true, k);
      AllBlocked(j, journal, p.arms, k);
      ghost var b := journal;
      AllEndedIsFrontier(b, p.arms);
      HandleFault(p.arms, k, |p.arms|);
      AgreeChain(j, b, journal, p.arms, k);
      FaultIdles(b, journal, p.arms, k);
      SameLatest(b, journal, p.arms[k].id);
      ExitHolds(j, journal, p, executed, k, false);
    }

    /** An arm whose required dependency did not complete is blocked, and under a fail-closed plan without the
        independent policy so is everything after it. */
    method BlockDependent(p: Plan, k: nat) returns (gate: Gate)
      requires DistinctIds(p.arms) && k < |p.arms| && LoopCore(journal, p, executed, k)
      modifies `journal
      ensures gate == if p.failClosed && !p.independentInvalidContinues then Leave(SuiteRaised) else Skip
      ensures AgreeOutside(old(journal), journal, p.arms, k) && Latest(journal, p.arms[k].id) == Some(Blocked)
      ensures gate == Skip ==> LoopCore(journal, p, executed, k + 1)
      ensures gate == Skip ==> forall id :: id != p.arms[k].id ==> History(journal, id) == History(old(journal), id)
      ensures gate.Leave? ==> LoopHolds(journal, p, executed) && ClosedFrom(journal, p.arms, k + 1)
    {
      ghost var j := journal;
      var arms, arm := p.arms, p.arms[k];
      FrontierOf(j, p, executed, k);
      DependentBlocked(j, arms, k);
      hide *;
      Transition(arm.id, Blocked);
      ghost var f := journal;
      if p.failClosed && !p.independentInvalidContinues {
        Wreck(p, k, j);
        SameLatest(f, journal, arm.id);
        ExitHolds(j, journal, p, executed, k, false);
        return Leave(SuiteRaised);
      }
      BlockedContinues(j, p, executed, k);
      gate := Skip;
    }

    /** The k-th arm's execution has raised: whatever it recorded, the handler ends every arm. */
    method Raise(p: Plan, k: nat, ghost trail: seq<State>, ghost j: Journal, ghost ran: set<ArmId>) returns (gate: Gate)
      requires DistinctIds(p.arms) && k < |p.arms| && LoopCore(j, p, ran, k) && DependencyMet(j, p.arms[k])
      requires executed == ran + {p.arms[k].id} && (AllOpen(trail) || EndsOnce(trail))
      requires journal == j[p.arms[k].id := trail]
      modifies `journal
      ensures gate == Leave(SuiteRaised) && LoopHolds(journal, p, executed)
      ensures AgreeOutside(j, journal, p.arms, k) && ClosedFrom(journal, p.arms, k + 1)
    {
      FrontierOf(j, p, ran, k);
      hide LoopCore, LoopHolds, Frontier, AgreeOutside, AllEnded, BlockedBetween, EndsOnce, AllOpen, DependencyMet,
           Latest, Terminal, ClosedFrom, History, FaultLeaves;
      RaisedLeaves(j, journal, p.arms, k, trail);
      ghost var f := journal;
      HandleFault(p.arms, k, if EndsOnce(trail) then k + 1 else k);
      if EndsOnce(trail) {
        FaultBlocks(f, journal, p.arms, k);
      } else {
        FaultFails(f, journal, p.arms, k);
      }
      AgreeChain(j, f, journal, p.arms, k);
      ExitHolds(j, journal, p, ran, k, true);
      gate := Leave(SuiteRaised);
    }

    /** Executes an admitted arm and decides by its outcome whether the loop goes on. */
    method Settle(p: Plan, k: nat, c: Conduct) returns (gate: Gate, ghost seen: Seen)
      requires DistinctIds(p.arms) && k < |p.arms|
      requires LoopCore(journal, p, executed, k) && DependencyMet(journal, p.arms[k])
      requires Books() && Fits(c)
      modifies this
      ensures Books() && BooksGrow(old(db), db, p.arms[k].id, c) && executed == old(executed) + {p.arms[k].id}
      ensures seen.Executed? && seen.exit == ExitOf(c.world.faults, c.inputs, seen.admitted)
      ensures seen.exit.Returned? ==> Latest(journal, p.arms[k].id) == Some(seen.exit.outcome)
      ensures seen.admitted <==>
                Admits(After(c.world, old(db), ReserveStep(c.inputs) + 1), BookingOf(account, p.arms[k].id, c))
      ensures gate == Onward(p, OutcomeOf(seen.exit))
      ensures AgreeOutside(old(journal), journal, p.arms, k)
      ensures gate == Skip ==> LoopCore(journal, p, executed, k + 1)
      ensures gate == Skip ==> forall id :: id != p.arms[k].id ==> History(journal, id) == History(old(journal), id)
      ensures gate.Leave? ==> LoopHolds(journal, p, executed) && ClosedFrom(journal, p.arms, k + 1)
    {
      ghost var j, ran := journal, executed;
      FrontierOf(j, p, ran, k);
      hide *;
      var outcome;
      ghost var e;
      outcome, e, seen := ExecuteArm(p.arms[k].id, c);
      Executes(j, journal, p.arms, k, e);
      gate := Conclude(p, k, outcome, Trail(j, p.arms[k].id, e), j, ran);
    }

    /** The end of a pass that executed its arm, by what came of it. */
    method Conclude(p: Plan, k: nat, outcome: Option<State>, ghost trail: seq<State>, ghost j: Journal,
                    ghost ran: set<ArmId>) returns (gate: Gate)
      requires DistinctIds(p.arms) && k < |p.arms| && LoopCore(j, p, ran, k) && DependencyMet(j, p.arms[k])
      requires executed == ran + {p.arms[k].id} && AfterArm(j, journal, p.arms, k, trail, outcome)
      modifies `journal
      ensures gate == Onward(p, outcome)
      ensures AgreeOutside(j, journal, p.arms, k)
      ensures outcome.Some? ==> Latest(journal, p.arms[k].id) == outcome
      ensures gate == Skip ==> LoopCore(journal, p, executed, k + 1)
      ensures gate == Skip ==> forall id :: id != p.arms[k].id ==> History(journal, id) == History(j, id)
      ensures gate.Leave? ==> LoopHolds(journal, p, executed) && ClosedFrom(journal, p.arms, k + 1)
    {
      AfterArmMeans(j, journal, p.arms, k, trail, outcome);
      OnwardIs(p, outcome);
      hide *;
      if outcome.None? {
        gate := Raise(p, k, trail, j, ran);
      } else {
        gate := Decide(p, k, outcome.value, j, ran);
      }
    }

    /** The k-th arm has just returned an outcome: stop, raise, or go on. */
    method Decide(p: Plan, k: nat, outcome: State, ghost j: Journal, ghost ran: set<ArmId>) returns (gate: Gate)
      requires DistinctIds(p.arms) && k < |p.arms| && LoopCore(j, p, ran, k) && DependencyMet(j, p.arms[k])
      requires executed == ran + {p.arms[k].id}
      requires Frontier(journal, p.arms, k + 1) && AgreeOutside(j, journal, p.arms, k)
      requires forall id :: id != p.arms[k].id ==> History(journal, id) == History(j, id)
      requires Latest(journal, p.arms[k].id) == Some(outcome) && outcome != Blocked
      modifies `journal
      ensures gate == if outcome == Stopped then Leave(SuiteStopped)
                      else if outcome == Completed || !p.failClosed
                              || (p.independentInvalidContinues && outcome in {SchemaInvalid, SemanticInvalid})
                      then Skip else Leave(SuiteRaised)
      ensures Latest(journal, p.arms[k].id) == Some(outcome) && AgreeOutside(j, journal, p.arms, k)
      ensures gate == Skip ==> journal == old(journal) && LoopCore(journal, p, executed, k + 1)
      ensures gate.Leave? ==> LoopHolds(journal, p, executed) && ClosedFrom(journal, p.arms, k + 1)
    {
      hide LoopCore, LoopHolds, Frontier, AgreeOutside, AllEnded, BlockedBetween, EndsOnce, AllOpen, DependencyMet,
           Latest, History, Terminal, ClosedFrom;
      ghost var f := journal;
      if outcome == Stopped {
        BlockRemaining(p.arms, k, false, k + 1);
        BlockedIsClosed(f, journal, p.arms, k + 1);
        SameLatest(f, journal, p.arms[k].id);
        AgreeEarlier(f, journal, p.arms, k, k + 1);
        AgreeChain(j, f, journal, p.arms, k);
        ExitHolds(j, journal, p, ran, k, true);
        return Leave(SuiteStopped);
      }
      if outcome != Completed && !(p.independentInvalidContinues && ModelInvalid(outcome)) && p.failClosed {
        Wreck(p, k, j);
        SameLatest(f, journal, p.arms[k].id);
        ExitHolds(j, journal, p, ran, k, true);
        return Leave(SuiteRaised);
      }
      FrontierEnds(journal, p.arms, k + 1, k);
      ContinueHolds(j, journal, p, ran, k, true);
      gate := Skip;
    }

    /** Blocks everything after the k-th arm and raises: the fault handler finds nothing left to do. */
    method Wreck(p: Plan, k: nat, ghost j: Journal)
      requires DistinctIds(p.arms) && k < |p.arms| && Frontier(journal, p.arms, k + 1)
      requires AgreeOutside(j, journal, p.arms, k)
      modifies `journal
      ensures AllEnded(journal, p.arms) && AgreeOutside(j, journal, p.arms, k)
      ensures ClosedFrom(journal, p.arms, k + 1)
      ensures History(journal, p.arms[k].id) == History(old(journal), p.arms[k].id)
    {
      hide *;
      ghost var f := journal;
      BlockRemaining(p.arms, k, false, k + 1);
      BlockedIsClosed(f, journal, p.arms, k + 1);
      ghost var b := journal;
      AgreeEarlier(f, b, p.arms, k, k + 1);
      AllEndedIsFrontier(b, p.arms);
      HandleFault(p.arms, k, |p.arms|);
      FaultIdles(b, journal, p.arms, k);
      AgreeChain(f, b, journal, p.arms, k);
      AgreeChain(j, f, journal, p.arms, k);
    }

    /** One pass of the loop. */
    method Pass(p: Plan, k: nat, c: Conduct) returns (gate: Gate, ghost seen: Seen)
      requires DistinctIds(p.arms) && k < |p.arms| && LoopCore(journal, p, executed, k)
      requires Books() && Fits(c)
      modifies this
      ensures Books() && BooksGrow(old(db), db, p.arms[k].id, c)
      ensures executed == old(executed) + if seen.Executed? then {p.arms[k].id} else {}
      ensures Followed(journal, p, c, k, seen) && AgreeOutside(old(journal), journal, p.arms, k)
      ensures seen.Executed? ==>
                (seen.admitted <==>
                 Admits(After(c.world, old(db), ReserveStep(c.inputs) + 1), BookingOf(account, p.arms[k].id, c)))
      ensures gate == if GoesOn(p, c, seen) then Skip else Leave(if StopsAt(c, seen) then SuiteStopped else SuiteRaised)
      ensures gate == Skip ==> LoopCore(journal, p, executed, k + 1)
      ensures gate == Skip ==> forall id :: id != p.arms[k].id ==> History(journal, id) == History(old(journal), id)
      ensures gate.Leave? ==> LoopHolds(journal, p, executed) && ClosedFrom(journal, p.arms, k + 1)
    {
      ghost var j := journal;
      FrontierOf(j, p, executed, k);
      hide LoopCore, LoopHolds, ClosedFrom, AgreeOutside, Frontier, DependencyMet, Books, BooksGrow, Fits, History,
           Latest, MetAt, ExitOf, Refusal, Admits, After, BookingOf;
      NothingGrows(db, p.arms[k].id, c);
      gate := Admit(p, k, c);
      seen := Unexecuted;
      if gate == Proceed {
        gate, seen := Settle(p, k, c);
        GoesOnAfter(p, c, seen);
      }
      MetIsMet(j, journal, p, k);
    }

    /** The loop's invariant before arm k. */
    ghost predicate Looping(p: Plan, world: seq<Conduct>, k: nat, nonfatal: bool, log: seq<Seen>)
      reads this
    {
      && k <= |p.arms| && LoopCore(journal, p, executed, k) && (nonfatal <==> !AllCompleted(journal, p.arms, k))
      && Books() && NamesLeft(world, k)
      && |log| == k && Logged(journal, p, world, executed, log) && AllGoOn(p, world, log)
    }

    lemma LoopingParts(p: Plan, world: seq<Conduct>, k: nat, nonfatal: bool, log: seq<Seen>)
      requires Looping(p, world, k, nonfatal, log)
      ensures k <= |p.arms| && LoopCore(journal, p, executed, k) && (nonfatal <==> !AllCompleted(journal, p.arms, k))
      ensures Books() && NamesLeft(world, k)
      ensures |log| == k && Logged(journal, p, world, executed, log) && AllGoOn(p, world, log)
    {
    }

    lemma WelcomeStays(s: Reservations.Store, t: Reservations.Store, p: Plan, world: seq<Conduct>, k: nat,
                       log: seq<Seen>, seen: Seen)
      requires k < |p.arms| == |world| && DistinctIds(p.arms) && Welcomed(s, account, p, world, k, log)
      requires BooksGrow(s, t, p.arms[k].id, world[k])
      requires seen.Executed? ==>
                 (seen.admitted <==> Admits(After(world[k].world, s, ReserveStep(world[k].inputs) + 1),
                                            BookingOf(account, p.arms[k].id, world[k])))
      requires Reservations.Valid(s)
      ensures Admitted(log + [seen]) && Welcomed(t, account, p, world, k + 1, log + [seen])
    {
      assert Undisturbed(world[k].world);
      hide Room, Undisturbed, OwnOnly, Admits, After, Caps, Mine, Reservations.Valid;
      RoomAdmits(s, account, p, world, k, ReserveStep(world[k].inputs) + 1);
      RoomStays(s, t, account, p, world, k);
    }

    method Round(p: Plan, world: seq<Conduct>, k: nat, nonfatal: bool, ghost log: seq<Seen>)
      returns (gate: Gate, nonfatal': bool, ghost log': seq<Seen>)
      requires DistinctIds(p.arms) && k < |p.arms| == |world| && Looping(p, world, k, nonfatal, log)
      modifies this
      ensures Caps(db) == old(Caps(db)) && (gate == Skip || gate.Leave?)
      ensures gate == Skip ==> Looping(p, world, k + 1, nonfatal', log')
      ensures gate.Leave? ==> LoopHolds(journal, p, executed) && Books() && Bounded()
      ensures gate.Leave? ==> RunLogged(journal, p, world, executed, log', gate.t)
      ensures Welcomed(old(db), account, p, world, k, log) ==> Admitted(log')
      ensures Welcomed(old(db), account, p, world, k, log) && gate == Skip ==>
                Welcomed(db, account, p, world, k + 1, log')
    {
      LoopingParts(p, world, k, nonfatal, log);
      hide LoopCore, AllCompleted, Books, NamesLeft, Caps, LoopHolds, Bounded, Fits, BooksGrow, History, Logged,
           AllGoOn, RunLogged, Followed, AgreeOutside, ClosedFrom, GoesOn, StopsAt, Welcomed, Admitted, Admits, After,
           BookingOf;
      ghost var before, tables, ran := journal, db, executed;
      NextName(world, k);
      nonfatal' := nonfatal;
      ghost var seen;
      gate, seen := Pass(p, k, world[k]);
      log' := log + [seen];
      LoggedNext(before, journal, p, world, ran, log, seen);
      if Welcomed(tables, account, p, world, k, log) {
        WelcomeStays(tables, db, p, world, k, log, seen);
      }
      NamesStay(tables, p.arms[k].id, world, k);
      BooksBounded();
      if gate == Skip {
        CompletedSoFar(before, journal, p.arms, k);
        nonfatal' := nonfatal || Latest(journal, p.arms[k].id) != Some(Completed);
      } else {
        LeftLogged(journal, p, world, executed, log, seen, gate.t);
      }
    }

    /** The whole loop. The log has what each pass came to. */
    method Run(p: Plan, world: seq<Conduct>) returns (t: Terminus, ghost log: seq<Seen>)
      requires DistinctIds(p.arms) && |world| == |p.arms|
      requires Frontier(journal, p.arms, 0) && executed == {}
      requires Books() && NamesLeft(world, 0)
      modifies this
      ensures LoopHolds(journal, p, executed)
      ensures Books() && Caps(db) == old(Caps(db))
      ensures Bounded()
      ensures RunLogged(journal, p, world, executed, log, t)
      ensures Peaceful(world) && Room(old(db), account, p, world, 0) ==> Admitted(log)
      ensures CalmSuite(p, world) && Peaceful(world) && Room(old(db), account, p, world, 0) ==>
                t == SuiteCompleted && executed == IdsBetween(p.arms, 0, |p.arms|)
      ensures t == SuiteCompleted ==> AllCompleted(journal, p.arms, |p.arms|)
      ensures t == SuiteFailed ==> !AllCompleted(journal, p.arms, |p.arms|)
    {
      var nonfatal := false;
      var k := 0;
      log := [];
      LoopBegins(journal, p, executed);
      LogBegins(journal, p, world);
      ghost var welcome := Welcomed(db, account, p, world, 0, []);
      assert welcome <==> Peaceful(world) && Room(db, account, p, world, 0);
      hide *;
      while k < |p.arms|
        invariant 0 <= k <= |p.arms| && Looping(p, world, k, nonfatal, log) && Caps(db) == old(Caps(db))
        invariant welcome ==> Welcomed(db, account, p, world, k, log)
      {
        var gate;
        gate, nonfatal, log := Round(p, world, k, nonfatal, log);
        if gate.Leave? {
          LeftEarly(journal, p, world, executed, log, gate.t);
          CalmCompletes(journal, p, world, executed, log, gate.t);
          return gate.t, log;
        }
        k := k + 1;
      }
      LoopingParts(p, world, k, nonfatal, log);
      BooksBounded();
      LoopEnds(journal, p, executed);
      t := if nonfatal then SuiteFailed else SuiteCompleted;
      RunToTheEnd(journal, p, world, executed, log, t);
      WelcomedIsAdmitted(db, account, p, world, k, log);
      CalmCompletes(journal, p, world, executed, log, t);
    }
  }

  // ---------- the log of a run ----------

  /** Every pass made so far came to what the log says, and the arms executed are those it says were. */
  ghost predicate Logged(j: Journal, p: Plan, world: seq<Conduct>, executed: set<ArmId>, log: seq<Seen>) {
    && |log| <= |p.arms| == |world|
    && (forall i :: 0 <= i < |log| ==> Followed(j, p, world[i], i, log[i]))
    && executed == set i | 0 <= i < |log| && log[i].Executed? :: p.arms[i].id
  }

  ghost predicate AllGoOn(p: Plan, world: seq<Conduct>, log: seq<Seen>)
    requires |log| <= |world|
  {
    forall i :: 0 <= i < |log| ==> GoesOn(p, world[i], log[i])
  }

  /** How a run ended, read off its log: the loop went on after every pass but possibly the last. It left early,
      stopped when the last pass stops and raised otherwise, with the arms it never came to blocked; or it made a
      pass for every arm, and the suite completed when every arm was executed and completed. */
  ghost predicate RunLogged(j: Journal, p: Plan, world: seq<Conduct>, executed: set<ArmId>, log: seq<Seen>, t: Terminus)
  {
    && Logged(j, p, world, executed, log)
    && match t
       case SuiteCompleted =>
         |log| == |p.arms| && forall i :: 0 <= i < |log| ==> log[i].Executed? && log[i].exit == Returned(Completed)
       case SuiteFailed =>
         && |log| == |p.arms| && AllGoOn(p, world, log)
         && exists i :: 0 <= i < |log| && !(log[i].Executed? && log[i].exit == Returned(Completed))
       case _ =>
         && |log| > 0 && AllGoOn(p, world, log[..|log| - 1])
         && var last := |log| - 1;
            && !GoesOn(p, world[last], log[last])
            && (t == SuiteStopped <==> StopsAt(world[last], log[last]))
            && ClosedFrom(j, p.arms, |log|)
  }

  lemma WelcomedIsAdmitted(db: Reservations.Store, account: Account, p: Plan, world: seq<Conduct>, k: nat,
                           log: seq<Seen>)
    requires k <= |p.arms| == |world|
    ensures Welcomed(db, account, p, world, k, log) ==> Admitted(log)
  {
  }

  /** The loop went on after every pass before the i-th. */
  ghost predicate TurnComes(p: Plan, world: seq<Conduct>, log: seq<Seen>, i: nat)
    requires |log| <= |world|
  {
    forall x :: 0 <= x < i ==> x < |log| && GoesOn(p, world[x], log[x])
  }

  /** What a run's log tells: the operator's stop ends the suite exactly when a pass stops; an arm's turn comes
      exactly when the loop went on after every earlier pass; and an arm is executed exactly when its turn comes,
      nothing outside the plan keeps it, and its dependency is met. */
  lemma LogMeaning(j: Journal, p: Plan, world: seq<Conduct>, executed: set<ArmId>, log: seq<Seen>, t: Terminus)
    requires DistinctIds(p.arms) && RunLogged(j, p, world, executed, log, t)
    ensures t == SuiteStopped <==> exists i :: 0 <= i < |log| && StopsAt(world[i], log[i])
    ensures forall i :: 0 <= i < |p.arms| ==> (i < |log| <==> TurnComes(p, world, log, i))
    ensures forall i :: 0 <= i < |p.arms| ==>
              (p.arms[i].id in executed <==> i < |log| && Cleared(world[i]) && MetAt(j, p, i))
  {
    forall i | 0 <= i < |log| && GoesOn(p, world[i], log[i])
      ensures !StopsAt(world[i], log[i])
    {
      assert Followed(j, p, world[i], i, log[i]);
    }
    hide GoesOn, StopsAt, ExitOf, Refusal, MetAt, ClosedFrom, Latest;
    forall i | 0 <= i < |p.arms|
      ensures p.arms[i].id in executed <==> i < |log| && Cleared(world[i]) && MetAt(j, p, i)
    {
      if i < |log| {
        assert Followed(j, p, world[i], i, log[i]);
      }
    }
    forall i | 0 <= i < |log| - 1
      ensures GoesOn(p, world[i], log[i])
    {
      assert t.SuiteStopped? || t.SuiteRaised? ==> log[..|log| - 1][i] == log[i];
    }
  }

  /** An arm to which nothing happens: it is cleared, no step of its execution fails, and its turn is answered
      after inference was reached, with a valid result. */
  ghost predicate CalmConduct(c: Conduct) {
    && Cleared(c) && (forall k: nat :: c.world.faults(k) == Works)
    && ThreadAvailable(c.inputs) && c.inputs.contractMatched
    && c.inputs.end == Answered && true in c.inputs.events && c.inputs.verdict == Valid
  }

  /** Every conduct is calm, and an arm requires only an earlier one. */
  ghost predicate CalmSuite(p: Plan, world: seq<Conduct>)
    requires |p.arms| == |world|
  {
    && (forall i :: 0 <= i < |world| ==> CalmConduct(world[i]))
    && (forall i :: 0 <= i < |p.arms| && p.arms[i].dependsOn.Some? && p.arms[i].requiresPriorSuccess ==>
          exists d :: 0 <= d < i && p.arms[d].id == p.arms[i].dependsOn.value)
  }

  lemma CalmPass(j: Journal, p: Plan, world: seq<Conduct>, executed: set<ArmId>, log: seq<Seen>, i: nat)
    requires DistinctIds(p.arms) && Logged(j, p, world, executed, log) && Admitted(log) && CalmSuite(p, world)
    requires i < |log|
    requires forall x :: 0 <= x < i ==> log[x].Executed? && log[x].exit == Returned(Completed)
    ensures log[i].Executed? && log[i].exit == Returned(Completed)
  {
    assert CalmConduct(world[i]) && Followed(j, p, world[i], i, log[i]);
    CalmExitIs(world[i].world.faults, world[i].inputs);
    var arm := p.arms[i];
    if arm.dependsOn.Some? && arm.requiresPriorSuccess {
      var d :| 0 <= d < i && p.arms[d].id == arm.dependsOn.value;
      assert Followed(j, p, world[d], d, log[d]);
    }
    hide ExitOf, Latest;
    assert MetAt(j, p, i);
  }

  /** A calm suite whose arms are all admitted is executed to its end and completes. */
  lemma CalmCompletes(j: Journal, p: Plan, world: seq<Conduct>, executed: set<ArmId>, log: seq<Seen>, t: Terminus)
    requires DistinctIds(p.arms) && RunLogged(j, p, world, executed, log, t)
    ensures Admitted(log) && CalmSuite(p, world) ==>
              t == SuiteCompleted && executed == IdsBetween(p.arms, 0, |p.arms|)
  {
    if Admitted(log) && CalmSuite(p, world) {
      CalmLog(j, p, world, executed, log, |log|);
      hide Followed, ClosedFrom, CalmSuite, Admitted;
    }
  }

  lemma {:induction false} CalmLog(j: Journal, p: Plan, world: seq<Conduct>, executed: set<ArmId>, log: seq<Seen>,
                                   n: nat)
    requires DistinctIds(p.arms) && Logged(j, p, world, executed, log) && Admitted(log) && CalmSuite(p, world)
    requires n <= |log|
    ensures forall i :: 0 <= i < n ==> log[i].Executed? && log[i].exit == Returned(Completed)
  {
    hide Logged, Admitted, CalmSuite;
    if n > 0 {
      CalmLog(j, p, world, executed, log, n - 1);
      CalmPass(j, p, world, executed, log, n - 1);
    }
  }

  lemma LogBegins(j: Journal, p: Plan, world: seq<Conduct>)
    requires |p.arms| == |world|
    ensures Logged(j, p, world, {}, []) && AllGoOn(p, world, [])
  {
  }

  lemma LoggedNext(j: Journal, j': Journal, p: Plan, world: seq<Conduct>, executed: set<ArmId>, log: seq<Seen>,
                   seen: Seen)
    requires DistinctIds(p.arms) && |log| < |p.arms| && Logged(j, p, world, executed, log)
    requires AgreeOutside(j, j', p.arms, |log|) && Followed(j', p, world[|log|], |log|, seen)
    ensures Logged(j', p, world, executed + (if seen.Executed? then {p.arms[|log|].id} else {}), log + [seen])
    ensures AllGoOn(p, world, log) && GoesOn(p, world[|log|], seen) ==> AllGoOn(p, world, log + [seen])
  {
    hide Followed, AgreeOutside, GoesOn;
    forall i | 0 <= i < |log|
      ensures Followed(j', p, world[i], i, log[i])
    {
      StaysFollowed(j, j', p, world[i], i, |log|, log[i]);
    }
  }

  lemma LeftLogged(j: Journal, p: Plan, world: seq<Conduct>, executed: set<ArmId>, log: seq<Seen>, seen: Seen,
                   t: Terminus)
    requires |log| < |p.arms| && Logged(j, p, world, executed, log + [seen]) && AllGoOn(p, world, log)
    requires !GoesOn(p, world[|log|], seen) && ClosedFrom(j, p.arms, |log| + 1)
    requires t == if StopsAt(world[|log|], seen) then SuiteStopped else SuiteRaised
    ensures RunLogged(j, p, world, executed, log + [seen], t)
  {
    hide GoesOn, StopsAt, ClosedFrom, Followed;
    assert (log + [seen])[..|log|] == log;
  }

  lemma LeftEarly(j: Journal, p: Plan, world: seq<Conduct>, executed: set<ArmId>, log: seq<Seen>, t: Terminus)
    requires RunLogged(j, p, world, executed, log, t)
    ensures t == SuiteCompleted ==> AllCompleted(j, p.arms, |p.arms|)
    ensures t == SuiteFailed ==> !AllCompleted(j, p.arms, |p.arms|)
  {
    CompletedIsLogged(j, p, world, executed, log);
  }

  /** With a pass for every arm, all arms completed exactly when every pass executed one and it completed. */
  lemma CompletedIsLogged(j: Journal, p: Plan, world: seq<Conduct>, executed: set<ArmId>, log: seq<Seen>)
    requires Logged(j, p, world, executed, log)
    ensures var all := forall i :: 0 <= i < |log| ==> log[i].Executed? && log[i].exit == Returned(Completed);
      |log| == |p.arms| ==>
        && (all ==> AllCompleted(j, p.arms, |p.arms|))
        && (AllCompleted(j, p.arms, |p.arms|) && AllGoOn(p, world, log) ==> all)
  {
    hide ExitOf, MetAt, Latest;
    if |log| == |p.arms| {
      forall i | 0 <= i < |log|
        ensures Followed(j, p, world[i], i, log[i])
        ensures log[i].Executed? && log[i].exit == Returned(Completed) ==> Latest(j, p.arms[i].id) == Some(Completed)
        ensures Latest(j, p.arms[i].id) == Some(Completed) && GoesOn(p, world[i], log[i]) ==>
                  log[i].Executed? && log[i].exit == Returned(Completed)
      {
      }
    }
  }

  lemma RunToTheEnd(j: Journal, p: Plan, world: seq<Conduct>, executed: set<ArmId>, log: seq<Seen>, t: Terminus)
    requires Logged(j, p, world, executed, log) && AllGoOn(p, world, log) && |log| == |p.arms|
    requires t == if AllCompleted(j, p.arms, |p.arms|) then SuiteCompleted else SuiteFailed
    ensures RunLogged(j, p, world, executed, log, t)
  {
    CompletedIsLogged(j, p, world, executed, log);
  }

  ghost predicate AllCompleted(j: Journal, arms: seq<Arm>, k: nat)
    requires k <= |arms|
  {
    forall i :: 0 <= i < k ==> Latest(j, arms[i].id) == Some(Completed)
  }

  lemma LoopBegins(j: Journal, p: Plan, executed: set<ArmId>)
    requires Frontier(j, p.arms, 0) && executed == {}
    ensures LoopCore(j, p, executed, 0) && AllCompleted(j, p.arms, 0)
  {
  }

  lemma LoopEnds(j: Journal, p: Plan, executed: set<ArmId>)
    requires LoopCore(j, p, executed, |p.arms|)
    ensures LoopHolds(j, p, executed)
  {
  }

  lemma CompletedSoFar(j: Journal, j': Journal, arms: seq<Arm>, k: nat)
    requires DistinctIds(arms) && k < |arms|
    requires forall id :: id != arms[k].id ==> History(j', id) == History(j, id)
    ensures AllCompleted(j', arms, k + 1) <==> AllCompleted(j, arms, k) && Latest(j', arms[k].id) == Some(Completed)
  {
  }

  // ---------- small steps of the loop body ----------

  lemma FrontierOf(j: Journal, p: Plan, executed: set<ArmId>, k: nat)
    requires LoopCore(j, p, executed, k)
    ensures Frontier(j, p.arms, k)
  {
  }

  lemma AllEndedIsFrontier(j: Journal, arms: seq<Arm>)
    requires AllEnded(j, arms)
    ensures Frontier(j, arms, |arms|)
  {
  }

  lemma FrontierEnds(j: Journal, arms: seq<Arm>, m: nat, k: nat)
    requires Frontier(j, arms, m) && k < m
    ensures EndsOnce(History(j, arms[k].id))
  {
  }

  lemma DependentBlocked(j: Journal, arms: seq<Arm>, k: nat)
    requires DistinctIds(arms) && k < |arms| && Frontier(j, arms, k)
    ensures var j' := j[arms[k].id := History(j, arms[k].id) + [Blocked]];
      && Frontier(j', arms, k + 1) && AgreeOutside(j, j', arms, k)
      && (forall id :: id != arms[k].id ==> History(j', id) == History(j, id))
  {
    hide Frontier, AgreeOutside, EndsOnce, History;
    TerminalEnds(j, arms, k, Blocked);
    FrontierMoves(j, arms, k, History(j, arms[k].id) + [Blocked]);
    HistoryOfUpdate(j, arms[k].id, History(j, arms[k].id) + [Blocked]);
  }

  lemma BlockedContinues(j: Journal, p: Plan, executed: set<ArmId>, k: nat)
    requires DistinctIds(p.arms) && k < |p.arms| && LoopCore(j, p, executed, k)
    requires !(p.failClosed && !p.independentInvalidContinues)
    ensures LoopCore(j[p.arms[k].id := History(j, p.arms[k].id) + [Blocked]], p, executed, k + 1)
  {
    var j' := j[p.arms[k].id := History(j, p.arms[k].id) + [Blocked]];
    DependentBlocked(j, p.arms, k);
    LatestOfAppend(j', p.arms[k].id, History(j, p.arms[k].id), Blocked);
    FrontierEnds(j', p.arms, k + 1, k);
    ContinueHolds(j, j', p, executed, k, false);
  }

  lemma LatestOfAppend(j: Journal, id: ArmId, s: seq<State>, x: State)
    requires History(j, id) == s + [x]
    ensures Latest(j, id) == Some(x)
  {
  }

  lemma DependencyChecked(j: Journal, arm: Arm)
    ensures DependencyMet(j, arm) <==>
            !(arm.dependsOn.Some? && arm.requiresPriorSuccess && Latest(j, arm.dependsOn.value) != Some(Completed))
  {
  }

  lemma AgreesItself(j: Journal, arms: seq<Arm>, k: nat)
    ensures AgreeOutside(j, j, arms, k)
  {
  }

  lemma SameLatest(j: Journal, j': Journal, id: ArmId)
    requires History(j', id) == History(j, id)
    ensures Latest(j', id) == Latest(j, id)
  {
  }

  lemma AllBlocked(j: Journal, j': Journal, arms: seq<Arm>, k: nat)
    requires DistinctIds(arms) && k < |arms| && BlockedBetween(j, j', arms, k, |arms|)
    ensures ClosedFrom(j', arms, k + 1) && Latest(j', arms[k].id) == Some(Blocked)
  {
    BlockedIsClosed(j, j', arms, k);
  }

  /** The journal after the k-th arm's execution: its outcome recorded, or what it recorded before it raised. */
  ghost predicate AfterArm(j: Journal, j': Journal, arms: seq<Arm>, k: nat, trail: seq<State>, outcome: Option<State>)
    requires k < |arms|
  {
    if outcome.Some? then
      && Frontier(j', arms, k + 1) && AgreeOutside(j, j', arms, k) && outcome != Some(Blocked)
      && (forall id :: id != arms[k].id ==> History(j', id) == History(j, id))
      && Latest(j', arms[k].id) == outcome
    else j' == j[arms[k].id := trail] && (AllOpen(trail) || EndsOnce(trail))
  }

  lemma AfterArmMeans(j: Journal, j': Journal, arms: seq<Arm>, k: nat, trail: seq<State>, outcome: Option<State>)
    requires k < |arms| && AfterArm(j, j', arms, k, trail, outcome)
    ensures outcome.Some? ==>
              && Frontier(j', arms, k + 1) && AgreeOutside(j, j', arms, k) && outcome.value != Blocked
              && (forall id :: id != arms[k].id ==> History(j', id) == History(j, id))
              && Latest(j', arms[k].id) == Some(outcome.value)
    ensures outcome.None? ==> j' == j[arms[k].id := trail] && (AllOpen(trail) || EndsOnce(trail))
  {
  }

  /** What an execution's transitions leave in the journal. */
  lemma Executes(j: Journal, j': Journal, arms: seq<Arm>, k: nat, e: Execution)
    requires DistinctIds(arms) && k < |arms| && Frontier(j, arms, k) && ExecutionOk(e)
    requires j' == Extended(j, arms[k].id, e)
    ensures AfterArm(j, j', arms, k, Trail(j, arms[k].id, e), if e.Returns? then Some(e.outcome) else None)
  {
    var s := History(j, arms[k].id) + e.trail;
    ExecutionEnds(j, arms, k, e);
    hide Frontier, AgreeOutside, History, Latest, AllOpen, EndsOnce, Terminal;
    NothingAdded(s);
    if e.Returns? {
      HistoryOfUpdate(j, arms[k].id, s + [e.outcome]);
      FrontierMoves(j, arms, k, s + [e.outcome]);
      LatestOfAppend(j', arms[k].id, s, e.outcome);
    }
  }

  lemma ExecutionEnds(j: Journal, arms: seq<Arm>, k: nat, e: Execution)
    requires k < |arms| && Frontier(j, arms, k) && ExecutionOk(e)
    ensures var s := History(j, arms[k].id) + e.trail;
      if e.Returns? then EndsOnce(s + [e.outcome]) && e.outcome != Blocked else AllOpen(s) || EndsOnce(s)
  {
  }

  /** After a raise the arm is still open, or has ended. */
  lemma RaisedLeaves(j: Journal, j': Journal, arms: seq<Arm>, k: nat, s: seq<State>)
    requires DistinctIds(arms) && k < |arms| && Frontier(j, arms, k) && j' == j[arms[k].id := s]
    requires AllOpen(s) || EndsOnce(s)
    ensures Frontier(j', arms, if EndsOnce(s) then k + 1 else k) && AgreeOutside(j, j', arms, k)
  {
  }
}
