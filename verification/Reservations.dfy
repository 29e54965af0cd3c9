/** Inference reservations against an authorised cap. Workers share the tables; each transaction is atomic,
    but releasing a reservation reads in one step and writes in a later one. */
module Reservations {
  import opened Outcomes
  import opened Collections

  type AuthorizationId = nat
  type ReservationId = nat
  type WorkerId = nat
  type SuiteId = nat

  datatype Authorization = Authorization(maximum: int, consumed: nat, fingerprint: int, revoked: bool, completed: bool)

  datatype Reservation = Reservation(authorization: AuthorizationId, suite: SuiteId, arm: nat, attempt: nat,
                                     reached: bool, released: bool, result: Option<string>)

  /** The tables, with each suite's own counter of starts, and what each worker in the middle of a release has
      read: the row and its reached flag. */
  datatype Store = Store(authorizations: map<AuthorizationId, Authorization>,
                         suites: map<SuiteId, nat>,
                         reservations: map<ReservationId, Reservation>,
                         lookups: map<WorkerId, (ReservationId, bool)>)

  datatype Error = AuthorizationInvalid | CapExhausted | AlreadyReserved | ReservationUnavailable

  // ---------- the rows that count ----------

  function Outstanding(s: Store, a: AuthorizationId): set<ReservationId> {
    set r | r in s.reservations && s.reservations[r].authorization == a
            && !s.reservations[r].reached && !s.reservations[r].released
  }

  function Reached(s: Store, a: AuthorizationId): set<ReservationId> {
    set r | r in s.reservations && s.reservations[r].authorization == a && s.reservations[r].reached
  }

  function ReachedIn(s: Store, suite: SuiteId): set<ReservationId> {
    set r | r in s.reservations && s.reservations[r].suite == suite && s.reservations[r].reached
  }

  predicate ArmTaken(s: Store, a: AuthorizationId, arm: nat) {
    exists r :: r in s.reservations && s.reservations[r].authorization == a && s.reservations[r].arm == arm
  }

  // ---------- the transactions as state changes ----------

  /** The plan a worker runs: the fingerprint its authorization was granted for, and the plan's own maximum. */
  datatype Plan = Plan(authorization: AuthorizationId, suite: SuiteId, fingerprint: int, maximum: int)

  predicate AuthorizationValid(s: Store, p: Plan) {
    && p.authorization in s.authorizations
    && var a := s.authorizations[p.authorization];
       !a.revoked && !a.completed && a.fingerprint == p.fingerprint
  }

  function ReserveError(s: Store, p: Plan, arm: nat, fresh': ReservationId): Option<Error> {
    if !AuthorizationValid(s, p) then Some(AuthorizationInvalid)
    else
      var a := s.authorizations[p.authorization];
      var cap := if p.maximum < a.maximum then p.maximum else a.maximum;
      if a.consumed + |Outstanding(s, p.authorization)| >= cap then Some(CapExhausted)
      else if fresh' in s.reservations || ArmTaken(s, p.authorization, arm) then Some(AlreadyReserved)
      else None
  }

  function Reserved(s: Store, p: Plan, arm: nat, attempt: nat, id: ReservationId): Store {
    if ReserveError(s, p, arm, id).Some? then s
    else
      s.(reservations :=
           s.reservations[id := Reservation(p.authorization, p.suite, arm, attempt, false, false, None)])
  }

  function Consumed(s: Store, id: ReservationId): Store {
    if id !in s.reservations || s.reservations[id].released || s.reservations[id].reached then s
    else
      var row := s.reservations[id];
      var marked := s.(reservations := s.reservations[id := row.(reached := true)],
                       suites := if row.suite in s.suites then s.suites[row.suite := s.suites[row.suite] + 1]
                                 else s.suites);
      if row.authorization !in s.authorizations then marked
      else
        var a := s.authorizations[row.authorization];
        marked.(authorizations := s.authorizations[row.authorization := a.(consumed := a.consumed + 1)])
  }

  function ReleaseRead(s: Store, w: WorkerId, id: ReservationId): Store {
    if id !in s.reservations then s.(lookups := s.lookups - {w})
    else s.(lookups := s.lookups[w := (id, s.reservations[id].reached)])
  }

  /** The write trusts the earlier read. */
  function ReleaseWrite(s: Store, w: WorkerId, result: string): Store {
    if w !in s.lookups then s
    else
      var (id, sawReached) := s.lookups[w];
      if id !in s.reservations then s.(lookups := s.lookups - {w})
      else
        var row := s.reservations[id];
        s.(lookups := s.lookups - {w},
           reservations := s.reservations[id := if sawReached then row.(result := Some(result))
                                                else row.(released := true, result := Some(result))])
  }

  /** Crash recovery releases an attempt's rows that never reached inference. */
  function Recovered(s: Store, attempt: nat): Store {
    s.(reservations := map r | r in s.reservations ::
         var row := s.reservations[r];
         if row.attempt == attempt && !row.reached && !row.released
         then row.(released := true, result := Some("worker_crash_before_inference")) else row)
  }

  function Closed(s: Store, a: AuthorizationId, revoke: bool): Store {
    if a !in s.authorizations then s
    else s.(authorizations := s.authorizations[a := if revoke then s.authorizations[a].(revoked := true)
                                                    else s.authorizations[a].(completed := true)])
  }

  datatype Event =
    | Reserve(plan: Plan, arm: nat, attempt: nat, id: ReservationId)
    | Consume(id: ReservationId)
    | BeginRelease(worker: WorkerId, id: ReservationId)
    | FinishRelease(worker: WorkerId, result: string)
    | Recover(attempt: nat)
    | Close(authorization: AuthorizationId, revoke: bool)

  /** One event of any worker. A transaction that fails changes nothing. */
  function Step(s: Store, e: Event): Store {
    match e
    case Reserve(p, arm, attempt, id) => Reserved(s, p, arm, attempt, id)
    case Consume(id) => Consumed(s, id)
    case BeginRelease(w, id) => ReleaseRead(s, w, id)
    case FinishRelease(w, result) => ReleaseWrite(s, w, result)
    case Recover(attempt) => Recovered(s, attempt)
    case Close(a, revoke) => Closed(s, a, revoke)
  }

  function Run(s: Store, events: seq<Event>): Store
    decreases |events|
  {
    if events == [] then s else Run(Step(s, events[0]), events[1..])
  }

  // ---------- what the transactions decide ----------

  /** Exactly when an arm may reserve, and why not: an authorization that is missing, revoked, completed or granted
      for another plan is refused first, then a cap without room, then a name or an arm already taken. */
  lemma ReserveMeaning(s: Store, p: Plan, arm: nat, id: ReservationId)
    ensures var known := p.authorization in s.authorizations
                         && !s.authorizations[p.authorization].revoked && !s.authorizations[p.authorization].completed
                         && s.authorizations[p.authorization].fingerprint == p.fingerprint;
      var used := if known then s.authorizations[p.authorization].consumed + |Outstanding(s, p.authorization)| else 0;
      var room := known && used < s.authorizations[p.authorization].maximum && used < p.maximum;
      var taken := id in s.reservations
                   || exists r :: r in s.reservations && s.reservations[r].authorization == p.authorization
                                  && s.reservations[r].arm == arm;
      && (ReserveError(s, p, arm, id) == None <==> room && !taken)
      && (ReserveError(s, p, arm, id) == Some(AuthorizationInvalid) <==> !known)
      && (ReserveError(s, p, arm, id) == Some(CapExhausted) <==> known && !room)
      && (ReserveError(s, p, arm, id) == Some(AlreadyReserved) <==> room && taken)
  {
    hide Outstanding;
  }

  /** A start from reservation to inference: one row, under the plan's authorization and suite and for its arm and
      attempt, and one more on both their counters. */
  lemma StartMeaning(s: Store, p: Plan, arm: nat, attempt: nat, id: ReservationId)
    requires ReserveError(s, p, arm, id) == None && p.suite in s.suites
    ensures var t := Step(Step(s, Reserve(p, arm, attempt, id)), Consume(id));
      && t.reservations == s.reservations[id := Reservation(p.authorization, p.suite, arm, attempt, true, false, None)]
      && t.suites == s.suites[p.suite := s.suites[p.suite] + 1]
      && p.authorization in s.authorizations
      && var a := s.authorizations[p.authorization];
         t.authorizations == s.authorizations[p.authorization := a.(consumed := a.consumed + 1)]
  {
    hide Outstanding, ArmTaken;
    var t := Step(Step(s, Reserve(p, arm, attempt, id)), Consume(id));
    var row := Reservation(p.authorization, p.suite, arm, attempt, false, false, None);
    assert s.reservations[id := row][id := row.(reached := true)] == s.reservations[id := row.(reached := true)];
  }

  ghost predicate IsClosed(s: Store, a: AuthorizationId) {
    a in s.authorizations && (s.authorizations[a].revoked || s.authorizations[a].completed)
  }

  /** Once an authorization is revoked or completed nothing is ever reserved under it again, whatever workers do. */
  lemma ClosedForGood(s: Store, a: AuthorizationId, revoke: bool, events: seq<Event>, p: Plan,
                                         arm: nat, id: ReservationId)
    requires a in s.authorizations && p.authorization == a
    ensures ReserveError(Run(Step(s, Close(a, revoke)), events), p, arm, id) == Some(AuthorizationInvalid)
  {
    StaysClosed(Step(s, Close(a, revoke)), events, a);
    hide Run, Step;
  }

  lemma {:induction false} StaysClosed(s: Store, events: seq<Event>, a: AuthorizationId)
    requires IsClosed(s, a)
    ensures IsClosed(Run(s, events), a)
    decreases |events|
  {
    if events != [] {
      ClosedAfterStep(s, events[0], a);
      hide Step;
      StaysClosed(Step(s, events[0]), events[1..], a);
    }
  }

  lemma ClosedAfterStep(s: Store, e: Event, a: AuthorizationId)
    requires IsClosed(s, a)
    ensures IsClosed(Step(s, e), a)
  {
    hide ReserveError;
  }

  /** Recovering an attempt releases exactly its rows that never reached inference, and frees their places: nothing
      of the attempt is outstanding afterwards, and no other row is touched. */
  lemma RecoveryFrees(s: Store, attempt: nat, a: AuthorizationId)
    ensures var t := Step(s, Recover(attempt));
      && t == s.(reservations := t.reservations) && t.reservations.Keys == s.reservations.Keys
      && (forall r :: r in s.reservations ==>
            var row := s.reservations[r];
            t.reservations[r] == if row.attempt == attempt && !row.reached && !row.released
                                 then row.(released := true, result := Some("worker_crash_before_inference"))
                                 else row)
      && Outstanding(t, a) == (set r | r in Outstanding(s, a) && s.reservations[r].attempt != attempt)
      && Reached(t, a) == Reached(s, a)
  {
    var t := Step(s, Recover(attempt));
    assert forall r :: r in t.reservations <==> r in s.reservations;
  }

  // ---------- the invariant ----------

  ghost predicate WithinCap(s: Store, a: AuthorizationId) {
    a in s.authorizations ==>
      && s.authorizations[a].consumed == |Reached(s, a)|
      && s.authorizations[a].consumed + |Outstanding(s, a)| <= s.authorizations[a].maximum
  }

  /** A suite's counter is the number of its reservations that reached inference. */
  ghost predicate SuiteCounted(s: Store, suite: SuiteId) {
    suite in s.suites ==> s.suites[suite] == |ReachedIn(s, suite)|
  }

  ghost predicate ArmsUnique(s: Store) {
    forall q, r :: q in s.reservations && r in s.reservations && q != r ==>
      || s.reservations[q].authorization != s.reservations[r].authorization
      || s.reservations[q].arm != s.reservations[r].arm
  }

  ghost predicate Valid(s: Store) {
    && (forall a :: WithinCap(s, a))
    && (forall suite :: SuiteCounted(s, suite))
    && ArmsUnique(s)
    && RowsKnown(s)
  }

  /** Rows belong to known authorizations, and what a worker has read as reached is reached. */
  ghost predicate RowsKnown(s: Store) {
    && (forall r :: r in s.reservations ==> s.reservations[r].authorization in s.authorizations)
    && (forall w :: w in s.lookups ==> s.lookups[w].0 in s.reservations)
    && (forall w :: w in s.lookups && s.lookups[w].1 ==> s.reservations[s.lookups[w].0].reached)
  }

  lemma ReserveKeepsCap(s: Store, p: Plan, arm: nat, attempt: nat, id: ReservationId, a: AuthorizationId)
    requires WithinCap(s, a)
    ensures WithinCap(Reserved(s, p, arm, attempt, id), a)
  {
    if ReserveError(s, p, arm, id) == None {
      NewRow(s, p, arm, attempt, id, a);
      hide Outstanding, Reached, ArmTaken;
    }
  }

  lemma NewRowReached(s: Store, id: ReservationId, row: Reservation, a: AuthorizationId)
    requires id !in s.reservations && !row.reached
    ensures Reached(s.(reservations := s.reservations[id := row]), a) == Reached(s, a)
  {
  }

  lemma NewRowOutstanding(s: Store, id: ReservationId, row: Reservation, a: AuthorizationId)
    requires id !in s.reservations && !row.reached && !row.released
    ensures id !in Outstanding(s, a)
    ensures Outstanding(s.(reservations := s.reservations[id := row]), a)
         == Outstanding(s, a) + if a == row.authorization then {id} else {}
  {
  }

  lemma NewRow(s: Store, p: Plan, arm: nat, attempt: nat, id: ReservationId, a: AuthorizationId)
    requires id !in s.reservations
    ensures var row := Reservation(p.authorization, p.suite, arm, attempt, false, false, None);
      var t := s.(reservations := s.reservations[id := row]);
      && Reached(t, a) == Reached(s, a)
      && |Outstanding(t, a)| == |Outstanding(s, a)| + if a == p.authorization then 1 else 0
  {
    hide Outstanding, Reached;
    var row := Reservation(p.authorization, p.suite, arm, attempt, false, false, None);
    NewRowReached(s, id, row, a);
    NewRowOutstanding(s, id, row, a);
  }

  /** Consuming moves one row from outstanding to reached. */
  lemma ConsumedRow(s: Store, id: ReservationId, a: AuthorizationId)
    requires id in s.reservations && !s.reservations[id].released && !s.reservations[id].reached
    ensures var mine, t := {id} * (if s.reservations[id].authorization == a then {id} else {}), Consumed(s, id);
            Reached(t, a) == Reached(s, a) + mine && Outstanding(t, a) == Outstanding(s, a) - mine
    ensures id !in Reached(s, a) && (id in Outstanding(s, a) <==> s.reservations[id].authorization == a)
  {
  }

  lemma ConsumeKeepsCap(s: Store, id: ReservationId, a: AuthorizationId)
    requires WithinCap(s, a)
    ensures WithinCap(Consumed(s, id), a)
  {
    if Consumed(s, id) != s {
      ConsumedRow(s, id, a);
      hide Outstanding, Reached;
      var mine := {id} * (if s.reservations[id].authorization == a then {id} else {});
      assert mine == if s.reservations[id].authorization == a then {id} else {};
    }
  }

  /** Marking rows released, reached or not, only lowers what is outstanding. */
  lemma ReleasingKeepsCap(s: Store, t: Store, a: AuthorizationId)
    requires WithinCap(s, a) && t.authorizations == s.authorizations
    requires t.reservations.Keys == s.reservations.Keys
    requires forall r :: r in s.reservations ==>
               var (x, y) := (s.reservations[r], t.reservations[r]);
               x.authorization == y.authorization && x.reached == y.reached && (x.released ==> y.released)
    ensures WithinCap(t, a)
  {
    assert Reached(t, a) == Reached(s, a) by {
      forall r
        ensures r in Reached(t, a) <==> r in Reached(s, a)
      {
        assert r in t.reservations <==> r in s.reservations;
      }
    }
    assert Outstanding(t, a) <= Outstanding(s, a) by {
      forall r | r in Outstanding(t, a)
        ensures r in Outstanding(s, a)
      {
        assert r in s.reservations;
      }
    }
    SubsetSize(Outstanding(t, a), Outstanding(s, a));
  }

  lemma CloseKeepsCap(s: Store, b: AuthorizationId, revoke: bool, a: AuthorizationId)
    requires WithinCap(s, a)
    ensures WithinCap(Closed(s, b, revoke), a)
  {
  }

  lemma StepKeepsCap(s: Store, e: Event, a: AuthorizationId)
    requires Valid(s)
    ensures WithinCap(Step(s, e), a)
  {
    assert WithinCap(s, a);
    match e
    case Reserve(p, arm, attempt, id) => ReserveKeepsCap(s, p, arm, attempt, id, a);
    case Consume(id) => ConsumeKeepsCap(s, id, a);
    case BeginRelease(w, id) => ReleasingKeepsCap(s, Step(s, e), a);
    case FinishRelease(w, result) => ReleasingKeepsCap(s, Step(s, e), a);
    case Recover(attempt) => ReleasingKeepsCap(s, Step(s, e), a);
    case Close(b, revoke) => CloseKeepsCap(s, b, revoke, a);
  }

  lemma ConsumeCountsSuite(s: Store, id: ReservationId, suite: SuiteId)
    requires SuiteCounted(s, suite)
    ensures SuiteCounted(Consumed(s, id), suite)
  {
    var t := Consumed(s, id);
    if t != s {
      if s.reservations[id].suite == suite {
        assert ReachedIn(t, suite) == ReachedIn(s, suite) + {id};
      } else {
        assert ReachedIn(t, suite) == ReachedIn(s, suite);
      }
    }
  }

  /** Rows that keep their suite and whether they were reached are counted alike. */
  lemma SameReached(s: Store, t: Store, suite: SuiteId)
    requires t.reservations.Keys == s.reservations.Keys
    requires forall r :: r in s.reservations ==>
               && s.reservations[r].suite == t.reservations[r].suite
               && s.reservations[r].reached == t.reservations[r].reached
    ensures ReachedIn(t, suite) == ReachedIn(s, suite)
  {
    forall r
      ensures r in ReachedIn(t, suite) <==> r in ReachedIn(s, suite)
    {
      assert r in t.reservations <==> r in s.reservations;
    }
  }

  lemma StepCountsSuite(s: Store, e: Event, suite: SuiteId)
    requires SuiteCounted(s, suite)
    ensures SuiteCounted(Step(s, e), suite)
  {
    var t := Step(s, e);
    match e
    case Reserve(p, arm, attempt, id) =>
      if t != s {
        hide ReserveError;
        assert ReachedIn(t, suite) == ReachedIn(s, suite);
      }
    case Consume(id) => ConsumeCountsSuite(s, id, suite);
    case BeginRelease(w, id) => SameReached(s, t, suite);
    case FinishRelease(w, result) => SameReached(s, t, suite);
    case Recover(attempt) => SameReached(s, t, suite);
    case Close(b, revoke) => SameReached(s, t, suite);
  }

  lemma StepKeepsArmsUnique(s: Store, e: Event)
    requires ArmsUnique(s)
    ensures ArmsUnique(Step(s, e))
  {
  }

  lemma StepKeepsRowsKnown(s: Store, e: Event)
    requires RowsKnown(s)
    ensures RowsKnown(Step(s, e))
    ensures Step(s, e).authorizations.Keys == s.authorizations.Keys
    ensures forall a :: a in s.authorizations ==>
              Step(s, e).authorizations[a].maximum == s.authorizations[a].maximum
  {
    hide Outstanding, ArmTaken;
  }

  /** What was reached stays reached. */
  lemma StepKeepsReached(s: Store, e: Event, r: ReservationId)
    requires r in s.reservations
    ensures r in Step(s, e).reservations
    ensures s.reservations[r].reached ==> Step(s, e).reservations[r].reached
    ensures e.Recover? && s.reservations[r].reached ==> Step(s, e).reservations[r] == s.reservations[r]
  {
  }

  /** Every step of every worker keeps the invariant, and no maximum ever moves. */
  lemma StepKeepsValid(s: Store, e: Event)
    requires Valid(s)
    ensures Valid(Step(s, e))
    ensures Step(s, e).authorizations.Keys == s.authorizations.Keys
    ensures forall a :: a in s.authorizations ==>
              Step(s, e).authorizations[a].maximum == s.authorizations[a].maximum
  {
    forall a
      ensures WithinCap(Step(s, e), a)
    {
      StepKeepsCap(s, e, a);
    }
    forall suite
      ensures SuiteCounted(Step(s, e), suite)
    {
      StepCountsSuite(s, e, suite);
    }
    StepKeepsArmsUnique(s, e);
    StepKeepsRowsKnown(s, e);
  }

  // ---------- over whole runs ----------

  /** Whether an event starts an inference under an authorization. */
  predicate IsStart(s: Store, e: Event, a: AuthorizationId) {
    e.Consume? && Consumed(s, e.id) != s && s.reservations[e.id].authorization == a
  }

  ghost function Starts(s: Store, events: seq<Event>, a: AuthorizationId): nat
    decreases |events|
  {
    if events == [] then 0
    else (if IsStart(s, events[0], a) then 1 else 0) + Starts(Step(s, events[0]), events[1..], a)
  }

  lemma StepCountsStarts(s: Store, e: Event, a: AuthorizationId)
    requires Valid(s) && a in s.authorizations
    ensures a in Step(s, e).authorizations
    ensures Step(s, e).authorizations[a].consumed
         == s.authorizations[a].consumed + if IsStart(s, e, a) then 1 else 0
  {
  }

  /** In every run, whatever the interleaving: the invariant holds throughout, every start is counted, and
      starts plus outstanding reservations never exceed the cap. */
  lemma {:induction false} RunStaysWithinCap(s: Store, events: seq<Event>, a: AuthorizationId)
    requires Valid(s) && a in s.authorizations
    ensures Valid(Run(s, events)) && a in Run(s, events).authorizations
    ensures Run(s, events).authorizations[a].maximum == s.authorizations[a].maximum
    ensures Run(s, events).authorizations[a].consumed == s.authorizations[a].consumed + Starts(s, events, a)
    ensures s.authorizations[a].consumed + Starts(s, events, a) + |Outstanding(Run(s, events), a)|
         <= s.authorizations[a].maximum
    decreases |events|
  {
    hide Valid, Outstanding, WithinCap, IsStart;
    if events == [] {
      CapOf(s, a);
    } else {
      StepKeepsValid(s, events[0]);
      StepCountsStarts(s, events[0], a);
      RunStaysWithinCap(Step(s, events[0]), events[1..], a);
    }
  }

  lemma CapOf(s: Store, a: AuthorizationId)
    requires Valid(s) && a in s.authorizations
    ensures s.authorizations[a].consumed + |Outstanding(s, a)| <= s.authorizations[a].maximum
  {
    assert WithinCap(s, a);
  }

  // ---------- rows that stay outstanding ----------

  /** No event of the run touches these rows. */
  ghost predicate LeftAlone(s: Store, events: seq<Event>, rows: set<ReservationId>)
    decreases |events|
  {
    events == [] || (Untouched(s, Step(s, events[0]), rows) && LeftAlone(Step(s, events[0]), events[1..], rows))
  }

  ghost predicate Untouched(s: Store, t: Store, rows: set<ReservationId>) {
    forall r :: r in rows && r in s.reservations ==> r in t.reservations && t.reservations[r] == s.reservations[r]
  }

  lemma UntouchedStays(s: Store, t: Store, a: AuthorizationId, rows: set<ReservationId>)
    requires rows <= Outstanding(s, a) && Untouched(s, t, rows)
    ensures rows <= Outstanding(t, a)
  {
    forall r | r in rows
      ensures r in Outstanding(t, a)
    {
      assert r in s.reservations;
    }
  }

  /** Each row that stays outstanding costs one arm: over any run that leaves such rows alone, the starts stay
      within what the maximum leaves beside them. */
  lemma {:induction false} StrandedRowsCost(s: Store, events: seq<Event>, a: AuthorizationId, rows: set<ReservationId>)
    requires Valid(s) && a in s.authorizations
    requires rows <= Outstanding(s, a) && LeftAlone(s, events, rows)
    ensures rows <= Outstanding(Run(s, events), a)
    ensures s.authorizations[a].consumed + Starts(s, events, a) + |rows| <= s.authorizations[a].maximum
    decreases |events|
  {
    hide Valid, Outstanding, Untouched, IsStart;
    if events == [] {
      CapOf(s, a);
      SubsetSize(rows, Outstanding(s, a));
    } else {
      StepKeepsValid(s, events[0]);
      StepCountsStarts(s, events[0], a);
      UntouchedStays(s, Step(s, events[0]), a, rows);
      StrandedRowsCost(Step(s, events[0]), events[1..], a, rows);
    }
  }

  /** The next arm is refused exactly when the rest of the outstanding rows and the starts have reached a cap that
      is lower by the number of rows that stay outstanding. */
  lemma StrandedRowsLowerCap(s: Store, p: Plan, arm: nat, id: ReservationId, rows: set<ReservationId>)
    requires AuthorizationValid(s, p) && rows <= Outstanding(s, p.authorization)
    ensures var a := s.authorizations[p.authorization];
      var cap := if p.maximum < a.maximum then p.maximum else a.maximum;
      ReserveError(s, p, arm, id) == Some(CapExhausted) <==>
        a.consumed + |Outstanding(s, p.authorization) - rows| >= cap - |rows|
  {
    var all := Outstanding(s, p.authorization);
    assert all == rows + (all - rows);
    hide Outstanding, ArmTaken;
  }

  /** Consuming twice is consuming once. */
  lemma ConsumeIdempotent(s: Store, id: ReservationId)
    ensures Consumed(Consumed(s, id), id) == Consumed(s, id)
  {
  }

  /** The split release: a consume between the read and the write leaves the row both reached and released,
      counted once as a start and no longer outstanding. */
  lemma SplitRelease(s: Store, w: WorkerId, id: ReservationId, result: string)
    requires Valid(s) && id in s.reservations && !s.reservations[id].reached && !s.reservations[id].released
    ensures var t := Run(s, [BeginRelease(w, id), Consume(id), FinishRelease(w, result)]);
      var a := s.reservations[id].authorization;
      && id in t.reservations && t.reservations[id].reached && t.reservations[id].released
      && a in s.authorizations && a in t.authorizations
      && t.authorizations[a].consumed == s.authorizations[a].consumed + 1
      && id in Reached(t, a) && id !in Outstanding(t, a)
  {
    var a := s.reservations[id].authorization;
    var s1 := ReleaseRead(s, w, id);
    var s2 := Consumed(s1, id);
    var s3 := ReleaseWrite(s2, w, result);
    var events := [BeginRelease(w, id), Consume(id), FinishRelease(w, result)];
    assert events[1..] == [Consume(id), FinishRelease(w, result)];
    assert events[1..][1..] == [FinishRelease(w, result)];
    assert events[1..][1..][1..] == [];
    assert Run(s2, events[1..][1..]) == s3;
  }

  /** An arm already reserved under an authorization is never reserved under it again. */
  lemma {:induction false} ArmReservedOnce(s: Store, events: seq<Event>, p: Plan, arm: nat, attempt: nat,
                                           id: ReservationId)
    requires Valid(s) && ArmTaken(s, p.authorization, arm)
    ensures ReserveError(Run(s, events), p, arm, id).Some?
    decreases |events|
  {
    if events != [] {
      StepKeepsValid(s, events[0]);
      ArmStaysTaken(s, events[0], p.authorization, arm);
      ArmReservedOnce(Step(s, events[0]), events[1..], p, arm, attempt, id);
    }
  }

  lemma ArmStaysTaken(s: Store, e: Event, a: AuthorizationId, arm: nat)
    requires ArmTaken(s, a, arm)
    ensures ArmTaken(Step(s, e), a, arm)
  {
    var r :| r in s.reservations && s.reservations[r].authorization == a && s.reservations[r].arm == arm;
    var t := Step(s, e);
    assert r in t.reservations && t.reservations[r].authorization == a && t.reservations[r].arm == arm;
  }

  // ---------- the worker's methods over shared tables ----------

  class Database {
    var authorizations: map<AuthorizationId, Authorization>
    var suites: map<SuiteId, nat>
    var reservations: map<ReservationId, Reservation>
    ghost var lookups: map<WorkerId, (ReservationId, bool)>

    ghost function Tables(): Store
      reads this
    {
      Store(authorizations, suites, reservations, this.lookups)
    }

    method ReserveInference(p: Plan, arm: nat, attempt: nat, id: ReservationId)
      returns (r: Result<ReservationId, Error>)
      modifies this
      ensures Tables() == Step(old(Tables()), Reserve(p, arm, attempt, id))
      ensures r == match ReserveError(old(Tables()), p, arm, id)
                   case Some(e) => Err(e)
                   case None => Ok(id)
    {
      if p.authorization !in authorizations {
        return Err(AuthorizationInvalid);
      }
      var current := authorizations[p.authorization];
      if current.revoked || current.completed || current.fingerprint != p.fingerprint {
        return Err(AuthorizationInvalid);
      }
      var outstanding := set x | x in reservations && reservations[x].authorization == p.authorization
                                 && !reservations[x].reached && !reservations[x].released;
      assert outstanding == Outstanding(Tables(), p.authorization);
      var cap := if p.maximum < current.maximum then p.maximum else current.maximum;
      if current.consumed + |outstanding| >= cap {
        return Err(CapExhausted);
      }
      if id in reservations
         || exists x :: x in reservations && reservations[x].authorization == p.authorization
                        && reservations[x].arm == arm {
        return Err(AlreadyReserved);
      }
      reservations := reservations[id := Reservation(p.authorization, p.suite, arm, attempt, false, false, None)];
      r := Ok(id);
    }

    method ConsumeInference(id: ReservationId) returns (r: Result<(), Error>)
      modifies this
      ensures Tables() == Step(old(Tables()), Consume(id))
      ensures r.Ok? <==> id in old(reservations) && !old(reservations)[id].released
    {
      if id !in reservations || reservations[id].released {
        return Err(ReservationUnavailable);
      }
      var row := reservations[id];
      if !row.reached {
        reservations := reservations[id := row.(reached := true)];
        if row.authorization in authorizations {
          var a := authorizations[row.authorization];
          authorizations := authorizations[row.authorization := a.(consumed := a.consumed + 1)];
        }
        if row.suite in suites {
          suites := suites[row.suite := suites[row.suite] + 1];
        }
      }
      r := Ok(());
    }

    /** The first half of a release: the row is looked up, and its reached flag remembered by the worker. */
    method ReadForRelease(ghost w: WorkerId, id: ReservationId) returns (seen: Option<bool>)
      modifies this
      ensures Tables() == Step(old(Tables()), BeginRelease(w, id))
      ensures seen == if id in reservations then Some(reservations[id].reached) else None
    {
      if id !in reservations {
        lookups := lookups - {w};
        return None;
      }
      lookups := lookups[w := (id, reservations[id].reached)];
      seen := Some(reservations[id].reached);
    }

    /** The second half, after any number of other workers' transactions. */
    method WriteRelease(ghost w: WorkerId, id: ReservationId, seen: bool, result: string)
      requires w in lookups && lookups[w] == (id, seen)
      modifies this
      ensures Tables() == Step(old(Tables()), FinishRelease(w, result))
    {
      lookups := lookups - {w};
      if id in reservations {
        if seen {
          reservations := reservations[id := reservations[id].(result := Some(result))];
          return;
        }
        reservations := reservations[id := reservations[id].(released := true, result := Some(result))];
      }
    }

    method RecoverAttempt(attempt: nat)
      modifies this
      ensures Tables() == Step(old(Tables()), Recover(attempt))
    {
      reservations := map r | r in reservations ::
        var row := reservations[r];
        if row.attempt == attempt && !row.reached && !row.released
        then row.(released := true, result := Some("worker_crash_before_inference")) else row;
    }
  }
}
