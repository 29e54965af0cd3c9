/** The execution of one arm, with a possible fault at every step that touches the database or the server, and
    with other workers' transactions before every step: the transitions it records, the outcome it returns or
    the exception it lets out, and what becomes of its inference reservation in the shared tables. */
module ArmExecution {
  import opened Outcomes
  import Collections
  import Reservations

  // ---------- arm states ----------

  datatype State =
    | Planned | Preflight | AuthPrepared | ServerStarted | ThreadReady | InferenceReserved | InferenceStarted
    | Completed | SchemaInvalid | SemanticInvalid | TimedOut | Aborted | Failed | Blocked | Stopped

  predicate Terminal(s: State) {
    s in {Completed, SchemaInvalid, SemanticInvalid, TimedOut, Aborted, Failed, Blocked, Stopped}
  }

  predicate ModelInvalid(s: State) {
    s == SchemaInvalid || s == SemanticInvalid
  }

  ghost predicate AllOpen(s: seq<State>) {
    forall i :: 0 <= i < |s| ==> !Terminal(s[i])
  }

  /** Exactly one terminal transition, and it is the last. */
  ghost predicate EndsOnce(s: seq<State>) {
    |s| > 0 && Terminal(s[|s| - 1]) && AllOpen(s[..|s| - 1])
  }

  /** What an execution has recorded when it is over. */
  datatype Execution = Returns(trail: seq<State>, outcome: State) | Raises(trail: seq<State>)

  /** An execution records a terminal transition just before it returns that outcome; one that raises may have
      recorded one already. It never blocks or aborts an arm. */
  ghost predicate ExecutionOk(e: Execution) {
    match e
    case Returns(trail, outcome) =>
      AllOpen(trail) && Terminal(outcome) && outcome != Blocked && outcome != Aborted
    case Raises(trail) => AllOpen(trail) || EndsOnce(trail)
  }

  // ---------- what the environment decides ----------

  /** A step works, or fails before or after it has taken effect. */
  datatype Fault = Works | FailsBefore | FailsAfter

  datatype Thread = Fresh | Resumed | Neither

  datatype TurnEnd = Answered | TurnTimeout | OperatorStop | TurnError

  /** The first objection to an answered turn, if any, and otherwise what its validation says. */
  datatype Verdict = UnsupportedRequest | Retried | UsageMissing | OverTokenCap | ToolCall
                   | BadSchema | BadSemantics | Valid

  /** Which events of the turn announce the start of inference, and how the turn ends. */
  datatype Inputs = Inputs(thread: Thread, groupActive: bool, contractMatched: bool, events: seq<bool>, end: TurnEnd,
                           verdict: Verdict, stateless: bool)

  /** The reservation's row: whether inference was reached, whether it was released, and what is written on it. */
  datatype Row = Flags(reached: bool, released: bool, result: Option<string>)

  /** Nothing is left outstanding. */
  predicate Settled(row: Option<Row>) {
    row.Some? ==> row.value.reached || row.value.released
  }

  /** Where an exception left the execution. */
  datatype Point = BeforeReservation | AtReservation(fault: Fault) | BeforeTurn | AtRelease(fault: Fault) | Later

  datatype Exit = Returned(outcome: State) | Raised(at: Point)

  function StatusOf(v: Verdict): State {
    match v
    case BadSchema => SchemaInvalid
    case BadSemantics => SemanticInvalid
    case Valid => Completed
    case _ => Failed
  }

  /** The arm's thread can be had: a fresh one where no group is active, a resumed one where one is. */
  predicate ThreadAvailable(inputs: Inputs) {
    match inputs.thread
    case Fresh => !inputs.groupActive
    case Resumed => inputs.groupActive
    case Neither => false
  }

  /** What is written on the reservation. */
  function ResultOf(v: Verdict): string {
    match v
    case UnsupportedRequest => "unsupported_server_request"
    case Retried => "retry_after_inference"
    case UsageMissing => "missing_usage"
    case OverTokenCap => "token_cap_exceeded"
    case ToolCall => "tool_call_attempt"
    case BadSchema => "schema_invalid"
    case BadSemantics => "semantic_invalid"
    case Valid => "completed"
  }

  // ---------- the steps, the tables and the other workers ----------

  /** Which steps fail, and which transactions of other workers come before each step. */
  datatype World = World(faults: nat -> Fault, others: (nat, Reservations.Store) -> seq<Reservations.Event>)

  /** What an arm reserves under: the plan, its own number, the worker's attempt and number, and the row's name. */
  datatype Booking = Booking(plan: Reservations.Plan, arm: nat, attempt: nat, id: Reservations.ReservationId,
                             worker: Reservations.WorkerId)

  function Around(w: World, s: Reservations.Store, k: nat): Reservations.Store {
    Reservations.Run(s, w.others(k, s))
  }

  /** The tables after the other workers' transactions before the first k steps. */
  function After(w: World, s: Reservations.Store, k: nat): Reservations.Store {
    if k == 0 then s else Around(w, After(w, s, k - 1), k - 1)
  }

  /** The rows of one attempt. */
  function Mine(s: Reservations.Store, attempt: nat): map<Reservations.ReservationId, Reservations.Reservation> {
    map r | r in s.reservations && s.reservations[r].attempt == attempt :: s.reservations[r]
  }

  /** Other workers neither change an attempt's rows nor make rows for it. */
  ghost predicate Considerate(w: World, attempt: nat) {
    forall k: nat, s: Reservations.Store :: Mine(Around(w, s, k), attempt) == Mine(s, attempt)
  }

  function RowIn(s: Reservations.Store, b: Booking): Option<Row> {
    var mine := Mine(s, b.attempt);
    if b.id in mine then Some(Flags(mine[b.id].reached, mine[b.id].released, mine[b.id].result)) else None
  }

  function Caps(s: Reservations.Store): map<Reservations.AuthorizationId, int> {
    map a | a in s.authorizations :: s.authorizations[a].maximum
  }

  /** The tables are valid, no maximum has moved, the attempt's other rows are as they were, and the arm's own row
      is under its authorization. */
  ghost predicate Sound(s: Reservations.Store, start: Reservations.Store, b: Booking) {
    && Reservations.Valid(s) && Caps(s) == Caps(start)
    && Mine(s, b.attempt) - {b.id} == Mine(start, b.attempt) - {b.id}
    && (RowIn(s, b).Some? ==> s.reservations[b.id].authorization == b.plan.authorization)
  }

  /** No other worker does anything. */
  ghost predicate Undisturbed(w: World) {
    forall k: nat, s: Reservations.Store :: w.others(k, s) == []
  }

  /** The authorizations are as they were but for their counters, and so are all rows but the arm's own. */
  ghost predicate OwnOnly(s: Reservations.Store, start: Reservations.Store, b: Booking) {
    && s.reservations - {b.id} == start.reservations - {b.id}
    && (b.id in s.reservations && b.id !in start.reservations ==> s.reservations[b.id].arm == b.arm)
    && s.authorizations.Keys == start.authorizations.Keys
    && (forall a :: a in s.authorizations ==>
          s.authorizations[a] == start.authorizations[a].(consumed := s.authorizations[a].consumed))
  }

  lemma OwnAtFirst(s: Reservations.Store, b: Booking)
    ensures OwnOnly(s, s, b)
  {
  }

  lemma OwnAround(w: World, s: Reservations.Store, k: nat, start: Reservations.Store, b: Booking)
    ensures Undisturbed(w) && OwnOnly(s, start, b) ==> OwnOnly(Around(w, s, k), start, b)
  {
    hide OwnOnly;
    if Undisturbed(w) {
      assert w.others(k, s) == [];
    }
  }

  lemma OwnReserve(s: Reservations.Store, start: Reservations.Store, b: Booking)
    requires OwnOnly(s, start, b)
    ensures OwnOnly(Reservations.Reserved(s, b.plan, b.arm, b.attempt, b.id), start, b)
  {
    hide Reservations.ReserveError;
    var t := Reservations.Reserved(s, b.plan, b.arm, b.attempt, b.id);
    assert t.reservations - {b.id} == s.reservations - {b.id};
  }

  lemma OwnConsume(s: Reservations.Store, start: Reservations.Store, b: Booking)
    requires OwnOnly(s, start, b)
    ensures OwnOnly(Reservations.Consumed(s, b.id), start, b)
  {
    var t := Reservations.Consumed(s, b.id);
    assert t.reservations - {b.id} == s.reservations - {b.id};
  }

  lemma OwnRelease(s: Reservations.Store, start: Reservations.Store, b: Booking, result: string)
    requires OwnOnly(s, start, b)
    ensures OwnOnly(Releasing(s, b, result), start, b)
  {
    var t := Releasing(s, b, result);
    assert t.reservations - {b.id} == s.reservations - {b.id};
  }

  predicate Admits(s: Reservations.Store, b: Booking) {
    Reservations.ReserveError(s, b.plan, b.arm, b.id) == None
  }

  lemma {:induction false} RunKeepsValid(s: Reservations.Store, events: seq<Reservations.Event>)
    requires Reservations.Valid(s)
    ensures Reservations.Valid(Reservations.Run(s, events)) && Caps(Reservations.Run(s, events)) == Caps(s)
    decreases |events|
  {
    hide Reservations.Valid, Reservations.Step;
    if events != [] {
      Reservations.StepKeepsValid(s, events[0]);
      RunKeepsValid(Reservations.Step(s, events[0]), events[1..]);
    }
  }

  lemma AroundSound(w: World, s: Reservations.Store, k: nat, start: Reservations.Store, b: Booking)
    requires Considerate(w, b.attempt) && Sound(s, start, b)
    ensures Sound(Around(w, s, k), start, b) && RowIn(Around(w, s, k), b) == RowIn(s, b)
  {
    RunKeepsValid(s, w.others(k, s));
    hide Reservations.Valid, Reservations.Run, Caps;
    assert Mine(Around(w, s, k), b.attempt) == Mine(s, b.attempt);
    assert RowIn(s, b).Some? ==> Mine(s, b.attempt)[b.id] == Mine(Around(w, s, k), b.attempt)[b.id];
  }

  lemma StepSound(s: Reservations.Store, e: Reservations.Event)
    requires Reservations.Valid(s)
    ensures Reservations.Valid(Reservations.Step(s, e)) && Caps(Reservations.Step(s, e)) == Caps(s)
  {
    hide Reservations.Valid, Reservations.Step;
    Reservations.StepKeepsValid(s, e);
  }

  /** The arm's own row written, and nothing else of the attempt's. */
  lemma RowWritten(s: Reservations.Store, t: Reservations.Store, start: Reservations.Store, b: Booking,
                   row: Reservations.Reservation)
    requires Sound(s, start, b) && Reservations.Valid(t) && Caps(t) == Caps(s)
    requires t.reservations == s.reservations[b.id := row]
    requires row.attempt == b.attempt && row.authorization == b.plan.authorization
    ensures Sound(t, start, b) && RowIn(t, b) == Some(Flags(row.reached, row.released, row.result))
  {
    hide Reservations.Valid, Caps;
    assert Mine(t, b.attempt) - {b.id} == Mine(s, b.attempt) - {b.id};
  }

  lemma ReserveSound(s: Reservations.Store, start: Reservations.Store, b: Booking)
    requires Sound(s, start, b) && RowIn(s, b) == None
    ensures var t := Reservations.Reserved(s, b.plan, b.arm, b.attempt, b.id);
      Sound(t, start, b) && RowIn(t, b) == if Admits(s, b) then Some(Flags(false, false, None)) else None
  {
    StepSound(s, Reservations.Reserve(b.plan, b.arm, b.attempt, b.id));
    hide Reservations.Valid, Reservations.ReserveError, Mine, RowIn, Caps;
    if Admits(s, b) {
      hide Sound;
      RowWritten(s, Reservations.Reserved(s, b.plan, b.arm, b.attempt, b.id), start, b,
                 Reservations.Reservation(b.plan.authorization, b.plan.suite, b.arm, b.attempt, false, false, None));
    }
  }

  lemma RowThere(s: Reservations.Store, start: Reservations.Store, b: Booking)
    requires Sound(s, start, b) && RowIn(s, b).Some?
    ensures b.id in s.reservations && s.reservations[b.id].attempt == b.attempt && Reservations.Valid(s)
    ensures s.reservations[b.id].authorization == b.plan.authorization
    ensures var row := s.reservations[b.id]; RowIn(s, b) == Some(Flags(row.reached, row.released, row.result))
  {
    hide Reservations.Valid, Caps;
  }

  lemma ConsumeSound(s: Reservations.Store, start: Reservations.Store, b: Booking)
    requires Sound(s, start, b) && RowIn(s, b).Some? && !RowIn(s, b).value.released
    ensures var t := Reservations.Consumed(s, b.id);
      Sound(t, start, b) && RowIn(t, b) == Some(RowIn(s, b).value.(reached := true))
  {
    hide Reservations.Valid, Mine, RowIn, Caps, Sound;
    RowThere(s, start, b);
    StepSound(s, Reservations.Consume(b.id));
    if !s.reservations[b.id].reached {
      RowWritten(s, Reservations.Consumed(s, b.id), start, b, s.reservations[b.id].(reached := true));
    }
  }

  /** A release, its read and its write. */
  function Releasing(s: Reservations.Store, b: Booking, result: string): Reservations.Store {
    Reservations.ReleaseWrite(Reservations.ReleaseRead(s, b.worker, b.id), b.worker, result)
  }

  /** A row after its release: what is written on it always, the release itself only when nothing was reached. */
  function Written(row: Row, result: string): Row {
    if row.reached then row.(result := Some(result)) else row.(released := true, result := Some(result))
  }

  lemma ReleaseSound(s: Reservations.Store, start: Reservations.Store, b: Booking, result: string)
    requires Sound(s, start, b) && RowIn(s, b).Some?
    ensures var t := Releasing(s, b, result);
      Sound(t, start, b) && RowIn(t, b) == Some(Written(RowIn(s, b).value, result))
  {
    hide Reservations.Valid, Mine, RowIn, Caps, Sound;
    RowThere(s, start, b);
    StepSound(s, Reservations.BeginRelease(b.worker, b.id));
    StepSound(Reservations.ReleaseRead(s, b.worker, b.id), Reservations.FinishRelease(b.worker, result));
    var row := s.reservations[b.id];
    RowWritten(s, Releasing(s, b, result), start, b,
               if row.reached then row.(result := Some(result)) else row.(released := true, result := Some(result)));
  }

  // ---------- what an execution comes to, as a function of its faults ----------

  predicate AllWork(faults: nat -> Fault, from: nat, count: nat) {
    forall k: nat | from <= k < from + count :: faults(k) == Works
  }

  /** The number of the step that reserves. */
  function ReserveStep(inputs: Inputs): nat {
    if inputs.thread == Resumed then 7 else 6
  }

  /** A turn when it is over: how it ended, the next step's number, whether the worker knows inference was
      reached, and whether the row says so. */
  datatype Played = Played(end: TurnEnd, step: nat, reached: bool, consumed: bool)

  /** One event of a turn at step t. */
  datatype Heard = Heard(ok: bool, step: nat, reached: bool, consumed: bool)

  function Hear(faults: nat -> Fault, announces: bool, t: nat, reached: bool): Heard {
    if announces && !reached then
      if faults(t) != Works then Heard(false, t + 1, false, faults(t) == FailsAfter)
      else if faults(t + 1) != Works then Heard(false, t + 2, true, true)
      else Heard(faults(t + 2) == Works, t + 3, true, true)
    else Heard(faults(t) == Works, t + 1, reached, reached)
  }

  /** The turn from step t on: the first fault ends it in error. */
  function Play(faults: nat -> Fault, events: seq<bool>, end: TurnEnd, t: nat, reached: bool): Played
    decreases |events|
  {
    if events == [] then
      if end == Answered then Played(if faults(t) == Works then Answered else TurnError, t + 1, reached, reached)
      else Played(end, t, reached, reached)
    else
      var h := Hear(faults, events[0], t, reached);
      if h.ok then Play(faults, events[1..], end, h.step, h.reached)
      else Played(TurnError, h.step, h.reached, h.consumed)
  }

  function TurnOf(faults: nat -> Fault, inputs: Inputs): Played {
    Play(faults, inputs.events, inputs.end, ReserveStep(inputs) + 4, false)
  }

  /** The arm gets as far as its turn. */
  predicate ReachesTurn(faults: nat -> Fault, inputs: Inputs, admitted: bool) {
    ThreadAvailable(inputs) && inputs.contractMatched && admitted && AllWork(faults, 0, ReserveStep(inputs) + 4)
  }

  /** Exactly which faults leave the reservation outstanding: the reserving step fails after its commit, one of the
      three steps before the turn fails, or a turn that has consumed nothing is followed by a release that fails
      before its own commit. */
  predicate Stranded(faults: nat -> Fault, inputs: Inputs, admitted: bool) {
    var r := ReserveStep(inputs);
    && ThreadAvailable(inputs) && inputs.contractMatched && admitted && AllWork(faults, 0, r)
    && (|| faults(r) == FailsAfter
        || (faults(r) == Works && !AllWork(faults, r + 1, 3))
        || (AllWork(faults, r, 4) && !TurnOf(faults, inputs).consumed
            && faults(TurnOf(faults, inputs).step) == FailsBefore))
  }

  /** The close of a turn at step s: a release first unless inference was reached, then the steps that record
      the outcome. */
  function CloseOf(faults: nat -> Fault, outcome: State, s: nat, reached: bool, steps: nat): Exit {
    if !reached && faults(s) != Works then Raised(AtRelease(faults(s)))
    else if AllWork(faults, if reached then s else s + 1, steps) then Returned(outcome) else Raised(Later)
  }

  /** The steps that record an answered turn. */
  function JudgeSteps(inputs: Inputs): nat {
    if StatusOf(inputs.verdict) == Failed then 3 else if inputs.stateless then 5 else 4
  }

  function AfterTurn(faults: nat -> Fault, inputs: Inputs, p: Played): Exit {
    match p.end
    case Answered =>
      if p.reached then CloseOf(faults, StatusOf(inputs.verdict), p.step, true, JudgeSteps(inputs))
      else CloseOf(faults, Failed, p.step, false, 1)
    case TurnTimeout => CloseOf(faults, TimedOut, p.step, p.reached, 4)
    case OperatorStop => CloseOf(faults, Stopped, p.step, p.reached, 4)
    case TurnError => CloseOf(faults, Failed, p.step, p.reached, 4)
  }

  /** The exit before the turn, if there is one. */
  function PrepareExit(faults: nat -> Fault, inputs: Inputs, admitted: bool): Option<Exit> {
    var r := ReserveStep(inputs);
    if !ThreadAvailable(inputs) || !AllWork(faults, 0, r - 2) then Some(Raised(BeforeReservation))
    else if !inputs.contractMatched then
      Some(if faults(r - 2) == Works then Returned(Failed) else Raised(BeforeReservation))
    else match BookExit(faults, r - 2, admitted)
      case None => None
      case Some(point) => Some(Raised(point))
  }

  function BookExit(faults: nat -> Fault, s: nat, admitted: bool): Option<Point> {
    if !AllWork(faults, s, 2) then Some(BeforeReservation)
    else if !admitted then Some(AtReservation(FailsBefore))
    else if faults(s + 2) != Works then Some(AtReservation(faults(s + 2)))
    else if !AllWork(faults, s + 3, 3) then Some(BeforeTurn)
    else None
  }

  /** How an execution ends. */
  function ExitOf(faults: nat -> Fault, inputs: Inputs, admitted: bool): Exit {
    match PrepareExit(faults, inputs, admitted)
    case Some(exit) => exit
    case None => AfterTurn(faults, inputs, TurnOf(faults, inputs))
  }

  /** How an execution ends in which no step fails. */
  function CalmExit(inputs: Inputs): Exit {
    if !ThreadAvailable(inputs) then Raised(BeforeReservation)
    else if !inputs.contractMatched then Returned(Failed)
    else CalmClose(inputs)
  }

  function CalmClose(inputs: Inputs): Exit {
    match inputs.end
    case Answered => Returned(if true in inputs.events then StatusOf(inputs.verdict) else Failed)
    case TurnTimeout => Returned(TimedOut)
    case OperatorStop => Returned(Stopped)
    case TurnError => Returned(Failed)
  }

  /** The transitions it records. */
  function CalmTrail(inputs: Inputs): seq<State> {
    [Preflight]
    + (if ThreadAvailable(inputs) && inputs.contractMatched then [ThreadReady, InferenceReserved] + Begun(inputs.events)
       else [])
    + if CalmExit(inputs).Returned? then [CalmExit(inputs).outcome] else []
  }

  function Begun(events: seq<bool>): seq<State> {
    if true in events then [InferenceStarted] else []
  }

  /** Which outcome belongs to a turn, by how it ended, whether inference was reached, and the verdict on its
      answer. */
  predicate Accounted(outcome: State, verdict: Verdict, end: TurnEnd, reached: bool) {
    var heard := end == Answered && reached;
    && (outcome == Completed <==> heard && verdict == Valid)
    && (outcome == SchemaInvalid <==> heard && verdict == BadSchema)
    && (outcome == SemanticInvalid <==> heard && verdict == BadSemantics)
    && (outcome == TimedOut <==> end == TurnTimeout)
    && (outcome == Stopped <==> end == OperatorStop)
    && (outcome == Failed <==>
          || end == TurnError
          || (end == Answered && !reached)
          || (heard && verdict in {UnsupportedRequest, Retried, UsageMissing, OverTokenCap, ToolCall}))
  }

  /** What is then written on the reservation. */
  predicate Noted(result: Option<string>, verdict: Verdict, end: TurnEnd, reached: bool) {
    var heard := end == Answered && reached;
    && (end == TurnTimeout ==> result == Some("timed_out"))
    && (end == OperatorStop ==> result == Some("stopped"))
    && (end == TurnError ==> result == Some("failed"))
    && (end == Answered && !reached ==> result == Some("no_inference_event"))
    && (heard && verdict == UnsupportedRequest ==> result == Some("unsupported_server_request"))
    && (heard && verdict == Retried ==> result == Some("retry_after_inference"))
    && (heard && verdict == UsageMissing ==> result == Some("missing_usage"))
    && (heard && verdict == OverTokenCap ==> result == Some("token_cap_exceeded"))
    && (heard && verdict == ToolCall ==> result == Some("tool_call_attempt"))
    && (heard && verdict == BadSchema ==> result == Some("schema_invalid"))
    && (heard && verdict == BadSemantics ==> result == Some("semantic_invalid"))
    && (heard && verdict == Valid ==> result == Some("completed"))
  }

  lemma JudgedVerdict(verdict: Verdict)
    ensures Accounted(StatusOf(verdict), verdict, Answered, true)
    ensures Noted(Some(ResultOf(verdict)), verdict, Answered, true)
    ensures Accounted(Failed, verdict, Answered, false)
    ensures Noted(Some("no_inference_event"), verdict, Answered, false)
  {
  }

  lemma InterruptedTurn(verdict: Verdict, reached: bool)
    ensures Accounted(TimedOut, verdict, TurnTimeout, reached)
    ensures Noted(Some("timed_out"), verdict, TurnTimeout, reached)
    ensures Accounted(Stopped, verdict, OperatorStop, reached)
    ensures Noted(Some("stopped"), verdict, OperatorStop, reached)
    ensures Accounted(Failed, verdict, TurnError, reached)
    ensures Noted(Some("failed"), verdict, TurnError, reached)
  {
  }

  lemma ValidAnswersWereHeard(outcome: State, verdict: Verdict, end: TurnEnd, reached: bool)
    requires Accounted(outcome, verdict, end, reached) && (outcome == Completed || ModelInvalid(outcome))
    ensures reached
  {
  }

  lemma BegunNext(events: seq<bool>, k: nat)
    requires k < |events|
    ensures true in events[..k + 1] <==> true in events[..k] || events[k]
  {
    assert events[..k + 1] == events[..k] + [events[k]];
  }

  /** The points whose faults leave the reservation outstanding. */
  predicate Leaves(at: Point, row: Option<Row>) {
    || at == BeforeTurn
    || at == AtReservation(FailsAfter)
    || (at == AtRelease(FailsBefore) && row.Some? && !row.value.reached)
  }

  /** What holds of every exit. */
  ghost predicate Ends(exit: Exit, trail: seq<State>, row: Option<Row>) {
    && ExecutionOk(Recorded(exit, trail))
    && (exit.Returned? ==> trail != [] && trail[|trail| - 1] == exit.outcome)
    && (!Settled(row) <==> exit.Raised? && Leaves(exit.at, row))
  }

  /** The execution in the terms of the loop over arms. */
  function Recorded(exit: Exit, trail: seq<State>): Execution {
    match exit
    case Returned(outcome) => Returns(if trail == [] then [] else trail[..|trail| - 1], outcome)
    case Raised(_) => Raises(trail)
  }

  lemma RaisedEnds(at: Point, before: seq<State>, trail: seq<State>, outcome: State, row: Option<Row>)
    requires AllOpen(before) && (trail == before || trail == before + [outcome]) && Terminal(outcome)
    requires !Settled(row) <==> Leaves(at, row)
    ensures Ends(Raised(at), trail, row)
  {
    assert trail != before ==> trail[..|trail| - 1] == before;
  }

  lemma ReturnedEnds(before: seq<State>, outcome: State, row: Option<Row>)
    requires AllOpen(before) && Terminal(outcome) && outcome != Blocked && outcome != Aborted && Settled(row)
    ensures Ends(Returned(outcome), before + [outcome], row)
  {
    assert (before + [outcome])[..|before|] == before;
  }

  lemma EndsMeans(exit: Exit, trail: seq<State>, row: Option<Row>)
    requires Ends(exit, trail, row)
    ensures !Settled(row) <==> exit.Raised? && Leaves(exit.at, row)
  {
  }

  lemma HearReaches(faults: nat -> Fault, announces: bool, t: nat, reached: bool)
    ensures var h := Hear(faults, announces, t, reached);
      && (h.ok ==> h.reached == h.consumed == (reached || announces))
      && ((forall k: nat :: faults(k) == Works) ==> h.ok)
  {
  }

  lemma CalmPrepares(faults: nat -> Fault, inputs: Inputs, admitted: bool)
    ensures (forall k: nat :: faults(k) == Works) ==> var exit := PrepareExit(faults, inputs, admitted);
      && (!ThreadAvailable(inputs) || !inputs.contractMatched ==> exit == Some(CalmExit(inputs)))
      && (ThreadAvailable(inputs) && inputs.contractMatched && admitted ==> exit == None)
      && (!ThreadAvailable(inputs) ==> CalmTrail(inputs) == [Preflight])
      && (ThreadAvailable(inputs) && !inputs.contractMatched ==> CalmTrail(inputs) == [Preflight, Failed])
      && (ThreadAvailable(inputs) ==> AllWork(faults, 0, ReserveStep(inputs) - 2))
  {
  }

  /** An exit before the turn, in terms of the faults that strand a reservation. */
  lemma EarlyStranded(faults: nat -> Fault, inputs: Inputs, admitted: bool)
    ensures var exit := PrepareExit(faults, inputs, admitted);
      && (exit.None? <==> ReachesTurn(faults, inputs, admitted))
      && (exit.None? ==> ThreadAvailable(inputs) && inputs.contractMatched)
      && (exit.None? ==> (Stranded(faults, inputs, admitted) <==>
            !TurnOf(faults, inputs).consumed && faults(TurnOf(faults, inputs).step) == FailsBefore))
      && (exit.Some? ==> (Stranded(faults, inputs, admitted) <==>
            exit.value.Raised? && exit.value.at in {BeforeTurn, AtReservation(FailsAfter)}))
      && (exit.Some? && exit.value.Raised? ==> !exit.value.at.AtRelease?)
      && (exit.Some? && exit.value.Returned? ==> ThreadAvailable(inputs))
  {
  }

  class Run {
    const world: World
    const booking: Booking
    const start: Reservations.Store
    var step: nat
    var trail: seq<State>
    var db: Reservations.Store
    var reached: bool
    var starts: nat

    constructor (world: World, booking: Booking, db: Reservations.Store)
      requires Considerate(world, booking.attempt) && Reservations.Valid(db) && RowIn(db, booking) == None
      ensures Unstarted() && this.world == world && this.booking == booking && start == db
    {
      OwnAtFirst(db, booking);
      this.world, this.booking, this.start, this.db := world, booking, db, db;
      step, trail, reached, starts := 0, [], false, 0;
    }

    function Row(): Option<Row>
      reads this
    {
      RowIn(db, booking)
    }

    /** The tables are sound, the worker's own flag follows the row, nothing is written on an outstanding row, and
        the worker has counted one start exactly when the flag is set. */
    ghost predicate Consistent()
      reads this
    {
      && Considerate(world, booking.attempt) && Sound(db, start, booking)
      && (Undisturbed(world) ==> OwnOnly(db, start, booking))
      && (reached ==> Row().Some? && Row().value.reached)
      && (Settled(Row()) || Row() == Some(Flags(false, false, None)))
      && starts == (if reached then 1 else 0)
    }

    /** Nothing has been reserved yet: the tables are as the other workers leave them. */
    ghost predicate Waiting()
      reads this
    {
      Consistent() && Row() == None && !reached && db == After(world, start, step)
    }

    ghost predicate Unstarted()
      reads this
    {
      Waiting() && step == 0 && trail == []
    }

    /** Whether the tables let the arm reserve when it comes to that. */
    ghost predicate Admitted(inputs: Inputs) {
      Admits(After(world, start, ReserveStep(inputs) + 1), booking)
    }

    ghost predicate Calm() {
      forall k: nat :: world.faults(k) == Works
    }

    /** The other workers' transactions, and then the step's fate. */
    method Next() returns (f: Fault)
      requires Consistent()
      modifies this`step, this`db
      ensures Consistent() && Row() == old(Row())
      ensures db == Around(world, old(db), old(step))
      ensures step == old(step) + 1 && f == world.faults(old(step))
      ensures old(Waiting()) ==> Waiting()
    {
      AroundSound(world, db, step, start, booking);
      OwnAround(world, db, step, start, booking);
      hide Considerate, Undisturbed, OwnOnly, Sound, RowIn, Around;
      f := world.faults(step);
      db := Around(world, db, step);
      step := step + 1;
    }

    /** A step that changes neither the journal nor the reservation. */
    method Other() returns (ok: bool)
      requires Consistent()
      modifies this`step, this`db
      ensures Consistent() && Row() == old(Row())
      ensures step == old(step) + 1 && (ok <==> world.faults(old(step)) == Works)
      ensures old(Waiting()) ==> Waiting()
    {
      var f := Next();
      ok := f == Works;
    }

    method Transition(s: State) returns (ok: bool)
      requires Consistent()
      modifies this`step, this`db, this`trail
      ensures Consistent() && Row() == old(Row())
      ensures step == old(step) + 1 && (ok <==> world.faults(old(step)) == Works)
      ensures trail == old(trail) + if world.faults(old(step)) == FailsBefore then [] else [s]
      ensures old(Waiting()) ==> Waiting()
    {
      var f := Next();
      if f != FailsBefore {
        trail := trail + [s];
      }
      ok := f == Works;
    }

    /** Reserves, unless the step fails first or the tables refuse. */
    method Reserve() returns (f: Fault)
      requires Waiting()
      modifies this`step, this`db
      ensures Consistent() && step == old(step) + 1
      ensures f == if Admits(After(world, start, step), booking) then world.faults(old(step)) else FailsBefore
      ensures Row() == if f == FailsBefore then None else Some(Flags(false, false, None))
    {
      hide Considerate, Undisturbed, OwnOnly, Sound, RowIn, Around;
      f := Next();
      ReserveSound(db, start, booking);
      if Undisturbed(world) {
        OwnReserve(db, start, booking);
      }
      if f != FailsBefore {
        if !Admits(db, booking) {
          return FailsBefore;
        }
        db := Reservations.Reserved(db, booking.plan, booking.arm, booking.attempt, booking.id);
      } else if !Admits(db, booking) {
        return;
      }
    }

    /** Marks the row as having reached inference; a released row is refused. */
    method Consume() returns (ok: bool)
      requires Consistent() && Row().Some?
      modifies this`step, this`db
      ensures Consistent() && step == old(step) + 1
      ensures ok <==> world.faults(old(step)) == Works && !old(Row()).value.released
      ensures Row() == if world.faults(old(step)) == FailsBefore || old(Row()).value.released then old(Row())
                       else Some(old(Row()).value.(reached := true))
    {
      hide Considerate, Undisturbed, OwnOnly, Sound, Around;
      var f := Next();
      if f == FailsBefore || db.reservations[booking.id].released {
        return false;
      }
      ConsumeSound(db, start, booking);
      if Undisturbed(world) {
        OwnConsume(db, start, booking);
      }
      db := Reservations.Consumed(db, booking.id);
      ok := f == Works;
    }

    /** Writes the result on the row, and releases it unless inference was reached. */
    method Release(result: string) returns (f: Fault)
      requires Consistent() && Row().Some?
      modifies this`step, this`db
      ensures Consistent() && step == old(step) + 1 && f == world.faults(old(step))
      ensures Row() == if f == FailsBefore then old(Row()) else Some(Written(old(Row()).value, result))
    {
      hide Considerate, Undisturbed, OwnOnly, Sound, RowIn, Around;
      f := Next();
      if f != FailsBefore {
        ReleaseSound(db, start, booking, result);
        if Undisturbed(world) {
          OwnRelease(db, start, booking, result);
        }
        db := Releasing(db, booking, result);
      }
    }

    /** Starts or resumes the thread the arm runs in; an arm whose group is in the wrong state, or that says
        neither, is refused. */
    method PrepareThread(inputs: Inputs) returns (ok: bool)
      requires Waiting()
      modifies this`step, this`db
      ensures Waiting()
      ensures ok <==> ThreadAvailable(inputs)
                      && AllWork(world.faults, old(step), if inputs.thread == Resumed then 2 else 1)
      ensures ok ==> step == old(step) + if inputs.thread == Resumed then 2 else 1
    {
      hide Considerate, Undisturbed, OwnOnly, Sound, RowIn, After;
      match inputs.thread {
        case Fresh =>
          if inputs.groupActive {
            return false;
          }
          ok := Other();
        case Resumed =>
          if !inputs.groupActive {
            return false;
          }
          ok := Other();
          if ok {
            ok := Other();
          }
        case Neither => ok := false;
      }
    }

    /** Inside the turn: the row is reserved and not released, and the worker knows whether it was reached. */
    ghost predicate InTurn()
      reads this
    {
      Consistent() && AllOpen(trail) && Row() == Some(Flags(reached, false, None))
    }

    /** After the turn's last event the worker may not know that the row was reached. */
    ghost predicate Turned()
      reads this
    {
      Consistent() && AllOpen(trail) && Row().Some? && !Row().value.released && Row().value.result == None
    }

    /** One event of the turn: the first one that announces inference consumes the reservation. */
    method OnEvent(announces: bool) returns (ok: bool)
      requires InTurn()
      modifies this
      ensures Turned() && (ok ==> InTurn())
      ensures Heard(ok, step, reached, Row().value.reached) == Hear(world.faults, announces, old(step), old(reached))
      ensures ok ==> trail == old(trail) + if announces && !old(reached) then [InferenceStarted] else []
    {
      hide Considerate, Undisturbed, OwnOnly, Sound, RowIn, After;
      if announces && !reached {
        ok := Consume();
        if !ok {
          return;
        }
        starts := starts + 1;
        reached := true;
        ok := Transition(InferenceStarted);
        if !ok {
          return;
        }
      }
      ok := Other();
    }

    /** The turn inside the try block: its events, and how it ends. */
    method Turn(inputs: Inputs) returns (end: TurnEnd)
      requires InTurn() && !reached
      modifies this
      ensures Turned() && (end == Answered ==> InTurn())
      ensures Played(end, step, reached, Row().value.reached)
           == Play(world.faults, inputs.events, inputs.end, old(step), false)
      ensures end == inputs.end || end == TurnError
      ensures Calm() ==>
                end == inputs.end && reached == (true in inputs.events) && trail == old(trail) + Begun(inputs.events)
    {
      hide Considerate, Undisturbed, OwnOnly, Sound, RowIn, After, Hear, AllOpen;
      var k := 0;
      assert inputs.events[0..] == inputs.events;
      while k < |inputs.events|
        invariant 0 <= k <= |inputs.events| && InTurn()
        invariant Play(world.faults, inputs.events, inputs.end, old(step), false)
               == Play(world.faults, inputs.events[k..], inputs.end, step, reached)
        invariant reached == (true in inputs.events[..k]) && trail == old(trail) + Begun(inputs.events[..k])
      {
        BegunNext(inputs.events, k);
        assert inputs.events[k..][0] == inputs.events[k] && inputs.events[k..][1..] == inputs.events[k + 1..];
        HearReaches(world.faults, inputs.events[k], step, reached);
        var ok := OnEvent(inputs.events[k]);
        if !ok {
          return TurnError;
        }
        k := k + 1;
      }
      assert inputs.events[..k] == inputs.events && inputs.events[k..] == [];
      if inputs.end != Answered {
        return inputs.end;
      }
      var ok := Other();
      end := if ok then Answered else TurnError;
    }

    /** Finishes the turn's record, writes the reservation's result, and records the outcome. */
    method Conclude(outcome: State, result: string) returns (ok: bool)
      requires Consistent() && Row().Some? && Settled(Row())
      modifies this`step, this`db, this`trail
      ensures Consistent() && Row().Some? && Settled(Row()) && Row().value.reached == old(Row()).value.reached
      ensures trail == old(trail) || trail == old(trail) + [outcome]
      ensures ok ==> trail == old(trail) + [outcome] && step == old(step) + 3
      ensures ok ==> Row().value.result == Some(result)
      ensures ok <==> AllWork(world.faults, old(step), 3)
    {
      hide Considerate, Undisturbed, OwnOnly, Sound, RowIn, After;
      ok := Other();
      if !ok {
        return;
      }
      var f := Release(result);
      if f != Works {
        return false;
      }
      ok := Transition(outcome);
    }

    /** The checks before the runtime contract is known to match. */
    method Open(inputs: Inputs) returns (ok: bool)
      requires Unstarted()
      modifies this`step, this`db, this`trail
      ensures Waiting() && AllOpen(trail)
      ensures ok <==> ThreadAvailable(inputs) && AllWork(world.faults, 0, ReserveStep(inputs) - 2)
      ensures ok ==> step == ReserveStep(inputs) - 2
      ensures ok || Calm() ==> trail == [Preflight]
    {
      hide Considerate, Undisturbed, OwnOnly, Sound, RowIn, After, Consistent;
      ok := Transition(Preflight);
      if ok {
        ok := Other();
      }
      if ok {
        ok := PrepareThread(inputs);
      }
      if ok {
        ok := Other();
      }
    }

    /** The reservation and the turn's record. */
    method Book(inputs: Inputs) returns (left: Option<Point>)
      requires Waiting() && AllOpen(trail) && step == ReserveStep(inputs) - 2
      modifies this`step, this`db, this`trail
      ensures left == BookExit(world.faults, old(step), Admitted(inputs))
      ensures Consistent() && AllOpen(trail)
      ensures left.None? ==> Row() == Some(Flags(false, false, None)) && step == ReserveStep(inputs) + 4
      ensures left.None? ==> trail == old(trail) + [ThreadReady, InferenceReserved]
      ensures left.Some? ==> (!Settled(Row()) <==> Leaves(left.value, Row()))
    {
      hide Considerate, Undisturbed, OwnOnly, Sound, RowIn, After, Admits;
      var ok := Transition(ThreadReady);
      if ok {
        ok := Other();
      }
      if !ok {
        return Some(BeforeReservation);
      }
      var f := Reserve();
      if f != Works {
        return Some(AtReservation(f));
      }
      ok := Transition(InferenceReserved);
      if ok {
        ok := Other();
      }
      if ok {
        ok := Other();
      }
      left := if ok then None else Some(BeforeTurn);
    }

    /** Everything up to the turn. */
    method Prepare(inputs: Inputs) returns (exit: Option<Exit>)
      requires Unstarted()
      modifies this`step, this`db, this`trail
      ensures Consistent() && exit == PrepareExit(world.faults, inputs, Admitted(inputs))
      ensures exit.None? ==> InTurn() && step == ReserveStep(inputs) + 4
      ensures exit.None? ==> trail == [Preflight, ThreadReady, InferenceReserved]
      ensures exit.Some? ==> Ends(exit.value, trail, Row())
      ensures exit.Some? && exit.value.Returned? ==>
                exit.value.outcome == Failed && Row() == None && !inputs.contractMatched
      ensures Calm() && exit.Some? && (Admitted(inputs) || !ThreadAvailable(inputs) || !inputs.contractMatched) ==>
                exit.value == CalmExit(inputs) && trail == CalmTrail(inputs)
    {
      hide Considerate, Undisturbed, OwnOnly, Sound, RowIn, After, BookExit, Admits, AllOpen, Ends, AllWork,
           ThreadAvailable, CalmExit, CalmTrail;
      CalmPrepares(world.faults, inputs, Admitted(inputs));
      var ok := Open(inputs);
      if !ok {
        RaisedEnds(BeforeReservation, trail, trail, Failed, Row());
        return Some(Raised(BeforeReservation));
      }
      if !inputs.contractMatched {
        ok := Transition(Failed);
        RaisedEnds(BeforeReservation, [Preflight], trail, Failed, Row());
        ReturnedEnds([Preflight], Failed, Row());
        return Some(if ok then Returned(Failed) else Raised(BeforeReservation));
      }
      var left := Book(inputs);
      if left.None? {
        return None;
      }
      RaisedEnds(left.value, trail, trail, Failed, Row());
      exit := Some(Raised(left.value));
    }

    /** The handlers of a turn that did not come back: an unreached reservation is released, the turn closed,
        the outcome recorded, and the thread's group closed. */
    method Interrupted(outcome: State, early: string, result: string) returns (exit: Exit)
      requires Turned() && outcome in {TimedOut, Stopped, Failed}
      modifies this`step, this`db, this`trail
      ensures Consistent() && Ends(exit, trail, Row())
      ensures exit == CloseOf(world.faults, outcome, old(step), reached, 4)
      ensures !Settled(Row()) <==> !old(Row()).value.reached && world.faults(old(step)) == FailsBefore
      ensures Row().Some? && Row().value.reached == old(Row()).value.reached
      ensures exit.Returned? ==> exit.outcome == outcome && trail == old(trail) + [outcome]
      ensures exit.Returned? ==> Row().value.result == Some(result)
    {
      hide Considerate, Undisturbed, OwnOnly, Sound, RowIn, After, AllOpen, Ends, EndsOnce;
      ghost var before := trail;
      if !reached {
        var f := Release(early);
        if f != Works {
          RaisedEnds(AtRelease(f), before, before, outcome, Row());
          return Raised(AtRelease(f));
        }
      }
      var ok := Conclude(outcome, result);
      if ok {
        ok := Other();
      }
      RaisedEnds(Later, before, trail, outcome, Row());
      ReturnedEnds(before, outcome, Row());
      exit := if ok then Returned(outcome) else Raised(Later);
    }

    /** A turn that was answered without an inference event. */
    method NoInference() returns (exit: Exit)
      requires InTurn() && !reached
      modifies this`step, this`db, this`trail
      ensures Consistent() && Ends(exit, trail, Row())
      ensures exit == CloseOf(world.faults, Failed, old(step), false, 1)
      ensures !Settled(Row()) <==> world.faults(old(step)) == FailsBefore
      ensures Row().Some? && !Row().value.reached
      ensures exit.Returned? ==> exit.outcome == Failed && trail == old(trail) + [Failed]
      ensures exit.Returned? ==> Row().value.result == Some("no_inference_event")
    {
      hide Considerate, Undisturbed, OwnOnly, Sound, RowIn, After, AllOpen, Ends, EndsOnce;
      ghost var before := trail;
      var f := Release("no_inference_event");
      if f != Works {
        RaisedEnds(AtRelease(f), before, before, Failed, Row());
        return Raised(AtRelease(f));
      }
      var recorded := Transition(Failed);
      RaisedEnds(Later, before, trail, Failed, Row());
      ReturnedEnds(before, Failed, Row());
      exit := if recorded then Returned(Failed) else Raised(Later);
    }

    /** The verdict on a turn that was answered after inference was reached. */
    method Heed(inputs: Inputs) returns (exit: Exit)
      requires InTurn() && reached
      modifies this`step, this`db, this`trail
      ensures Consistent() && Ends(exit, trail, Row())
      ensures exit == CloseOf(world.faults, StatusOf(inputs.verdict), old(step), true, JudgeSteps(inputs))
      ensures Settled(Row()) && Row().Some? && Row().value.reached
      ensures exit.Returned? ==> exit.outcome == StatusOf(inputs.verdict) && trail == old(trail) + [exit.outcome]
      ensures exit.Returned? ==> Row().value.result == Some(ResultOf(inputs.verdict))
    {
      hide Considerate, Undisturbed, OwnOnly, Sound, RowIn, After, AllOpen, Ends, EndsOnce, ResultOf;
      ghost var before := trail;
      var outcome := StatusOf(inputs.verdict);
      var ok := Conclude(outcome, ResultOf(inputs.verdict));
      if ok && outcome != Failed {
        ok := Other();
        if ok && inputs.stateless {
          ok := Other();
        }
      }
      RaisedEnds(Later, before, trail, outcome, Row());
      ReturnedEnds(before, outcome, Row());
      exit := if ok then Returned(outcome) else Raised(Later);
    }

    /** The end of an answered turn. */
    method Judge(inputs: Inputs) returns (exit: Exit)
      requires InTurn()
      modifies this`step, this`db, this`trail
      ensures Consistent() && Ends(exit, trail, Row())
      ensures exit == if reached
                      then CloseOf(world.faults, StatusOf(inputs.verdict), old(step), true, JudgeSteps(inputs))
                      else CloseOf(world.faults, Failed, old(step), false, 1)
      ensures !Settled(Row()) <==> !reached && world.faults(old(step)) == FailsBefore
      ensures Row().Some? && Row().value.reached == reached
      ensures exit.Returned? ==> trail == old(trail) + [exit.outcome]
      ensures exit.Returned? ==> Accounted(exit.outcome, inputs.verdict, Answered, reached)
      ensures exit.Returned? ==> Noted(Row().value.result, inputs.verdict, Answered, reached)
    {
      JudgedVerdict(inputs.verdict);
      hide *;
      if reached {
        exit := Heed(inputs);
      } else {
        exit := NoInference();
      }
    }

    /** The handler or the judgement that the turn's end calls for. */
    method Close(inputs: Inputs, end: TurnEnd) returns (exit: Exit)
      requires Turned() && (end == Answered ==> InTurn()) && (end == inputs.end || end == TurnError)
      modifies this`step, this`db, this`trail
      ensures Consistent() && Ends(exit, trail, Row())
      ensures exit == AfterTurn(world.faults, inputs, Played(end, old(step), reached, old(Row()).value.reached))
      ensures !Settled(Row()) <==> !old(Row()).value.reached && world.faults(old(step)) == FailsBefore
      ensures Row().Some? && Row().value.reached == old(Row()).value.reached
      ensures exit.Returned? ==> trail == old(trail) + [exit.outcome]
      ensures exit.Returned? ==> Accounted(exit.outcome, inputs.verdict, end, reached)
      ensures exit.Returned? ==> Noted(Row().value.result, inputs.verdict, end, reached)
      ensures Calm() && end == inputs.end && reached == (true in inputs.events) ==> exit == CalmClose(inputs)
    {
      hide AllOpen, Ends, Considerate, Undisturbed, OwnOnly, Sound, RowIn, After, Accounted, Noted;
      InterruptedTurn(inputs.verdict, reached);
      match end {
        case Answered => exit := Judge(inputs);
        case TurnTimeout => exit := Interrupted(TimedOut, "timeout_before_inference", "timed_out");
        case OperatorStop => exit := Interrupted(Stopped, "stopped_before_inference", "stopped");
        case TurnError => exit := Interrupted(Failed, "failed_before_inference", "failed");
      }
    }

    /** One arm's execution, whatever fails and whatever other workers do: how it exits is a function of its
        faults; it records exactly one terminal transition before it returns that outcome, and none or one before
        it raises; its reservation is left outstanding by exactly the faults of `Stranded`; the outcome is one the
        turn accounts for; and when nothing fails and the tables admit the arm, exit and transitions are the ones
        that belong to it. */
    method Execute(inputs: Inputs) returns (exit: Exit)
      requires Unstarted()
      modifies this
      ensures Consistent() && Ends(exit, trail, Row())
      ensures exit == ExitOf(world.faults, inputs, Admitted(inputs))
      ensures !Settled(Row()) <==> Stranded(world.faults, inputs, Admitted(inputs))
      ensures starts == if ReachesTurn(world.faults, inputs, Admitted(inputs)) && TurnOf(world.faults, inputs).reached
                        then 1 else 0
      ensures exit.Returned? ==>
                if inputs.groupActive then inputs.thread == Resumed else inputs.thread == Thread.Fresh
      ensures exit.Returned? && !inputs.contractMatched ==> exit.outcome == Failed && Row() == None
      ensures exit.Returned? && inputs.contractMatched ==>
                && Row().Some?
                && Accounted(exit.outcome, inputs.verdict, TurnOf(world.faults, inputs).end, reached)
                && Noted(Row().value.result, inputs.verdict, TurnOf(world.faults, inputs).end, reached)
      ensures exit.Returned? && (exit.outcome == Completed || ModelInvalid(exit.outcome)) ==>
                starts == 1 && Row().Some? && Row().value.reached
      ensures Calm() && (Admitted(inputs) || !ThreadAvailable(inputs) || !inputs.contractMatched) ==>
                exit == CalmExit(inputs) && trail == CalmTrail(inputs)
    {
      hide AllOpen, Ends, Considerate, Undisturbed, OwnOnly, Sound, RowIn, After, Admits, Play, AfterTurn, Stranded,
           PrepareExit, ReachesTurn, Accounted, Noted;
      var early := Prepare(inputs);
      EarlyStranded(world.faults, inputs, Admitted(inputs));
      if early.Some? {
        EndsMeans(early.value, trail, Row());
        return early.value;
      }
      var end := Turn(inputs);
      exit := Close(inputs, end);
      if exit.Returned? && (exit.outcome == Completed || ModelInvalid(exit.outcome)) {
        ValidAnswersWereHeard(exit.outcome, inputs.verdict, end, reached);
      }
    }
  }

  // ---------- an execution in which nothing fails ----------

  lemma {:induction false} CalmPlay(faults: nat -> Fault, events: seq<bool>, end: TurnEnd, t: nat, reached: bool)
    requires forall k: nat :: faults(k) == Works
    ensures var p := Play(faults, events, end, t, reached);
      p.end == end && p.reached == p.consumed == (reached || true in events)
    decreases |events|
  {
    if events != [] {
      var h := Hear(faults, events[0], t, reached);
      CalmPlay(faults, events[1..], end, h.step, h.reached);
      assert true in events <==> events[0] || true in events[1..];
    }
  }

  /** Without faults an admitted arm exits as its thread, its contract and its turn say. */
  lemma CalmExitIs(faults: nat -> Fault, inputs: Inputs)
    requires forall k: nat :: faults(k) == Works
    ensures ExitOf(faults, inputs, true) == CalmExit(inputs)
  {
    CalmPrepares(faults, inputs, true);
    CalmPlay(faults, inputs.events, inputs.end, ReserveStep(inputs) + 4, false);
    hide PrepareExit, Play;
  }

  // ---------- an execution that leaves its reservation outstanding ----------

  lemma QuietWorld(w: World, attempt: nat)
    requires forall k, s :: w.others(k, s) == []
    ensures Considerate(w, attempt)
  {
    forall k: nat, s: Reservations.Store
      ensures Mine(Around(w, s, k), attempt) == Mine(s, attempt)
    {
      assert Around(w, s, k) == s;
    }
  }

  lemma {:induction false} QuietTables(w: World, s: Reservations.Store, k: nat)
    requires forall k, s :: w.others(k, s) == []
    ensures After(w, s, k) == s
  {
    if k > 0 {
      QuietTables(w, s, k - 1);
    }
  }

  /** The tables of one authorization, for so many starts, before anything is reserved. */
  function NewTables(a: Reservations.AuthorizationId, suite: Reservations.SuiteId, fingerprint: int, maximum: nat)
    : Reservations.Store
  {
    Reservations.Store(map[a := Reservations.Authorization(maximum, 0, fingerprint, false, false)], map[suite := 0],
                       map[], map[])
  }

  lemma NewTablesValid(a: Reservations.AuthorizationId, suite: Reservations.SuiteId, fingerprint: int, maximum: nat)
    ensures Reservations.Valid(NewTables(a, suite, fingerprint, maximum))
    ensures Reservations.Outstanding(NewTables(a, suite, fingerprint, maximum), a) == {}
  {
    var s := NewTables(a, suite, fingerprint, maximum);
    forall b
      ensures Reservations.WithinCap(s, b)
    {
      assert Reservations.Reached(s, b) == {} && Reservations.Outstanding(s, b) == {};
    }
    forall b
      ensures Reservations.SuiteCounted(s, b)
    {
      assert Reservations.ReachedIn(s, b) == {};
    }
  }

  /** A row left outstanding under a maximum of one shuts every later arm out. */
  lemma LastOneTaken(s: Reservations.Store, start: Reservations.Store, b: Booking, arm: nat,
                     id: Reservations.ReservationId)
    requires Sound(s, start, b) && RowIn(s, b).Some? && !RowIn(s, b).value.reached && !RowIn(s, b).value.released
    requires b.plan.authorization in start.authorizations
    requires start.authorizations[b.plan.authorization].maximum <= 1
    ensures Reservations.ReserveError(s, b.plan, arm, id).Some?
  {
    var a := b.plan.authorization;
    RowThere(s, start, b);
    assert a in Caps(start) && Caps(s)[a] == Caps(start)[a];
    assert b.id in Reservations.Outstanding(s, a);
    Collections.SubsetSize({b.id}, Reservations.Outstanding(s, a));
    hide Reservations.Valid, Reservations.Outstanding, Reservations.ArmTaken, Mine;
  }

  /** A fault at step 8 of a fresh arm. */
  lemma FaultAtEight(faults: nat -> Fault, inputs: Inputs)
    requires forall k: nat :: faults(k) == if k == 8 then FailsBefore else Works
    requires inputs.thread == Thread.Fresh && !inputs.groupActive && inputs.contractMatched
    ensures ExitOf(faults, inputs, true) == Raised(BeforeTurn) && Stranded(faults, inputs, true)
    ensures !ReachesTurn(faults, inputs, true)
  {
    assert faults(8) != Works;
  }

  lemma AdmittedAlone(w: World, b: Booking, a: Reservations.AuthorizationId, suite: Reservations.SuiteId, k: nat)
    requires forall k, s :: w.others(k, s) == []
    requires b.plan.authorization == a && b.plan.maximum >= 1
    ensures Admits(After(w, NewTables(a, suite, b.plan.fingerprint, 1), k), b)
    ensures RowIn(NewTables(a, suite, b.plan.fingerprint, 1), b) == None
  {
    QuietTables(w, NewTables(a, suite, b.plan.fingerprint, 1), k);
    NewTablesValid(a, suite, b.plan.fingerprint, 1);
  }

  /** A fresh arm whose turn cannot be recorded, under an authorization for one start: the reservation it made
      stays outstanding though nothing was started, and the next arm cannot reserve. */
  method StrandOne() returns (exit: Exit, row: Option<Row>, starts: nat, next: Option<Reservations.Error>)
    ensures exit == Raised(BeforeTurn) && row == Some(Flags(false, false, None)) && starts == 0
    ensures next.Some?
  {
    var plan, inputs := Reservations.Plan(1, 1, 7, 1), Inputs(Thread.Fresh, false, true, [true], Answered, Valid, true);
    var world := World(k => if k == 8 then FailsBefore else Works, (k, s) => []);
    var db, booking := NewTables(1, 1, 7, 1), Booking(plan, 0, 5, 100, 9);
    assert 1 in db.authorizations && db.authorizations[1].maximum == 1;
    NewTablesValid(1, 1, 7, 1);
    QuietWorld(world, 5);
    AdmittedAlone(world, booking, 1, 1, 7);
    FaultAtEight(world.faults, inputs);
    hide Considerate, Undisturbed, OwnOnly, Sound, RowIn, After, Admits, ExitOf, Stranded, ReachesTurn, TurnOf, Ends,
         CalmExit, CalmTrail, Accounted, Noted, Reservations.Valid, Reservations.ReserveError;
    var run := new Run(world, booking, db);
    assert run.Admitted(inputs);
    exit := run.Execute(inputs);
    row, starts := run.Row(), run.starts;
    next := Reservations.ReserveError(run.db, plan, 1, 101);
    LastOneTaken(run.db, db, booking, 1, 101);
  }
}
