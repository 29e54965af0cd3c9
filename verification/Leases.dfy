/** Worker leases: one valid lease a suite, a bounded number overall, over runs with clock ticks, crashes,
    heartbeats, releases and recovery. A worker reads its acquisition stamp before its transaction begins. */
module Leases {
  import opened Outcomes
  import opened Collections

  type LeaseId = nat
  type Pid = nat

  /** Clock ticks in a second; stored times are whole seconds. */
  const TICKS := 1_000_000

  datatype Lease = Lease(suite: nat, pid: Pid, acquired: nat, expires: nat, released: bool)

  /** The lease table, the clock in ticks, the processes that have died, and the stamps of workers that are
      between reading the clock and starting their transaction. */
  datatype Store = Store(rows: map<LeaseId, Lease>, now: nat, dead: set<Pid>, stamps: map<Pid, nat>)

  function Seconds(now: nat): nat {
    now / TICKS
  }

  predicate Unexpired(row: Lease, now: nat) {
    row.expires * TICKS > now
  }

  /** A lease counts while it is unreleased and unexpired or its process is alive. */
  predicate Counts(row: Lease, now: nat, dead: set<Pid>) {
    !row.released && (Unexpired(row, now) || row.pid !in dead)
  }

  function CountingIds(s: Store): set<LeaseId> {
    set x | x in s.rows && Counts(s.rows[x], s.now, s.dead)
  }

  predicate Open(s: Store, suite: nat, x: LeaseId) {
    x in s.rows && s.rows[x].suite == suite && !s.rows[x].released
  }

  /** A row the query for the latest unreleased lease may return: ties may be broken either way. */
  ghost predicate MayBeLatest(s: Store, suite: nat, latest: Option<LeaseId>) {
    match latest
    case None => forall x :: x in s.rows ==> !Open(s, suite, x)
    case Some(x) => Open(s, suite, x) && forall y :: Open(s, suite, y) ==> s.rows[y].acquired <= s.rows[x].acquired
  }

  function CountingElsewhere(s: Store, suite: nat): set<LeaseId> {
    set x | x in s.rows && s.rows[x].suite != suite && Counts(s.rows[x], s.now, s.dead)
  }

  // ---------- the steps ----------

  datatype Event =
    | Tick(ticks: nat)
    | Crash(pid: Pid)
    | Stamp(pid: Pid)
    | Acquire(pid: Pid, suite: nat, id: LeaseId, latest: Option<LeaseId>)
    | Heartbeat(pid: Pid, id: LeaseId)
    | Release(id: LeaseId)
    | Recover(id: LeaseId)

  /** Lease seconds and the bound on concurrent suites. */
  datatype Limits = Limits(leaseSeconds: nat, maximum: nat)

  /** Whether the transaction lets the worker in, given the row it found. */
  predicate Admitted(s: Store, limits: Limits, suite: nat, latest: Option<LeaseId>)
    requires latest.Some? ==> latest.value in s.rows
  {
    && (latest.Some? ==> !Counts(s.rows[latest.value], s.now, s.dead))
    && |CountingElsewhere(s, suite)| < limits.maximum
  }

  /** When an event can happen: only a live process acts, and it acquires with a stamp it read earlier. */
  ghost predicate Enabled(s: Store, e: Event) {
    match e
    case Stamp(pid) => pid !in s.dead
    case Acquire(pid, suite, id, latest) =>
      pid !in s.dead && pid in s.stamps && id !in s.rows && MayBeLatest(s, suite, latest)
    case Heartbeat(pid, id) => pid !in s.dead && (id in s.rows ==> s.rows[id].pid == pid)
    case _ => true
  }

  function Inserted(s: Store, limits: Limits, pid: Pid, suite: nat, id: LeaseId): Store
    requires pid in s.stamps
  {
    s.(rows := s.rows[id := Lease(suite, pid, s.stamps[pid], Seconds(s.now) + limits.leaseSeconds, false)],
       stamps := s.stamps - {pid})
  }

  function Step(s: Store, limits: Limits, e: Event): Store {
    match e
    case Tick(d) => s.(now := s.now + d)
    case Crash(pid) => s.(dead := s.dead + {pid})
    case Stamp(pid) => s.(stamps := s.stamps[pid := Seconds(s.now)])
    case Acquire(pid, suite, id, latest) =>
      if pid in s.stamps && (latest.Some? ==> latest.value in s.rows) && Admitted(s, limits, suite, latest)
      then Inserted(s, limits, pid, suite, id)
      else s.(stamps := s.stamps - {pid})
    case Heartbeat(pid, id) =>
      if id in s.rows && !s.rows[id].released
      then s.(rows := s.rows[id := s.rows[id].(expires := Seconds(s.now) + limits.leaseSeconds)])
      else s
    case Release(id) =>
      if id in s.rows then s.(rows := s.rows[id := s.rows[id].(released := true)]) else s
    case Recover(id) =>
      if id in s.rows && !s.rows[id].released && s.rows[id].expires * TICKS < s.now && s.rows[id].pid in s.dead
      then s.(rows := s.rows[id := s.rows[id].(released := true)])
      else s
  }

  /** Whether the event puts a new lease into the table. */
  ghost predicate LetsIn(s: Store, limits: Limits, e: Event) {
    e.Acquire? && Enabled(s, e) && Admitted(s, limits, e.suite, e.latest)
  }

  // ---------- what the steps do to the leases that count ----------

  /** A heartbeat keeps an unreleased lease counting for all but the last second of a new term, whether its process
      lives or not. */
  lemma HeartbeatExtends(s: Store, limits: Limits, pid: Pid, id: LeaseId, ticks: nat)
    requires id in s.rows && !s.rows[id].released && ticks + TICKS <= limits.leaseSeconds * TICKS
    ensures var t := Step(Step(s, limits, Heartbeat(pid, id)), limits, Tick(ticks));
      t.now == s.now + ticks && Unexpired(t.rows[id], t.now) && id in CountingIds(t)
  {
    var t := Step(Step(s, limits, Heartbeat(pid, id)), limits, Tick(ticks));
    assert Seconds(s.now) * TICKS + TICKS > s.now;
    assert t.rows[id].expires * TICKS == Seconds(s.now) * TICKS + limits.leaseSeconds * TICKS;
  }

  /** A release frees its own lease at once and no other. */
  lemma ReleaseFrees(s: Store, limits: Limits, id: LeaseId)
    ensures CountingIds(Step(s, limits, Release(id))) == CountingIds(s) - {id}
  {
    var t := Step(s, limits, Release(id));
    assert forall x :: x in t.rows <==> x in s.rows;
  }

  /** Recovery spares every lease whose process lives or whose term runs: exactly those that count still do. What it
      releases is what the latest-row check would have let a new worker pass anyway. */
  lemma RecoverySpares(s: Store, limits: Limits, id: LeaseId)
    ensures var t := Step(s, limits, Recover(id));
      && CountingIds(t) == CountingIds(s)
      && (id in s.rows && (s.rows[id].pid !in s.dead || Unexpired(s.rows[id], s.now)) ==> t == s)
      && (id in s.rows && s.rows[id].pid in s.dead && s.rows[id].expires * TICKS < s.now ==> t.rows[id].released)
  {
    var t := Step(s, limits, Recover(id));
    assert forall x :: x in t.rows <==> x in s.rows;
  }

  // ---------- safety ----------

  ghost predicate AtMostOnePerSuite(s: Store) {
    forall x, y :: x in CountingIds(s) && y in CountingIds(s) && s.rows[x].suite == s.rows[y].suite ==> x == y
  }

  ghost predicate Safe(s: Store, limits: Limits) {
    AtMostOnePerSuite(s) && |CountingIds(s)| <= limits.maximum
  }

  /** What looking only at the latest row relies on: a lease that counts is strictly the latest of its suite. */
  ghost predicate LatestGuards(s: Store) {
    forall x, y :: x in CountingIds(s) && Open(s, s.rows[x].suite, y) && x != y ==>
      s.rows[y].acquired < s.rows[x].acquired
  }

  /** Stamps and acquisition times lie in the past, and a lease is granted its full term. */
  ghost predicate TimesOrdered(s: Store, limits: Limits) {
    && (forall pid :: pid in s.stamps ==> s.stamps[pid] <= Seconds(s.now))
    && (forall x :: x in s.rows ==> s.rows[x].acquired <= Seconds(s.now)
                                    && s.rows[x].acquired + limits.leaseSeconds <= s.rows[x].expires)
  }

  lemma GuardedIsExclusive(s: Store)
    requires LatestGuards(s)
    ensures AtMostOnePerSuite(s)
  {
  }

  /** An invalid latest row means no lease of the suite counts, as long as the latest row guards. */
  lemma NoneCounts(s: Store, suite: nat, latest: Option<LeaseId>)
    requires LatestGuards(s) && MayBeLatest(s, suite, latest)
    requires latest.Some? ==> !Counts(s.rows[latest.value], s.now, s.dead)
    ensures forall x :: x in CountingIds(s) ==> s.rows[x].suite != suite
    ensures CountingIds(s) == CountingElsewhere(s, suite)
  {
  }

  lemma NewLeaseUnexpired(now: nat, term: nat)
    requires term > 0
    ensures (Seconds(now) + term) * TICKS > now
  {
  }

  /** The exact condition: a worker that is let in carries a stamp later than that of every open lease of its
      suite. */
  ghost predicate StampedLater(s: Store, limits: Limits, e: Event) {
    LetsIn(s, limits, e) ==> forall y :: Open(s, e.suite, y) ==> s.rows[y].acquired < s.stamps[e.pid]
  }

  /** The exact condition. Letting a worker in keeps the latest row guarding if and only if its stamp is later
      than that of every unreleased lease of the suite. */
  lemma AcquireKeepsGuardIff(s: Store, limits: Limits, e: Event)
    requires limits.leaseSeconds > 0 && LatestGuards(s) && LetsIn(s, limits, e)
    ensures LatestGuards(Step(s, limits, e)) <==>
              forall y :: Open(s, e.suite, y) ==> s.rows[y].acquired < s.stamps[e.pid]
  {
    var t := Step(s, limits, e);
    AfterLetIn(s, limits, e);
    hide Step, LetsIn, CountingIds, Open;
    if LatestGuards(t) {
      forall y | Open(s, e.suite, y)
        ensures s.rows[y].acquired < s.stamps[e.pid]
      {
        assert Open(t, t.rows[e.id].suite, y);
      }
    }
    if forall y :: Open(s, e.suite, y) ==> s.rows[y].acquired < s.stamps[e.pid] {
      forall x, y | x in CountingIds(t) && Open(t, t.rows[x].suite, y) && x != y
        ensures t.rows[y].acquired < t.rows[x].acquired
      {
        if x != e.id {
          assert Open(s, s.rows[x].suite, y);
        }
      }
    }
  }

  /** The table after a worker is let in: one more counting lease, the only one of its suite. */
  lemma AfterLetIn(s: Store, limits: Limits, e: Event)
    requires limits.leaseSeconds > 0 && LatestGuards(s) && LetsIn(s, limits, e)
    ensures var t := Step(s, limits, e);
      && e.pid in s.stamps && e.id !in s.rows
      && t.rows == s.rows[e.id := Lease(e.suite, e.pid, s.stamps[e.pid], Seconds(s.now) + limits.leaseSeconds, false)]
      && CountingIds(t) == CountingIds(s) + {e.id}
      && (forall suite, y :: Open(t, suite, y) <==> Open(s, suite, y) || (y == e.id && suite == e.suite))
      && (forall suite, y :: Open(s, suite, y) ==> y in s.rows && y != e.id)
    ensures forall x :: x in CountingIds(s) ==> x in s.rows && x != e.id && s.rows[x].suite != e.suite
  {
  }

  /** And when the condition fails the next worker can be let in beside the first. */
  lemma StaleStampAdmitsSecond(s: Store, limits: Limits, e: Event, other: Pid, id: LeaseId)
      returns (second: Event, t: Store)
    requires limits.leaseSeconds > 0 && LatestGuards(s) && LetsIn(s, limits, e)
    requires exists y :: Open(s, e.suite, y) && s.rows[y].acquired >= s.stamps[e.pid]
    requires other != e.pid && other !in s.dead && other in s.stamps && id !in s.rows && id != e.id
    ensures second.Acquire? && second.pid == other && second.suite == e.suite
    ensures LetsIn(Step(s, limits, e), limits, second)
    ensures t == Step(Step(s, limits, e), limits, second) && !AtMostOnePerSuite(t)
  {
    var u := Step(s, limits, e);
    NewLeaseUnexpired(s.now, limits.leaseSeconds);
    NoneCounts(s, e.suite, e.latest);
    assert e.latest.Some?;
    var y := e.latest.value;
    assert Open(u, e.suite, y) && y != e.id;
    assert !Counts(u.rows[y], u.now, u.dead);
    assert MayBeLatest(u, e.suite, Some(y)) by {
      forall z | Open(u, e.suite, z)
        ensures u.rows[z].acquired <= u.rows[y].acquired
      {
        if z != e.id {
          assert Open(s, e.suite, z);
        }
      }
    }
    assert CountingElsewhere(u, e.suite) == CountingElsewhere(s, e.suite);
    second := Acquire(other, e.suite, id, Some(y));
    t := Step(u, limits, second);
    assert e.id in CountingIds(t) && id in CountingIds(t);
  }

  /** A worker that reads its stamp now and is let in beside a lease that counts. */
  ghost predicate BreaksExclusion(s: Store, limits: Limits, e: Event)
    requires e.Acquire?
  {
    var ready := Step(s, limits, Stamp(e.pid));
    && Enabled(s, Stamp(e.pid)) && LetsIn(ready, limits, e) && !AtMostOnePerSuite(Step(ready, limits, e))
  }

  /** While the latest row guards, nobody is let in beside a lease that counts. */
  lemma GuardKeepsOut(s: Store, limits: Limits, e: Event)
    requires limits.leaseSeconds > 0 && LatestGuards(s) && e.Acquire?
    ensures !BreaksExclusion(s, limits, e)
  {
    var ready := Step(s, limits, Stamp(e.pid));
    assert ready.rows == s.rows && ready.now == s.now && ready.dead == s.dead;
    assert LatestGuards(ready) by {
      assert forall suite, y :: Open(ready, suite, y) <==> Open(s, suite, y);
      assert CountingIds(ready) == CountingIds(s);
    }
    if LetsIn(ready, limits, e) {
      hide LatestGuards, AtMostOnePerSuite;
      AfterLetIn(ready, limits, e);
      GuardedIsExclusive(ready);
      OneMoreSuite(ready, Step(ready, limits, e), e.id);
    }
  }

  lemma OneMoreSuite(s: Store, t: Store, id: LeaseId)
    requires AtMostOnePerSuite(s) && id in t.rows && CountingIds(t) == CountingIds(s) + {id}
    requires forall x :: x in CountingIds(s) ==> x in s.rows && x in t.rows && t.rows[x] == s.rows[x]
    requires forall x :: x in CountingIds(s) ==> s.rows[x].suite != t.rows[id].suite
    ensures AtMostOnePerSuite(t)
  {
    hide CountingIds;
  }

  /** Another worker reading its stamp changes nothing a worker's own acquisition looks at. */
  lemma StampIsHarmless(s: Store, limits: Limits, e: Event, other: Pid)
    requires limits.leaseSeconds > 0 && LatestGuards(s) && LetsIn(s, limits, e) && other != e.pid
    ensures var early := Step(s, limits, Stamp(other));
      && LatestGuards(early) && LetsIn(early, limits, e)
      && early.rows == s.rows && early.dead == s.dead && early.stamps == s.stamps[other := Seconds(s.now)]
      && Step(early, limits, e) == Step(Step(s, limits, e), limits, Stamp(other))
  {
    var early := Step(s, limits, Stamp(other));
    assert forall suite, y :: Open(early, suite, y) <==> Open(s, suite, y);
    assert CountingIds(early) == CountingIds(s) && CountingElsewhere(early, e.suite) == CountingElsewhere(s, e.suite);
    assert s.stamps[other := Seconds(s.now)] - {e.pid} == (s.stamps - {e.pid})[other := Seconds(s.now)];
  }

  lemma SecondIsLetIn(s: Store, limits: Limits, e: Event) returns (second: Event)
    requires limits.leaseSeconds > 0 && LatestGuards(s) && LetsIn(s, limits, e) && !StampedLater(s, limits, e)
    ensures second.Acquire? && second.suite == e.suite && BreaksExclusion(Step(s, limits, e), limits, second)
  {
    var other := FreshNumber(s.dead + {e.pid});
    var id := FreshNumber(s.rows.Keys + {e.id});
    assert other !in s.dead + {e.pid} && id !in s.rows.Keys + {e.id};
    StampIsHarmless(s, limits, e, other);
    var early := Step(s, limits, Stamp(other));
    assert exists y :: Open(early, e.suite, y) && early.rows[y].acquired >= early.stamps[e.pid] by {
      var y :| Open(s, e.suite, y) && s.rows[y].acquired >= s.stamps[e.pid];
      assert Open(early, e.suite, y);
    }
    var broken;
    second, broken := StaleStampAdmitsSecond(early, limits, e, other, id);
    StepKeepsDead(s, limits, e);
    hide Step, LatestGuards, LetsIn, AtMostOnePerSuite, Open;
  }

  lemma StepKeepsDead(s: Store, limits: Limits, e: Event)
    requires e.Acquire?
    ensures Step(s, limits, e).dead == s.dead
  {
  }

  /** A prompt acquirer, committing within the lease term of its stamp, always has a later stamp. */
  lemma PromptStampIsLater(s: Store, limits: Limits, e: Event)
    requires TimesOrdered(s, limits) && LatestGuards(s) && LetsIn(s, limits, e)
    requires Seconds(s.now) < s.stamps[e.pid] + limits.leaseSeconds
    ensures forall y :: Open(s, e.suite, y) ==> s.rows[y].acquired < s.stamps[e.pid]
  {
  }

  ghost predicate Prompt(s: Store, limits: Limits, e: Event) {
    LetsIn(s, limits, e) ==> Seconds(s.now) < s.stamps[e.pid] + limits.leaseSeconds
  }

  lemma PromptIsStampedLater(s: Store, limits: Limits, e: Event)
    requires TimesOrdered(s, limits) && LatestGuards(s) && Prompt(s, limits, e)
    ensures StampedLater(s, limits, e)
  {
    hide TimesOrdered, LatestGuards;
    if LetsIn(s, limits, e) {
      PromptStampIsLater(s, limits, e);
    }
  }

  ghost predicate Guarded(s: Store, limits: Limits) {
    LatestGuards(s) && |CountingIds(s)| <= limits.maximum
  }

  /** Nothing but an acquisition adds a counting lease or makes an older one later. */
  lemma QuietStep(s: Store, limits: Limits, e: Event)
    requires limits.leaseSeconds > 0 && Enabled(s, e) && !LetsIn(s, limits, e)
    ensures var t := Step(s, limits, e);
      && CountingIds(t) <= CountingIds(s)
      && (forall x :: x in t.rows ==> x in s.rows && t.rows[x].suite == s.rows[x].suite
                                      && t.rows[x].acquired == s.rows[x].acquired
                                      && (s.rows[x].released ==> t.rows[x].released))
  {
  }

  lemma QuietStepKeepsGuard(s: Store, limits: Limits, e: Event)
    requires limits.leaseSeconds > 0 && Enabled(s, e) && !LetsIn(s, limits, e) && LatestGuards(s)
    ensures LatestGuards(Step(s, limits, e))
  {
  }

  lemma StepKeepsTimes(s: Store, limits: Limits, e: Event)
    requires TimesOrdered(s, limits) && Enabled(s, e)
    ensures TimesOrdered(Step(s, limits, e), limits)
  {
  }

  /** Of every step, the exact condition for the latest row to keep guarding. */
  lemma StepKeepsGuardIff(s: Store, limits: Limits, e: Event)
    requires limits.leaseSeconds > 0 && LatestGuards(s) && Enabled(s, e)
    ensures LatestGuards(Step(s, limits, e)) <==> StampedLater(s, limits, e)
  {
    hide LatestGuards, Step, Enabled;
    if LetsIn(s, limits, e) {
      AcquireKeepsGuardIff(s, limits, e);
    } else {
      QuietStepKeepsGuard(s, limits, e);
    }
  }

  lemma StepKeepsGuarded(s: Store, limits: Limits, e: Event)
    requires limits.leaseSeconds > 0 && Guarded(s, limits) && Enabled(s, e) && StampedLater(s, limits, e)
    ensures Guarded(Step(s, limits, e), limits)
  {
    var t := Step(s, limits, e);
    StepKeepsGuardIff(s, limits, e);
    if LetsIn(s, limits, e) {
      NoneCounts(s, e.suite, e.latest);
      CountingAfter(s, limits, e);
    } else {
      QuietStep(s, limits, e);
      SubsetSize(CountingIds(t), CountingIds(s));
    }
  }

  /** Exclusion itself turns on the same condition: a second worker can be let into the suite right after the
      first exactly when the first one's stamp is stale, and then both leases count. */
  lemma StampDecidesExclusion(s: Store, limits: Limits, e: Event)
    requires limits.leaseSeconds > 0 && LatestGuards(s) && LetsIn(s, limits, e)
    ensures StampedLater(s, limits, e) <==>
              !exists second: Event :: second.Acquire? && second.suite == e.suite
                && BreaksExclusion(Step(s, limits, e), limits, second)
  {
    hide LatestGuards, StampedLater;
    var t := Step(s, limits, e);
    StepKeepsGuardIff(s, limits, e);
    if StampedLater(s, limits, e) {
      forall second: Event | second.Acquire? && second.suite == e.suite
        ensures !BreaksExclusion(t, limits, second)
      {
        GuardKeepsOut(t, limits, second);
      }
    } else {
      var second := SecondIsLetIn(s, limits, e);
    }
  }

  lemma CountingAfter(s: Store, limits: Limits, e: Event)
    requires limits.leaseSeconds > 0 && LetsIn(s, limits, e)
    ensures CountingIds(Step(s, limits, e)) == CountingIds(s) + {e.id}
    ensures |CountingIds(Step(s, limits, e))| == |CountingIds(s)| + 1
  {
  }

  // ---------- over whole runs ----------

  function Run(s: Store, limits: Limits, events: seq<Event>): Store
    decreases |events|
  {
    if events == [] then s else Run(Step(s, limits, events[0]), limits, events[1..])
  }

  /** Every event can happen where it does. */
  ghost predicate AllEnabled(s: Store, limits: Limits, events: seq<Event>)
    decreases |events|
  {
    events == [] || (Enabled(s, events[0]) && AllEnabled(Step(s, limits, events[0]), limits, events[1..]))
  }

  /** Every worker let in carries a stamp later than that of every open lease of its suite. */
  ghost predicate StampedLaterRun(s: Store, limits: Limits, events: seq<Event>)
    decreases |events|
  {
    events == [] || (StampedLater(s, limits, events[0])
                     && StampedLaterRun(Step(s, limits, events[0]), limits, events[1..]))
  }

  ghost predicate GuardsThroughout(s: Store, limits: Limits, events: seq<Event>)
    decreases |events|
  {
    LatestGuards(s) && (events == [] || GuardsThroughout(Step(s, limits, events[0]), limits, events[1..]))
  }

  ghost predicate SafeThroughout(s: Store, limits: Limits, events: seq<Event>)
    decreases |events|
  {
    Safe(s, limits) && (events == [] || SafeThroughout(Step(s, limits, events[0]), limits, events[1..]))
  }

  /** Over a whole run, too, the condition is exact for the latest row to keep guarding. */
  lemma {:induction false} GuardsThroughoutIff(s: Store, limits: Limits, events: seq<Event>)
    requires limits.leaseSeconds > 0 && LatestGuards(s) && AllEnabled(s, limits, events)
    ensures GuardsThroughout(s, limits, events) <==> StampedLaterRun(s, limits, events)
    decreases |events|
  {
    hide LatestGuards, Enabled, Step, StampedLater;
    if events != [] {
      var t := Step(s, limits, events[0]);
      StepKeepsGuardIff(s, limits, events[0]);
      if LatestGuards(t) {
        GuardsThroughoutIff(t, limits, events[1..]);
      } else {
        assert !GuardsThroughout(t, limits, events[1..]);
      }
    }
  }

  /** Under the exact condition every run is safe at every point: at most one lease of a suite counts, and at
      most the configured number overall. */
  lemma {:induction false} StampedLaterRunsAreSafe(s: Store, limits: Limits, events: seq<Event>)
    requires limits.leaseSeconds > 0 && Guarded(s, limits)
    requires AllEnabled(s, limits, events) && StampedLaterRun(s, limits, events)
    ensures SafeThroughout(s, limits, events) && Guarded(Run(s, limits, events), limits)
    decreases |events|
  {
    hide LatestGuards, Enabled, Step, StampedLater, CountingIds, AtMostOnePerSuite;
    GuardedIsExclusive(s);
    if events != [] {
      StepKeepsGuarded(s, limits, events[0]);
      StampedLaterRunsAreSafe(Step(s, limits, events[0]), limits, events[1..]);
    }
  }

  /** Every event can happen where it does, and no acquirer stalls for a lease term between reading its stamp
      and committing. */
  ghost predicate PromptRun(s: Store, limits: Limits, events: seq<Event>)
    decreases |events|
  {
    events == [] || (Enabled(s, events[0]) && Prompt(s, limits, events[0])
                     && PromptRun(Step(s, limits, events[0]), limits, events[1..]))
  }

  lemma {:induction false} PromptRunIsStampedLater(s: Store, limits: Limits, events: seq<Event>)
    requires limits.leaseSeconds > 0 && Guarded(s, limits) && TimesOrdered(s, limits) && PromptRun(s, limits, events)
    ensures AllEnabled(s, limits, events) && StampedLaterRun(s, limits, events)
    decreases |events|
  {
    hide LatestGuards, TimesOrdered, Enabled, Prompt, StampedLater, Step, CountingIds;
    if events != [] {
      PromptIsStampedLater(s, limits, events[0]);
      StepKeepsGuarded(s, limits, events[0]);
      StepKeepsTimes(s, limits, events[0]);
      PromptRunIsStampedLater(Step(s, limits, events[0]), limits, events[1..]);
    }
  }

  /** In particular every run whose acquirers are prompt is safe throughout. */
  lemma PromptRunsAreSafe(s: Store, limits: Limits, events: seq<Event>)
    requires limits.leaseSeconds > 0 && Guarded(s, limits) && TimesOrdered(s, limits) && PromptRun(s, limits, events)
    ensures SafeThroughout(s, limits, events) && Guarded(Run(s, limits, events), limits)
  {
    PromptRunIsStampedLater(s, limits, events);
    StampedLaterRunsAreSafe(s, limits, events);
  }

  lemma {:induction false} RunConcat(s: Store, limits: Limits, a: seq<Event>, b: seq<Event>)
    ensures Run(s, limits, a + b) == Run(Run(s, limits, a), limits, b)
    decreases |a|
  {
    if a == [] {
      assert a + b == b;
    } else {
      assert (a + b)[1..] == a[1..] + b;
      RunConcat(Step(s, limits, a[0]), limits, a[1..], b);
    }
  }

  lemma RunThree(s: Store, limits: Limits, a: Event, b: Event, c: Event)
    ensures Run(s, limits, [a, b, c]) == Step(Step(Step(s, limits, a), limits, b), limits, c)
  {
    hide Step;
    assert [a, b, c][1..] == [b, c] && [b, c][1..] == [c] && [c][1..] == [];
    var s1 := Step(s, limits, a);
    var s2 := Step(s1, limits, b);
    assert Run(s2, limits, [c]) == Step(s2, limits, c);
    assert Run(s1, limits, [b, c]) == Run(s2, limits, [c]);
  }

  const NOTHING := Store(map[], 0, {}, map[])
  const DEFAULTS := Limits(15, 1)

  /** Worker 1 reads its stamp and stalls while worker 2, a second later, reads its own ... */
  lemma FirstStamps()
    ensures Run(NOTHING, DEFAULTS, [Stamp(1), Tick(TICKS), Stamp(2)])
         == Store(map[], TICKS, {}, map[1 := 0, 2 := 1])
  {
    RunThree(NOTHING, DEFAULTS, Stamp(1), Tick(TICKS), Stamp(2));
  }

  /** ... acquires the lease, crashes and expires ... */
  lemma SecondWorkerDies()
    ensures Run(Store(map[], TICKS, {}, map[1 := 0, 2 := 1]), DEFAULTS,
                [Acquire(2, 7, 102, None), Crash(2), Tick(15 * TICKS)])
         == Store(map[102 := Lease(7, 2, 1, 16, false)], 16 * TICKS, {2}, map[1 := 0])
  {
    var s := Store(map[], TICKS, {}, map[1 := 0, 2 := 1]);
    var e := Acquire(2, 7, 102, None);
    RunThree(s, DEFAULTS, e, Crash(2), Tick(15 * TICKS));
    assert CountingElsewhere(s, 7) == {};
    assert s.stamps - {2} == map[1 := 0];
  }

  /** ... then worker 1 is let in with its old stamp, and worker 3, finding only worker 2's dead lease as the
      latest, is let in beside it. */
  lemma TwoAreLetIn()
    ensures var s := Store(map[102 := Lease(7, 2, 1, 16, false)], 16 * TICKS, {2}, map[1 := 0]);
      Run(s, DEFAULTS, [Acquire(1, 7, 101, Some(102)), Stamp(3), Acquire(3, 7, 103, Some(102))])
        == Store(map[102 := Lease(7, 2, 1, 16, false), 101 := Lease(7, 1, 0, 31, false),
                     103 := Lease(7, 3, 16, 31, false)],
                 16 * TICKS, {2}, map[])
  {
  }

  /** So with the default limits there is a run, from an empty table, that ends with two counting leases. */
  lemma StalledAcquirerBreaksExclusion() returns (events: seq<Event>)
    ensures Guarded(NOTHING, DEFAULTS) && TimesOrdered(NOTHING, DEFAULTS)
    ensures AllEnabled(NOTHING, DEFAULTS, events)
    ensures !AtMostOnePerSuite(Run(NOTHING, DEFAULTS, events))
  {
    var a := [Stamp(1), Tick(TICKS), Stamp(2)];
    var b := [Acquire(2, 7, 102, None), Crash(2), Tick(15 * TICKS)];
    var c := [Acquire(1, 7, 101, Some(102)), Stamp(3), Acquire(3, 7, 103, Some(102))];
    events := a + (b + c);
    assert CountingIds(NOTHING) == {};
    FirstStamps();
    SecondWorkerDies();
    TwoAreLetIn();
    RunConcat(NOTHING, DEFAULTS, a, b + c);
    RunConcat(Run(NOTHING, DEFAULTS, a), DEFAULTS, b, c);
    EachEnabled(a, b, c);
    var t := Run(NOTHING, DEFAULTS, events);
    assert 101 in CountingIds(t) && 103 in CountingIds(t);
  }

  lemma {:induction false} AllEnabledConcat(s: Store, limits: Limits, a: seq<Event>, b: seq<Event>)
    requires AllEnabled(s, limits, a) && AllEnabled(Run(s, limits, a), limits, b)
    ensures AllEnabled(s, limits, a + b)
    decreases |a|
  {
    if a == [] {
      assert a + b == b;
    } else {
      assert (a + b)[1..] == a[1..] + b;
      AllEnabledConcat(Step(s, limits, a[0]), limits, a[1..], b);
    }
  }

  lemma ThreeEnabled(s: Store, limits: Limits, a: Event, b: Event, c: Event)
    requires Enabled(s, a) && Enabled(Step(s, limits, a), b) && Enabled(Step(Step(s, limits, a), limits, b), c)
    ensures AllEnabled(s, limits, [a, b, c])
  {
    hide Step, Enabled;
    assert [a, b, c][1..] == [b, c] && [b, c][1..] == [c] && [c][1..] == [];
    var s1 := Step(s, limits, a);
    var s2 := Step(s1, limits, b);
    assert AllEnabled(s2, limits, [c]);
    assert AllEnabled(s1, limits, [b, c]);
  }

  lemma EachEnabled(a: seq<Event>, b: seq<Event>, c: seq<Event>)
    requires a == [Stamp(1), Tick(TICKS), Stamp(2)]
    requires b == [Acquire(2, 7, 102, None), Crash(2), Tick(15 * TICKS)]
    requires c == [Acquire(1, 7, 101, Some(102)), Stamp(3), Acquire(3, 7, 103, Some(102))]
    ensures AllEnabled(NOTHING, DEFAULTS, a + (b + c))
  {
    FirstStamps();
    SecondWorkerDies();
    TwoAreLetIn();
    var s := Store(map[], TICKS, {}, map[1 := 0, 2 := 1]);
    var t := Store(map[102 := Lease(7, 2, 1, 16, false)], 16 * TICKS, {2}, map[1 := 0]);
    ThreeEnabled(NOTHING, DEFAULTS, Stamp(1), Tick(TICKS), Stamp(2));
    ThreeEnabled(s, DEFAULTS, Acquire(2, 7, 102, None), Crash(2), Tick(15 * TICKS));
    assert CountingElsewhere(t, 7) == {};
    ThreeEnabled(t, DEFAULTS, Acquire(1, 7, 101, Some(102)), Stamp(3), Acquire(3, 7, 103, Some(102)));
    AllEnabledConcat(s, DEFAULTS, b, c);
    AllEnabledConcat(NOTHING, DEFAULTS, a, b + c);
  }

  // ---------- the worker's methods over the shared table ----------

  datatype AttemptStatus = Launching | Running | Interrupted | AttemptOver
  datatype SuiteStatus = SuiteRunning | SuiteFailed | SuiteIdle

  /** An unreleased lease whose term and process are both over. */
  predicate Stale(row: Lease, now: nat, dead: set<Pid>) {
    !row.released && row.expires * TICKS < now && row.pid in dead
  }

  function RecoverEvents(order: seq<LeaseId>): seq<Event> {
    seq(|order|, i requires 0 <= i < |order| => Recover(order[i]))
  }

  lemma {:induction false} RecoverEventsRun(s: Store, limits: Limits, order: seq<LeaseId>, k: nat)
    requires k < |order|
    ensures Run(s, limits, RecoverEvents(order[..k + 1]))
         == Step(Run(s, limits, RecoverEvents(order[..k])), limits, Recover(order[k]))
  {
    hide Step;
    var before, last := RecoverEvents(order[..k]), [Recover(order[k])];
    assert RecoverEvents(order[..k + 1]) == before + last;
    RunConcat(s, limits, before, last);
    assert last[1..] == [];
    assert Run(Step(Run(s, limits, before), limits, last[0]), limits, [])
        == Step(Run(s, limits, before), limits, last[0]);
  }

  /** What the leases of a recovered worker stood for. */
  function AttemptsAfter(attempts: map<nat, AttemptStatus>, attemptOf: map<LeaseId, nat>, id: LeaseId)
    : map<nat, AttemptStatus>
  {
    if id in attemptOf && attemptOf[id] in attempts && attempts[attemptOf[id]] in {Launching, Running}
    then attempts[attemptOf[id] := Interrupted] else attempts
  }

  function SuitesAfter(suites: map<nat, SuiteStatus>, suite: nat): map<nat, SuiteStatus> {
    if suite in suites && suites[suite] == SuiteRunning then suites[suite := SuiteFailed] else suites
  }

  /** What recovery makes of the attempts and suites: exactly those that looked alive and stand for a stale lease
      among `done` are interrupted and failed. */
  ghost predicate AttemptsSwept(s: Store, done: seq<LeaseId>, attemptOf: map<LeaseId, nat>,
                                before: map<nat, AttemptStatus>, attempts: map<nat, AttemptStatus>) {
    && attempts.Keys == before.Keys
    && forall a :: a in before ==>
         attempts[a] == if StaleAttempt(s, done, attemptOf, a) && before[a] in {Launching, Running} then Interrupted
                        else before[a]
  }

  ghost predicate SuitesSwept(s: Store, done: seq<LeaseId>, before: map<nat, SuiteStatus>,
                              suites: map<nat, SuiteStatus>) {
    && suites.Keys == before.Keys
    && forall suite :: suite in before ==>
         suites[suite] == if StaleSuite(s, done, suite) && before[suite] == SuiteRunning then SuiteFailed
                          else before[suite]
  }

  /** The sweep's rows and report after the leases in `done`. */
  ghost predicate Swept(s: Store, done: seq<LeaseId>, rows: map<LeaseId, Lease>, recovered: seq<nat>) {
    && rows.Keys == s.rows.Keys && (forall x :: x in done ==> x in s.rows)
    && (forall x :: x in s.rows ==>
          rows[x] == if x in done && Stale(s.rows[x], s.now, s.dead) then s.rows[x].(released := true) else s.rows[x])
    && (forall suite :: suite in recovered <==> StaleSuite(s, done, suite))
  }

  ghost predicate StaleSuite(s: Store, done: seq<LeaseId>, suite: nat) {
    exists x :: x in done && x in s.rows && Stale(s.rows[x], s.now, s.dead) && s.rows[x].suite == suite
  }

  ghost predicate StaleAttempt(s: Store, done: seq<LeaseId>, attemptOf: map<LeaseId, nat>, a: nat) {
    exists x :: x in done && x in s.rows && Stale(s.rows[x], s.now, s.dead) && x in attemptOf && attemptOf[x] == a
  }

  lemma StaleSuiteNext(s: Store, done: seq<LeaseId>, id: LeaseId, suite: nat)
    requires id in s.rows
    ensures StaleSuite(s, done + [id], suite) <==>
              StaleSuite(s, done, suite) || (Stale(s.rows[id], s.now, s.dead) && s.rows[id].suite == suite)
  {
    hide Stale;
    if StaleSuite(s, done, suite) {
      var x :| x in done && x in s.rows && Stale(s.rows[x], s.now, s.dead) && s.rows[x].suite == suite;
      assert x in done + [id];
    }
    if Stale(s.rows[id], s.now, s.dead) && s.rows[id].suite == suite {
      assert id in done + [id];
    }
  }

  lemma StaleAttemptNext(s: Store, done: seq<LeaseId>, attemptOf: map<LeaseId, nat>, id: LeaseId, a: nat)
    requires id in s.rows
    ensures StaleAttempt(s, done + [id], attemptOf, a) <==>
              StaleAttempt(s, done, attemptOf, a)
              || (Stale(s.rows[id], s.now, s.dead) && id in attemptOf && attemptOf[id] == a)
  {
    hide Stale;
    if StaleAttempt(s, done, attemptOf, a) {
      var x :| x in done && x in s.rows && Stale(s.rows[x], s.now, s.dead) && x in attemptOf && attemptOf[x] == a;
      assert x in done + [id];
    }
    if Stale(s.rows[id], s.now, s.dead) && id in attemptOf && attemptOf[id] == a {
      assert id in done + [id];
    }
  }

  lemma SweptSkips(s: Store, done: seq<LeaseId>, id: LeaseId, rows: map<LeaseId, Lease>, recovered: seq<nat>)
    requires Swept(s, done, rows, recovered)
    requires id in s.rows && !Stale(s.rows[id], s.now, s.dead)
    ensures Swept(s, done + [id], rows, recovered)
  {
    hide Stale, StaleSuite;
    forall suite
      ensures suite in recovered <==> StaleSuite(s, done + [id], suite)
    {
      StaleSuiteNext(s, done, id, suite);
    }
  }

  lemma SweptRecovers(s: Store, done: seq<LeaseId>, id: LeaseId, rows: map<LeaseId, Lease>, recovered: seq<nat>)
    requires Swept(s, done, rows, recovered)
    requires id in s.rows && Stale(s.rows[id], s.now, s.dead)
    ensures Swept(s, done + [id], rows[id := s.rows[id].(released := true)], recovered + [s.rows[id].suite])
  {
    hide Stale, StaleSuite;
    var suite, more := s.rows[id].suite, recovered + [s.rows[id].suite];
    var r := rows[id := s.rows[id].(released := true)];
    forall other
      ensures other in more <==> StaleSuite(s, done + [id], other)
    {
      StaleSuiteNext(s, done, id, other);
    }
    assert r.Keys == s.rows.Keys;
    assert forall x :: x in done + [id] <==> x in done || x == id;
  }

  lemma AttemptsSweptNext(s: Store, done: seq<LeaseId>, attemptOf: map<LeaseId, nat>, before: map<nat, AttemptStatus>,
                          attempts: map<nat, AttemptStatus>, id: LeaseId)
    requires id in s.rows && AttemptsSwept(s, done, attemptOf, before, attempts)
    ensures AttemptsSwept(s, done + [id], attemptOf, before,
                          if Stale(s.rows[id], s.now, s.dead) then AttemptsAfter(attempts, attemptOf, id) else attempts)
  {
    hide Stale, StaleAttempt;
    forall a | a in before
      ensures StaleAttempt(s, done + [id], attemptOf, a) <==>
                StaleAttempt(s, done, attemptOf, a)
                || (Stale(s.rows[id], s.now, s.dead) && id in attemptOf && attemptOf[id] == a)
    {
      StaleAttemptNext(s, done, attemptOf, id, a);
    }
    if id in attemptOf && attemptOf[id] in attempts {
      assert attempts[attemptOf[id] := Interrupted].Keys == attempts.Keys;
    }
  }

  lemma SuitesSweptNext(s: Store, done: seq<LeaseId>, before: map<nat, SuiteStatus>, suites: map<nat, SuiteStatus>,
                        id: LeaseId)
    requires id in s.rows && SuitesSwept(s, done, before, suites)
    ensures SuitesSwept(s, done + [id], before,
                        if Stale(s.rows[id], s.now, s.dead) then SuitesAfter(suites, s.rows[id].suite) else suites)
  {
    hide Stale, StaleSuite;
    forall suite | suite in before
      ensures StaleSuite(s, done + [id], suite) <==>
                StaleSuite(s, done, suite) || (Stale(s.rows[id], s.now, s.dead) && s.rows[id].suite == suite)
    {
      StaleSuiteNext(s, done, id, suite);
    }
    var suite := s.rows[id].suite;
    if suite in suites {
      assert suites[suite := SuiteFailed].Keys == suites.Keys;
    }
  }

  lemma SweptAll(s: Store, order: seq<LeaseId>, rows: map<LeaseId, Lease>, recovered: seq<nat>)
    requires Swept(s, order, rows, recovered)
    requires forall x :: x in order <==> x in s.rows && !s.rows[x].released
    ensures rows.Keys == s.rows.Keys
    ensures forall x :: x in rows ==>
              rows[x] == if Stale(s.rows[x], s.now, s.dead) then s.rows[x].(released := true) else s.rows[x]
    ensures forall x :: x in rows ==> !Stale(rows[x], s.now, s.dead)
    ensures forall suite :: suite in recovered <==>
              exists x :: x in s.rows && Stale(s.rows[x], s.now, s.dead) && s.rows[x].suite == suite
  {
    forall suite
      ensures suite in recovered <==>
              exists x :: x in s.rows && Stale(s.rows[x], s.now, s.dead) && s.rows[x].suite == suite
    {
      if x :| x in s.rows && Stale(s.rows[x], s.now, s.dead) && s.rows[x].suite == suite {
        assert x in order && StaleSuite(s, order, suite);
      }
    }
  }

  /** Every stale lease is unreleased, so the sweep comes to each of them. */
  lemma StatusesSwept(s: Store, order: seq<LeaseId>, attemptOf: map<LeaseId, nat>, before: map<nat, AttemptStatus>,
                      attempts: map<nat, AttemptStatus>, suitesBefore: map<nat, SuiteStatus>,
                      suites: map<nat, SuiteStatus>)
    requires forall x :: x in order <==> x in s.rows && !s.rows[x].released
    requires AttemptsSwept(s, order, attemptOf, before, attempts) && SuitesSwept(s, order, suitesBefore, suites)
    ensures attempts.Keys == before.Keys && suites.Keys == suitesBefore.Keys
    ensures forall a :: a in before ==>
              attempts[a] == if before[a] in {Launching, Running}
                                && exists x :: x in s.rows && Stale(s.rows[x], s.now, s.dead) && x in attemptOf
                                               && attemptOf[x] == a
                             then Interrupted else before[a]
    ensures forall suite :: suite in suitesBefore ==>
              suites[suite] == if suitesBefore[suite] == SuiteRunning
                                  && exists x :: x in s.rows && Stale(s.rows[x], s.now, s.dead)
                                                 && s.rows[x].suite == suite
                               then SuiteFailed else suitesBefore[suite]
  {
    forall a | a in before
      ensures StaleAttempt(s, order, attemptOf, a) <==>
                exists x :: x in s.rows && Stale(s.rows[x], s.now, s.dead) && x in attemptOf && attemptOf[x] == a
    {
      if x :| x in s.rows && Stale(s.rows[x], s.now, s.dead) && x in attemptOf && attemptOf[x] == a {
        assert x in order;
      }
    }
    forall suite | suite in suitesBefore
      ensures StaleSuite(s, order, suite) <==>
                exists x :: x in s.rows && Stale(s.rows[x], s.now, s.dead) && s.rows[x].suite == suite
    {
      if x :| x in s.rows && Stale(s.rows[x], s.now, s.dead) && s.rows[x].suite == suite {
        assert x in order;
      }
    }
    hide Stale, StaleAttempt, StaleSuite;
  }

  class Table {
    var rows: map<LeaseId, Lease>
    var now: nat
    var attemptOf: map<LeaseId, nat>
    var attempts: map<nat, AttemptStatus>
    var suites: map<nat, SuiteStatus>
    ghost var dead: set<Pid>
    ghost var stamps: map<Pid, nat>

    ghost function Tables(): Store
      reads this
    {
      Store(rows, now, dead, stamps)
    }

    /** The acquiring transaction of a live worker whose stamp was read earlier. The query's tie-breaking and
        the liveness probe are the environment's. */
    method AcquireLease(pid: Pid, stamp: nat, suite: nat, id: LeaseId, attempt: nat, latest: Option<LeaseId>,
                        isDead: Pid -> bool, limits: Limits) returns (granted: bool)
      requires Enabled(Tables(), Acquire(pid, suite, id, latest)) && stamps[pid] == stamp
      requires forall p :: isDead(p) <==> p in dead
      modifies this`rows, this`stamps, this`attemptOf
      ensures Tables() == Step(old(Tables()), limits, Acquire(pid, suite, id, latest))
      ensures granted <==> LetsIn(old(Tables()), limits, Acquire(pid, suite, id, latest))
      ensures granted <==>
                && (latest.Some? ==>
                      old(rows)[latest.value].expires * 1_000_000 <= now && old(rows)[latest.value].pid in dead)
                && |set x | x in old(rows) && old(rows)[x].suite != suite && !old(rows)[x].released
                            && (old(rows)[x].expires * 1_000_000 > now || old(rows)[x].pid !in dead)|
                   < limits.maximum
      ensures rows == if granted
                      then old(rows)[id := Lease(suite, pid, stamp, now / 1_000_000 + limits.leaseSeconds, false)]
                      else old(rows)
      ensures attemptOf == if granted then old(attemptOf)[id := attempt] else old(attemptOf)
    {
      ghost var s := Tables();
      stamps := stamps - {pid};
      if latest.Some? {
        var row := rows[latest.value];
        if Unexpired(row, now) || !isDead(row.pid) {
          return false;
        }
      }
      var running := set x | x in rows && rows[x].suite != suite && !rows[x].released
                             && (Unexpired(rows[x], now) || !isDead(rows[x].pid));
      assert running == CountingElsewhere(s, suite);
      assert running == set x | x in rows && rows[x].suite != suite && !rows[x].released
                                && (rows[x].expires * 1_000_000 > now || rows[x].pid !in dead);
      if |running| >= limits.maximum {
        return false;
      }
      rows := rows[id := Lease(suite, pid, stamp, Seconds(now) + limits.leaseSeconds, false)];
      attemptOf := attemptOf[id := attempt];
      granted := true;
    }

    method Heartbeat(pid: Pid, id: LeaseId, limits: Limits) returns (kept: bool)
      modifies this`rows
      ensures Tables() == Step(old(Tables()), limits, Event.Heartbeat(pid, id))
      ensures kept <==> id in old(rows) && !old(rows)[id].released
      ensures rows == if kept then old(rows)[id := old(rows)[id].(expires := now / 1_000_000 + limits.leaseSeconds)]
                      else old(rows)
    {
      if id !in rows || rows[id].released {
        return false;
      }
      rows := rows[id := rows[id].(expires := Seconds(now) + limits.leaseSeconds)];
      kept := true;
    }

    method ReleaseLease(id: LeaseId, limits: Limits)
      modifies this`rows
      ensures Tables() == Step(old(Tables()), limits, Release(id))
      ensures rows == if id in old(rows) then old(rows)[id := old(rows)[id].(released := true)] else old(rows)
    {
      if id in rows {
        rows := rows[id := rows[id].(released := true)];
      }
    }

    /** One lease of the recovery sweep: a stale one is released, its attempt interrupted unless it is over,
        and its suite failed if it was running. */
    method RecoverLease(id: LeaseId, isDead: Pid -> bool, limits: Limits) returns (recovered: bool)
      requires forall p :: isDead(p) <==> p in dead
      modifies this`rows, this`attempts, this`suites
      ensures Tables() == Step(old(Tables()), limits, Recover(id))
      ensures recovered <==> id in old(rows) && Stale(old(rows)[id], now, dead)
      ensures recovered <==> id in old(rows) && !old(rows)[id].released && old(rows)[id].expires * 1_000_000 < now
                             && old(rows)[id].pid in dead
      ensures rows == if recovered then old(rows)[id := old(rows)[id].(released := true)] else old(rows)
      ensures attempts == if recovered then AttemptsAfter(old(attempts), attemptOf, id) else old(attempts)
      ensures suites == if recovered then SuitesAfter(old(suites), old(rows)[id].suite) else old(suites)
      ensures attempts.Keys == old(attempts).Keys && suites.Keys == old(suites).Keys
      ensures forall a :: a in attempts ==>
                attempts[a] == if recovered && id in attemptOf && attemptOf[id] == a
                                  && (old(attempts)[a] == Launching || old(attempts)[a] == Running)
                               then Interrupted else old(attempts)[a]
      ensures forall suite :: suite in suites ==>
                suites[suite] == if recovered && old(rows)[id].suite == suite && old(suites)[suite] == SuiteRunning
                                 then SuiteFailed else old(suites)[suite]
    {
      if id !in rows || rows[id].released || rows[id].expires * TICKS >= now || !isDead(rows[id].pid) {
        return false;
      }
      var suite := rows[id].suite;
      rows := rows[id := rows[id].(released := true)];
      if id in attemptOf && attemptOf[id] in attempts && attempts[attemptOf[id]] in {Launching, Running} {
        attempts := attempts[attemptOf[id] := Interrupted];
      }
      if suite in suites && suites[suite] == SuiteRunning {
        suites := suites[suite := SuiteFailed];
      }
      recovered := true;
    }

    /** The sweep over the unreleased leases, in the order the query lists them: exactly the stale ones are
        released and reported, and what a stale lease stood for no longer looks alive. */
    method RecoverStaleWorkers(order: seq<LeaseId>, isDead: Pid -> bool, limits: Limits) returns (recovered: seq<nat>)
      requires forall p :: isDead(p) <==> p in dead
      requires forall i, j :: 0 <= i < j < |order| ==> order[i] != order[j]
      requires forall x :: x in order <==> x in rows && !rows[x].released
      modifies this`rows, this`attempts, this`suites
      ensures Tables() == Run(old(Tables()), limits, RecoverEvents(order))
      ensures rows.Keys == old(rows).Keys
      ensures forall x :: x in rows ==>
                rows[x] == if Stale(old(rows)[x], now, dead) then old(rows)[x].(released := true) else old(rows)[x]
      ensures forall x :: x in rows ==> !Stale(rows[x], now, dead)
      ensures forall suite :: suite in recovered <==>
                exists x :: x in old(rows) && Stale(old(rows)[x], now, dead) && old(rows)[x].suite == suite
      ensures attempts.Keys == old(attempts).Keys && suites.Keys == old(suites).Keys
      ensures forall a :: a in attempts ==>
                attempts[a] == if old(attempts)[a] in {Launching, Running}
                                  && exists x :: x in old(rows) && Stale(old(rows)[x], now, dead) && x in attemptOf
                                                 && attemptOf[x] == a
                               then Interrupted else old(attempts)[a]
      ensures forall suite :: suite in suites ==>
                suites[suite] == if old(suites)[suite] == SuiteRunning
                                    && exists x :: x in old(rows) && Stale(old(rows)[x], now, dead)
                                                   && old(rows)[x].suite == suite
                                 then SuiteFailed else old(suites)[suite]
    {
      hide Swept, AttemptsSwept, SuitesSwept, AttemptsAfter, SuitesAfter, Stale, Run, Step;
      recovered := [];
      var k := 0;
      ghost var s := Tables();
      SweepBegins(s, rows, attemptOf, attempts, suites, limits);
      assert order[..0] == [];
      while k < |order|
        invariant 0 <= k <= |order| && now == s.now && dead == s.dead && stamps == s.stamps
        invariant Tables() == Run(s, limits, RecoverEvents(order[..k]))
        invariant Swept(s, order[..k], rows, recovered)
        invariant AttemptsSwept(s, order[..k], attemptOf, old(attempts), attempts)
        invariant SuitesSwept(s, order[..k], old(suites), suites)
      {
        var id := order[k];
        RecoverEventsRun(s, limits, order, k);
        assert order[..k + 1] == order[..k] + [id];
        assert id in order && id !in order[..k];
        SweptUntouched(s, order[..k], id, rows, recovered);
        ghost var r := rows;
        AttemptsSweptNext(s, order[..k], attemptOf, old(attempts), attempts, id);
        SuitesSweptNext(s, order[..k], old(suites), suites, id);
        var done := RecoverLease(id, isDead, limits);
        if done {
          SweptRecovers(s, order[..k], id, r, recovered);
          recovered := recovered + [rows[id].suite];
        } else {
          SweptSkips(s, order[..k], id, r, recovered);
        }
        k := k + 1;
      }
      assert order[..k] == order;
      SweptAll(s, order, rows, recovered);
      StatusesSwept(s, order, attemptOf, old(attempts), attempts, old(suites), suites);
    }
  }

  lemma SweepBegins(s: Store, rows: map<LeaseId, Lease>, attemptOf: map<LeaseId, nat>,
                    attempts: map<nat, AttemptStatus>, suites: map<nat, SuiteStatus>, limits: Limits)
    requires rows == s.rows
    ensures Swept(s, [], rows, []) && Run(s, limits, RecoverEvents([])) == s
    ensures AttemptsSwept(s, [], attemptOf, attempts, attempts) && SuitesSwept(s, [], suites, suites)
  {
  }

  lemma SweptUntouched(s: Store, done: seq<LeaseId>, id: LeaseId, rows: map<LeaseId, Lease>, recovered: seq<nat>)
    requires Swept(s, done, rows, recovered) && id !in done && id in s.rows
    ensures id in rows && rows[id] == s.rows[id]
  {
  }
}
