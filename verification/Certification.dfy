/** The standalone two-verifier certificate: an untrusted native checker's answer is validated, the reference
    verifier runs in a bounded worker, and a decision chain combines the two. */
module Certification {
  import opened Outcomes
  import opened Graphs
  import opened Cycles
  import opened Verify
  import Existence
  import Graph6
  import Graph6Parsers

  // ---------- the native checker's JSON ----------

  datatype Json =
    | JNull
    | JBool(b: bool)
    | JInt(i: int)
    | JReal(r: real)
    | JText(s: string)
    | JList(items: seq<Json>)
    | JObject(fields: map<string, Json>)

  type Payload = map<string, Json>

  function Field(p: Payload, key: string): Json {
    if key in p then p[key] else JNull
  }

  predicate AllInts(items: seq<Json>) {
    forall i :: 0 <= i < |items| ==> items[i].JInt?
  }

  function Ints(items: seq<Json>): (r: seq<int>)
    requires AllInts(items)
    ensures |r| == |items| && forall i :: 0 <= i < |items| ==> r[i] == items[i].i
  {
    seq(|items|, i requires 0 <= i < |items| => items[i].i)
  }

  function SetOf(s: seq<int>): set<int> {
    set x | x in s
  }

  datatype Complaint =
    | NotAnObject | UnknownStatus | NoCompletenessFlag
    | BadLength | BadVertices | NotACycle | FoundIncomplete
    | AbsenceNotCovering | IncompleteClaimsComplete

  /** The validator returns nothing, a complaint, or raises on a status it cannot look up in a set. */
  datatype Check = Accepted | Refused(complaint: Complaint) | Raises

  predicate VerticesOk(g: Graph, items: seq<Json>, length: int) {
    && |items| == length
    && AllInts(items)
    && (forall i :: 0 <= i < |items| ==> 0 <= items[i].i < g.n)
    && |SetOf(Ints(items))| == length
  }

  predicate EdgesOk(g: Graph, items: seq<Json>)
    requires |items| > 0 && AllInts(items) && forall i :: 0 <= i < |items| ==> items[i].i >= 0
  {
    forall i :: 0 <= i < |items| ==> Edge(g, items[i].i, items[Next(i, |items|)].i)
  }

  function CheckFound(p: Payload, g: Graph, lengths: seq<int>, complete: bool): Check {
    var length := Field(p, "length");
    var witness' := Field(p, "witness");
    if !(length.JInt? && length.i in lengths) then Refused(BadLength)
    else if !(witness'.JList? && VerticesOk(g, witness'.items, length.i)) then Refused(BadVertices)
    else if witness'.items != [] && !EdgesOk(g, witness'.items) then Refused(NotACycle)
    else if !complete then Refused(FoundIncomplete)
    else Accepted
  }

  function CheckAbsent(p: Payload, lengths: seq<int>, complete: bool): Check {
    var reported := Field(p, "lengths");
    if complete && reported.JList? && AllInts(reported.items) && SetOf(Ints(reported.items)) == SetOf(lengths)
    then Accepted
    else Refused(AbsenceNotCovering)
  }

  function CheckPayload(payload: Json, g: Graph, lengths: seq<int>): Check {
    if !payload.JObject? then Refused(NotAnObject)
    else
      var p := payload.fields;
      var status := Field(p, "status");
      var complete := Field(p, "complete");
      if status.JList? || status.JObject? then Raises
      else if status !in {JText("FOUND"), JText("ABSENT"), JText("TIMEOUT"), JText("ERROR")}
      then Refused(UnknownStatus)
      else if !complete.JBool? then Refused(NoCompletenessFlag)
      else if status == JText("FOUND") then CheckFound(p, g, lengths, complete.b)
      else if status == JText("ABSENT") then CheckAbsent(p, lengths, complete.b)
      else if complete.b then Refused(IncompleteClaimsComplete)
      else Accepted
  }

  lemma {:induction false} DistinctFromSet(s: seq<int>)
    requires |SetOf(s)| == |s|
    ensures forall i, j :: 0 <= i < j < |s| ==> s[i] != s[j]
  {
    if s != [] {
      var tail := s[1..];
      SetOfSize(tail);
      assert SetOf(s) == SetOf(tail) + {s[0]};
      assert s[0] in tail ==> SetOf(s) == SetOf(tail);
      DistinctFromSet(tail);
    }
  }

  lemma {:induction false} SetOfSize(s: seq<int>)
    ensures |SetOf(s)| <= |s|
  {
    if s != [] {
      SetOfSize(s[1..]);
      assert SetOf(s) == SetOf(s[1..]) + {s[0]};
    }
  }

  lemma {:induction false} SetOfDistinct(s: seq<int>)
    requires forall i, j :: 0 <= i < j < |s| ==> s[i] != s[j]
    ensures |SetOf(s)| == |s|
  {
    if s != [] {
      SetOfDistinct(s[1..]);
      assert SetOf(s) == SetOf(s[1..]) + {s[0]};
      assert s[0] !in SetOf(s[1..]);
    }
  }

  function Naturals(items: seq<Json>): (r: seq<nat>)
    requires AllInts(items) && forall i :: 0 <= i < |items| ==> items[i].i >= 0
    ensures |r| == |items| && forall i :: 0 <= i < |items| ==> r[i] == items[i].i
  {
    seq(|items|, i requires 0 <= i < |items| => items[i].i as nat)
  }

  /** An accepted FOUND answer carries a real cycle of a requested length, whoever wrote it. */
  lemma AcceptedFoundIsReal(payload: Json, g: Graph, lengths: seq<int>)
    requires forall k :: k in lengths ==> k >= 3
    requires CheckPayload(payload, g, lengths) == Accepted
    requires Field(payload.fields, "status") == JText("FOUND")
    ensures Field(payload.fields, "length").JInt? && Field(payload.fields, "witness").JList?
    ensures var k := Field(payload.fields, "length").i; var items := Field(payload.fields, "witness").items;
      k in lengths && AllInts(items) && (forall i :: 0 <= i < |items| ==> items[i].i >= 0)
      && IsCycle(g, Naturals(items)) && |items| == k
  {
    var items := Field(payload.fields, "witness").items;
    DistinctFromSet(Ints(items));
    CycleFromSteps(g, Naturals(items));
  }

  /** Exactly which answers the validator accepts: FOUND, marked complete, with a real cycle of its requested length;
      ABSENT, marked complete, for just the lengths asked about; TIMEOUT and ERROR when not marked complete. */
  lemma PayloadAcceptedIff(payload: Json, g: Graph, lengths: seq<int>)
    requires forall k :: k in lengths ==> k >= 3
    ensures CheckPayload(payload, g, lengths) == Accepted <==>
              payload.JObject? && Acceptable(payload.fields, g, lengths)
  {
    if payload.JObject? {
      var p := payload.fields;
      if Field(p, "complete").JBool? && Field(p, "status") == JText("FOUND") {
        FoundAcceptedIff(p, g, lengths, Field(p, "complete").b);
      }
      if Field(p, "lengths").JList? && AllInts(Field(p, "lengths").items) {
        SameSets(Ints(Field(p, "lengths").items), lengths);
      }
      hide CheckFound, CarriesCycle;
    }
  }

  lemma SameSets(a: seq<int>, b: seq<int>)
    ensures SetOf(a) == SetOf(b) <==> forall k :: k in a <==> k in b
  {
    assert forall k :: k in SetOf(a) <==> k in a;
    assert forall k :: k in SetOf(b) <==> k in b;
    if forall k :: k in a <==> k in b {
      assert SetOf(a) == SetOf(b);
    } else {
      var k :| !(k in a <==> k in b);
      assert !(k in SetOf(a) <==> k in SetOf(b));
    }
  }

  ghost predicate Acceptable(p: Payload, g: Graph, lengths: seq<int>) {
    var status, complete := Field(p, "status"), Field(p, "complete");
    || (status == JText("FOUND") && complete == JBool(true) && CarriesCycle(p, g, lengths))
    || (status == JText("ABSENT") && complete == JBool(true) && Field(p, "lengths").JList?
        && AllInts(Field(p, "lengths").items)
        && forall k :: k in Ints(Field(p, "lengths").items) <==> k in lengths)
    || (status in {JText("TIMEOUT"), JText("ERROR")} && complete == JBool(false))
  }

  /** A witness that is a cycle of the stated length, one of those asked about. */
  ghost predicate CarriesCycle(p: Payload, g: Graph, lengths: seq<int>) {
    && Field(p, "length").JInt? && Field(p, "length").i in lengths
    && Field(p, "witness").JList?
    && var items := Field(p, "witness").items;
       && |items| == Field(p, "length").i && AllInts(items)
       && (forall i :: 0 <= i < |items| ==> items[i].i >= 0)
       && IsCycle(g, Naturals(items))
  }

  lemma FoundAcceptedIff(p: Payload, g: Graph, lengths: seq<int>, complete: bool)
    requires forall k :: k in lengths ==> k >= 3
    ensures CheckFound(p, g, lengths, complete) == Accepted <==> complete && CarriesCycle(p, g, lengths)
  {
    if CheckFound(p, g, lengths, complete) == Accepted {
      var items := Field(p, "witness").items;
      DistinctFromSet(Ints(items));
      CycleFromSteps(g, Naturals(items));
    } else if CarriesCycle(p, g, lengths) {
      var items := Field(p, "witness").items;
      SetOfDistinct(Ints(items));
      forall i | 0 <= i < |items|
        ensures Edge(g, items[i].i, items[Next(i, |items|)].i)
      {
        CycleStep(g, Naturals(items), i);
      }
    }
  }

  // ---------- running the checker ----------

  datatype RunStatus = RunOk | RunError | RunTimeout | RunToolFailure | RunOutputLimit

  /** What the bounded process runner hands back: its own status, the exit code, and the standard output as
      far as it parses as JSON. */
  datatype Run = Run(status: RunStatus, returncode: Option<int>, stdout: Option<Json>)

  function Failure(status: string): Payload {
    map["status" := JText(status), "complete" := JBool(false)]
  }

  function StatusOf(p: Payload): Json {
    Field(p, "status")
  }

  /** The status each kind of run ends up with in the report. */
  function ReportStatus(g: Graph, lengths: seq<int>, executable: bool, run: Run, memoryLimited: bool,
                        mentionsAlloc: Json -> bool): string
  {
    if executable && run.status == RunTimeout then "UNKNOWN_TIMEOUT"
    else if !executable then "TOOL_FAILURE"
    else if run.stdout.None? then
      if memoryLimited && run.returncode.Some? && run.returncode.value != 0 then "UNKNOWN_MEMORY_LIMIT"
      else "TOOL_FAILURE"
    else if CheckPayload(run.stdout.value, g, lengths) != Accepted then "TOOL_FAILURE"
    else
      var printed := StatusOf(run.stdout.value.fields);
      if printed == JText("TIMEOUT") then "UNKNOWN_TIMEOUT"
      else if printed == JText("ERROR") then
        if !(memoryLimited && mentionsAlloc(Field(run.stdout.value.fields, "message"))) then "ERROR"
        else if run.status == RunOk then "UNKNOWN_MEMORY_LIMIT"
        else "TOOL_FAILURE"
      else if run.status != RunOk then "TOOL_FAILURE"
      else printed.s
  }

  /** An allocation failure that the checker reports in words is recorded as a memory limit exactly when the
      checker also exits successfully, which it never does after printing an error. */
  lemma AllocationMessageIsMemoryIff(g: Graph, lengths: seq<int>, run: Run, mentionsAlloc: Json -> bool)
    requires run.status != RunTimeout && run.stdout.Some? && CheckPayload(run.stdout.value, g, lengths) == Accepted
    requires StatusOf(run.stdout.value.fields) == JText("ERROR")
    requires mentionsAlloc(Field(run.stdout.value.fields, "message"))
    ensures ReportStatus(g, lengths, true, run, true, mentionsAlloc) == "UNKNOWN_MEMORY_LIMIT" <==> run.status == RunOk
    ensures ReportStatus(g, lengths, true, run, true, mentionsAlloc) == "TOOL_FAILURE" <==> run.status != RunOk
  {
  }

  /** The checker out of memory under a limit: what it prints, and the exit code of one, are recorded as a tool
      failure. */
  lemma OutOfMemoryIsToolFailure(g: Graph, lengths: seq<int>, mentionsAlloc: Json -> bool) returns (run: Run)
    requires mentionsAlloc(JText("std::bad_alloc"))
    ensures run.status == RunError && run.returncode == Some(1) && run.stdout.Some?
    ensures run.stdout.value == JObject(map["status" := JText("ERROR"), "complete" := JBool(false),
                                            "message" := JText("std::bad_alloc")])
    ensures ReportStatus(g, lengths, true, run, true, mentionsAlloc) == "TOOL_FAILURE"
  {
    var payload := map["status" := JText("ERROR"), "complete" := JBool(false), "message" := JText("std::bad_alloc")];
    run := Run(RunError, Some(1), Some(JObject(payload)));
    AllocationMessageIsMemoryIff(g, lengths, run, mentionsAlloc);
  }

  /** Maps a run to the report the certificate stores. A status rewritten here always loses completeness. */
  method VerifyCpp(g: Graph, lengths: seq<int>, executable: bool, run: Run, memoryLimited: bool,
                   mentionsAlloc: Json -> bool) returns (r: Option<Payload>)
    ensures r.None? <==> executable && run.status != RunTimeout && run.stdout.Some?
                         && CheckPayload(run.stdout.value, g, lengths) == Raises
    ensures r.Some? && StatusOf(r.value) in {JText("FOUND"), JText("ABSENT")} ==>
              && executable && run.status == RunOk
              && run.stdout.Some? && CheckPayload(run.stdout.value, g, lengths) == Accepted
              && r.value == run.stdout.value.fields
    ensures r.Some? && StatusOf(r.value) !in {JText("FOUND"), JText("ABSENT")} ==>
              StatusOf(r.value) in {JText("UNKNOWN_TIMEOUT"), JText("UNKNOWN_MEMORY_LIMIT"),
                                    JText("TOOL_FAILURE"), JText("ERROR")}
              && Field(r.value, "complete") == JBool(false)
    ensures r.Some? ==>
              StatusOf(r.value) == JText(ReportStatus(g, lengths, executable, run, memoryLimited, mentionsAlloc))
    ensures executable && run.status == RunOk && run.stdout.Some?
            && CheckPayload(run.stdout.value, g, lengths) == Accepted
            && StatusOf(run.stdout.value.fields) in {JText("FOUND"), JText("ABSENT")} ==>
              r == Some(run.stdout.value.fields)
  {
    if !executable {
      return Some(Failure("TOOL_FAILURE"));
    }
    if run.status == RunTimeout {
      return Some(Failure("UNKNOWN_TIMEOUT"));
    }
    if run.stdout.None? {
      if memoryLimited && run.returncode != Some(0) && run.returncode != None {
        return Some(Failure("UNKNOWN_MEMORY_LIMIT"));
      }
      return Some(Failure("TOOL_FAILURE"));
    }
    var check := CheckPayload(run.stdout.value, g, lengths);
    if check == Raises {
      return None;
    }
    if check != Accepted {
      return Some(Failure("TOOL_FAILURE"));
    }
    var payload := run.stdout.value.fields;
    if memoryLimited && StatusOf(payload) == JText("ERROR") && mentionsAlloc(Field(payload, "message")) {
      payload := payload["status" := JText("UNKNOWN_MEMORY_LIMIT")]["complete" := JBool(false)];
    }
    if StatusOf(payload) == JText("TIMEOUT") {
      payload := payload["status" := JText("UNKNOWN_TIMEOUT")]["complete" := JBool(false)];
    } else if run.status != RunOk && StatusOf(payload) != JText("ERROR") {
      payload := payload["status" := JText("TOOL_FAILURE")]["complete" := JBool(false)];
    }
    r := Some(payload);
  }

  // ---------- the bounded reference worker ----------

  /** How the worker process ended: with its answer, out of memory inside the verifier, killed by the clock,
      or gone without an answer. */
  datatype Fate = Finished | OutOfMemory | Killed | Vanished(exitcode: Option<int>)

  datatype ReferenceReport = Completed(status: Status) | RefTimeout | RefMemoryLimit | RefToolFailure

  method VerifyReferenceBounded(g: Graph, fate: Fate, memoryLimited: bool) returns (r: ReferenceReport)
    ensures Reports(g, fate, memoryLimited, r)
    ensures r.Completed? ==> StatusHolds(g, r.status)
    ensures r.Completed? <==> fate.Finished?
    ensures r.RefTimeout? <==> fate.Killed?
    ensures r.RefMemoryLimit? <==>
              || fate.OutOfMemory?
              || (fate.Vanished? && memoryLimited && fate.exitcode.Some? && fate.exitcode.value != 0)
  {
    match fate
    case Finished =>
      var status := VerifyReference(g);
      r := Completed(status);
    case OutOfMemory => r := RefMemoryLimit;
    case Killed => r := RefTimeout;
    case Vanished(exitcode) =>
      r := if memoryLimited && exitcode != Some(0) && exitcode != None then RefMemoryLimit else RefToolFailure;
  }

  // ---------- the decision ----------

  datatype Certificate =
    | CounterexampleVerified | InvalidCandidate | UnknownTimeout | UnknownMemoryLimit
    | ToolFailure | VerifierDisagreement

  function Decide(reference: ReferenceReport, independent: Json): Certificate {
    if reference.Completed? && reference.status.Invalid? then InvalidCandidate
    else if independent == JText("UNKNOWN_TIMEOUT") || reference.RefTimeout? then UnknownTimeout
    else if independent == JText("UNKNOWN_MEMORY_LIMIT") || reference.RefMemoryLimit? then UnknownMemoryLimit
    else if independent in {JText("TOOL_FAILURE"), JText("ERROR")} || reference.RefToolFailure? then ToolFailure
    else if reference.Completed? && reference.status.Verified? && independent == JText("ABSENT")
    then CounterexampleVerified
    else if reference.Completed? && reference.status.Rejected? && independent == JText("FOUND")
    then InvalidCandidate
    else VerifierDisagreement
  }

  datatype CertifyError = NoLengths | TooManyVertices | CheckerRaised

  /** What a certificate proves about the graph, for any native checker: nothing in these clauses trusts its
      answer beyond what the validator has checked. */
  ghost predicate CertificateHolds(g: Graph, fate: Fate, executable: bool, run: Run, c: Certificate) {
    && (c.CounterexampleVerified? ==> Counterexample(g) && fate.Finished? && executable && run.status == RunOk)
    && (c.InvalidCandidate? ==> !Counterexample(g))
    && (c.VerifierDisagreement? ==> fate.Finished? && Admissible(g) && run.status == RunOk)
    && (fate.Killed? || (run.status == RunTimeout && executable) ==> c in {UnknownTimeout, InvalidCandidate})
    && (fate != Finished || !executable || run.status != RunOk ==>
          c in {UnknownTimeout, UnknownMemoryLimit, ToolFailure, InvalidCandidate})
  }

  /** The printed object has a status that can be looked up. */
  predicate NeverRaises(executable: bool, run: Run) {
    executable && run.stdout.Some? && run.stdout.value.JObject? && StatusOf(run.stdout.value.fields).JText?
  }

  lemma NeverRaisesIs(g: Graph, lengths: seq<int>, executable: bool, run: Run)
    ensures NeverRaises(executable, run) ==> CheckPayload(run.stdout.value, g, lengths) != Raises
  {
  }

  ghost predicate ListsForbidden(g: Graph, lengths: seq<int>) {
    forall k :: k in lengths <==> ForbiddenLength(g.n, k)
  }

  /** What the bounded worker reports for each way it can end. */
  ghost predicate Reports(g: Graph, fate: Fate, memoryLimited: bool, r: ReferenceReport) {
    match fate
    case Finished => r.Completed? && StatusHolds(g, r.status)
    case OutOfMemory => r == RefMemoryLimit
    case Killed => r == RefTimeout
    case Vanished(exitcode) =>
      r == if memoryLimited && exitcode != Some(0) && exitcode != None then RefMemoryLimit else RefToolFailure
  }

  /** The certificate is the decision over the reference worker's report and the checker report's status. */
  ghost predicate Decided(g: Graph, fate: Fate, executable: bool, run: Run, memoryLimited: bool,
                          mentionsAlloc: Json -> bool, c: Certificate)
  {
    exists lengths: seq<int>, reference: ReferenceReport ::
      && ListsForbidden(g, lengths) && Reports(g, fate, memoryLimited, reference)
      && c == Decide(reference, JText(ReportStatus(g, lengths, executable, run, memoryLimited, mentionsAlloc)))
  }

  /** The decision, answer by answer: a timeout on either side outranks a memory limit, which outranks a failed
      tool, and only two exact answers are weighed against each other. */
  lemma DecisionMeaning(reference: ReferenceReport, s: string)
    requires s in {"FOUND", "ABSENT", "UNKNOWN_TIMEOUT", "UNKNOWN_MEMORY_LIMIT", "TOOL_FAILURE", "ERROR"}
    ensures var c, invalid := Decide(reference, JText(s)), reference.Completed? && reference.status.Invalid?;
      && (c == InvalidCandidate <==>
            invalid || (reference.Completed? && reference.status.Rejected? && s == "FOUND"))
      && (c == UnknownTimeout <==> !invalid && (reference == RefTimeout || s == "UNKNOWN_TIMEOUT"))
      && (c == UnknownMemoryLimit <==>
            !invalid && (reference == RefMemoryLimit || (s == "UNKNOWN_MEMORY_LIMIT" && reference != RefTimeout))
            && s != "UNKNOWN_TIMEOUT")
      && (c == ToolFailure <==>
            || (reference == RefToolFailure && s !in {"UNKNOWN_TIMEOUT", "UNKNOWN_MEMORY_LIMIT"})
            || (reference.Completed? && !invalid && s in {"TOOL_FAILURE", "ERROR"})
            || (reference == RefToolFailure && s in {"TOOL_FAILURE", "ERROR"}))
      && (c == CounterexampleVerified <==> reference.Completed? && reference.status.Verified? && s == "ABSENT")
      && (c == VerifierDisagreement <==>
            reference.Completed? && ((reference.status.Verified? && s == "FOUND")
                                     || (reference.status.Rejected? && s == "ABSENT")))
  {
  }

  method Certify(g: Graph, fate: Fate, executable: bool, run: Run, memoryLimited: bool, mentionsAlloc: Json -> bool)
    returns (r: Result<Certificate, CertifyError>)
    ensures g.n < 4 <==> r == Err(NoLengths)
    ensures g.n > Graph6.LARGEST <==> r == Err(TooManyVertices)
    ensures r.Ok? ==> CertificateHolds(g, fate, executable, run, r.value)
    ensures r.Ok? ==> Decided(g, fate, executable, run, memoryLimited, mentionsAlloc, r.value)
    ensures r.Ok? && HonestRun(g, executable, run) && fate.Finished? ==>
              r.value == if Counterexample(g) then CounterexampleVerified else InvalidCandidate
    ensures 4 <= g.n <= Graph6.LARGEST && (HonestRun(g, executable, run) || NeverRaises(executable, run)) ==> r.Ok?
  {
    var lengths := ForbiddenLengths(g.n);
    if lengths == [] {
      return Err(NoLengths);
    }
    var encoded := Graph6.EncodeGraph6(g);
    if encoded.Err? {
      return Err(TooManyVertices);
    }
    NeverRaisesIs(g, lengths, executable, run);
    hide CheckPayload, Counterexample, StatusHolds, HonestRun;
    var reference := VerifyReferenceBounded(g, fate, memoryLimited);
    var independent := VerifyCpp(g, lengths, executable, run, memoryLimited, mentionsAlloc);
    ghost var honest := HonestRun(g, executable, run);
    if honest {
      HonestRunAccepted(g, lengths, executable, run);
    }
    if independent.None? {
      return Err(CheckerRaised);
    }
    if StatusOf(independent.value) == JText("FOUND") {
      FoundCycleCounts(g, lengths, run.stdout.value);
    }
    DecisionHolds(g, fate, executable, run, reference, StatusOf(independent.value));
    if honest && fate.Finished? {
      HonestDecision(g, reference, StatusOf(independent.value));
    }
    r := Ok(Decide(reference, StatusOf(independent.value)));
  }

  /** What the report's status may be, given how the run went. */
  ghost predicate IndependentStatus(g: Graph, executable: bool, run: Run, s: Json) {
    && s in {JText("FOUND"), JText("ABSENT"), JText("UNKNOWN_TIMEOUT"), JText("UNKNOWN_MEMORY_LIMIT"),
             JText("TOOL_FAILURE"), JText("ERROR")}
    && (s in {JText("FOUND"), JText("ABSENT")} ==> executable && run.status == RunOk)
    && (executable && run.status == RunTimeout ==> s == JText("UNKNOWN_TIMEOUT"))
    && (s == JText("FOUND") ==> !Counterexample(g))
  }

  lemma DecisionHolds(g: Graph, fate: Fate, executable: bool, run: Run, reference: ReferenceReport, s: Json)
    requires reference.Completed? ==> StatusHolds(g, reference.status)
    requires (reference.Completed? <==> fate.Finished?) && (reference.RefTimeout? <==> fate.Killed?)
    requires IndependentStatus(g, executable, run, s)
    ensures CertificateHolds(g, fate, executable, run, Decide(reference, s))
  {
  }

  lemma HonestDecision(g: Graph, reference: ReferenceReport, s: Json)
    requires reference.Completed? && StatusHolds(g, reference.status)
    requires s in {JText("FOUND"), JText("ABSENT")}
    requires Admissible(g) ==> (s == JText("ABSENT") <==> Counterexample(g))
    ensures Decide(reference, s) == if Counterexample(g) then CounterexampleVerified else InvalidCandidate
  {
  }

  lemma FoundCycleCounts(g: Graph, lengths: seq<int>, payload: Json)
    requires forall k :: k in lengths ==> ForbiddenLength(g.n, k)
    requires CheckPayload(payload, g, lengths) == Accepted
    requires Field(payload.fields, "status") == JText("FOUND")
    ensures !Counterexample(g)
  {
    AcceptedFoundIsReal(payload, g, lengths);
    var k := Field(payload.fields, "length").i;
    assert HasCycle(g, k);
  }

  // ---------- a run of the real checker ----------

  /** The object the checker prints for a verdict. */
  function VerdictJson(v: Existence.Verdict): Json {
    match v
    case Found(k, cycle) =>
      JObject(map["status" := JText("FOUND"), "complete" := JBool(true), "length" := JInt(k),
                  "witness" := JList(seq(|cycle|, i requires 0 <= i < |cycle| => JInt(cycle[i])))])
    case Timeout(k) =>
      JObject(map["status" := JText("TIMEOUT"), "complete" := JBool(false), "length" := JInt(k)])
    case Absent(lengths) =>
      JObject(map["status" := JText("ABSENT"), "complete" := JBool(true),
                  "lengths" := JList(seq(|lengths|, i requires 0 <= i < |lengths| => JInt(lengths[i])))])
  }

  /** The checker ran to its end and printed a verdict that is right, with no timeout. */
  ghost predicate HonestRun(g: Graph, executable: bool, run: Run) {
    executable && run.status == RunOk && run.stdout.Some?
    && exists lengths: seq<int>, v: Existence.Verdict :: ListsForbidden(g, lengths)
         && Existence.VerdictTrue(g, lengths, v) && run.stdout.value == VerdictJson(v)
  }

  lemma HonestVerdictAccepted(g: Graph, lengths: seq<int>, asked: seq<int>, v: Existence.Verdict)
    requires ListsForbidden(g, lengths) && ListsForbidden(g, asked)
    requires Existence.VerdictTrue(g, asked, v)
    ensures CheckPayload(VerdictJson(v), g, lengths) == Accepted
    ensures StatusOf(VerdictJson(v).fields) == JText(if v.Found? then "FOUND" else "ABSENT")
  {
    var p := VerdictJson(v).fields;
    match v {
      case Found(k, cycle) =>
        var items := Field(p, "witness").items;
        assert AllInts(items);
        SetOfDistinct(Ints(items));
        assert VerticesOk(g, items, k);
        forall i | 0 <= i < |items|
          ensures Edge(g, items[i].i, items[Next(i, |items|)].i)
        {
          CycleStep(g, cycle, i);
        }
      case Absent(reported) =>
        var items := Field(p, "lengths").items;
        assert AllInts(items) && Ints(items) == reported;
        forall k
          ensures k in SetOf(reported) <==> k in SetOf(lengths)
        {
          assert k in asked <==> ForbiddenLength(g.n, k);
          assert k in lengths <==> ForbiddenLength(g.n, k);
        }
        assert SetOf(reported) == SetOf(lengths);
    }
  }

  lemma HonestRunAccepted(g: Graph, lengths: seq<int>, executable: bool, run: Run)
    requires ListsForbidden(g, lengths) && HonestRun(g, executable, run)
    ensures executable && run.status == RunOk && run.stdout.Some?
    ensures CheckPayload(run.stdout.value, g, lengths) == Accepted
    ensures StatusOf(run.stdout.value.fields) in {JText("FOUND"), JText("ABSENT")}
    ensures Admissible(g) ==> (StatusOf(run.stdout.value.fields) == JText("ABSENT") <==> Counterexample(g))
  {
    var asked: seq<int>, v: Existence.Verdict :| ListsForbidden(g, asked)
         && Existence.VerdictTrue(g, asked, v) && run.stdout.value == VerdictJson(v);
    HonestVerdictAccepted(g, lengths, asked, v);
    if v.Found? {
      assert HasCycle(g, v.length);
    }
  }

  // ---------- the whole certificate ----------

  /** The checker's end after an exception: what it prints, and the exit code of one. */
  function ErrorRun(message: string): Run {
    Run(RunError, Some(1), Some(JObject(map["status" := JText("ERROR"), "complete" := JBool(false),
                                            "message" := JText(message)])))
  }

  /** Its end with a verdict: a timeout exits with two. */
  function VerdictRun(v: Existence.Verdict): Run {
    Run(if v.Timeout? then RunError else RunOk, Some(if v.Timeout? then 2 else 0), Some(VerdictJson(v)))
  }

  predicate LengthsAllowed(lengths: seq<int>) {
    lengths != [] && forall i :: 0 <= i < |lengths| ==> 3 <= lengths[i] <= 128
  }

  /** The exit code belongs to what is printed: 1 to an error, 2 to a timeout, 0 to an answer. */
  predicate ExitMatches(run: Run) {
    && run.stdout.Some? && run.stdout.value.JObject?
    && var status := StatusOf(run.stdout.value.fields);
       || (status == JText("ERROR") && run.status == RunError && run.returncode == Some(1))
       || (status == JText("TIMEOUT") && run.status == RunError && run.returncode == Some(2))
       || (status in {JText("FOUND"), JText("ABSENT")} && run.status == RunOk && run.returncode == Some(0))
  }

  lemma VerdictExits(v: Existence.Verdict)
    ensures ExitMatches(VerdictRun(v))
  {
  }

  lemma ErrorExits(message: string)
    ensures ExitMatches(ErrorRun(message))
  {
  }

  /** What a run of the checker comes to on a line of text, under given clocks. */
  ghost predicate Ran(line: Graph6.Bytes, lengths: seq<int>, timed: bool, clocks: nat -> nat -> bool, run: Run) {
    if !LengthsAllowed(lengths) || Graph6Parsers.CheckerFault(Graph6Parsers.CheckerText(line)) != None
    then exists message :: run == ErrorRun(message)
    else exists g, v :: Graph6Parsers.CheckerReads(line, g)
                        && Existence.VerdictHolds(g, lengths, timed, clocks, v) && run == VerdictRun(v)
  }

  lemma ErrorRan(line: Graph6.Bytes, lengths: seq<int>, timed: bool, clocks: nat -> nat -> bool, message: string)
    requires !LengthsAllowed(lengths)
    ensures Ran(line, lengths, timed, clocks, ErrorRun(message))
  {
    hide Graph6Parsers.CheckerReads, Graph6Parsers.CheckerFault, Graph6Parsers.CheckerText, LengthsAllowed;
  }

  /** The checker from its arguments to its exit: the lengths are checked, the line parsed, each length searched. */
  method RunChecker(line: Graph6.Bytes, lengths: seq<int>, timed: bool, clocks: nat -> nat -> bool,
                    wording: Graph6Parsers.ParseError -> string) returns (run: Run)
    ensures Ran(line, lengths, timed, clocks, run)
    ensures ExitMatches(run)
  {
    hide Existence.VerdictHolds, Graph6Parsers.CheckerReads, Graph6Parsers.CheckerFault, Graph6Parsers.CheckerText,
         ExitMatches, ErrorRun, VerdictRun;
    if lengths == [] {
      var message := "--graph6 and at least one --length are required";
      ErrorRan(line, lengths, timed, clocks, message);
      ErrorExits(message);
      return ErrorRun(message);
    }
    var i := 0;
    while i < |lengths|
      invariant 0 <= i <= |lengths| && forall j :: 0 <= j < i ==> 3 <= lengths[j] <= 128
    {
      if lengths[i] < 3 || lengths[i] > 128 {
        var message := "--length must be between 3 and 128";
        ErrorExits(message);
        return ErrorRun(message);
      }
      i := i + 1;
    }
    var parsed := Graph6Parsers.ParseGraph6(line);
    if parsed.Err? {
      ErrorExits(wording(parsed.error));
      return ErrorRun(wording(parsed.error));
    }
    var v := Existence.CheckLengths(parsed.value, lengths, timed, clocks);
    VerdictExits(v);
    run := VerdictRun(v);
  }

  lemma ErrorReported(g: Graph, lengths: seq<int>, message: string, memoryLimited: bool, mentionsAlloc: Json -> bool)
    ensures ReportStatus(g, lengths, true, ErrorRun(message), memoryLimited, mentionsAlloc) in {"ERROR", "TOOL_FAILURE"}
  {
    hide CheckFound, CheckAbsent;
    var p := ErrorRun(message).stdout.value.fields;
    assert Field(p, "status") == JText("ERROR") && Field(p, "complete") == JBool(false);
  }

  lemma TimeoutReported(g: Graph, lengths: seq<int>, k: int, memoryLimited: bool, mentionsAlloc: Json -> bool)
    ensures ReportStatus(g, lengths, true, VerdictRun(Existence.Timeout(k)), memoryLimited, mentionsAlloc)
         == "UNKNOWN_TIMEOUT"
  {
    hide CheckFound, CheckAbsent;
    var p := VerdictRun(Existence.Timeout(k)).stdout.value.fields;
    assert Field(p, "status") == JText("TIMEOUT") && Field(p, "complete") == JBool(false);
  }

  lemma ErrorDecides(g: Graph, message: string, memoryLimited: bool, mentionsAlloc: Json -> bool, c: Certificate)
    requires Decided(g, Finished, true, ErrorRun(message), memoryLimited, mentionsAlloc, c)
    ensures c == if Admissible(g) then ToolFailure else InvalidCandidate
  {
    var run := ErrorRun(message);
    var lengths: seq<int>, reference :|
      && ListsForbidden(g, lengths) && Reports(g, Finished, memoryLimited, reference)
      && c == Decide(reference, JText(ReportStatus(g, lengths, true, run, memoryLimited, mentionsAlloc)));
    ErrorReported(g, lengths, message, memoryLimited, mentionsAlloc);
    DecisionMeaning(reference, ReportStatus(g, lengths, true, run, memoryLimited, mentionsAlloc));
    hide ReportStatus, ErrorRun, Decide, Admissible, ListsForbidden;
  }

  lemma TimeoutDecides(g: Graph, k: int, memoryLimited: bool, mentionsAlloc: Json -> bool, c: Certificate)
    requires Decided(g, Finished, true, VerdictRun(Existence.Timeout(k)), memoryLimited, mentionsAlloc, c)
    ensures c == if Admissible(g) then UnknownTimeout else InvalidCandidate
  {
    var run := VerdictRun(Existence.Timeout(k));
    var lengths: seq<int>, reference :|
      && ListsForbidden(g, lengths) && Reports(g, Finished, memoryLimited, reference)
      && c == Decide(reference, JText(ReportStatus(g, lengths, true, run, memoryLimited, mentionsAlloc)));
    TimeoutReported(g, lengths, k, memoryLimited, mentionsAlloc);
    DecisionMeaning(reference, ReportStatus(g, lengths, true, run, memoryLimited, mentionsAlloc));
    hide ReportStatus, VerdictRun, Decide, Admissible, ListsForbidden;
  }

  /** What a graph's certificate is when nothing fails but possibly the clocks: exact unless one of them is late
      before a forbidden cycle is found. */
  ghost predicate FaultFree(g: Graph, lengths: seq<int>, timed: bool, clocks: nat -> nat -> bool,
                            r: Result<Certificate, CertifyError>)
  {
    if g.n < 4 then r == Err(NoLengths)
    else if g.n > Graph6.LARGEST then r == Err(TooManyVertices)
    else if !Admissible(g) then r == Ok(InvalidCandidate)
    else if g.n > 128 then r == Ok(ToolFailure)
    else if Existence.TimesOut(g, lengths, timed, clocks) then r == Ok(UnknownTimeout)
    else r == Ok(if Counterexample(g) then CounterexampleVerified else InvalidCandidate)
  }

  /** Clocks that never expire, or none at all, leave an exact certificate of every graph the checker can read. */
  lemma PunctualIsExact(g: Graph, lengths: seq<int>, timed: bool, clocks: nat -> nat -> bool,
                        r: Result<Certificate, CertifyError>)
    requires FaultFree(g, lengths, timed, clocks, r) && 4 <= g.n <= 128
    requires !timed || forall i, k: nat :: 0 <= i < |lengths| && k > 0 && k % 1024 == 0 ==> !clocks(i)(k)
    ensures r == Ok(if Counterexample(g) then CounterexampleVerified else InvalidCandidate)
  {
    CounterexampleAdmissible(g);
    hide Admissible, Counterexample;
    forall i | 0 <= i < |lengths|
      ensures !Existence.Late(g, lengths[i], timed, clocks(i))
    {
    }
  }

  lemma LineReaches(g: Graph)
    requires g.n <= Graph6.LARGEST
    ensures var line := Graph6.EncodeBytes(g);
      && (g.n <= 128 ==> Graph6Parsers.CheckerReads(line, g)
                         && forall h :: Graph6Parsers.CheckerReads(line, h) ==> h == g)
      && (g.n > 128 ==> Graph6Parsers.CheckerFault(Graph6Parsers.CheckerText(line)) != None)
  {
    var line := Graph6.EncodeBytes(g);
    hide Graph6Parsers.LabFault, Graph6Parsers.CheckerFault, Graph6Parsers.CheckerText, Graph6Parsers.LabText,
         Graph6Parsers.Describes, Graph6Parsers.ParseOrder, Graph6Parsers.CheckerReads, Graph6Parsers.AllInRange,
         Graph6.EncodeBytes;
    Graph6Parsers.RoundTrip(g);
    Graph6Parsers.CheckerIsStricter(line);
    if g.n <= 128 {
      Graph6Parsers.WrittenGraphReachesChecker(g);
      forall h | Graph6Parsers.CheckerReads(line, h)
        ensures h == g
      {
        Graph6Parsers.ReadersAgree(line, h, g);
      }
    }
  }

  /** What the checker's run on a graph's own line can be. */
  ghost predicate RunOn(g: Graph, lengths: seq<int>, timed: bool, clocks: nat -> nat -> bool, run: Run) {
    if g.n > 128 then exists message :: run == ErrorRun(message)
    else if Existence.TimesOut(g, lengths, timed, clocks) then exists k :: run == VerdictRun(Existence.Timeout(k))
    else HonestRun(g, true, run)
  }

  lemma RunMeans(g: Graph, lengths: seq<int>, timed: bool, clocks: nat -> nat -> bool, run: Run)
    requires 4 <= g.n <= Graph6.LARGEST && ListsForbidden(g, lengths) && lengths != []
    requires Ran(Graph6.EncodeBytes(g), lengths, timed, clocks, run)
    ensures RunOn(g, lengths, timed, clocks, run) && NeverRaises(true, run)
  {
    hide Graph6Parsers.CheckerReads, Graph6Parsers.CheckerFault, Graph6Parsers.CheckerText, Graph6.EncodeBytes,
         Existence.VerdictHolds, Existence.VerdictTrue, Existence.TimesOut;
    LineReaches(g);
    if g.n <= 128 {
      ReadHasNoFault(Graph6.EncodeBytes(g), g);
      ForbiddenAllowed(g, lengths);
      var h, v :| Graph6Parsers.CheckerReads(Graph6.EncodeBytes(g), h)
                  && Existence.VerdictHolds(h, lengths, timed, clocks, v) && run == VerdictRun(v);
      Existence.TimeoutIff(g, lengths, timed, clocks, v);
      if !v.Timeout? {
        Existence.ExactIsTrue(g, lengths, timed, clocks, v);
      } else {
        assert v == Existence.Timeout(v.length);
      }
    }
  }

  lemma ForbiddenAllowed(g: Graph, lengths: seq<int>)
    requires g.n <= 128 && ListsForbidden(g, lengths) && lengths != []
    ensures LengthsAllowed(lengths)
  {
    forall i | 0 <= i < |lengths|
      ensures 3 <= lengths[i] <= 128
    {
      assert ForbiddenLength(g.n, lengths[i]) by {
        assert lengths[i] in lengths;
      }
    }
  }

  lemma ReadHasNoFault(line: Graph6.Bytes, g: Graph)
    requires Graph6Parsers.CheckerReads(line, g)
    ensures Graph6Parsers.CheckerFault(Graph6Parsers.CheckerText(line)) == None
  {
    hide Graph6Parsers.CheckerFault, Graph6Parsers.CheckerText;
  }

  lemma RunDecides(g: Graph, lengths: seq<int>, timed: bool, clocks: nat -> nat -> bool, run: Run,
                   memoryLimited: bool, mentionsAlloc: Json -> bool, r: Result<Certificate, CertifyError>)
    requires 4 <= g.n <= Graph6.LARGEST && RunOn(g, lengths, timed, clocks, run) && r.Ok?
    requires Decided(g, Finished, true, run, memoryLimited, mentionsAlloc, r.value)
    requires HonestRun(g, true, run) ==>
               r.value == if Counterexample(g) then CounterexampleVerified else InvalidCandidate
    ensures FaultFree(g, lengths, timed, clocks, r)
  {
    CounterexampleAdmissible(g);
    hide Decided, HonestRun, Admissible, Counterexample, Existence.TimesOut;
    if g.n > 128 {
      var message :| run == ErrorRun(message);
      ErrorDecides(g, message, memoryLimited, mentionsAlloc, r.value);
    } else if Existence.TimesOut(g, lengths, timed, clocks) {
      var k :| run == VerdictRun(Existence.Timeout(k));
      TimeoutDecides(g, k, memoryLimited, mentionsAlloc, r.value);
    }
  }

  lemma CounterexampleAdmissible(g: Graph)
    ensures Counterexample(g) ==> Admissible(g)
  {
  }

  lemma {:induction false} SameIncreasing(a: seq<int>, b: seq<int>)
    requires IncreasingInts(a) && IncreasingInts(b) && forall k :: k in a <==> k in b
    ensures a == b
  {
    assert |a| > 0 ==> a[0] in a;
    assert |b| > 0 ==> b[0] in b;
    if a != [] && b != [] {
      assert a[0] in b && b[0] in a;
      assert a[0] == b[0];
      forall k
        ensures k in a[1..] <==> k in b[1..]
      {
        assert k in a <==> k == a[0] || k in a[1..];
        assert k in b <==> k == b[0] || k in b[1..];
      }
      SameIncreasing(a[1..], b[1..]);
    }
  }

  /** The certificate of a graph from end to end, when nothing fails but the checker's own clock: encoded, read
      and searched by the checker, validated, and decided together with the reference verifier. The i-th clock is
      that of the i-th forbidden length. */
  method CertifyGraph(g: Graph, timed: bool, clocks: nat -> nat -> bool,
                      wording: Graph6Parsers.ParseError -> string, memoryLimited: bool, mentionsAlloc: Json -> bool)
    returns (r: Result<Certificate, CertifyError>)
    ensures forall lengths: seq<int> :: ListsForbidden(g, lengths) && IncreasingInts(lengths) ==>
              FaultFree(g, lengths, timed, clocks, r)
    ensures 4 <= g.n <= 128 && (!timed || forall i, k: nat :: k > 0 && k % 1024 == 0 ==> !clocks(i)(k)) ==>
              r == Ok(if Counterexample(g) then CounterexampleVerified else InvalidCandidate)
  {
    hide CheckPayload, Counterexample, StatusHolds, HonestRun, Decided, Ran, Admissible, RunOn, FaultFree;
    var lengths := ForbiddenLengths(g.n);
    forall others: seq<int> | ListsForbidden(g, others) && IncreasingInts(others)
      ensures others == lengths
    {
      SameIncreasing(others, lengths);
    }
    if lengths == [] {
      r := Err(NoLengths);
      SmallIsFaultFree(g, lengths, timed, clocks, r);
      return;
    }
    var encoded := Graph6.EncodeGraph6(g);
    if encoded.Err? {
      r := Err(TooManyVertices);
      SmallIsFaultFree(g, lengths, timed, clocks, r);
      return;
    }
    var run := RunChecker(encoded.value, lengths, timed, clocks, wording);
    RunMeans(g, lengths, timed, clocks, run);
    r := Certify(g, Finished, true, run, memoryLimited, mentionsAlloc);
    RunDecides(g, lengths, timed, clocks, run, memoryLimited, mentionsAlloc, r);
    if 4 <= g.n <= 128 && (!timed || forall i, k: nat :: k > 0 && k % 1024 == 0 ==> !clocks(i)(k)) {
      PunctualIsExact(g, lengths, timed, clocks, r);
    }
  }

  lemma SmallIsFaultFree(g: Graph, lengths: seq<int>, timed: bool, clocks: nat -> nat -> bool,
                         r: Result<Certificate, CertifyError>)
    requires if g.n < 4 then r == Err(NoLengths) else g.n > Graph6.LARGEST && r == Err(TooManyVertices)
    ensures FaultFree(g, lengths, timed, clocks, r)
  {
  }
}
