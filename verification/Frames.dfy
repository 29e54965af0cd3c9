/** The binary request frame between the lab and the score worker: packed little-endian on one side through a
    cached plan, read field by field from a stream on the other. */
module Frames {
  import opened Outcomes
  import opened Collections
  import opened Graphs
  import Scoring

  type Bytes = seq<nat>

  const MAXIMUM_FRAME_BYTES := 65536
  const MAGIC: Bytes := [83, 71, 83, 67]

  // ---------- little-endian fields ----------

  function Pow256(k: nat): (p: nat)
    ensures p > 0
  {
    if k == 0 then 1 else 256 * Pow256(k - 1)
  }

  function Little(x: nat, k: nat): (b: Bytes)
    ensures |b| == k
  {
    if k == 0 then [] else [x % 256] + Little(x / 256, k - 1)
  }

  function Value(b: Bytes): nat {
    if b == [] then 0 else b[0] + 256 * Value(b[1..])
  }

  lemma {:induction false} LittleValue(x: nat, k: nat)
    requires x < Pow256(k)
    ensures Value(Little(x, k)) == x
  {
    if k > 0 {
      LittleValue(x / 256, k - 1);
      assert Little(x, k)[1..] == Little(x / 256, k - 1);
    }
  }

  datatype Field = Field(width: nat, value: nat)

  predicate Fit(fields: seq<Field>) {
    forall i :: 0 <= i < |fields| ==> fields[i].value < Pow256(fields[i].width)
  }

  function PackAll(fields: seq<Field>): Bytes {
    if fields == [] then [] else Little(fields[0].value, fields[0].width) + PackAll(fields[1..])
  }

  function Widths(fields: seq<Field>): (w: seq<nat>)
    ensures |w| == |fields| && forall i :: 0 <= i < |w| ==> w[i] == fields[i].width
  {
    seq(|fields|, i requires 0 <= i < |fields| => fields[i].width)
  }

  function Values(fields: seq<Field>): (v: seq<nat>)
    ensures |v| == |fields| && forall i :: 0 <= i < |v| ==> v[i] == fields[i].value
  {
    seq(|fields|, i requires 0 <= i < |fields| => fields[i].value)
  }

  function ReadAll(widths: seq<nat>, s: Bytes): (r: Option<(seq<nat>, Bytes)>)
    ensures r.Some? ==> |r.value.0| == |widths|
  {
    if widths == [] then Some(([], s))
    else if |s| < widths[0] then None
    else match ReadAll(widths[1..], s[widths[0]..])
      case None => None
      case Some((values, rest)) => Some(([Value(s[..widths[0]])] + values, rest))
  }

  lemma ReadOne(w: nat, widths: seq<nat>, head: Bytes, tail: Bytes)
    requires |head| == w && ReadAll(widths, tail).Some?
    ensures ReadAll([w] + widths, head + tail)
         == Some(([Value(head)] + ReadAll(widths, tail).value.0, ReadAll(widths, tail).value.1))
  {
  }

  lemma PackAllHead(fields: seq<Field>)
    requires fields != []
    ensures PackAll(fields) == Little(fields[0].value, fields[0].width) + PackAll(fields[1..])
  {
  }

  lemma NoFields()
    ensures PackAll([]) == [] && forall s :: ReadAll([], s) == Some(([], s))
  {
  }

  lemma FieldsHead(fields: seq<Field>)
    requires fields != []
    ensures Values(fields) == [fields[0].value] + Values(fields[1..])
    ensures Widths(fields) == [fields[0].width] + Widths(fields[1..])
    ensures Fit(fields) ==> fields[0].value < Pow256(fields[0].width) && Fit(fields[1..])
  {
    hide Pow256;
  }

  /** Reading the widths of a packed record gives its values back and stops after it. */
  lemma {:induction false} ReadBack(fields: seq<Field>, rest: Bytes)
    requires Fit(fields)
    ensures ReadAll(Widths(fields), PackAll(fields) + rest) == Some((Values(fields), rest))
  {
    hide *;
    if fields == [] {
      NoFields();
      assert PackAll(fields) + rest == rest;
    } else {
      var head, tail := Little(fields[0].value, fields[0].width), fields[1..];
      FieldsHead(fields);
      PackAllHead(fields);
      LittleValue(fields[0].value, fields[0].width);
      ReadBack(tail, rest);
      ReadOne(fields[0].width, Widths(tail), head, PackAll(tail) + rest);
      Regroup(head, PackAll(tail), rest);
    }
  }

  lemma {:induction false} PackAllConcat(a: seq<Field>, b: seq<Field>)
    ensures PackAll(a + b) == PackAll(a) + PackAll(b)
  {
    hide Little, PackAll;
    if a == [] {
      NoFields();
      assert a + b == b;
    } else {
      PackAllConcat(a[1..], b);
      PackAllHead(a);
      PackAllHead(a + b);
      assert (a + b)[1..] == a[1..] + b;
    }
  }

  lemma {:induction false} PackAllSize(fields: seq<Field>, width: nat)
    requires forall i :: 0 <= i < |fields| ==> fields[i].width == width
    ensures |PackAll(fields)| == |fields| * width
  {
    if fields != [] {
      PackAllSize(fields[1..], width);
      assert |fields| * width == (|fields| - 1) * width + width;
    }
  }

  function SumOf(widths: seq<nat>): nat {
    if widths == [] then 0 else widths[0] + SumOf(widths[1..])
  }

  lemma {:induction false} PackAllTotal(fields: seq<Field>)
    ensures |PackAll(fields)| == SumOf(Widths(fields))
  {
    if fields != [] {
      PackAllHead(fields);
      FieldsHead(fields);
      PackAllTotal(fields[1..]);
      assert Widths(fields)[1..] == Widths(fields[1..]);
    }
  }

  // ---------- a row as machine words ----------

  /** k bits of a row from place lo on, as a number. */
  function Word(row: set<nat>, lo: nat, k: nat): nat
    decreases k
  {
    if k == 0 then 0 else (if lo in row then 1 else 0) + 2 * Word(row, lo + 1, k - 1)
  }

  function RowOf(word: nat, lo: nat, k: nat): set<nat>
    decreases k
  {
    if k == 0 then {} else (if word % 2 == 1 then {lo} else {}) + RowOf(word / 2, lo + 1, k - 1)
  }

  lemma {:induction false} WordBounded(row: set<nat>, lo: nat, k: nat)
    ensures Word(row, lo, k) < Pow2(k)
    decreases k
  {
    if k > 0 {
      WordBounded(row, lo + 1, k - 1);
    }
  }

  lemma {:induction false} WordRow(row: set<nat>, lo: nat, k: nat)
    ensures forall x :: x in RowOf(Word(row, lo, k), lo, k) <==> x in row && lo <= x < lo + k
    decreases k
  {
    if k > 0 {
      WordRow(row, lo + 1, k - 1);
      var w := Word(row, lo + 1, k - 1);
      assert Word(row, lo, k) / 2 == w;
    }
  }

  lemma WordFits(row: set<nat>, lo: nat)
    ensures Word(row, lo, 64) < Pow256(8)
  {
    WordBounded(row, lo, 64);
    PowersAgree(8);
  }

  lemma {:induction false} PowersAgree(k: nat)
    ensures Pow2(8 * k) == Pow256(k)
  {
    if k > 0 {
      PowersAgree(k - 1);
      var m := 8 * (k - 1);
      assert Pow2(m + 4) == 16 * Pow2(m) by {
        assert Pow2(m + 2) == 4 * Pow2(m);
      }
      assert Pow2(m + 8) == 16 * Pow2(m + 4) by {
        assert Pow2(m + 6) == 4 * Pow2(m + 4);
      }
    }
  }

  // ---------- the frame ----------

  const PREFIX_WIDTHS := [2, 2, 4]
  const BODY_WIDTHS := [8, 2, 2, 4, 4, 4, 4, 4, 4, 4, 2, 2]

  function WordCount(n: nat): nat {
    (n + 63) / 64
  }

  function PayloadSize(n: nat, lengths: nat): nat {
    lengths * 2 + n * WordCount(n) * 8
  }

  function PrefixFields(command: nat, payload: nat): seq<Field> {
    [Field(2, 2), Field(2, command), Field(4, payload)]
  }

  function BodyFields(id: nat, n: nat, q: Scoring.Request): seq<Field> {
    [Field(8, id), Field(2, n), Field(2, WordCount(n)), Field(4, q.limit), Field(4, q.nodeBudget), Field(4, q.flags),
     Field(4, q.cutoffTotal), Field(4, q.cutoffWeighted), Field(4, q.cutoffSimplicity),
     Field(4, if q.cutoffInclusive then 1 else 0), Field(2, |q.lengths|), Field(2, 0)]
  }

  function LengthFields(lengths: seq<nat>): (f: seq<Field>)
    ensures |f| == |lengths|
  {
    seq(|lengths|, i requires 0 <= i < |lengths| => Field(2, lengths[i]))
  }

  function RowFields(rows: seq<set<nat>>, words: nat): seq<Field> {
    if rows == [] then []
    else [Field(8, Word(rows[0], 0, 64))] + (if words == 2 then [Field(8, Word(rows[0], 64, 64))] else [])
         + RowFields(rows[1..], words)
  }

  function Zeros(k: nat): (z: Bytes)
    ensures |z| == k
  {
    seq(k, _ => 0)
  }

  function RowStep(words: nat): nat {
    if words == 2 then 16 else 8
  }

  /** Lengths, then rows of one or two words; the rest of the announced size stays zero. */
  function Payload(n: nat, rows: seq<set<nat>>, lengths: seq<nat>): Bytes
    requires |rows| == n
  {
    PackAll(LengthFields(lengths)) + PackAll(RowFields(rows, WordCount(n)))
    + Zeros(if PayloadSize(n, |lengths|) < 2 * |lengths| + RowStep(WordCount(n)) * n then 0
            else PayloadSize(n, |lengths|) - 2 * |lengths| - RowStep(WordCount(n)) * n)
  }

  function Frame(id: nat, g: Graph, q: Scoring.Request): Bytes {
    MAGIC + PackAll(PrefixFields(1, PayloadSize(g.n, |q.lengths|))) + PackAll(BodyFields(id, g.n, q))
    + Payload(g.n, g.rows, q.lengths)
  }

  // ---------- the lab's side ----------

  datatype Call = Call(lengths: seq<int>, limit: int, nodeBudget: int, cutoff: Option<(int, int, int)>,
                       inclusive: bool, compact: bool)

  datatype CallError =
    | BoundsNotPositive | BadLengths | CompactWithoutCutoff | FieldTooLarge | Oversized
    | WorkerUnavailable | WorkerExited

  /** The worker process, as the lab sees it. */
  datatype Process = NotStarted | Alive | Exited

  datatype Key = Key(n: nat, lengths: seq<int>, limit: int, nodeBudget: int, cutoffEnabled: bool, inclusive: bool,
                     compact: bool, longestFirst: bool)

  datatype Plan = Plan(key: Key, words: nat, lengthBytes: nat, payloadBytes: nat, packedLengths: Bytes, prefix: Bytes)

  predicate GoodLengths(n: nat, lengths: seq<int>) {
    && |lengths| <= 64
    && (forall i :: 0 <= i < |lengths| ==> 3 <= lengths[i] <= n)
    && (forall i, j :: 0 <= i < j < |lengths| ==> lengths[i] < lengths[j])
  }

  function KeyOf(n: nat, call: Call, longestFirst: bool): Key {
    Key(n, call.lengths, call.limit, call.nodeBudget, call.cutoff.Some?, call.inclusive, call.compact, longestFirst)
  }

  function Naturals(s: seq<int>): (r: seq<nat>)
    requires forall i :: 0 <= i < |s| ==> s[i] >= 0
    ensures |r| == |s| && forall i :: 0 <= i < |s| ==> r[i] == s[i]
  {
    seq(|s|, i requires 0 <= i < |s| => s[i] as nat)
  }

  /** A length too wide for its field. */
  predicate HasWide(lengths: seq<int>) {
    exists i :: 0 <= i < |lengths| && lengths[i] >= 65536
  }

  /** The plan that is built when none is cached. */
  function FreshPlan(key: Key): Result<Plan, CallError> {
    if key.limit < 1 || key.nodeBudget < 1 then Err(BoundsNotPositive)
    else if !GoodLengths(key.n, key.lengths) then Err(BadLengths)
    else if key.compact && !key.cutoffEnabled then Err(CompactWithoutCutoff)
    else
      var size := PayloadSize(key.n, |key.lengths|);
      if HasWide(key.lengths) || size >= TWO32 then Err(FieldTooLarge)
      else Ok(Plan(key, WordCount(key.n), 2 * |key.lengths|, size, PackAll(LengthFields(Naturals(key.lengths))),
                   MAGIC + PackAll(PrefixFields(1, size))))
  }

  predicate Unsigned32(x: int) {
    0 <= x < TWO32
  }

  /** The fields of the body fit their widths. */
  predicate BodyPacks(id: nat, n: nat, call: Call) {
    && id < Pow256(8) && n < 65536
    && Unsigned32(call.limit) && Unsigned32(call.nodeBudget)
    && (call.cutoff.Some? ==> Unsigned32(call.cutoff.value.0) && Unsigned32(call.cutoff.value.1)
                              && Unsigned32(call.cutoff.value.2))
  }

  /** The request a call stands for. */
  function RequestOf(n: nat, call: Call, longestFirst: bool): Scoring.Request
    requires GoodLengths(n, call.lengths) && BodyPacks(0, n, call)
  {
    Scoring.Request(call.limit, call.nodeBudget,
                    if call.cutoff.Some? then 1 + (if longestFirst then 2 else 0) + (if call.compact then 4 else 0)
                    else 0,
                    if call.cutoff.Some? then call.cutoff.value.0 else 0,
                    if call.cutoff.Some? then call.cutoff.value.1 else 0,
                    if call.cutoff.Some? then call.cutoff.value.2 else 0,
                    call.inclusive, Naturals(call.lengths))
  }

  /** The request asks what the call asks. */
  lemma RequestFields(n: nat, call: Call, longestFirst: bool)
    requires GoodLengths(n, call.lengths) && BodyPacks(0, n, call)
    ensures var q := RequestOf(n, call, longestFirst);
      && q.limit == call.limit && q.nodeBudget == call.nodeBudget && q.lengths == Naturals(call.lengths)
      && (q.HasCutoff() <==> call.cutoff.Some?)
      && (q.LongestFirst() <==> call.cutoff.Some? && longestFirst)
      && (q.Compact() <==> call.cutoff.Some? && call.compact)
      && (call.cutoff.Some? ==>
            (q.cutoffTotal, q.cutoffWeighted, q.cutoffSimplicity) == call.cutoff.value
            && q.cutoffInclusive == call.inclusive)
  {
    hide Pow256, GoodLengths, BodyPacks;
    var longest, compact := if longestFirst then 2 else 0, if call.compact then 4 else 0;
    assert (1 + longest + compact) / 2 % 2 == 1 <==> longestFirst;
  }

  /** What stops a call before anything is written. */
  function CallFault(id: nat, n: nat, call: Call, longestFirst: bool): Option<CallError> {
    var plan := FreshPlan(KeyOf(n, call, longestFirst));
    if plan.Err? then Some(plan.error)
    else if !BodyPacks(id, n, call) then Some(FieldTooLarge)
    else if 56 + plan.value.payloadBytes > MAXIMUM_FRAME_BYTES then Some(Oversized)
    else None
  }

  /** What keeps a call from a process: it cannot be started, or it has already exited. */
  function LaunchFault(process: Process, starts: bool): Option<CallError> {
    if process == NotStarted && !starts then Some(WorkerUnavailable)
    else if process == Exited then Some(WorkerExited)
    else None
  }

  /** What stops a call: its plan, then the process, then packing. */
  function PackFault(process: Process, starts: bool, id: nat, n: nat, call: Call, longestFirst: bool)
    : Option<CallError>
  {
    var launch := LaunchFault(process, starts);
    if FreshPlan(KeyOf(n, call, longestFirst)).Ok? && launch.Some? then launch
    else CallFault(id, n, call, longestFirst)
  }

  /** Exactly which calls are sent. */
  lemma CallSentIff(process: Process, starts: bool, id: nat, n: nat, call: Call, longestFirst: bool)
    ensures PackFault(process, starts, id, n, call, longestFirst) == None <==>
              && (process == Alive || (process == NotStarted && starts))
              && id < 0x1_0000_0000_0000_0000
              && 1 <= call.limit < 0x1_0000_0000 && 1 <= call.nodeBudget < 0x1_0000_0000
              && |call.lengths| <= 64
              && (forall i :: 0 <= i < |call.lengths| ==> 3 <= call.lengths[i] <= n)
              && (forall i, j :: 0 <= i < j < |call.lengths| ==> call.lengths[i] < call.lengths[j])
              && (call.cutoff.None? ==> !call.compact)
              && (call.cutoff.Some? ==>
                    && 0 <= call.cutoff.value.0 < 0x1_0000_0000 && 0 <= call.cutoff.value.1 < 0x1_0000_0000
                    && 0 <= call.cutoff.value.2 < 0x1_0000_0000)
              && 56 + 2 * |call.lengths| + 8 * (n * ((n + 63) / 64)) <= 65536
  {
    assert Pow256(8) == 0x1_0000_0000_0000_0000 by {
      assert Pow256(2) == 65536;
      assert Pow256(4) == 65536 * Pow256(2);
      assert Pow256(6) == 65536 * Pow256(4);
    }
    hide PackAll, LengthFields, PrefixFields, Pow256, WordCount, PayloadSize, GoodLengths, HasWide;
    RoomOfCall(n, |call.lengths|);
    LengthsOfSent(n, call);
  }

  lemma RoomOfCall(n: nat, count: nat)
    ensures PayloadSize(n, count) == 2 * count + 8 * (n * ((n + 63) / 64))
    ensures 56 + PayloadSize(n, count) <= MAXIMUM_FRAME_BYTES ==> n < 65536 && PayloadSize(n, count) < TWO32
  {
    var words := (n + 63) / 64;
    if n >= 65536 {
      MultiplyMonotone(1, words, n);
    }
  }

  lemma LengthsOfSent(n: nat, call: Call)
    ensures GoodLengths(n, call.lengths) <==>
              && |call.lengths| <= 64
              && (forall i :: 0 <= i < |call.lengths| ==> 3 <= call.lengths[i] <= n)
              && (forall i, j :: 0 <= i < j < |call.lengths| ==> call.lengths[i] < call.lengths[j])
    ensures GoodLengths(n, call.lengths) && n < 65536 ==> !HasWide(call.lengths)
  {
  }

  class Worker {
    var process: Process
    var longestFirst: bool
    var cacheEnabled: bool
    var plan: Option<Plan>
    var requestId: nat

    /** Whatever is cached is what would be built for its own key. */
    predicate Valid()
      reads this
    {
      plan.Some? ==> FreshPlan(plan.value.key) == Ok(plan.value)
    }

    constructor (longestFirst: bool, cacheEnabled: bool)
      ensures Valid() && requestId == 0 && process == NotStarted
    {
      this.process := NotStarted;
      this.longestFirst, this.cacheEnabled, this.plan, this.requestId := longestFirst, cacheEnabled, None, 0;
    }

    /** The cached plan never differs from a fresh one, whatever was called or switched before. */
    method PreparePlan(n: nat, call: Call) returns (r: Result<Plan, CallError>)
      requires Valid()
      modifies this`plan
      ensures Valid()
      ensures r == FreshPlan(KeyOf(n, call, longestFirst))
      ensures plan == if cacheEnabled && r.Ok? then Some(r.value) else old(plan)
    {
      hide HasWide, PackAll, LengthFields, PrefixFields, WordCount;
      var key := KeyOf(n, call, longestFirst);
      if cacheEnabled && plan.Some? && plan.value.key == key {
        return Ok(plan.value);
      }
      if call.limit < 1 || call.nodeBudget < 1 {
        return Err(BoundsNotPositive);
      }
      if !GoodLengths(n, call.lengths) {
        return Err(BadLengths);
      }
      if call.compact && call.cutoff.None? {
        return Err(CompactWithoutCutoff);
      }
      var words := WordCount(n);
      var lengthBytes := |call.lengths| * 2;
      var payloadBytes := lengthBytes + n * words * 8;
      if HasWide(call.lengths) || payloadBytes >= TWO32 {
        return Err(FieldTooLarge);
      }
      var built := Plan(key, words, lengthBytes, payloadBytes, PackAll(LengthFields(Naturals(call.lengths))),
                        MAGIC + PackAll(PrefixFields(1, payloadBytes)));
      if cacheEnabled {
        plan := Some(built);
      }
      r := Ok(built);
    }

    /** Makes sure of a process: starts one when there is none, and refuses one that has exited. */
    method Launch(starts: bool) returns (fault: Option<CallError>)
      modifies this`process
      ensures fault == LaunchFault(old(process), starts)
      ensures process == if fault == None then Alive else old(process)
    {
      if process == NotStarted {
        if !starts {
          return Some(WorkerUnavailable);
        }
        process := Alive;
      } else if process == Exited {
        return Some(WorkerExited);
      }
      fault := None;
    }

    /** The bytes of a prepared request under a given number. */
    method Compose(g: Graph, call: Call, id: nat, plan: Plan) returns (r: Result<Bytes, CallError>)
      requires FreshPlan(KeyOf(g.n, call, longestFirst)) == Ok(plan)
      ensures var fault := CallFault(id, g.n, call, longestFirst);
              (r.Err? <==> fault != None) && (r.Err? ==> fault == Some(r.error))
      ensures r.Ok? ==> BodyPacks(id, g.n, call) && GoodLengths(g.n, call.lengths)
                        && r.value == Frame(id, g, RequestOf(g.n, call, longestFirst))
    {
      hide PackAll, PrefixFields, BodyFields, Payload, LengthFields, PayloadSize, Pow256, BodyPacks;
      FreshPlanIs(KeyOf(g.n, call, longestFirst));
      hide FreshPlan;
      var payload := PackPayload(g, plan, Naturals(call.lengths));
      if !BodyPacks(id, g.n, call) {
        return Err(FieldTooLarge);
      }
      BodyPacksAny(id, g.n, call);
      var q := RequestOf(g.n, call, longestFirst);
      var request := plan.prefix + PackAll(BodyFields(id, g.n, q)) + payload;
      FrameSize(id, g.n, q, plan.payloadBytes);
      if |request| > MAXIMUM_FRAME_BYTES {
        return Err(Oversized);
      }
      r := Ok(request);
    }

    /** Packs one request: the frame of the graph and the request the call stands for, under a new number. The
        process is started when there is none. */
    method Pack(g: Graph, call: Call, starts: bool) returns (r: Result<Bytes, CallError>)
      requires Valid()
      modifies this`plan, this`requestId, this`process
      ensures Valid()
      ensures var fault := PackFault(old(process), starts, old(requestId) + 1, g.n, call, longestFirst);
              (r.Err? <==> fault != None) && (r.Err? ==> fault == Some(r.error))
      ensures r.Ok? ==> BodyPacks(requestId, g.n, call) && GoodLengths(g.n, call.lengths)
                        && r.value == Frame(requestId, g, RequestOf(g.n, call, longestFirst))
      ensures var launched := && FreshPlan(KeyOf(g.n, call, longestFirst)).Ok?
                              && LaunchFault(old(process), starts) == None;
              && requestId == old(requestId) + (if launched then 1 else 0)
              && process == if launched then Alive else old(process)
    {
      hide FreshPlan, CallFault, LaunchFault, Frame, RequestOf, BodyPacks, GoodLengths;
      var prepared := PreparePlan(g.n, call);
      if prepared.Err? {
        NoPlan(requestId + 1, g.n, call, longestFirst);
        return Err(prepared.error);
      }
      var fault := Launch(starts);
      if fault.Some? {
        return Err(fault.value);
      }
      requestId := requestId + 1;
      r := Compose(g, call, requestId, prepared.value);
    }
  }

  lemma NoPlan(id: nat, n: nat, call: Call, longestFirst: bool)
    ensures var plan := FreshPlan(KeyOf(n, call, longestFirst));
            plan.Err? ==> CallFault(id, n, call, longestFirst) == Some(plan.error)
  {
    hide FreshPlan;
  }

  lemma BodyPacksAny(id: nat, n: nat, call: Call)
    requires BodyPacks(id, n, call)
    ensures BodyPacks(0, n, call)
  {
    hide Pow256;
  }

  lemma FreshPlanIs(key: Key)
    ensures var r := FreshPlan(key);
            r.Ok? ==> (GoodLengths(key.n, key.lengths)
                       && r.value.words == WordCount(key.n) && r.value.lengthBytes == 2 * |key.lengths|
                       && r.value.payloadBytes == PayloadSize(key.n, |key.lengths|)
                       && r.value.packedLengths == PackAll(LengthFields(Naturals(key.lengths)))
                       && r.value.prefix == MAGIC + PackAll(PrefixFields(1, r.value.payloadBytes)))
  {
    hide PackAll, LengthFields, PrefixFields, PayloadSize;
  }

  lemma FrameSize(id: nat, n: nat, q: Scoring.Request, payload: nat)
    ensures |PackAll(BodyFields(id, n, q))| == 44
    ensures |PackAll(PrefixFields(1, payload))| == 8
  {
    BodySize(id, n, q);
    var prefix := PrefixFields(1, payload);
    hide PackAll;
    PackAllSize(prefix[..2], 2);
    PackAllSize(prefix[2..], 4);
    PackAllConcat(prefix[..2], prefix[2..]);
    assert prefix[..2] + prefix[2..] == prefix;
  }

  lemma BodySize(id: nat, n: nat, q: Scoring.Request)
    ensures |PackAll(BodyFields(id, n, q))| == 44
  {
    var body := BodyFields(id, n, q);
    hide PackAll;
    PackAllSize(body[..1], 8);
    PackAllSize(body[1..3], 2);
    PackAllSize(body[3..10], 4);
    PackAllSize(body[10..], 2);
    PackAllConcat(body[..1], body[1..3]);
    PackAllConcat(body[..3], body[3..10]);
    PackAllConcat(body[..10], body[10..]);
    assert body[..1] + body[1..3] == body[..3];
    assert body[..3] + body[3..10] == body[..10];
    assert body[..10] + body[10..] == body;
  }

  /** One word put into the buffer, the rest of it untouched. */
  method PutWord(buffer: array<nat>, offset: nat, word: nat)
    requires offset + 8 <= buffer.Length
    modifies buffer
    ensures buffer[..offset + 8] == old(buffer[..offset]) + Little(word, 8)
    ensures buffer[offset + 8..] == old(buffer[offset + 8..])
  {
    var bytes := Little(word, 8);
    forall i | 0 <= i < 8 {
      buffer[offset + i] := bytes[i];
    }
  }

  /** The bytes of one row. */
  function RowWords(row: set<nat>, words: nat): (b: Bytes)
    ensures |b| == RowStep(words)
  {
    Little(Word(row, 0, 64), 8) + if words == 2 then Little(Word(row, 64, 64), 8) else []
  }

  lemma RowFieldsHead(rows: seq<set<nat>>, words: nat)
    requires rows != []
    ensures PackAll(RowFields(rows, words)) == RowWords(rows[0], words) + PackAll(RowFields(rows[1..], words))
  {
  }

  method PutRow(buffer: array<nat>, offset: nat, row: set<nat>, words: nat)
    requires offset + RowStep(words) <= buffer.Length
    modifies buffer
    ensures buffer[..offset + RowStep(words)] == old(buffer[..offset]) + RowWords(row, words)
    ensures buffer[offset + RowStep(words)..] == old(buffer[offset + RowStep(words)..])
  {
    hide Word, Little;
    PutWord(buffer, offset, Word(row, 0, 64));
    if words == 2 {
      assert buffer[offset + 8..][8..] == buffer[offset + 16..];
      assert old(buffer[offset + 8..][8..]) == old(buffer[offset + 16..]);
      PutWord(buffer, offset + 8, Word(row, 64, 64));
    }
  }

  /** All rows, one after another from the offset on. */
  method PutRows(buffer: array<nat>, start: nat, rows: seq<set<nat>>, words: nat) returns (offset: nat)
    requires start + RowStep(words) * |rows| <= buffer.Length
    modifies buffer
    ensures offset == start + RowStep(words) * |rows|
    ensures buffer[..offset] == old(buffer[..start]) + PackAll(RowFields(rows, words))
    ensures buffer[offset..] == old(buffer[offset..])
  {
    hide PackAll, RowFields, RowWords, RowStep;
    ghost var whole, step := buffer[..start] + PackAll(RowFields(rows, words)), RowStep(words);
    ghost var before := buffer[..];
    var k := 0;
    offset := start;
    assert rows[0..] == rows;
    while k < |rows|
      invariant k <= |rows| && offset == start + step * k
      invariant offset + step * (|rows| - k) <= buffer.Length
      invariant buffer[..offset] + PackAll(RowFields(rows[k..], words)) == whole
      invariant buffer[offset..] == before[offset..]
    {
      RowFieldsHead(rows[k..], words);
      NextStep(words, k);
      NextStep(words, |rows| - k - 1);
      ghost var done := buffer[..offset];
      assert rows[k..][0] == rows[k] && rows[k..][1..] == rows[k + 1..];
      assert buffer[offset + step..] == buffer[offset..][step..] && before[offset + step..] == before[offset..][step..];
      PutRow(buffer, offset, rows[k], words);
      Regroup(done, RowWords(rows[k], words), PackAll(RowFields(rows[k + 1..], words)));
      offset := offset + RowStep(words);
      k := k + 1;
    }
    NoRows(words);
    assert rows[k..] == [];
  }

  method PackPayload(g: Graph, plan: Plan, ghost lengths: seq<nat>) returns (payload: Bytes)
    requires plan.words == WordCount(g.n) && plan.lengthBytes == 2 * |lengths|
    requires plan.payloadBytes == PayloadSize(g.n, |lengths|) && plan.packedLengths == PackAll(LengthFields(lengths))
    ensures payload == Payload(g.n, g.rows, lengths) && |payload| == plan.payloadBytes
  {
    var buffer := new nat[plan.payloadBytes](_ => 0);
    PackAllSize(LengthFields(lengths), 2);
    RoomForRows(g.n, |lengths|);
    hide PackAll, LengthFields, RowFields, WordCount, RowStep, PayloadSize;
    forall i | 0 <= i < plan.lengthBytes {
      buffer[i] := plan.packedLengths[i];
    }
    assert buffer[..plan.lengthBytes] == plan.packedLengths;
    var offset := PutRows(buffer, plan.lengthBytes, g.rows, plan.words);
    payload := buffer[..];
    assert payload == buffer[..offset] + buffer[offset..];
    assert buffer[offset..] == Zeros(buffer.Length - offset);
  }

  lemma Regroup(a: Bytes, b: Bytes, c: Bytes)
    ensures a + (b + c) == (a + b) + c
  {
  }

  lemma NextStep(words: nat, k: nat)
    ensures RowStep(words) * (k + 1) == RowStep(words) * k + RowStep(words)
  {
  }

  lemma NoRows(words: nat)
    ensures PackAll(RowFields([], words)) == []
  {
  }

  lemma RoomForRows(n: nat, lengths: nat)
    ensures 2 * lengths + RowStep(WordCount(n)) * n <= PayloadSize(n, lengths)
    ensures n <= 128 ==> 2 * lengths + RowStep(WordCount(n)) * n == PayloadSize(n, lengths)
  {
    var w, step := WordCount(n), RowStep(WordCount(n));
    if n > 0 {
      assert w >= 1 && step <= 8 * w;
      MultiplyMonotone(step, 8 * w, n);
    }
  }

  // ---------- the worker's side ----------

  /** A request as the worker holds it: its rows are bit words, not yet known to be a graph. */
  datatype Parsed = Parsed(id: nat, order: nat, q: Scoring.Request, rows: seq<set<nat>>)

  datatype Refusal =
    | EndOfStream | UnsupportedCommand | OrderOutOfRange | WrongWordCount | InvalidRequest | WrongPayloadSize
    | InvalidLengths

  /** The complaint made after the twelve body fields, if any. */
  function BodyFault(command: nat, payload: nat, f: seq<nat>): Option<Refusal>
    requires |f| == 12
  {
    if command != 1 then Some(UnsupportedCommand)
    else if f[1] < 4 || f[1] > 128 then Some(OrderOutOfRange)
    else if f[2] != WordCount(f[1]) then Some(WrongWordCount)
    else if f[3] < 2 || f[4] == 0 || f[5] >= 8 || (f[5] / 4 % 2 == 1 && f[5] % 2 == 0) || f[10] > 64 || f[11] != 0
    then Some(InvalidRequest)
    else if payload != f[10] * 2 + f[1] * f[2] * 8 || payload > MAXIMUM_FRAME_BYTES then Some(WrongPayloadSize)
    else None
  }

  /** Exactly which bodies are let through, and the refusal each other one meets. */
  lemma BodyFaultMeaning(command: nat, payload: nat, f: seq<nat>)
    requires |f| == 12
    ensures var ordered, words := 4 <= f[1] <= 128, f[2] == if f[1] <= 64 then 1 else 2;
      var allowed := f[3] >= 2 && f[4] >= 1 && f[5] in {0, 1, 2, 3, 5, 7} && f[10] <= 64 && f[11] == 0;
      && (BodyFault(command, payload, f) == Some(UnsupportedCommand) <==> command != 1)
      && (BodyFault(command, payload, f) == Some(OrderOutOfRange) <==> command == 1 && !ordered)
      && (BodyFault(command, payload, f) == Some(WrongWordCount) <==> command == 1 && ordered && !words)
      && (BodyFault(command, payload, f) == Some(InvalidRequest) <==> command == 1 && ordered && words && !allowed)
      && (BodyFault(command, payload, f) == None <==>
            command == 1 && ordered && words && allowed && payload == 2 * f[10] + 8 * f[1] * f[2])
  {
    if 4 <= f[1] <= 128 && f[2] == WordCount(f[1]) && f[10] <= 64 {
      assert WordCount(f[1]) == if f[1] <= 64 then 1 else 2;
      assert f[10] * 2 + f[1] * f[2] * 8 <= 4096;
    }
  }

  function ReadUnsigned(s: Bytes, width: nat): (Option<nat>, Bytes) {
    if |s| < width then (None, []) else (Some(Value(s[..width])), s[width..])
  }

  function ReadLengths(s: Bytes, count: nat, order: nat, got: seq<nat>): (Result<seq<nat>, Refusal>, Bytes)
    decreases count
  {
    if count == 0 then (Ok(got), s)
    else
      var (x, rest) := ReadUnsigned(s, 2);
      if x.None? then (Err(EndOfStream), rest)
      else if x.value < 3 || x.value > order || (got != [] && x.value <= got[|got| - 1])
      then (Err(InvalidLengths), rest)
      else ReadLengths(rest, count - 1, order, got + [x.value])
  }

  function ReadRow(s: Bytes, words: nat): (Option<set<nat>>, Bytes) {
    var (low, rest) := ReadUnsigned(s, 8);
    if low.None? then (None, rest)
    else if words != 2 then (Some(RowOf(low.value, 0, 64)), rest)
    else
      var (high, more) := ReadUnsigned(rest, 8);
      if high.None? then (None, more) else (Some(RowOf(low.value, 0, 64) + RowOf(high.value, 64, 64)), more)
  }

  function ReadRows(s: Bytes, count: nat, words: nat, got: seq<set<nat>>): (Result<seq<set<nat>>, Refusal>, Bytes)
    decreases count
  {
    if count == 0 then (Ok(got), s)
    else
      var (row, rest) := ReadRow(s, words);
      if row.None? then (Err(EndOfStream), rest) else ReadRows(rest, count - 1, words, got + [row.value])
  }

  function ParseRequest(command: nat, payload: nat, s: Bytes): (Result<Parsed, Refusal>, Bytes) {
    match ReadAll(BODY_WIDTHS, s)
    case None => (Err(EndOfStream), [])
    case Some((f, rest)) =>
      if BodyFault(command, payload, f).Some? then (Err(BodyFault(command, payload, f).value), rest)
      else
        var (lengths, more) := ReadLengths(rest, f[10], f[1], []);
        if lengths.Err? then (Err(lengths.error), more)
        else
          var (rows, last) := ReadRows(more, f[1], f[2], []);
          if rows.Err? then (Err(rows.error), last)
          else
            var q := Scoring.Request(f[3], f[4], f[5], f[6], f[7], f[8], f[9] != 0, lengths.value);
            (Ok(Parsed(f[0], f[1], q, rows.value)), last)
  }

  /** One turn of the serving loop on its input. */
  datatype Turn = Ended(code: nat) | Crashed | Refused(reason: Refusal) | Request(request: Parsed)

  function NextTurn(s: Bytes): (Turn, Bytes) {
    if s == [] then (Ended(0), [])
    else if |s| < 4 || s[..4] != MAGIC then (Ended(1), if |s| < 4 then [] else s[4..])
    else match ReadAll(PREFIX_WIDTHS, s[4..])
      case None => (Crashed, [])
      case Some((p, rest)) =>
        if p[0] != 2 || p[2] > MAXIMUM_FRAME_BYTES then (Ended(1), rest)
        else if p[1] == 2 then (Ended(if p[2] == 0 then 0 else 1), rest)
        else
          var (r, more) := ParseRequest(p[1], p[2], rest);
          (if r.Ok? then Request(r.value) else Refused(r.error), more)
  }

  lemma ReadFirst(widths: seq<nat>, s: Bytes)
    requires widths != []
    ensures ReadAll(widths, s).Some? <==> widths[0] <= |s| && ReadAll(widths[1..], s[widths[0]..]).Some?
    ensures ReadAll(widths, s).Some? ==>
              ReadAll(widths, s).value.0 == [Value(s[..widths[0]])] + ReadAll(widths[1..], s[widths[0]..]).value.0
  {
    hide Value;
  }

  lemma PrefixRead(s: Bytes)
    ensures ReadAll(PREFIX_WIDTHS, s).Some? <==> |s| >= 8
    ensures |s| >= 8 ==> ReadAll(PREFIX_WIDTHS, s).value.0 == [Value(s[..2]), Value(s[2..4]), Value(s[4..8])]
  {
    hide Value;
    var w := PREFIX_WIDTHS;
    assert w[1..] == [2, 4] && w[1..][1..] == [4] && w[1..][1..][1..] == [];
    assert forall t :: ReadAll([], t) == Some(([], t));
    hide ReadAll;
    ReadFirst(w, s);
    if |s| >= 2 {
      ReadFirst(w[1..], s[2..]);
      if |s| >= 4 {
        assert s[2..][..2] == s[2..4] && s[2..][2..] == s[4..];
        ReadFirst(w[1..][1..], s[4..]);
        assert |s| >= 8 ==> s[4..][..4] == s[4..8];
      }
    }
  }

  /** Exactly when the worker's turn ends the process cleanly: at the end of its input, or at a quit request of the
      right version with no payload. */
  lemma EndsCleanlyIff(s: Bytes)
    ensures NextTurn(s).0 == Ended(0) <==>
              s == [] || (|s| >= 12 && s[..4] == [83, 71, 83, 67] && Value(s[4..6]) == 2 && Value(s[6..8]) == 2
                          && Value(s[8..12]) == 0)
  {
    hide Value, ParseRequest, ReadAll;
    if |s| >= 4 {
      var t := s[4..];
      PrefixRead(t);
      assert |s| >= 12 ==> t[..2] == s[4..6] && t[2..4] == s[6..8] && t[4..8] == s[8..12];
    }
  }

  /** Values already read, put before what is read next. */
  function Resumed(values: seq<nat>, r: Option<(seq<nat>, Bytes)>): Option<(seq<nat>, Bytes)> {
    match r
    case None => None
    case Some((later, rest)) => Some((values + later, rest))
  }

  lemma ResumedEmpty(r: Option<(seq<nat>, Bytes)>)
    ensures Resumed([], r) == r
  {
    match r
    case None =>
    case Some((later, rest)) => assert [] + later == later;
  }

  lemma ResumedNext(values: seq<nat>, widths: seq<nat>, s: Bytes)
    requires widths != []
    ensures Resumed(values, ReadAll(widths, s))
         == if |s| < widths[0] then None
            else Resumed(values + [Value(s[..widths[0]])], ReadAll(widths[1..], s[widths[0]..]))
  {
    if |s| >= widths[0] && ReadAll(widths[1..], s[widths[0]..]).Some? {
      var x, later := Value(s[..widths[0]]), ReadAll(widths[1..], s[widths[0]..]).value.0;
      assert values + ([x] + later) == (values + [x]) + later;
    }
  }

  /** The worker's input and its reader. */
  class Stream {
    var pending: Bytes

    constructor (input: Bytes)
      ensures pending == input
    {
      pending := input;
    }

    method Unsigned(width: nat) returns (x: Option<nat>)
      modifies this
      ensures (x, pending) == ReadUnsigned(old(pending), width)
    {
      if |pending| < width {
        pending := [];
        return None;
      }
      x := Some(Value(pending[..width]));
      pending := pending[width..];
    }

    /** Fields in order; a short stream is left empty. */
    method Fields(widths: seq<nat>) returns (r: Option<seq<nat>>)
      modifies this
      ensures r.Some? <==> ReadAll(widths, old(pending)).Some?
      ensures r.Some? ==> (r.value, pending) == ReadAll(widths, old(pending)).value
      ensures r.None? ==> pending == []
    {
      var values: seq<nat>, k := [], 0;
      ghost var input := pending;
      assert widths[0..] == widths;
      ResumedEmpty(ReadAll(widths, input));
      while k < |widths|
        invariant k <= |widths| && |values| == k
        invariant ReadAll(widths, input) == Resumed(values, ReadAll(widths[k..], pending))
      {
        hide Value;
        ResumedNext(values, widths[k..], pending);
        assert widths[k..][0] == widths[k] && widths[k..][1..] == widths[k + 1..];
        var x := Unsigned(widths[k]);
        if x.None? {
          return None;
        }
        values := values + [x.value];
        k := k + 1;
      }
      assert widths[k..] == [] && values + [] == values;
      r := Some(values);
    }

    method Lengths(count: nat, order: nat) returns (r: Result<seq<nat>, Refusal>)
      modifies this
      ensures (r, pending) == ReadLengths(old(pending), count, order, [])
    {
      var lengths: seq<nat>, k := [], 0;
      while k < count
        invariant k <= count
        invariant ReadLengths(old(pending), count, order, []) == ReadLengths(pending, count - k, order, lengths)
      {
        var x := Unsigned(2);
        if x.None? {
          return Err(EndOfStream);
        }
        if x.value < 3 || x.value > order || (lengths != [] && x.value <= lengths[|lengths| - 1]) {
          return Err(InvalidLengths);
        }
        lengths := lengths + [x.value];
        k := k + 1;
      }
      r := Ok(lengths);
    }

    method Row(words: nat) returns (r: Option<set<nat>>)
      modifies this
      ensures (r, pending) == ReadRow(old(pending), words)
    {
      var low := Unsigned(8);
      if low.None? {
        return None;
      }
      r := Some(RowOf(low.value, 0, 64));
      if words == 2 {
        var high := Unsigned(8);
        if high.None? {
          return None;
        }
        r := Some(r.value + RowOf(high.value, 64, 64));
      }
    }

    method Rows(count: nat, words: nat) returns (r: Result<seq<set<nat>>, Refusal>)
      modifies this
      ensures (r, pending) == ReadRows(old(pending), count, words, [])
    {
      var rows: seq<set<nat>>, k := [], 0;
      while k < count
        invariant k <= count
        invariant ReadRows(old(pending), count, words, []) == ReadRows(pending, count - k, words, rows)
      {
        var row := Row(words);
        if row.None? {
          return Err(EndOfStream);
        }
        rows := rows + [row.value];
        k := k + 1;
      }
      r := Ok(rows);
    }

    method ReadRequest(command: nat, payload: nat) returns (r: Result<Parsed, Refusal>)
      modifies this
      ensures (r, pending) == ParseRequest(command, payload, old(pending))
    {
      var f := Fields(BODY_WIDTHS);
      if f.None? {
        return Err(EndOfStream);
      }
      var fault := BodyFault(command, payload, f.value);
      if fault.Some? {
        return Err(fault.value);
      }
      var lengths := Lengths(f.value[10], f.value[1]);
      if lengths.Err? {
        return Err(lengths.error);
      }
      var rows := Rows(f.value[1], f.value[2]);
      if rows.Err? {
        return Err(rows.error);
      }
      var q := Scoring.Request(f.value[3], f.value[4], f.value[5], f.value[6], f.value[7], f.value[8], f.value[9] != 0,
                               lengths.value);
      r := Ok(Parsed(f.value[0], f.value[1], q, rows.value));
    }

    method Next() returns (turn: Turn)
      modifies this
      ensures (turn, pending) == NextTurn(old(pending))
    {
      if pending == [] {
        return Ended(0);
      }
      if |pending| < 4 || pending[..4] != MAGIC {
        pending := if |pending| < 4 then [] else pending[4..];
        return Ended(1);
      }
      pending := pending[4..];
      var p := Fields(PREFIX_WIDTHS);
      if p.None? {
        return Crashed;
      }
      if p.value[0] != 2 || p.value[2] > MAXIMUM_FRAME_BYTES {
        return Ended(1);
      }
      if p.value[1] == 2 {
        return Ended(if p.value[2] == 0 then 0 else 1);
      }
      var r := ReadRequest(p.value[1], p.value[2]);
      turn := if r.Ok? then Request(r.value) else Refused(r.error);
    }
  }

  // ---------- what is sent is what is read ----------

  lemma LengthFieldsHead(lengths: seq<nat>)
    requires lengths != []
    ensures PackAll(LengthFields(lengths)) == Little(lengths[0], 2) + PackAll(LengthFields(lengths[1..]))
  {
    hide PackAll, Little;
    PackAllHead(LengthFields(lengths));
    assert LengthFields(lengths)[1..] == LengthFields(lengths[1..]);
  }

  lemma ReadLength(x: nat, s: Bytes)
    requires x < 65536
    ensures ReadUnsigned(Little(x, 2) + s, 2) == (Some(x), s)
  {
    assert x < Pow256(2) by { assert Pow256(1) == 256; }
    LittleValue(x, 2);
    hide Little, Value, Pow256;
    assert (Little(x, 2) + s)[..2] == Little(x, 2) && (Little(x, 2) + s)[2..] == s;
  }

  lemma {:induction false} LengthsBack(lengths: seq<nat>, order: nat, got: seq<nat>, rest: Bytes)
    requires order < 65536 && GoodLengths(order, lengths)
    requires got != [] && lengths != [] ==> got[|got| - 1] < lengths[0]
    ensures ReadLengths(PackAll(LengthFields(lengths)) + rest, |lengths|, order, got) == (Ok(got + lengths), rest)
    decreases |lengths|
  {
    hide Little, Value, Pow256, PackAll, LengthFields, ReadUnsigned;
    if lengths == [] {
      NoLengths();
      assert PackAll(LengthFields(lengths)) + rest == rest && got + lengths == got;
    } else {
      var x, tail := lengths[0], lengths[1..];
      LengthFieldsHead(lengths);
      Regroup(Little(x, 2), PackAll(LengthFields(tail)), rest);
      ReadLength(x, PackAll(LengthFields(tail)) + rest);
      LengthsBack(tail, order, got + [x], rest);
      assert (got + [x]) + tail == got + lengths;
    }
  }

  lemma RowBack(row: set<nat>, words: nat, rest: Bytes)
    requires words == 1 || words == 2
    requires forall x :: x in row ==> x < 64 * words
    ensures ReadRow(RowWords(row, words) + rest, words) == (Some(row), rest)
  {
    hide Little, Value, Pow256, Word, RowOf;
    var s, low, high := RowWords(row, words) + rest, Word(row, 0, 64), Word(row, 64, 64);
    WordFits(row, 0);
    WordFits(row, 64);
    LittleValue(low, 8);
    LittleValue(high, 8);
    WordRow(row, 0, 64);
    WordRow(row, 64, 64);
    assert s[..8] == Little(low, 8);
    if words == 2 {
      assert s[8..][..8] == Little(high, 8) && s[8..][8..] == rest;
      assert RowOf(low, 0, 64) + RowOf(high, 64, 64) == row;
    } else {
      assert s[8..] == rest;
      assert RowOf(low, 0, 64) == row;
    }
  }

  predicate RowsWithin(rows: seq<set<nat>>, bound: nat) {
    forall i :: 0 <= i < |rows| ==> forall x :: x in rows[i] ==> x < bound
  }

  lemma RowsNext(s: Bytes, count: nat, words: nat, got: seq<set<nat>>, row: set<nat>, more: Bytes)
    requires ReadRow(s, words) == (Some(row), more)
    ensures ReadRows(s, count + 1, words, got) == ReadRows(more, count, words, got + [row])
  {
  }

  lemma {:induction false} RowsBack(rows: seq<set<nat>>, words: nat, got: seq<set<nat>>, rest: Bytes)
    requires (words == 1 || words == 2) && RowsWithin(rows, 64 * words)
    ensures ReadRows(PackAll(RowFields(rows, words)) + rest, |rows|, words, got) == (Ok(got + rows), rest)
    decreases |rows|
  {
    hide ReadRow, RowWords, PackAll, RowFields;
    if rows == [] {
      NoRows(words);
      assert PackAll(RowFields(rows, words)) + rest == rest && got + rows == got;
    } else {
      hide ReadRows;
      var packed := PackAll(RowFields(rows[1..], words));
      RowFieldsHead(rows, words);
      Regroup(RowWords(rows[0], words), packed, rest);
      RowBack(rows[0], words, packed + rest);
      RowsNext(PackAll(RowFields(rows, words)) + rest, |rows| - 1, words, got, rows[0], packed + rest);
      RowsBack(rows[1..], words, got + [rows[0]], rest);
      assert (got + [rows[0]]) + rows[1..] == got + rows;
    }
  }

  /** The fields of a body fit their widths. */
  predicate BodyFits(id: nat, n: nat, q: Scoring.Request) {
    && id < Pow256(8) && n < 65536 && |q.lengths| <= 64
    && q.limit < TWO32 && q.nodeBudget < TWO32 && q.flags < 8
    && q.cutoffTotal < TWO32 && q.cutoffWeighted < TWO32 && q.cutoffSimplicity < TWO32
  }

  lemma BodyBack(id: nat, n: nat, q: Scoring.Request, rest: Bytes)
    requires BodyFits(id, n, q)
    ensures ReadAll(BODY_WIDTHS, PackAll(BodyFields(id, n, q)) + rest) == Some((Values(BodyFields(id, n, q)), rest))
  {
    var body := BodyFields(id, n, q);
    assert Pow256(2) == 65536 && Pow256(4) == TWO32 by {
      assert Pow256(1) == 256;
      assert Pow256(3) == 256 * Pow256(2);
    }
    hide Pow256, PackAll, ReadAll;
    assert Fit(body);
    assert Widths(body) == BODY_WIDTHS;
    ReadBack(body, rest);
  }

  lemma PrefixBack(payload: nat, rest: Bytes)
    requires payload < TWO32
    ensures ReadAll(PREFIX_WIDTHS, PackAll(PrefixFields(1, payload)) + rest) == Some(([2, 1, payload], rest))
  {
    var prefix := PrefixFields(1, payload);
    assert Pow256(2) == 65536 && Pow256(4) == TWO32 by {
      assert Pow256(1) == 256;
      assert Pow256(3) == 256 * Pow256(2);
    }
    hide Pow256, PackAll, ReadAll;
    assert Fit(prefix);
    assert Widths(prefix) == PREFIX_WIDTHS;
    ReadBack(prefix, rest);
    assert Values(prefix) == [2, 1, payload];
  }

  lemma TurnOpens(s: Bytes, payload: nat, rest: Bytes)
    requires |s| >= 4 && s[..4] == MAGIC && payload <= MAXIMUM_FRAME_BYTES
    requires ReadAll(PREFIX_WIDTHS, s[4..]) == Some(([2, 1, payload], rest))
    ensures var (r, more) := ParseRequest(1, payload, rest);
            NextTurn(s) == (if r.Ok? then Request(r.value) else Refused(r.error), more)
  {
  }

  /** A frame is taken up to its payload, and what happens next is the body's business. */
  lemma FrameOpens(id: nat, g: Graph, q: Scoring.Request, rest: Bytes)
    requires BodyFits(id, g.n, q) && PayloadSize(g.n, |q.lengths|) <= MAXIMUM_FRAME_BYTES
    ensures var payload, tail := PayloadSize(g.n, |q.lengths|), Payload(g.n, g.rows, q.lengths) + rest;
            var s := PackAll(BodyFields(id, g.n, q)) + tail;
            var (r, more) := ParseRequest(1, payload, s);
            && NextTurn(Frame(id, g, q) + rest) == (if r.Ok? then Request(r.value) else Refused(r.error), more)
            && ReadAll(BODY_WIDTHS, s) == Some((Values(BodyFields(id, g.n, q)), tail))
  {
    hide PackAll, ReadAll, BodyFields, PrefixFields, Payload, PayloadSize, ParseRequest, BodyFits, NextTurn;
    var payload, tail := PayloadSize(g.n, |q.lengths|), Payload(g.n, g.rows, q.lengths) + rest;
    var s := PackAll(BodyFields(id, g.n, q)) + tail;
    BodyBack(id, g.n, q, tail);
    PrefixBack(payload, s);
    var whole := Frame(id, g, q) + rest;
    assert whole[..4] == MAGIC && whole[4..] == PackAll(PrefixFields(1, payload)) + s;
    TurnOpens(whole, payload, s);
  }

  /** The parser follows its three readers. */
  lemma ParsesTo(payload: nat, s: Bytes, f: seq<nat>, rest: Bytes, lengths: seq<nat>, more: Bytes, rows: seq<set<nat>>,
                 last: Bytes)
    requires ReadAll(BODY_WIDTHS, s) == Some((f, rest)) && |f| == 12 && BodyFault(1, payload, f) == None
    requires ReadLengths(rest, f[10], f[1], []) == (Ok(lengths), more)
    requires ReadRows(more, f[1], f[2], []) == (Ok(rows), last)
    ensures ParseRequest(1, payload, s)
         == (Ok(Parsed(f[0], f[1], Scoring.Request(f[3], f[4], f[5], f[6], f[7], f[8], f[9] != 0, lengths), rows)),
             last)
  {
  }

  lemma BodyAllowed(id: nat, g: Graph, q: Scoring.Request)
    requires Scoring.Accepted(g, q)
    ensures BodyFault(1, PayloadSize(g.n, |q.lengths|), Values(BodyFields(id, g.n, q))) == None
    ensures Values(BodyFields(id, g.n, q))
         == [id, g.n, WordCount(g.n), q.limit, q.nodeBudget, q.flags, q.cutoffTotal, q.cutoffWeighted,
             q.cutoffSimplicity, if q.cutoffInclusive then 1 else 0, |q.lengths|, 0]
  {
  }

  lemma RowsInWords(g: Graph)
    requires 1 <= g.n <= 128
    ensures WordCount(g.n) == (if g.n <= 64 then 1 else 2) && RowsWithin(g.rows, 64 * WordCount(g.n))
  {
    forall u, v | 0 <= u < g.n && v in g.rows[u]
      ensures v < g.n
    {
      EdgeSymmetric(g, u, v);
    }
  }

  lemma PayloadBack(g: Graph, lengths: seq<nat>, rest: Bytes)
    requires 4 <= g.n <= 128 && GoodLengths(g.n, lengths)
    ensures var tail, rows := Payload(g.n, g.rows, lengths) + rest, PackAll(RowFields(g.rows, WordCount(g.n)));
            && ReadLengths(tail, |lengths|, g.n, []) == (Ok(lengths), rows + rest)
            && ReadRows(rows + rest, g.n, WordCount(g.n), []) == (Ok(g.rows), rest)
  {
    RowsInWords(g);
    hide PackAll, RowFields, LengthFields, Payload, WordCount, ReadLengths, ReadRows, RowsWithin;
    var rows := PackAll(RowFields(g.rows, WordCount(g.n)));
    WholePayload(g.n, g.rows, lengths);
    Regroup(PackAll(LengthFields(lengths)), rows, rest);
    LengthsBack(lengths, g.n, [], rows + rest);
    RowsBack(g.rows, WordCount(g.n), [], rest);
    assert [] + lengths == lengths && [] + g.rows == g.rows;
  }

  /** Every request the worker allows is read back from its frame, field by field and row by row. */
  lemma FrameRoundTrip(id: nat, g: Graph, q: Scoring.Request, rest: Bytes)
    requires Scoring.Accepted(g, q) && id < Pow256(8)
    ensures NextTurn(Frame(id, g, q) + rest) == (Request(Parsed(id, g.n, q, g.rows)), rest)
  {
    hide PackAll, ReadAll, ReadLengths, ReadRows, NextTurn, Frame, RowFields, ParseRequest, BodyFault, BodyFields,
         Pow256, PayloadSize, Payload, WordCount;
    assert PayloadSize(g.n, |q.lengths|) <= MAXIMUM_FRAME_BYTES by { PayloadAllowed(g.n, |q.lengths|); }
    BodyAllowed(id, g, q);
    FrameOpens(id, g, q, rest);
    PayloadBack(g, q.lengths, rest);
    var tail, rows := Payload(g.n, g.rows, q.lengths) + rest, PackAll(RowFields(g.rows, WordCount(g.n)));
    ParsesTo(PayloadSize(g.n, |q.lengths|), PackAll(BodyFields(id, g.n, q)) + tail, Values(BodyFields(id, g.n, q)),
             tail, q.lengths, rows + rest, g.rows, rest);
  }

  lemma PayloadAllowed(n: nat, lengths: nat)
    requires n <= 128 && lengths <= 64
    ensures PayloadSize(n, lengths) <= 4096
  {
  }

  /** Up to 128 vertices the announced size is exactly the lengths and the rows. */
  lemma WholePayload(n: nat, rows: seq<set<nat>>, lengths: seq<nat>)
    requires |rows| == n && n <= 128
    ensures Payload(n, rows, lengths) == PackAll(LengthFields(lengths)) + PackAll(RowFields(rows, WordCount(n)))
  {
    RoomForRows(n, |lengths|);
    hide PackAll, LengthFields, RowFields, PayloadSize, WordCount, RowStep;
  }

  lemma CallFits(id: nat, n: nat, call: Call, longestFirst: bool)
    requires CallFault(id, n, call, longestFirst) == None
    ensures GoodLengths(n, call.lengths) && BodyPacks(0, n, call)
    ensures BodyFits(id, n, RequestOf(n, call, longestFirst))
    ensures PayloadSize(n, |call.lengths|) <= MAXIMUM_FRAME_BYTES
  {
  }

  /** A call that passes the lab's own checks reaches the worker whole exactly when the order is 4 to 128 and
      the limit at least 2; otherwise the worker refuses it. */
  lemma CallDelivered(id: nat, g: Graph, call: Call, longestFirst: bool, rest: Bytes)
    requires CallFault(id, g.n, call, longestFirst) == None
    ensures GoodLengths(g.n, call.lengths) && BodyPacks(0, g.n, call)
    ensures var q, turn := RequestOf(g.n, call, longestFirst),
                           NextTurn(Frame(id, g, RequestOf(g.n, call, longestFirst)) + rest);
      if 4 <= g.n <= 128 && call.limit >= 2
      then Scoring.Accepted(g, q) && turn == (Request(Parsed(id, g.n, q, g.rows)), rest)
      else turn.0.Refused? && turn.1 == Payload(g.n, g.rows, q.lengths) + rest
  {
    hide PackAll, ReadAll, NextTurn, Frame, Payload, PayloadSize, Pow256, CallFault, BodyFits;
    CallFits(id, g.n, call, longestFirst);
    var q := RequestOf(g.n, call, longestFirst);
    if 4 <= g.n <= 128 && call.limit >= 2 {
      IdFits(id, g.n, call, longestFirst);
      CallAccepted(g, call, longestFirst);
      FrameRoundTrip(id, g, q, rest);
    } else {
      FrameOpens(id, g, q, rest);
      BodyRefused(id, g.n, q);
      hide ParseRequest;
      RefusedParse(PayloadSize(g.n, |q.lengths|),
                   PackAll(BodyFields(id, g.n, q)) + (Payload(g.n, g.rows, q.lengths) + rest));
    }
  }

  lemma IdFits(id: nat, n: nat, call: Call, longestFirst: bool)
    requires CallFault(id, n, call, longestFirst) == None
    ensures id < Pow256(8) && call.limit >= 1 && call.nodeBudget >= 1 && (call.compact ==> call.cutoff.Some?)
  {
    hide PackAll, Pow256, PayloadSize;
  }

  lemma CallAccepted(g: Graph, call: Call, longestFirst: bool)
    requires GoodLengths(g.n, call.lengths) && BodyPacks(0, g.n, call) && (call.compact ==> call.cutoff.Some?)
    requires 4 <= g.n <= 128 && call.limit >= 2 && call.nodeBudget >= 1
    ensures Scoring.Accepted(g, RequestOf(g.n, call, longestFirst))
  {
    hide Pow256;
  }

  lemma BodyRefused(id: nat, n: nat, q: Scoring.Request)
    requires n < 4 || n > 128 || q.limit < 2
    ensures BodyFault(1, PayloadSize(n, |q.lengths|), Values(BodyFields(id, n, q))).Some?
  {
  }

  lemma RefusedParse(payload: nat, s: Bytes)
    requires ReadAll(BODY_WIDTHS, s).Some? && BodyFault(1, payload, ReadAll(BODY_WIDTHS, s).value.0).Some?
    ensures ParseRequest(1, payload, s)
         == (Err(BodyFault(1, payload, ReadAll(BODY_WIDTHS, s).value.0).value), ReadAll(BODY_WIDTHS, s).value.1)
  {
    hide ReadAll, BodyFault;
  }

  lemma LittlePair(x: nat)
    requires x < 256
    ensures Little(x, 2) == [x, 0]
  {
  }

  /** No payload can be taken for the start of a frame: a length has a zero high byte, and the first row has no
      loop at vertex 0. */
  lemma PayloadIsNoFrame(g: Graph, lengths: seq<nat>, rest: Bytes)
    requires 4 <= g.n <= 128 && GoodLengths(g.n, lengths)
    ensures var s := Payload(g.n, g.rows, lengths) + rest; |s| >= 4 && s[..4] != MAGIC
  {
    var words := WordCount(g.n);
    hide PackAll, RowFields, Payload, WordCount, RowWords;
    WholePayload(g.n, g.rows, lengths);
    RowFieldsHead(g.rows, words);
    var rows, tail := RowWords(g.rows[0], words), PackAll(RowFields(g.rows[1..], words));
    if lengths == [] {
      FirstRowByte(g, words);
      NoLengths();
      assert Payload(g.n, g.rows, lengths) == rows + tail;
      assert (Payload(g.n, g.rows, lengths) + rest)[0] == rows[0] != MAGIC[0];
    } else {
      var first := LengthFields(lengths);
      PackAllHead(first);
      LittlePair(lengths[0]);
      assert (Payload(g.n, g.rows, lengths) + rest)[1] == 0 != MAGIC[1];
    }
  }

  lemma NoLengths()
    ensures PackAll(LengthFields([])) == []
  {
  }

  lemma WordParity(row: set<nat>, lo: nat, k: nat)
    requires k > 0 && lo !in row
    ensures Word(row, lo, k) % 2 == 0
  {
  }

  lemma LittleFirst(x: nat, k: nat)
    requires k > 0
    ensures Little(x, k)[0] == x % 256
  {
  }

  lemma LowByteParity(x: nat)
    ensures x % 256 % 2 == x % 2
  {
    assert x == 2 * (128 * (x / 256)) + x % 256;
  }

  lemma LittleParity(x: nat, k: nat)
    requires k > 0 && x % 2 == 0
    ensures Little(x, k)[0] % 2 == 0
  {
    hide Little;
    LittleFirst(x, k);
    LowByteParity(x);
  }

  lemma FirstRowByte(g: Graph, words: nat)
    requires g.n > 0
    ensures RowWords(g.rows[0], words)[0] % 2 == 0
  {
    hide Word, Little;
    WordParity(g.rows[0], 0, 64);
    LittleParity(Word(g.rows[0], 0, 64), 8);
  }

  /** A limit of one passes the lab's check and not the worker's, and the payload the worker then leaves unread
      ends it at its next turn. */
  lemma LimitOneEndsWorker(id: nat, g: Graph, call: Call, longestFirst: bool, rest: Bytes)
    requires CallFault(id, g.n, call, longestFirst) == None && 4 <= g.n <= 128 && call.limit == 1
    ensures GoodLengths(g.n, call.lengths) && BodyPacks(0, g.n, call)
    ensures var (turn, left) := NextTurn(Frame(id, g, RequestOf(g.n, call, longestFirst)) + rest);
            turn.Refused? && NextTurn(left).0 == Ended(1)
  {
    CallDelivered(id, g, call, longestFirst, rest);
    PayloadIsNoFrame(g, Naturals(call.lengths), rest);
    hide PackAll, ReadAll, Frame, Payload, CallFault, ParseRequest;
  }
}
