/** The binary response frame, written by the score worker and validated by the lab, and with it what one call
    to the worker returns. */
module Responses {
  import opened Outcomes
  import opened Collections
  import opened Graphs
  import opened Preorder
  import opened CountCycles
  import opened Frames
  import Scoring

  const RESPONSE_MAGIC: Bytes := [83, 71, 83, 82]
  const HEADER_WIDTHS := [2, 2, 8, 2, 2, 4]
  const RECORD_WIDTHS := [2, 1, 1, 4, 8, 8]
  const STATUS_ERROR := 1

  datatype Record = Record(length: nat, count: nat, complete: bool, nodes: nat, elapsed: nat)

  // ---------- the worker's side ----------

  function HeaderFields(id: nat, status: nat, count: nat): seq<Field> {
    [Field(2, 2), Field(2, status), Field(8, id), Field(2, count), Field(2, 0), Field(4, count * 24)]
  }

  function RecordFields(r: Record): seq<Field> {
    [Field(2, r.length), Field(1, if r.complete then 1 else 0), Field(1, 0), Field(4, r.count), Field(8, r.nodes),
     Field(8, r.elapsed)]
  }

  function PackRecords(records: seq<Record>): Bytes {
    if records == [] then [] else PackAll(RecordFields(records[0])) + PackRecords(records[1..])
  }

  function ResponseFrame(id: nat, status: nat, records: seq<Record>): Bytes {
    RESPONSE_MAGIC + PackAll(HeaderFields(id, status, |records|)) + PackRecords(records)
  }

  /** Writes a response, record after record. */
  method WriteResponse(id: nat, status: nat, records: seq<Record>) returns (out: Bytes)
    ensures out == ResponseFrame(id, status, records)
  {
    hide PackAll, HeaderFields, RecordFields;
    out := RESPONSE_MAGIC + PackAll(HeaderFields(id, status, |records|));
    var k := 0;
    assert records[0..] == records;
    while k < |records|
      invariant 0 <= k <= |records|
      invariant out + PackRecords(records[k..]) == ResponseFrame(id, status, records)
    {
      assert records[k..][0] == records[k] && records[k..][1..] == records[k + 1..];
      Regroup(out, PackAll(RecordFields(records[k])), PackRecords(records[k + 1..]));
      out := out + PackAll(RecordFields(records[k]));
      k := k + 1;
    }
    assert records[k..] == [];
  }

  // ---------- the lab's side ----------

  datatype ResponseError = NoResponse | InvalidHeader | RequestRejected | InvalidRecord | UnexpectedLengths

  datatype Response = Response(results: seq<Record>, dominated: bool)

  predicate HeaderAllowed(magic: Bytes, h: seq<nat>, id: nat)
    requires |h| == 6
  {
    magic == RESPONSE_MAGIC && h[0] == 2 && h[2] == id && h[4] == 0 && h[5] == h[3] * 24 && h[5] <= MAXIMUM_FRAME_BYTES
  }

  function FieldsAt(payload: Bytes, index: nat): (f: seq<nat>)
    requires 24 * (index + 1) <= |payload|
    ensures |f| == 6
  {
    var r := ReadAll(RECORD_WIDTHS, payload[24 * index..24 * (index + 1)]);
    WidthsAreRead(RECORD_WIDTHS, payload[24 * index..24 * (index + 1)]);
    r.value.0
  }

  lemma WidthsAreRead(widths: seq<nat>, s: Bytes)
    requires |s| == SumOf(widths)
    ensures ReadAll(widths, s).Some?
  {
  }

  predicate RecordAllowed(f: seq<nat>)
    requires |f| == 6
  {
    f[1] <= 1 && f[2] == 0
  }

  function RecordOf(f: seq<nat>): Record
    requires |f| == 6
  {
    Record(f[0], f[3], f[1] == 1, f[4], f[5])
  }

  function LengthsOf(records: seq<Record>): (l: seq<nat>)
    ensures |l| == |records| && forall i :: 0 <= i < |l| ==> l[i] == records[i].length
  {
    seq(|records|, i requires 0 <= i < |records| => records[i].length)
  }

  /** A full answer lists the lengths asked for; a dominated one some of them, in increasing order. */
  predicate LengthsAllowed(status: nat, found: seq<nat>, asked: seq<int>) {
    if status == 0 then |found| == |asked| && forall i :: 0 <= i < |found| ==> found[i] == asked[i]
    else
      && (forall i, j :: 0 <= i < j < |found| ==> found[i] <= found[j])
      && (forall i, j :: 0 <= i < j < |found| ==> found[i] != found[j])
      && (forall i :: 0 <= i < |found| ==> found[i] in asked)
  }

  /** What the lab makes of the bytes it reads. */
  ghost predicate Receives(s: Bytes, id: nat, asked: seq<int>, r: Result<Response, ResponseError>) {
    if |s| < 24 then r == Err(NoResponse)
    else
      var h := HeaderOf(s);
      if !HeaderAllowed(s[..4], h, id) then r == Err(InvalidHeader)
      else if |s| < 24 + h[5] then r == Err(NoResponse)
      else if h[1] != 0 && h[1] != 2 then r == Err(RequestRejected)
      else ReceivesRecords(s[24..24 + h[5]], h[3], h[1], asked, r)
  }

  ghost predicate ReceivesRecords(payload: Bytes, count: nat, status: nat, asked: seq<int>,
                                  r: Result<Response, ResponseError>)
    requires |payload| == 24 * count
  {
    if exists k :: 0 <= k < count && !RecordAllowed(FieldsAt(payload, k)) then r == Err(InvalidRecord)
    else
      var records := seq(count, k requires 0 <= k < count => RecordOf(FieldsAt(payload, k)));
      r == if LengthsAllowed(status, LengthsOf(records), asked) then Ok(Response(records, status == 2))
           else Err(UnexpectedLengths)
  }

  function HeaderOf(s: Bytes): (h: seq<nat>)
    requires |s| >= 24
    ensures |h| == 6
  {
    WidthsAreRead(HEADER_WIDTHS, s[4..24]);
    ReadAll(HEADER_WIDTHS, s[4..24]).value.0
  }

  /** What the bytes of a response that is taken must be, field by field. */
  lemma TakenResponse(s: Bytes, id: nat, asked: seq<int>, r: Response)
    requires Receives(s, id, asked, Ok(r))
    ensures |s| >= 24 + 24 * |r.results| && 24 * |r.results| <= 65536
    ensures s[..4] == [83, 71, 83, 82] && Value(s[4..6]) == 2 && Value(s[8..16]) == id && Value(s[18..20]) == 0
    ensures Value(s[6..8]) == if r.dominated then 2 else 0
    ensures Value(s[16..18]) == |r.results| && Value(s[20..24]) == 24 * |r.results|
    ensures !r.dominated ==>
              |r.results| == |asked| && forall i :: 0 <= i < |asked| ==> r.results[i].length == asked[i]
    ensures r.dominated ==>
              && (forall i, j :: 0 <= i < j < |r.results| ==> r.results[i].length < r.results[j].length)
              && forall i :: 0 <= i < |r.results| ==> r.results[i].length in asked
  {
    HeaderFieldsAre(s);
    var h := HeaderOf(s);
    hide HeaderOf, FieldsAt, ReadAll, Value;
  }

  lemma ReadTail(widths: seq<nat>, s: Bytes)
    requires widths != [] && |s| == SumOf(widths)
    ensures widths[0] <= |s| && |s[widths[0]..]| == SumOf(widths[1..])
    ensures ReadAll(widths, s).Some? && ReadAll(widths[1..], s[widths[0]..]).Some?
    ensures ReadAll(widths, s).value.0 == [Value(s[..widths[0]])] + ReadAll(widths[1..], s[widths[0]..]).value.0
  {
    hide Value;
    WidthsAreRead(widths, s);
  }

  lemma SumUpTo(widths: seq<nat>, i: nat)
    requires i < |widths|
    ensures SumOf(widths[..i]) == if i == 0 then 0 else widths[0] + SumOf(widths[1..][..i - 1])
  {
    if i > 0 {
      assert widths[..i][1..] == widths[1..][..i - 1];
    }
  }

  /** The i-th field of a record that is read whole lies behind the fields before it. */
  lemma {:induction false} FieldIs(widths: seq<nat>, s: Bytes, i: nat)
    requires |s| == SumOf(widths) && i < |widths|
    ensures ReadAll(widths, s).Some? && SumOf(widths[..i]) + widths[i] <= |s|
    ensures var from := SumOf(widths[..i]); ReadAll(widths, s).value.0[i] == Value(s[from..from + widths[i]])
    decreases |widths|
  {
    hide Value, ReadAll, SumOf;
    ReadTail(widths, s);
    SumUpTo(widths, i);
    if i == 0 {
      assert s[..widths[0]] == s[0..widths[0]];
    } else {
      var w, t := widths[1..], s[widths[0]..];
      FieldIs(w, t, i - 1);
      var from := SumOf(w[..i - 1]);
      assert t[from..from + w[i - 1]] == s[widths[0] + from..widths[0] + from + w[i - 1]];
    }
  }

  lemma HeaderFieldsAre(s: Bytes)
    requires |s| >= 24
    ensures var h := HeaderOf(s);
      && h[0] == Value(s[4..6]) && h[1] == Value(s[6..8]) && h[2] == Value(s[8..16]) && h[3] == Value(s[16..18])
      && h[4] == Value(s[18..20]) && h[5] == Value(s[20..24])
  {
    var t, w := s[4..24], HEADER_WIDTHS;
    PrefixSums(w);
    WidthsAreRead(w, t);
    assert HeaderOf(s) == ReadAll(w, t).value.0;
    hide Value, ReadAll, SumOf, HeaderOf;
    FieldIs(w, t, 0);
    FieldIs(w, t, 1);
    FieldIs(w, t, 2);
    FieldIs(w, t, 3);
    FieldIs(w, t, 4);
    FieldIs(w, t, 5);
    SliceOfSlice(s, 0, 2);
    SliceOfSlice(s, 2, 4);
    SliceOfSlice(s, 4, 12);
    SliceOfSlice(s, 12, 14);
    SliceOfSlice(s, 14, 16);
    SliceOfSlice(s, 16, 20);
  }

  lemma SliceOfSlice(s: Bytes, lo: nat, hi: nat)
    requires |s| >= 24 && lo <= hi <= 20
    ensures s[4..24][lo..hi] == s[4 + lo..4 + hi]
  {
    var t := s[4..24];
    var a, b := t[lo..hi], s[4 + lo..4 + hi];
    forall i | 0 <= i < hi - lo
      ensures a[i] == b[i]
    {
      assert a[i] == t[lo + i] == s[4 + lo + i];
    }
    assert |a| == |b| && a == b;
  }

  lemma PrefixSums(w: seq<nat>)
    requires w == HEADER_WIDTHS
    ensures SumOf(w[..0]) == 0 && SumOf(w[..1]) == 2 && SumOf(w[..2]) == 4 && SumOf(w[..3]) == 12
    ensures SumOf(w[..4]) == 14 && SumOf(w[..5]) == 16 && SumOf(w) == 20
  {
    assert w[..0] == [] && w[..1] == [2] && w[..2] == [2, 2] && w[..3] == [2, 2, 8];
    assert w[..4] == [2, 2, 8, 2] && w[..5] == [2, 2, 8, 2, 2];
    SumOfTail([2]);
    SumOfTail([2, 2]);
    SumOfTail([2, 2, 8]);
    SumOfTail([2, 2, 8, 2]);
    SumOfTail([2, 2, 8, 2, 2]);
    SumOfTail(w);
  }

  lemma SumOfTail(w: seq<nat>)
    requires w != []
    ensures SumOf(w) == w[0] + SumOf(w[1..])
  {
  }

  /** Reads and validates one response: header, payload, status, records, lengths. */
  method Receive(s: Bytes, id: nat, asked: seq<int>) returns (r: Result<Response, ResponseError>)
    ensures Receives(s, id, asked, r)
  {
    if |s| < 24 {
      return Err(NoResponse);
    }
    var h := HeaderOf(s);
    hide HeaderOf, FieldsAt, ReadAll;
    if !HeaderAllowed(s[..4], h, id) {
      return Err(InvalidHeader);
    }
    if |s| < 24 + h[5] {
      return Err(NoResponse);
    }
    var payload := s[24..24 + h[5]];
    if h[1] != 0 && h[1] != 2 {
      return Err(RequestRejected);
    }
    r := ReceiveRecords(payload, h[3], h[1], asked);
  }

  method ReceiveRecords(payload: Bytes, count: nat, status: nat, asked: seq<int>)
    returns (r: Result<Response, ResponseError>)
    requires |payload| == 24 * count
    ensures ReceivesRecords(payload, count, status, asked, r)
  {
    hide FieldsAt, LengthsAllowed;
    var results: seq<Record> := [];
    var index := 0;
    while index < count
      invariant 0 <= index <= count && |results| == index
      invariant forall k :: 0 <= k < index ==> RecordAllowed(FieldsAt(payload, k))
      invariant forall k :: 0 <= k < index ==> results[k] == RecordOf(FieldsAt(payload, k))
    {
      var f := FieldsAt(payload, index);
      if f[1] > 1 || f[2] != 0 {
        assert !RecordAllowed(FieldsAt(payload, index));
        return Err(InvalidRecord);
      }
      results := results + [RecordOf(f)];
      index := index + 1;
    }
    assert results == seq(count, k requires 0 <= k < count => RecordOf(FieldsAt(payload, k)));
    if !LengthsAllowed(status, LengthsOf(results), asked) {
      return Err(UnexpectedLengths);
    }
    r := Ok(Response(results, status == 2));
  }

  // ---------- what is written is what is read ----------

  predicate RecordFits(r: Record) {
    r.length < 65536 && r.count < TWO32 && r.nodes < Pow256(8) && r.elapsed < Pow256(8)
  }

  lemma SmallPowers()
    ensures Pow256(1) == 256 && Pow256(2) == 65536 && Pow256(4) == TWO32
  {
    assert Pow256(3) == 256 * Pow256(2);
  }

  lemma RecordBack(r: Record)
    requires RecordFits(r)
    ensures var b := PackAll(RecordFields(r));
      && |b| == 24
      && ReadAll(RECORD_WIDTHS, b) == Some((Values(RecordFields(r)), []))
  {
    var f := RecordFields(r);
    SmallPowers();
    hide Pow256, PackAll, ReadAll;
    assert Fit(f) && Widths(f) == RECORD_WIDTHS;
    PackAllTotal(f);
    ReadBack(f, []);
    assert PackAll(f) + [] == PackAll(f);
  }

  lemma {:induction false} RecordsAt(records: seq<Record>, k: nat)
    requires k < |records| && forall i :: 0 <= i < |records| ==> RecordFits(records[i])
    ensures |PackRecords(records)| == 24 * |records|
    ensures PackRecords(records)[24 * k..24 * (k + 1)] == PackAll(RecordFields(records[k]))
    decreases |records|
  {
    hide PackAll, RecordFields, RecordFits;
    var head, tail := PackAll(RecordFields(records[0])), records[1..];
    RecordBack(records[0]);
    if tail == [] {
      assert PackRecords(tail) == [];
    } else {
      RecordsAt(tail, if k == 0 then 0 else k - 1);
      SliceBeyond(head, PackRecords(tail), if k == 0 then 0 else 24 * (k - 1));
    }
  }

  lemma SliceBeyond(head: Bytes, tail: Bytes, from: nat)
    requires |head| == 24 && from + 24 <= |tail|
    ensures (head + tail)[..24] == head && (head + tail)[from + 24..from + 48] == tail[from..from + 24]
  {
  }

  lemma {:induction false} PackRecordsSize(records: seq<Record>)
    requires forall i :: 0 <= i < |records| ==> RecordFits(records[i])
    ensures |PackRecords(records)| == 24 * |records|
  {
    if records != [] {
      RecordsAt(records, 0);
    }
  }

  lemma FieldsBack(records: seq<Record>, k: nat)
    requires k < |records| && forall i :: 0 <= i < |records| ==> RecordFits(records[i])
    ensures |PackRecords(records)| == 24 * |records|
    ensures RecordAllowed(FieldsAt(PackRecords(records), k))
    ensures RecordOf(FieldsAt(PackRecords(records), k)) == records[k]
  {
    RecordsAt(records, k);
    RecordBack(records[k]);
    hide PackAll, ReadAll, PackRecords;
  }

  lemma HeaderPacked(id: nat, status: nat, count: nat)
    requires id < Pow256(8) && status < 65536 && count < 65536
    ensures var b := PackAll(HeaderFields(id, status, count));
      |b| == 20 && ReadAll(HEADER_WIDTHS, b) == Some(([2, status, id, count, 0, count * 24], []))
  {
    var f := HeaderFields(id, status, count);
    SmallPowers();
    hide Pow256, PackAll, ReadAll;
    assert Fit(f) && Widths(f) == HEADER_WIDTHS;
    PackAllTotal(f);
    ReadBack(f, []);
    assert PackAll(f) + [] == PackAll(f);
    assert Values(f) == [2, status, id, count, 0, count * 24];
  }

  lemma HeaderBack(id: nat, status: nat, records: seq<Record>, rest: Bytes)
    requires id < Pow256(8) && status < 65536 && |records| < 65536
    ensures var s := ResponseFrame(id, status, records) + rest;
      && |s| == 24 + |PackRecords(records)| + |rest| && s[..4] == RESPONSE_MAGIC
      && s[24..] == PackRecords(records) + rest
      && HeaderOf(s) == [2, status, id, |records|, 0, |records| * 24]
  {
    hide Pow256, PackAll, ReadAll, PackRecords, HeaderFields;
    HeaderPacked(id, status, |records|);
    Parts(RESPONSE_MAGIC, PackAll(HeaderFields(id, status, |records|)), PackRecords(records), rest);
  }

  lemma Parts(magic: Bytes, header: Bytes, records: Bytes, rest: Bytes)
    requires |magic| == 4 && |header| == 20
    ensures var s := magic + header + records + rest;
      s[..4] == magic && s[4..24] == header && s[24..] == records + rest
  {
  }

  /** What the lab makes of any response the worker writes: it is taken exactly when it answers the lab's own
      request with a known status and lengths the lab asked for, and then its records come back unchanged. */
  lemma ResponseReceived(id: nat, status: nat, records: seq<Record>, rest: Bytes, expected: nat, asked: seq<int>,
                         r: Result<Response, ResponseError>)
    requires id < Pow256(8) && status < 65536 && |records| <= 64
    requires forall i :: 0 <= i < |records| ==> RecordFits(records[i])
    requires Receives(ResponseFrame(id, status, records) + rest, expected, asked, r)
    ensures r == if id != expected then Err(InvalidHeader)
                 else if status != 0 && status != 2 then Err(RequestRejected)
                 else if !LengthsAllowed(status, LengthsOf(records), asked) then Err(UnexpectedLengths)
                 else Ok(Response(records, status == 2))
  {
    hide Pow256, PackRecords, ResponseFrame, HeaderOf, FieldsAt, RecordFits, LengthsAllowed, RecordAllowed, RecordOf;
    var s := ResponseFrame(id, status, records) + rest;
    HeaderBack(id, status, records, rest);
    PackRecordsSize(records);
    assert s[24..24 + |records| * 24] == PackRecords(records);
    forall k | 0 <= k < |records|
      ensures RecordAllowed(FieldsAt(PackRecords(records), k))
      ensures RecordOf(FieldsAt(PackRecords(records), k)) == records[k]
    {
      FieldsBack(records, k);
    }
    assert seq(|records|, k requires 0 <= k < |records| => RecordOf(FieldsAt(PackRecords(records), k))) == records;
  }

  // ---------- one call ----------

  function StatusCode(s: Scoring.Status): nat {
    if s == Scoring.StatusOk then 0 else 2
  }

  /** Counts with the time each took. */
  function Timed(records: seq<CountResult>, clock: nat -> nat): (t: seq<Record>)
    ensures |t| == |records|
  {
    seq(|records|, i requires 0 <= i < |records| =>
      Record(records[i].length, records[i].count, records[i].complete, records[i].nodes, clock(records[i].length)))
  }

  /** The answer to a request, as the worker holds it. */
  ghost predicate AnswerTo(g: Graph, q: Scoring.Request, e: Scoring.Evaluation) {
    && Scoring.Accepted(g, q) && Scoring.InRange(Scoring.EvaluationOrder(q)) && Scoring.Scored(g, q, e)
  }

  lemma CountFits(g: Graph, q: Scoring.Request, r: CountResult, elapsed: nat)
    requires Scoring.Accepted(g, q) && Scoring.CountedFor(g, q, r) && r.length in q.lengths && elapsed < Pow256(8)
    ensures RecordFits(Record(r.length, r.count, r.complete, r.nodes, elapsed))
  {
    CountIsBounded(g, r.length, q.limit, q.nodeBudget, if r.cutoffReached then r.count else 0, r);
    SmallPowers();
    assert Pow256(8) > 2 * TWO32 by {
      assert Pow256(6) == 65536 * Pow256(4);
    }
  }

  /** Every answer the worker gives passes the lab's validation. */
  lemma AnswerAllowed(g: Graph, q: Scoring.Request, e: Scoring.Evaluation, clock: nat -> nat)
    requires AnswerTo(g, q, e) && e.Answered? && forall x :: clock(x) < Pow256(8)
    ensures var records := Timed(e.records, clock);
      && |records| <= 64
      && (forall i :: 0 <= i < |records| ==> RecordFits(records[i]))
      && LengthsAllowed(StatusCode(e.status), LengthsOf(records), q.lengths)
  {
    hide Pow256, RecordFits, Scoring.Scored, Scoring.CountedFor, Scoring.EvaluationOrder;
    var records := Timed(e.records, clock);
    Scoring.RecordsAreCounts(g, q, e);
    forall i | 0 <= i < |records|
      ensures RecordFits(records[i])
    {
      CountFits(g, q, e.records[i], clock(e.records[i].length));
    }
    if e.status == Scoring.StatusOk {
      Scoring.FullRecords(g, q, e);
    }
  }

  datatype ScoreError = NotSent(refusal: CallError) | NotAnswered(fault: ResponseError)

  /** What the call returns once its frame is sent to a worker that waits for one: the worker's answer,
      unchanged. A call it refuses comes back as an invalid header, and one it never answers as no response. */
  ghost predicate CallReturns(g: Graph, call: Call, longestFirst: bool, clock: nat -> nat, inTime: bool,
                              r: Result<Response, ScoreError>)
    requires GoodLengths(g.n, call.lengths) && BodyPacks(0, g.n, call)
  {
    var q := RequestOf(g.n, call, longestFirst);
    if !(4 <= g.n <= 128 && call.limit >= 2) then r == Err(NotAnswered(if inTime then InvalidHeader else NoResponse))
    else exists e :: AnswerTo(g, q, e) && r == Answer(e, clock, inTime)
  }

  function Answer(e: Scoring.Evaluation, clock: nat -> nat, inTime: bool): Result<Response, ScoreError> {
    if inTime && e.Answered? then Ok(Response(Timed(e.records, clock), e.status == Scoring.StatusDominated))
    else Err(NotAnswered(NoResponse))
  }

  /** What the worker writes for a request, if anything. One it refuses is answered under the number 0. */
  ghost predicate Replies(g: Graph, id: nat, q: Scoring.Request, clock: nat -> nat, out: Option<Bytes>) {
    if !Scoring.Accepted(g, q) then out == Some(ResponseFrame(0, STATUS_ERROR, []))
    else exists e :: AnswerTo(g, q, e) && out == Reply(id, e, clock)
  }

  function Reply(id: nat, e: Scoring.Evaluation, clock: nat -> nat): Option<Bytes> {
    if e.Endless? then None else Some(ResponseFrame(id, StatusCode(e.status), Timed(e.records, clock)))
  }

  /** The worker's turn on one request. */
  method Serve(ghost g: Graph, ghost id: nat, ghost q: Scoring.Request, input: Bytes, clock: nat -> nat)
    returns (out: Option<Bytes>)
    requires Scoring.Accepted(g, q) ==> NextTurn(input).0 == Request(Parsed(id, g.n, q, g.rows))
    requires !Scoring.Accepted(g, q) ==> NextTurn(input).0.Refused?
    ensures Replies(g, id, q, clock, out)
  {
    hide Pow256, NextTurn, ResponseFrame, Timed, Scoring.Scored, Scoring.InRange;
    var stream := new Stream(input);
    var turn := stream.Next();
    if turn.Refused? {
      var bytes := WriteResponse(0, STATUS_ERROR, []);
      return Some(bytes);
    }
    var request := turn.request;
    var seenAt, availableAt := new set<nat>[128], new set<nat>[128];
    var rows: Graph := BitGraph(request.order, request.rows);
    var e := Scoring.Score(rows, request.q, seenAt, availableAt);
    assert AnswerTo(g, q, e);
    if e.Endless? {
      assert None == Reply(id, e, clock);
      return None;
    }
    var bytes := WriteResponse(request.id, StatusCode(e.status), Timed(e.records, clock));
    out := Some(bytes);
    assert out == Reply(id, e, clock);
  }

  lemma Sent(id: nat, g: Graph, call: Call, longestFirst: bool)
    requires CallFault(id, g.n, call, longestFirst) == None
    ensures GoodLengths(g.n, call.lengths) && BodyPacks(0, g.n, call) && id < Pow256(8)
    ensures var q, turn := RequestOf(g.n, call, longestFirst),
                           NextTurn(Frame(id, g, RequestOf(g.n, call, longestFirst))).0;
      && (Scoring.Accepted(g, q) <==> 4 <= g.n <= 128 && call.limit >= 2)
      && (if Scoring.Accepted(g, q) then turn == Request(Parsed(id, g.n, q, g.rows)) else turn.Refused?)
  {
    hide PackAll, ReadAll, NextTurn, Frame, Payload, PayloadSize, Pow256, CallFault;
    CallDelivered(id, g, call, longestFirst, []);
    IdFits(id, g.n, call, longestFirst);
    var frame := Frame(id, g, RequestOf(g.n, call, longestFirst));
    assert frame + [] == frame;
  }

  lemma AskedByCall(g: Graph, call: Call, longestFirst: bool, length: nat)
    requires GoodLengths(g.n, call.lengths) && BodyPacks(0, g.n, call)
    requires length in RequestOf(g.n, call, longestFirst).lengths
    ensures length in call.lengths
  {
    var asked := RequestOf(g.n, call, longestFirst).lengths;
    var k :| 0 <= k < |asked| && asked[k] == length;
    assert call.lengths[k] == length;
  }

  lemma SameLengths(g: Graph, call: Call, longestFirst: bool, status: nat, found: seq<nat>)
    requires GoodLengths(g.n, call.lengths) && BodyPacks(0, g.n, call)
    requires LengthsAllowed(status, found, RequestOf(g.n, call, longestFirst).lengths)
    ensures LengthsAllowed(status, found, call.lengths)
  {
    var asked := RequestOf(g.n, call, longestFirst).lengths;
    forall i | 0 <= i < |found| && found[i] in asked
      ensures found[i] in call.lengths
    {
      AskedByCall(g, call, longestFirst, found[i]);
    }
  }

  /** An answer that reaches the lab is received as it was given. */
  lemma AnswerReceived(g: Graph, id: nat, call: Call, longestFirst: bool, e: Scoring.Evaluation, clock: nat -> nat,
                       received: Result<Response, ResponseError>)
    requires GoodLengths(g.n, call.lengths) && BodyPacks(0, g.n, call) && id < Pow256(8)
    requires AnswerTo(g, RequestOf(g.n, call, longestFirst), e) && e.Answered? && forall x :: clock(x) < Pow256(8)
    requires Receives(Reply(id, e, clock).value, id, call.lengths, received)
    ensures received == Ok(Response(Timed(e.records, clock), e.status == Scoring.StatusDominated))
  {
    hide Pow256, Timed, ResponseFrame, Receives, RecordFits, LengthsAllowed, AnswerTo, RequestOf, GoodLengths,
         BodyPacks;
    var records := Timed(e.records, clock);
    AnswerAllowed(g, RequestOf(g.n, call, longestFirst), e, clock);
    SameLengths(g, call, longestFirst, StatusCode(e.status), LengthsOf(records));
    var frame := ResponseFrame(id, StatusCode(e.status), records);
    assert frame + [] == frame;
    ResponseReceived(id, StatusCode(e.status), records, [], id, call.lengths, received);
  }

  /** A refusal reaches the lab under a number that is not its own. */
  lemma RefusalReceived(id: nat, asked: seq<int>, received: Result<Response, ResponseError>)
    requires id > 0 && Receives(ResponseFrame(0, STATUS_ERROR, []), id, asked, received)
    ensures received == Err(InvalidHeader)
  {
    hide Pow256, ResponseFrame, Receives, LengthsAllowed;
    var frame := ResponseFrame(0, STATUS_ERROR, []);
    assert frame + [] == frame;
    ResponseReceived(0, STATUS_ERROR, [], [], id, asked, received);
  }

  lemma CallComesBack(g: Graph, id: nat, call: Call, longestFirst: bool, clock: nat -> nat, inTime: bool,
                      out: Option<Bytes>, received: Result<Response, ResponseError>)
    requires id > 0 && CallFault(id, g.n, call, longestFirst) == None && forall x :: clock(x) < Pow256(8)
    requires GoodLengths(g.n, call.lengths) && BodyPacks(0, g.n, call)
    requires Replies(g, id, RequestOf(g.n, call, longestFirst), clock, out)
    requires out.Some? && inTime ==> Receives(out.value, id, call.lengths, received)
    ensures CallReturns(g, call, longestFirst, clock, inTime,
                        if out.None? || !inTime then Err(NotAnswered(NoResponse))
                        else if received.Ok? then Ok(received.value) else Err(NotAnswered(received.error)))
  {
    hide CallFault, Pow256, Timed, ResponseFrame, Receives, AnswerTo, RequestOf, GoodLengths, BodyPacks, NextTurn,
         Frame, Scoring.Accepted;
    Sent(id, g, call, longestFirst);
    var q := RequestOf(g.n, call, longestFirst);
    if !Scoring.Accepted(g, q) {
      if inTime {
        RefusalReceived(id, call.lengths, received);
      }
    } else {
      var e :| AnswerTo(g, q, e) && out == Reply(id, e, clock);
      if inTime && e.Answered? {
        AnswerReceived(g, id, call, longestFirst, e, clock, received);
      }
      assert AnswerTo(g, q, e);
    }
  }

  lemma NothingStops(process: Process, starts: bool, id: nat, n: nat, call: Call, longestFirst: bool)
    requires PackFault(process, starts, id, n, call, longestFirst) == None
    ensures CallFault(id, n, call, longestFirst) == None && LaunchFault(process, starts) == None
    ensures FreshPlan(KeyOf(n, call, longestFirst)).Ok?
  {
    hide FreshPlan;
  }

  // ---------- what a returned response means ----------

  lemma LengthAsked(g: Graph, q: Scoring.Request, r: CountResult)
    requires Scoring.CountedFor(g, q, r)
    ensures r.length >= 3
  {
  }

  lemma CompleteCount(g: Graph, q: Scoring.Request, r: CountResult)
    requires Scoring.Accepted(g, q) && Scoring.CountedFor(g, q, r) && r.complete
    ensures r.count == |AllCycles(g, r.length)|
  {
    BoundedMeaning(g, r.length, q.limit, BudgetOf(q.nodeBudget));
  }

  /** A returned response speaks the truth, whatever wrapped around inside the worker: a record marked complete
      has the number of all cycles of its length, a candidate not declared dominated has a record for every length
      asked for, and one declared dominated has a key at or beyond the cutoff. */
  lemma ResponseIsTrue(g: Graph, call: Call, longestFirst: bool, clock: nat -> nat, inTime: bool, r: Response)
    requires GoodLengths(g.n, call.lengths) && BodyPacks(0, g.n, call)
    requires CallReturns(g, call, longestFirst, clock, inTime, Ok(r))
    ensures forall i :: 0 <= i < |r.results| ==> r.results[i].length >= 3 && r.results[i].length in call.lengths
    ensures forall i :: 0 <= i < |r.results| && r.results[i].complete ==>
              r.results[i].count == |AllCycles(g, r.results[i].length)|
    ensures !r.dominated ==> LengthsAllowed(0, LengthsOf(r.results), call.lengths)
    ensures r.dominated ==> var q := RequestOf(g.n, call, longestFirst);
              Scoring.InRange(q.lengths) && Scoring.Dominated(q, Scoring.FullKey(g, q))
  {
    var q := RequestOf(g.n, call, longestFirst);
    var e :| AnswerTo(g, q, e) && Ok(r) == Answer(e, clock, inTime);
    hide Pow256, Scoring.Scored, Scoring.CountedFor, Scoring.EvaluationOrder, Scoring.FullKey, Scoring.Dominated,
         RequestOf, GoodLengths, BodyPacks;
    Scoring.RecordsAreCounts(g, q, e);
    forall i | 0 <= i < |r.results|
      ensures r.results[i].length >= 3 && r.results[i].length in call.lengths
      ensures r.results[i].complete ==> r.results[i].count == |AllCycles(g, r.results[i].length)|
    {
      LengthAsked(g, q, e.records[i]);
      AskedByCall(g, call, longestFirst, e.records[i].length);
      if e.records[i].complete {
        CompleteCount(g, q, e.records[i]);
      }
    }
    if e.status == Scoring.StatusOk {
      Scoring.FullRecords(g, q, e);
      SameLengths(g, call, longestFirst, 0, LengthsOf(r.results));
    } else {
      Scoring.DominatedAnswer(g, q, e);
    }
  }
  // ---------- what a call is answered, in terms of its own fields ----------

  ghost predicate Callable(g: Graph, call: Call) {
    GoodLengths(g.n, call.lengths) && call.limit >= 1 && call.nodeBudget >= 1
  }

  /** The cycles found of one length under the call's limit and budget, capped one below the limit. */
  ghost function PenaltyOf(g: Graph, call: Call, length: int): nat
    requires length >= 3 && call.limit >= 1 && call.nodeBudget >= 1
  {
    var found := |Bounded(g, length, call.limit, Some(call.nodeBudget)).found|;
    if found < call.limit then found else call.limit - 1
  }

  ghost function TotalOf(g: Graph, call: Call, lengths: seq<int>): nat
    requires Callable(g, call) && forall i :: 0 <= i < |lengths| ==> lengths[i] >= 3
  {
    if lengths == [] then 0 else PenaltyOf(g, call, lengths[0]) + TotalOf(g, call, lengths[1..])
  }

  ghost function WeightedOf(g: Graph, call: Call, lengths: seq<int>): nat
    requires Callable(g, call) && forall i :: 0 <= i < |lengths| ==> lengths[i] >= 3
  {
    if lengths == [] then 0
    else PenaltyOf(g, call, lengths[0]) * Scoring.Weight(lengths[0]) + WeightedOf(g, call, lengths[1..])
  }

  /** A key, total before weighted total before number of edges, lies above the call's cutoff, or on it when the
      call includes it. */
  ghost predicate BeyondKey(call: Call, total: nat, weighted: nat, edges: nat) {
    match call.cutoff
    case None => false
    case Some((t, w, s)) =>
      || total > t
      || (total == t && (weighted > w || (weighted == w && (edges > s || (edges == s && call.inclusive)))))
  }

  /** The candidate's key is at or beyond the cutoff. */
  ghost predicate Beyond(g: Graph, call: Call)
    requires Callable(g, call)
  {
    && call.lengths != []
    && BeyondKey(call, TotalOf(g, call, call.lengths), WeightedOf(g, call, call.lengths),
                 |set u, v | 0 <= u < v < g.n && Edge(g, u, v) :: (u, v)|)
  }

  /** A record made under the call's limit and budget: the whole search for its length, or in a dominated answer
      possibly the search cut off at the count it reports. */
  ghost predicate MadeFor(g: Graph, call: Call, dominated: bool, r: Record)
    requires Callable(g, call)
  {
    && r.length >= 3
    && var full := Bounded(g, r.length, call.limit, Some(call.nodeBudget));
       || (r.count == |full.found| && r.nodes == full.nodes
           && (r.complete <==> !full.exhausted && |full.found| < call.limit))
       || (dominated && !r.complete && 0 < r.count <= call.limit
           && var part := Bounded(g, r.length, r.count, Some(call.nodeBudget));
              r.count == |part.found| && r.nodes == part.nodes)
  }

  /** A dominated verdict is right, and when no sum can wrap around a verdict of not dominated is right too. */
  ghost predicate VerdictRight(g: Graph, call: Call, dominated: bool)
    requires Callable(g, call)
  {
    && (dominated ==> Beyond(g, call))
    && (|call.lengths| * (21 * call.limit) < TWO32 && Beyond(g, call) ==> dominated)
  }

  /** One record a length asked for, unless the candidate is dominated: then for the lengths tried first, or none
      in compact form. */
  ghost predicate RecordsRight(g: Graph, call: Call, longestFirst: bool, clock: nat -> nat, r: Response)
    requires Callable(g, call)
  {
    && |r.results| <= |call.lengths|
    && (!r.dominated ==> |r.results| == |call.lengths|)
    && (r.dominated && call.compact ==> r.results == [])
    && var first := if longestFirst && call.cutoff.Some? then |call.lengths| - |r.results| else 0;
       forall i :: 0 <= i < |r.results| ==>
         && r.results[i].length == call.lengths[first + i] && r.results[i].elapsed == clock(r.results[i].length)
         && MadeFor(g, call, r.dominated, r.results[i])
  }

  /** What a response says about the call it answers. */
  ghost predicate Judged(g: Graph, call: Call, longestFirst: bool, clock: nat -> nat, r: Response) {
    && Callable(g, call)
    && VerdictRight(g, call, r.dominated)
    && RecordsRight(g, call, longestFirst, clock, r)
  }

  lemma {:induction false} SumsOfCall(g: Graph, call: Call, longestFirst: bool, lengths: seq<int>)
    requires Callable(g, call) && BodyPacks(0, g.n, call) && forall i :: 0 <= i < |lengths| ==> lengths[i] >= 3
    ensures var q := RequestOf(g.n, call, longestFirst);
      && TotalOf(g, call, lengths) == Scoring.Total(g, q, Naturals(lengths))
      && WeightedOf(g, call, lengths) == Scoring.Weighted(g, q, Naturals(lengths))
  {
    hide Pow256, GoodLengths;
    if lengths != [] {
      assert Naturals(lengths)[1..] == Naturals(lengths[1..]);
      SumsOfCall(g, call, longestFirst, lengths[1..]);
    }
  }

  lemma ReachedIsBeyond(n: nat, call: Call, longestFirst: bool, total: nat, weighted: nat, edges: nat)
    requires GoodLengths(n, call.lengths) && BodyPacks(0, n, call)
    ensures Scoring.CutoffReached(RequestOf(n, call, longestFirst), total, weighted, edges)
            <==> BeyondKey(call, total, weighted, edges)
  {
    RequestFields(n, call, longestFirst);
    hide Pow256, GoodLengths, BodyPacks, RequestOf;
  }

  lemma BeyondIsDominated(g: Graph, call: Call, longestFirst: bool)
    requires Callable(g, call) && BodyPacks(0, g.n, call)
    ensures var q := RequestOf(g.n, call, longestFirst);
      && Scoring.InRange(q.lengths)
      && (Beyond(g, call) <==> q.lengths != [] && Scoring.Dominated(q, Scoring.FullKey(g, q)))
  {
    var q := RequestOf(g.n, call, longestFirst);
    SumsOfCall(g, call, longestFirst, call.lengths);
    RequestFields(g.n, call, longestFirst);
    assert Scoring.InRange(q.lengths);
    var total, weighted, edges := TotalOf(g, call, call.lengths), WeightedOf(g, call, call.lengths), Scoring.Size(g);
    assert Beyond(g, call) <==> call.lengths != [] && BeyondKey(call, total, weighted, edges);
    assert Scoring.FullKey(g, q) == [total, weighted, edges];
    hide *;
    ReachedIsBeyond(g.n, call, longestFirst, total, weighted, edges);
    Scoring.CutoffReachedIsDominated(q, total, weighted, edges);
  }

  lemma RecordMade(g: Graph, call: Call, longestFirst: bool, dominated: bool, c: CountResult, elapsed: nat)
    requires Callable(g, call) && BodyPacks(0, g.n, call)
    requires Scoring.CountedFor(g, RequestOf(g.n, call, longestFirst), c) && (c.cutoffReached ==> dominated)
    ensures MadeFor(g, call, dominated, Record(c.length, c.count, c.complete, c.nodes, elapsed))
  {
    hide Pow256, GoodLengths;
  }

  lemma VerdictOfCall(g: Graph, call: Call, longestFirst: bool, e: Scoring.Evaluation)
    requires Callable(g, call) && BodyPacks(0, g.n, call)
    requires AnswerTo(g, RequestOf(g.n, call, longestFirst), e) && e.Answered?
    ensures VerdictRight(g, call, e.status == Scoring.StatusDominated)
  {
    var q := RequestOf(g.n, call, longestFirst);
    BeyondIsDominated(g, call, longestFirst);
    RequestFields(g.n, call, longestFirst);
    hide Pow256, Scoring.Scored, Scoring.EvaluationOrder, Scoring.FullKey, Scoring.Dominated, BodyPacks, Beyond,
         RequestOf, GoodLengths, Scoring.Accepted, Scoring.AllFull, Scoring.CountedFor;
    if e.status == Scoring.StatusDominated {
      Scoring.DominatedAnswer(g, q, e);
    }
    if |call.lengths| * (21 * call.limit) < TWO32 {
      Scoring.FittingAnswer(g, q, e);
    }
  }

  lemma FullIsNotCut(g: Graph, q: Scoring.Request, lengths: seq<nat>, records: seq<CountResult>)
    requires Scoring.InRange(lengths) && Scoring.AllFull(g, q, lengths, records)
    ensures |records| == |lengths|
    ensures forall i :: 0 <= i < |records| ==> !records[i].cutoffReached
  {
    forall i | 0 <= i < |records|
      ensures !records[i].cutoffReached
    {
      assert Scoring.FullyCounted(g, q, lengths[i], records[i]);
    }
  }

  lemma RecordsOfCall(g: Graph, call: Call, longestFirst: bool, e: Scoring.Evaluation, clock: nat -> nat)
    requires Callable(g, call) && BodyPacks(0, g.n, call)
    requires AnswerTo(g, RequestOf(g.n, call, longestFirst), e) && e.Answered?
    ensures var dominated, records := e.status == Scoring.StatusDominated, Timed(e.records, clock);
      && |records| <= |call.lengths| && (!dominated ==> |records| == |call.lengths|)
      && (dominated && call.compact ==> records == [])
      && forall i :: 0 <= i < |records| ==> MadeFor(g, call, dominated, records[i])
  {
    var q := RequestOf(g.n, call, longestFirst);
    var dominated, records := e.status == Scoring.StatusDominated, Timed(e.records, clock);
    RequestFields(g.n, call, longestFirst);
    hide Pow256, Scoring.Scored, Scoring.CountedFor, Scoring.EvaluationOrder, BodyPacks, MadeFor, RequestOf,
         GoodLengths, Scoring.AllFull, Scoring.LengthsRise, Scoring.InRange;
    Scoring.RecordsAreCounts(g, q, e);
    if dominated {
      Scoring.DominatedAnswer(g, q, e);
    } else {
      Scoring.FullRecords(g, q, e);
      FullIsNotCut(g, q, q.lengths, e.records);
    }
    forall i | 0 <= i < |records|
      ensures MadeFor(g, call, dominated, records[i])
    {
      RecordMade(g, call, longestFirst, dominated, e.records[i], records[i].elapsed);
    }
  }

  lemma LengthsOfCall(g: Graph, call: Call, longestFirst: bool, e: Scoring.Evaluation, i: nat)
    requires GoodLengths(g.n, call.lengths) && BodyPacks(0, g.n, call)
    requires AnswerTo(g, RequestOf(g.n, call, longestFirst), e) && e.Answered? && i < |e.records|
    ensures |e.records| <= |call.lengths|
    ensures var first := if longestFirst && call.cutoff.Some? then |call.lengths| - |e.records| else 0;
            e.records[i].length == call.lengths[first + i]
  {
    var q := RequestOf(g.n, call, longestFirst);
    assert Scoring.Accepted(g, q) && Scoring.InRange(Scoring.EvaluationOrder(q)) && Scoring.Scored(g, q, e);
    hide *;
    RequestFields(g.n, call, longestFirst);
    Scoring.RecordsAreTriedFirst(g, q, e);
  }

  lemma TimedAt(records: seq<CountResult>, clock: nat -> nat, i: nat)
    requires i < |records|
    ensures Timed(records, clock)[i].length == records[i].length
    ensures Timed(records, clock)[i].elapsed == clock(records[i].length)
  {
  }

  lemma RecordsAreRight(g: Graph, call: Call, longestFirst: bool, e: Scoring.Evaluation, clock: nat -> nat)
    requires Callable(g, call) && BodyPacks(0, g.n, call)
    requires AnswerTo(g, RequestOf(g.n, call, longestFirst), e) && e.Answered?
    ensures RecordsRight(g, call, longestFirst, clock,
                         Response(Timed(e.records, clock), e.status == Scoring.StatusDominated))
  {
    hide Pow256, AnswerTo, BodyPacks, MadeFor, RequestOf, GoodLengths, Timed;
    RecordsOfCall(g, call, longestFirst, e, clock);
    forall i | 0 <= i < |e.records|
      ensures var first := if longestFirst && call.cutoff.Some? then |call.lengths| - |e.records| else 0;
              Timed(e.records, clock)[i].length == call.lengths[first + i]
      ensures Timed(e.records, clock)[i].elapsed == clock(Timed(e.records, clock)[i].length)
    {
      LengthsOfCall(g, call, longestFirst, e, i);
      TimedAt(e.records, clock, i);
    }
  }

  /** Every response the lab takes judges the candidate by the call's own cutoff, limit and budget. */
  lemma ResponseJudges(g: Graph, call: Call, longestFirst: bool, clock: nat -> nat, inTime: bool, r: Response)
    requires GoodLengths(g.n, call.lengths) && BodyPacks(0, g.n, call)
    requires CallReturns(g, call, longestFirst, clock, inTime, Ok(r))
    ensures Judged(g, call, longestFirst, clock, r)
  {
    var q := RequestOf(g.n, call, longestFirst);
    var e :| AnswerTo(g, q, e) && Ok(r) == Answer(e, clock, inTime);
    assert Callable(g, call);
    hide AnswerTo, BodyPacks, Beyond, MadeFor, RequestOf, GoodLengths, Timed, VerdictRight, RecordsRight;
    VerdictOfCall(g, call, longestFirst, e);
    RecordsAreRight(g, call, longestFirst, e, clock);
  }

  /** Only a limit of 2^32 - 1 can leave a call that is in time without an answer. */
  lemma CallIsAnswered(g: Graph, call: Call, longestFirst: bool, clock: nat -> nat, r: Result<Response, ScoreError>)
    requires GoodLengths(g.n, call.lengths) && BodyPacks(0, g.n, call)
    requires CallReturns(g, call, longestFirst, clock, true, r)
    requires 4 <= g.n <= 128 && 2 <= call.limit < TWO32 - 1
    ensures r.Ok?
  {
    var q := RequestOf(g.n, call, longestFirst);
    var e :| AnswerTo(g, q, e) && r == Answer(e, clock, true);
    hide Scoring.Scored, Scoring.EvaluationOrder, Scoring.Accepted, Pow256;
    Scoring.ScoredAnswers(g, q, e);
  }

  /** One call from end to end: packed, sent to a worker with nothing left to read, answered, received. */
  method Score(worker: Worker, g: Graph, call: Call, starts: bool, clock: nat -> nat, inTime: bool)
    returns (r: Result<Response, ScoreError>)
    requires worker.Valid() && forall x :: clock(x) < Pow256(8)
    modifies worker`plan, worker`requestId, worker`process
    ensures worker.Valid()
    ensures var fault := PackFault(old(worker.process), starts, old(worker.requestId) + 1, g.n, call,
                                   worker.longestFirst);
      if fault.Some? then r == Err(NotSent(fault.value))
      else GoodLengths(g.n, call.lengths) && BodyPacks(0, g.n, call)
           && CallReturns(g, call, worker.longestFirst, clock, inTime, r)
    ensures r.Ok? ==> Judged(g, call, worker.longestFirst, clock, r.value)
    ensures (r.Err? ==> r.error.NotAnswered?) && inTime && 4 <= g.n <= 128 && 2 <= call.limit < TWO32 - 1 ==> r.Ok?
  {
    hide CallFault, Pow256, Receives, RequestOf, GoodLengths, BodyPacks, NextTurn, Frame, FreshPlan, Replies,
         CallReturns, PackFault, LaunchFault, Judged;
    ghost var process, before := worker.process, worker.requestId;
    var packed := worker.Pack(g, call, starts);
    if packed.Err? {
      return Err(NotSent(packed.error));
    }
    NothingStops(process, starts, before + 1, g.n, call, worker.longestFirst);
    var id := worker.requestId;
    Sent(id, g, call, worker.longestFirst);
    var out := Serve(g, id, RequestOf(g.n, call, worker.longestFirst), packed.value, clock);
    var received: Result<Response, ResponseError> := Err(NoResponse);
    if out.Some? && inTime {
      received := Receive(out.value, id, call.lengths);
    }
    CallComesBack(g, id, call, worker.longestFirst, clock, inTime, out, received);
    r := if received.Ok? then Ok(received.value) else Err(NotAnswered(received.error));
    if r.Ok? {
      ResponseJudges(g, call, worker.longestFirst, clock, inTime, r.value);
    } else if inTime && 4 <= g.n <= 128 && 2 <= call.limit < TWO32 - 1 {
      CallIsAnswered(g, call, worker.longestFirst, clock, r);
    }
  }
}
