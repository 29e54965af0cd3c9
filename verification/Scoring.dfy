/** The score worker's evaluation of one request: cycle counts length by length, abandoned as soon as the
    penalties prove the candidate dominated by a cutoff. */
module Scoring {
  import opened Collections
  import opened Outcomes
  import opened Graphs
  import opened Preorder
  import opened CountCycles

  /** Unsigned 32-bit arithmetic. */
  function U32(x: nat): nat {
    x % TWO32
  }

  function Min(a: nat, b: nat): nat {
    if a < b then a else b
  }

  function Times(a: nat, b: nat): nat {
    a * b
  }

  datatype Request = Request(limit: nat, nodeBudget: nat, flags: nat,
                             cutoffTotal: nat, cutoffWeighted: nat, cutoffSimplicity: nat,
                             cutoffInclusive: bool, lengths: seq<nat>)
  {
    predicate HasCutoff() { flags % 2 == 1 }
    predicate LongestFirst() { flags / 2 % 2 == 1 }
    predicate Compact() { flags / 4 % 2 == 1 }
  }

  /** What the request reader lets through. */
  ghost predicate Accepted(g: Graph, q: Request) {
    && 4 <= g.n <= 128
    && 2 <= q.limit < TWO32 && 0 < q.nodeBudget < TWO32 && q.flags < 8
    && (q.Compact() ==> q.HasCutoff())
    && q.cutoffTotal < TWO32 && q.cutoffWeighted < TWO32 && q.cutoffSimplicity < TWO32
    && |q.lengths| <= 64
    && (forall i :: 0 <= i < |q.lengths| ==> 3 <= q.lengths[i] <= g.n)
    && (forall i, j :: 0 <= i < j < |q.lengths| ==> q.lengths[i] < q.lengths[j])
  }

  /** No length weighs more than 64 / 3, so this keeps every 32-bit sum exact. The search asks for at most
      10000 witnesses a length. */
  predicate Fits(q: Request) {
    |q.lengths| * (21 * q.limit) < TWO32
  }

  lemma SearchRequestsFit(q: Request)
    requires q.limit <= 10001 && |q.lengths| <= 64
    ensures Fits(q)
  {
  }

  // ---------- the cutoff test ----------

  function CutoffReached(q: Request, total: nat, weighted: nat, simplicity: nat): bool {
    if !q.HasCutoff() then false
    else
      var greater := total > q.cutoffTotal
                     || (total == q.cutoffTotal
                         && (weighted > q.cutoffWeighted
                             || (weighted == q.cutoffWeighted && simplicity > q.cutoffSimplicity)));
      var equal := total == q.cutoffTotal && weighted == q.cutoffWeighted && simplicity == q.cutoffSimplicity;
      greater || (q.cutoffInclusive && equal)
  }

  ghost predicate LexAbove(a: seq<nat>, b: seq<nat>)
    requires |a| == |b|
  {
    |a| > 0 && (a[0] > b[0] || (a[0] == b[0] && LexAbove(a[1..], b[1..])))
  }

  /** The score key is dominated when it lies lexicographically above the cutoff, or on an inclusive one. */
  ghost predicate Dominated(q: Request, key: seq<nat>)
    requires |key| == 3
  {
    var cutoff := [q.cutoffTotal, q.cutoffWeighted, q.cutoffSimplicity];
    q.HasCutoff() && (LexAbove(key, cutoff) || (q.cutoffInclusive && key == cutoff))
  }

  lemma CutoffReachedIsDominated(q: Request, total: nat, weighted: nat, simplicity: nat)
    ensures CutoffReached(q, total, weighted, simplicity) <==> Dominated(q, [total, weighted, simplicity])
  {
    var key := [total, weighted, simplicity];
    var cutoff := [q.cutoffTotal, q.cutoffWeighted, q.cutoffSimplicity];
    assert key[1..] == [weighted, simplicity] && cutoff[1..] == [q.cutoffWeighted, q.cutoffSimplicity];
    assert key[1..][1..] == [simplicity] && cutoff[1..][1..] == [q.cutoffSimplicity];
    assert key[1..][1..][1..] == [] && cutoff[1..][1..][1..] == [];
    assert LexAbove(key[1..][1..], cutoff[1..][1..]) <==> simplicity > q.cutoffSimplicity;
    assert LexAbove(key[1..], cutoff[1..]) <==>
           weighted > q.cutoffWeighted || (weighted == q.cutoffWeighted && simplicity > q.cutoffSimplicity);
    assert key == cutoff <==> key[0] == cutoff[0] && key[1] == cutoff[1] && key[2] == cutoff[2];
  }

  /** Penalties only grow, so a reached cutoff stays reached. */
  lemma CutoffMonotone(q: Request, t: nat, w: nat, t': nat, w': nat, simplicity: nat)
    requires t <= t' && w <= w' && CutoffReached(q, t, w, simplicity)
    ensures CutoffReached(q, t', w', simplicity)
  {
  }

  // ---------- the full evaluation ----------

  function Weight(length: nat): (w: nat)
    requires length >= 3
    ensures 1 <= w <= 21
  {
    if 64 / length > 1 then 64 / length else 1
  }

  /** The weight of a length is the greatest number of copies of it that 64 has room for, and at least 1. */
  lemma WeightMeaning(length: nat, w: nat)
    requires length >= 3
    ensures 1 <= w <= Weight(length) <==> w == 1 || (w > 1 && w * length <= 64)
  {
    var most := 64 / length;
    assert most * length <= 64 < (most + 1) * length;
    if w <= most {
      MultiplyMonotone(w, most, length);
    } else {
      MultiplyMonotone(most + 1, w, length);
    }
  }

  /** The penalty of one length under the request's limit and budget, with nothing cut short. */
  ghost function Penalty(g: Graph, q: Request, length: nat): nat
    requires length > 0 && q.limit > 0
  {
    Min(|Bounded(g, length, q.limit, BudgetOf(q.nodeBudget)).found|, q.limit - 1)
  }

  /** A penalty is below the limit and no more than the number of cycles of the length, and within the node
      budget it is that number, capped one below the limit. */
  lemma PenaltyMeaning(g: Graph, q: Request, length: nat)
    requires length >= 3 && q.limit > 0
    ensures var cycles := |AllCycles(g, length)|;
      && Penalty(g, q, length) <= cycles && Penalty(g, q, length) < q.limit
      && (|AllTrails(g, length)| <= q.nodeBudget ==>
            Penalty(g, q, length) == if cycles < q.limit then cycles else q.limit - 1)
  {
    BoundedMeaning(g, length, q.limit, BudgetOf(q.nodeBudget));
  }

  ghost predicate InRange(lengths: seq<nat>) {
    forall i :: 0 <= i < |lengths| ==> lengths[i] >= 3
  }

  ghost function Total(g: Graph, q: Request, lengths: seq<nat>): nat
    requires InRange(lengths) && q.limit > 0
  {
    if lengths == [] then 0 else Penalty(g, q, lengths[0]) + Total(g, q, lengths[1..])
  }

  ghost function Weighted(g: Graph, q: Request, lengths: seq<nat>): nat
    requires InRange(lengths) && q.limit > 0
  {
    if lengths == [] then 0 else Penalty(g, q, lengths[0]) * Weight(lengths[0]) + Weighted(g, q, lengths[1..])
  }

  ghost function FullKey(g: Graph, q: Request): seq<nat>
    requires InRange(q.lengths) && q.limit > 0
  {
    [Total(g, q, q.lengths), Weighted(g, q, q.lengths), Size(g)]
  }

  function DegreeSum(g: Graph, k: nat): (d: nat)
    requires k <= g.n
    ensures d <= k * g.n
  {
    if k == 0 then 0
    else
      RowSize(g, k - 1);
      DegreeSum(g, k - 1) + |g.rows[k - 1]|
  }

  lemma RowSize(g: Graph, u: nat)
    requires u < g.n
    ensures |g.rows[u]| <= g.n
  {
    forall v | v in g.rows[u]
      ensures v in Vertices(g.n)
    {
      EdgeSymmetric(g, u, v);
    }
    SubsetSize(g.rows[u], Vertices(g.n));
  }

  ghost function Edges(g: Graph): set<(nat, nat)> {
    set u, v | 0 <= u < v < g.n && Edge(g, u, v) :: (u, v)
  }

  /** The number of edges. */
  ghost function Size(g: Graph): nat {
    |Edges(g)|
  }

  /** The edges out of the first k vertices, each with its direction. */
  ghost function Arcs(g: Graph, k: nat): set<(nat, nat)>
    requires k <= g.n
  {
    set u, v | 0 <= u < k && 0 <= v < g.n && Edge(g, u, v) :: (u, v)
  }

  ghost function ArcsFrom(g: Graph, u: nat): set<(nat, nat)>
    requires u < g.n
  {
    set v | v in g.rows[u] :: (u, v)
  }

  lemma ArcsFromCount(g: Graph, u: nat)
    requires u < g.n
    ensures |ArcsFrom(g, u)| == |g.rows[u]|
  {
    ImageSize(g.rows[u], v => (u, v), ArcsFrom(g, u));
  }

  lemma ArcsStep(g: Graph, u: nat)
    requires u < g.n
    ensures Arcs(g, u + 1) == Arcs(g, u) + ArcsFrom(g, u) && Arcs(g, u) !! ArcsFrom(g, u)
  {
    assert forall v :: v in g.rows[u] ==> v < g.n;
    hide WellFormed;
    forall x, y
      ensures (x, y) in Arcs(g, u + 1) <==> (x, y) in Arcs(g, u) || (x, y) in ArcsFrom(g, u)
    {
    }
  }

  lemma {:induction false} ArcsCount(g: Graph, k: nat)
    requires k <= g.n
    ensures |Arcs(g, k)| == DegreeSum(g, k)
  {
    if k == 0 {
      assert Arcs(g, 0) == {};
    } else {
      ArcsCount(g, k - 1);
      ArcsStep(g, k - 1);
      ArcsFromCount(g, k - 1);
      hide Arcs, ArcsFrom, WellFormed;
    }
  }

  ghost function Turned(s: set<(nat, nat)>): set<(nat, nat)> {
    set a | a in s :: (a.1, a.0)
  }

  lemma TurnedCount(s: set<(nat, nat)>)
    ensures |Turned(s)| == |s|
    ensures forall x, y :: (x, y) in Turned(s) <==> (y, x) in s
  {
    ImageSize(s, (a: (nat, nat)) => (a.1, a.0), Turned(s));
    forall x, y | (y, x) in s
      ensures (x, y) in Turned(s)
    {
      var a := (y, x);
      assert a in s;
    }
  }

  /** Every edge is an arc both ways. */
  lemma ArcsAreEdges(g: Graph)
    ensures Arcs(g, g.n) == Edges(g) + Turned(Edges(g)) && Edges(g) !! Turned(Edges(g))
  {
    TurnedCount(Edges(g));
    hide Turned;
    forall x: nat, y: nat
      ensures (x, y) in Arcs(g, g.n) <==> (x, y) in Edges(g) || (x, y) in Turned(Edges(g))
      ensures !((x, y) in Edges(g) && (x, y) in Turned(Edges(g)))
    {
      EdgeSymmetric(g, x, y);
    }
    hide Arcs, Edges;
    forall a: (nat, nat)
      ensures a in Arcs(g, g.n) <==> a in Edges(g) || a in Turned(Edges(g))
      ensures !(a in Edges(g) && a in Turned(Edges(g)))
    {
      var (x, y) := a;
    }
  }

  /** The degrees count every edge twice. */
  lemma DegreeSumIsTwiceSize(g: Graph)
    ensures DegreeSum(g, g.n) == 2 * Size(g)
  {
    ArcsCount(g, g.n);
    ArcsAreEdges(g);
    TurnedCount(Edges(g));
    hide Arcs, Edges, Turned, WellFormed, DegreeSum;
  }

  lemma {:induction false} SumsSplit(g: Graph, q: Request, a: seq<nat>, b: seq<nat>)
    requires InRange(a) && InRange(b) && q.limit > 0
    ensures InRange(a + b)
    ensures Total(g, q, a + b) == Total(g, q, a) + Total(g, q, b)
    ensures Weighted(g, q, a + b) == Weighted(g, q, a) + Weighted(g, q, b)
  {
    if a == [] {
      assert a + b == b;
    } else {
      assert (a + b)[1..] == a[1..] + b;
      SumsSplit(g, q, a[1..], b);
    }
  }

  lemma {:induction false} SumsReverse(g: Graph, q: Request, a: seq<nat>)
    requires InRange(a) && q.limit > 0
    ensures InRange(Reverse(a))
    ensures Total(g, q, Reverse(a)) == Total(g, q, a)
    ensures Weighted(g, q, Reverse(a)) == Weighted(g, q, a)
  {
    if a != [] {
      SumsReverse(g, q, a[1..]);
      SumsSplit(g, q, Reverse(a[1..]), [a[0]]);
    }
  }

  lemma SumsStep(g: Graph, q: Request, a: seq<nat>, i: nat)
    requires InRange(a) && q.limit > 0 && i < |a|
    ensures Total(g, q, a[..i + 1]) == Total(g, q, a[..i]) + Penalty(g, q, a[i])
    ensures Weighted(g, q, a[..i + 1]) == Weighted(g, q, a[..i]) + Penalty(g, q, a[i]) * Weight(a[i])
    ensures Total(g, q, a[..i + 1]) <= Total(g, q, a) && Weighted(g, q, a[..i + 1]) <= Weighted(g, q, a)
  {
    assert a[..i + 1] == a[..i] + [a[i]];
    SumsSplit(g, q, a[..i], [a[i]]);
    assert a == a[..i + 1] + a[i + 1..];
    SumsSplit(g, q, a[..i + 1], a[i + 1..]);
  }

  lemma PenaltyTimesWeight(p: nat, w: nat, limit: nat)
    requires p < limit && 1 <= w <= 21
    ensures p <= p * w < 21 * limit
  {
  }

  /** A length adds less than 21 limits to the weighted sum. */
  lemma {:induction false} SumsFit(g: Graph, q: Request, a: seq<nat>, unit: nat)
    requires InRange(a) && q.limit > 0 && unit == 21 * q.limit
    ensures Total(g, q, a) <= Weighted(g, q, a) <= |a| * unit
  {
    if a != [] {
      SumsFit(g, q, a[1..], unit);
      PenaltyTimesWeight(Penalty(g, q, a[0]), Weight(a[0]), q.limit);
      OneMore(|a| - 1, |a|, unit);
    }
  }

  lemma OneMore(i: nat, n: nat, unit: nat)
    requires i < n
    ensures i * unit + unit <= n * unit
  {
    MultiplyMonotone(i + 1, n, unit);
  }

  /** Lengths without penalties have no weighted penalties. */
  lemma {:induction false} NothingWeighted(g: Graph, q: Request, a: seq<nat>)
    requires InRange(a) && q.limit > 0 && Total(g, q, a) == 0
    ensures Weighted(g, q, a) == 0
  {
    if a != [] {
      NothingWeighted(g, q, a[1..]);
    }
  }

  // ---------- the order of evaluation and of the answer ----------

  function EvaluationOrder(q: Request): seq<nat> {
    if q.LongestFirst() then Reverse(q.lengths) else q.lengths
  }

  function Insert(x: CountResult, s: seq<CountResult>): seq<CountResult> {
    if s == [] || x.length < s[0].length then [x] + s else [s[0]] + Insert(x, s[1..])
  }

  /** The answer's records are sorted by length. */
  function SortByLength(s: seq<CountResult>): seq<CountResult> {
    if s == [] then [] else Insert(s[0], SortByLength(s[1..]))
  }

  ghost predicate LengthsRise(s: seq<CountResult>) {
    forall i, j :: 0 <= i < j < |s| ==> s[i].length < s[j].length
  }

  ghost predicate LengthsFall(s: seq<CountResult>) {
    forall i, j :: 0 <= i < j < |s| ==> s[i].length > s[j].length
  }

  lemma {:induction false} SortRising(s: seq<CountResult>)
    requires LengthsRise(s)
    ensures SortByLength(s) == s
  {
    if s != [] {
      SortRising(s[1..]);
    }
  }

  lemma {:induction false} InsertLast(x: CountResult, s: seq<CountResult>)
    requires forall i :: 0 <= i < |s| ==> s[i].length < x.length
    ensures Insert(x, s) == s + [x]
  {
    if s != [] {
      InsertLast(x, s[1..]);
    }
  }

  lemma {:induction false} SortFalling(s: seq<CountResult>)
    requires LengthsFall(s)
    ensures SortByLength(s) == Reverse(s)
  {
    if s != [] {
      SortFalling(s[1..]);
      InsertLast(s[0], Reverse(s[1..]));
    }
  }

  // ---------- what the evaluation answers ----------

  datatype Status = StatusOk | StatusDominated

  /** The worker's evaluation: an answer, or a loop it never leaves. */
  datatype Evaluation = Endless | Answered(status: Status, records: seq<CountResult>)

  ghost predicate FullyCounted(g: Graph, q: Request, length: nat, r: CountResult)
    requires length > 0
  {
    Counted(g, length, q.limit, q.nodeBudget, 0, r)
  }

  ghost function FullResult(g: Graph, q: Request, length: nat): (r: CountResult)
    requires length > 0
    ensures FullyCounted(g, q, length, r)
  {
    var t := Bounded(g, length, q.limit, BudgetOf(q.nodeBudget));
    CountResult(length, |t.found|, !t.exhausted && |t.found| < q.limit, t.nodes, false)
  }

  ghost predicate AllFull(g: Graph, q: Request, lengths: seq<nat>, records: seq<CountResult>)
    requires InRange(lengths)
  {
    |records| == |lengths| && forall j :: 0 <= j < |lengths| ==> FullyCounted(g, q, lengths[j], records[j])
  }

  /** The sums as they are once c cycles of the i-th length have been counted, modulo 2^32, reach the cutoff. */
  ghost predicate Trips(g: Graph, q: Request, order: seq<nat>, i: nat, c: nat)
    requires i < |order| && InRange(order) && q.limit > 0
  {
    var p := Min(c, q.limit - 1);
    CutoffReached(q, U32(Total(g, q, order[..i]) + p), U32(Weighted(g, q, order[..i]) + Times(p, Weight(order[i]))),
                  Size(g))
  }

  ghost predicate TripsWithin(g: Graph, q: Request, order: seq<nat>, i: nat, most: nat)
    requires i < |order| && InRange(order) && q.limit > 0
  {
    exists c :: 0 <= c <= most && Trips(g, q, order, i, c)
  }

  /** The search for the threshold never ends: its counter stays within the limit whatever it is, and no count
      reaches the cutoff. */
  ghost predicate Hangs(g: Graph, q: Request, order: seq<nat>, i: nat)
    requires i < |order| && InRange(order) && q.limit > 0
  {
    q.HasCutoff() && q.limit == TWO32 - 1 && !TripsWithin(g, q, order, i, q.limit)
  }

  /** The first i lengths are counted in full, and no count of theirs reaches the cutoff. */
  ghost predicate Quiet(g: Graph, q: Request, order: seq<nat>, i: nat)
    requires i <= |order| && InRange(order) && q.limit > 0
  {
    forall j :: 0 <= j < i ==>
      !Hangs(g, q, order, j) && !TripsWithin(g, q, order, j, FullResult(g, q, order[j]).count)
  }

  /** The i-th length is abandoned at its c-th cycle, the first count of all that reaches the cutoff; at 0 it is
      not counted at all. */
  ghost predicate CutAt(g: Graph, q: Request, order: seq<nat>, i: nat, c: nat, records: seq<CountResult>)
    requires i < |order| && InRange(order) && q.limit > 0
  {
    && Quiet(g, q, order, i)
    && c <= FullResult(g, q, order[i]).count && Trips(g, q, order, i, c)
    && (forall d :: 0 <= d < c ==> !Trips(g, q, order, i, d))
    && |records| == i + (if c == 0 then 0 else 1) && AllFull(g, q, order[..i], records[..i])
    && (c > 0 ==> Counted(g, order[i], q.limit, q.nodeBudget, c, records[i]))
  }

  /** What the evaluation loop leaves behind. */
  ghost predicate Evaluated(g: Graph, q: Request, order: seq<nat>, e: Evaluation)
    requires InRange(order) && q.limit > 0
  {
    match e
    case Endless => exists i :: 0 <= i < |order| && Quiet(g, q, order, i) && Hangs(g, q, order, i)
    case Answered(StatusOk, records) => Quiet(g, q, order, |order|) && AllFull(g, q, order, records)
    case Answered(StatusDominated, records) => exists i, c :: 0 <= i < |order| && CutAt(g, q, order, i, c, records)
  }

  /** A request has one evaluation. */
  lemma EvaluatedOnce(g: Graph, q: Request, order: seq<nat>, e: Evaluation, f: Evaluation)
    requires InRange(order) && q.limit > 0
    requires Evaluated(g, q, order, e) && Evaluated(g, q, order, f)
    ensures e == f
  {
    hide Trips, FullResult, Counted;
    if e.Endless? {
      var i :| 0 <= i < |order| && Quiet(g, q, order, i) && Hangs(g, q, order, i);
      HangsIsLast(g, q, order, i, f);
    } else if f.Endless? {
      var i :| 0 <= i < |order| && Quiet(g, q, order, i) && Hangs(g, q, order, i);
      HangsIsLast(g, q, order, i, e);
    } else if e.status == StatusDominated {
      var i, c :| 0 <= i < |order| && CutAt(g, q, order, i, c, e.records);
      CutIsLast(g, q, order, i, c, e.records, f);
    } else if f.status == StatusDominated {
      var i, c :| 0 <= i < |order| && CutAt(g, q, order, i, c, f.records);
      CutIsLast(g, q, order, i, c, f.records, e);
    } else {
      FullOnce(g, q, order, e.records, f.records);
    }
  }

  lemma FullOnce(g: Graph, q: Request, lengths: seq<nat>, a: seq<CountResult>, b: seq<CountResult>)
    requires InRange(lengths) && AllFull(g, q, lengths, a) && AllFull(g, q, lengths, b)
    ensures a == b
  {
    forall j | 0 <= j < |lengths|
      ensures a[j] == b[j]
    {
      CountedOnce(g, lengths[j], q.limit, q.nodeBudget, 0, a[j], b[j]);
    }
  }

  lemma HangsIsLast(g: Graph, q: Request, order: seq<nat>, i: nat, f: Evaluation)
    requires InRange(order) && q.limit > 0 && i < |order|
    requires Quiet(g, q, order, i) && Hangs(g, q, order, i) && Evaluated(g, q, order, f)
    ensures f == Endless
  {
    hide Trips, FullResult, AllFull;
    FullCountFits(g, q, order, i);
  }

  lemma CutIsLast(g: Graph, q: Request, order: seq<nat>, i: nat, c: nat, records: seq<CountResult>, f: Evaluation)
    requires InRange(order) && q.limit > 0 && i < |order|
    requires CutAt(g, q, order, i, c, records) && Evaluated(g, q, order, f)
    ensures f == Answered(StatusDominated, records)
  {
    hide Trips, FullResult, AllFull, Counted;
    FullCountFits(g, q, order, i);
    assert TripsWithin(g, q, order, i, FullResult(g, q, order[i]).count);
    assert TripsWithin(g, q, order, i, q.limit);
    if f.Answered? && f.status == StatusDominated {
      var j, d :| 0 <= j < |order| && CutAt(g, q, order, j, d, f.records);
      assert TripsWithin(g, q, order, j, FullResult(g, q, order[j]).count);
      assert j == i && d == c;
      FullOnce(g, q, order[..i], records[..i], f.records[..i]);
      if c > 0 {
        CountedOnce(g, order[i], q.limit, q.nodeBudget, c, records[i], f.records[i]);
        assert records == records[..i] + [records[i]] && f.records == f.records[..i] + [f.records[i]];
      }
    }
  }

  lemma FullCountFits(g: Graph, q: Request, order: seq<nat>, i: nat)
    requires InRange(order) && q.limit > 0 && i < |order|
    ensures FullResult(g, q, order[i]).count <= q.limit
    ensures Penalty(g, q, order[i]) == Min(FullResult(g, q, order[i]).count, q.limit - 1)
  {
    BoundedMeaning(g, order[i], q.limit, BudgetOf(q.nodeBudget));
  }

  // ---------- the evaluation loop ----------

  predicate ReachedAt(q: Request, partialTotal: nat, partialWeighted: nat, weight: nat, simplicity: nat, count: nat)
    requires q.limit >= 1
  {
    var bounded := Min(count, q.limit - 1);
    CutoffReached(q, U32(partialTotal + bounded), U32(partialWeighted + U32(Times(bounded, weight))), simplicity)
  }

  /** The threshold loop's 32-bit counter after k increments. */
  function Counter(k: nat): nat {
    U32(1 + k)
  }

  /** After any number of rounds the loop's guard holds and its test fails. */
  ghost predicate NeverLeaves(q: Request, total: nat, weighted: nat, weight: nat, simplicity: nat)
    requires q.limit >= 1
  {
    forall k: nat :: Counter(k) <= q.limit && !ReachedAt(q, total, weighted, weight, simplicity, Counter(k))
  }

  /** The least count at which this length alone would reach the cutoff, 0 when no count does, or none when the
      loop that looks for it never ends. */
  ghost predicate IsStop(q: Request, total: nat, weighted: nat, weight: nat, simplicity: nat, stop: Option<nat>)
    requires q.limit >= 1
  {
    match stop
    case None => q.HasCutoff() && NeverLeaves(q, total, weighted, weight, simplicity)
    case Some(s) =>
      && s <= q.limit
      && (s == 0 && q.HasCutoff() ==> q.limit < TWO32 - 1)
      && (s > 0 ==> ReachedAt(q, total, weighted, weight, simplicity, s))
      && (forall c :: 1 <= c <= q.limit && (s == 0 || c < s) ==> !ReachedAt(q, total, weighted, weight, simplicity, c))
  }

  method StopAtCount(q: Request, partialTotal: nat, partialWeighted: nat, weight: nat, simplicity: nat)
    returns (stop: Option<nat>)
    requires 1 <= q.limit < TWO32
    requires !CutoffReached(q, U32(partialTotal), U32(partialWeighted), simplicity)
    ensures IsStop(q, partialTotal, partialWeighted, weight, simplicity, stop)
  {
    if !q.HasCutoff() {
      return Some(0);
    }
    var count := 1;
    while count <= q.limit
      invariant 1 <= count <= q.limit + 1 && count < TWO32
      invariant forall c :: 1 <= c < count ==> !ReachedAt(q, partialTotal, partialWeighted, weight, simplicity, c)
    {
      if ReachedAt(q, partialTotal, partialWeighted, weight, simplicity, count) {
        return Some(count);
      }
      if count == TWO32 - 1 {
        // The increment wraps around to 0, and every later round has been seen.
        AllRoundsSeen(q, partialTotal, partialWeighted, weight, simplicity);
        return None;
      }
      count := count + 1;
    }
    stop := Some(0);
  }

  lemma AllRoundsSeen(q: Request, total: nat, weighted: nat, weight: nat, simplicity: nat)
    requires q.limit == TWO32 - 1 && !CutoffReached(q, U32(total), U32(weighted), simplicity)
    requires forall c :: 1 <= c < TWO32 ==> !ReachedAt(q, total, weighted, weight, simplicity, c)
    ensures NeverLeaves(q, total, weighted, weight, simplicity)
  {
    hide CutoffReached;
    assert Times(0, weight) == 0;
    assert !ReachedAt(q, total, weighted, weight, simplicity, 0);
    hide ReachedAt;
    forall k: nat
      ensures Counter(k) <= q.limit && !ReachedAt(q, total, weighted, weight, simplicity, Counter(k))
    {
      assert 0 <= Counter(k) < TWO32;
    }
  }

  lemma U32Exact(x: nat)
    requires x < TWO32
    ensures U32(x) == x
  {
  }

  /** A sum modulo 2^32 may be reduced on the way. */
  lemma U32Sum(x: nat, y: nat)
    ensures U32(U32(x) + y) == U32(x + y) && U32(x + U32(y)) == U32(x + y)
  {
    assert x == TWO32 * (x / TWO32) + U32(x) && y == TWO32 * (y / TWO32) + U32(y);
    U32Drop(U32(x) + y, x / TWO32);
    U32Drop(x + U32(y), y / TWO32);
  }

  lemma {:induction false} U32Drop(z: nat, k: nat)
    ensures U32(z + TWO32 * k) == U32(z)
  {
    if k > 0 {
      U32Drop(z, k - 1);
      assert z + TWO32 * k == z + TWO32 * (k - 1) + TWO32;
    }
  }

  /** Where the loop stands after i lengths: wrapped partial sums, every length so far counted in full, and no
      count of theirs at the cutoff. */
  ghost predicate OnTrack(g: Graph, q: Request, order: seq<nat>, i: nat, total: nat, weighted: nat,
                          results: seq<CountResult>)
    requires InRange(order) && q.limit > 0
  {
    && i <= |order|
    && total == U32(Total(g, q, order[..i])) && weighted == U32(Weighted(g, q, order[..i]))
    && Quiet(g, q, order, i) && AllFull(g, q, order[..i], results)
  }

  lemma OnTrackParts(g: Graph, q: Request, order: seq<nat>, i: nat, total: nat, weighted: nat,
                     results: seq<CountResult>)
    requires InRange(order) && q.limit > 0 && OnTrack(g, q, order, i, total, weighted, results)
    ensures i <= |order| && Quiet(g, q, order, i) && AllFull(g, q, order[..i], results) && |results| == i
    ensures total == U32(Total(g, q, order[..i])) && weighted == U32(Weighted(g, q, order[..i]))
  {
  }

  /** The worker's test on its partial sums is the test on the true sums modulo 2^32. */
  lemma TripsIsReachedAt(g: Graph, q: Request, order: seq<nat>, i: nat, total: nat, weighted: nat, c: nat)
    requires InRange(order) && q.limit > 0 && i < |order|
    requires total == U32(Total(g, q, order[..i])) && weighted == U32(Weighted(g, q, order[..i]))
    ensures ReachedAt(q, total, weighted, Weight(order[i]), Size(g), c) <==> Trips(g, q, order, i, c)
    ensures CutoffReached(q, total, weighted, Size(g)) <==> Trips(g, q, order, i, 0)
    ensures U32(total) == total && U32(weighted) == weighted
  {
    hide CutoffReached, Total, Weighted, Size, Weight, U32, Times;
    WrappedTest(Total(g, q, order[..i]), Weighted(g, q, order[..i]), Min(c, q.limit - 1),
                Times(Min(c, q.limit - 1), Weight(order[i])));
    WrappedTest(Total(g, q, order[..i]), Weighted(g, q, order[..i]), 0, 0);
    TimesNothing(Weight(order[i]));
  }

  lemma TimesNothing(w: nat)
    ensures Times(0, w) == 0
  {
  }

  lemma WrappedTest(total: nat, weighted: nat, p: nat, pw: nat)
    ensures U32(U32(total) + p) == U32(total + p)
    ensures U32(U32(weighted) + U32(pw)) == U32(weighted + pw)
    ensures U32(U32(total)) == U32(total) && U32(U32(weighted)) == U32(weighted)
  {
    hide U32;
    U32Sum(total, p);
    U32Sum(total, 0);
    U32Sum(weighted, pw);
    U32Sum(weighted, U32(pw));
    U32Sum(weighted, 0);
  }

  lemma NeverLeavesSeesAll(q: Request, total: nat, weighted: nat, weight: nat, simplicity: nat)
    requires 1 <= q.limit < TWO32 && NeverLeaves(q, total, weighted, weight, simplicity)
    ensures q.limit == TWO32 - 1
    ensures forall c :: 1 <= c <= q.limit ==> !ReachedAt(q, total, weighted, weight, simplicity, c)
  {
    assert Counter(TWO32 - 2) == TWO32 - 1;
    forall c | 1 <= c <= q.limit
      ensures !ReachedAt(q, total, weighted, weight, simplicity, c)
    {
      assert Counter(c - 1) == c;
    }
  }

  lemma DegreeSumNext(g: Graph, row: nat)
    requires row < g.n <= 128
    ensures DegreeSum(g, row + 1) == DegreeSum(g, row) + |g.rows[row]| < TWO32
  {
    RowSize(g, row);
    OneMore(row, 128, g.n);
    hide WellFormed;
  }

  /** Half the sum of the row sizes, in 32-bit arithmetic: the number of edges. */
  method CountEdges(g: Graph) returns (simplicity: nat)
    requires g.n <= 128
    ensures simplicity == |set u, v | 0 <= u < v < g.n && Edge(g, u, v) :: (u, v)|
  {
    DegreeSumIsTwiceSize(g);
    simplicity := 0;
    var row := 0;
    while row < g.n
      invariant 0 <= row <= g.n && simplicity == DegreeSum(g, row)
    {
      DegreeSumNext(g, row);
      U32Exact(simplicity + |g.rows[row]|);
      simplicity := U32(simplicity + |g.rows[row]|);
      row := row + 1;
    }
    simplicity := simplicity / 2;
  }

  /** A threshold in terms of the true sums. */
  lemma StopMeans(g: Graph, q: Request, order: seq<nat>, i: nat, total: nat, weighted: nat, stop: Option<nat>)
    requires InRange(order) && 2 <= q.limit < TWO32 && i < |order|
    requires total == U32(Total(g, q, order[..i])) && weighted == U32(Weighted(g, q, order[..i]))
    requires IsStop(q, total, weighted, Weight(order[i]), Size(g), stop)
    ensures stop.None? ==> q.HasCutoff() && q.limit == TWO32 - 1
    ensures stop.Some? ==> stop.value <= q.limit && (stop.value == 0 ==> !q.HasCutoff() || q.limit < TWO32 - 1)
    ensures stop.Some? && stop.value > 0 ==> Trips(g, q, order, i, stop.value)
    ensures forall c :: 1 <= c <= q.limit && (stop.None? || stop.value == 0 || c < stop.value) ==>
              !Trips(g, q, order, i, c)
  {
    hide Trips, ReachedAt, CutoffReached, Weight, Size, Total, Weighted, U32;
    if stop.None? {
      NeverLeavesSeesAll(q, total, weighted, Weight(order[i]), Size(g));
    } else {
      TripsIsReachedAt(g, q, order, i, total, weighted, stop.value);
    }
    forall c | 1 <= c <= q.limit && (stop.None? || stop.value == 0 || c < stop.value)
      ensures !Trips(g, q, order, i, c)
    {
      TripsIsReachedAt(g, q, order, i, total, weighted, c);
    }
  }

  /** One length: what its threshold and its count decide. */
  lemma LengthDecided(g: Graph, q: Request, order: seq<nat>, i: nat, total: nat, weighted: nat,
                      results: seq<CountResult>, stop: Option<nat>)
    requires InRange(order) && 2 <= q.limit < TWO32 && i < |order| && order[i] <= g.n
    requires OnTrack(g, q, order, i, total, weighted, results) && !CutoffReached(q, total, weighted, Size(g))
    requires IsStop(q, total, weighted, Weight(order[i]), Size(g), stop)
    ensures stop.None? ==> Hangs(g, q, order, i)
    ensures stop.Some? && (stop.value == 0 || stop.value > FullResult(g, q, order[i]).count) ==>
              Quiet(g, q, order, i + 1)
    ensures stop.Some? && 0 < stop.value <= FullResult(g, q, order[i]).count ==>
              Trips(g, q, order, i, stop.value) && forall d :: 0 <= d < stop.value ==> !Trips(g, q, order, i, d)
  {
    hide OnTrack, Trips, ReachedAt, FullResult, CutoffReached, AllFull, Weight, Size, Total, Weighted, IsStop;
    OnTrackParts(g, q, order, i, total, weighted, results);
    TripsIsReachedAt(g, q, order, i, total, weighted, 0);
    FullCountFits(g, q, order, i);
    StopMeans(g, q, order, i, total, weighted, stop);
    if stop.Some? && (stop.value == 0 || stop.value > FullResult(g, q, order[i]).count) {
      assert !TripsWithin(g, q, order, i, FullResult(g, q, order[i]).count);
      assert stop.value > 0 ==> TripsWithin(g, q, order, i, q.limit);
    }
  }

  lemma CutShort(g: Graph, q: Request, order: seq<nat>, i: nat, results: seq<CountResult>, stop: nat, r: CountResult)
    requires InRange(order) && 2 <= q.limit && i < |order| && order[i] <= g.n
    requires Quiet(g, q, order, i) && AllFull(g, q, order[..i], results)
    requires 0 < stop <= FullResult(g, q, order[i]).count && Trips(g, q, order, i, stop)
    requires forall d :: 0 <= d < stop ==> !Trips(g, q, order, i, d)
    requires Counted(g, order[i], q.limit, q.nodeBudget, stop, r)
    ensures r.cutoffReached && CutAt(g, q, order, i, stop, results + [r])
  {
    FullCountFits(g, q, order, i);
    ThresholdIsExact(g, order[i], q.limit, q.nodeBudget, stop, r, FullResult(g, q, order[i]));
    assert (results + [r])[..i] == results;
    hide Trips, Quiet, Counted, FullResult, AllFull;
  }

  lemma CountedInFull(g: Graph, q: Request, order: seq<nat>, i: nat, stop: nat, r: CountResult)
    requires InRange(order) && 2 <= q.limit && i < |order| && order[i] <= g.n && stop <= q.limit
    requires stop == 0 || stop > FullResult(g, q, order[i]).count
    requires Counted(g, order[i], q.limit, q.nodeBudget, stop, r)
    ensures !r.cutoffReached && FullyCounted(g, q, order[i], r)
    ensures Penalty(g, q, order[i]) == Min(r.count, q.limit - 1)
  {
    FullCountFits(g, q, order, i);
    if stop > 0 {
      ThresholdIsExact(g, order[i], q.limit, q.nodeBudget, stop, r, FullResult(g, q, order[i]));
    }
    CountedOnce(g, order[i], q.limit, q.nodeBudget, 0, r, FullResult(g, q, order[i]));
  }

  lemma LengthAdded(g: Graph, q: Request, order: seq<nat>, i: nat, total: nat, weighted: nat,
                    results: seq<CountResult>, r: CountResult)
    requires InRange(order) && 2 <= q.limit && i < |order|
    requires OnTrack(g, q, order, i, total, weighted, results) && Quiet(g, q, order, i + 1)
    requires FullyCounted(g, q, order[i], r) && Penalty(g, q, order[i]) == Min(r.count, q.limit - 1)
    ensures var p := Min(r.count, q.limit - 1);
      OnTrack(g, q, order, i + 1, U32(total + p), U32(weighted + U32(Times(p, Weight(order[i])))), results + [r])
  {
    hide Trips, Quiet, Counted, FullyCounted, Penalty, Total, Weighted, U32, Min, Weight;
    SumsStep(g, q, order, i);
    WrappedTest(Total(g, q, order[..i]), Weighted(g, q, order[..i]), Min(r.count, q.limit - 1),
                Times(Min(r.count, q.limit - 1), Weight(order[i])));
    assert order[..i + 1] == order[..i] + [order[i]];
  }

  /** One length: find the threshold, count, add the capped penalty to the partial sums. */
  method EvaluateLength(g: Graph, q: Request, simplicity: nat, order: seq<nat>, i: nat, total: nat, weighted: nat,
                        ghost results: seq<CountResult>, seenAt: array<set<nat>>, availableAt: array<set<nat>>)
    returns (r: Option<CountResult>, total': nat, weighted': nat)
    requires InRange(order) && 2 <= q.limit < TWO32 && i < |order| && order[i] <= g.n <= 128
    requires OnTrack(g, q, order, i, total, weighted, results) && simplicity == Size(g)
    requires !CutoffReached(q, total, weighted, simplicity)
    requires 128 <= seenAt.Length && 128 <= availableAt.Length && seenAt != availableAt
    modifies seenAt, availableAt
    ensures r.None? ==> Hangs(g, q, order, i)
    ensures r.Some? && r.value.cutoffReached ==> exists c :: 0 < c && CutAt(g, q, order, i, c, results + [r.value])
    ensures r.Some? && !r.value.cutoffReached ==> OnTrack(g, q, order, i + 1, total', weighted', results + [r.value])
  {
    hide OnTrack, CutoffReached, IsStop, Counted, U32, Size, Min, Times, Trips, Hangs, Quiet, CutAt, FullResult,
         FullyCounted, AllFull, Penalty, Total, Weighted, Weight, InRange;
    LengthsAtLeastThree(order, i);
    OnTrackParts(g, q, order, i, total, weighted, results);
    TripsIsReachedAt(g, q, order, i, total, weighted, 0);
    var length := order[i];
    var cap := q.limit - 1;
    var weight := Weight(length);
    total', weighted' := total, weighted;
    var stop := StopAtCount(q, total, weighted, weight, simplicity);
    LengthDecided(g, q, order, i, total, weighted, results, stop);
    if stop.None? {
      return None, total, weighted;
    }
    StopFits(q, total, weighted, weight, simplicity, stop.value);
    var threshold := stop.value;
    var counted := Count(g, length, q.limit, q.nodeBudget, threshold, seenAt, availableAt);
    if 0 < threshold <= FullResult(g, q, order[i]).count {
      CutShort(g, q, order, i, results, threshold, counted);
    } else {
      CountedInFull(g, q, order, i, threshold, counted);
      LengthAdded(g, q, order, i, total, weighted, results, counted);
    }
    total' := U32(total + Min(counted.count, cap));
    weighted' := U32(weighted + U32(Times(Min(counted.count, cap), weight)));
    r := Some(counted);
  }

  lemma LengthsAtLeastThree(order: seq<nat>, i: nat)
    requires InRange(order) && i < |order|
    ensures order[i] >= 3
  {
  }

  lemma StopFits(q: Request, total: nat, weighted: nat, weight: nat, simplicity: nat, stop: nat)
    requires q.limit >= 1 && IsStop(q, total, weighted, weight, simplicity, Some(stop))
    ensures stop <= q.limit
  {
  }

  lemma OnTrackBegins(g: Graph, q: Request, order: seq<nat>)
    requires InRange(order) && q.limit > 0
    ensures OnTrack(g, q, order, 0, 0, 0, [])
  {
  }

  /** The partial sums reach the cutoff before the i-th length is counted. */
  lemma CutBefore(g: Graph, q: Request, order: seq<nat>, i: nat, total: nat, weighted: nat,
                  results: seq<CountResult>)
    requires InRange(order) && q.limit > 0 && i < |order|
    requires OnTrack(g, q, order, i, total, weighted, results) && CutoffReached(q, total, weighted, Size(g))
    ensures CutAt(g, q, order, i, 0, results)
  {
    TripsIsReachedAt(g, q, order, i, total, weighted, 0);
    hide Trips, Quiet, Counted, FullResult, CutoffReached, Total, Weighted;
    assert results[..i] == results;
  }

  lemma OnTrackEnds(g: Graph, q: Request, order: seq<nat>, total: nat, weighted: nat, results: seq<CountResult>)
    requires InRange(order) && q.limit > 0 && OnTrack(g, q, order, |order|, total, weighted, results)
    ensures Evaluated(g, q, order, Answered(StatusOk, results))
  {
    assert order[..|order|] == order;
  }

  lemma HangEnds(g: Graph, q: Request, order: seq<nat>, i: nat)
    requires InRange(order) && q.limit > 0 && i < |order| && Quiet(g, q, order, i) && Hangs(g, q, order, i)
    ensures Evaluated(g, q, order, Endless)
  {
    hide Quiet, Hangs;
  }

  lemma CutEnds(g: Graph, q: Request, order: seq<nat>, i: nat, c: nat, results: seq<CountResult>)
    requires InRange(order) && q.limit > 0 && i < |order| && CutAt(g, q, order, i, c, results)
    ensures Evaluated(g, q, order, Answered(StatusDominated, results))
  {
    hide CutAt;
  }

  method Evaluate(g: Graph, q: Request, simplicity: nat, seenAt: array<set<nat>>, availableAt: array<set<nat>>)
    returns (e: Evaluation)
    requires Accepted(g, q) && simplicity == Size(g)
    requires 128 <= seenAt.Length && 128 <= availableAt.Length && seenAt != availableAt
    modifies seenAt, availableAt
    ensures InRange(EvaluationOrder(q)) && Evaluated(g, q, EvaluationOrder(q), e)
  {
    var order := EvaluationOrder(q);
    OrderFacts(g, q);
    assert 2 <= q.limit < TWO32 && g.n <= 128;
    OnTrackBegins(g, q, order);
    hide *;
    var results: seq<CountResult> := [];
    var partialTotal: nat, partialWeighted: nat := 0, 0;
    var i := 0;
    while i < |order|
      invariant 0 <= i <= |order| && InRange(order)
      invariant OnTrack(g, q, order, i, partialTotal, partialWeighted, results)
    {
      OnTrackParts(g, q, order, i, partialTotal, partialWeighted, results);
      if CutoffReached(q, partialTotal, partialWeighted, simplicity) {
        CutBefore(g, q, order, i, partialTotal, partialWeighted, results);
        CutEnds(g, q, order, i, 0, results);
        return Answered(StatusDominated, results);
      }
      var r;
      r, partialTotal, partialWeighted :=
        EvaluateLength(g, q, simplicity, order, i, partialTotal, partialWeighted, results, seenAt, availableAt);
      if r.None? {
        HangEnds(g, q, order, i);
        return Endless;
      }
      results := results + [r.value];
      if r.value.cutoffReached {
        ghost var c :| 0 < c && CutAt(g, q, order, i, c, results);
        CutEnds(g, q, order, i, c, results);
        return Answered(StatusDominated, results);
      }
      i := i + 1;
    }
    OnTrackEnds(g, q, order, partialTotal, partialWeighted, results);
    e := Answered(StatusOk, results);
  }

  /** What becomes of the records: none of a compact dominated answer, otherwise sorted by length. */
  function Presented(q: Request, raw: Evaluation): Evaluation {
    match raw
    case Endless => Endless
    case Answered(status, records) =>
      Answered(status, if status == StatusDominated && q.Compact() then [] else SortByLength(records))
  }

  ghost predicate Scored(g: Graph, q: Request, e: Evaluation)
    requires Accepted(g, q) && InRange(EvaluationOrder(q))
  {
    exists raw :: Evaluated(g, q, EvaluationOrder(q), raw) && e == Presented(q, raw)
  }

  method Score(g: Graph, q: Request, seenAt: array<set<nat>>, availableAt: array<set<nat>>) returns (e: Evaluation)
    requires Accepted(g, q)
    requires 128 <= seenAt.Length && 128 <= availableAt.Length && seenAt != availableAt
    modifies seenAt, availableAt
    ensures InRange(EvaluationOrder(q)) && Scored(g, q, e)
  {
    var simplicity := CountEdges(g);
    var raw := Evaluate(g, q, simplicity, seenAt, availableAt);
    hide Evaluated;
    match raw {
      case Endless => e := Endless;
      case Answered(status, records) =>
        var kept := [];
        if !(status == StatusDominated && q.Compact()) {
          kept := SortByLength(records);
        }
        e := Answered(status, kept);
    }
    assert e == Presented(q, raw);
  }

  lemma OrderFacts(g: Graph, q: Request)
    requires Accepted(g, q)
    ensures var order := EvaluationOrder(q);
      && |order| == |q.lengths| && InRange(order) && InRange(q.lengths)
      && (forall i :: 0 <= i < |order| ==> 3 <= order[i] <= g.n && order[i] in q.lengths)
      && Total(g, q, order) == Total(g, q, q.lengths) && Weighted(g, q, order) == Weighted(g, q, q.lengths)
  {
    SumsReverse(g, q, q.lengths);
  }

  // ---------- when there is no answer ----------

  /** The greatest total a count can make of a partial sum t at the limit 2^32 - 1. */
  function Top(t: nat): nat
    requires t < TWO32
  {
    if t == 0 then TWO32 - 2 else TWO32 - 1
  }

  lemma U32Carry(x: nat, p: nat)
    requires p < TWO32
    ensures U32(x) < TWO32
    ensures U32(x + p) == if U32(x) + p < TWO32 then U32(x) + p else U32(x) + p - TWO32
  {
    U32Sum(x, p);
  }

  lemma TopTrips(g: Graph, q: Request, order: seq<nat>, i: nat, t: nat, c: nat)
    requires InRange(order) && i < |order| && q.HasCutoff() && q.limit == TWO32 - 1
    requires t == U32(Total(g, q, order[..i])) && c == Top(t) - t
    ensures Trips(g, q, order, i, c) <==>
            CutoffReached(q, Top(t), U32(Weighted(g, q, order[..i]) + Times(c, Weight(order[i]))), Size(g))
  {
    U32Carry(Total(g, q, order[..i]), c);
    hide Total, Weighted, Size, Weight, Times, U32;
  }

  lemma OtherTrips(g: Graph, q: Request, order: seq<nat>, i: nat, t: nat, c: nat)
    requires InRange(order) && i < |order| && q.HasCutoff() && q.limit == TWO32 - 1
    requires t == U32(Total(g, q, order[..i])) && Trips(g, q, order, i, c)
    ensures Trips(g, q, order, i, Top(t) - t)
  {
    var p := Min(c, q.limit - 1);
    U32Carry(Total(g, q, order[..i]), p);
    hide Total, Weighted, Size, Weight, Times, U32;
    if p != Top(t) - t {
      TopTrips(g, q, order, i, t, Top(t) - t);
    }
  }

  /** The exact condition under which the search for a threshold never ends, as one test on the partial sums:
      the limit is 2^32 - 1 and the greatest total a count can make does not reach the cutoff. */
  lemma HangsIff(g: Graph, q: Request, order: seq<nat>, i: nat, t: nat)
    requires InRange(order) && i < |order| && q.HasCutoff() && q.limit == TWO32 - 1
    requires t == U32(Total(g, q, order[..i]))
    ensures Hangs(g, q, order, i) <==>
            !CutoffReached(q, Top(t), U32(Weighted(g, q, order[..i]) + Times(Top(t) - t, Weight(order[i]))), Size(g))
  {
    TopTrips(g, q, order, i, t, Top(t) - t);
    hide CutoffReached, Trips, Total, Weighted, Size, Weight, Times, U32;
    if TripsWithin(g, q, order, i, q.limit) {
      var c :| 0 <= c <= q.limit && Trips(g, q, order, i, c);
      OtherTrips(g, q, order, i, t, c);
    }
  }

  lemma NoHang(g: Graph, q: Request, order: seq<nat>, i: nat)
    requires InRange(order) && 0 < q.limit < TWO32 && i < |order|
    requires q.limit < TWO32 - 1 || !q.HasCutoff() || q.cutoffTotal < TWO32 - 2
    ensures !Hangs(g, q, order, i)
  {
    if q.HasCutoff() && q.limit == TWO32 - 1 {
      var t := U32(Total(g, q, order[..i]));
      hide Hangs, Total, Weighted, Size, Weight, Times, Trips;
      HangsIff(g, q, order, i, t);
    }
  }

  /** Below that limit, without a cutoff, or with a cutoff total below 2^32 - 2, every request is answered. */
  lemma ScoredAnswers(g: Graph, q: Request, e: Evaluation)
    requires Accepted(g, q) && InRange(EvaluationOrder(q)) && Scored(g, q, e)
    requires q.limit < TWO32 - 1 || !q.HasCutoff() || q.cutoffTotal < TWO32 - 2 || q.lengths == []
    ensures e.Answered?
  {
    var order := EvaluationOrder(q);
    assert q.lengths == [] ==> order == [];
    hide Hangs, Quiet, CutAt, AllFull, EvaluationOrder, SortByLength;
    var raw :| Evaluated(g, q, order, raw) && e == Presented(q, raw);
    if raw.Endless? {
      var i :| 0 <= i < |order| && Quiet(g, q, order, i) && Hangs(g, q, order, i);
      NoHang(g, q, order, i);
      assert false;
    }
  }

  lemma HangsAtOnce(g: Graph, q: Request, order: seq<nat>)
    requires InRange(order) && order != [] && q.limit == TWO32 - 1 && q.HasCutoff() && q.cutoffTotal == TWO32 - 1
    ensures Evaluated(g, q, order, Endless)
  {
    assert order[..0] == [];
    assert U32(Total(g, q, order[..0])) == 0;
    hide Hangs, Total, Weighted, Size, Weight, Times, Trips;
    HangsIff(g, q, order, 0, 0);
    assert Quiet(g, q, order, 0);
  }

  /** With the greatest limit and the greatest cutoff total there are, no candidate is ever answered. */
  lemma NeverAnswers(g: Graph, q: Request, e: Evaluation)
    requires Accepted(g, q) && InRange(EvaluationOrder(q)) && Scored(g, q, e)
    requires q.limit == TWO32 - 1 && q.HasCutoff() && q.cutoffTotal == TWO32 - 1 && q.lengths != []
    ensures e == Endless
  {
    var order := EvaluationOrder(q);
    assert order != [];
    hide Evaluated, EvaluationOrder, SortByLength;
    var raw :| Evaluated(g, q, order, raw) && e == Presented(q, raw);
    HangsAtOnce(g, q, order);
    EvaluatedOnce(g, q, order, raw, Endless);
  }

  // ---------- when the verdict is right ----------

  /** The worker's verdict, read off the full sums: the weighted one loses its multiples of 2^32. */
  ghost predicate WrappedVerdict(g: Graph, q: Request, lengths: seq<nat>)
    requires InRange(lengths) && q.limit > 0
  {
    lengths != [] && CutoffReached(q, Total(g, q, lengths), U32(Weighted(g, q, lengths)), Size(g))
  }

  ghost predicate TrueVerdict(g: Graph, q: Request, lengths: seq<nat>)
    requires InRange(lengths) && q.limit > 0
  {
    lengths != [] && CutoffReached(q, Total(g, q, lengths), Weighted(g, q, lengths), Size(g))
  }

  lemma PrefixNext(g: Graph, q: Request, order: seq<nat>, i: nat)
    requires InRange(order) && q.limit > 0 && i < |order|
    ensures Total(g, q, order[..i + 1]) == Total(g, q, order[..i]) + Penalty(g, q, order[i]) <= Total(g, q, order)
    ensures Weighted(g, q, order[..i + 1])
            == Weighted(g, q, order[..i]) + Times(Penalty(g, q, order[i]), Weight(order[i])) <= Weighted(g, q, order)
  {
    SumsStep(g, q, order, i);
  }

  lemma CappedPenalty(g: Graph, q: Request, order: seq<nat>, i: nat, c: nat)
    requires InRange(order) && q.limit > 0 && i < |order| && c <= FullResult(g, q, order[i]).count
    ensures Min(c, q.limit - 1) <= Penalty(g, q, order[i])
    ensures Times(Min(c, q.limit - 1), Weight(order[i])) <= Times(Penalty(g, q, order[i]), Weight(order[i]))
  {
    FullCountFits(g, q, order, i);
    MultiplyMonotone(Min(c, q.limit - 1), Penalty(g, q, order[i]), Weight(order[i]));
  }

  lemma TripsMeans(g: Graph, q: Request, order: seq<nat>, i: nat, c: nat, p: nat)
    requires InRange(order) && q.limit > 0 && i < |order| && p == Min(c, q.limit - 1)
    ensures Trips(g, q, order, i, c) <==>
            CutoffReached(q, U32(Total(g, q, order[..i]) + p),
                          U32(Weighted(g, q, order[..i]) + Times(p, Weight(order[i]))), Size(g))
  {
  }

  /** Wrapped sums never exceed the true ones, so a cutoff they reach is truly reached. */
  lemma TripIsTrue(g: Graph, q: Request, order: seq<nat>, i: nat, c: nat)
    requires InRange(order) && q.limit > 0 && i < |order|
    requires c <= FullResult(g, q, order[i]).count && Trips(g, q, order, i, c)
    ensures TrueVerdict(g, q, order)
  {
    hide FullResult, Penalty, Total, Weighted, Size, Weight, CutoffReached, Min, Times, Trips, U32;
    var p := Min(c, q.limit - 1);
    CappedPenalty(g, q, order, i, c);
    PrefixNext(g, q, order, i);
    TripsMeans(g, q, order, i, c, p);
    WrappedBelow(q, Total(g, q, order[..i]) + p, Weighted(g, q, order[..i]) + Times(p, Weight(order[i])),
                 Total(g, q, order), Weighted(g, q, order), Size(g));
  }

  lemma WrappedBelow(q: Request, t: nat, w: nat, t': nat, w': nat, simplicity: nat)
    requires t <= t' && w <= w' && CutoffReached(q, U32(t), U32(w), simplicity)
    ensures CutoffReached(q, t', w', simplicity)
  {
    CutoffMonotone(q, U32(t), U32(w), t', w', simplicity);
  }

  /** A count at which the cutoff is reached shows in the full sums, wrapped as they may be. */
  lemma TripShows(g: Graph, q: Request, order: seq<nat>, i: nat, c: nat)
    requires InRange(order) && q.limit > 0 && i < |order| && q.cutoffTotal < TWO32
    requires c <= FullResult(g, q, order[i]).count && Trips(g, q, order, i, c)
    ensures WrappedVerdict(g, q, order)
  {
    CappedPenalty(g, q, order, i, c);
    SumsStep(g, q, order, i);
    var p := Min(c, q.limit - 1);
    if Total(g, q, order) <= q.cutoffTotal {
      U32Exact(Total(g, q, order[..i]) + p);
      assert Total(g, q, order[..i]) + p == Total(g, q, order) == q.cutoffTotal;
      assert p == Penalty(g, q, order[i]);
      TailWeighsNothing(g, q, order, i);
    }
  }

  lemma TailWeighsNothing(g: Graph, q: Request, order: seq<nat>, i: nat)
    requires InRange(order) && q.limit > 0 && i < |order|
    requires Total(g, q, order[..i]) + Penalty(g, q, order[i]) == Total(g, q, order)
    ensures Weighted(g, q, order) == Weighted(g, q, order[..i]) + Penalty(g, q, order[i]) * Weight(order[i])
  {
    SumsStep(g, q, order, i);
    assert order == order[..i + 1] + order[i + 1..];
    hide Total, Weighted, Penalty;
    SumsSplit(g, q, order[..i + 1], order[i + 1..]);
    NothingWeighted(g, q, order[i + 1..]);
  }

  lemma TripsUnwrapped(g: Graph, q: Request, order: seq<nat>, i: nat, c: nat, p: nat)
    requires InRange(order) && q.limit > 0 && i < |order| && p == Min(c, q.limit - 1)
    requires Total(g, q, order[..i]) + p < TWO32
    ensures Trips(g, q, order, i, c) <==>
            CutoffReached(q, Total(g, q, order[..i]) + p, U32(Weighted(g, q, order[..i]) + Times(p, Weight(order[i]))),
                          Size(g))
  {
    hide Total, Weighted, CutoffReached, Size, Weight, Times, Min, Trips, U32;
    TripsMeans(g, q, order, i, c, p);
    U32Exact(Total(g, q, order[..i]) + p);
  }

  lemma NotTripping(g: Graph, q: Request, order: seq<nat>, i: nat, most: nat, c: nat)
    requires InRange(order) && q.limit > 0 && i < |order| && !TripsWithin(g, q, order, i, most) && c <= most
    ensures !Trips(g, q, order, i, c)
  {
  }

  lemma BelowCutoff(q: Request, total: nat, weighted: nat, simplicity: nat)
    requires q.HasCutoff() && !CutoffReached(q, total, weighted, simplicity)
    ensures total <= q.cutoffTotal
  {
  }

  /** The totals climb one cycle at a time, so they do not pass a cutoff below 2^32 - 1 unseen. */
  lemma NoOvershoot(g: Graph, q: Request, order: seq<nat>, i: nat)
    requires InRange(order) && q.limit > 0 && i < |order| && q.HasCutoff() && q.cutoffTotal < TWO32 - 1
    requires !TripsWithin(g, q, order, i, FullResult(g, q, order[i]).count)
    requires Total(g, q, order[..i]) <= q.cutoffTotal
    ensures Total(g, q, order[..i]) + Penalty(g, q, order[i]) <= q.cutoffTotal
  {
    hide Trips, TripsWithin, FullResult, Penalty, Total, Weighted, Size, Weight, U32, Times, CutoffReached;
    FullCountFits(g, q, order, i);
    if Total(g, q, order[..i]) + Penalty(g, q, order[i]) > q.cutoffTotal {
      var c := q.cutoffTotal + 1 - Total(g, q, order[..i]);
      NotTripping(g, q, order, i, FullResult(g, q, order[i]).count, c);
      TripsUnwrapped(g, q, order, i, c, c);
      BelowCutoff(q, Total(g, q, order[..i]) + c, U32(Weighted(g, q, order[..i]) + Times(c, Weight(order[i]))),
                  Size(g));
      assert false;
    }
  }

  lemma StaysBelow(g: Graph, q: Request, order: seq<nat>, i: nat)
    requires InRange(order) && q.limit > 0 && i < |order| && q.HasCutoff() && q.cutoffTotal < TWO32
    requires Total(g, q, order) < TWO32 || q.cutoffTotal < TWO32 - 1
    requires !TripsWithin(g, q, order, i, FullResult(g, q, order[i]).count)
    requires !CutoffReached(q, Total(g, q, order[..i]), U32(Weighted(g, q, order[..i])), Size(g))
    ensures !CutoffReached(q, Total(g, q, order[..i + 1]), U32(Weighted(g, q, order[..i + 1])), Size(g))
  {
    hide Trips, TripsWithin, FullResult, Penalty, Total, Weighted, Size, Weight, U32, CutoffReached, Times, Min;
    var full := FullResult(g, q, order[i]).count;
    PrefixNext(g, q, order, i);
    FullCountFits(g, q, order, i);
    NotTripping(g, q, order, i, full, full);
    if Total(g, q, order) >= TWO32 {
      BelowCutoff(q, Total(g, q, order[..i]), U32(Weighted(g, q, order[..i])), Size(g));
      NoOvershoot(g, q, order, i);
    }
    TripsUnwrapped(g, q, order, i, full, Penalty(g, q, order[i]));
  }

  lemma {:induction false} QuietStaysBelow(g: Graph, q: Request, order: seq<nat>, i: nat)
    requires InRange(order) && q.limit > 0 && 0 < i <= |order| && q.HasCutoff() && q.cutoffTotal < TWO32
    requires Total(g, q, order) < TWO32 || q.cutoffTotal < TWO32 - 1
    requires Quiet(g, q, order, i)
    ensures !CutoffReached(q, Total(g, q, order[..i]), U32(Weighted(g, q, order[..i])), Size(g))
  {
    if i == 1 {
      assert !Trips(g, q, order, 0, 0);
      TimesNothing(Weight(order[0]));
    } else {
      QuietStaysBelow(g, q, order, i - 1);
    }
    hide Trips, CutoffReached, FullResult;
    StaysBelow(g, q, order, i - 1);
  }

  /** Every answered request is declared dominated exactly when, at some count of some length, the sums modulo 2^32
      reach the cutoff. */
  lemma VerdictIsTrip(g: Graph, q: Request, order: seq<nat>, e: Evaluation)
    requires InRange(order) && q.limit > 0 && Evaluated(g, q, order, e) && e.Answered?
    ensures e.status == StatusDominated <==>
            exists i :: 0 <= i < |order| && TripsWithin(g, q, order, i, FullResult(g, q, order[i]).count)
  {
    hide Trips, FullResult, AllFull, Counted;
    if e.status == StatusDominated {
      var i, c :| 0 <= i < |order| && CutAt(g, q, order, i, c, e.records);
      assert TripsWithin(g, q, order, i, FullResult(g, q, order[i]).count);
    }
  }

  /** The verdict of every answered request: the cutoff test on the full sums, the weighted one modulo 2^32.
      The only requests left out have the greatest cutoff total there is and more cycles than it. */
  lemma VerdictIsWrapped(g: Graph, q: Request, order: seq<nat>, e: Evaluation)
    requires InRange(order) && q.limit > 0 && q.cutoffTotal < TWO32
    requires Total(g, q, order) < TWO32 || q.cutoffTotal < TWO32 - 1
    requires Evaluated(g, q, order, e) && e.Answered?
    ensures e.status == StatusDominated <==> WrappedVerdict(g, q, order)
  {
    hide Trips, FullResult, AllFull, Counted;
    if e.status == StatusDominated {
      var i, c :| 0 <= i < |order| && CutAt(g, q, order, i, c, e.records);
      TripShows(g, q, order, i, c);
    } else if order != [] && q.HasCutoff() {
      QuietStaysBelow(g, q, order, |order|);
      assert order[..|order|] == order;
    }
  }

  /** A dominated verdict is right, whatever has wrapped around. */
  lemma DominatedIsTrue(g: Graph, q: Request, order: seq<nat>, e: Evaluation)
    requires InRange(order) && q.limit > 0
    requires Evaluated(g, q, order, e) && e.Answered? && e.status == StatusDominated
    ensures TrueVerdict(g, q, order)
  {
    hide Trips, FullResult, AllFull, Counted, TrueVerdict;
    var i, c :| 0 <= i < |order| && CutAt(g, q, order, i, c, e.records);
    TripIsTrue(g, q, order, i, c);
  }

  lemma DominatedAnswer(g: Graph, q: Request, e: Evaluation)
    requires Accepted(g, q) && InRange(EvaluationOrder(q)) && Scored(g, q, e)
    requires e.Answered? && e.status == StatusDominated
    ensures InRange(q.lengths) && q.lengths != [] && Dominated(q, FullKey(g, q))
  {
    OrderFacts(g, q);
    hide Evaluated, Total, Weighted, InRange, EvaluationOrder, Size, CutoffReached, Dominated;
    var raw :| Evaluated(g, q, EvaluationOrder(q), raw) && e == Presented(q, raw);
    DominatedIsTrue(g, q, EvaluationOrder(q), raw);
    CutoffReachedIsDominated(q, Total(g, q, q.lengths), Weighted(g, q, q.lengths), Size(g));
  }

  /** The cutoff's total is met exactly, and the weighted sum that should decide has wrapped to the wrong side. */
  ghost predicate TieWraps(g: Graph, q: Request)
    requires InRange(q.lengths) && q.limit > 0
  {
    && q.lengths != [] && q.HasCutoff()
    && Total(g, q, q.lengths) == q.cutoffTotal && Weighted(g, q, q.lengths) >= TWO32
    && !CutoffReached(q, q.cutoffTotal, U32(Weighted(g, q, q.lengths)), Size(g))
  }

  /** The verdict does not depend on the order in which the lengths were tried. */
  lemma ScoredVerdict(g: Graph, q: Request, e: Evaluation)
    requires Accepted(g, q) && InRange(EvaluationOrder(q)) && InRange(q.lengths)
    requires Total(g, q, q.lengths) < TWO32 || q.cutoffTotal < TWO32 - 1
    requires Scored(g, q, e) && e.Answered?
    ensures e.status == StatusDominated <==> WrappedVerdict(g, q, q.lengths)
  {
    OrderFacts(g, q);
    hide Evaluated, Total, Weighted, InRange, EvaluationOrder, Size, CutoffReached;
    var raw :| Evaluated(g, q, EvaluationOrder(q), raw) && e == Presented(q, raw);
    VerdictIsWrapped(g, q, EvaluationOrder(q), raw);
  }

  /** Exactly when the verdict is right: it says dominated just when the true key is, unless a tie wraps. */
  lemma VerdictRightIff(g: Graph, q: Request, e: Evaluation)
    requires Accepted(g, q) && InRange(EvaluationOrder(q)) && InRange(q.lengths)
    requires Total(g, q, q.lengths) < TWO32 || q.cutoffTotal < TWO32 - 1
    requires Scored(g, q, e) && e.Answered?
    ensures (e.status == StatusDominated <==> q.lengths != [] && Dominated(q, FullKey(g, q))) <==> !TieWraps(g, q)
  {
    assert q.cutoffWeighted < TWO32;
    ScoredVerdict(g, q, e);
    hide Scored, Accepted, Total, Weighted, InRange, EvaluationOrder, Size;
    CutoffReachedIsDominated(q, Total(g, q, q.lengths), Weighted(g, q, q.lengths), Size(g));
    if Weighted(g, q, q.lengths) < TWO32 {
      U32Exact(Weighted(g, q, q.lengths));
    }
  }

  /** No sum can wrap around when the request's lengths and limit are small enough, as the search's are. */
  lemma FittingNeverWraps(g: Graph, q: Request)
    requires InRange(q.lengths) && q.limit > 0 && Fits(q)
    ensures Total(g, q, q.lengths) <= Weighted(g, q, q.lengths) < TWO32 && !TieWraps(g, q)
  {
    if q.lengths == [] {
    } else {
      SumsFit(g, q, q.lengths[1..], 21 * q.limit);
      PenaltyTimesWeight(Penalty(g, q, q.lengths[0]), Weight(q.lengths[0]), q.limit);
      OneMore(|q.lengths| - 1, |q.lengths|, 21 * q.limit);
    }
  }

  lemma OneLength(g: Graph, q: Request, length: nat)
    requires length >= 3 && q.limit > 0
    ensures Total(g, q, [length]) == Penalty(g, q, length)
    ensures Weighted(g, q, [length]) == Penalty(g, q, length) * Weight(length)
  {
    assert [length][1..] == [];
  }

  lemma SizeFits(g: Graph)
    requires g.n <= 128
    ensures Size(g) < TWO32
  {
    DegreeSumIsTwiceSize(g);
    MultiplyMonotone(g.n, 128, g.n);
  }

  const MISSED := Request(357913943, TWO32 - 1, 1, 357913942, 8, TWO32 - 1, false, [5])

  lemma MissedTies(g: Graph, q: Request)
    requires q == MISSED && g.n <= 128 && Penalty(g, q, 5) == 357913942
    ensures InRange(q.lengths) && TieWraps(g, q) && Dominated(q, FullKey(g, q))
  {
    hide Total, Weighted, Size, Dominated, Penalty;
    OneLength(g, q, 5);
    SizeFits(g);
    assert U32(TWO32 + 8) == 8;
    assert CutoffReached(q, Total(g, q, q.lengths), Weighted(g, q, q.lengths), Size(g));
    CutoffReachedIsDominated(q, Total(g, q, q.lengths), Weighted(g, q, q.lengths), Size(g));
  }

  /** A request outside `Fits` that gets the wrong verdict: one length of weight 12 whose penalty is the cutoff's
      total, 357913942, so that the weighted sum is 2^32 + 8 and counts as 8. */
  lemma MissedCutoff(g: Graph, q: Request, e: Evaluation)
    requires q == MISSED
    requires 5 <= g.n <= 128 && Penalty(g, q, 5) == 357913942
    requires InRange(EvaluationOrder(q)) && Accepted(g, q) && Scored(g, q, e)
    ensures e.Answered? && e.status == StatusOk && Dominated(q, FullKey(g, q))
  {
    hide Total, Weighted, Size, Evaluated, Dominated, Penalty, Scored, EvaluationOrder, TieWraps;
    MissedTies(g, q);
    OneLength(g, q, 5);
    ScoredAnswers(g, q, e);
    VerdictRightIff(g, q, e);
  }

  // ---------- the records ----------

  lemma RawRecords(g: Graph, q: Request, order: seq<nat>, e: Evaluation)
    requires InRange(order) && 2 <= q.limit && Evaluated(g, q, order, e) && e.Answered?
    requires forall i :: 0 <= i < |order| ==> order[i] <= g.n
    ensures |e.records| <= |order| && forall j :: 0 <= j < |e.records| ==> e.records[j].length == order[j]
    ensures forall j :: 0 <= j < |e.records| ==> CountedFor(g, q, e.records[j])
    ensures e.status == StatusOk ==> AllFull(g, q, order, e.records)
  {
    hide Trips, Quiet;
    if e.status == StatusDominated {
      var i, c :| 0 <= i < |order| && CutAt(g, q, order, i, c, e.records);
      assert AllFull(g, q, order[..i], e.records[..i]);
      if c > 0 {
        FullCountFits(g, q, order, i);
        ThresholdIsExact(g, order[i], q.limit, q.nodeBudget, c, e.records[i], FullResult(g, q, order[i]));
      }
    }
  }

  /** A record is the full count of its length, or was cut off where its count alone reached the cutoff. */
  ghost predicate CountedFor(g: Graph, q: Request, r: CountResult) {
    && r.length >= 3
    && (if r.cutoffReached then 0 < r.count <= q.limit && Counted(g, r.length, q.limit, q.nodeBudget, r.count, r)
        else FullyCounted(g, q, r.length, r))
  }

  /** Records gathered in evaluation order come out of the sort in increasing order of length. */
  lemma SortAnswer(q: Request, raw: seq<CountResult>)
    requires |raw| <= |q.lengths|
    requires forall i, j :: 0 <= i < j < |q.lengths| ==> q.lengths[i] < q.lengths[j]
    requires forall j :: 0 <= j < |raw| ==> raw[j].length == EvaluationOrder(q)[j]
    ensures SortByLength(raw) == if q.LongestFirst() then Reverse(raw) else raw
    ensures LengthsRise(SortByLength(raw))
  {
    if q.LongestFirst() {
      SortFalling(raw);
    } else {
      SortRising(raw);
    }
  }

  /** The records of an answer are those the loop left, in one order or the other. */
  lemma SortedRecords(q: Request, raw: seq<CountResult>)
    requires |raw| <= |q.lengths|
    requires forall i, j :: 0 <= i < j < |q.lengths| ==> q.lengths[i] < q.lengths[j]
    requires forall j :: 0 <= j < |raw| ==> raw[j].length == EvaluationOrder(q)[j]
    ensures |SortByLength(raw)| == |raw| && LengthsRise(SortByLength(raw))
    ensures forall i :: 0 <= i < |raw| ==>
              SortByLength(raw)[i] == raw[if q.LongestFirst() then |raw| - 1 - i else i]
    ensures |raw| == |q.lengths| ==> forall i :: 0 <= i < |raw| ==> SortByLength(raw)[i].length == q.lengths[i]
  {
    hide SortByLength, Reverse, LengthsRise;
    SortAnswer(q, raw);
    if |raw| == |q.lengths| && q.LongestFirst() {
      forall i | 0 <= i < |raw|
        ensures SortByLength(raw)[i].length == q.lengths[i]
      {
        assert raw[|raw| - 1 - i].length == Reverse(q.lengths)[|raw| - 1 - i];
      }
    }
  }

  lemma RawAnswer(g: Graph, q: Request, e: Evaluation) returns (raw: Evaluation)
    requires Accepted(g, q) && InRange(EvaluationOrder(q)) && Scored(g, q, e) && e.Answered?
    ensures Evaluated(g, q, EvaluationOrder(q), raw) && raw.Answered? && raw.status == e.status
    ensures e.records == if e.status == StatusDominated && q.Compact() then [] else SortByLength(raw.records)
    ensures |raw.records| <= |q.lengths| == |EvaluationOrder(q)|
    ensures forall j :: 0 <= j < |raw.records| ==>
              raw.records[j].length == EvaluationOrder(q)[j] && EvaluationOrder(q)[j] in q.lengths
    ensures forall j :: 0 <= j < |raw.records| ==> CountedFor(g, q, raw.records[j])
    ensures e.status == StatusOk ==> AllFull(g, q, EvaluationOrder(q), raw.records)
  {
    hide Evaluated, CountedFor, SortByLength, Total, Weighted, AllFull;
    raw :| Evaluated(g, q, EvaluationOrder(q), raw) && e == Presented(q, raw);
    OrderFacts(g, q);
    RawRecords(g, q, EvaluationOrder(q), raw);
  }

  /** Every answer's records stand in increasing order of length, each for a requested length and counted for
      this graph; a dominated answer in compact form has none. */
  lemma RecordsAreCounts(g: Graph, q: Request, e: Evaluation)
    requires Accepted(g, q) && InRange(EvaluationOrder(q)) && Scored(g, q, e) && e.Answered?
    ensures |e.records| <= |q.lengths| && LengthsRise(e.records)
    ensures forall i :: 0 <= i < |e.records| ==> e.records[i].length in q.lengths && CountedFor(g, q, e.records[i])
    ensures e.status == StatusDominated && q.Compact() ==> e.records == []
  {
    hide Evaluated, CountedFor, SortByLength, Scored, AllFull, EvaluationOrder, InRange;
    var raw := RawAnswer(g, q, e);
    SortedRecords(q, raw.records);
  }

  /** The lengths an answer has records for: the shortest ones, or the longest ones when those were tried
      first. */
  lemma RecordsAreTriedFirst(g: Graph, q: Request, e: Evaluation)
    requires Accepted(g, q) && InRange(EvaluationOrder(q)) && Scored(g, q, e) && e.Answered?
    ensures |e.records| <= |q.lengths|
    ensures forall i :: 0 <= i < |e.records| ==>
              e.records[i].length == q.lengths[if q.LongestFirst() then |q.lengths| - |e.records| + i else i]
  {
    hide Evaluated, CountedFor, SortByLength, Scored, AllFull, InRange;
    var raw := RawAnswer(g, q, e);
    SortedRecords(q, raw.records);
    forall i | 0 <= i < |e.records|
      ensures e.records[i].length == q.lengths[if q.LongestFirst() then |q.lengths| - |e.records| + i else i]
    {
      var j := if q.LongestFirst() then |raw.records| - 1 - i else i;
      assert raw.records[j].length == EvaluationOrder(q)[j];
    }
  }

  /** A candidate that is not declared dominated gets the full record of every requested length, whatever has
      wrapped around. */
  lemma FullRecords(g: Graph, q: Request, e: Evaluation)
    requires Accepted(g, q) && InRange(EvaluationOrder(q)) && Scored(g, q, e) && e.Answered?
    requires e.status == StatusOk
    ensures InRange(q.lengths) && AllFull(g, q, q.lengths, e.records)
  {
    hide Evaluated, SortByLength, Scored, EvaluationOrder, FullyCounted;
    var raw := RawAnswer(g, q, e);
    SortedRecords(q, raw.records);
    forall i | 0 <= i < |q.lengths|
      ensures q.lengths[i] >= 3 && FullyCounted(g, q, q.lengths[i], e.records[i])
    {
      var j := if q.LongestFirst() then |q.lengths| - 1 - i else i;
      assert FullyCounted(g, q, EvaluationOrder(q)[j], raw.records[j]);
    }
  }

  /** The verdict does not depend on the order in which lengths are tried, and neither do the records of a
      candidate that is not dominated. */
  lemma OrderDoesNotMatter(g: Graph, q1: Request, q2: Request, e1: Evaluation, e2: Evaluation)
    requires Accepted(g, q1) && InRange(EvaluationOrder(q1)) && Accepted(g, q2) && InRange(EvaluationOrder(q2))
    requires q2 == q1.(flags := q2.flags) && q1.HasCutoff() == q2.HasCutoff()
    requires InRange(q1.lengths) && (Total(g, q1, q1.lengths) < TWO32 || q1.cutoffTotal < TWO32 - 1)
    requires Scored(g, q1, e1) && Scored(g, q2, e2) && e1.Answered? && e2.Answered?
    ensures e1.status == e2.status && (e1.status == StatusOk ==> e1 == e2)
  {
    SameSums(g, q1, q2, q1.lengths);
    hide Scored, Accepted, Total, Weighted, InRange, EvaluationOrder, Size;
    SameCutoff(q1, q2, Total(g, q1, q1.lengths), U32(Weighted(g, q1, q1.lengths)), Size(g));
    hide CutoffReached, U32, Counted;
    ScoredVerdict(g, q1, e1);
    ScoredVerdict(g, q2, e2);
    if e1.status == StatusOk {
      FullRecords(g, q1, e1);
      FullRecords(g, q2, e2);
      FullOnce(g, q1, q1.lengths, e1.records, e2.records);
    }
  }

  lemma SameCutoff(q1: Request, q2: Request, total: nat, weighted: nat, simplicity: nat)
    requires q2 == q1.(flags := q2.flags) && q1.HasCutoff() == q2.HasCutoff()
    ensures CutoffReached(q1, total, weighted, simplicity) == CutoffReached(q2, total, weighted, simplicity)
  {
  }

  lemma {:induction false} SameSums(g: Graph, q1: Request, q2: Request, a: seq<nat>)
    requires InRange(a) && q1.limit > 0 && q2 == q1.(flags := q2.flags)
    ensures Total(g, q1, a) == Total(g, q2, a) && Weighted(g, q1, a) == Weighted(g, q2, a)
  {
    if a != [] {
      SameSums(g, q1, q2, a[1..]);
    }
  }

  /** The answer a search wants: dominated exactly when the full key is, and otherwise the full record of every
      length, in increasing order of length. */
  ghost predicate AnswersRequest(g: Graph, q: Request, status: Status, results: seq<CountResult>)
    requires Accepted(g, q) && InRange(q.lengths)
  {
    && (status == StatusDominated <==> q.lengths != [] && Dominated(q, FullKey(g, q)))
    && |results| <= |q.lengths| && LengthsRise(results)
    && (forall i :: 0 <= i < |results| ==> results[i].length in q.lengths && CountedFor(g, q, results[i]))
    && (status == StatusOk ==> AllFull(g, q, q.lengths, results))
    && (status == StatusDominated && q.Compact() ==> results == [])
  }

  /** A request whose sums fit is answered, and rightly. */
  lemma FittingAnswer(g: Graph, q: Request, e: Evaluation)
    requires Accepted(g, q) && InRange(EvaluationOrder(q)) && Scored(g, q, e) && Fits(q)
    ensures InRange(q.lengths) && e.Answered? && AnswersRequest(g, q, e.status, e.records)
  {
    OrderFacts(g, q);
    FittingNeverWraps(g, q);
    if q.lengths != [] {
      MultiplyMonotone(1, |q.lengths|, 21 * q.limit);
    }
    ScoredAnswers(g, q, e);
    RecordsAreCounts(g, q, e);
    VerdictRightIff(g, q, e);
    if e.status == StatusOk {
      FullRecords(g, q, e);
    }
  }
}
