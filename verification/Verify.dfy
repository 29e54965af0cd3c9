/** The exact verifiers: structural checks, then one exact-length search for each forbidden length. */
module Verify {
  import opened Collections
  import opened Graphs
  import opened Cycles
  import opened Existence
  import SubsetDp

  predicate PowerOfTwo(k: nat)
  {
    k == 1 || (k > 1 && k % 2 == 0 && PowerOfTwo(k / 2))
  }

  lemma {:induction false} PowersOfTwoAreFarApart(a: nat, b: nat)
    requires PowerOfTwo(a) && PowerOfTwo(b) && a < b
    ensures 2 * a <= b
  {
    if a > 1 {
      PowersOfTwoAreFarApart(a / 2, b / 2);
    }
  }

  lemma {:induction false} PowerOfTwoIs(k: nat)
    ensures PowerOfTwo(k) <==> exists e: nat :: k == Pow2(e)
  {
    forall e: nat | e > 0
      ensures Pow2(e) == 2 * Pow2(e - 1)
    {
    }
    if k == 1 {
      assert Pow2(0) == 1;
    } else if k > 1 && k % 2 == 0 {
      PowerOfTwoIs(k / 2);
      if PowerOfTwo(k / 2) {
        var e: nat :| k / 2 == Pow2(e);
        assert Pow2(e + 1) == k;
      }
      if e: nat :| k == Pow2(e) {
        assert Pow2(e) == 2 * Pow2(e - 1) && k / 2 == Pow2(e - 1);
      }
    }
  }

  /** The forbidden lengths are 4, 8, 16 and so on up to n. */
  lemma ForbiddenLengthIs(n: nat, k: int)
    ensures ForbiddenLength(n, k) <==> k <= n && exists e: nat :: e >= 2 && k == Pow2(e)
  {
    if k >= 0 {
      PowerOfTwoIs(k);
    }
    assert Pow2(0) == 1 && Pow2(1) == 2;
    if e: nat :| e >= 2 && k == Pow2(e) {
      assert k == 4 * Pow2(e - 2) by {
        assert Pow2(e - 1) == 2 * Pow2(e - 2);
      }
    }
  }

  /** The lengths the conjecture forbids in an n-vertex graph: the powers of two from 4 up to n. */
  predicate ForbiddenLength(n: nat, k: int) {
    4 <= k <= n && PowerOfTwo(k)
  }

  ghost predicate IncreasingInts(s: seq<int>) {
    forall i, j :: 0 <= i < j < |s| ==> s[i] < s[j]
  }

  method ForbiddenLengths(n: nat) returns (values: seq<int>)
    ensures forall k :: k in values <==> ForbiddenLength(n, k)
    ensures IncreasingInts(values)
    ensures values == [] <==> n < 4
  {
    values := [];
    var current := 4;
    assert PowerOfTwo(2);
    while current <= n
      invariant 4 <= current && PowerOfTwo(current)
      invariant forall k :: k in values <==> ForbiddenLength(n, k) && k < current
      invariant IncreasingInts(values)
      invariant if values == [] then current == 4 else n >= 4
      decreases n + 1 - current
    {
      forall k | ForbiddenLength(n, k) && k < current * 2
        ensures k <= current
      {
        if current < k {
          PowersOfTwoAreFarApart(current, k);
        }
      }
      forall i | 0 <= i < |values|
        ensures values[i] < current
      {
        assert values[i] in values;
      }
      values := values + [current];
      current := current * 2;
    }
  }

  // ---------- connectedness ----------

  /** The traversal's invariant: reached vertices are joined to vertex 0, and only queued ones may still
      have unseen neighbours. */
  ghost predicate Traversed(g: Graph, seen: set<nat>, queue: seq<nat>) {
    && 0 in seen
    && (forall v :: v in seen ==> v < g.n && Joined(g, 0, v))
    && (forall v :: v in queue ==> v in seen)
    && (forall u, v :: u in seen && u !in queue && Edge(g, u, v) ==> v in seen)
  }

  /** The same while u, taken off the queue, still has neighbours to look at. */
  ghost predicate Visiting(g: Graph, seen: set<nat>, queue: seq<nat>, u: nat) {
    && 0 in seen && u in seen && u < g.n
    && (forall v :: v in seen ==> v < g.n && Joined(g, 0, v))
    && (forall v :: v in queue ==> v in seen)
    && (forall x, v :: x in seen && x !in queue && x != u && Edge(g, x, v) ==> v in seen)
  }

  lemma VisitBegins(g: Graph, seen: set<nat>, queue: seq<nat>)
    requires Traversed(g, seen, queue) && queue != []
    ensures queue[0] < g.n && Visiting(g, seen, queue[1..], queue[0])
    ensures |seen| <= g.n
  {
    SubsetSize(seen, Vertices(g.n));
    assert queue == [queue[0]] + queue[1..];
    assert queue[0] in queue;
  }

  lemma VisitReaches(g: Graph, seen: set<nat>, queue: seq<nat>, u: nat, v: nat)
    requires Visiting(g, seen, queue, u) && Edge(g, u, v)
    ensures v < g.n && Visiting(g, seen + {v}, queue + [v], u)
  {
    EdgeSymmetric(g, u, v);
    JoinedStep(g, 0, u, v);
    hide Joined;
  }

  lemma VisitEnds(g: Graph, seen: set<nat>, queue: seq<nat>, u: nat)
    requires u < g.n && Visiting(g, seen, queue, u) && g.rows[u] - seen == {}
    ensures Traversed(g, seen, queue)
  {
    assert forall v :: v in g.rows[u] ==> v !in g.rows[u] - seen;
  }

  /** What a finished traversal has seen decides connectedness. */
  lemma TraversalDecides(g: Graph, seen: set<nat>)
    requires Traversed(g, seen, []) && g.n > 0
    ensures |seen| == g.n <==> Connected(g)
  {
    assert seen <= Vertices(g.n) && Closed(g, seen);
    if |seen| == g.n {
      SubsetOfEqualSize(seen, Vertices(g.n));
      forall u, v | 0 <= u < g.n && 0 <= v < g.n
        ensures Joined(g, u, v)
      {
        JoinedSym(g, 0, u);
        JoinedTrans(g, u, 0, v);
      }
    } else {
      var x := MissingVertex(g.n, seen);
      ClosedProperSetDisconnects(g, seen, 0, x);
    }
  }

  method IsConnected(g: Graph) returns (r: bool)
    ensures r <==> Connected(g)
  {
    if g.n == 0 {
      return true;
    }
    var seen: set<nat> := {0};
    var queue: seq<nat> := [0];
    JoinedRefl(g, 0);
    assert Traversed(g, seen, queue);
    hide Traversed, Visiting, Connected;
    while queue != []
      invariant Traversed(g, seen, queue)
      decreases g.n - |seen|, |queue|
    {
      VisitBegins(g, seen, queue);
      var u := queue[0];
      queue := queue[1..];
      var unseen := g.rows[u] - seen;
      ghost var seen0, queue0 := seen, queue;
      while unseen != {}
        invariant unseen == g.rows[u] - seen
        invariant Visiting(g, seen, queue, u)
        invariant |seen| > |seen0| || (|seen| == |seen0| && queue == queue0)
        decreases |unseen|
      {
        var v := Lowest(unseen);
        VisitReaches(g, seen, queue, u, v);
        seen := seen + {v};
        queue := queue + [v];
        unseen := unseen - {v};
      }
      VisitEnds(g, seen, queue, u);
    }
    TraversalDecides(g, seen);
    r := |seen| == g.n;
  }

  lemma MissingVertex(n: nat, s: set<nat>) returns (x: nat)
    requires s <= Vertices(n) && |s| != n
    ensures x < n && x !in s
  {
    assert |Vertices(n) - s| == n - |s| by {
      assert Vertices(n) == s + (Vertices(n) - s);
    }
    SubsetSize(s, Vertices(n));
    x :| x in Vertices(n) - s;
  }

  lemma {:induction false} SubsetOfEqualSize(a: set<nat>, b: set<nat>)
    requires a <= b && |a| == |b|
    ensures a == b
  {
    if x :| x in b && x !in a {
      assert a <= b - {x};
      SubsetSize(a, b - {x});
    }
  }

  // ---------- minimum degree ----------

  /** The least row size, 0 for the empty graph. */
  method MinimumDegree(g: Graph) returns (d: nat)
    ensures g.n == 0 ==> d == 0
    ensures g.n > 0 ==> exists u :: 0 <= u < g.n && |g.rows[u]| == d
    ensures forall u :: 0 <= u < g.n ==> d <= |g.rows[u]|
  {
    if g.n == 0 {
      return 0;
    }
    d := |g.rows[0]|;
    var u := 1;
    while u < g.n
      invariant 1 <= u <= g.n
      invariant exists w :: 0 <= w < u && |g.rows[w]| == d
      invariant forall w :: 0 <= w < u ==> d <= |g.rows[w]|
    {
      if |g.rows[u]| < d {
        d := |g.rows[u]|;
      }
      u := u + 1;
    }
  }

  // ---------- verdicts ----------

  datatype Status = Verified | Rejected(length: int, cycle: seq<nat>) | Invalid

  /** What the verifiers are asked to certify: a counterexample candidate with none of the given lengths. */
  ghost predicate Admissible(g: Graph) {
    g.n > 0 && Connected(g) && MinimumDegreeThree(g)
  }

  ghost predicate Counterexample(g: Graph) {
    Admissible(g) && forall k :: ForbiddenLength(g.n, k) ==> !HasCycle(g, k)
  }

  /** The conjecture's own wording: no cycle whose length is a power of two. */
  lemma CounterexampleMeaning(g: Graph)
    ensures Counterexample(g) <==>
              Admissible(g) && forall p :: IsCycle(g, p) ==> !PowerOfTwo(|p|)
  {
    if Counterexample(g) {
      forall p | IsCycle(g, p)
        ensures !PowerOfTwo(|p|)
      {
        PathLength(g, p);
        assert !PowerOfTwo(3);
        assert HasCycle(g, |p|);
        assert !ForbiddenLength(g.n, |p|);
      }
    }
  }

  /** A status that is right about the graph. */
  ghost predicate StatusHolds(g: Graph, s: Status) {
    match s
    case Verified => Counterexample(g)
    case Rejected(k, w) => Admissible(g) && ForbiddenLength(g.n, k) && IsCycle(g, w) && |w| == k
    case Invalid => !Admissible(g)
  }

  /** Two right statuses are of the same kind: the verifiers cannot disagree. */
  lemma StatusesAgree(g: Graph, a: Status, b: Status)
    requires StatusHolds(g, a) && StatusHolds(g, b)
    ensures a.Verified? == b.Verified? && a.Rejected? == b.Rejected? && a.Invalid? == b.Invalid?
  {
  }

  method VerifyReference(g: Graph) returns (s: Status)
    ensures StatusHolds(g, s)
  {
    if g.n == 0 {
      return Invalid;
    }
    var connected := IsConnected(g);
    if !connected {
      return Invalid;
    }
    var degree := MinimumDegree(g);
    if degree < 3 {
      return Invalid;
    }
    var lengths := ForbiddenLengths(g.n);
    var i := 0;
    while i < |lengths|
      invariant 0 <= i <= |lengths|
      invariant forall j :: 0 <= j < i ==> !HasCycle(g, lengths[j])
    {
      var cycle := FindCycleOfLength(g, lengths[i]);
      if cycle.Some? {
        return Rejected(lengths[i], cycle.value);
      }
      i := i + 1;
    }
    s := Verified;
  }

  method VerifyDynamic(g: Graph) returns (s: Status)
    ensures StatusHolds(g, s)
  {
    if g.n == 0 {
      return Invalid;
    }
    var connected := IsConnected(g);
    if !connected {
      return Invalid;
    }
    var degree := MinimumDegree(g);
    if degree < 3 {
      return Invalid;
    }
    var lengths := ForbiddenLengths(g.n);
    var i := 0;
    while i < |lengths|
      invariant 0 <= i <= |lengths|
      invariant forall j :: 0 <= j < i ==> !HasCycle(g, lengths[j])
    {
      var cycle := SubsetDp.FindCycleDynamic(g, lengths[i]);
      if cycle.Some? {
        return Rejected(lengths[i], cycle.value);
      }
      i := i + 1;
    }
    s := Verified;
  }
}
