/** What every cycle engine searches for: a simple cycle of an exact length. One undirected cycle has many
    vertex lists (rotations and reversals); its canonical list starts at the least vertex and runs towards
    the lesser of that vertex's two neighbours. */
module Cycles {
  import opened Graphs

  ghost predicate IsPath(g: Graph, p: seq<nat>) {
    && |p| > 0
    && (forall i :: 0 <= i < |p| ==> p[i] < g.n)
    && (forall i, j :: 0 <= i < j < |p| ==> p[i] != p[j])
    && (forall i :: 0 <= i < |p| - 1 ==> Edge(g, p[i], p[i + 1]))
  }

  ghost predicate MinFirst(p: seq<nat>) {
    forall i :: 0 < i < |p| ==> p[0] < p[i]
  }

  /** A search path: simple, and every later vertex is greater than its start. */
  ghost predicate IsTrail(g: Graph, p: seq<nat>) {
    IsPath(g, p) && MinFirst(p)
  }

  predicate Closes(g: Graph, p: seq<nat>)
    requires |p| > 0
  {
    Edge(g, p[|p| - 1], p[0])
  }

  ghost predicate IsCycle(g: Graph, p: seq<nat>) {
    |p| >= 3 && IsPath(g, p) && Closes(g, p)
  }

  ghost predicate HasCycle(g: Graph, k: int) {
    exists p :: IsCycle(g, p) && |p| == k
  }

  /** One list for each undirected cycle. */
  ghost predicate IsCanonical(g: Graph, p: seq<nat>) {
    IsCycle(g, p) && MinFirst(p) && p[1] < p[|p| - 1]
  }

  function SeenSet(p: seq<nat>): set<nat> {
    set x | x in p
  }

  /** The vertices that may extend a search path: neighbours of its last vertex, unvisited, above its start. */
  function Children(g: Graph, p: seq<nat>): set<nat>
    requires |p| > 0
  {
    set v | v in (if p[|p| - 1] < g.n then g.rows[p[|p| - 1]] else {}) && v !in p && v > p[0]
  }

  lemma ExtendTrail(g: Graph, p: seq<nat>, v: nat)
    requires IsTrail(g, p)
    ensures IsTrail(g, p + [v]) <==> v in Children(g, p)
  {
    var q := p + [v];
    if v in Children(g, p) {
      assert Edge(g, p[|p| - 1], v);
      EdgeSymmetric(g, p[|p| - 1], v);
      forall i | 0 <= i < |q| - 1
        ensures Edge(g, q[i], q[i + 1])
      {
        if i < |p| - 1 {
          assert Edge(g, p[i], p[i + 1]);
        }
      }
      assert IsPath(g, q);
    }
    if IsTrail(g, q) {
      assert Edge(g, q[|p| - 1], q[|p| - 1 + 1]);
      assert forall i :: 0 <= i < |p| ==> p[i] == q[i] && q[i] != q[|p|];
      assert v !in p && q[0] < q[|p|];
    }
  }

  lemma TrailPrefix(g: Graph, q: seq<nat>, k: nat)
    requires IsTrail(g, q) && 0 < k <= |q|
    ensures IsTrail(g, q[..k])
  {
  }

  /** A simple path visits at most n vertices. */
  lemma {:induction false} PathLength(g: Graph, p: seq<nat>)
    requires IsPath(g, p)
    ensures |p| <= g.n
  {
    DistinctBound(p, Vertices(g.n));
  }

  lemma {:induction false} DistinctBound(p: seq<nat>, s: set<nat>)
    requires forall i :: 0 <= i < |p| ==> p[i] in s
    requires forall i, j :: 0 <= i < j < |p| ==> p[i] != p[j]
    ensures |p| <= |s|
  {
    if |p| > 0 {
      DistinctBound(p[1..], s - {p[0]});
    }
  }

  lemma NoLongCycle(g: Graph, k: int)
    requires k < 3 || k > g.n
    ensures !HasCycle(g, k)
  {
    forall p | IsCycle(g, p)
      ensures |p| != k
    {
      PathLength(g, p);
    }
  }

  // ---------- rotation and reversal ----------

  function Next(i: nat, k: nat): (j: nat)
    requires i < k
    ensures j < k
  {
    if i + 1 == k then 0 else i + 1
  }

  function Previous(i: nat, k: nat): (j: nat)
    requires i < k
    ensures j < k && Next(j, k) == i
  {
    if i == 0 then k - 1 else i - 1
  }

  ghost function EdgeAt(p: seq<nat>, i: nat): set<nat>
    requires i < |p|
  {
    {p[i], p[Next(i, |p|)]}
  }

  /** The undirected cycle a vertex list stands for: its set of edges. */
  ghost function EdgeSet(p: seq<nat>): set<set<nat>> {
    set i | 0 <= i < |p| :: EdgeAt(p, i)
  }

  lemma CycleFromSteps(g: Graph, q: seq<nat>)
    requires |q| >= 3
    requires forall i :: 0 <= i < |q| ==> q[i] < g.n
    requires forall i, j :: 0 <= i < j < |q| ==> q[i] != q[j]
    requires forall i :: 0 <= i < |q| ==> Edge(g, q[i], q[Next(i, |q|)])
    ensures IsCycle(g, q)
  {
    forall i | 0 <= i < |q| - 1
      ensures Edge(g, q[i], q[i + 1])
    {
      assert Next(i, |q|) == i + 1;
    }
    assert Next(|q| - 1, |q|) == 0;
  }

  function Rotate(p: seq<nat>, k: nat): (q: seq<nat>)
    requires k <= |p|
    ensures |q| == |p|
    ensures forall i :: 0 <= i < |p| ==> q[i] == p[if i + k < |p| then i + k else i + k - |p|]
  {
    p[k..] + p[..k]
  }

  lemma CycleStep(g: Graph, p: seq<nat>, i: nat)
    requires IsCycle(g, p) && i < |p|
    ensures Edge(g, p[i], p[Next(i, |p|)])
  {
  }

  /** Where the i-th vertex of a rotation came from. */
  function Source(i: nat, k: nat, m: nat): (j: nat)
    requires i < m && k < m
    ensures j < m && Next(j, m) == if Next(i, m) + k < m then Next(i, m) + k else Next(i, m) + k - m
  {
    if i + k < m then i + k else i + k - m
  }

  lemma RotatedEdge(p: seq<nat>, k: nat, i: nat)
    requires k < |p| && i < |p|
    ensures EdgeAt(Rotate(p, k), i) == EdgeAt(p, Source(i, k, |p|))
    ensures Rotate(p, k)[i] == p[Source(i, k, |p|)]
    ensures Rotate(p, k)[Next(i, |p|)] == p[Next(Source(i, k, |p|), |p|)]
  {
  }

  lemma RotatedEdgeSet(p: seq<nat>, k: nat)
    requires k < |p|
    ensures EdgeSet(Rotate(p, k)) == EdgeSet(p)
  {
    var q := Rotate(p, k);
    forall i | 0 <= i < |p|
      ensures EdgeAt(q, i) in EdgeSet(p)
    {
      RotatedEdge(p, k, i);
    }
    forall j | 0 <= j < |p|
      ensures EdgeAt(p, j) in EdgeSet(q)
    {
      var i := if j >= k then j - k else j + |p| - k;
      RotatedEdge(p, k, i);
      assert EdgeAt(q, i) == EdgeAt(p, j);
    }
  }

  lemma RotatedCycle(g: Graph, p: seq<nat>, k: nat)
    requires IsCycle(g, p) && k < |p|
    ensures IsCycle(g, Rotate(p, k))
  {
    var q := Rotate(p, k);
    forall i | 0 <= i < |p|
      ensures Edge(g, q[i], q[Next(i, |p|)])
    {
      RotatedEdge(p, k, i);
      CycleStep(g, p, Source(i, k, |p|));
    }
    CycleFromSteps(g, q);
  }

  /** The same cycle walked the other way round from the same first vertex. */
  function Backwards(p: seq<nat>): (q: seq<nat>)
    requires |p| > 0
    ensures |q| == |p| && q[0] == p[0]
    ensures forall i :: 0 < i < |p| ==> q[i] == p[|p| - i]
  {
    [p[0]] + Reverse(p[1..])
  }

  lemma BackwardsEdge(p: seq<nat>, i: nat)
    requires i < |p|
    ensures Backwards(p)[i] == p[Next(|p| - 1 - i, |p|)]
    ensures Backwards(p)[Next(i, |p|)] == p[|p| - 1 - i]
    ensures EdgeAt(Backwards(p), i) == EdgeAt(p, |p| - 1 - i)
  {
  }

  lemma BackwardsEdgeSet(p: seq<nat>)
    requires |p| > 0
    ensures EdgeSet(Backwards(p)) == EdgeSet(p)
  {
    var q := Backwards(p);
    forall i | 0 <= i < |p|
      ensures EdgeAt(q, i) in EdgeSet(p)
    {
      BackwardsEdge(p, i);
    }
    forall j | 0 <= j < |p|
      ensures EdgeAt(p, j) in EdgeSet(q)
    {
      BackwardsEdge(p, |p| - 1 - j);
      assert EdgeAt(q, |p| - 1 - j) == EdgeAt(p, j);
    }
  }

  lemma BackwardsCycle(g: Graph, p: seq<nat>)
    requires IsCycle(g, p)
    ensures IsCycle(g, Backwards(p))
  {
  }

  lemma LeastPosition(p: seq<nat>) returns (k: nat)
    requires |p| > 0
    ensures k < |p|
    ensures forall i :: 0 <= i < |p| ==> p[k] <= p[i]
  {
    assert p[0] in SeenSet(p);
    var m := Lowest(SeenSet(p));
    k :| 0 <= k < |p| && p[k] == m;
    assert forall i :: 0 <= i < |p| ==> p[i] in SeenSet(p);
  }

  /** Forcing the start to be the least vertex loses no cycle. */
  lemma RotateToLeast(g: Graph, p: seq<nat>) returns (q: seq<nat>)
    requires IsCycle(g, p)
    ensures IsCycle(g, q) && MinFirst(q) && |q| == |p| && EdgeSet(q) == EdgeSet(p)
  {
    var k := LeastPosition(p);
    q := Rotate(p, k);
    RotatedCycle(g, p, k);
    RotatedEdgeSet(p, k);
    assert forall i :: 0 < i < |q| ==> q[0] != q[i];
  }

  /** Every undirected cycle has a canonical list ... */
  lemma Canonicalize(g: Graph, p: seq<nat>) returns (q: seq<nat>)
    requires IsCycle(g, p)
    ensures IsCanonical(g, q) && |q| == |p| && EdgeSet(q) == EdgeSet(p)
  {
    q := RotateToLeast(g, p);
    assert q[1] != q[|q| - 1];
    if q[1] > q[|q| - 1] {
      BackwardsCycle(g, q);
      BackwardsEdgeSet(q);
      q := Backwards(q);
    }
  }

  lemma PairEquality(a: nat, b: nat, c: nat, d: nat)
    requires {a, b} == {c, d}
    ensures (a == c && b == d) || (a == d && b == c)
  {
  }

  /** In a cycle a vertex has exactly two incident edges. */
  lemma CycleNeighbours(g: Graph, p: seq<nat>, i: nat, x: nat)
    requires IsCycle(g, p) && i < |p|
    ensures {p[i], x} in EdgeSet(p) <==> x == p[Next(i, |p|)] || x == p[Previous(i, |p|)]
  {
    var m := |p|;
    var before := Previous(i, m);
    if {p[i], x} in EdgeSet(p) {
      var j :| 0 <= j < m && {p[i], x} == EdgeAt(p, j);
      PairEquality(p[i], x, p[j], p[Next(j, m)]);
    }
    if x == p[Next(i, m)] {
      assert {p[i], x} == EdgeAt(p, i);
    }
    if x == p[before] {
      assert {p[i], x} == EdgeAt(p, before);
    }
  }

  lemma SameEdgesSameVertices(q: seq<nat>, r: seq<nat>, i: nat) returns (j: nat)
    requires EdgeSet(q) == EdgeSet(r) && i < |q|
    ensures j < |r| && r[j] == q[i]
  {
    assert EdgeAt(q, i) in EdgeSet(r);
    j :| 0 <= j < |r| && EdgeAt(q, i) == EdgeAt(r, j);
    PairEquality(q[i], q[Next(i, |q|)], r[j], r[Next(j, |r|)]);
    if r[j] != q[i] {
      j := Next(j, |r|);
    }
  }

  lemma CanonicalStartsAgree(g: Graph, q: seq<nat>, r: seq<nat>)
    requires IsCanonical(g, q) && IsCanonical(g, r) && EdgeSet(q) == EdgeSet(r)
    ensures q[0] == r[0] && q[1] == r[1]
  {
    var j := SameEdgesSameVertices(q, r, 0);
    var i := SameEdgesSameVertices(r, q, 0);
    assert r[0] <= r[j] && q[0] <= q[i];
    CycleNeighbours(g, q, 0, q[1]);
    CycleNeighbours(g, q, 0, q[|q| - 1]);
    CycleNeighbours(g, r, 0, q[1]);
    CycleNeighbours(g, r, 0, q[|q| - 1]);
  }

  lemma {:induction false} CanonicalPrefixesAgree(g: Graph, q: seq<nat>, r: seq<nat>, k: nat)
    requires IsCanonical(g, q) && IsCanonical(g, r) && EdgeSet(q) == EdgeSet(r)
    requires 2 <= k <= |q| && k <= |r|
    ensures q[..k] == r[..k]
  {
    if k == 2 {
      CanonicalStartsAgree(g, q, r);
    } else {
      CanonicalPrefixesAgree(g, q, r, k - 1);
      var i := k - 2;
      assert q[i] == q[..k - 1][i] == r[..k - 1][i] == r[i];
      assert q[i - 1] == q[..k - 1][i - 1] == r[..k - 1][i - 1] == r[i - 1];
      CycleNeighbours(g, q, i, q[k - 1]);
      CycleNeighbours(g, r, i, q[k - 1]);
      assert q[i - 1] != q[k - 1];
      assert q[..k] == q[..k - 1] + [q[k - 1]];
      assert r[..k] == r[..k - 1] + [r[k - 1]];
    }
  }

  lemma CanonicalNotShorter(g: Graph, q: seq<nat>, r: seq<nat>)
    requires IsCanonical(g, q) && IsCanonical(g, r) && EdgeSet(q) == EdgeSet(r)
    ensures |q| >= |r|
  {
    if |q| < |r| {
      var m := |q|;
      CanonicalPrefixesAgree(g, q, r, m);
      assert forall i :: 0 <= i < m ==> q[i] == q[..m][i] == r[..m][i] == r[i];
      CycleNeighbours(g, q, m - 1, q[0]);
      CycleNeighbours(g, r, m - 1, q[0]);
      assert false;
    }
  }

  /** ... and only one. */
  lemma CanonicalUnique(g: Graph, q: seq<nat>, r: seq<nat>)
    requires IsCanonical(g, q) && IsCanonical(g, r) && EdgeSet(q) == EdgeSet(r)
    ensures q == r
  {
    CanonicalNotShorter(g, q, r);
    CanonicalNotShorter(g, r, q);
    CanonicalPrefixesAgree(g, q, r, |q|);
    assert q[..|q|] == q && r[..|q|] == r;
  }
}
