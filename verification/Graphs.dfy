/** Simple undirected graphs over bitset rows. A row is the set of the positions of its one bits, so the
    lowest set bit is the least member, `a & ~b` is set difference and a bit count is a cardinality. */
module Graphs {
  import opened Outcomes

  datatype BitGraph = BitGraph(n: nat, rows: seq<set<nat>>)

  /** The checks made on construction: one row a vertex, no vertex out of range, no loop, symmetric. */
  ghost predicate WellFormed(g: BitGraph) {
    && |g.rows| == g.n
    && (forall u, v {:trigger v in g.rows[u]} :: 0 <= u < g.n && v in g.rows[u] ==> v < g.n && v != u && u in g.rows[v])
  }

  type Graph = g: BitGraph | WellFormed(g) witness BitGraph(0, [])

  predicate Edge(g: Graph, u: nat, v: nat) {
    u < g.n && v in g.rows[u]
  }

  lemma EdgeSymmetric(g: Graph, u: nat, v: nat)
    ensures Edge(g, u, v) <==> Edge(g, v, u)
    ensures Edge(g, u, v) ==> u < g.n && v < g.n && u != v
  {
  }

  function Vertices(n: nat): (s: set<nat>)
    ensures |s| == n
    ensures forall v :: v in s <==> 0 <= v < n
  {
    if n == 0 then {} else Vertices(n - 1) + {n - 1}
  }

  ghost predicate MinimumDegreeThree(g: Graph) {
    forall u :: 0 <= u < g.n ==> |g.rows[u]| >= 3
  }

  // ---------- the lowest bit ----------

  predicate IsLeast(s: set<nat>, m: nat) {
    m in s && forall x :: x in s ==> m <= x
  }

  lemma {:induction false} LeastExists(s: set<nat>, bound: nat)
    requires exists a :: a in s && a <= bound
    ensures exists m :: IsLeast(s, m)
  {
    if a :| a in s && a < bound {
      LeastExists(s, bound - 1);
    } else {
      assert IsLeast(s, bound);
    }
  }

  lemma LeastIs(s: set<nat>)
    requires s != {}
    ensures exists m :: IsLeast(s, m)
  {
    var a :| a in s;
    LeastExists(s, a);
  }

  /** The vertex of `bits & -bits`. */
  function Lowest(s: set<nat>): (m: nat)
    requires s != {}
    ensures m in s && forall x :: x in s ==> m <= x
  {
    LeastIs(s);
    var m :| IsLeast(s, m);
    m
  }

  // ---------- walks and connectedness ----------

  ghost predicate IsWalk(g: Graph, w: seq<nat>, u: nat, v: nat) {
    && |w| > 0 && w[0] == u && w[|w| - 1] == v
    && (forall i :: 0 <= i < |w| - 1 ==> Edge(g, w[i], w[i + 1]))
  }

  ghost predicate Joined(g: Graph, u: nat, v: nat) {
    exists w :: IsWalk(g, w, u, v)
  }

  /** Every two vertices are joined by a walk. */
  ghost predicate Connected(g: Graph) {
    forall u, v :: 0 <= u < g.n && 0 <= v < g.n ==> Joined(g, u, v)
  }

  /** No edge leaves S. */
  ghost predicate Closed(g: Graph, S: set<nat>) {
    forall u, v :: u in S && Edge(g, u, v) ==> v in S
  }

  lemma JoinedRefl(g: Graph, u: nat)
    ensures Joined(g, u, u)
  {
    assert IsWalk(g, [u], u, u);
  }

  lemma JoinedStep(g: Graph, u: nat, v: nat, x: nat)
    requires Joined(g, u, v) && Edge(g, v, x)
    ensures Joined(g, u, x)
  {
    var w :| IsWalk(g, w, u, v);
    assert IsWalk(g, w + [x], u, x);
  }

  function Reverse<T>(s: seq<T>): (r: seq<T>)
    ensures |r| == |s|
    ensures forall i :: 0 <= i < |s| ==> r[i] == s[|s| - 1 - i]
  {
    if s == [] then [] else Reverse(s[1..]) + [s[0]]
  }

  lemma JoinedSym(g: Graph, u: nat, v: nat)
    requires Joined(g, u, v)
    ensures Joined(g, v, u)
  {
    var w :| IsWalk(g, w, u, v);
    var r := Reverse(w);
    forall i | 0 <= i < |r| - 1
      ensures Edge(g, r[i], r[i + 1])
    {
      var j := |w| - 2 - i;
      assert Edge(g, w[j], w[j + 1]);
      EdgeSymmetric(g, w[j], w[j + 1]);
    }
    assert IsWalk(g, r, v, u);
  }

  lemma {:induction false} JoinedTrans(g: Graph, u: nat, v: nat, x: nat)
    requires Joined(g, u, v) && Joined(g, v, x)
    ensures Joined(g, u, x)
  {
    var a :| IsWalk(g, a, u, v);
    var b :| IsWalk(g, b, v, x);
    var c := a + b[1..];
    forall i | 0 <= i < |c| - 1
      ensures Edge(g, c[i], c[i + 1])
    {
      if i < |a| - 1 {
        assert Edge(g, a[i], a[i + 1]);
      } else {
        var j := i - |a| + 1;
        assert c[i] == b[j] && c[i + 1] == b[j + 1];
        assert Edge(g, b[j], b[j + 1]);
      }
    }
    assert IsWalk(g, c, u, x);
  }

  /** A walk never leaves a closed set. */
  lemma {:induction false} ClosedHoldsWalk(g: Graph, S: set<nat>, w: seq<nat>, k: nat)
    requires Closed(g, S)
    requires |w| > 0 && w[0] in S && k < |w|
    requires forall i :: 0 <= i < |w| - 1 ==> Edge(g, w[i], w[i + 1])
    ensures w[k] in S
  {
    if k > 0 {
      ClosedHoldsWalk(g, S, w, k - 1);
      assert Edge(g, w[k - 1], w[k - 1 + 1]);
    }
  }

  lemma ClosedHoldsJoined(g: Graph, S: set<nat>, u: nat, v: nat)
    requires Closed(g, S) && u in S && Joined(g, u, v)
    ensures v in S
  {
    var w :| IsWalk(g, w, u, v);
    ClosedHoldsWalk(g, S, w, |w| - 1);
  }

  /** A vertex set that touches the graph, misses a vertex and lets no edge out disconnects it. */
  lemma ClosedProperSetDisconnects(g: Graph, S: set<nat>, inside: nat, outside: nat)
    requires Closed(g, S) && inside in S && inside < g.n
    requires outside !in S && outside < g.n
    ensures !Connected(g)
  {
    if Connected(g) {
      assert Joined(g, inside, outside);
      ClosedHoldsJoined(g, S, inside, outside);
    }
  }

  // ---------- building a graph from an edge list ----------

  datatype EdgeListError = EndpointOutOfRange | Loop | DuplicateEdge

  /** The first complaint the builder raises on an edge list, in list order. */
  function EdgeListFault(n: nat, edges: seq<(int, int)>, k: nat): (r: Option<EdgeListError>)
    requires k <= |edges|
    decreases |edges| - k
  {
    if k == |edges| then None
    else
      var (u, v) := edges[k];
      if !(0 <= u < n && 0 <= v < n) then Some(EndpointOutOfRange)
      else if u == v then Some(Loop)
      else if (u, v) in edges[..k] || (v, u) in edges[..k] then Some(DuplicateEdge)
      else EdgeListFault(n, edges, k + 1)
  }

  /** Exactly which edge lists are accepted: endpoints in range, no loop, and no edge listed twice either way. */
  lemma {:induction false} EdgeListAcceptedIff(n: nat, edges: seq<(int, int)>, k: nat)
    requires k <= |edges|
    ensures EdgeListFault(n, edges, k) == None <==>
            forall i :: k <= i < |edges| ==>
              && 0 <= edges[i].0 < n && 0 <= edges[i].1 < n && edges[i].0 != edges[i].1
              && forall j :: 0 <= j < i ==> edges[j] != edges[i] && edges[j] != (edges[i].1, edges[i].0)
    decreases |edges| - k
  {
    if k < |edges| {
      EdgeListAcceptedIff(n, edges, k + 1);
      forall e: (int, int)
        ensures e in edges[..k] <==> exists j :: 0 <= j < k && edges[j] == e
      {
        if e in edges[..k] {
          var j :| 0 <= j < k && edges[..k][j] == e;
          assert edges[j] == e;
        }
        if j :| 0 <= j < k && edges[j] == e {
          assert edges[..k][j] == e;
        }
      }
    }
  }

  /** The rows hold exactly the listed edges, both ways. */
  ghost predicate RowsList(n: nat, rows: seq<set<nat>>, edges: seq<(int, int)>) {
    && |rows| == n
    && (forall i :: 0 <= i < |edges| ==> 0 <= edges[i].0 < n && 0 <= edges[i].1 < n && edges[i].0 != edges[i].1)
    && (forall u: nat, v: nat :: u < n ==> (v in rows[u] <==> (u, v) in edges || (v, u) in edges))
  }

  lemma RowsListNext(n: nat, rows: seq<set<nat>>, edges: seq<(int, int)>, u: nat, v: nat)
    requires RowsList(n, rows, edges) && u < n && v < n && u != v
    ensures RowsList(n, rows[u := rows[u] + {v}][v := rows[v] + {u}], edges + [(u, v)])
  {
  }

  lemma RowsListGraph(n: nat, rows: seq<set<nat>>, edges: seq<(int, int)>)
    requires RowsList(n, rows, edges)
    ensures WellFormed(BitGraph(n, rows))
    ensures forall u: nat, v: nat :: u < n && v in rows[u] <==> (u, v) in edges || (v, u) in edges
  {
  }

  lemma FaultStep(n: nat, edges: seq<(int, int)>, k: nat)
    requires k < |edges|
    ensures EdgeListFault(n, edges, k)
         == if !(0 <= edges[k].0 < n && 0 <= edges[k].1 < n) then Some(EndpointOutOfRange)
            else if edges[k].0 == edges[k].1 then Some(Loop)
            else if edges[k] in edges[..k] || (edges[k].1, edges[k].0) in edges[..k] then Some(DuplicateEdge)
            else EdgeListFault(n, edges, k + 1)
  {
  }

  lemma NoFaultLeft(n: nat, edges: seq<(int, int)>)
    ensures EdgeListFault(n, edges, |edges|) == None
  {
  }

  lemma NothingListed(n: nat)
    ensures RowsList(n, seq(n, _ => {}), [])
  {
  }

  lemma RowsListAt(n: nat, rows: seq<set<nat>>, edges: seq<(int, int)>, u: nat, v: nat)
    requires RowsList(n, rows, edges) && u < n
    ensures |rows| == n && (v in rows[u] <==> (u, v) in edges || (v, u) in edges)
  {
  }

  method FromEdges(n: nat, edges: seq<(int, int)>) returns (r: Result<Graph, EdgeListError>)
    ensures r.Ok? <==> EdgeListFault(n, edges, 0) == None
    ensures r.Err? ==> EdgeListFault(n, edges, 0) == Some(r.error)
    ensures r.Ok? ==> r.value.n == n
    ensures r.Ok? ==> forall u: nat, v: nat :: Edge(r.value, u, v) <==> (u, v) in edges || (v, u) in edges
  {
    hide EdgeListFault, RowsList, WellFormed;
    NothingListed(n);
    var rows: seq<set<nat>> := seq(n, _ => {});
    var k := 0;
    while k < |edges|
      invariant 0 <= k <= |edges| && |rows| == n
      invariant EdgeListFault(n, edges, 0) == EdgeListFault(n, edges, k)
      invariant RowsList(n, rows, edges[..k])
    {
      FaultStep(n, edges, k);
      var (u, v) := edges[k];
      if !(0 <= u < n && 0 <= v < n) {
        return Err(EndpointOutOfRange);
      }
      if u == v {
        return Err(Loop);
      }
      RowsListAt(n, rows, edges[..k], u, v);
      if v in rows[u] {
        return Err(DuplicateEdge);
      }
      RowsListNext(n, rows, edges[..k], u, v);
      assert edges[..k + 1] == edges[..k] + [(u, v)];
      rows := rows[u := rows[u] + {v}];
      rows := rows[v := rows[v] + {u}];
      k := k + 1;
    }
    NoFaultLeft(n, edges);
    assert edges[..k] == edges;
    RowsListGraph(n, rows, edges);
    r := Ok(BitGraph(n, rows));
  }
}
