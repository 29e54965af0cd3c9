/** Renaming vertices keeps every property the search asks for, so fixing the edge {0, 1} loses nothing. */
module Relabel {
  import opened Graphs
  import opened Cycles
  import opened Verify

  /** The transposition of i and j. */
  function Swap(i: nat, j: nat, x: nat): (y: nat)
    ensures y == i || y == j || y == x
  {
    if x == i then j else if x == j then i else x
  }

  lemma SwapTwice(i: nat, j: nat, x: nat)
    ensures Swap(i, j, Swap(i, j, x)) == x
  {
  }

  function SwapSet(i: nat, j: nat, s: set<nat>): (t: set<nat>)
    ensures forall x :: x in t <==> Swap(i, j, x) in s
  {
    var t := set x | x in s :: Swap(i, j, x);
    assert forall x :: Swap(i, j, x) in s ==> x in t by {
      forall x | Swap(i, j, x) in s
        ensures x in t
      {
        SwapTwice(i, j, x);
        assert Swap(i, j, Swap(i, j, x)) in t;
      }
    }
    assert forall x :: x in t ==> Swap(i, j, x) in s by {
      forall x | x in t
        ensures Swap(i, j, x) in s
      {
        var y :| y in s && Swap(i, j, y) == x;
        SwapTwice(i, j, y);
      }
    }
    t
  }

  lemma SwapSetRemove(i: nat, j: nat, s: set<nat>, x: nat)
    requires x in s
    ensures Swap(i, j, x) !in SwapSet(i, j, s - {x})
    ensures SwapSet(i, j, s) == SwapSet(i, j, s - {x}) + {Swap(i, j, x)}
  {
  }

  lemma {:induction false} SwapSetSize(i: nat, j: nat, s: set<nat>)
    ensures |SwapSet(i, j, s)| == |s|
  {
    if s == {} {
      assert SwapSet(i, j, s) == {};
    } else {
      var x :| x in s;
      SwapSetSize(i, j, s - {x});
      SwapSetRemove(i, j, s, x);
    }
  }

  function SwapRows(g: Graph, i: nat, j: nat): (rows: seq<set<nat>>)
    requires i < g.n && j < g.n
    ensures |rows| == g.n
  {
    seq(g.n, u requires 0 <= u < g.n => SwapSet(i, j, g.rows[Swap(i, j, u)]))
  }

  lemma SwapRowsAt(g: Graph, i: nat, j: nat, u: nat, v: nat)
    requires i < g.n && j < g.n && u < g.n
    ensures v in SwapRows(g, i, j)[u] <==> Edge(g, Swap(i, j, u), Swap(i, j, v))
    ensures v in SwapRows(g, i, j)[u] ==> v < g.n && v != u && u in SwapRows(g, i, j)[v]
  {
    EdgeSymmetric(g, Swap(i, j, u), Swap(i, j, v));
  }

  lemma SwapRowsWellFormed(g: Graph, i: nat, j: nat)
    requires i < g.n && j < g.n
    ensures WellFormed(BitGraph(g.n, SwapRows(g, i, j)))
  {
    var rows := SwapRows(g, i, j);
    forall u, v {:trigger v in rows[u]} | 0 <= u < g.n && v in rows[u]
      ensures v < g.n && v != u && u in rows[v]
    {
      SwapRowsAt(g, i, j, u, v);
    }
  }

  /** The graph with the names i and j exchanged. */
  function SwapGraph(g: Graph, i: nat, j: nat): (h: Graph)
    requires i < g.n && j < g.n
    ensures h.n == g.n
    ensures forall u, v :: 0 <= u < g.n && 0 <= v < g.n ==> (Edge(h, u, v) <==> Edge(g, Swap(i, j, u), Swap(i, j, v)))
  {
    SwapRowsWellFormed(g, i, j);
    var h: Graph := BitGraph(g.n, SwapRows(g, i, j));
    assert forall u, v :: 0 <= u < g.n && 0 <= v < g.n ==>
        (Edge(h, u, v) <==> Edge(g, Swap(i, j, u), Swap(i, j, v))) by {
      forall u, v | 0 <= u < g.n && 0 <= v < g.n
        ensures Edge(h, u, v) <==> Edge(g, Swap(i, j, u), Swap(i, j, v))
      {
        SwapRowsAt(g, i, j, u, v);
      }
    }
    h
  }

  lemma SwapKeepsDegrees(g: Graph, i: nat, j: nat)
    requires i < g.n && j < g.n && MinimumDegreeThree(g)
    ensures MinimumDegreeThree(SwapGraph(g, i, j))
  {
    forall u | 0 <= u < g.n
      ensures |SwapGraph(g, i, j).rows[u]| >= 3
    {
      SwapSetSize(i, j, g.rows[Swap(i, j, u)]);
    }
  }

  function SwapPath(i: nat, j: nat, p: seq<nat>): (q: seq<nat>)
    ensures |q| == |p| && forall k :: 0 <= k < |p| ==> q[k] == Swap(i, j, p[k])
  {
    seq(|p|, k requires 0 <= k < |p| => Swap(i, j, p[k]))
  }

  lemma SwapKeepsWalk(g: Graph, i: nat, j: nat, w: seq<nat>, u: nat, v: nat)
    requires i < g.n && j < g.n && IsWalk(g, w, u, v) && u < g.n
    ensures IsWalk(SwapGraph(g, i, j), SwapPath(i, j, w), Swap(i, j, u), Swap(i, j, v))
  {
  }

  lemma SwapKeepsConnected(g: Graph, i: nat, j: nat)
    requires i < g.n && j < g.n && Connected(g)
    ensures Connected(SwapGraph(g, i, j))
  {
    var h := SwapGraph(g, i, j);
    forall u, v | 0 <= u < h.n && 0 <= v < h.n
      ensures Joined(h, u, v)
    {
      var a, b := Swap(i, j, u), Swap(i, j, v);
      assert Joined(g, a, b);
      var w :| IsWalk(g, w, a, b);
      SwapKeepsWalk(g, i, j, w, a, b);
      SwapTwice(i, j, u);
      SwapTwice(i, j, v);
    }
  }

  /** A cycle of the renamed graph renames back to a cycle of the graph. */
  lemma SwapReflectsCycle(g: Graph, i: nat, j: nat, p: seq<nat>)
    requires i < g.n && j < g.n && IsCycle(SwapGraph(g, i, j), p)
    ensures IsCycle(g, SwapPath(i, j, p))
  {
    hide SwapGraph, SwapPath, Edge;
    var h, q := SwapGraph(g, i, j), SwapPath(i, j, p);
    forall a, b | 0 <= a < b < |q|
      ensures q[a] != q[b]
    {
      SwapTwice(i, j, p[a]);
      SwapTwice(i, j, p[b]);
      assert p[a] != p[b];
    }
    forall k | 0 <= k < |q| - 1
      ensures Edge(g, q[k], q[k + 1])
    {
      assert Edge(h, p[k], p[k + 1]);
    }
  }

  lemma SwapKeepsCounterexample(g: Graph, i: nat, j: nat)
    requires i < g.n && j < g.n && Counterexample(g)
    ensures Counterexample(SwapGraph(g, i, j))
  {
    var h := SwapGraph(g, i, j);
    SwapKeepsDegrees(g, i, j);
    SwapKeepsConnected(g, i, j);
    forall k, p | ForbiddenLength(h.n, k) && IsCycle(h, p) && |p| == k
      ensures false
    {
      SwapReflectsCycle(g, i, j, p);
      assert HasCycle(g, k);
    }
  }

  /** Any counterexample can be renamed so that {0, 1} is an edge. */
  lemma EdgeZeroOne(g: Graph) returns (h: Graph)
    requires Counterexample(g)
    ensures h.n == g.n && Counterexample(h) && Edge(h, 0, 1)
  {
    var b := Lowest(g.rows[0]);
    EdgeSymmetric(g, 0, b);
    assert Edge(g, 0, b);
    assert g.n > 1;
    h := SwapGraph(g, 1, b);
    SwapKeepsCounterexample(g, 1, b);
    assert Swap(1, b, 0) == 0 && Swap(1, b, 1) == b;
  }
}
