/** Complete graphs as concrete candidates: how many paths a search of one meets at most, how many cycles of length
    five it reports at least, and with them a request whose verdict is wrong. */
module CompleteGraphs {
  import opened Collections
  import opened Graphs
  import opened Cycles
  import opened Preorder
  import opened CountCycles
  import opened Scoring

  // ---------- an upper bound on the paths of any graph ----------

  /** The nodes of a tree with n children at every inner node. */
  function Tree(n: nat, depth: nat): nat {
    if depth == 0 then 1 else 1 + n * Tree(n, depth - 1)
  }

  lemma ChildrenFit(g: Graph, p: seq<nat>)
    requires |p| > 0
    ensures |Children(g, p)| <= g.n
  {
    if p[|p| - 1] < g.n {
      RowSize(g, p[|p| - 1]);
      SubsetSize(Children(g, p), g.rows[p[|p| - 1]]);
    } else {
      assert Children(g, p) == {};
    }
  }

  lemma {:induction false} SubtreeFits(g: Graph, k: nat, p: seq<nat>)
    requires 0 < |p| <= k
    ensures |Subtree(g, k, p)| <= Tree(g.n, k - |p|)
    decreases k - |p|, 1, 0
  {
    if |p| < k {
      ForestFits(g, k, p, Children(g, p));
      ChildrenFit(g, p);
      MultiplyMonotone(|Children(g, p)|, g.n, Tree(g.n, k - |p| - 1));
    }
  }

  lemma {:induction false} ForestFits(g: Graph, k: nat, p: seq<nat>, bits: set<nat>)
    requires 0 < |p| < k
    ensures |Forest(g, k, p, bits)| <= |bits| * Tree(g.n, k - |p| - 1)
    decreases k - |p|, 0, |bits|
  {
    if bits != {} {
      var v, t := Lowest(bits), Tree(g.n, k - |p| - 1);
      SubtreeFits(g, k, p + [v]);
      ForestFits(g, k, p, bits - {v});
      OneMoreTerm(|bits|, t);
    }
  }

  lemma OneMoreTerm(n: nat, t: nat)
    requires n > 0
    ensures (n - 1) * t + t == n * t
  {
  }

  lemma {:induction false} FromStartFits(g: Graph, k: nat, start: nat)
    requires k > 0 && start <= g.n
    ensures |FromStart(g, k, start)| <= (g.n - start) * Tree(g.n, k - 1)
    decreases g.n - start
  {
    if start < g.n {
      SubtreeFits(g, k, [start]);
      FromStartFits(g, k, start + 1);
      OneMoreTerm(g.n - start, Tree(g.n, k - 1));
    }
  }

  /** No search of a graph meets more paths of up to k vertices than this. */
  lemma PathsWithin(g: Graph, k: nat)
    requires k > 0
    ensures |AllTrails(g, k)| <= g.n * Tree(g.n, k - 1)
  {
    FromStartFits(g, k, 0);
    hide FromStart, Tree;
  }

  // ---------- a lower bound on the cycles of a complete graph ----------

  function Others(n: nat, u: nat): (s: set<nat>)
    ensures forall v :: v in s <==> 0 <= v < n && v != u
  {
    Vertices(n) - {u}
  }

  function Complete(n: nat): (g: Graph)
    ensures g.n == n && forall u: nat, v: nat :: Edge(g, u, v) <==> u < n && v < n && u != v
  {
    var g := BitGraph(n, seq(n, u requires 0 <= u < n => Others(n, u)));
    assert forall u :: 0 <= u < n ==> g.rows[u] == Others(n, u);
    assert WellFormed(g);
    g
  }

  function Above(n: nat, low: nat): (s: set<nat>)
    ensures forall v :: v in s <==> low < v < n
    ensures |s| == if low < n then n - 1 - low else 0
    decreases n
  {
    if n == 0 || low + 1 >= n then {} else Above(n - 1, low) + {n - 1}
  }

  lemma CompleteChildren(n: nat, p: seq<nat>)
    requires IsTrail(Complete(n), p)
    ensures Children(Complete(n), p) == Above(n, p[0]) - SeenSet(p)
  {
    forall v
      ensures v in Children(Complete(n), p) <==> v in Above(n, p[0]) - SeenSet(p)
    {
      if v in Children(Complete(n), p) {
        assert Edge(Complete(n), p[|p| - 1], v);
      }
      if v in Above(n, p[0]) - SeenSet(p) {
        assert Edge(Complete(n), p[|p| - 1], v);
      }
    }
  }

  function Pos(x: int): nat {
    if x < 0 then 0 else x
  }

  /** The cycles met below a path are at least those below each of its children, times their number. */
  lemma {:induction false} ForestHits(g: Graph, p: seq<nat>, bits: set<nat>, each: nat)
    requires 0 < |p| < 5
    requires forall v :: v in bits ==> |Hits(g, 5, Subtree(g, 5, p + [v]))| >= each
    ensures |Hits(g, 5, Forest(g, 5, p, bits))| >= |bits| * each
    decreases |bits|
  {
    hide Subtree, Hits;
    if bits != {} {
      var v := Lowest(bits);
      ForestHits(g, p, bits - {v}, each);
      HitsConcat(g, 5, Subtree(g, 5, p + [v]), Forest(g, 5, p, bits - {v}));
      OneMoreTerm(|bits|, each);
    }
  }

  /** A path that is not yet full is no cycle itself. */
  lemma SubtreeHits(g: Graph, p: seq<nat>)
    requires 0 < |p| < 5
    ensures |Hits(g, 5, Subtree(g, 5, p))| == |Hits(g, 5, Forest(g, 5, p, Children(g, p)))|
  {
    hide Forest, Hits;
    HitsCons(g, 5, p, Forest(g, 5, p, Children(g, p)));
  }

  /** The last vertex closes a cycle exactly when it is above the second. */
  lemma LeafHits(n: nat, p: seq<nat>, v: nat)
    requires |p| == 4 && IsTrail(Complete(n), p) && v in Children(Complete(n), p)
    ensures |Hits(Complete(n), 5, Subtree(Complete(n), 5, p + [v]))| == if p[1] < v then 1 else 0
  {
    var g, q := Complete(n), p + [v];
    ExtendTrail(g, p, v);
    assert Subtree(g, 5, q) == [q] && q[1] == p[1] && q[0] == p[0];
    HitsCons(g, 5, q, []);
    assert [q] + [] == [q];
    assert Closes(g, q);
  }

  lemma {:induction false} LastForest(n: nat, p: seq<nat>, bits: set<nat>)
    requires |p| == 4 && IsTrail(Complete(n), p) && bits <= Children(Complete(n), p)
    ensures |Hits(Complete(n), 5, Forest(Complete(n), 5, p, bits))| >= |set v | v in bits && p[1] < v|
    decreases |bits|
  {
    hide Subtree, Hits, Children, IsTrail, Complete;
    var above := set v | v in bits && p[1] < v;
    if bits == {} {
      assert above == {};
    } else {
      var v := Lowest(bits);
      LastForest(n, p, bits - {v});
      LeafHits(n, p, v);
      HitsConcat(Complete(n), 5, Subtree(Complete(n), 5, p + [v]), Forest(Complete(n), 5, p, bits - {v}));
      var rest := set w | w in bits - {v} && p[1] < w;
      assert above == rest + if p[1] < v then {v} else {};
    }
  }

  lemma LessAtMost(a: set<nat>, b: set<nat>)
    ensures |a - b| >= |a| - |b|
  {
    assert a == (a - b) + (a * b);
    SubsetSize(a * b, b);
  }

  lemma {:induction false} SeenSize(p: seq<nat>)
    ensures |SeenSet(p)| <= |p|
  {
    if p == [] {
      assert SeenSet(p) == {};
    } else {
      SeenSize(p[1..]);
      assert SeenSet(p) == SeenSet(p[1..]) + {p[0]};
    }
  }

  lemma StartIsBelow(n: nat, p: seq<nat>)
    requires |p| > 0
    ensures Above(n, p[0]) - SeenSet(p) == Above(n, p[0]) - SeenSet(p[1..])
  {
    forall v | v > p[0]
      ensures v in p <==> v in p[1..]
    {
      assert p == [p[0]] + p[1..];
    }
  }

  /** How many vertices extend a path of a complete graph. */
  lemma ChildrenAtLeast(n: nat, p: seq<nat>)
    requires IsTrail(Complete(n), p)
    ensures |Children(Complete(n), p)| >= Pos(n - p[0] - |p|)
  {
    TrailInside(Complete(n), p);
    CompleteChildren(n, p);
    hide Complete, IsTrail, Children, SeenSet;
    StartIsBelow(n, p);
    SeenSize(p[1..]);
    LessAtMost(Above(n, p[0]), SeenSet(p[1..]));
  }

  lemma LastChildren(n: nat, p: seq<nat>)
    requires |p| == 4 && p[0] < p[1]
    ensures (set v | v in Above(n, p[0]) - SeenSet(p) && p[1] < v) == Above(n, p[1]) - {p[2], p[3]}
  {
    forall v
      ensures v in Above(n, p[0]) - SeenSet(p) && p[1] < v <==> v in Above(n, p[1]) - {p[2], p[3]}
    {
      assert v in p <==> v == p[0] || v == p[1] || v == p[2] || v == p[3];
    }
  }

  lemma BelowFour(n: nat, p: seq<nat>)
    requires |p| == 4 && IsTrail(Complete(n), p)
    ensures |Hits(Complete(n), 5, Subtree(Complete(n), 5, p))| >= Pos(n - 3 - p[1])
  {
    SecondInside(n, p);
    hide Complete, IsTrail, Children, SeenSet, Subtree, Hits;
    SubtreeHits(Complete(n), p);
    CompleteChildren(n, p);
    LastForest(n, p, Children(Complete(n), p));
    LastChildren(n, p);
    LessAtMost(Above(n, p[1]), {p[2], p[3]});
  }

  lemma SecondInside(n: nat, p: seq<nat>)
    requires |p| > 1 && IsTrail(Complete(n), p)
    ensures p[0] < p[1] < n
  {
  }

  /** From the children of a path to the path itself. */
  lemma LevelUp(n: nat, p: seq<nat>, each: nat)
    requires 0 < |p| < 5 && IsTrail(Complete(n), p)
    requires forall v :: v in Children(Complete(n), p) ==>
               |Hits(Complete(n), 5, Subtree(Complete(n), 5, p + [v]))| >= each
    ensures |Hits(Complete(n), 5, Subtree(Complete(n), 5, p))| >= Pos(n - p[0] - |p|) * each
  {
    hide Complete, IsTrail, Children, Subtree, Hits;
    ForestHits(Complete(n), p, Children(Complete(n), p), each);
    SubtreeHits(Complete(n), p);
    ChildrenAtLeast(n, p);
    MultiplyMonotone(Pos(n - p[0] - |p|), |Children(Complete(n), p)|, each);
  }

  function Three(n: nat, start: nat, second: nat): nat {
    Pos(n - start - 3) * Pos(n - 3 - second)
  }

  function Two(n: nat, start: nat, second: nat): nat {
    Pos(n - start - 2) * Three(n, start, second)
  }

  lemma BelowThree(n: nat, p: seq<nat>)
    requires |p| == 3 && IsTrail(Complete(n), p)
    ensures |Hits(Complete(n), 5, Subtree(Complete(n), 5, p))| >= Three(n, p[0], p[1])
  {
    hide Complete, IsTrail, Children, Subtree, Hits;
    forall v | v in Children(Complete(n), p)
      ensures |Hits(Complete(n), 5, Subtree(Complete(n), 5, p + [v]))| >= Pos(n - 3 - p[1])
    {
      ExtendTrail(Complete(n), p, v);
      BelowFour(n, p + [v]);
    }
    LevelUp(n, p, Pos(n - 3 - p[1]));
  }

  lemma BelowTwo(n: nat, p: seq<nat>)
    requires |p| == 2 && IsTrail(Complete(n), p)
    ensures |Hits(Complete(n), 5, Subtree(Complete(n), 5, p))| >= Two(n, p[0], p[1])
  {
    hide Complete, IsTrail, Children, Subtree, Hits, Three;
    forall v | v in Children(Complete(n), p)
      ensures |Hits(Complete(n), 5, Subtree(Complete(n), 5, p + [v]))| >= Three(n, p[0], p[1])
    {
      ExtendTrail(Complete(n), p, v);
      BelowThree(n, p + [v]);
    }
    LevelUp(n, p, Three(n, p[0], p[1]));
  }

  /** Twice the sum of the first r of 0, 0, 0, 1, 2, ... */
  function Twice(r: nat): nat {
    if r < 3 then 0 else (r - 2) * (r - 3)
  }

  lemma TwiceNext(w: nat, r: nat)
    requires r > 0
    ensures w * Twice(r) == w * Twice(r - 1) + 2 * (w * Pos(r - 3))
  {
    if r >= 3 {
      assert Twice(r) == Twice(r - 1) + 2 * Pos(r - 3);
    }
  }

  function Width(m: nat): nat {
    Pos(m - 1) * Pos(m - 2)
  }

  /** The cycles through a start and a second vertex from `from` on. */
  lemma {:induction false} FromSecond(n: nat, start: nat, from: nat)
    requires start < from <= n
    ensures 2 * |Hits(Complete(n), 5, Forest(Complete(n), 5, [start], Above(n, from - 1)))|
         >= Width(n - 1 - start) * Twice(n - from)
    decreases n - from
  {
    hide *;
    var w := Width(n - 1 - start);
    if from == n {
      NothingTwice(w);
    } else {
      FromSecond(n, start, from + 1);
      PairTrail(n, start, from);
      BelowTwo(n, [start] + [from]);
      SecondSplits(n, start, from);
      TwiceNext(w, n - from);
      WidthIs(n, start, from);
    }
  }

  lemma SecondSplits(n: nat, start: nat, from: nat)
    requires start < from < n
    ensures |Hits(Complete(n), 5, Forest(Complete(n), 5, [start], Above(n, from - 1)))|
         == |Hits(Complete(n), 5, Subtree(Complete(n), 5, [start] + [from]))|
            + |Hits(Complete(n), 5, Forest(Complete(n), 5, [start], Above(n, from)))|
  {
    var g, bits := Complete(n), Above(n, from - 1);
    hide Subtree, Hits, Complete;
    assert Lowest(bits) == from && bits - {from} == Above(n, from);
    HitsConcat(g, 5, Subtree(g, 5, [start] + [from]), Forest(g, 5, [start], bits - {from}));
  }

  lemma NothingTwice(w: nat)
    ensures w * Twice(0) == 0
  {
  }

  lemma PairTrail(n: nat, u: nat, v: nat)
    requires u < v < n
    ensures IsTrail(Complete(n), [u] + [v]) && IsTrail(Complete(n), [u])
  {
    assert Edge(Complete(n), u, v);
  }

  lemma WidthIs(n: nat, start: nat, from: nat)
    requires start < from < n
    ensures Two(n, start, from) == Width(n - 1 - start) * Pos(n - from - 3)
  {
  }

  /** Twice the cycles that start at one of the last r vertices, at least. */
  function Cycles5(r: nat): nat {
    if r == 0 then 0 else Cycles5(r - 1) + Width(r - 1) * Twice(r - 1)
  }

  lemma {:induction false} FromStartHits(n: nat, start: nat)
    requires start <= n
    ensures 2 * |Hits(Complete(n), 5, FromStart(Complete(n), 5, start))| >= Cycles5(n - start)
    decreases n - start
  {
    hide *;
    if start == n {
      NoStarts(n);
    } else {
      FromStartHits(n, start + 1);
      FromSecond(n, start, start + 1);
      StartSplits(n, start);
      Cycles5Next(n - start);
    }
  }

  lemma NoStarts(n: nat)
    ensures Cycles5(0) == 0
  {
  }

  lemma Cycles5Next(r: nat)
    requires r > 0
    ensures Cycles5(r) == Cycles5(r - 1) + Width(r - 1) * Twice(r - 1)
  {
  }

  lemma StartSplits(n: nat, start: nat)
    requires start < n
    ensures |Hits(Complete(n), 5, FromStart(Complete(n), 5, start))|
         == |Hits(Complete(n), 5, Forest(Complete(n), 5, [start], Above(n, start)))|
            + |Hits(Complete(n), 5, FromStart(Complete(n), 5, start + 1))|
  {
    var g := Complete(n);
    hide Subtree, Forest, Hits, Complete;
    StartChildren(n, start);
    SubtreeHits(g, [start]);
    HitsConcat(g, 5, Subtree(g, 5, [start]), FromStart(g, 5, start + 1));
  }

  lemma StartChildren(n: nat, start: nat)
    requires start < n
    ensures Children(Complete(n), [start]) == Above(n, start)
  {
    CompleteChildren(n, [start]);
    assert SeenSet([start]) == {start};
  }

  // ---------- the complete graph on 84 vertices ----------

  lemma FewPaths()
    ensures 84 * Tree(84, 4) == 4232506404
  {
    assert Tree(84, 1) == 85;
    assert Tree(84, 2) == 7141;
    assert Tree(84, 3) == 599845;
  }

  /** Ten times the bound of `Cycles5`, in closed form. */
  function Closed5(x: nat): int {
    (x * (x + 1) * (x + 2)) * ((x - 1) * (2 * x + 1))
  }

  lemma Closed5Next(x: nat)
    ensures Closed5(x + 1) == Closed5(x) + 10 * (((x + 2) * (x + 1)) * ((x + 1) * x))
  {
    var y := x * (x + 1) * (x + 2);
    assert (x + 1) * (x + 2) * (x + 3) * (x * (2 * x + 3)) == y * ((x + 3) * (2 * x + 3));
    assert (x + 3) * (2 * x + 3) == (x - 1) * (2 * x + 1) + 10 * (x + 1);
    assert y * ((x - 1) * (2 * x + 1) + 10 * (x + 1)) == y * ((x - 1) * (2 * x + 1)) + y * (10 * (x + 1));
    assert y * (10 * (x + 1)) == 10 * (((x + 2) * (x + 1)) * ((x + 1) * x));
  }

  lemma {:induction false} Cycles5Closed(r: nat)
    requires r >= 3
    ensures 10 * Cycles5(r) == Closed5(r - 3)
  {
    if r == 3 {
      assert Cycles5(3) == 0;
    } else {
      Cycles5Closed(r - 1);
      Closed5Next(r - 4);
    }
  }

  lemma ManyCycles()
    ensures Cycles5(84) >= 715827886
  {
    Cycles5Closed(84);
  }

  /** Its cycles of length five reach the limit of the request, within the node budget. */
  lemma DensePenalty(q: Request)
    requires q.limit == 357913943 && q.nodeBudget == TWO32 - 1
    ensures Penalty(Complete(84), q, 5) == 357913942
  {
    var g := Complete(84);
    hide FromStart, Hits, Tree, Cycles5, Bounded, Complete, Subtree;
    PathsWithin(g, 5);
    FewPaths();
    FromStartHits(84, 0);
    ManyCycles();
    CyclesAre(g);
    BoundedMeaning(g, 5, q.limit, BudgetOf(q.nodeBudget));
  }

  lemma CyclesAre(g: Graph)
    ensures AllCycles(g, 5) == Hits(g, 5, FromStart(g, 5, 0))
  {
    hide FromStart, Hits;
  }

  /** The worker accepts the request of `MissedCutoff` for this graph, and every answer to it says that the
      candidate is not dominated, which it is. */
  lemma DenseGraphIsMissed()
    ensures Accepted(Complete(84), MISSED) && InRange(EvaluationOrder(MISSED)) && InRange(MISSED.lengths)
    ensures Dominated(MISSED, FullKey(Complete(84), MISSED))
    ensures forall e :: Scored(Complete(84), MISSED, e) ==> e.Answered? && e.status == StatusOk
  {
    hide Complete, Penalty, Scored, Dominated, FullKey;
    DensePenalty(MISSED);
    assert EvaluationOrder(MISSED) == [5];
    MissedTies(Complete(84), MISSED);
    forall e | Scored(Complete(84), MISSED, e)
      ensures e.Answered? && e.status == StatusOk
    {
      MissedCutoff(Complete(84), MISSED, e);
    }
  }
}
