/** Splitting a graph into its connected components. */
module Components {
  import opened Graphs

  /** A component with its least vertex first: closed, and every member joined to that vertex. */
  ghost predicate IsComponent(g: Graph, c: set<nat>) {
    && c != {} && c <= Vertices(g.n) && Closed(g, c)
    && (forall v :: v in c ==> Joined(g, Lowest(c), v))
  }

  ghost predicate PairwiseDisjoint(s: seq<set<nat>>) {
    forall i, j :: 0 <= i < j < |s| ==> s[i] !! s[j]
  }

  ghost predicate Covers(s: seq<set<nat>>, v: nat) {
    exists i :: 0 <= i < |s| && v in s[i]
  }

  /** The components partition the vertices, in increasing order of least vertex. */
  ghost predicate Partitions(g: Graph, s: seq<set<nat>>) {
    && (forall i :: 0 <= i < |s| ==> IsComponent(g, s[i]))
    && PairwiseDisjoint(s)
    && (forall v :: 0 <= v < g.n ==> Covers(s, v))
    && InOrder(s)
  }

  ghost predicate LeastBefore(a: set<nat>, b: set<nat>) {
    a != {} && b != {} ==> Lowest(a) < Lowest(b)
  }

  ghost predicate InOrder(s: seq<set<nat>>) {
    forall i, j :: 0 <= i < j < |s| ==> LeastBefore(s[i], s[j])
  }

  // ---------- growing one component ----------

  /** The search's invariant while u's neighbours in `pending` are still to be looked at: only they and the
      neighbours of frontier vertices may lie outside the component. */
  ghost predicate Growing(g: Graph, start: nat, whole: set<nat>, component: set<nat>, remaining: set<nat>,
                          frontier: seq<nat>, u: nat, pending: set<nat>) {
    && start in component && component !! remaining && component + remaining == whole
    && (forall v :: v in component ==> Joined(g, start, v))
    && (forall v :: v in frontier ==> v in component)
    && (forall x, v :: x in component && Edge(g, x, v) && v !in component ==> x in frontier || (x == u && v in pending))
  }

  lemma GrowingPop(g: Graph, start: nat, whole: set<nat>, component: set<nat>, remaining: set<nat>, frontier: seq<nat>,
                   before: nat)
    requires frontier != [] && whole <= Vertices(g.n)
    requires Growing(g, start, whole, component, remaining, frontier, before, {})
    ensures var last := |frontier| - 1; var u := frontier[last];
      u < g.n && u in component && Growing(g, start, whole, component, remaining, frontier[..last], u, g.rows[u])
  {
    var last := |frontier| - 1;
    var u := frontier[last];
    assert u in frontier && frontier == frontier[..last] + [u];
    assert u in whole;
    forall x, v | x in component && Edge(g, x, v) && v !in component
      ensures x in frontier[..last] || (x == u && v in g.rows[u])
    {
      assert x in frontier;
    }
  }

  lemma GrowingTake(g: Graph, start: nat, whole: set<nat>, component: set<nat>, remaining: set<nat>, frontier: seq<nat>,
                    u: nat, pending: set<nat>, v: nat)
    requires Growing(g, start, whole, component, remaining, frontier, u, pending)
    requires Closed(g, whole) && u in component && v in pending && Edge(g, u, v)
    ensures if v in remaining
      then Growing(g, start, whole, component + {v}, remaining - {v}, frontier + [v], u, pending - {v})
      else Growing(g, start, whole, component, remaining, frontier, u, pending - {v})
  {
    assert v in whole;
    if v in remaining {
      JoinedStep(g, start, u, v);
      forall x, w | x in component + {v} && Edge(g, x, w) && w !in component + {v}
        ensures x in frontier + [v] || (x == u && w in pending - {v})
      {
        if x != v {
          assert x in frontier || (x == u && w in pending);
        }
      }
    }
  }

  lemma GrowingDone(g: Graph, start: nat, whole: set<nat>, component: set<nat>, remaining: set<nat>, u: nat)
    requires Growing(g, start, whole, component, remaining, [], u, {})
    requires whole != {} && whole <= Vertices(g.n) && Closed(g, whole) && start == Lowest(whole)
    ensures IsComponent(g, component) && Lowest(component) == start
    ensures component !! remaining && component + remaining == whole && Closed(g, remaining)
  {
    assert Closed(g, component);
    RestClosed(g, whole, component, remaining);
  }

  lemma RestClosed(g: Graph, whole: set<nat>, part: set<nat>, rest: set<nat>)
    requires Closed(g, whole) && Closed(g, part) && part !! rest && part + rest == whole
    ensures Closed(g, rest)
  {
    forall u, v | u in rest && Edge(g, u, v)
      ensures v in rest
    {
      EdgeSymmetric(g, u, v);
      assert u in whole;
    }
  }

  /** Looks at the neighbours of one vertex: those still remaining join the component and the frontier. */
  method Absorb(g: Graph, ghost start: nat, ghost whole: set<nat>, u: nat, component0: set<nat>, remaining0: set<nat>,
                frontier0: seq<nat>)
    returns (component: set<nat>, remaining: set<nat>, frontier: seq<nat>)
    requires u < g.n && Closed(g, whole) && u in component0
    requires Growing(g, start, whole, component0, remaining0, frontier0, u, g.rows[u])
    ensures Growing(g, start, whole, component, remaining, frontier, u, {})
    ensures remaining < remaining0 || (remaining == remaining0 && frontier == frontier0)
  {
    hide Growing, Closed, IsComponent, Edge;
    component, remaining, frontier := component0, remaining0, frontier0;
    var neighbours := g.rows[u];
    while neighbours != {}
      invariant Growing(g, start, whole, component, remaining, frontier, u, neighbours)
      invariant neighbours <= g.rows[u] && u in component
      invariant remaining < remaining0 || (remaining == remaining0 && frontier == frontier0)
      decreases |neighbours|
    {
      var v := Lowest(neighbours);
      assert Edge(g, u, v) by { EdgeIs(g, u, v); }
      GrowingTake(g, start, whole, component, remaining, frontier, u, neighbours, v);
      if v in remaining {
        remaining := remaining - {v};
        component := component + {v};
        frontier := frontier + [v];
      }
      neighbours := neighbours - {v};
    }
  }

  lemma EdgeIs(g: Graph, u: nat, v: nat)
    ensures Edge(g, u, v) <==> u < g.n && v in g.rows[u]
  {
  }

  /** Grows one component from the least remaining vertex; what is left stays closed. */
  method Grow(g: Graph, remaining0: set<nat>) returns (component: set<nat>, remaining: set<nat>)
    requires remaining0 != {} && remaining0 <= Vertices(g.n) && Closed(g, remaining0)
    ensures IsComponent(g, component) && Lowest(component) == Lowest(remaining0)
    ensures component !! remaining && component + remaining == remaining0
    ensures Closed(g, remaining)
  {
    var start := Lowest(remaining0);
    component, remaining := {start}, remaining0 - {start};
    var frontier: seq<nat> := [start];
    JoinedRefl(g, start);
    ghost var current := start;
    assert Growing(g, start, remaining0, component, remaining, frontier, current, {});
    hide Growing, Closed, IsComponent, Edge, WellFormed, Vertices, Lowest;
    while frontier != []
      invariant Growing(g, start, remaining0, component, remaining, frontier, current, {})
      decreases remaining, |frontier|
    {
      GrowingPop(g, start, remaining0, component, remaining, frontier, current);
      var u := frontier[|frontier| - 1];
      component, remaining, frontier :=
        Absorb(g, start, remaining0, u, component, remaining, frontier[..|frontier| - 1]);
      current := u;
    }
    GrowingDone(g, start, remaining0, component, remaining, current);
  }

  // ---------- splitting the whole graph ----------

  /** The components found so far, and the vertices still to be split. */
  ghost predicate PartsFound(g: Graph, s: seq<set<nat>>, remaining: set<nat>) {
    forall i :: 0 <= i < |s| ==> IsComponent(g, s[i]) && s[i] !! remaining && LeastBefore(s[i], remaining)
  }

  ghost predicate AllButCovered(g: Graph, s: seq<set<nat>>, remaining: set<nat>) {
    forall v :: 0 <= v < g.n && v !in remaining ==> Covers(s, v)
  }

  /** The splitting loop's invariant. */
  ghost predicate Splitting(g: Graph, s: seq<set<nat>>, remaining: set<nat>) {
    && remaining <= Vertices(g.n) && Closed(g, remaining)
    && PartsFound(g, s, remaining) && PairwiseDisjoint(s) && InOrder(s) && AllButCovered(g, s, remaining)
  }

  lemma CoversMore(s: seq<set<nat>>, c: set<nat>, v: nat)
    ensures Covers(s + [c], v) <==> Covers(s, v) || v in c
  {
    var t := s + [c];
    if Covers(s, v) {
      var i :| 0 <= i < |s| && v in s[i];
      assert v in t[i];
    }
    if v in c {
      assert v in t[|s|];
    }
  }

  lemma DisjointMore(s: seq<set<nat>>, c: set<nat>)
    requires PairwiseDisjoint(s) && forall i :: 0 <= i < |s| ==> s[i] !! c
    ensures PairwiseDisjoint(s + [c])
  {
  }

  lemma InOrderMore(s: seq<set<nat>>, c: set<nat>)
    requires InOrder(s) && forall i :: 0 <= i < |s| ==> LeastBefore(s[i], c)
    ensures InOrder(s + [c])
  {
  }

  lemma StillBefore(a: set<nat>, remaining: set<nat>, c: set<nat>, rest: set<nat>)
    requires LeastBefore(a, remaining) && a !! remaining
    requires c != {} && remaining != {} && Lowest(c) == Lowest(remaining) && c !! rest && c + rest == remaining
    ensures LeastBefore(a, c) && LeastBefore(a, rest) && LeastBefore(c, rest)
    ensures a !! c && a !! rest
  {
  }

  lemma PartsKept(g: Graph, s: seq<set<nat>>, remaining: set<nat>, c: set<nat>, rest: set<nat>)
    requires PartsFound(g, s, remaining) && PairwiseDisjoint(s) && InOrder(s)
    requires IsComponent(g, c) && remaining != {} && Lowest(c) == Lowest(remaining)
    requires c !! rest && c + rest == remaining
    ensures PartsFound(g, s + [c], rest) && PairwiseDisjoint(s + [c]) && InOrder(s + [c])
  {
    assert c != {};
    hide LeastBefore, Lowest, IsComponent, PairwiseDisjoint, InOrder;
    forall i | 0 <= i < |s|
      ensures s[i] !! c && s[i] !! rest && LeastBefore(s[i], c) && LeastBefore(s[i], rest)
    {
      StillBefore(s[i], remaining, c, rest);
    }
    DisjointMore(s, c);
    InOrderMore(s, c);
    EmptyBefore(remaining);
    StillBefore({}, remaining, c, rest);
  }

  lemma CoverGrows(g: Graph, s: seq<set<nat>>, remaining: set<nat>, c: set<nat>, rest: set<nat>)
    requires c + rest == remaining && AllButCovered(g, s, remaining)
    ensures AllButCovered(g, s + [c], rest)
  {
    forall v | 0 <= v < g.n && v !in rest
      ensures Covers(s + [c], v)
    {
      CoversMore(s, c, v);
      hide Covers;
    }
  }

  lemma SplittingStep(g: Graph, s: seq<set<nat>>, remaining: set<nat>, c: set<nat>, rest: set<nat>)
    requires Splitting(g, s, remaining) && remaining != {}
    requires IsComponent(g, c) && Lowest(c) == Lowest(remaining)
    requires c !! rest && c + rest == remaining && Closed(g, rest)
    ensures Splitting(g, s + [c], rest)
  {
    hide Closed, IsComponent, PartsFound, AllButCovered, PairwiseDisjoint, InOrder, Lowest, Vertices;
    PartsKept(g, s, remaining, c, rest);
    CoverGrows(g, s, remaining, c, rest);
  }

  lemma EmptyBefore(b: set<nat>)
    ensures LeastBefore({}, b)
  {
  }

  method Split(g: Graph) returns (components: seq<set<nat>>)
    ensures Partitions(g, components)
  {
    components := [];
    var remaining := Vertices(g.n);
    assert Closed(g, remaining) by {
      forall u, v | u in remaining && Edge(g, u, v)
        ensures v in remaining
      {
        EdgeSymmetric(g, u, v);
      }
    }
    while remaining != {}
      invariant Splitting(g, components, remaining)
      decreases |remaining|
    {
      var component, rest := Grow(g, remaining);
      SplittingStep(g, components, remaining, component, rest);
      GrowthShrinks(component, remaining, rest);
      components := components + [component];
      remaining := rest;
    }
  }

  lemma GrowthShrinks(c: set<nat>, remaining: set<nat>, rest: set<nat>)
    requires c != {} && c !! rest && c + rest == remaining
    ensures |rest| < |remaining|
  {
  }

  /** One component is a connected graph; with more, the first is a proper closed part. */
  lemma ComponentsDecideConnectedness(g: Graph, s: seq<set<nat>>)
    requires Partitions(g, s)
    ensures |s| <= 1 <==> Connected(g)
    ensures |s| > 1 ==> Closed(g, s[0]) && s[0] != {} && s[0] < Vertices(g.n)
  {
    if |s| > 1 {
      MoreThanOne(g, s);
    } else {
      forall u, v | 0 <= u < g.n && 0 <= v < g.n
        ensures Joined(g, u, v)
      {
        assert Covers(s, u) && Covers(s, v);
        var c := s[0];
        assert IsComponent(g, c) && u in c && v in c;
        JoinedSym(g, Lowest(c), u);
        JoinedTrans(g, u, Lowest(c), v);
      }
    }
  }

  lemma MoreThanOne(g: Graph, s: seq<set<nat>>)
    requires Partitions(g, s) && |s| > 1
    ensures Closed(g, s[0]) && s[0] != {} && s[0] < Vertices(g.n) && !Connected(g)
  {
    assert IsComponent(g, s[0]) && IsComponent(g, s[1]) && s[0] !! s[1];
    var a, b := Lowest(s[0]), Lowest(s[1]);
    assert b in s[1] && b in Vertices(g.n);
    ClosedProperSetDisconnects(g, s[0], a, b);
  }
}
