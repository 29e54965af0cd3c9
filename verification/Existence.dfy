/** The two searches for one cycle of an exact length: the reference verifier's, and the native checker's
    with its clock. */
module Existence {
  import opened Outcomes
  import opened Graphs
  import opened Cycles
  import opened Preorder

  /** q completes the search path p to a cycle of length k. */
  ghost predicate Completes(g: Graph, k: nat, p: seq<nat>, q: seq<nat>) {
    |p| <= |q| == k && q[..|p|] == p && IsTrail(g, q) && Closes(g, q)
  }

  ghost predicate Hopeless(g: Graph, k: nat, p: seq<nat>) {
    forall q :: !Completes(g, k, p, q)
  }

  /** A path fails when each of its children does. */
  lemma HopelessFromChildren(g: Graph, k: nat, p: seq<nat>)
    requires IsTrail(g, p) && |p| < k
    requires forall v :: v in Children(g, p) ==> Hopeless(g, k, p + [v])
    ensures Hopeless(g, k, p)
  {
    forall q | Completes(g, k, p, q)
      ensures false
    {
      var v := q[|p|];
      assert q[..|p| + 1] == p + [v];
      TrailPrefix(g, q, |p| + 1);
      ExtendTrail(g, p, v);
      assert Completes(g, k, p + [v], q);
    }
  }

  lemma CompletesFromChild(g: Graph, k: nat, p: seq<nat>, v: nat, q: seq<nat>)
    requires Completes(g, k, p + [v], q)
    ensures Completes(g, k, p, q)
  {
  }

  lemma FullLength(g: Graph, p: seq<nat>)
    requires IsTrail(g, p)
    ensures Closes(g, p) ==> Completes(g, |p|, p, p)
    ensures !Closes(g, p) ==> Hopeless(g, |p|, p)
  {
  }

  lemma ChildrenOf(g: Graph, p: seq<nat>, start: nat, last: nat)
    requires IsTrail(g, p) && start == p[0] && last == p[|p| - 1]
    ensures last < g.n
    ensures Children(g, p) == set v | v in g.rows[last] - SeenSet(p) && v > start
  {
  }

  lemma ClosesOf(g: Graph, p: seq<nat>)
    requires |p| > 0
    ensures Closes(g, p) <==> Edge(g, p[|p| - 1], p[0])
  {
  }

  lemma ClosesAt(g: Graph, p: seq<nat>, start: nat, last: nat)
    requires IsTrail(g, p) && start == p[0] && last == p[|p| - 1]
    ensures last < |g.rows| && (Closes(g, p) <==> start in g.rows[last])
  {
    ChildrenOf(g, p, start, last);
    ClosesOf(g, p);
  }

  lemma EnterStart(g: Graph, start: nat)
    requires start < g.n
    ensures IsTrail(g, [start]) && SeenSet([start]) == {start}
  {
  }

  lemma EnterChild(g: Graph, p: seq<nat>, v: nat)
    requires IsTrail(g, p) && v in Children(g, p)
    ensures IsTrail(g, p + [v])
    ensures SeenSet(p + [v]) == SeenSet(p) + {v}
    ensures SeenSet(p + [v]) - {v} == SeenSet(p)
  {
    ExtendTrail(g, p, v);
  }

  /** Starting only at least vertices is enough: a graph with a cycle has one found from its least vertex. */
  lemma HopelessStartsMeanNoCycle(g: Graph, k: nat)
    requires k >= 3
    requires forall start :: 0 <= start < g.n ==> Hopeless(g, k, [start])
    ensures !HasCycle(g, k)
  {
    forall p | IsCycle(g, p) && |p| == k
      ensures false
    {
      var q := RotateToLeast(g, p);
      assert q[..1] == [q[0]];
      assert Completes(g, k, [q[0]], q);
    }
  }

  /** What an answer promises. */
  ghost predicate Answers(g: Graph, length: int, r: Option<seq<nat>>) {
    && (r.Some? <==> HasCycle(g, length))
    && (r.Some? ==> IsCycle(g, r.value) && MinFirst(r.value) && |r.value| == length)
  }

  // ---------- the reference search ----------

  class Search {
    const g: Graph
    const length: nat
    var path: seq<nat>
    var visited: set<nat>

    constructor (g: Graph, length: nat, start: nat)
      ensures this.g == g && this.length == length && path == [start] && visited == {start}
    {
      this.g, this.length, path, visited := g, length, [start], {start};
    }

    /** Looks for a completion of the current path; path and visited set come back as they were. */
    method Dfs(last: nat) returns (r: Option<seq<nat>>)
      requires IsTrail(g, path) && |path| <= length && visited == SeenSet(path)
      requires last == path[|path| - 1]
      modifies this
      ensures path == old(path) && visited == old(visited)
      ensures r.Some? ==> Completes(g, length, path, r.value)
      ensures r.None? ==> Hopeless(g, length, path)
      decreases length - |path|
    {
      assert |path| > 0;
      hide Completes, Hopeless, Children, IsTrail, SeenSet, Closes;
      ghost var p := path;
      ChildrenOf(g, p, path[0], last);
      if |path| == length {
        FullLength(g, p);
        ClosesOf(g, p);
        if Edge(g, last, path[0]) {
          return Some(path);
        }
        return None;
      }
      var bits := set v | v in g.rows[last] - visited && v > path[0];
      while bits != {}
        invariant path == p && visited == SeenSet(p) && bits <= Children(g, p)
        invariant forall v :: v in Children(g, p) && v !in bits ==> Hopeless(g, length, p + [v])
        decreases |bits|
      {
        var next := Lowest(bits);
        EnterChild(g, p, next);
        path := path + [next];
        visited := visited + {next};
        r := Dfs(next);
        visited := visited - {next};
        path := path[..|path| - 1];
        if r.Some? {
          CompletesFromChild(g, length, p, next, r.value);
          return;
        }
        bits := bits - {next};
      }
      HopelessFromChildren(g, length, p);
      r := None;
    }
  }

  method FindCycleOfLength(g: Graph, length: int) returns (r: Option<seq<nat>>)
    ensures Answers(g, length, r)
  {
    if length < 3 || length > g.n {
      NoLongCycle(g, length);
      return None;
    }
    var start := 0;
    while start < g.n
      invariant 0 <= start <= g.n
      invariant forall s :: 0 <= s < start ==> Hopeless(g, length, [s])
    {
      var search := new Search(g, length, start);
      r := search.Dfs(start);
      if r.Some? {
        return;
      }
      start := start + 1;
    }
    HopelessStartsMeanNoCycle(g, length);
    r := None;
  }

  // ---------- how many nodes a search needs ----------

  /** A full-length path that closes ends the search. */
  ghost predicate Finishes(g: Graph, k: nat, q: seq<nat>) {
    |q| == k > 0 && Closes(g, q)
  }

  ghost predicate HasFinish(g: Graph, k: nat, trails: seq<seq<nat>>) {
    exists i :: 0 <= i < |trails| && Finishes(g, k, trails[i])
  }

  /** The paths met up to the first one that ends the search, or all of them. */
  ghost function Needed(g: Graph, k: nat, trails: seq<seq<nat>>): nat {
    if trails == [] then 0
    else if Finishes(g, k, trails[0]) then 1
    else 1 + Needed(g, k, trails[1..])
  }

  /** The nodes of an unhurried search for a cycle of one length. */
  ghost function NodesNeeded(g: Graph, length: int): nat {
    if length < 3 || length > g.n then 0 else Needed(g, length, AllTrails(g, length))
  }

  lemma {:induction false} NeededPlace(g: Graph, k: nat, trails: seq<seq<nat>>)
    ensures Needed(g, k, trails) <= |trails|
    ensures !HasFinish(g, k, trails) ==> Needed(g, k, trails) == |trails|
    ensures HasFinish(g, k, trails) ==>
              var last := Needed(g, k, trails) - 1;
              && 0 <= last && Finishes(g, k, trails[last])
              && forall i :: 0 <= i < last ==> !Finishes(g, k, trails[i])
  {
    if trails != [] {
      NeededPlace(g, k, trails[1..]);
      hide Finishes;
      if HasFinish(g, k, trails) && !Finishes(g, k, trails[0]) {
        var i :| 0 <= i < |trails| && Finishes(g, k, trails[i]);
        assert trails[1..][i - 1] == trails[i];
        assert HasFinish(g, k, trails[1..]);
        var last := Needed(g, k, trails) - 1;
        forall i | 0 <= i < last
          ensures !Finishes(g, k, trails[i])
        {
          assert i > 0 ==> trails[1..][i - 1] == trails[i];
        }
      }
    }
  }

  lemma {:induction false} NeededConcat(g: Graph, k: nat, a: seq<seq<nat>>, b: seq<seq<nat>>)
    ensures Needed(g, k, a + b) == Needed(g, k, a) + if HasFinish(g, k, a) then 0 else Needed(g, k, b)
  {
    hide Finishes;
    if a == [] {
      assert a + b == b;
    } else {
      NeededConcat(g, k, a[1..], b);
      assert (a + b)[1..] == a[1..] + b;
      assert HasFinish(g, k, a) <==> Finishes(g, k, a[0]) || HasFinish(g, k, a[1..]) by {
        assert forall i :: 0 < i < |a| ==> a[1..][i - 1] == a[i];
      }
    }
  }

  lemma SubtreeFinish(g: Graph, k: nat, p: seq<nat>)
    requires IsTrail(g, p) && 0 < |p| <= k
    ensures HasFinish(g, k, Subtree(g, k, p)) <==> !Hopeless(g, k, p)
  {
    forall q: seq<nat>
      ensures q in Subtree(g, k, p) && Finishes(g, k, q) <==> Completes(g, k, p, q)
    {
      SubtreeMembers(g, k, p, q);
    }
    hide Finishes, Completes, Subtree;
    if !Hopeless(g, k, p) {
      var q :| Completes(g, k, p, q);
      assert q in Subtree(g, k, p);
    }
    if HasFinish(g, k, Subtree(g, k, p)) {
      var i :| 0 <= i < |Subtree(g, k, p)| && Finishes(g, k, Subtree(g, k, p)[i]);
      assert Completes(g, k, p, Subtree(g, k, p)[i]);
    }
  }

  lemma NeededSubtree(g: Graph, k: nat, p: seq<nat>)
    requires 0 < |p| <= k
    ensures Needed(g, k, Subtree(g, k, p)) == 1 + if |p| == k then 0 else Needed(g, k, Forest(g, k, p, Children(g, p)))
  {
    var rest := if |p| == k then [] else Forest(g, k, p, Children(g, p));
    assert Subtree(g, k, p)[1..] == rest && Subtree(g, k, p)[0] == p;
  }

  lemma NeededForest(g: Graph, k: nat, p: seq<nat>, bits: set<nat>, v: nat)
    requires 0 < |p| < k && IsTrail(g, p) && bits <= Children(g, p) && bits != {} && v == Lowest(bits)
    ensures Needed(g, k, Forest(g, k, p, bits)) ==
            Needed(g, k, Subtree(g, k, p + [v]))
            + if Hopeless(g, k, p + [v]) then Needed(g, k, Forest(g, k, p, bits - {v})) else 0
  {
    ExtendTrail(g, p, v);
    SubtreeFinish(g, k, p + [v]);
    NeededConcat(g, k, Subtree(g, k, p + [v]), Forest(g, k, p, bits - {v}));
  }

  lemma NeededFromStart(g: Graph, k: nat, start: nat)
    requires k > 0 && start < g.n
    ensures Needed(g, k, FromStart(g, k, start)) ==
            Needed(g, k, Subtree(g, k, [start]))
            + if Hopeless(g, k, [start]) then Needed(g, k, FromStart(g, k, start + 1)) else 0
  {
    SingletonTrail(g, start);
    SubtreeFinish(g, k, [start]);
    NeededConcat(g, k, Subtree(g, k, [start]), FromStart(g, k, start + 1));
  }

  /** A search that finds nothing needs every path there is; one that finds a cycle needs those up to the first
      full-length path that closes. */
  lemma NodesNeededMeaning(g: Graph, length: nat)
    requires 3 <= length <= g.n
    ensures !HasCycle(g, length) ==> NodesNeeded(g, length) == |AllTrails(g, length)|
    ensures HasCycle(g, length) ==>
              && 0 < NodesNeeded(g, length) <= |AllTrails(g, length)|
              && IsCycle(g, AllTrails(g, length)[NodesNeeded(g, length) - 1])
              && |AllTrails(g, length)[NodesNeeded(g, length) - 1]| == length
  {
    var trails := AllTrails(g, length);
    AllTrailsCharacterized(g, length);
    NeededPlace(g, length, trails);
    hide AllTrails, Ascending, Needed;
    assert forall q: seq<nat> :: q in trails && Finishes(g, length, q) ==> IsCycle(g, q) && |q| == length;
    if HasFinish(g, length, trails) {
      assert trails[Needed(g, length, trails) - 1] in trails;
    }
    if HasCycle(g, length) {
      var c :| IsCycle(g, c) && |c| == length;
      var q := RotateToLeast(g, c);
      assert q in trails && Finishes(g, length, q);
    }
  }

  // ---------- the native checker ----------

  /** No reading of the clock up to the n-th node is late. */
  ghost predicate OnTime(expires: nat -> bool, n: nat) {
    forall k :: 0 < k <= n && k % 1024 == 0 ==> !expires(k)
  }

  /** The clock is late at one of its readings, every 1024 nodes, before the search is through. */
  ghost predicate Late(g: Graph, length: int, timed: bool, expires: nat -> bool) {
    timed && exists k :: 0 < k <= NodesNeeded(g, length) && k % 1024 == 0 && expires(k)
  }

  /** A search that counted its nodes from `before` on has stopped: at a late reading on its way, or with every
      node counted that it needed. */
  ghost predicate ThroughOrLate(timed: bool, expires: nat -> bool, before: nat, needed: nat, nodes: nat,
                                timedOut: bool)
  {
    if timedOut then timed && before < nodes <= before + needed && nodes % 1024 == 0 && expires(nodes)
    else timed ==> nodes == before + needed && OnTime(expires, nodes)
  }

  /** It is still under way, with so many nodes left to count. */
  ghost predicate UnderWay(timed: bool, expires: nat -> bool, before: nat, needed: nat, nodes: nat, left: nat) {
    timed ==> before <= nodes && nodes + left == before + needed && OnTime(expires, nodes)
  }

  lemma NodeCounted(timed: bool, expires: nat -> bool, before: nat, needed: nat, nodes: nat, timedOut: bool)
    requires (timed ==> OnTime(expires, before)) && needed > 0
    requires nodes == if timed then before + 1 else before
    requires timedOut <==> timed && nodes % 1024 == 0 && expires(nodes)
    ensures if timedOut then ThroughOrLate(timed, expires, before, needed, nodes, true)
            else UnderWay(timed, expires, before, needed, nodes, needed - 1)
  {
  }

  lemma PartCounted(timed: bool, expires: nat -> bool, before: nat, needed: nat, nodes: nat, part: nat, rest: nat,
                    nodes': nat, timedOut: bool, over: bool)
    requires UnderWay(timed, expires, before, needed, nodes, part + if over then 0 else rest)
    requires ThroughOrLate(timed, expires, nodes, part, nodes', timedOut)
    ensures if timedOut || over then ThroughOrLate(timed, expires, before, needed, nodes', timedOut)
            else UnderWay(timed, expires, before, needed, nodes', rest)
  {
  }

  /** What a search below one child adds. */
  lemma ChildCounted(g: Graph, k: nat, p: seq<nat>, bits: set<nat>, v: nat, timed: bool, expires: nat -> bool,
                     before: nat, needed: nat, nodes: nat, nodes': nat, timedOut: bool, found: bool)
    requires 0 < |p| < k && IsTrail(g, p) && bits <= Children(g, p) && bits != {} && v == Lowest(bits)
    requires UnderWay(timed, expires, before, needed, nodes, Needed(g, k, Forest(g, k, p, bits)))
    requires ThroughOrLate(timed, expires, nodes, Needed(g, k, Subtree(g, k, p + [v])), nodes', timedOut)
    requires !timedOut ==> (found <==> !Hopeless(g, k, p + [v]))
    ensures if timedOut || found then ThroughOrLate(timed, expires, before, needed, nodes', timedOut)
            else UnderWay(timed, expires, before, needed, nodes', Needed(g, k, Forest(g, k, p, bits - {v})))
  {
    NeededForest(g, k, p, bits, v);
    hide Needed, Forest, Subtree, Hopeless, Children, IsTrail, UnderWay, ThroughOrLate;
    LateIsEarlier(timed, expires, before, needed, nodes, Needed(g, k, Forest(g, k, p, bits)),
                  Needed(g, k, Subtree(g, k, p + [v])), nodes', timedOut);
    if !timedOut {
      PartCounted(timed, expires, before, needed, nodes, Needed(g, k, Subtree(g, k, p + [v])),
                  Needed(g, k, Forest(g, k, p, bits - {v})), nodes', timedOut, found);
    }
  }

  /** What a search from one start adds. */
  lemma StartCounted(g: Graph, k: nat, start: nat, timed: bool, expires: nat -> bool, needed: nat, nodes: nat,
                     nodes': nat, timedOut: bool, found: bool)
    requires k > 0 && start < g.n
    requires UnderWay(timed, expires, 0, needed, nodes, Needed(g, k, FromStart(g, k, start)))
    requires ThroughOrLate(timed, expires, nodes, Needed(g, k, Subtree(g, k, [start])), nodes', timedOut)
    requires !timedOut ==> (found <==> !Hopeless(g, k, [start]))
    ensures if timedOut || found then ThroughOrLate(timed, expires, 0, needed, nodes', timedOut)
            else UnderWay(timed, expires, 0, needed, nodes', Needed(g, k, FromStart(g, k, start + 1)))
  {
    NeededFromStart(g, k, start);
    hide Needed, FromStart, Subtree, Hopeless, UnderWay, ThroughOrLate;
    LateIsEarlier(timed, expires, 0, needed, nodes, Needed(g, k, FromStart(g, k, start)),
                  Needed(g, k, Subtree(g, k, [start])), nodes', timedOut);
    if !timedOut {
      PartCounted(timed, expires, 0, needed, nodes, Needed(g, k, Subtree(g, k, [start])),
                  Needed(g, k, FromStart(g, k, start + 1)), nodes', timedOut, found);
    }
  }

  lemma LateIsEarlier(timed: bool, expires: nat -> bool, before: nat, needed: nat, nodes: nat, left: nat, part: nat,
                      nodes': nat, timedOut: bool)
    requires UnderWay(timed, expires, before, needed, nodes, left) && part <= left
    requires ThroughOrLate(timed, expires, nodes, part, nodes', timedOut)
    ensures timedOut ==> ThroughOrLate(timed, expires, before, needed, nodes', true)
  {
  }

  lemma AllCounted(timed: bool, expires: nat -> bool, before: nat, needed: nat, nodes: nat)
    requires UnderWay(timed, expires, before, needed, nodes, 0)
    ensures ThroughOrLate(timed, expires, before, needed, nodes, false)
  {
  }

  lemma StillOnTime(timed: bool, expires: nat -> bool, before: nat, needed: nat, nodes: nat, left: nat)
    requires UnderWay(timed, expires, before, needed, nodes, left)
    ensures timed ==> OnTime(expires, nodes)
  {
  }

  /** Every child of the path but those still available is hopeless. */
  ghost predicate TriedInVain(g: Graph, k: nat, p: seq<nat>, available: set<nat>)
    requires |p| > 0
  {
    forall v :: v in Children(g, p) && v !in available ==> Hopeless(g, k, p + [v])
  }

  lemma NoneTried(g: Graph, k: nat, p: seq<nat>)
    requires |p| > 0
    ensures TriedInVain(g, k, p, Children(g, p))
  {
  }

  lemma TriedOneMore(g: Graph, k: nat, p: seq<nat>, available: set<nat>, v: nat)
    requires |p| > 0 && TriedInVain(g, k, p, available) && Hopeless(g, k, p + [v])
    ensures TriedInVain(g, k, p, available - {v})
  {
    hide Hopeless;
  }

  lemma AllTriedInVain(g: Graph, k: nat, p: seq<nat>)
    requires IsTrail(g, p) && |p| < k && TriedInVain(g, k, p, {})
    ensures Hopeless(g, k, p)
  {
    HopelessFromChildren(g, k, p);
  }

  /** Every start before this one is hopeless. */
  ghost predicate StartedInVain(g: Graph, k: nat, start: nat) {
    forall s :: 0 <= s < start ==> Hopeless(g, k, [s])
  }

  lemma NoneStarted(g: Graph, k: nat)
    ensures StartedInVain(g, k, 0)
  {
  }

  lemma StartedOnceMore(g: Graph, k: nat, start: nat)
    requires StartedInVain(g, k, start) && Hopeless(g, k, [start])
    ensures StartedInVain(g, k, start + 1)
  {
    hide Hopeless;
  }

  lemma AllStartedInVain(g: Graph, k: nat)
    requires k >= 3 && StartedInVain(g, k, g.n)
    ensures !HasCycle(g, k)
  {
    HopelessStartsMeanNoCycle(g, k);
  }

  /** The checker's search object. The clock is a parameter: `expires` says at which node counts a reading
      would show the time budget spent. It is read once every 1024 nodes. */
  class TimedSearch {
    const g: Graph
    const target: int
    const timed: bool
    const expires: nat -> bool
    var nodes: nat
    var timedOut: bool
    var path: seq<nat>
    var cycle: seq<nat>

    constructor (g: Graph, target: int, timed: bool, expires: nat -> bool)
      ensures this.g == g && this.target == target && this.timed == timed && this.expires == expires
      ensures nodes == 0 && !timedOut
    {
      this.g, this.target, this.timed, this.expires := g, target, timed, expires;
      nodes, timedOut, path, cycle := 0, false, [], [];
    }

    method Expired() returns (r: bool)
      requires !timedOut
      modifies this`nodes, this`timedOut
      ensures r == timedOut
      ensures timedOut <==> timed && nodes % 1024 == 0 && expires(nodes)
      ensures nodes == if timed then old(nodes) + 1 else old(nodes)
    {
      if !timed {
        return false;
      }
      nodes := nodes + 1;
      if nodes % 1024 != 0 {
        return false;
      }
      timedOut := expires(nodes);
      r := timedOut;
    }

    /** Pushes a child, searches below it, and pops it unless a cycle is found. */
    method TryChild(start: nat, visited: set<nat>, vertex: nat) returns (found: bool)
      requires IsTrail(g, path) && |path| < target && visited == SeenSet(path)
      requires start == path[0] && vertex in Children(g, path)
      requires !timedOut && (timed ==> OnTime(expires, nodes))
      modifies this
      ensures !found ==> path == old(path)
      ensures found ==> !timedOut && Completes(g, target, old(path) + [vertex], cycle)
      ensures !found && !timedOut ==> Hopeless(g, target, old(path) + [vertex])
      ensures ThroughOrLate(timed, expires, old(nodes), Needed(g, target, Subtree(g, target, old(path) + [vertex])),
                            nodes, timedOut)
      decreases target - |path|, 0
    {
      assert |path| > 0;
      hide *;
      ghost var p := path;
      EnterChild(g, p, vertex);
      path := path + [vertex];
      found := Dfs(start, vertex, visited + {vertex});
      if !found {
        path := path[..|path| - 1];
      }
    }

    /** The path is pushed and popped around each child; it is left pushed only under a found cycle. */
    method Dfs(start: nat, last: nat, visited: set<nat>) returns (found: bool)
      requires IsTrail(g, path) && |path| <= target && visited == SeenSet(path)
      requires start == path[0] && last == path[|path| - 1]
      requires !timedOut && (timed ==> OnTime(expires, nodes))
      modifies this
      ensures !found ==> path == old(path)
      ensures found ==> !timedOut && Completes(g, target, old(path), cycle)
      ensures !found && !timedOut ==> Hopeless(g, target, old(path))
      ensures ThroughOrLate(timed, expires, old(nodes), Needed(g, target, Subtree(g, target, old(path))), nodes,
                            timedOut)
      decreases target - |path|, 1
    {
      assert |path| > 0 && |g.rows| == g.n;
      hide *;
      ghost var p, before := path, nodes;
      ChildrenOf(g, p, start, last);
      NeededSubtree(g, target, p);
      ghost var needed := Needed(g, target, Subtree(g, target, p));
      var expired := Expired();
      NodeCounted(timed, expires, before, needed, nodes, timedOut);
      if expired {
        return false;
      }
      if |path| == target {
        FullLength(g, p);
        ClosesAt(g, p, start, last);
        AllCounted(timed, expires, before, needed, nodes);
        if start in g.rows[last] {
          cycle := path;
          return true;
        }
        return false;
      }
      var available := set v | v in g.rows[last] - visited && v > start;
      NoneTried(g, target, p);
      while available != {}
        invariant path == p && available <= Children(g, p) && !timedOut
        invariant TriedInVain(g, target, p, available)
        invariant UnderWay(timed, expires, before, needed, nodes, Needed(g, target, Forest(g, target, p, available)))
        decreases |available|
      {
        var vertex := Lowest(available);
        StillOnTime(timed, expires, before, needed, nodes, Needed(g, target, Forest(g, target, p, available)));
        ghost var reached := nodes;
        found := TryChild(start, visited, vertex);
        if found {
          FoundIsHope(g, target, p + [vertex], cycle);
          CompletesFromChild(g, target, p, vertex, cycle);
        }
        ChildCounted(g, target, p, available, vertex, timed, expires, before, needed, reached, nodes, timedOut, found);
        if found || timedOut {
          return;
        }
        TriedOneMore(g, target, p, available, vertex);
        available := available - {vertex};
      }
      AllTriedInVain(g, target, p);
      NeededNothing(g, target, p);
      AllCounted(timed, expires, before, needed, nodes);
      found := false;
    }

    /** Searches from one start. */
    method TryStart(start: nat) returns (found: bool)
      requires start < g.n && target >= 3 && !timedOut && (timed ==> OnTime(expires, nodes))
      modifies this
      ensures found ==> !timedOut && IsCycle(g, cycle) && |cycle| == target
      ensures !timedOut ==> (found <==> !Hopeless(g, target, [start]))
      ensures ThroughOrLate(timed, expires, old(nodes), Needed(g, target, Subtree(g, target, [start])), nodes, timedOut)
    {
      hide *;
      EnterStart(g, start);
      path := [start];
      found := Dfs(start, start, {start});
      if found {
        FoundIsHope(g, target, [start], cycle);
        CompletedIsCycle(g, target, [start], cycle);
      }
    }

    method Run() returns (found: bool)
      requires !timedOut && nodes == 0
      modifies this
      ensures found ==> !timedOut && IsCycle(g, cycle) && |cycle| == target
      ensures !found && !timedOut ==> !HasCycle(g, target)
      ensures timedOut <==> Late(g, target, timed, expires)
      ensures timedOut ==> timed && 0 < nodes <= NodesNeeded(g, target) && nodes % 1024 == 0 && expires(nodes)
    {
      if target < 3 || target > g.n {
        NoLongCycle(g, target);
        return false;
      }
      ghost var needed := Needed(g, target, FromStart(g, target, 0));
      hide *;
      StartsOnTime(timed, expires, needed);
      NoneStarted(g, target);
      var start := 0;
      while start < g.n
        invariant 0 <= start <= g.n && !timedOut
        invariant StartedInVain(g, target, start)
        invariant UnderWay(timed, expires, 0, needed, nodes, Needed(g, target, FromStart(g, target, start)))
      {
        StillOnTime(timed, expires, 0, needed, nodes, Needed(g, target, FromStart(g, target, start)));
        ghost var reached := nodes;
        found := TryStart(start);
        StartCounted(g, target, start, timed, expires, needed, reached, nodes, timedOut, found);
        if found || timedOut {
          LateAtTheEnd(g, target, timed, expires, nodes, timedOut);
          return;
        }
        StartedOnceMore(g, target, start);
        start := start + 1;
      }
      AllStartedInVain(g, target);
      NeededAtEnd(g, target);
      AllCounted(timed, expires, 0, needed, nodes);
      LateAtTheEnd(g, target, timed, expires, nodes, timedOut);
      found := false;
    }
  }

  lemma StartsOnTime(timed: bool, expires: nat -> bool, needed: nat)
    ensures UnderWay(timed, expires, 0, needed, 0, needed)
  {
  }

  lemma LateAtTheEnd(g: Graph, length: nat, timed: bool, expires: nat -> bool, nodes: nat, timedOut: bool)
    requires 3 <= length <= g.n
    requires ThroughOrLate(timed, expires, 0, Needed(g, length, FromStart(g, length, 0)), nodes, timedOut)
    ensures timedOut <==> Late(g, length, timed, expires)
    ensures timedOut ==> timed && 0 < nodes <= NodesNeeded(g, length) && nodes % 1024 == 0 && expires(nodes)
  {
  }

  lemma CompletedIsCycle(g: Graph, k: nat, p: seq<nat>, q: seq<nat>)
    requires k >= 3 && Completes(g, k, p, q)
    ensures IsCycle(g, q) && |q| == k
  {
  }

  lemma FoundIsHope(g: Graph, k: nat, p: seq<nat>, q: seq<nat>)
    requires Completes(g, k, p, q)
    ensures !Hopeless(g, k, p)
  {
  }

  lemma NeededNothing(g: Graph, k: nat, p: seq<nat>)
    requires 0 < |p| < k
    ensures Needed(g, k, Forest(g, k, p, {})) == 0
  {
  }

  lemma NeededAtEnd(g: Graph, k: nat)
    requires k > 0
    ensures Needed(g, k, FromStart(g, k, g.n)) == 0
  {
  }

  datatype Verdict =
    | Found(length: int, cycle: seq<nat>)
    | Timeout(length: int)
    | Absent(lengths: seq<int>)

  /** No length before the i-th has a cycle or a late clock. */
  ghost predicate Passed(g: Graph, lengths: seq<int>, timed: bool, clocks: nat -> nat -> bool, i: nat)
    requires i <= |lengths|
  {
    forall j :: 0 <= j < i ==> !HasCycle(g, lengths[j]) && !Late(g, lengths[j], timed, clocks(j))
  }

  /** The checker's verdict for a graph and a list of lengths under given clocks: the first length whose clock is
      late is a timeout, the first that has a cycle is found, and with neither all are absent. */
  ghost predicate VerdictHolds(g: Graph, lengths: seq<int>, timed: bool, clocks: nat -> nat -> bool, v: Verdict) {
    match v
    case Found(k, w) =>
      && IsCycle(g, w) && |w| == k
      && exists i :: 0 <= i < |lengths| && lengths[i] == k
                     && Passed(g, lengths, timed, clocks, i) && !Late(g, k, timed, clocks(i))
    case Timeout(k) =>
      exists i :: 0 <= i < |lengths| && lengths[i] == k
                  && Passed(g, lengths, timed, clocks, i) && Late(g, k, timed, clocks(i))
    case Absent(reported) => reported == lengths && Passed(g, lengths, timed, clocks, |lengths|)
  }

  /** Some length's clock is late before any length has a cycle. */
  ghost predicate TimesOut(g: Graph, lengths: seq<int>, timed: bool, clocks: nat -> nat -> bool) {
    exists i :: 0 <= i < |lengths| && Passed(g, lengths, timed, clocks, i) && Late(g, lengths[i], timed, clocks(i))
  }

  lemma TimeoutIff(g: Graph, lengths: seq<int>, timed: bool, clocks: nat -> nat -> bool, v: Verdict)
    requires VerdictHolds(g, lengths, timed, clocks, v)
    ensures v.Timeout? <==> TimesOut(g, lengths, timed, clocks)
  {
    hide Late;
    if v.Found? {
      assert HasCycle(g, v.length);
    }
  }

  /** A verdict that is right about the graph, whatever the clocks. */
  ghost predicate VerdictTrue(g: Graph, lengths: seq<int>, v: Verdict) {
    match v
    case Found(k, w) => k in lengths && IsCycle(g, w) && |w| == k
    case Timeout(k) => false
    case Absent(reported) => reported == lengths && forall k :: k in lengths ==> !HasCycle(g, k)
  }

  lemma ExactIsTrue(g: Graph, lengths: seq<int>, timed: bool, clocks: nat -> nat -> bool, v: Verdict)
    requires VerdictHolds(g, lengths, timed, clocks, v) && !v.Timeout?
    ensures VerdictTrue(g, lengths, v)
  {
  }

  /** A timeout comes from a clock that was late at the k-th node for a multiple k of 1024, and clocks that never
      expire give none. */
  lemma TimeoutIsLate(g: Graph, lengths: seq<int>, timed: bool, clocks: nat -> nat -> bool, v: Verdict)
    requires VerdictHolds(g, lengths, timed, clocks, v)
    ensures v.Timeout? ==>
              timed && exists i, k: nat :: 0 <= i < |lengths| && lengths[i] == v.length
                                           && k > 0 && k % 1024 == 0 && clocks(i)(k)
                                           && forall j :: 0 <= j < i ==> !HasCycle(g, lengths[j])
    ensures !timed || (forall i, k: nat :: 0 <= i < |lengths| && k > 0 && k % 1024 == 0 ==> !clocks(i)(k)) ==>
              VerdictTrue(g, lengths, v)
  {
    if v.Timeout? {
      var i :| 0 <= i < |lengths| && lengths[i] == v.length
               && Passed(g, lengths, timed, clocks, i) && Late(g, v.length, timed, clocks(i));
      var k :| 0 < k <= NodesNeeded(g, v.length) && k % 1024 == 0 && clocks(i)(k);
    } else {
      ExactIsTrue(g, lengths, timed, clocks, v);
    }
  }

  /** The per-length loop of the checker, under any clock: each length gets a fresh search and a fresh clock. */
  method CheckLengths(g: Graph, lengths: seq<int>, timed: bool, clocks: nat -> nat -> bool) returns (v: Verdict)
    ensures VerdictHolds(g, lengths, timed, clocks, v)
    ensures v.Timeout? ==>
              timed && exists i, k: nat :: 0 <= i < |lengths| && lengths[i] == v.length
                                           && k > 0 && k % 1024 == 0 && clocks(i)(k)
                                           && forall j :: 0 <= j < i ==> !HasCycle(g, lengths[j])
    ensures !timed || (forall i, k: nat :: 0 <= i < |lengths| && k > 0 && k % 1024 == 0 ==> !clocks(i)(k)) ==>
              VerdictTrue(g, lengths, v)
  {
    hide Late;
    var i := 0;
    while i < |lengths|
      invariant 0 <= i <= |lengths| && Passed(g, lengths, timed, clocks, i)
    {
      var search := new TimedSearch(g, lengths[i], timed, clocks(i));
      var found := search.Run();
      if found {
        v := Found(lengths[i], search.cycle);
        TimeoutIsLate(g, lengths, timed, clocks, v);
        return;
      }
      if search.timedOut {
        v := Timeout(lengths[i]);
        TimeoutIsLate(g, lengths, timed, clocks, v);
        return;
      }
      i := i + 1;
    }
    v := Absent(lengths);
    TimeoutIsLate(g, lengths, timed, clocks, v);
  }
}
