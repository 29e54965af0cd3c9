/** The scorer's counter: the same enumeration as an explicit stack over two shared buffers, which keep
    whatever an earlier request left in them. */
module CountCycles {
  import opened Outcomes
  import opened Graphs
  import opened Cycles
  import opened Preorder
  import Enumeration

  datatype CountResult = CountResult(length: nat, count: nat, complete: bool, nodes: nat, cutoffReached: bool)

  /** A zero budget is no budget. */
  function BudgetOf(nodeBudget: nat): Option<nat> {
    if nodeBudget == 0 then None else Some(nodeBudget)
  }

  /** Counting stops at the threshold, when there is one below the limit. */
  function EffectiveLimit(limit: nat, stopAtCount: nat): nat {
    if stopAtCount != 0 && stopAtCount < limit then stopAtCount else limit
  }

  // ---------- what the stack still has to do ----------

  /** The paths left below a stack: the top level's subtrees first, then those of each level beneath. */
  ghost function Pending(g: Graph, k: nat, path: seq<nat>, available: seq<set<nat>>): seq<seq<nat>>
    requires |path| == |available| < k
  {
    if path == [] then []
    else
      var d := |path| - 1;
      Forest(g, k, path, available[d]) + Pending(g, k, path[..d], available[..d])
  }

  /** A level with nothing available contributes nothing. */
  lemma PendingPop(g: Graph, k: nat, path: seq<nat>, available: seq<set<nat>>)
    requires 0 < |path| == |available| < k
    requires available[|path| - 1] == {}
    ensures Pending(g, k, path, available) == Pending(g, k, path[..|path| - 1], available[..|path| - 1])
  {
  }

  /** Taking the least available vertex of the top level exposes the next path of the order, followed by
      the stack with that vertex spent and, below full length, its children pushed. */
  lemma PendingTake(g: Graph, k: nat, path: seq<nat>, available: seq<set<nat>>)
    requires 0 < |path| == |available| < k
    requires available[|path| - 1] != {}
    ensures var d := |path| - 1; var v := Lowest(available[d]);
      var child := path + [v]; var spent := available[d := available[d] - {v}];
      Pending(g, k, path, available)
        == [child] + if |child| == k then Pending(g, k, path, spent)
                     else Pending(g, k, child, spent + [Children(g, child)])
  {
    var d := |path| - 1;
    var v := Lowest(available[d]);
    var child := path + [v];
    var spent := available[d := available[d] - {v}];
    var beneath := Pending(g, k, path[..d], available[..d]);
    assert spent[..d] == available[..d];
    var others := Forest(g, k, path, spent[d]);
    assert Pending(g, k, path, spent) == others + beneath;
    if |child| == k {
      assert Subtree(g, k, child) == [child];
      assert ([child] + others) + beneath == [child] + (others + beneath);
    } else {
      var under := Forest(g, k, child, Children(g, child));
      assert (([child] + under) + others) + beneath == [child] + (under + (others + beneath));
      var deeper := spent + [Children(g, child)];
      assert child[..|path|] == path && deeper[..|path|] == spent;
      assert Pending(g, k, child, deeper) == Forest(g, k, child, Children(g, child)) + Pending(g, k, path, spent);
    }
  }

  lemma ScanFirst(g: Graph, k: nat, limit: nat, budget: Option<nat>, p: seq<nat>, rest: seq<seq<nat>>, t: Tally)
    ensures Scan(g, k, limit, budget, [p] + rest, t)
         == Scan(g, k, limit, budget, rest, Visit(g, k, limit, budget, t, p))
  {
  }

  /** The buffers hold, for each level of the stack, the visited set and the vertices still to try. */
  ghost predicate StackMatches(g: Graph, path: seq<nat>, seen: seq<set<nat>>, available: seq<set<nat>>) {
    && |path| <= |seen| && |path| <= |available|
    && (forall i :: 0 <= i < |path| ==> seen[i] == SeenSet(path[..i + 1]))
    && (forall i :: 0 <= i < |path| ==> available[i] <= Children(g, path[..i + 1]))
  }

  lemma StackMatchesPrefix(g: Graph, path: seq<nat>, seen: seq<set<nat>>, available: seq<set<nat>>, d: nat)
    requires StackMatches(g, path, seen, available) && d <= |path|
    ensures StackMatches(g, path[..d], seen, available)
  {
  }

  lemma SeenExtended(path: seq<nat>, v: nat)
    ensures SeenSet(path + [v]) == SeenSet(path) + {v}
  {
  }

  lemma StackStart(g: Graph, start: nat, seen: seq<set<nat>>, available: seq<set<nat>>)
    requires |seen| > 0 && |available| > 0
    requires seen[0] == {start} && available[0] == Children(g, [start])
    ensures StackMatches(g, [start], seen, available)
  {
  }

  lemma StackTop(g: Graph, path: seq<nat>, seen: seq<set<nat>>, available: seq<set<nat>>)
    requires StackMatches(g, path, seen, available) && path != []
    ensures seen[|path| - 1] == SeenSet(path) && available[|path| - 1] <= Children(g, path)
  {
  }

  /** Spending a vertex of the top level, or writing above it, keeps the buffers in step. */
  lemma StackMatchesWrite(g: Graph, path: seq<nat>, seen: seq<set<nat>>, available: seq<set<nat>>,
                          seen': seq<set<nat>>, available': seq<set<nat>>)
    requires StackMatches(g, path, seen, available)
    requires |path| <= |seen'| && seen'[..|path|] == seen[..|path|]
    requires |path| <= |available'|
    requires forall i :: 0 <= i < |path| ==> available'[i] <= available[i]
    ensures StackMatches(g, path, seen', available')
  {
  }

  lemma StackMatchesPush(g: Graph, path: seq<nat>, seen: seq<set<nat>>, available: seq<set<nat>>, v: nat)
    requires StackMatches(g, path, seen, available)
    requires |path| < |seen| && |path| < |available|
    requires seen[|path|] == SeenSet(path + [v]) && available[|path|] <= Children(g, path + [v])
    ensures StackMatches(g, path + [v], seen, available)
  {
    var q := path + [v];
    forall i | 0 <= i < |q|
      ensures seen[i] == SeenSet(q[..i + 1]) && available[i] <= Children(g, q[..i + 1])
    {
      if i < |path| {
        assert q[..i + 1] == path[..i + 1];
      } else {
        assert q[..i + 1] == q;
      }
    }
  }

  /** The loop's invariant: the stack is in step with the current path, and scanning what it still has to
      do from here gives the goal. */
  ghost predicate Working(g: Graph, k: nat, e: nat, b: Option<nat>, goal: Tally,
                          path: seq<nat>, seen: seq<set<nat>>, available: seq<set<nat>>, t: Tally) {
    && |path| < k
    && (path != [] ==> IsTrail(g, path))
    && StackMatches(g, path, seen, available)
    && !Stopped(e, t)
    && goal == Scan(g, k, e, b, Pending(g, k, path, available[..|path|]), t)
  }

  ghost function Work(g: Graph, k: nat, path: seq<nat>, available: seq<set<nat>>): nat {
    if |path| < k && |path| <= |available| then |Pending(g, k, path, available[..|path|])| else 0
  }

  lemma WorkBegins(g: Graph, k: nat, e: nat, b: Option<nat>, start: nat,
                   seen: seq<set<nat>>, available: seq<set<nat>>, t0: Tally)
    requires start < g.n && k > 1 && |seen| > 0 && |available| > 0
    requires seen[0] == {start} && available[0] == Children(g, [start])
    ensures var t := Visit(g, k, e, b, t0, [start]); var goal := Scan(g, k, e, b, Subtree(g, k, [start]), t0);
      && (Stopped(e, t) ==> goal == t)
      && (!Stopped(e, t) ==> Working(g, k, e, b, goal, [start], seen, available, t))
  {
    SingletonTrail(g, start);
    ScanSubtree(g, k, e, b, [start], t0);
    StackStart(g, start, seen, available);
    PendingSingle(g, k, [start], available[..1]);
  }

  lemma WorkPops(g: Graph, k: nat, e: nat, b: Option<nat>, goal: Tally,
                 path: seq<nat>, seen: seq<set<nat>>, available: seq<set<nat>>, t: Tally)
    requires Working(g, k, e, b, goal, path, seen, available, t)
    requires path != [] && available[|path| - 1] == {}
    ensures Working(g, k, e, b, goal, path[..|path| - 1], seen, available, t)
    ensures Work(g, k, path[..|path| - 1], available) == Work(g, k, path, available)
  {
    var d := |path| - 1;
    PendingPop(g, k, path, available[..|path|]);
    assert available[..|path|][..d] == available[..d];
    StackMatchesPrefix(g, path, seen, available, d);
    TrailPrefixOrEmpty(g, path, d);
  }

  lemma WorkEnds(g: Graph, k: nat, e: nat, b: Option<nat>, goal: Tally,
                 seen: seq<set<nat>>, available: seq<set<nat>>, t: Tally)
    requires Working(g, k, e, b, goal, [], seen, available, t)
    ensures goal == t
  {
  }

  /** Facts about the vertex the loop takes off the top level. */
  lemma TakenVertex(g: Graph, path: seq<nat>, seen: seq<set<nat>>, available: seq<set<nat>>, v: nat)
    requires path != [] && IsTrail(g, path) && StackMatches(g, path, seen, available)
    requires v in available[|path| - 1]
    ensures v < g.n && IsTrail(g, path + [v])
    ensures seen[|path| - 1] + {v} == SeenSet(path + [v])
  {
    StackTop(g, path, seen, available);
    ExtendTrail(g, path, v);
    SeenExtended(path, v);
    assert (path + [v])[|path|] == v;
  }

  /** One pass of the loop that takes a vertex: it visits the next path of the order, and goes on with the
      spent stack after a full-length path, with the child pushed otherwise. */
  lemma WorkTakes(g: Graph, k: nat, e: nat, b: Option<nat>, goal: Tally, path: seq<nat>,
                  seen: seq<set<nat>>, available: seq<set<nat>>, t: Tally,
                  seen': seq<set<nat>>, spent: seq<set<nat>>)
    requires Working(g, k, e, b, goal, path, seen, available, t)
    requires path != [] && available[|path| - 1] != {}
    requires |path| < |seen| && |path| < |available|
    requires var d := |path| - 1; var v := Lowest(available[d]);
      seen' == seen[|path| := seen[d] + {v}] && spent == available[d := available[d] - {v}]
    ensures var child := path + [Lowest(available[|path| - 1])]; var u := Visit(g, k, e, b, t, child);
      && (Stopped(e, u) ==> goal == u)
      && (!Stopped(e, u) && |child| == k ==>
            Working(g, k, e, b, goal, path, seen', spent, u) && Work(g, k, path, spent) < Work(g, k, path, available))
      && (!Stopped(e, u) && |child| < k ==>
            var pushed := spent[|path| := Children(g, child)];
            && Working(g, k, e, b, goal, child, seen', pushed, u)
            && Work(g, k, child, pushed) < Work(g, k, path, available))
  {
    var m := |path|;
    var v := Lowest(available[m - 1]);
    var child := path + [v];
    var u := Visit(g, k, e, b, t, child);
    var level := available[..m];
    PendingTake(g, k, path, level);
    assert level[m - 1 := level[m - 1] - {v}] == spent[..m];
    var pushed := spent[m := Children(g, child)];
    assert pushed[..m + 1] == spent[..m] + [Children(g, child)];
    var rest := if |child| == k then Pending(g, k, path, spent[..m]) else Pending(g, k, child, pushed[..m + 1]);
    ScanFirst(g, k, e, b, child, rest, t);
    if Stopped(e, u) {
      ScanStopped(g, k, e, b, rest, u);
    }
    TakenVertex(g, path, seen, available, v);
    assert seen'[..m] == seen[..m];
    StackMatchesWrite(g, path, seen, available, seen', spent);
    if |child| < k {
      StackMatchesWrite(g, path, seen, available, seen', pushed);
      StackMatchesPush(g, path, seen', pushed, v);
    }
  }

  lemma PendingSingle(g: Graph, k: nat, path: seq<nat>, available: seq<set<nat>>)
    requires |path| == |available| == 1 < k && available[0] == Children(g, path)
    ensures Pending(g, k, path, available) == Forest(g, k, path, Children(g, path))
  {
  }

  lemma TrailPrefixOrEmpty(g: Graph, p: seq<nat>, d: nat)
    requires IsTrail(g, p) && d < |p|
    ensures d > 0 ==> IsTrail(g, p[..d])
  {
  }

  /** Masking a row by the greater vertices and the unvisited ones leaves the children. */
  lemma MaskedRow(g: Graph, p: seq<nat>, greater: set<nat>)
    requires |p| > 0 && p[|p| - 1] < g.n
    requires greater == set v | v in Vertices(g.n) && v > p[0]
    ensures g.rows[p[|p| - 1]] * greater - SeenSet(p) == Children(g, p)
    ensures |p| == 1 ==> g.rows[p[0]] * greater == Children(g, p)
  {
    forall v | v in g.rows[p[|p| - 1]]
      ensures v < g.n && (v in SeenSet(p) <==> v in p)
    {
      EdgeSymmetric(g, p[|p| - 1], v);
    }
  }

  /** What a visit adds to the counters, in the loop's own terms. */
  lemma VisitCounts(g: Graph, k: nat, e: nat, nodeBudget: nat, t: Tally, p: seq<nat>)
    requires !Stopped(e, t)
    ensures var u := Visit(g, k, e, BudgetOf(nodeBudget), t, p);
            var over := nodeBudget != 0 && t.nodes + 1 > nodeBudget;
      && u.nodes == t.nodes + 1 && u.exhausted == over
      && |u.found| == |t.found| + if !over && IsHit(g, k, p) then 1 else 0
  {
    hide IsHit;
  }

  lemma NoHitYet(g: Graph, k: nat, p: seq<nat>)
    requires |p| < k
    ensures !IsHit(g, k, p)
  {
  }

  /** The test on a full path, in the loop's own terms. */
  lemma HitTest(g: Graph, k: nat, path: seq<nat>, vertex: nat, start: nat, first: int)
    requires |path| > 0 && path[0] == start && vertex < g.n
    requires first == if |path| > 1 then path[1] else vertex
    ensures IsHit(g, k, path + [vertex]) <==> |path| + 1 == k && start in g.rows[vertex] && first < vertex
  {
  }

  /** Takes the least vertex off the top level and marks it visited one level up. */
  method TakeVertex(g: Graph, length: nat, depth: nat, seenAt: array<set<nat>>, availableAt: array<set<nat>>,
                    ghost e: nat, ghost b: Option<nat>, ghost goal: Tally, ghost path: seq<nat>, ghost t: Tally)
    returns (vertex: nat, seen: set<nat>)
    requires length <= seenAt.Length && length <= availableAt.Length && seenAt != availableAt
    requires 0 < depth == |path| < length && availableAt[depth - 1] != {}
    requires Working(g, length, e, b, goal, path, seenAt[..], availableAt[..], t)
    modifies seenAt, availableAt
    ensures vertex < g.n && seen == SeenSet(path + [vertex])
    ensures var child := path + [vertex]; var u := Visit(g, length, e, b, t, child);
      && (Stopped(e, u) ==> goal == u)
      && (!Stopped(e, u) && |child| == length ==>
            && Working(g, length, e, b, goal, path, seenAt[..], availableAt[..], u)
            && Work(g, length, path, availableAt[..]) < Work(g, length, path, old(availableAt[..])))
      && (!Stopped(e, u) && |child| < length ==>
            var pushed := availableAt[..][depth := Children(g, child)];
            && Working(g, length, e, b, goal, child, seenAt[..], pushed, u)
            && Work(g, length, child, pushed) < Work(g, length, path, old(availableAt[..])))
  {
    hide Pending, StackMatches, Children, SeenSet, IsTrail, Working, Work, Visit, Stopped;
    ghost var seenBefore, availableBefore := seenAt[..], availableAt[..];
    var parent := depth - 1;
    var bits := availableAt[parent];
    vertex := Lowest(bits);
    TopVertex(g, length, e, b, goal, path, seenBefore, availableBefore, t, vertex);
    availableAt[parent] := bits - {vertex};
    seen := seenAt[parent] + {vertex};
    seenAt[depth] := seen;
    WorkTakes(g, length, e, b, goal, path, seenBefore, availableBefore, t, seenAt[..], availableAt[..]);
  }

  /** One start vertex: everything the inner loop does before it empties its stack or breaks. */
  method CountFrom(g: Graph, start: nat, length: nat, limit: nat, nodeBudget: nat, stopAtCount: nat,
                   seenAt: array<set<nat>>, availableAt: array<set<nat>>,
                   count0: nat, nodes0: nat, ghost t0: Tally)
    returns (count: nat, nodes: nat, exhausted: bool, cutoff: bool, ghost t: Tally)
    requires start < g.n && 3 <= length <= g.n && 0 < limit
    requires length <= seenAt.Length && length <= availableAt.Length && seenAt != availableAt
    requires t0.nodes == nodes0 && |t0.found| == count0
    requires !Stopped(EffectiveLimit(limit, stopAtCount), t0)
    modifies seenAt, availableAt
    ensures t == Scan(g, length, EffectiveLimit(limit, stopAtCount), BudgetOf(nodeBudget),
                      Subtree(g, length, [start]), t0)
    ensures count == |t.found| && nodes == t.nodes && exhausted == t.exhausted
    ensures cutoff <==> stopAtCount != 0 && count >= stopAtCount
  {
    hide Scan, Subtree, Pending, StackMatches, Children, SeenSet, IsTrail, Working, Work, Visit, IsHit, Closes, Edge,
         BudgetOf;
    ghost var e, b := EffectiveLimit(limit, stopAtCount), BudgetOf(nodeBudget);
    ghost var goal := Scan(g, length, e, b, Subtree(g, length, [start]), t0);
    count, nodes, exhausted, cutoff, t := count0, nodes0, false, false, t0;
    var greater := set v | v in Vertices(g.n) && v > start;
    seenAt[0] := {start};
    availableAt[0] := g.rows[start] * greater;
    ghost var path: seq<nat> := [start];
    MaskedRow(g, path, greater);
    WorkBegins(g, length, e, b, start, seenAt[..], availableAt[..], t);
    VisitCounts(g, length, e, nodeBudget, t, path);
    NoHitYet(g, length, path);
    nodes := nodes + 1;
    t := Visit(g, length, e, b, t, path);
    if nodeBudget != 0 && nodes > nodeBudget {
      exhausted := true;
      return;
    }
    var depth := 1;
    var firstNeighbor: int := -1;
    while depth != 0
      invariant depth == |path| < length
      invariant depth > 0 ==> path[0] == start
      invariant depth > 1 ==> firstNeighbor == path[1]
      invariant !Stopped(e, t) && count == |t.found| && nodes == t.nodes && !exhausted && !cutoff
      invariant Working(g, length, e, b, goal, path, seenAt[..], availableAt[..], t)
      decreases Work(g, length, path, availableAt[..]), depth
    {
      if availableAt[depth - 1] == {} {
        WorkPops(g, length, e, b, goal, path, seenAt[..], availableAt[..], t);
        depth := depth - 1;
        path := path[..depth];
        continue;
      }
      var vertex, seen := TakeVertex(g, length, depth, seenAt, availableAt, e, b, goal, path, t);
      ghost var child := path + [vertex];
      if depth == 1 {
        firstNeighbor := vertex;
      }
      VisitCounts(g, length, e, nodeBudget, t, child);
      HitTest(g, length, path, vertex, start, firstNeighbor);
      nodes := nodes + 1;
      t := Visit(g, length, e, b, t, child);
      if nodeBudget != 0 && nodes > nodeBudget {
        exhausted := true;
        break;
      }
      var childDepth := depth + 1;
      if childDepth == length {
        if start in g.rows[vertex] && firstNeighbor < vertex {
          count := count + 1;
          if stopAtCount != 0 && count >= stopAtCount {
            cutoff := true;
            break;
          }
          if count >= limit {
            break;
          }
        }
        continue;
      }
      ghost var spent := availableAt[..];
      MaskedRow(g, child, greater);
      availableAt[depth] := g.rows[vertex] * greater - seen;
      assert availableAt[..] == spent[depth := Children(g, child)];
      path := child;
      depth := childDepth;
    }
    if depth == 0 {
      assert path == [];
      WorkEnds(g, length, e, b, goal, seenAt[..], availableAt[..], t);
    }
  }

  lemma TopVertex(g: Graph, k: nat, e: nat, b: Option<nat>, goal: Tally,
                  path: seq<nat>, seen: seq<set<nat>>, available: seq<set<nat>>, t: Tally, v: nat)
    requires Working(g, k, e, b, goal, path, seen, available, t)
    requires path != [] && v in available[|path| - 1]
    ensures v < g.n && seen[|path| - 1] + {v} == SeenSet(path + [v])
  {
    TakenVertex(g, path, seen, available, v);
  }

  /** What a count says: it is read off the bounded scan, whatever the buffers held before. */
  ghost predicate Counted(g: Graph, length: nat, limit: nat, nodeBudget: nat, stopAtCount: nat, r: CountResult)
    requires length > 0
  {
    var t := Bounded(g, length, EffectiveLimit(limit, stopAtCount), BudgetOf(nodeBudget));
    && r.length == length && r.count == |t.found| && r.nodes == t.nodes
    && (r.cutoffReached <==> stopAtCount != 0 && r.count >= stopAtCount)
    && (r.complete <==> !t.exhausted && !r.cutoffReached && r.count < limit)
  }

  lemma CountedOnce(g: Graph, length: nat, limit: nat, nodeBudget: nat, stopAtCount: nat,
                    a: CountResult, b: CountResult)
    requires length > 0
    requires Counted(g, length, limit, nodeBudget, stopAtCount, a)
    requires Counted(g, length, limit, nodeBudget, stopAtCount, b)
    ensures a == b
  {
  }

  /** Counting cycles of one length. Only buffer slots below the length are touched. */
  method Count(g: Graph, length: nat, limit: nat, nodeBudget: nat, stopAtCount: nat,
               seenAt: array<set<nat>>, availableAt: array<set<nat>>) returns (r: CountResult)
    requires 3 <= length <= g.n && 0 < limit
    requires length <= seenAt.Length && length <= availableAt.Length && seenAt != availableAt
    modifies seenAt, availableAt
    ensures r.length == length && Counted(g, length, limit, nodeBudget, stopAtCount, r)
  {
    hide Scan, Subtree;
    ghost var e, b := EffectiveLimit(limit, stopAtCount), BudgetOf(nodeBudget);
    ghost var t := FRESH;
    var count, nodes, exhausted, cutoff := 0, 0, false, false;
    ghost var goal := Bounded(g, length, e, b);
    var start := 0;
    while start < g.n
      invariant 0 <= start <= g.n
      invariant !Stopped(e, t) && count == |t.found| && nodes == t.nodes && !exhausted && !cutoff
      invariant goal == Scan(g, length, e, b, FromStart(g, length, start), t)
    {
      ghost var rest := FromStart(g, length, start + 1);
      ScanConcat(g, length, e, b, Subtree(g, length, [start]), rest, t);
      count, nodes, exhausted, cutoff, t :=
        CountFrom(g, start, length, limit, nodeBudget, stopAtCount, seenAt, availableAt, count, nodes, t);
      if count >= limit || exhausted || cutoff {
        ScanStopped(g, length, e, b, rest, t);
        break;
      }
      start := start + 1;
    }
    if start == g.n {
      ScanNothing(g, length, e, b, t);
    }
    r := CountResult(length, count, !exhausted && !cutoff && count < limit, nodes, cutoff);
  }

  lemma ScanNothing(g: Graph, k: nat, limit: nat, budget: Option<nat>, t: Tally)
    requires k > 0
    ensures Scan(g, k, limit, budget, FromStart(g, k, g.n), t) == t
  {
  }

  /** Without a threshold the iterative counter and the recursive enumeration report the same count, the
      same completeness and the same number of visited nodes. */
  lemma CountMatchesEnumeration(g: Graph, length: nat, limit: nat, nodeBudget: nat,
                                counted: CountResult, enumerated: Enumeration.Report)
    requires 3 <= length <= g.n && 0 < limit
    requires Counted(g, length, limit, nodeBudget, 0, counted)
    requires Enumeration.Reported(g, length, limit, if nodeBudget == 0 then None else Some(nodeBudget), enumerated)
    ensures counted.count == |enumerated.found|
    ensures counted.complete == enumerated.complete
    ensures counted.nodes == enumerated.visitedNodes
    ensures !counted.cutoffReached
  {
  }

  /** A count without a threshold is complete exactly when there are fewer cycles than the limit and the search paths
      are within the budget, which 0 leaves open; it is then the number of all cycles of the length. */
  lemma CompleteCountIff(g: Graph, length: nat, limit: nat, nodeBudget: nat, r: CountResult)
    requires 3 <= length <= g.n && 0 < limit && Counted(g, length, limit, nodeBudget, 0, r)
    ensures r.complete <==>
            |AllCycles(g, length)| < limit && (nodeBudget == 0 || |AllTrails(g, length)| <= nodeBudget)
    ensures r.complete ==> r.count == |AllCycles(g, length)| && r.nodes == |AllTrails(g, length)|
    ensures !r.complete ==> r.count == limit || (nodeBudget > 0 && r.nodes == nodeBudget + 1)
  {
    BoundedMeaning(g, length, limit, BudgetOf(nodeBudget));
    BoundedReads(g, length, limit, BudgetOf(nodeBudget));
  }

  /** A threshold is reported exactly when the unstopped count reaches it, and otherwise changes nothing. */
  lemma ThresholdIsExact(g: Graph, length: nat, limit: nat, nodeBudget: nat, stopAtCount: nat,
                         stopped: CountResult, full: CountResult)
    requires 3 <= length <= g.n && 0 < stopAtCount <= limit
    requires Counted(g, length, limit, nodeBudget, stopAtCount, stopped)
    requires Counted(g, length, limit, nodeBudget, 0, full)
    ensures stopped.cutoffReached <==> full.count >= stopAtCount
    ensures stopped.cutoffReached ==> stopped.count == stopAtCount
    ensures !stopped.cutoffReached ==> stopped == full
  {
    ScanThreshold(g, length, stopAtCount, limit, BudgetOf(nodeBudget), AllTrails(g, length), FRESH);
  }

  /** The count is bounded by the limit and the nodes by the budget, so neither counter can wrap around. */
  lemma CountIsBounded(g: Graph, length: nat, limit: nat, nodeBudget: nat, stopAtCount: nat, r: CountResult)
    requires 3 <= length <= g.n && 0 < limit && Counted(g, length, limit, nodeBudget, stopAtCount, r)
    ensures r.count <= limit
    ensures nodeBudget != 0 ==> r.nodes <= nodeBudget + 1
  {
    BoundedMeaning(g, length, EffectiveLimit(limit, stopAtCount), BudgetOf(nodeBudget));
  }
}
