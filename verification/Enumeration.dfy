/** The bounded, budgeted enumeration of cycles: a recursive search over shared mutable state. */
module Enumeration {
  import opened Outcomes
  import opened Graphs
  import opened Cycles
  import opened Preorder

  datatype Report = Report(found: seq<seq<nat>>, complete: bool, visitedNodes: nat)
  datatype ValueError = NodeBudgetNotPositive

  lemma Descend(g: Graph, p: seq<nat>, seen: set<nat>, v: nat)
    requires IsTrail(g, p) && seen == SeenSet(p) && v in Children(g, p)
    ensures IsTrail(g, p + [v]) && seen + {v} == SeenSet(p + [v])
  {
    ExtendTrail(g, p, v);
  }

  lemma BitsAreChildren(g: Graph, p: seq<nat>, last: nat, seen: set<nat>)
    requires IsTrail(g, p) && last == p[|p| - 1] && seen == SeenSet(p)
    ensures (set v | v in g.rows[last] - seen && v > p[0]) == Children(g, p)
  {
  }

  class BoundedSearch {
    const g: Graph
    const length: nat
    const limit: nat
    const budget: Option<nat>
    var found: seq<seq<nat>>
    var visitedNodes: nat
    var budgetExhausted: bool
    var path: seq<nat>

    constructor (g: Graph, length: nat, limit: nat, budget: Option<nat>)
      ensures this.g == g && this.length == length && this.limit == limit && this.budget == budget
      ensures Progress() == FRESH && path == []
    {
      this.g, this.length, this.limit, this.budget := g, length, limit, budget;
      found, visitedNodes, budgetExhausted, path := [], 0, false, [];
    }

    ghost function Progress(): Tally
      reads this
    {
      Tally(found, visitedNodes, budgetExhausted)
    }

    ghost function After(trails: seq<seq<nat>>, t: Tally): Tally {
      Scan(g, length, limit, budget, trails, t)
    }

    /** The head of a call: give up, count the node, give up on the budget, or report a closed path. */
    method Arrive(last: nat) returns (descend: bool)
      requires IsTrail(g, path) && |path| <= length && length >= 2 && last == path[|path| - 1]
      modifies this
      ensures path == old(path)
      ensures Progress() == Visit(g, length, limit, budget, old(Progress()), old(path))
      ensures descend <==> |path| < length && !Stopped(limit, Progress())
    {
      if |found| >= limit || budgetExhausted {
        return false;
      }
      visitedNodes := visitedNodes + 1;
      if budget.Some? && visitedNodes > budget.value {
        budgetExhausted := true;
        return false;
      }
      if |path| == length {
        if Edge(g, last, path[0]) && path[1] < path[|path| - 1] {
          found := found + [path];
        }
        return false;
      }
      descend := true;
    }

    /** One call scans exactly the subtree of the current path and hands the path back as it was. */
    method Dfs(last: nat, seen: set<nat>)
      requires IsTrail(g, path) && |path| <= length && length >= 2
      requires last == path[|path| - 1] && seen == SeenSet(path)
      modifies this
      ensures path == old(path)
      ensures Progress() == After(Subtree(g, length, old(path)), old(Progress()))
      decreases length - |path|
    {
      hide Scan, Subtree, Forest, Visit, SeenSet, Edge;
      ghost var t, p := Progress(), path;
      ScanSubtree(g, length, limit, budget, p, t);
      var descend := Arrive(last);
      if !descend {
        return;
      }
      var bits := set v | v in g.rows[last] - seen && v > path[0];
      assert bits == Children(g, p) by { BitsAreChildren(g, p, last, seen); }
      ghost var goal := After(Subtree(g, length, p), t);
      hide Children, IsTrail;
      while bits != {} && |found| < limit && !budgetExhausted
        invariant path == p && bits <= Children(g, p)
        invariant After(Forest(g, length, p, bits), Progress()) == goal
        decreases |bits|
      {
        var bit := Lowest(bits);
        ghost var before := Progress();
        Descend(g, p, seen, bit);
        path := path + [bit];
        Dfs(bit, seen + {bit});
        path := path[..|path| - 1];
        assert After(Forest(g, length, p, bits - {bit}), Progress()) == goal by {
          ScanForest(g, length, limit, budget, p, bits, before);
        }
        bits := bits - {bit};
      }
      ScanForest(g, length, limit, budget, p, bits, Progress());
    }
  }

  /** The whole enumeration is the scan of the depth-first order; a limit of zero or less, or a length no
      cycle can have, reports an empty complete list at once. */
  method FindCyclesBounded(g: Graph, length: int, limit: int, budget: Option<int>)
    returns (r: Result<Report, ValueError>)
    ensures r.Err? <==> 0 < limit && 3 <= length <= g.n && budget.Some? && budget.value < 1
    ensures r.Ok? ==> Reported(g, length, limit, budget, r.value)
  {
    if limit <= 0 || length < 3 || length > g.n {
      return Ok(Report([], true, 0));
    }
    if budget.Some? && budget.value < 1 {
      return Err(NodeBudgetNotPositive);
    }
    var bound: Option<nat> := if budget.Some? then Some(budget.value) else None;
    var search := new BoundedSearch(g, length, limit, bound);
    ghost var goal := Bounded(g, length, limit, bound);
    var start := 0;
    while start < g.n
      invariant 0 <= start <= g.n
      invariant search.g == g && search.length == length && search.limit == limit && search.budget == bound
      invariant search.After(FromStart(g, length, start), search.Progress()) == goal
    {
      search.path := [start];
      SingletonTrail(g, start);
      ghost var rest := FromStart(g, length, start + 1);
      ScanConcat(g, length, limit, bound, Subtree(g, length, [start]), rest, search.Progress());
      search.Dfs(start, {start});
      if |search.found| >= limit || search.budgetExhausted {
        ScanStopped(g, length, limit, bound, rest, search.Progress());
        break;
      }
      start := start + 1;
    }
    r := Ok(Report(search.found, !search.budgetExhausted && |search.found| < limit, search.visitedNodes));
  }

  /** What a caller may read off a report, for every argument. */
  ghost predicate Sound(g: Graph, length: int, limit: int, budget: Option<int>, r: Report) {
    && (forall p :: p in r.found ==> IsCanonical(g, p) && |p| == length)
    && (forall i, j :: 0 <= i < j < |r.found| ==> EdgeSet(r.found[i]) != EdgeSet(r.found[j]))
    && (0 < limit ==> |r.found| <= limit)
    && (budget.Some? ==> r.visitedNodes == 0 || r.visitedNodes <= budget.value + 1)
  }

  ghost predicate ListsEveryCycle(g: Graph, length: int, found: seq<seq<nat>>) {
    forall p :: IsCycle(g, p) && |p| == length ==> exists q :: q in found && EdgeSet(q) == EdgeSet(p)
  }

  ghost predicate Reported(g: Graph, length: int, limit: int, budget: Option<int>, r: Report) {
    if limit <= 0 || length < 3 || length > g.n then r == Report([], true, 0)
    else
      && (budget.Some? ==> budget.value >= 1)
      && var t := Bounded(g, length, limit, if budget.Some? then Some(budget.value as nat) else None);
         r == Report(t.found, !t.exhausted && |t.found| < limit, t.nodes)
  }

  /** The listed cycles are real, canonical and pairwise different as undirected cycles. */
  lemma ReportSound(g: Graph, length: int, limit: int, budget: Option<int>, r: Report)
    requires Reported(g, length, limit, budget, r)
    ensures Sound(g, length, limit, budget, r)
  {
    if 0 < limit && 3 <= length <= g.n {
      var b := if budget.Some? then Some(budget.value as nat) else None;
      BoundedMeaning(g, length, limit, b);
      AllCyclesCharacterized(g, length);
      var all := AllCycles(g, length);
      forall p | p in r.found
        ensures IsCanonical(g, p) && |p| == length
      {
        assert p in all;
      }
      forall i, j | 0 <= i < j < |r.found|
        ensures EdgeSet(r.found[i]) != EdgeSet(r.found[j])
      {
        assert r.found[i] == all[i] && r.found[j] == all[j];
        assert all[i] in all;
        AllCyclesOncePerCycle(g, length, all[i]);
      }
    }
  }

  /** `complete` is trustworthy exactly when the limit is positive or there is no cycle to miss. */
  lemma CompleteMeansEveryCycle(g: Graph, length: int, limit: int, budget: Option<int>, r: Report)
    requires Reported(g, length, limit, budget, r) && r.complete
    ensures ListsEveryCycle(g, length, r.found) <==> limit > 0 || !HasCycle(g, length)
  {
    if length < 3 || length > g.n {
      NoLongCycle(g, length);
    } else if limit > 0 {
      var b := if budget.Some? then Some(budget.value as nat) else None;
      BoundedMeaning(g, length, limit, b);
      forall p | IsCycle(g, p) && |p| == length
        ensures exists q :: q in r.found && EdgeSet(q) == EdgeSet(p)
      {
        AllCyclesOncePerCycle(g, length, p);
        var i :| 0 <= i < |r.found| && EdgeSet(r.found[i]) == EdgeSet(p);
        assert r.found[i] in r.found;
      }
    } else if HasCycle(g, length) {
      var p :| IsCycle(g, p) && |p| == length;
      assert !exists q :: q in r.found && EdgeSet(q) == EdgeSet(p);
    }
  }

  /** Exactly when a search that is made at all ends complete: there are fewer cycles than the limit, and the search
      paths are no more than the budget. It has then met every one of them. */
  lemma CompleteIff(g: Graph, length: int, limit: int, budget: Option<int>, r: Report)
    requires Reported(g, length, limit, budget, r) && limit > 0 && 3 <= length <= g.n
    ensures r.complete <==>
            |AllCycles(g, length)| < limit && (budget.Some? ==> |AllTrails(g, length)| <= budget.value)
    ensures r.complete ==> r.found == AllCycles(g, length) && r.visitedNodes == |AllTrails(g, length)|
    ensures !r.complete ==> |r.found| == limit || (budget.Some? && r.visitedNodes == budget.value + 1)
  {
    var b := if budget.Some? then Some(budget.value as nat) else None;
    BoundedMeaning(g, length, limit, b);
    BoundedReads(g, length, limit, b);
  }

  /** A triangle enumerated with limit 0: reported complete, with the triangle missing. */
  lemma ZeroLimitClaimsCompleteness() returns (g: Graph, r: Report)
    ensures Reported(g, 3, 0, None, r) && r.complete && !ListsEveryCycle(g, 3, r.found)
  {
    g := BitGraph(3, [{1, 2}, {0, 2}, {0, 1}]);
    r := Report([], true, 0);
    assert Edge(g, 0, 1) && Edge(g, 1, 2) && Edge(g, 2, 0);
    assert IsCycle(g, [0, 1, 2]);
    CompleteMeansEveryCycle(g, 3, 0, None, r);
  }
}
