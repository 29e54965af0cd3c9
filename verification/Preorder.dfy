/** The depth-first order in which the enumerators meet search paths, and what a bounded enumeration
    makes of that order: it scans the list of paths from the front until a limit or a budget stops it. */
module Preorder {
  import opened Outcomes
  import opened Graphs
  import opened Cycles

  // ---------- the full search tree, written out ----------

  /** The paths met in the subtree below p, p first. */
  ghost function Subtree(g: Graph, k: nat, p: seq<nat>): seq<seq<nat>>
    requires 0 < |p| <= k
    decreases k - |p|, 1, 0
  {
    [p] + if |p| == k then [] else Forest(g, k, p, Children(g, p))
  }

  /** The paths met below p through the next vertices in `bits`, least vertex first. */
  ghost function Forest(g: Graph, k: nat, p: seq<nat>, bits: set<nat>): seq<seq<nat>>
    requires 0 < |p| < k
    decreases k - |p|, 0, |bits|
  {
    if bits == {} then []
    else
      var v := Lowest(bits);
      Subtree(g, k, p + [v]) + Forest(g, k, p, bits - {v})
  }

  /** The paths met from the given start vertex on. */
  ghost function FromStart(g: Graph, k: nat, start: nat): seq<seq<nat>>
    requires k > 0 && start <= g.n
    decreases g.n - start
  {
    if start == g.n then [] else Subtree(g, k, [start]) + FromStart(g, k, start + 1)
  }

  ghost function AllTrails(g: Graph, k: nat): seq<seq<nat>>
    requires k > 0
  {
    FromStart(g, k, 0)
  }

  // ---------- its order and its members ----------

  ghost predicate LexLess(a: seq<nat>, b: seq<nat>) {
    |b| > 0 && (|a| == 0 || a[0] < b[0] || (a[0] == b[0] && LexLess(a[1..], b[1..])))
  }

  lemma {:induction false} LexAt(a: seq<nat>, b: seq<nat>, i: nat)
    requires i < |b| && i <= |a| && a[..i] == b[..i]
    requires i == |a| || a[i] < b[i]
    ensures LexLess(a, b)
  {
    if i > 0 {
      assert a[0] == a[..i][0] == b[..i][0] == b[0];
      assert a[1..][..i - 1] == a[..i][1..] == b[..i][1..] == b[1..][..i - 1];
      LexAt(a[1..], b[1..], i - 1);
    }
  }

  lemma {:induction false} LexIrreflexive(a: seq<nat>, b: seq<nat>)
    requires LexLess(a, b)
    ensures !LexLess(b, a) && a != b
  {
    if |a| > 0 && a[0] == b[0] {
      LexIrreflexive(a[1..], b[1..]);
    }
  }

  ghost predicate Ascending(s: seq<seq<nat>>) {
    forall i, j :: 0 <= i < j < |s| ==> LexLess(s[i], s[j])
  }

  lemma AscendingConcat(a: seq<seq<nat>>, b: seq<seq<nat>>)
    requires Ascending(a) && Ascending(b)
    requires forall x, y :: x in a && y in b ==> LexLess(x, y)
    ensures Ascending(a + b)
  {
  }

  /** q lies strictly below p, through a next vertex in `bits`. */
  ghost predicate Below(g: Graph, k: nat, p: seq<nat>, bits: set<nat>, q: seq<nat>) {
    |p| < |q| <= k && q[..|p|] == p && q[|p|] in bits && IsTrail(g, q)
  }

  ghost predicate AtOrBelow(g: Graph, k: nat, p: seq<nat>, q: seq<nat>) {
    |p| <= |q| <= k && q[..|p|] == p && IsTrail(g, q)
  }

  lemma {:induction false} SubtreeMembers(g: Graph, k: nat, p: seq<nat>, q: seq<nat>)
    requires 0 < |p| <= k && IsTrail(g, p)
    ensures q in Subtree(g, k, p) <==> AtOrBelow(g, k, p, q)
    decreases k - |p|, 1, 0
  {
    if |p| < k {
      ForestMembers(g, k, p, Children(g, p), q);
      if |q| > |p| && q[..|p|] == p && IsTrail(g, q) {
        TrailPrefix(g, q, |p| + 1);
        assert q[..|p| + 1] == p + [q[|p|]];
        ExtendTrail(g, p, q[|p|]);
      }
    }
    assert |q| == |p| && q[..|p|] == p ==> q == p;
  }

  lemma {:induction false} ForestMembers(g: Graph, k: nat, p: seq<nat>, bits: set<nat>, q: seq<nat>)
    requires 0 < |p| < k && IsTrail(g, p) && bits <= Children(g, p)
    ensures q in Forest(g, k, p, bits) <==> Below(g, k, p, bits, q)
    decreases k - |p|, 0, |bits|
  {
    if bits != {} {
      hide IsTrail, Children, Below, AtOrBelow, Subtree;
      var v := Lowest(bits);
      ExtendTrail(g, p, v);
      SubtreeMembers(g, k, p + [v], q);
      ForestMembers(g, k, p, bits - {v}, q);
      BelowFirst(g, k, p, bits, v, q);
    }
  }

  /** What lies below p through some bits lies through one of them or through the others. */
  lemma BelowFirst(g: Graph, k: nat, p: seq<nat>, bits: set<nat>, v: nat, q: seq<nat>)
    requires v in bits
    ensures Below(g, k, p, bits, q) <==> AtOrBelow(g, k, p + [v], q) || Below(g, k, p, bits - {v}, q)
  {
    hide IsTrail;
    if |q| > |p| {
      PrefixSplit(p, v, q);
    }
  }

  lemma PrefixSplit(p: seq<nat>, v: nat, q: seq<nat>)
    requires |q| > |p|
    ensures q[..|p| + 1] == p + [v] <==> q[..|p|] == p && q[|p|] == v
  {
    var pv := p + [v];
    assert q[..|p| + 1] == q[..|p|] + [q[|p|]];
    assert pv[..|p|] == p && pv[|p|] == v;
    assert q[..|p| + 1][..|p|] == q[..|p|];
  }

  lemma {:induction false} SubtreeAscending(g: Graph, k: nat, p: seq<nat>)
    requires 0 < |p| <= k && IsTrail(g, p)
    ensures Ascending(Subtree(g, k, p))
    decreases k - |p|, 1, 0
  {
    if |p| < k {
      var rest := Forest(g, k, p, Children(g, p));
      ForestAscending(g, k, p, Children(g, p));
      forall x, y | x in [p] && y in rest
        ensures LexLess(x, y)
      {
        ForestMembers(g, k, p, Children(g, p), y);
        LexAt(x, y, |p|);
      }
      AscendingConcat([p], rest);
    }
  }

  lemma {:induction false} ForestAscending(g: Graph, k: nat, p: seq<nat>, bits: set<nat>)
    requires 0 < |p| < k && IsTrail(g, p) && bits <= Children(g, p)
    ensures Ascending(Forest(g, k, p, bits))
    decreases k - |p|, 0, |bits|
  {
    if bits != {} {
      hide IsTrail, Children, Ascending, Subtree, LexLess;
      var v := Lowest(bits);
      ExtendTrail(g, p, v);
      SubtreeAscending(g, k, p + [v]);
      ForestAscending(g, k, p, bits - {v});
      forall x, y | x in Subtree(g, k, p + [v]) && y in Forest(g, k, p, bits - {v})
        ensures LexLess(x, y)
      {
        EarlierSubtree(g, k, p, bits, v, x, y);
      }
      AscendingConcat(Subtree(g, k, p + [v]), Forest(g, k, p, bits - {v}));
    }
  }

  /** Paths through the least bit come before paths through the others. */
  lemma EarlierSubtree(g: Graph, k: nat, p: seq<nat>, bits: set<nat>, v: nat, x: seq<nat>, y: seq<nat>)
    requires 0 < |p| < k && IsTrail(g, p) && bits <= Children(g, p) && v in bits && v == Lowest(bits)
    requires x in Subtree(g, k, p + [v]) && y in Forest(g, k, p, bits - {v})
    ensures LexLess(x, y)
  {
    hide Subtree, Forest, Children, LexLess;
    ExtendTrail(g, p, v);
    SubtreeMembers(g, k, p + [v], x);
    ForestMembers(g, k, p, bits - {v}, y);
    hide IsTrail;
    PrefixSplit(p, v, x);
    LexAt(x, y, |p|);
  }

  lemma SingletonTrail(g: Graph, start: nat)
    requires start < g.n
    ensures IsTrail(g, [start])
  {
  }

  lemma TrailInside(g: Graph, q: seq<nat>)
    ensures IsTrail(g, q) ==> |q| > 0 && q[0] < g.n
  {
  }

  lemma {:induction false} FromStartMembers(g: Graph, k: nat, start: nat, q: seq<nat>)
    requires k > 0 && start <= g.n
    ensures q in FromStart(g, k, start) <==> IsTrail(g, q) && |q| <= k && q[0] >= start
    decreases g.n - start
  {
    hide Subtree, IsTrail;
    TrailInside(g, q);
    if start < g.n {
      SingletonTrail(g, start);
      SubtreeMembers(g, k, [start], q);
      FromStartMembers(g, k, start + 1, q);
      if |q| > 0 {
        assert q[..1] == [q[0]];
      }
    }
  }

  lemma {:induction false} FromStartAscending(g: Graph, k: nat, start: nat)
    requires k > 0 && start <= g.n
    ensures Ascending(FromStart(g, k, start))
    decreases g.n - start
  {
    if start < g.n {
      SingletonTrail(g, start);
      SubtreeAscending(g, k, [start]);
      FromStartAscending(g, k, start + 1);
      forall x, y | x in Subtree(g, k, [start]) && y in FromStart(g, k, start + 1)
        ensures LexLess(x, y)
      {
        SubtreeMembers(g, k, [start], x);
        FromStartMembers(g, k, start + 1, y);
        assert x[0] == x[..1][0] == start;
      }
      AscendingConcat(Subtree(g, k, [start]), FromStart(g, k, start + 1));
    }
  }

  /** The depth-first order is the lexicographic list of all search paths of at most k vertices. */
  lemma AllTrailsCharacterized(g: Graph, k: nat)
    requires k > 0
    ensures Ascending(AllTrails(g, k))
    ensures forall q :: q in AllTrails(g, k) <==> IsTrail(g, q) && |q| <= k
  {
    FromStartAscending(g, k, 0);
    forall q
      ensures q in AllTrails(g, k) <==> IsTrail(g, q) && |q| <= k
    {
      FromStartMembers(g, k, 0, q);
    }
  }

  // ---------- the cycles in it ----------

  /** The test made on a full-length path: it closes, and runs towards the lesser neighbour of its start. */
  predicate IsHit(g: Graph, k: nat, p: seq<nat>) {
    |p| == k && k >= 2 && Closes(g, p) && p[1] < p[|p| - 1]
  }

  ghost function Hits(g: Graph, k: nat, trails: seq<seq<nat>>): seq<seq<nat>> {
    if trails == [] then []
    else (if IsHit(g, k, trails[0]) then [trails[0]] else []) + Hits(g, k, trails[1..])
  }

  lemma {:induction false} HitsMembers(g: Graph, k: nat, trails: seq<seq<nat>>, q: seq<nat>)
    ensures q in Hits(g, k, trails) <==> q in trails && IsHit(g, k, q)
  {
    if trails != [] {
      HitsMembers(g, k, trails[1..], q);
      assert trails == [trails[0]] + trails[1..];
    }
  }

  lemma {:induction false} HitsAscending(g: Graph, k: nat, trails: seq<seq<nat>>)
    requires Ascending(trails)
    ensures Ascending(Hits(g, k, trails))
  {
    if trails != [] {
      HitsAscending(g, k, trails[1..]);
      if IsHit(g, k, trails[0]) {
        forall y | y in Hits(g, k, trails[1..])
          ensures LexLess(trails[0], y)
        {
          HitsMembers(g, k, trails[1..], y);
        }
        AscendingConcat([trails[0]], Hits(g, k, trails[1..]));
      }
    }
  }

  lemma {:induction false} HitsConcat(g: Graph, k: nat, a: seq<seq<nat>>, b: seq<seq<nat>>)
    ensures Hits(g, k, a + b) == Hits(g, k, a) + Hits(g, k, b)
  {
    hide *;
    if a == [] {
      NoHits(g, k);
      assert a + b == b && [] + Hits(g, k, b) == Hits(g, k, b);
    } else {
      HitsConcat(g, k, a[1..], b);
      assert a + b == [a[0]] + (a[1..] + b) && a == [a[0]] + a[1..];
      HitsCons(g, k, a[0], a[1..] + b);
      HitsCons(g, k, a[0], a[1..]);
    }
  }

  lemma NoHits(g: Graph, k: nat)
    ensures Hits(g, k, []) == []
  {
  }

  lemma HitsCons(g: Graph, k: nat, p: seq<nat>, rest: seq<seq<nat>>)
    ensures Hits(g, k, [p] + rest) == (if IsHit(g, k, p) then [p] else []) + Hits(g, k, rest)
  {
    assert ([p] + rest)[1..] == rest;
    hide IsHit;
  }

  /** Every cycle of length k, one list each, in lexicographic order. */
  ghost function AllCycles(g: Graph, k: nat): seq<seq<nat>>
    requires k > 0
  {
    Hits(g, k, AllTrails(g, k))
  }

  lemma AllCyclesCharacterized(g: Graph, k: nat)
    requires k >= 3
    ensures Ascending(AllCycles(g, k))
    ensures forall q :: q in AllCycles(g, k) <==> IsCanonical(g, q) && |q| == k
  {
    AllTrailsCharacterized(g, k);
    HitsAscending(g, k, AllTrails(g, k));
    forall q
      ensures q in AllCycles(g, k) <==> IsCanonical(g, q) && |q| == k
    {
      HitsMembers(g, k, AllTrails(g, k), q);
    }
  }

  /** The list names every undirected cycle of length k exactly once. */
  lemma AllCyclesOncePerCycle(g: Graph, k: nat, p: seq<nat>)
    requires k >= 3 && IsCycle(g, p) && |p| == k
    ensures exists i :: 0 <= i < |AllCycles(g, k)| && EdgeSet(AllCycles(g, k)[i]) == EdgeSet(p)
    ensures forall i, j :: 0 <= i < j < |AllCycles(g, k)| ==>
                             EdgeSet(AllCycles(g, k)[i]) != EdgeSet(AllCycles(g, k)[j])
  {
    var list := AllCycles(g, k);
    AllCyclesCharacterized(g, k);
    var q := Canonicalize(g, p);
    assert q in list;
    forall i, j | 0 <= i < j < |list|
      ensures EdgeSet(list[i]) != EdgeSet(list[j])
    {
      assert list[i] in list && list[j] in list;
      LexIrreflexive(list[i], list[j]);
      if EdgeSet(list[i]) == EdgeSet(list[j]) {
        CanonicalUnique(g, list[i], list[j]);
      }
    }
  }

  lemma HasCycleIffListed(g: Graph, k: nat)
    requires k >= 3
    ensures HasCycle(g, k) <==> |AllCycles(g, k)| > 0
  {
    AllCyclesCharacterized(g, k);
    if HasCycle(g, k) {
      var p :| IsCycle(g, p) && |p| == k;
      AllCyclesOncePerCycle(g, k, p);
    }
    if |AllCycles(g, k)| > 0 {
      assert AllCycles(g, k)[0] in AllCycles(g, k);
    }
  }

  // ---------- scanning it under a limit and a budget ----------

  datatype Tally = Tally(found: seq<seq<nat>>, nodes: nat, exhausted: bool)

  const FRESH := Tally([], 0, false)

  predicate Stopped(limit: nat, t: Tally) {
    |t.found| >= limit || t.exhausted
  }

  predicate OverBudget(budget: Option<nat>, nodes: nat) {
    budget.Some? && nodes > budget.value
  }

  ghost function Visit(g: Graph, k: nat, limit: nat, budget: Option<nat>, t: Tally, p: seq<nat>): Tally {
    if Stopped(limit, t) then t
    else if OverBudget(budget, t.nodes + 1) then t.(nodes := t.nodes + 1, exhausted := true)
    else t.(nodes := t.nodes + 1, found := if IsHit(g, k, p) then t.found + [p] else t.found)
  }

  ghost function Scan(g: Graph, k: nat, limit: nat, budget: Option<nat>, trails: seq<seq<nat>>, t: Tally): Tally
    decreases |trails|
  {
    if trails == [] then t
    else Scan(g, k, limit, budget, trails[1..], Visit(g, k, limit, budget, t, trails[0]))
  }

  lemma {:induction false} ScanConcat(g: Graph, k: nat, limit: nat, budget: Option<nat>,
                                      a: seq<seq<nat>>, b: seq<seq<nat>>, t: Tally)
    ensures Scan(g, k, limit, budget, a + b, t)
         == Scan(g, k, limit, budget, b, Scan(g, k, limit, budget, a, t))
    decreases |a|
  {
    if a == [] {
      assert a + b == b;
    } else {
      assert (a + b)[1..] == a[1..] + b;
      ScanConcat(g, k, limit, budget, a[1..], b, Visit(g, k, limit, budget, t, a[0]));
    }
  }

  lemma {:induction false} ScanStopped(g: Graph, k: nat, limit: nat, budget: Option<nat>,
                                       trails: seq<seq<nat>>, t: Tally)
    requires Stopped(limit, t)
    ensures Scan(g, k, limit, budget, trails, t) == t
    decreases |trails|
  {
    if trails != [] {
      ScanStopped(g, k, limit, budget, trails[1..], t);
    }
  }

  /** Scanning a subtree: visit its root, then scan what lies below. */
  lemma ScanSubtree(g: Graph, k: nat, limit: nat, budget: Option<nat>, p: seq<nat>, t: Tally)
    requires 0 < |p| <= k
    ensures Scan(g, k, limit, budget, Subtree(g, k, p), t)
         == (var u := Visit(g, k, limit, budget, t, p);
             if |p| == k then u else Scan(g, k, limit, budget, Forest(g, k, p, Children(g, p)), u))
    ensures Stopped(limit, Visit(g, k, limit, budget, t, p)) ==>
              Scan(g, k, limit, budget, Subtree(g, k, p), t) == Visit(g, k, limit, budget, t, p)
  {
    var rest := if |p| == k then [] else Forest(g, k, p, Children(g, p));
    assert Subtree(g, k, p)[1..] == rest;
    var u := Visit(g, k, limit, budget, t, p);
    if Stopped(limit, u) {
      ScanStopped(g, k, limit, budget, rest, u);
    }
  }

  /** Scanning what lies below p through `bits`: the subtree of the least one, then the others. */
  lemma ScanForest(g: Graph, k: nat, limit: nat, budget: Option<nat>, p: seq<nat>, bits: set<nat>, t: Tally)
    requires 0 < |p| < k
    ensures Scan(g, k, limit, budget, Forest(g, k, p, bits), t)
         == if bits == {} || Stopped(limit, t) then t
            else var v := Lowest(bits);
                 Scan(g, k, limit, budget, Forest(g, k, p, bits - {v}),
                      Scan(g, k, limit, budget, Subtree(g, k, p + [v]), t))
  {
    if Stopped(limit, t) {
      ScanStopped(g, k, limit, budget, Forest(g, k, p, bits), t);
    } else if bits != {} {
      var v := Lowest(bits);
      ScanConcat(g, k, limit, budget, Subtree(g, k, p + [v]), Forest(g, k, p, bits - {v}), t);
    }
  }

  ghost function Bounded(g: Graph, k: nat, limit: nat, budget: Option<nat>): Tally
    requires k > 0
  {
    Scan(g, k, limit, budget, AllTrails(g, k), FRESH)
  }

  /** The scan reads a prefix of the order; what stopped it fixes the prefix. */
  ghost predicate ReadsPrefix(g: Graph, k: nat, limit: nat, budget: Option<nat>,
                              trails: seq<seq<nat>>, before: Tally, after: Tally, c: nat)
  {
    && c <= |trails|
    && after.found == before.found + Hits(g, k, trails[..c])
    && (after.exhausted ==> budget.Some? && c < |trails| && |after.found| < limit
                            && after.nodes == before.nodes + c + 1 == budget.value + 1)
    && (!after.exhausted ==> after.nodes == before.nodes + c
                             && (budget.Some? ==> after.nodes <= budget.value)
                             && (c == |trails| || |after.found| == limit))
  }

  lemma HitsOfPrefix(g: Graph, k: nat, trails: seq<seq<nat>>, d: nat)
    requires d < |trails|
    ensures Hits(g, k, trails[..d + 1])
         == (if IsHit(g, k, trails[0]) then [trails[0]] else []) + Hits(g, k, trails[1..][..d])
  {
    assert trails[..d + 1][1..] == trails[1..][..d];
  }

  lemma ReadsOneMore(g: Graph, k: nat, limit: nat, budget: Option<nat>,
                     trails: seq<seq<nat>>, t: Tally, r: Tally, d: nat)
    requires trails != [] && !Stopped(limit, t) && !OverBudget(budget, t.nodes + 1)
    requires ReadsPrefix(g, k, limit, budget, trails[1..], Visit(g, k, limit, budget, t, trails[0]), r, d)
    ensures ReadsPrefix(g, k, limit, budget, trails, t, r, d + 1)
  {
    HitsOfPrefix(g, k, trails, d);
    hide Hits, IsHit;
  }

  lemma {:induction false} ScanReadsPrefix(g: Graph, k: nat, limit: nat, budget: Option<nat>,
                                           trails: seq<seq<nat>>, t: Tally) returns (c: nat)
    requires !t.exhausted && |t.found| <= limit
    requires budget.Some? ==> t.nodes <= budget.value
    ensures var r := Scan(g, k, limit, budget, trails, t);
      && |r.found| <= limit
      && ReadsPrefix(g, k, limit, budget, trails, t, r, c)
    decreases |trails|
  {
    var r := Scan(g, k, limit, budget, trails, t);
    c := 0;
    assert Hits(g, k, trails[..0]) == [];
    if Stopped(limit, t) {
      ScanStopped(g, k, limit, budget, trails, t);
    } else if trails != [] {
      var u := Visit(g, k, limit, budget, t, trails[0]);
      if u.exhausted {
        ScanStopped(g, k, limit, budget, trails[1..], u);
      } else {
        var d := ScanReadsPrefix(g, k, limit, budget, trails[1..], u);
        c := d + 1;
        ReadsOneMore(g, k, limit, budget, trails, t, r, d);
      }
    }
  }

  /** A scan that neither limit nor budget stopped has met every path. */
  lemma BoundedReads(g: Graph, k: nat, limit: nat, budget: Option<nat>)
    requires k > 0
    ensures var r := Bounded(g, k, limit, budget);
      !r.exhausted && |r.found| < limit ==>
        r.nodes == |AllTrails(g, k)| && (budget.Some? ==> r.nodes <= budget.value)
  {
    var c := ScanReadsPrefix(g, k, limit, budget, AllTrails(g, k), FRESH);
    hide AllTrails;
  }

  /** A bounded enumeration returns a prefix of the full list, whole or of the limit's size unless the
      budget ran out, having visited at most one node more than the budget. */
  lemma BoundedMeaning(g: Graph, k: nat, limit: nat, budget: Option<nat>)
    requires k >= 3 && limit > 0
    ensures var r := Bounded(g, k, limit, budget);
      && r.found <= AllCycles(g, k)
      && |r.found| <= limit
      && (!r.exhausted ==> |r.found| == if |AllCycles(g, k)| < limit then |AllCycles(g, k)| else limit)
      && (!r.exhausted && |r.found| < limit ==> r.found == AllCycles(g, k))
      && (budget.Some? ==> r.nodes <= budget.value + 1)
      && (r.exhausted ==> budget.Some? && r.nodes == budget.value + 1 && |AllTrails(g, k)| > budget.value)
  {
    var r := Bounded(g, k, limit, budget);
    var trails := AllTrails(g, k);
    var c := ScanReadsPrefix(g, k, limit, budget, trails, FRESH);
    assert trails == trails[..c] + trails[c..];
    HitsConcat(g, k, trails[..c], trails[c..]);
    if !r.exhausted && |r.found| < limit {
      assert trails[c..] == [];
    }
  }

  /** Lowering the limit to e only cuts the list short at e. */
  lemma {:induction false} ScanThreshold(g: Graph, k: nat, e: nat, limit: nat, budget: Option<nat>,
                                         trails: seq<seq<nat>>, t: Tally)
    requires |t.found| <= e <= limit
    ensures var a := Scan(g, k, e, budget, trails, t); var b := Scan(g, k, limit, budget, trails, t);
      && |t.found| <= |b.found|
      && |a.found| == (if |b.found| < e then |b.found| else e)
      && (|b.found| < e ==> a == b)
    decreases |trails|
  {
    if Stopped(e, t) {
      ScanStopped(g, k, e, budget, trails, t);
      if t.exhausted {
        ScanStopped(g, k, limit, budget, trails, t);
      } else {
        ScanGrows(g, k, limit, budget, trails, t);
      }
    } else if trails != [] {
      ScanThreshold(g, k, e, limit, budget, trails[1..], Visit(g, k, e, budget, t, trails[0]));
    }
  }

  lemma {:induction false} ScanGrows(g: Graph, k: nat, limit: nat, budget: Option<nat>,
                                     trails: seq<seq<nat>>, t: Tally)
    ensures |t.found| <= |Scan(g, k, limit, budget, trails, t).found|
    decreases |trails|
  {
    if trails != [] {
      ScanGrows(g, k, limit, budget, trails[1..], Visit(g, k, limit, budget, t, trails[0]));
    }
  }
}
