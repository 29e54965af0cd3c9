/** The clauses that ask for minimum degree three, and the clauses learned from failed candidates. */
module BaseCnf {
  import opened Outcomes
  import opened Graphs
  import opened Cycles
  import opened EdgeVariables

  // ---------- at least three of d, by subsets ----------

  function Prepend(x: int, s: seq<seq<int>>): (r: seq<seq<int>>)
    ensures |r| == |s| && forall i :: 0 <= i < |s| ==> r[i] == [x] + s[i]
  {
    seq(|s|, i requires 0 <= i < |s| => [x] + s[i])
  }

  /** The k-element subsets of a list, in lexicographic order of position. */
  function Combinations(s: seq<int>, k: nat): seq<seq<int>> {
    if k == 0 then [[]]
    else if s == [] then []
    else Prepend(s[0], Combinations(s[1..], k - 1)) + Combinations(s[1..], k)
  }

  ghost function CountTrue(A: Valuation, s: seq<int>): nat {
    if s == [] then 0 else (if LiteralTrue(A, s[0]) then 1 else 0) + CountTrue(A, s[1..])
  }

  lemma {:induction false} CountTrueBound(A: Valuation, s: seq<int>)
    ensures CountTrue(A, s) <= |s|
  {
    if s != [] {
      CountTrueBound(A, s[1..]);
    }
  }

  lemma ClauseTruePrepend(A: Valuation, x: int, c: Clause)
    ensures ClauseTrue(A, [x] + c) <==> LiteralTrue(A, x) || ClauseTrue(A, c)
  {
    var d := [x] + c;
    if LiteralTrue(A, x) {
      assert LiteralTrue(A, d[0]);
    }
    if ClauseTrue(A, c) {
      var i :| 0 <= i < |c| && LiteralTrue(A, c[i]);
      assert LiteralTrue(A, d[i + 1]);
    }
  }

  lemma CnfTruePrepend(A: Valuation, x: int, f: Cnf)
    ensures CnfTrue(A, Prepend(x, f)) <==> LiteralTrue(A, x) || CnfTrue(A, f)
  {
    var h := Prepend(x, f);
    if !LiteralTrue(A, x) && CnfTrue(A, h) {
      forall i | 0 <= i < |f|
        ensures ClauseTrue(A, f[i])
      {
        assert ClauseTrue(A, h[i]);
        ClauseTruePrepend(A, x, f[i]);
      }
    }
    if LiteralTrue(A, x) || CnfTrue(A, f) {
      forall i | 0 <= i < |h|
        ensures ClauseTrue(A, h[i])
      {
        ClauseTruePrepend(A, x, f[i]);
      }
    }
  }

  /** Every k-subset of d literals holds a true one exactly when more than d - k of them are true. (With no
      k-subset at all the clauses are vacuous.) */
  lemma {:induction false} SubsetsHit(A: Valuation, s: seq<int>, k: nat)
    ensures CnfTrue(A, Combinations(s, k)) <==> k > |s| || CountTrue(A, s) + k > |s|
  {
    hide *;
    CountTrueBound(A, s);
    if k == 0 {
      EmptySubset(A, s);
    } else if s == [] {
      NoSubset(A, k);
    } else {
      var tail := s[1..];
      CountTrueBound(A, tail);
      CountTrueStep(A, s);
      CombinationsStep(s, k);
      SubsetsHit(A, tail, k - 1);
      SubsetsHit(A, tail, k);
      CnfTruePrepend(A, s[0], Combinations(tail, k - 1));
      CnfConcat(A, Prepend(s[0], Combinations(tail, k - 1)), Combinations(tail, k));
    }
  }

  lemma EmptySubset(A: Valuation, s: seq<int>)
    ensures !CnfTrue(A, Combinations(s, 0))
  {
    assert !ClauseTrue(A, Combinations(s, 0)[0]);
  }

  lemma NoSubset(A: Valuation, k: nat)
    requires k > 0
    ensures CnfTrue(A, Combinations([], k)) && CountTrue(A, []) == 0
  {
  }

  lemma CountTrueStep(A: Valuation, s: seq<int>)
    requires s != []
    ensures CountTrue(A, s) == CountTrue(A, s[1..]) + if LiteralTrue(A, s[0]) then 1 else 0
  {
  }

  lemma CombinationsStep(s: seq<int>, k: nat)
    requires k > 0 && s != []
    ensures Combinations(s, k) == Prepend(s[0], Combinations(s[1..], k - 1)) + Combinations(s[1..], k)
  {
  }

  // ---------- the base clauses ----------

  /** The variables of a vertex's pairs with the vertices from `other` on. */
  function Incident(n: nat, vertex: nat, other: nat): seq<int>
    requires vertex < n && other <= n
    decreases n - other
  {
    if other == n then []
    else (if other != vertex then [Variable(n, vertex, other)] else []) + Incident(n, vertex, other + 1)
  }

  lemma {:induction false} IncidentSize(n: nat, vertex: nat, other: nat)
    requires vertex < n && other <= n
    ensures |Incident(n, vertex, other)| == n - other - (if other <= vertex then 1 else 0)
    decreases n - other
  {
    if other < n {
      IncidentSize(n, vertex, other + 1);
    }
  }

  /** The true incident variables are as many as the neighbours. */
  lemma {:induction false} IncidentCount(g: Graph, A: Valuation, vertex: nat, other: nat)
    requires Describes(A, g) && vertex < g.n && other <= g.n
    ensures CountTrue(A, Incident(g.n, vertex, other)) == |set w | w in g.rows[vertex] && w >= other|
    decreases g.n - other
  {
    if other == g.n {
      NoneBeyond(g, vertex);
    } else {
      IncidentCount(g, A, vertex, other + 1);
      OneFewer(g.rows[vertex], other);
      IncidentStep(g, A, vertex, other);
      hide *;
    }
  }

  lemma NoneBeyond(g: Graph, vertex: nat)
    requires vertex < g.n
    ensures (set w | w in g.rows[vertex] && w >= g.n) == {}
  {
    forall w | w in g.rows[vertex]
      ensures w < g.n
    {
      EdgeSymmetric(g, vertex, w);
    }
  }

  lemma OneFewer(row: set<nat>, other: nat)
    ensures |set w | w in row && w >= other| == |set w | w in row && w >= other + 1| + if other in row then 1 else 0
  {
    var here, later := set w | w in row && w >= other, set w | w in row && w >= other + 1;
    if other in row {
      assert here == later + {other};
    } else {
      assert here == later;
    }
  }

  lemma IncidentStep(g: Graph, A: Valuation, vertex: nat, other: nat)
    requires Describes(A, g) && vertex < g.n && other < g.n
    ensures CountTrue(A, Incident(g.n, vertex, other))
         == CountTrue(A, Incident(g.n, vertex, other + 1)) + if other in g.rows[vertex] then 1 else 0
  {
    var rest := Incident(g.n, vertex, other + 1);
    if other == vertex {
      EdgeSymmetric(g, vertex, vertex);
      assert Incident(g.n, vertex, other) == rest;
    } else {
      var x := Variable(g.n, vertex, other);
      assert Edge(g, vertex, other) <==> x in A;
      assert ([x] + rest)[1..] == rest;
    }
  }

  /** The degree clauses of the vertices from `vertex` on. */
  function DegreeClauses(n: nat, vertex: nat): Cnf
    requires n >= 3 && vertex <= n
    decreases n - vertex
  {
    if vertex == n then []
    else
      IncidentSize(n, vertex, 0);
      var incident := Incident(n, vertex, 0);
      Combinations(incident, |incident| - 2) + DegreeClauses(n, vertex + 1)
  }

  function BaseClauses(n: nat): Cnf
    requires n >= 4
  {
    DegreeClauses(n, 0) + [[Variable(n, 0, 1)]]
  }

  datatype OrderError = TooSmall | TooLarge

  /** The clause builder with its two order guards. */
  function BuildBase(n: int): Result<Cnf, OrderError> {
    if n < 4 then Err(TooSmall)
    else if n > 40 then Err(TooLarge)
    else Ok(BaseClauses(n))
  }

  /** One vertex's clauses hold exactly when it has at least three neighbours. */
  lemma VertexClausesMeaning(g: Graph, A: Valuation, vertex: nat)
    requires Describes(A, g) && g.n >= 4 && vertex < g.n
    ensures |Incident(g.n, vertex, 0)| >= 2
    ensures CnfTrue(A, Combinations(Incident(g.n, vertex, 0), |Incident(g.n, vertex, 0)| - 2)) <==>
            |g.rows[vertex]| >= 3
  {
    hide Combinations, Incident, CountTrue, Describes, CnfTrue, ClauseTrue;
    IncidentSize(g.n, vertex, 0);
    IncidentCount(g, A, vertex, 0);
    WholeRow(g.rows[vertex]);
    SubsetsHit(A, Incident(g.n, vertex, 0), |Incident(g.n, vertex, 0)| - 2);
  }

  lemma WholeRow(row: set<nat>)
    ensures row == set w | w in row && w >= 0
  {
  }

  lemma {:induction false} DegreeClausesMeaning(g: Graph, A: Valuation, vertex: nat)
    requires Describes(A, g) && g.n >= 4 && vertex <= g.n
    ensures CnfTrue(A, DegreeClauses(g.n, vertex)) <==> forall u :: vertex <= u < g.n ==> |g.rows[u]| >= 3
    decreases g.n - vertex
  {
    hide *;
    if vertex == g.n {
      NoDegreeClauses(g.n, A);
    } else {
      var incident := Incident(g.n, vertex, 0);
      VertexClausesMeaning(g, A, vertex);
      DegreeClausesMeaning(g, A, vertex + 1);
      DegreeClausesStep(g.n, vertex);
      CnfConcat(A, Combinations(incident, |incident| - 2), DegreeClauses(g.n, vertex + 1));
    }
  }

  lemma NoDegreeClauses(n: nat, A: Valuation)
    requires n >= 3
    ensures CnfTrue(A, DegreeClauses(n, n))
  {
  }

  lemma DegreeClausesStep(n: nat, vertex: nat)
    requires n >= 3 && vertex < n && |Incident(n, vertex, 0)| >= 2
    ensures DegreeClauses(n, vertex)
         == Combinations(Incident(n, vertex, 0), |Incident(n, vertex, 0)| - 2) + DegreeClauses(n, vertex + 1)
  {
    hide Combinations, Incident;
  }

  /** The base clauses hold of exactly the graphs of minimum degree three with the edge {0, 1}. */
  lemma BaseClausesMeaning(g: Graph, A: Valuation)
    requires Describes(A, g) && g.n >= 4
    ensures CnfTrue(A, BaseClauses(g.n)) <==> MinimumDegreeThree(g) && Edge(g, 0, 1)
  {
    var x := Variable(g.n, 0, 1);
    DegreeClausesMeaning(g, A, 0);
    CnfAppend(A, DegreeClauses(g.n, 0), [x]);
    if x in A {
      assert LiteralTrue(A, [x][0]);
    }
  }

  // ---------- every clause is over the variables ----------

  lemma {:induction false} IncidentInRange(n: nat, vertex: nat, other: nat)
    requires vertex < n && other <= n
    ensures ClauseInRange(Incident(n, vertex, other), VariableCount(n))
    decreases n - other
  {
    if other < n {
      IncidentInRange(n, vertex, other + 1);
      if other < vertex {
        VariableInRow(n, other, vertex);
      } else if other > vertex {
        VariableInRow(n, vertex, other);
      }
    }
  }

  lemma {:induction false} CombinationsInRange(s: seq<int>, k: nat, count: nat)
    requires ClauseInRange(s, count)
    ensures InRange(Combinations(s, k), count)
  {
    if k > 0 && s != [] {
      CombinationsInRange(s[1..], k - 1, count);
      CombinationsInRange(s[1..], k, count);
    }
  }

  lemma {:induction false} DegreeClausesInRange(n: nat, vertex: nat)
    requires n >= 3 && vertex <= n
    ensures InRange(DegreeClauses(n, vertex), VariableCount(n))
    decreases n - vertex
  {
    if vertex < n {
      IncidentInRange(n, vertex, 0);
      IncidentSize(n, vertex, 0);
      var incident := Incident(n, vertex, 0);
      CombinationsInRange(incident, |incident| - 2, VariableCount(n));
      DegreeClausesInRange(n, vertex + 1);
    }
  }

  lemma BaseClausesInRange(n: nat)
    requires n >= 4
    ensures InRange(BaseClauses(n), VariableCount(n))
  {
    DegreeClausesInRange(n, 0);
    VariableInRow(n, 0, 1);
  }

  // ---------- learned clauses ----------

  datatype WitnessError = NotDistinct

  predicate IsWitness(n: nat, cycle: seq<nat>) {
    && |cycle| >= 3
    && (forall i :: 0 <= i < |cycle| ==> cycle[i] < n)
    && (forall i, j :: 0 <= i < j < |cycle| ==> cycle[i] != cycle[j])
  }

  function CycleClause(n: nat, cycle: seq<nat>): (c: Clause)
    requires IsWitness(n, cycle)
    ensures |c| == |cycle|
  {
    seq<int>(|cycle|, i requires 0 <= i < |cycle| =>
      assert cycle[i] != cycle[Next(i, |cycle|)];
      -(Variable(n, cycle[i], cycle[Next(i, |cycle|)]) as int))
  }

  /** The clause of a witness, refused when it is too short or repeats a vertex. */
  function BuildCycleClause(n: nat, cycle: seq<nat>): (r: Result<Clause, WitnessError>)
    requires forall i :: 0 <= i < |cycle| ==> cycle[i] < n
    ensures r.Ok? <==> IsWitness(n, cycle)
  {
    if IsWitness(n, cycle) then Ok(CycleClause(n, cycle)) else Err(NotDistinct)
  }

  /** A cycle clause holds of exactly the graphs that miss an edge of the cycle. */
  lemma CycleClauseMeaning(g: Graph, A: Valuation, cycle: seq<nat>)
    requires Describes(A, g) && IsWitness(g.n, cycle)
    ensures ClauseTrue(A, CycleClause(g.n, cycle)) <==> !IsCycle(g, cycle)
    ensures ClauseInRange(CycleClause(g.n, cycle), VariableCount(g.n))
  {
    var c := CycleClause(g.n, cycle);
    forall i | 0 <= i < |cycle|
      ensures 1 <= Abs(c[i]) <= VariableCount(g.n)
      ensures LiteralTrue(A, c[i]) <==> !Edge(g, cycle[i], cycle[Next(i, |cycle|)])
    {
      var u, v := cycle[i], cycle[Next(i, |cycle|)];
      assert u != v;
      if u < v {
        VariableInRow(g.n, u, v);
      } else {
        VariableInRow(g.n, v, u);
      }
    }
    if !ClauseTrue(A, c) {
      CycleFromSteps(g, cycle);
    }
    if IsCycle(g, cycle) {
      forall i | 0 <= i < |c|
        ensures !LiteralTrue(A, c[i])
      {
        CycleStep(g, cycle, i);
      }
    }
  }

  /** The pairs of u with the vertices outside, in increasing order. */
  function CutRow(n: nat, u: nat, outside: set<nat>): Clause
    requires u < n && outside <= Vertices(n) - {u}
    decreases |outside|
  {
    if outside == {} then []
    else
      var v := Lowest(outside);
      [Variable(n, u, v)] + CutRow(n, u, outside - {v})
  }

  function CutClause(n: nat, inside: set<nat>, outside: set<nat>): Clause
    requires inside <= Vertices(n) && outside <= Vertices(n) && inside !! outside
    decreases |inside|
  {
    if inside == {} then []
    else
      var u := Lowest(inside);
      CutRow(n, u, outside) + CutClause(n, inside - {u}, outside)
  }

  function ConnectednessClause(n: nat, component: set<nat>): Clause
    requires component <= Vertices(n)
  {
    CutClause(n, component, Vertices(n) - component)
  }

  lemma ClauseTrueConcat(A: Valuation, c: Clause, d: Clause)
    ensures ClauseTrue(A, c + d) <==> ClauseTrue(A, c) || ClauseTrue(A, d)
  {
    var e := c + d;
    if ClauseTrue(A, c) {
      var i :| 0 <= i < |c| && LiteralTrue(A, c[i]);
      assert LiteralTrue(A, e[i]);
    }
    if ClauseTrue(A, d) {
      var i :| 0 <= i < |d| && LiteralTrue(A, d[i]);
      assert LiteralTrue(A, e[i + |c|]);
    }
  }

  lemma {:induction false} CutRowMeaning(g: Graph, A: Valuation, u: nat, outside: set<nat>)
    requires Describes(A, g) && u < g.n && outside <= Vertices(g.n) - {u}
    ensures ClauseTrue(A, CutRow(g.n, u, outside)) <==> exists v :: v in outside && Edge(g, u, v)
    ensures ClauseInRange(CutRow(g.n, u, outside), VariableCount(g.n))
    decreases |outside|
  {
    if outside != {} {
      var v := Lowest(outside);
      var rest := CutRow(g.n, u, outside - {v});
      CutRowMeaning(g, A, u, outside - {v});
      assert Edge(g, u, v) <==> Variable(g.n, u, v) in A;
      hide Describes, Edge, ClauseTrue, Variable, WellFormed;
      ClauseTruePrepend(A, Variable(g.n, u, v), rest);
      if u < v {
        VariableInRow(g.n, u, v);
      } else {
        VariableInRow(g.n, v, u);
      }
    }
  }

  lemma {:induction false} CutClauseMeaning(g: Graph, A: Valuation, inside: set<nat>, outside: set<nat>)
    requires Describes(A, g)
    requires inside <= Vertices(g.n) && outside <= Vertices(g.n) && inside !! outside
    ensures ClauseTrue(A, CutClause(g.n, inside, outside)) <==>
              exists u, v :: u in inside && v in outside && Edge(g, u, v)
    ensures ClauseInRange(CutClause(g.n, inside, outside), VariableCount(g.n))
    decreases |inside|
  {
    if inside != {} {
      var u := Lowest(inside);
      CutRowMeaning(g, A, u, outside);
      CutClauseMeaning(g, A, inside - {u}, outside);
      ClauseTrueConcat(A, CutRow(g.n, u, outside), CutClause(g.n, inside - {u}, outside));
    }
  }

  /** A connectedness clause holds of exactly the graphs with an edge leaving the component. */
  lemma ConnectednessClauseMeaning(g: Graph, A: Valuation, component: set<nat>)
    requires Describes(A, g) && component <= Vertices(g.n)
    ensures ClauseTrue(A, ConnectednessClause(g.n, component)) <==> !Closed(g, component)
    ensures ClauseInRange(ConnectednessClause(g.n, component), VariableCount(g.n))
  {
    var outside := Vertices(g.n) - component;
    CutClauseMeaning(g, A, component, outside);
    if !Closed(g, component) {
      var u, v :| u in component && Edge(g, u, v) && v !in component;
      EdgeSymmetric(g, u, v);
      assert v in outside;
    }
  }
}
