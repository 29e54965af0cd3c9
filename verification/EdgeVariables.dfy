/** The numbering of vertex pairs by SAT variables, and clauses over it. */
module EdgeVariables {
  import opened Outcomes
  import opened Graphs

  /** Variables used by the rows before u. */
  function RowStart(n: nat, u: nat): nat
    requires u <= n
  {
    ProductNonnegative(u, 2 * n - u - 1);
    u * (2 * n - u - 1) / 2
  }

  lemma ProductNonnegative(a: nat, b: int)
    requires a > 0 ==> b >= 0
    ensures a * b >= 0
  {
  }

  /** The variable of an edge; loops have none. */
  function Variable(n: nat, u: nat, v: nat): nat
    requires u < n && v < n && u != v
  {
    var (a, b) := if u > v then (v, u) else (u, v);
    1 + RowStart(n, a) + (b - a - 1)
  }

  function VariableCount(n: nat): nat {
    n * (n - 1) / 2
  }

  // ---------- the numbering is a bijection ----------

  lemma RowStep(n: nat, u: nat)
    requires u < n
    ensures RowStart(n, u + 1) == RowStart(n, u) + (n - u - 1)
  {
  }

  lemma {:induction false} RowStartMonotone(n: nat, u: nat, w: nat)
    requires u <= w <= n
    ensures RowStart(n, u) <= RowStart(n, w)
    decreases w - u
  {
    if u < w {
      RowStep(n, w - 1);
      RowStartMonotone(n, u, w - 1);
    }
  }

  lemma RowEnd(n: nat)
    ensures RowStart(n, n) == VariableCount(n)
  {
  }

  lemma VariableInRow(n: nat, u: nat, v: nat)
    requires u < v < n
    ensures RowStart(n, u) < Variable(n, u, v) <= RowStart(n, u + 1)
    ensures Variable(n, u, v) == RowStart(n, u) + (v - u)
    ensures 1 <= Variable(n, u, v) <= VariableCount(n)
  {
    RowStep(n, u);
    RowStartMonotone(n, u + 1, n);
    RowEnd(n);
  }

  lemma EarlierRowSmaller(n: nat, u: nat, v: nat, a: nat, b: nat)
    requires u < v < n && a < b < n && u < a
    ensures Variable(n, u, v) < Variable(n, a, b)
  {
    VariableInRow(n, u, v);
    VariableInRow(n, a, b);
    RowStartMonotone(n, u + 1, a);
  }

  /** Distinct pairs have distinct variables. */
  lemma VariableInjective(n: nat, u: nat, v: nat, a: nat, b: nat)
    requires u < v < n && a < b < n
    requires Variable(n, u, v) == Variable(n, a, b)
    ensures u == a && v == b
  {
    if u < a {
      EarlierRowSmaller(n, u, v, a, b);
    } else if a < u {
      EarlierRowSmaller(n, a, b, u, v);
    } else {
      VariableInRow(n, u, v);
      VariableInRow(n, a, b);
    }
  }

  /** Every variable up to the count is some pair's. */
  lemma {:induction false} VariableSurjective(n: nat, x: nat, w: nat) returns (u: nat, v: nat)
    requires 0 < w <= n && 0 < x <= RowStart(n, w)
    ensures u < v < n && Variable(n, u, v) == x
  {
    if x > RowStart(n, w - 1) {
      RowStep(n, w - 1);
      u := w - 1;
      v := u + (x - RowStart(n, u));
      VariableInRow(n, u, v);
    } else {
      assert RowStart(n, 0) == 0;
      u, v := VariableSurjective(n, x, w - 1);
    }
  }

  datatype OutsideRange = OutsideRange

  /** The inverse, by trying every pair: it finds the one pair of each variable in range, and fails outside. */
  method EdgeOf(n: nat, x: int) returns (r: Result<(nat, nat), OutsideRange>)
    ensures r.Ok? <==> 1 <= x <= VariableCount(n)
    ensures r.Ok? ==> r.value.0 < r.value.1 < n && Variable(n, r.value.0, r.value.1) == x
    ensures forall u, v :: 0 <= u < v < n && Variable(n, u, v) == x ==> r == Ok((u, v))
  {
    var u := 0;
    while u < n
      invariant 0 <= u <= n
      invariant forall a, b :: 0 <= a < b < n && a < u ==> Variable(n, a, b) != x
    {
      var v := u + 1;
      while v < n
        invariant u + 1 <= v <= n
        invariant forall b :: u < b < v ==> Variable(n, u, b) != x
      {
        if Variable(n, u, v) == x {
          VariableInRow(n, u, v);
          forall a, b | 0 <= a < b < n && Variable(n, a, b) == x
            ensures a == u && b == v
          {
            VariableInjective(n, u, v, a, b);
          }
          return Ok((u, v));
        }
        v := v + 1;
      }
      u := u + 1;
    }
    if 1 <= x <= VariableCount(n) {
      RowEnd(n);
      ghost var a, b := VariableSurjective(n, x, n);
      assert false;
    }
    r := Err(OutsideRange);
  }

  // ---------- clauses ----------

  type Clause = seq<int>
  type Cnf = seq<Clause>

  /** A valuation is the set of its true variables. */
  type Valuation = set<nat>

  predicate LiteralTrue(A: Valuation, l: int) {
    if l > 0 then l in A else -l !in A
  }

  ghost predicate ClauseTrue(A: Valuation, c: Clause) {
    exists i :: 0 <= i < |c| && LiteralTrue(A, c[i])
  }

  ghost predicate CnfTrue(A: Valuation, f: Cnf) {
    forall i :: 0 <= i < |f| ==> ClauseTrue(A, f[i])
  }

  function Abs(l: int): nat {
    if l < 0 then -l else l
  }

  ghost predicate ClauseInRange(c: Clause, count: nat) {
    forall i :: 0 <= i < |c| ==> 1 <= Abs(c[i]) <= count
  }

  ghost predicate InRange(f: Cnf, count: nat) {
    forall i :: 0 <= i < |f| ==> ClauseInRange(f[i], count)
  }

  lemma CnfAppend(A: Valuation, f: Cnf, c: Clause)
    ensures CnfTrue(A, f + [c]) <==> CnfTrue(A, f) && ClauseTrue(A, c)
  {
    var h := f + [c];
    if CnfTrue(A, h) {
      assert h[|f|] == c;
      assert forall i :: 0 <= i < |f| ==> f[i] == h[i];
    }
  }

  lemma CnfConcat(A: Valuation, f: Cnf, h: Cnf)
    ensures CnfTrue(A, f + h) <==> CnfTrue(A, f) && CnfTrue(A, h)
  {
    var k := f + h;
    if CnfTrue(A, k) {
      assert forall i :: 0 <= i < |f| ==> f[i] == k[i];
      assert forall i :: 0 <= i < |h| ==> h[i] == k[i + |f|];
    }
  }

  // ---------- graphs as valuations ----------

  /** A says exactly which pairs are edges of g. */
  ghost predicate Describes(A: Valuation, g: Graph) {
    forall u, v :: 0 <= u < g.n && 0 <= v < g.n && u != v ==> (Variable(g.n, u, v) in A <==> Edge(g, u, v))
  }

  /** The valuation of a graph. */
  ghost function ValuationOf(g: Graph): (A: Valuation)
    ensures Describes(A, g)
  {
    var A := set u, v | 0 <= u < g.n && u < v < g.n && Edge(g, u, v) :: Variable(g.n, u, v);
    forall u, v | 0 <= u < g.n && 0 <= v < g.n && u != v
      ensures Variable(g.n, u, v) in A <==> Edge(g, u, v)
    {
      var (a, b) := if u < v then (u, v) else (v, u);
      EdgeSymmetric(g, u, v);
      assert Variable(g.n, u, v) == Variable(g.n, a, b);
      if Variable(g.n, a, b) in A {
        var c, d :| 0 <= c < g.n && c < d < g.n && Edge(g, c, d) && Variable(g.n, c, d) == Variable(g.n, a, b);
        VariableInjective(g.n, a, b, c, d);
      }
    }
    A
  }

  // ---------- decoding a model ----------

  function RowEdges(n: nat, model: seq<int>, u: nat, v: nat): seq<(int, int)>
    requires u < v <= n
    decreases n - v
  {
    if v == n then []
    else (if Variable(n, u, v) in model then [(u, v)] else []) + RowEdges(n, model, u, v + 1)
  }

  /** The pairs from row u on whose variable the model makes true, row by row. */
  function DecodedEdges(n: nat, model: seq<int>, u: nat): seq<(int, int)>
    requires u <= n
    decreases n - u
  {
    if u == n then [] else RowEdges(n, model, u, u + 1) + DecodedEdges(n, model, u + 1)
  }

  lemma {:induction false} RowEdgesMembers(n: nat, model: seq<int>, u: nat, v: nat, e: (int, int))
    requires u < v <= n
    ensures e in RowEdges(n, model, u, v) <==> e.0 == u && v <= e.1 < n && Variable(n, u, e.1) in model
    decreases n - v
  {
    if v < n {
      RowEdgesMembers(n, model, u, v + 1, e);
    }
  }

  lemma {:induction false} DecodedEdgesMembers(n: nat, model: seq<int>, u: nat, e: (int, int))
    requires u <= n
    ensures e in DecodedEdges(n, model, u) <==> u <= e.0 < e.1 < n && Variable(n, e.0, e.1) in model
    decreases n - u
  {
    if u < n {
      RowEdgesMembers(n, model, u, u + 1, e);
      DecodedEdgesMembers(n, model, u + 1, e);
    }
  }

  ghost predicate Distinct(s: seq<(int, int)>) {
    forall i, j :: 0 <= i < j < |s| ==> s[i] != s[j]
  }

  lemma DistinctConcat(a: seq<(int, int)>, b: seq<(int, int)>)
    requires Distinct(a) && Distinct(b)
    requires forall e :: e in a ==> e !in b
    ensures Distinct(a + b)
  {
    var c := a + b;
    forall i, j | 0 <= i < j < |c|
      ensures c[i] != c[j]
    {
      if i < |a| && j >= |a| {
        assert c[i] in a && c[j] in b;
      }
    }
  }

  lemma {:induction false} RowEdgesDistinct(n: nat, model: seq<int>, u: nat, v: nat)
    requires u < v <= n
    ensures Distinct(RowEdges(n, model, u, v))
    decreases n - v
  {
    if v < n {
      RowEdgesDistinct(n, model, u, v + 1);
      RowEdgesMembers(n, model, u, v + 1, (u, v));
      DistinctConcat(if Variable(n, u, v) in model then [(u, v)] else [], RowEdges(n, model, u, v + 1));
    }
  }

  lemma {:induction false} DecodedEdgesDistinct(n: nat, model: seq<int>, u: nat)
    requires u <= n
    ensures Distinct(DecodedEdges(n, model, u))
    decreases n - u
  {
    if u < n {
      RowEdgesDistinct(n, model, u, u + 1);
      DecodedEdgesDistinct(n, model, u + 1);
      var row, rest := RowEdges(n, model, u, u + 1), DecodedEdges(n, model, u + 1);
      forall e | e in row
        ensures e !in rest
      {
        RowEdgesMembers(n, model, u, u + 1, e);
        DecodedEdgesMembers(n, model, u + 1, e);
      }
      DistinctConcat(row, rest);
    }
  }

  lemma {:induction false} OrderedEdgesAccepted(n: nat, edges: seq<(int, int)>, k: nat)
    requires k <= |edges| && Distinct(edges)
    requires forall i :: 0 <= i < |edges| ==> 0 <= edges[i].0 < edges[i].1 < n
    ensures EdgeListFault(n, edges, k) == None
    decreases |edges| - k
  {
    if k < |edges| {
      OrderedEdgesAccepted(n, edges, k + 1);
    }
  }

  /** The decoded graph has exactly the edges whose variable is a positive literal; decoding never fails. */
  method DecodeModel(n: nat, model: seq<int>) returns (g: Graph)
    ensures g.n == n
    ensures forall u, v :: 0 <= u < n && 0 <= v < n && u != v ==> (Edge(g, u, v) <==> Variable(n, u, v) in model)
  {
    var edges := DecodedEdges(n, model, 0);
    forall i | 0 <= i < |edges|
      ensures 0 <= edges[i].0 < edges[i].1 < n
    {
      DecodedEdgesMembers(n, model, 0, edges[i]);
    }
    DecodedEdgesDistinct(n, model, 0);
    OrderedEdgesAccepted(n, edges, 0);
    var built := FromEdges(n, edges);
    g := built.value;
    forall u, v | 0 <= u < n && 0 <= v < n && u != v
      ensures Edge(g, u, v) <==> Variable(n, u, v) in model
    {
      DecodedEdgesMembers(n, model, 0, (u, v));
      DecodedEdgesMembers(n, model, 0, (v, u));
      assert Variable(n, u, v) == Variable(n, v, u);
    }
  }
}
