/** The refinement loop: solve the clauses, decode the model, and learn a clause from what is wrong with it. */
module Cegar {
  import opened Outcomes
  import opened Graphs
  import opened Cycles
  import opened Verify
  import opened EdgeVariables
  import opened BaseCnf
  import opened Components
  import Relabel
  import Dpll

  datatype Learned = Connectedness(clause: Clause) | CycleCut(vertices: seq<nat>, clause: Clause)

  datatype Outcome =
    | UnsatGroundTruth(iterations: nat, learned: seq<Learned>)
    | SatCandidate(iterations: nat, graph: Graph, learned: seq<Learned>)

  // ---------- what a learned record says ----------

  /** A clause that holds of exactly the graphs with an edge leaving a nonempty proper vertex set. */
  ghost predicate CutsSet(n: nat, inside: set<nat>, c: Clause) {
    && inside != {} && inside < Vertices(n)
    && forall g: Graph, A: Valuation :: g.n == n && Describes(A, g) ==> (ClauseTrue(A, c) <==> !Closed(g, inside))
  }

  /** A clause that holds of exactly the graphs that miss an edge of a cycle of a forbidden length. */
  ghost predicate CutsCycle(n: nat, vertices: seq<nat>, c: Clause) {
    && IsWitness(n, vertices) && ForbiddenLength(n, |vertices|)
    && forall g: Graph, A: Valuation :: g.n == n && Describes(A, g) ==> (ClauseTrue(A, c) <==> !IsCycle(g, vertices))
  }

  /** The record tells what its clause forbids: a set of vertices that is shut off, or its own cycle. */
  ghost predicate RecordHolds(n: nat, l: Learned) {
    match l
    case Connectedness(c) => exists inside: set<nat> :: CutsSet(n, inside, c)
    case CycleCut(vertices, c) => CutsCycle(n, vertices, c)
  }

  /** The record is about this graph: the component of vertex 0 when it is disconnected, otherwise one of its
      cycles. */
  ghost predicate FaultOf(g: Graph, l: Learned) {
    match l
    case Connectedness(c) =>
      !Connected(g) && exists inside: set<nat> :: CutsSet(g.n, inside, c) && IsComponent(g, inside) && 0 in inside
    case CycleCut(vertices, c) => Connected(g) && IsCycle(g, vertices)
  }

  ghost predicate ModelOf(g: Graph, n: nat, clauses: Cnf) {
    g.n == n && exists A: Valuation :: Describes(A, g) && CnfTrue(A, clauses)
  }

  /** The record was learned from a model of the clauses before it. */
  ghost predicate LearnedFrom(n: nat, clauses: Cnf, l: Learned) {
    exists g: Graph :: ModelOf(g, n, clauses) && FaultOf(g, l)
  }

  ghost function ClausesOf(learned: seq<Learned>): (f: Cnf)
    ensures |f| == |learned|
  {
    seq(|learned|, i requires 0 <= i < |learned| => learned[i].clause)
  }

  /** Every record holds, no counterexample breaks its clause, and it was learned from a model of the base
      clauses and the clauses of the records before it. */
  ghost predicate LogHolds(n: nat, base: Cnf, learned: seq<Learned>) {
    forall i :: 0 <= i < |learned| ==>
                  && RecordHolds(n, learned[i]) && LearnedHolds(n, learned[i])
                  && LearnedFrom(n, base + ClausesOf(learned[..i]), learned[i])
  }

  lemma LogGrows(n: nat, base: Cnf, learned: seq<Learned>, l: Learned)
    requires LogHolds(n, base, learned)
    requires RecordHolds(n, l) && LearnedHolds(n, l) && LearnedFrom(n, base + ClausesOf(learned), l)
    ensures LogHolds(n, base, learned + [l])
    ensures base + ClausesOf(learned + [l]) == base + ClausesOf(learned) + [l.clause]
  {
    hide RecordHolds, LearnedHolds, LearnedFrom;
    var log := learned + [l];
    assert ClausesOf(log) == ClausesOf(learned) + [l.clause];
    forall i | 0 <= i < |log|
      ensures RecordHolds(n, log[i]) && LearnedHolds(n, log[i])
      ensures LearnedFrom(n, base + ClausesOf(log[..i]), log[i])
    {
      if i < |learned| {
        assert log[..i] == learned[..i];
      } else {
        assert log[..i] == learned;
      }
    }
  }

  // ---------- what the loop keeps ----------

  /** The loop never loses a counterexample: every one on n vertices with the edge {0, 1} satisfies all the
      clauses, learned ones included. */
  ghost predicate KeepsCounterexamples(n: nat, clauses: Cnf) {
    forall g: Graph :: g.n == n && Counterexample(g) && Edge(g, 0, 1) ==> CnfTrue(ValuationOf(g), clauses)
  }

  /** The assignments of the edge variables that satisfy the clauses: the loop's decreasing measure. */
  ghost function Models(n: nat, clauses: Cnf): set<Valuation> {
    set A | A <= Vertices(VariableCount(n) + 1) && CnfTrue(A, clauses)
  }

  lemma BaseKeepsCounterexamples(n: nat)
    requires n >= 4
    ensures KeepsCounterexamples(n, BaseClauses(n))
  {
    forall g: Graph | g.n == n && Counterexample(g) && Edge(g, 0, 1)
      ensures CnfTrue(ValuationOf(g), BaseClauses(n))
    {
      BaseClausesMeaning(g, ValuationOf(g));
    }
  }

  /** A learned clause no counterexample breaks, whatever its edges. */
  ghost predicate LearnedHolds(n: nat, l: Learned) {
    forall g: Graph :: g.n == n && Counterexample(g) ==> ClauseTrue(ValuationOf(g), l.clause)
  }

  /** A connectedness clause is satisfied by every counterexample ... */
  lemma CutHolds(n: nat, component: set<nat>)
    requires component != {} && component < Vertices(n)
    ensures CutsSet(n, component, ConnectednessClause(n, component))
    ensures LearnedHolds(n, Connectedness(ConnectednessClause(n, component)))
  {
    var c := ConnectednessClause(n, component);
    forall g: Graph, A: Valuation | g.n == n && Describes(A, g)
      ensures ClauseTrue(A, c) <==> !Closed(g, component)
    {
      ConnectednessClauseMeaning(g, A, component);
    }
    forall g: Graph | g.n == n && Counterexample(g)
      ensures ClauseTrue(ValuationOf(g), c)
    {
      var A := ValuationOf(g);
      assert Describes(A, g);
      var inside :| inside in component;
      var outside :| outside in Vertices(n) - component;
      if Closed(g, component) {
        ClosedProperSetDisconnects(g, component, inside, outside);
      }
    }
  }

  /** ... and so is the clause of a forbidden cycle. */
  lemma CycleHolds(n: nat, cycle: seq<nat>)
    requires IsWitness(n, cycle) && ForbiddenLength(n, |cycle|)
    ensures CutsCycle(n, cycle, CycleClause(n, cycle))
    ensures LearnedHolds(n, CycleCut(cycle, CycleClause(n, cycle)))
  {
    var c := CycleClause(n, cycle);
    forall g: Graph, A: Valuation | g.n == n && Describes(A, g)
      ensures ClauseTrue(A, c) <==> !IsCycle(g, cycle)
    {
      CycleClauseMeaning(g, A, cycle);
    }
    forall g: Graph | g.n == n && Counterexample(g)
      ensures ClauseTrue(ValuationOf(g), c)
    {
      var A := ValuationOf(g);
      assert Describes(A, g);
      assert IsCycle(g, cycle) ==> HasCycle(g, |cycle|);
    }
  }

  lemma LearningKeepsCounterexamples(n: nat, clauses: Cnf, l: Learned)
    requires KeepsCounterexamples(n, clauses) && LearnedHolds(n, l)
    ensures KeepsCounterexamples(n, clauses + [l.clause])
  {
  }

  /** Adding a clause that the current model breaks strictly shrinks the set of models. */
  lemma LearningShrinks(n: nat, clauses: Cnf, c: Clause, A: Valuation)
    requires A in Models(n, clauses) && !ClauseTrue(A, c)
    ensures Models(n, clauses + [c]) < Models(n, clauses)
  {
    forall B: Valuation
      ensures CnfTrue(B, clauses + [c]) <==> CnfTrue(B, clauses) && ClauseTrue(B, c)
    {
      CnfAppend(B, clauses, c);
    }
  }

  /** With the clauses unsatisfiable there is no counterexample at all on n vertices: renaming two vertices
      would give one with the edge {0, 1}. */
  lemma UnsatMeansNoCounterexample(n: nat, clauses: Cnf)
    requires KeepsCounterexamples(n, clauses) && Dpll.Unsatisfiable(clauses)
    ensures forall g: Graph :: g.n == n ==> !Counterexample(g)
  {
    forall g: Graph | g.n == n
      ensures !Counterexample(g)
    {
      if Counterexample(g) {
        var h := Relabel.EdgeZeroOne(g);
        var A := ValuationOf(h);
      }
    }
  }

  /** The true variables of a model, as the solver states them. */
  ghost function TrueVariables(n: nat, model: seq<int>): Valuation {
    set x | 1 <= x <= VariableCount(n) && x in model
  }

  lemma ModelIsCounted(n: nat, clauses: Cnf, model: seq<int>)
    requires CnfTrue((set x | 1 <= x <= VariableCount(n) && x in model), clauses)
    ensures CnfTrue(TrueVariables(n, model), clauses) && TrueVariables(n, model) in Models(n, clauses)
  {
  }

  lemma DecodedDescribes(n: nat, model: seq<int>, g: Graph)
    requires g.n == n
    requires forall u, v :: 0 <= u < n && 0 <= v < n && u != v ==> (Edge(g, u, v) <==> Variable(n, u, v) in model)
    ensures Describes(TrueVariables(n, model), g)
  {
    forall u, v | 0 <= u < n && 0 <= v < n && u != v
      ensures Variable(n, u, v) in TrueVariables(n, model) <==> Edge(g, u, v)
    {
      if u < v {
        VariableInRow(n, u, v);
      } else {
        VariableInRow(n, v, u);
      }
    }
  }

  /** An exact outcome, with a log that proves it. Unsatisfiable: the base clauses and the learned ones have no
      model, and there is no counterexample of the order. Otherwise: a counterexample that is a model of them.
      Each iteration but a final successful one has learned one clause. */
  ghost predicate OutcomeHolds(n: nat, base: Cnf, r: Outcome) {
    && LogHolds(n, base, r.learned)
    && match r
       case UnsatGroundTruth(iterations, learned) =>
         && iterations == |learned|
         && Dpll.Unsatisfiable(base + ClausesOf(learned))
         && forall g: Graph :: g.n == n ==> !Counterexample(g)
       case SatCandidate(iterations, graph, learned) =>
         && iterations == |learned| + 1
         && Counterexample(graph) && ModelOf(graph, n, base + ClausesOf(learned))
  }

  /** The first component of a disconnected graph holds vertex 0. */
  lemma FirstHoldsZero(g: Graph, s: seq<set<nat>>)
    requires Partitions(g, s) && g.n > 0 && |s| > 0
    ensures 0 in s[0]
  {
    assert Covers(s, 0);
    assert IsComponent(g, s[0]);
    assert forall i :: 0 < i < |s| ==> LeastBefore(s[0], s[i]);
  }

  /** Splits the decoded graph, or has it verified: either it is a counterexample, or a record of what is wrong
      with it, whose clause it breaks and no counterexample does. */
  method Examine(n: nat, graph: Graph, ghost A: Valuation) returns (entry: Option<Learned>)
    requires n >= 4 && graph.n == n && Describes(A, graph) && MinimumDegreeThree(graph)
    ensures entry.None? <==> Counterexample(graph)
    ensures entry.Some? ==>
              && RecordHolds(n, entry.value) && FaultOf(graph, entry.value)
              && LearnedHolds(n, entry.value) && !ClauseTrue(A, entry.value.clause)
              && InRange([entry.value.clause], VariableCount(n))
  {
    var components := Split(graph);
    ComponentsDecideConnectedness(graph, components);
    if |components| > 1 {
      entry := Some(Connectedness(ConnectednessClause(n, components[0])));
      FirstHoldsZero(graph, components);
      ConnectednessClauseMeaning(graph, A, components[0]);
      CutHolds(n, components[0]);
    } else {
      var status := VerifyReference(graph);
      if status.Verified? {
        return None;
      }
      // a connected graph of minimum degree three is never reported invalid, so there is a witness
      var built := BuildCycleClause(n, status.cycle);
      entry := Some(CycleCut(status.cycle, built.value));
      CycleClauseMeaning(graph, A, status.cycle);
      CycleHolds(n, status.cycle);
    }
  }

  /** The loop, for every order the clause builder makes sense for. It terminates, and its outcome is exact. */
  method Refine(n: nat, base: Cnf) returns (r: Outcome)
    requires n >= 4 && base == BaseClauses(n)
    ensures OutcomeHolds(n, base, r)
  {
    var clauses := base;
    var learned: seq<Learned> := [];
    var iterations := 0;
    BaseClausesInRange(n);
    BaseKeepsCounterexamples(n);
    hide BaseClauses, VariableCount, LearnedHolds, KeepsCounterexamples, CnfTrue, ClauseTrue, Models;
    hide RecordHolds, FaultOf, LogHolds, Counterexample, Describes, Dpll.Unsatisfiable;
    while true
      invariant InRange(clauses, VariableCount(n))
      invariant KeepsCounterexamples(n, clauses)
      invariant clauses == base + ClausesOf(learned)
      invariant iterations == |learned|
      invariant LogHolds(n, base, learned)
      decreases Models(n, clauses)
    {
      var solved := Dpll.Solve(clauses, VariableCount(n));
      if solved.None? {
        UnsatMeansNoCounterexample(n, clauses);
        return UnsatGroundTruth(iterations, learned);
      }
      iterations := iterations + 1;
      var graph := DecodeModel(n, solved.value);
      ghost var A := TrueVariables(n, solved.value);
      DecodedDescribes(n, solved.value, graph);
      ModelIsCounted(n, clauses, solved.value);
      ModelIsAdmissible(graph, A, clauses);
      var entry := Examine(n, graph, A);
      if entry.None? {
        return SatCandidate(iterations, graph, learned);
      }
      LearningShrinks(n, clauses, entry.value.clause, A);
      LearningKeepsCounterexamples(n, clauses, entry.value);
      LogGrows(n, base, learned, entry.value);
      clauses := clauses + [entry.value.clause];
      learned := learned + [entry.value];
    }
  }

  /** Every model decodes to a graph of minimum degree three with the edge {0, 1}. */
  lemma ModelIsAdmissible(g: Graph, A: Valuation, clauses: Cnf)
    requires Describes(A, g) && g.n >= 4
    requires BaseClauses(g.n) <= clauses && CnfTrue(A, clauses)
    ensures MinimumDegreeThree(g) && Edge(g, 0, 1)
  {
    BaseClausesMeaning(g, A);
    var base := BaseClauses(g.n);
    forall i | 0 <= i < |base|
      ensures ClauseTrue(A, base[i])
    {
      assert base[i] == clauses[i];
    }
  }

  /** The entry point, with its order guards. */
  method TinyCegar(n: int) returns (r: Result<Outcome, OrderError>)
    ensures n > 6 ==> r == Err(TooLarge)
    ensures n < 4 ==> r == Err(TooSmall)
    ensures 4 <= n <= 6 ==> r.Ok? && OutcomeHolds(n, BaseClauses(n), r.value)
  {
    if n > 6 {
      return Err(TooLarge);
    }
    var base := BuildBase(n);
    if base.Err? {
      return Err(base.error);
    }
    var outcome := Refine(n, base.value);
    r := Ok(outcome);
  }
}
