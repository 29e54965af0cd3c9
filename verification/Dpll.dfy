/** The small deterministic DPLL solver. */
module Dpll {
  import opened Outcomes
  import opened EdgeVariables

  type Assignment = map<nat, bool>

  // ---------- simplification ----------

  function SimplifyClause(c: Clause, falseLiteral: int): Clause {
    if c == [] then []
    else (if c[0] == falseLiteral then [] else [c[0]]) + SimplifyClause(c[1..], falseLiteral)
  }

  /** Drops the clauses the literal makes true and strikes its negation from the others. */
  function SimplifyLiteral(f: Cnf, literal: int): Cnf {
    if f == [] then []
    else (if literal in f[0] then [] else [SimplifyClause(f[0], -literal)]) + SimplifyLiteral(f[1..], literal)
  }

  function LiteralOf(variable: nat, value: bool): int {
    if value then variable else -(variable as int)
  }

  function Simplify(f: Cnf, variable: nat, value: bool): Cnf {
    SimplifyLiteral(f, LiteralOf(variable, value))
  }

  function Size(f: Cnf): nat {
    if f == [] then 0 else |f[0]| + Size(f[1..])
  }

  /** Every literal is nonzero, in range, and of a variable not yet assigned. */
  ghost predicate Unassigned(f: Cnf, count: nat, used: set<nat>) {
    InRange(f, count) && forall i, j :: 0 <= i < |f| && 0 <= j < |f[i]| ==> Abs(f[i][j]) !in used
  }

  lemma {:induction false} SimplifyClauseMembers(c: Clause, l: int, x: int)
    ensures x in SimplifyClause(c, l) <==> x in c && x != l
    ensures |SimplifyClause(c, l)| <= |c|
    ensures l in c ==> |SimplifyClause(c, l)| < |c|
  {
    if c != [] {
      SimplifyClauseMembers(c[1..], l, x);
      assert c == [c[0]] + c[1..];
    }
  }

  ghost predicate OccursIn(l: int, f: Cnf) {
    exists i :: 0 <= i < |f| && (l in f[i] || -l in f[i])
  }

  lemma OccursLater(l: int, f: Cnf)
    requires f != [] && OccursIn(l, f)
    ensures l in f[0] || -l in f[0] || OccursIn(l, f[1..])
  {
    var i :| 0 <= i < |f| && (l in f[i] || -l in f[i]);
    if i > 0 {
      assert f[i] == f[1..][i - 1];
    }
  }

  lemma SizeCons(c: Clause, rest: Cnf)
    ensures Size([c] + rest) == |c| + Size(rest)
  {
    assert ([c] + rest)[1..] == rest;
  }

  lemma SizeSplit(f: Cnf, l: int)
    requires f != []
    ensures Size(f) == |f[0]| + Size(f[1..])
    ensures Size(SimplifyLiteral(f, l))
         == Size(SimplifyLiteral(f[1..], l)) + if l in f[0] then 0 else |SimplifyClause(f[0], -l)|
  {
    hide Size, SimplifyClause;
    var d, rest := SimplifyClause(f[0], -l), SimplifyLiteral(f[1..], l);
    assert f == [f[0]] + f[1..];
    SizeCons(f[0], f[1..]);
    SizeCons(d, rest);
    assert [] + rest == rest;
  }

  /** Simplifying by an occurring variable strictly shrinks the clauses. */
  lemma {:induction false} SimplifyShrinks(f: Cnf, l: int)
    ensures Size(SimplifyLiteral(f, l)) <= Size(f)
    ensures OccursIn(l, f) ==> Size(SimplifyLiteral(f, l)) < Size(f)
  {
    if f != [] {
      SimplifyShrinks(f[1..], l);
      SimplifyClauseMembers(f[0], -l, 0);
      SizeSplit(f, l);
      if OccursIn(l, f) {
        OccursLater(l, f);
      }
      hide *;
    }
  }

  ghost predicate Holds(A: Valuation, c: Clause) {
    exists x :: x in c && LiteralTrue(A, x)
  }

  lemma HoldsIsClauseTrue(A: Valuation, c: Clause)
    ensures Holds(A, c) <==> ClauseTrue(A, c)
  {
  }

  /** Under a valuation that makes the literal true, simplifying changes no clause list's truth. */
  lemma {:induction false} SimplifyMeaning(A: Valuation, f: Cnf, l: int)
    requires l != 0 && LiteralTrue(A, l)
    ensures CnfTrue(A, SimplifyLiteral(f, l)) <==> CnfTrue(A, f)
  {
    if f != [] {
      SimplifyMeaning(A, f[1..], l);
      var c, d := f[0], SimplifyClause(f[0], -l);
      forall x
        ensures x in d <==> x in c && x != -l
      {
        SimplifyClauseMembers(c, -l, x);
      }
      HoldsIsClauseTrue(A, c);
      HoldsIsClauseTrue(A, d);
      CnfConcat(A, [c], f[1..]);
      assert [c] + f[1..] == f;
      CnfConcat(A, if l in c then [] else [d], SimplifyLiteral(f[1..], l));
      assert CnfTrue(A, [c]) <==> ClauseTrue(A, [c][0]);
      assert CnfTrue(A, [d]) <==> ClauseTrue(A, [d][0]);
    }
  }

  /** After simplifying, the variable is gone and no new literal has appeared. */
  lemma {:induction false} SimplifyUnassigned(f: Cnf, l: int, count: nat, used: set<nat>)
    requires Unassigned(f, count, used) && l != 0
    ensures Unassigned(SimplifyLiteral(f, l), count, used + {Abs(l)})
  {
    if f != [] {
      assert Unassigned(f[1..], count, used) by {
        forall i | 0 <= i < |f[1..]|
          ensures ClauseInRange(f[1..][i], count)
          ensures forall j :: 0 <= j < |f[1..][i]| ==> Abs(f[1..][i][j]) !in used
        {
          assert f[1..][i] == f[i + 1];
        }
      }
      SimplifyUnassigned(f[1..], l, count, used);
      if l !in f[0] {
        var d := SimplifyClause(f[0], -l);
        forall j | 0 <= j < |d|
          ensures 1 <= Abs(d[j]) <= count && Abs(d[j]) !in used + {Abs(l)}
        {
          SimplifyClauseMembers(f[0], -l, d[j]);
          var i :| 0 <= i < |f[0]| && f[0][i] == d[j];
        }
        UnassignedCons(d, SimplifyLiteral(f[1..], l), count, used + {Abs(l)});
      } else {
        assert [] + SimplifyLiteral(f[1..], l) == SimplifyLiteral(f[1..], l);
      }
    }
  }

  lemma UnassignedCons(d: Clause, f: Cnf, count: nat, used: set<nat>)
    requires Unassigned(f, count, used)
    requires forall j :: 0 <= j < |d| ==> 1 <= Abs(d[j]) <= count && Abs(d[j]) !in used
    ensures Unassigned([d] + f, count, used)
  {
  }

  // ---------- choosing the next literal ----------

  function HasEmpty(f: Cnf): (r: bool)
    ensures r <==> exists i :: 0 <= i < |f| && f[i] == []
  {
    exists i :: 0 <= i < |f| && f[i] == []
  }

  /** The literal of the first one-literal clause. */
  function FirstUnit(f: Cnf): (r: Option<int>)
    ensures r.Some? ==> exists i :: 0 <= i < |f| && f[i] == [r.value] && forall j :: 0 <= j < i ==> |f[j]| != 1
    ensures r.None? ==> forall i :: 0 <= i < |f| ==> |f[i]| != 1
  {
    if f == [] then None
    else if |f[0]| == 1 then
      assert f[0] == [f[0][0]];
      Some(f[0][0])
    else
      var r := FirstUnit(f[1..]);
      assert r.Some? ==> exists i :: 0 <= i < |f| && f[i] == [r.value] && forall j :: 0 <= j < i ==> |f[j]| != 1 by {
        if r.Some? {
          var i :| 0 <= i < |f[1..]| && f[1..][i] == [r.value] && forall j :: 0 <= j < i ==> |f[1..][j]| != 1;
          assert f[i + 1] == [r.value];
          assert forall j :: 0 < j < i + 1 ==> f[j] == f[1..][j - 1];
        }
      }
      r
  }

  /** The first of the shortest clauses. */
  function Shortest(f: Cnf): (k: nat)
    requires f != []
    ensures k < |f|
    ensures forall i :: 0 <= i < |f| ==> |f[k]| <= |f[i]|
    ensures forall i :: 0 <= i < k ==> |f[k]| < |f[i]|
  {
    if |f| == 1 then 0
    else
      var k := Shortest(f[1..]) + 1;
      assert forall i :: 1 <= i < |f| ==> f[i] == f[1..][i - 1];
      if |f[0]| <= |f[k]| then 0 else k
  }

  // ---------- the search ----------

  ghost predicate Extends(A: Valuation, a: Assignment) {
    forall x :: x in a ==> (a[x] <==> x in A)
  }

  ghost predicate Included(a: Assignment, b: Assignment) {
    forall x :: x in a ==> x in b && b[x] == a[x]
  }

  ghost predicate KeysInRange(a: Assignment, count: nat) {
    forall x :: x in a ==> 1 <= x <= count
  }

  /** Every valuation that extends the assignment satisfies the clauses. */
  ghost predicate Satisfies(a: Assignment, f: Cnf) {
    forall A :: Extends(A, a) ==> CnfTrue(A, f)
  }

  ghost predicate Unsatisfiable(f: Cnf) {
    forall A :: !CnfTrue(A, f)
  }

  lemma LiteralUnder(A: Valuation, variable: nat, value: bool)
    requires variable > 0
    ensures LiteralTrue(A, LiteralOf(variable, value)) <==> (value <==> variable in A)
  {
  }

  /** A unit clause forces its literal. */
  lemma UnitForced(f: Cnf, unit: int)
    requires unit != 0 && exists i :: 0 <= i < |f| && f[i] == [unit]
    ensures forall A :: CnfTrue(A, f) ==> CnfTrue(A, SimplifyLiteral(f, unit))
  {
    var i :| 0 <= i < |f| && f[i] == [unit];
    forall A | CnfTrue(A, f)
      ensures CnfTrue(A, SimplifyLiteral(f, unit))
    {
      assert ClauseTrue(A, f[i]);
      SimplifyMeaning(A, f, unit);
    }
  }

  /** Assigning the literal carries satisfaction of the simplified clauses back. */
  lemma SatisfiesBack(a: Assignment, f: Cnf, variable: nat, value: bool)
    requires variable > 0 && variable in a && a[variable] == value
    requires Satisfies(a, Simplify(f, variable, value))
    ensures Satisfies(a, f)
  {
    forall A | Extends(A, a)
      ensures CnfTrue(A, f)
    {
      LiteralUnder(A, variable, value);
      SimplifyMeaning(A, f, LiteralOf(variable, value));
    }
  }

  /** A variable's two values cover every valuation. */
  lemma BranchesCover(f: Cnf, variable: nat)
    requires variable > 0
    requires Unsatisfiable(Simplify(f, variable, true)) && Unsatisfiable(Simplify(f, variable, false))
    ensures Unsatisfiable(f)
  {
    forall A
      ensures !CnfTrue(A, f)
    {
      var value := variable in A;
      LiteralUnder(A, variable, value);
      SimplifyMeaning(A, f, LiteralOf(variable, value));
    }
  }

  lemma EmptyClauseFails(f: Cnf)
    requires HasEmpty(f)
    ensures Unsatisfiable(f)
  {
  }

  /** One literal of a clause list: what choosing its variable gives. */
  lemma ChosenLiteral(f: Cnf, i: nat, count: nat, used: set<nat>)
    requires Unassigned(f, count, used) && i < |f| && f[i] != []
    ensures f[i][0] != 0 && 1 <= Abs(f[i][0]) <= count && Abs(f[i][0]) !in used
    ensures OccursIn(f[i][0], f) && OccursIn(-f[i][0], f)
  {
  }

  /** The inner call. Its work list shrinks at every unit step and at every branch. */
  method Recurse(clauses: Cnf, entry: Assignment, ghost count: nat) returns (r: Option<Assignment>)
    requires Unassigned(clauses, count, entry.Keys) && KeysInRange(entry, count)
    ensures r.Some? ==> Included(entry, r.value) && KeysInRange(r.value, count) && Satisfies(r.value, clauses)
    ensures r.None? ==> Unsatisfiable(clauses)
    decreases Size(clauses)
  {
    hide Unsatisfiable, Satisfies, SimplifyLiteral, Size, Unassigned, CnfTrue, OccursIn;
    var current, assignment := clauses, entry;
    while true
      invariant Unassigned(current, count, assignment.Keys) && KeysInRange(assignment, count)
      invariant Included(entry, assignment)
      invariant Size(current) <= Size(clauses)
      invariant Leads(clauses, current, assignment)
      decreases Size(current)
    {
      if HasEmpty(current) {
        EmptyClauseFails(current);
        LeadsUnsat(clauses, current, assignment);
        return None;
      }
      var unit := FirstUnit(current);
      if unit.None? {
        break;
      }
      ghost var i :| 0 <= i < |current| && current[i] == [unit.value];
      var variable, value := Abs(unit.value), unit.value > 0;
      if variable in assignment && assignment[variable] != value {
        // the remaining clauses never mention an assigned variable
        ChosenLiteral(current, i, count, assignment.Keys);
        assert false;
      }
      ChosenLiteral(current, i, count, assignment.Keys);
      ghost var before, beforeAssignment := current, assignment;
      SimplifyShrinks(current, unit.value);
      SimplifyUnassigned(current, unit.value, count, assignment.Keys);
      assert LiteralOf(variable, value) == unit.value;
      assignment := assignment[variable := value];
      current := Simplify(current, variable, value);
      assert assignment.Keys == beforeAssignment.Keys + {variable};
      LeadsUnit(clauses, before, beforeAssignment, unit.value);
    }
    if current == [] {
      LeadsDone(clauses, assignment);
      return Some(assignment);
    }
    var shortest := Shortest(current);
    assert current[shortest] != [];
    ChosenLiteral(current, shortest, count, assignment.Keys);
    var variable := Abs(current[shortest][0]);
    BranchReady(current, variable, true, count, assignment);
    BranchReady(current, variable, false, count, assignment);
    r := Recurse(Simplify(current, variable, true), assignment[variable := true], count);
    if r.Some? {
      SatisfiesBack(r.value, current, variable, true);
      LeadsSat(clauses, current, assignment, r.value);
      return;
    }
    r := Recurse(Simplify(current, variable, false), assignment[variable := false], count);
    if r.Some? {
      SatisfiesBack(r.value, current, variable, false);
      LeadsSat(clauses, current, assignment, r.value);
      return;
    }
    BranchesCover(current, variable);
    LeadsUnsat(clauses, current, assignment);
  }

  /** What the unit steps so far have kept: models of the entry clauses are models of the current ones, and
      satisfying the current ones beyond the assignment satisfies the entry ones. */
  ghost predicate Leads(clauses: Cnf, current: Cnf, assignment: Assignment) {
    && (forall A :: CnfTrue(A, clauses) ==> CnfTrue(A, current))
    && (forall A :: Extends(A, assignment) && CnfTrue(A, current) ==> CnfTrue(A, clauses))
  }

  lemma LeadsUnsat(clauses: Cnf, current: Cnf, assignment: Assignment)
    requires Leads(clauses, current, assignment) && Unsatisfiable(current)
    ensures Unsatisfiable(clauses)
  {
  }

  lemma LeadsSat(clauses: Cnf, current: Cnf, assignment: Assignment, a: Assignment)
    requires Leads(clauses, current, assignment) && Included(assignment, a) && Satisfies(a, current)
    ensures Satisfies(a, clauses)
  {
  }

  lemma LeadsDone(clauses: Cnf, assignment: Assignment)
    requires Leads(clauses, [], assignment)
    ensures Satisfies(assignment, clauses)
  {
  }

  lemma LeadsUnit(clauses: Cnf, current: Cnf, assignment: Assignment, unit: int)
    requires Leads(clauses, current, assignment) && unit != 0 && Abs(unit) !in assignment
    requires exists i :: 0 <= i < |current| && current[i] == [unit]
    ensures Leads(clauses, SimplifyLiteral(current, unit), assignment[Abs(unit) := unit > 0])
  {
    UnitForced(current, unit);
    var b := assignment[Abs(unit) := unit > 0];
    forall A | Extends(A, b) && CnfTrue(A, SimplifyLiteral(current, unit))
      ensures CnfTrue(A, clauses)
    {
      assert Abs(unit) in b;
      assert Extends(A, assignment) by {
        assert forall x :: x in assignment ==> x in b && b[x] == assignment[x];
      }
      SimplifyMeaning(A, current, unit);
    }
  }

  lemma BranchReady(f: Cnf, variable: nat, value: bool, count: nat, a: Assignment)
    requires Unassigned(f, count, a.Keys) && KeysInRange(a, count)
    requires 1 <= variable <= count && variable !in a
    requires OccursIn(variable, f) && OccursIn(-(variable as int), f)
    ensures Size(Simplify(f, variable, value)) < Size(f)
    ensures var b := a[variable := value];
      Unassigned(Simplify(f, variable, value), count, b.Keys) && KeysInRange(b, count) && Included(a, b)
  {
    hide Size, SimplifyLiteral;
    var l := LiteralOf(variable, value);
    SimplifyShrinks(f, l);
    SimplifyUnassigned(f, l, count, a.Keys);
    assert a[variable := value].Keys == a.Keys + {Abs(l)};
  }

  /** The solver's answer: a signed literal for every variable that satisfies the clauses, or None exactly
      when nothing does. */
  method Solve(clauses: Cnf, count: nat) returns (r: Option<seq<int>>)
    requires InRange(clauses, count)
    ensures r.Some? ==> |r.value| == count && forall i :: 0 <= i < count ==> Abs(r.value[i]) == i + 1
    ensures r.Some? ==> CnfTrue((set x | 1 <= x <= count && x in r.value), clauses)
    ensures r.None? <==> Unsatisfiable(clauses)
  {
    var solved := Recurse(clauses, map[], count);
    if solved.None? {
      return None;
    }
    var a := solved.value;
    var model := seq<int>(count, i requires 0 <= i < count =>
      if i + 1 in a && a[i + 1] then i + 1 else -(i + 1));
    ghost var A := set x | 1 <= x <= count && x in model;
    assert Extends(A, a) by {
      forall x | x in a
        ensures a[x] <==> x in A
      {
        assert model[x - 1] == if a[x] then x else -x;
        if x in A {
          var i :| 0 <= i < count && model[i] == x;
        }
      }
    }
    assert CnfTrue(A, clauses);
    r := Some(model);
  }
}
