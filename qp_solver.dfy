/**
 * The active-set QP solver: construction (classification and the
 * free-Hessian graph), one iteration on the working graph and the current
 * solution, and the outer loop. Solving a linear factor graph
 * (GaussianFactorGraph::optimize) is the parameter `solve`, converting a
 * Jacobian to a HessianFactor is `convert`, and comparing two solutions
 * up to 1e-5 (VectorValues::equals) is `approxEqual`.
 */
module QPSolver {
  import opened LinAlg
  import opened Graphs
  import opened Classifier
  import opened FreeHessians
  import opened DualGraph
  import opened Selection
  import opened WorkingSet

  /** What the solver keeps after construction; it never changes afterwards. */
  datatype Solver = Solver(graph: Graph, constraintIndices: seq<nat>, constrainedVars: set<nat>, freeHessians: Graph)

  /** The constructor's classification of the problem graph. */
  ghost predicate Classified(qp: Solver) {
    && (forall i :: 0 <= i < |qp.graph| ==> (i in qp.constraintIndices <==> IsConstrained(qp.graph[i])))
    && (forall t :: 0 <= t < |qp.constraintIndices| ==> qp.constraintIndices[t] < |qp.graph|)
    && Increasing(qp.constraintIndices)
    && IsConstrainedVarsOf(qp.constrainedVars, qp.graph, qp.constraintIndices)
  }

  ghost predicate Valid(qp: Solver, convert: Factor -> Quadratic) {
    Classified(qp) && qp.freeHessians == FreeHessians.FreeHessians(qp.graph, qp.constrainedVars, convert)
  }

  /** QPSolver::QPSolver(graph). */
  method NewQPSolver(graph: Graph, convert: Factor -> Quadratic) returns (qp: Solver)
    ensures qp.graph == graph && Valid(qp, convert)
  {
    var constraintIndices := CollectConstraintIndices(graph);
    var constrainedVars := CollectConstrainedVars(graph, constraintIndices);
    var freeHessians := UnconstrainedHessiansOfConstrainedVars(graph, constrainedVars, convert);
    qp := Solver(graph, constraintIndices, constrainedVars, freeHessians);
  }

  /** Two increasing sequences with the same elements are equal. */
  lemma {:induction false} IncreasingUnique(s: seq<nat>, t: seq<nat>)
    requires Increasing(s) && Increasing(t)
    requires forall x :: x in s <==> x in t
    ensures s == t
  {
    IncreasingPairs(s);
    IncreasingPairs(t);
    if s != [] && t != [] {
      IncreasingPairs(s[1..]);
      IncreasingPairs(t[1..]);
      assert s[0] == t[0] by {
        assert s[0] in t && t[0] in s;
      }
      forall x ensures x in s[1..] <==> x in t[1..] {
        if x in s[1..] {
          assert x in t && x > s[0];
        }
        if x in t[1..] {
          assert x in s && x > t[0];
        }
      }
      IncreasingUnique(s[1..], t[1..]);
      assert s == [s[0]] + s[1..] && t == [t[0]] + t[1..];
    } else {
      FirstIn(s);
      FirstIn(t);
    }
  }

  lemma FirstIn(s: seq<nat>)
    ensures |s| > 0 ==> s[0] in s
  {
  }

  /** The classification is a function of the graph: two classified solvers of one graph agree on it. */
  lemma ClassificationUnique(a: Solver, b: Solver)
    requires Classified(a) && Classified(b) && a.graph == b.graph
    ensures a.constraintIndices == b.constraintIndices
    ensures a.constrainedVars == b.constrainedVars
  {
    forall x ensures x in a.constraintIndices <==> x in b.constraintIndices {
      if x in a.constraintIndices {
        var t :| 0 <= t < |a.constraintIndices| && a.constraintIndices[t] == x;
      }
      if x in b.constraintIndices {
        var t :| 0 <= t < |b.constraintIndices| && b.constraintIndices[t] == x;
      }
    }
    IncreasingUnique(a.constraintIndices, b.constraintIndices);
  }

  // ------------------------------------------------------------------
  // One iteration

  /** The current solution, updated in place by each iteration. */
  class Solution {
    var values: Values

    constructor (initials: Values)
      ensures values == initials
    {
      values := initials;
    }
  }

  /** The multipliers at a candidate solution: the solve of the dual graph built there. */
  function Multipliers(qp: Solver, solve: Graph -> Values, working: Graph, x: Values): Values {
    solve(DualGraphOf(qp.graph, qp.freeHessians, working, x, false))
  }

  /** No inequality row of the problem has a positive multiplier. */
  ghost predicate NoViolation(qp: Solver, lambdas: Values) {
    forall f: nat, s: nat :: IsRow(qp.graph, qp.constraintIndices, f, s) && SigmaOf(qp.graph, (f, s)) < 0.0 ==>
      Lambda(lambdas, (f, s)) <= 0.0
  }

  /**
   * The optimality certificate of the active-set method: the working
   * graph's solution does not move away from x, and no inequality row of
   * the problem has a positive multiplier there.
   */
  ghost predicate Optimal(qp: Solver, solve: Graph -> Values, approxEqual: (Values, Values) -> bool,
                          working: Graph, x: Values)
  {
    approxEqual(solve(working), x) && NoViolation(qp, Multipliers(qp, solve, working, solve(working)))
  }

  /** iterateInPlace as a value: the next working graph, the next solution and whether the solver has converged. */
  function Iterate(qp: Solver, solve: Graph -> Values, approxEqual: (Values, Values) -> bool,
                   working: Graph, x: Values): (Graph, Values, bool)
  {
    var newSolution := solve(working);
    if approxEqual(newSolution, x) then
      var w := WorstViolated(qp.graph, qp.constraintIndices, Multipliers(qp, solve, working, newSolution));
      if w.factorIx < 0 || w.sigmaIx < 0 then (working, x, true)
      else (SetSigma(working, w.factorIx, w.sigmaIx, -1.0), x, false)
    else
      var p := ValuesSub(newSolution, x);
      var c := StepSize(working, qp.constraintIndices, x, p);
      var next := if c.factorIx < 0 || c.sigmaIx < 0 then working else SetSigma(working, c.factorIx, c.sigmaIx, 0.0);
      (next, ValuesAdd(x, ValuesScale(c.value, p)), false)
  }

  /** A row the worst-violation scan reports is an inequality row of a constraint factor, present in the working graph. */
  lemma WorstRowInWorking(qp: Solver, working: Graph, lambdas: Values)
    requires Classified(qp) && WorkingInvariant(qp.graph, working)
    ensures var w := WorstViolated(qp.graph, qp.constraintIndices, lambdas);
      w.factorIx >= 0 && w.sigmaIx >= 0 ==>
        && w.factorIx < |qp.graph| && IsConstrained(qp.graph[w.factorIx])
        && w.sigmaIx < |Sigmas(qp.graph[w.factorIx])| && Sigmas(qp.graph[w.factorIx])[w.sigmaIx] < 0.0
        && HasRow(working, w.factorIx, w.sigmaIx)
  {
    var w := WorstViolated(qp.graph, qp.constraintIndices, lambdas);
    WorstViolatedSpec(qp.graph, qp.constraintIndices, lambdas);
    if w.factorIx >= 0 && w.sigmaIx >= 0 {
      var f: nat := w.factorIx;
      var t :| 0 <= t < |qp.constraintIndices| && qp.constraintIndices[t] == f;
      WorkingShape(qp.graph, working, f);
    }
  }

  /** A row the step-size scan reports is an inactive row of the working graph and an inequality row of the problem. */
  lemma StepRowInWorking(qp: Solver, working: Graph, x: Values, p: Values)
    requires Classified(qp) && WorkingInvariant(qp.graph, working)
    ensures var c := StepSize(working, qp.constraintIndices, x, p);
      c.factorIx >= 0 && c.sigmaIx >= 0 ==>
        && c.factorIx < |qp.graph| && IsConstrained(qp.graph[c.factorIx])
        && c.sigmaIx < |Sigmas(qp.graph[c.factorIx])| && Sigmas(qp.graph[c.factorIx])[c.sigmaIx] < 0.0
        && HasRow(working, c.factorIx, c.sigmaIx)
  {
    var c := StepSize(working, qp.constraintIndices, x, p);
    StepSizeSpec(working, qp.constraintIndices, x, p);
    if c.factorIx >= 0 && c.sigmaIx >= 0 {
      var f: nat, s: nat := c.factorIx, c.sigmaIx;
      var t :| 0 <= t < |qp.constraintIndices| && qp.constraintIndices[t] == f;
      WorkingShape(qp.graph, working, f);
      WorkingInequality(qp.graph, working, f, s);
    }
  }

  /** An iteration keeps the working graph a copy of the problem graph with inequality rows switched. */
  lemma IterateKeepsInvariant(qp: Solver, solve: Graph -> Values, approxEqual: (Values, Values) -> bool,
                              working: Graph, x: Values)
    requires Classified(qp) && WorkingInvariant(qp.graph, working)
    ensures WorkingInvariant(qp.graph, Iterate(qp, solve, approxEqual, working, x).0)
  {
    var newSolution := solve(working);
    if approxEqual(newSolution, x) {
      var lambdas := Multipliers(qp, solve, working, newSolution);
      var w := WorstViolated(qp.graph, qp.constraintIndices, lambdas);
      WorstRowInWorking(qp, working, lambdas);
      if w.factorIx >= 0 && w.sigmaIx >= 0 {
        WorkingInvariantSet(qp.graph, working, w.factorIx, w.sigmaIx, -1.0);
      }
    } else {
      var p := ValuesSub(newSolution, x);
      var c := StepSize(working, qp.constraintIndices, x, p);
      StepRowInWorking(qp, working, x, p);
      if c.factorIx >= 0 && c.sigmaIx >= 0 {
        WorkingInvariantSet(qp.graph, working, c.factorIx, c.sigmaIx, 0.0);
      }
    }
  }

  method IterateInPlace(qp: Solver, solve: Graph -> Values, approxEqual: (Values, Values) -> bool,
                        workingGraph: WorkingGraph, currentSolution: Solution)
    returns (converged: bool)
    requires Classified(qp) && WorkingInvariant(qp.graph, workingGraph.factors)
    modifies workingGraph, currentSolution
    ensures (workingGraph.factors, currentSolution.values, converged) ==
      Iterate(qp, solve, approxEqual, old(workingGraph.factors), old(currentSolution.values))
    ensures WorkingInvariant(qp.graph, workingGraph.factors)
    ensures converged ==> Optimal(qp, solve, approxEqual, workingGraph.factors, currentSolution.values)
  {
    IterateKeepsInvariant(qp, solve, approxEqual, workingGraph.factors, currentSolution.values);
    IterateConverged(qp, solve, approxEqual, workingGraph.factors, currentSolution.values);
    // the solution of the current working graph
    var newSolution := solve(workingGraph.factors);
    if approxEqual(newSolution, currentSolution.values) {
      // no move possible: the multipliers come from the dual graph
      var dualGraph := BuildDualGraph(qp.graph, qp.freeHessians, workingGraph.factors, newSolution, false);
      var lambdas := solve(dualGraph);
      WorstRowInWorking(qp, workingGraph.factors, lambdas);
      var factorIx, sigmaIx := FindWorstViolatedActiveIneq(qp.graph, qp.constraintIndices, lambdas);
      // deactivate the worst violated inequality; with none left, this is the solution
      var updated := UpdateWorkingSetInPlace(workingGraph, factorIx, sigmaIx, -1.0);
      if !updated {
        return true;
      }
    } else {
      // a move is possible: shorten it to the first inactive inequality it would cross
      var p := ValuesSub(newSolution, currentSolution.values);
      StepRowInWorking(qp, workingGraph.factors, currentSolution.values, p);
      var alpha, factorIx, sigmaIx := ComputeStepSize(workingGraph.factors, qp.constraintIndices, currentSolution.values, p);
      // and make that inequality active
      var added := UpdateWorkingSetInPlace(workingGraph, factorIx, sigmaIx, 0.0);
      currentSolution.values := ValuesAdd(currentSolution.values, ValuesScale(alpha, p));
    }
    return false;
  }

  /**
   * An iteration reports convergence exactly when the working graph's
   * solution does not move away from the current one and no inequality row
   * has a positive multiplier there; it then changes neither the working
   * graph nor the solution.
   */
  lemma IterateConverged(qp: Solver, solve: Graph -> Values, approxEqual: (Values, Values) -> bool,
                         working: Graph, x: Values)
    requires Classified(qp)
    ensures Iterate(qp, solve, approxEqual, working, x).2 <==> Optimal(qp, solve, approxEqual, working, x)
    ensures Iterate(qp, solve, approxEqual, working, x).2 ==>
      Iterate(qp, solve, approxEqual, working, x).0 == working && Iterate(qp, solve, approxEqual, working, x).1 == x
  {
    var newSolution := solve(working);
    var lambdas := Multipliers(qp, solve, working, newSolution);
    WorstViolatedSpec(qp.graph, qp.constraintIndices, lambdas);
  }

  /**
   * Without a move, an iteration that does not converge keeps the solution
   * and sets to -1 the sigma of an inequality row with the largest positive
   * multiplier.
   */
  lemma IterateDeactivates(qp: Solver, solve: Graph -> Values, approxEqual: (Values, Values) -> bool,
                           working: Graph, x: Values)
    requires Classified(qp) && WorkingInvariant(qp.graph, working)
    requires approxEqual(solve(working), x) && !Iterate(qp, solve, approxEqual, working, x).2
    ensures Iterate(qp, solve, approxEqual, working, x).1 == x
    ensures exists f: nat, s: nat ::
      && IsRow(qp.graph, qp.constraintIndices, f, s) && SigmaOf(qp.graph, (f, s)) < 0.0
      && Lambda(Multipliers(qp, solve, working, solve(working)), (f, s)) > 0.0
      && HasRow(working, f, s)
      && Iterate(qp, solve, approxEqual, working, x).0 == SetSigma(working, f, s, -1.0)
  {
    var lambdas := Multipliers(qp, solve, working, solve(working));
    var w := WorstViolated(qp.graph, qp.constraintIndices, lambdas);
    WorstViolatedSpec(qp.graph, qp.constraintIndices, lambdas);
    WorstRowInWorking(qp, working, lambdas);
    var f: nat, s: nat := w.factorIx, w.sigmaIx;
    assert IsRow(qp.graph, qp.constraintIndices, f, s) && SigmaOf(qp.graph, (f, s)) < 0.0;
  }

  /**
   * With a move, an iteration never converges; the solution becomes
   * x + alpha * (x* - x) for the step size alpha <= 1, and the working graph
   * is unchanged or has the sigma of the blocking inactive inequality set
   * to 0.
   */
  lemma IterateSteps(qp: Solver, solve: Graph -> Values, approxEqual: (Values, Values) -> bool,
                     working: Graph, x: Values)
    requires Classified(qp) && WorkingInvariant(qp.graph, working)
    requires !approxEqual(solve(working), x)
    ensures var r := Iterate(qp, solve, approxEqual, working, x);
      var p := ValuesSub(solve(working), x);
      var c := StepSize(working, qp.constraintIndices, x, p);
      && !r.2
      && c.value <= 1.0
      && r.1 == ValuesAdd(x, ValuesScale(c.value, p))
      && (r.0 == working <==> c.factorIx == -1)
      && (c.factorIx != -1 ==>
            && c.factorIx >= 0 && c.sigmaIx >= 0
            && Blocking(working, p, (c.factorIx, c.sigmaIx))
            && r.0 == SetSigma(working, c.factorIx, c.sigmaIx, 0.0)
            && Sigmas(r.0[c.factorIx])[c.sigmaIx] == 0.0)
  {
    var p := ValuesSub(solve(working), x);
    var c := StepSize(working, qp.constraintIndices, x, p);
    StepSizeSpec(working, qp.constraintIndices, x, p);
    StepRowInWorking(qp, working, x, p);
    if c.factorIx != -1 {
      SetSigmaFrame(working, c.factorIx, c.sigmaIx, 0.0);
      assert Blocking(working, p, (c.factorIx, c.sigmaIx));
      assert SigmaOf(working, (c.factorIx, c.sigmaIx)) < 0.0;
    }
  }

  // ------------------------------------------------------------------
  // The outer loop

  /** iterateInPlace as a step of the outer loop. */
  function IterateStep(qp: Solver, solve: Graph -> Values, approxEqual: (Values, Values) -> bool)
    : (Graph, Values) -> (Graph, Values, bool)
  {
    (working: Graph, x: Values) => Iterate(qp, solve, approxEqual, working, x)
  }

  /**
   * The state of the outer loop after at most n passes of `step` from the
   * given working graph and solution: the passes stop at the first that
   * reports convergence, and the state stays as it was from then on.
   */
  function Run(step: (Graph, Values) -> (Graph, Values, bool), working: Graph, x: Values, n: nat)
    : (Graph, Values, bool)
  {
    if n == 0 then (working, x, false)
    else
      var r := Run(step, working, x, n - 1);
      if r.2 then r else step(r.0, r.1)
  }

  /** Once the loop has converged, further passes change nothing. */
  lemma {:induction false} RunStaysConverged(step: (Graph, Values) -> (Graph, Values, bool),
                                             working: Graph, x: Values, n: nat, m: nat)
    requires n <= m && Run(step, working, x, n).2
    ensures Run(step, working, x, m) == Run(step, working, x, n)
    decreases m
  {
    if m > n {
      RunStaysConverged(step, working, x, n, m - 1);
    }
  }

  /** The loop has not converged before its first converging pass: the converged state is reached by a step. */
  lemma {:induction false} RunConvergesByStep(step: (Graph, Values) -> (Graph, Values, bool),
                                              working: Graph, x: Values, n: nat)
    requires Run(step, working, x, n).2
    ensures exists k :: 0 <= k < n && !Run(step, working, x, k).2 &&
                        Run(step, working, x, n) == step(Run(step, working, x, k).0, Run(step, working, x, k).1)
  {
    var r := Run(step, working, x, n - 1);
    if r.2 {
      RunConvergesByStep(step, working, x, n - 1);
      var k :| 0 <= k < n - 1 && !Run(step, working, x, k).2 &&
        r == step(Run(step, working, x, k).0, Run(step, working, x, k).1);
    } else {
      assert !Run(step, working, x, n - 1).2;
    }
  }

  /**
   * QPSolver::optimize(initials), stopped after `fuel` iterations when it
   * has not converged by then; `iterations` is how many it ran.
   */
  method Optimize(qp: Solver, solve: Graph -> Values, approxEqual: (Values, Values) -> bool,
                  initials: Values, fuel: nat)
    returns (x: Values, converged: bool, iterations: nat)
    requires Classified(qp)
    ensures iterations <= fuel && (converged || iterations == fuel)
    ensures x == Run(IterateStep(qp, solve, approxEqual), qp.graph, initials, iterations).1
    ensures converged == Run(IterateStep(qp, solve, approxEqual), qp.graph, initials, iterations).2
    ensures var r := Run(IterateStep(qp, solve, approxEqual), qp.graph, initials, iterations);
      converged ==> WorkingInvariant(qp.graph, r.0) && Optimal(qp, solve, approxEqual, r.0, x)
  {
    var workingGraph := new WorkingGraph.Clone(qp.graph);
    var currentSolution := new Solution(initials);
    WorkingInvariantInit(qp.graph);
    converged := false;
    iterations := 0;
    while !converged && iterations < fuel
      invariant iterations <= fuel
      invariant WorkingInvariant(qp.graph, workingGraph.factors)
      invariant Run(IterateStep(qp, solve, approxEqual), qp.graph, initials, iterations) ==
        (workingGraph.factors, currentSolution.values, converged)
      invariant converged ==> Optimal(qp, solve, approxEqual, workingGraph.factors, currentSolution.values)
      decreases fuel - iterations
    {
      converged := IterateInPlace(qp, solve, approxEqual, workingGraph, currentSolution);
      iterations := iterations + 1;
    }
    x := currentSolution.values;
  }

  /**
   * A problem without constraint factors converges within two iterations:
   * at once when the initial values already solve the graph, otherwise
   * after one full step onto the graph's solution.
   */
  lemma UnconstrainedConverges(qp: Solver, solve: Graph -> Values, approxEqual: (Values, Values) -> bool,
                               initials: Values)
    requires Classified(qp) && qp.constraintIndices == []
    requires SameStructure(initials, solve(qp.graph)) && approxEqual(solve(qp.graph), solve(qp.graph))
    ensures Run(IterateStep(qp, solve, approxEqual), qp.graph, initials, 2) ==
      if approxEqual(solve(qp.graph), initials) then (qp.graph, initials, true)
      else (qp.graph, solve(qp.graph), true)
  {
    var g := qp.graph;
    var step := IterateStep(qp, solve, approxEqual);
    assert Run(step, g, initials, 0) == (g, initials, false);
    if !approxEqual(solve(g), initials) {
      var p := ValuesSub(solve(g), initials);
      assert StepSize(g, [], initials, p) == Choice(-1, -1, 1.0);
      FullStepReachesTarget(initials, solve(g));
      assert Iterate(qp, solve, approxEqual, g, initials) == (g, solve(g), false);
      assert Run(step, g, initials, 1) == (g, solve(g), false);
      assert WorstViolated(g, [], Multipliers(qp, solve, g, solve(g))) == Choice(-1, -1, 0.0);
      assert Iterate(qp, solve, approxEqual, g, solve(g)) == (g, solve(g), true);
    } else {
      assert WorstViolated(g, [], Multipliers(qp, solve, g, initials)) == Choice(-1, -1, 0.0);
      assert Run(step, g, initials, 1) == (g, initials, true);
    }
  }
}
