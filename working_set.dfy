/**
 * The working graph: a copy of the problem graph whose constraint factors
 * have their row sigmas switched as inequalities enter the active set
 * (sigma 0) or leave it (sigma -1). Every other part of every factor stays
 * as it was in the problem graph.
 */
module WorkingSet {
  import opened Graphs

  /** The graph being optimized, updated in place by the solver. */
  class WorkingGraph {
    var factors: Graph

    /** GaussianFactorGraph::clone(). */
    constructor Clone(graph: Graph)
      ensures factors == graph
    {
      factors := graph;
    }
  }

  /** Row s of factor f exists: the factor is there and its diagonal model has at least s + 1 sigmas. */
  predicate HasRow(g: Graph, f: int, s: int) {
    0 <= f < |g| && 0 <= s < |Sigmas(g[f])|
  }

  /**
   * The graph after setModel(true, sigmas) with sigma s of factor f
   * replaced: the factor keeps its keys, blocks and right-hand side and
   * gets a constrained diagonal model (the graph is unchanged when there is
   * no such row).
   */
  function SetSigma(g: Graph, f: int, s: int, v: real): Graph {
    if HasRow(g, f, s) then g[f := g[f].(model := Some(Diagonal(true, Sigmas(g[f])[s := v])))] else g
  }

  method UpdateWorkingSetInPlace(workingGraph: WorkingGraph, factorIx: int, sigmaIx: int, newSigma: real)
    returns (updated: bool)
    requires factorIx < 0 || sigmaIx < 0 || HasRow(workingGraph.factors, factorIx, sigmaIx)
    modifies workingGraph
    ensures updated <==> factorIx >= 0 && sigmaIx >= 0
    ensures workingGraph.factors ==
      if updated then SetSigma(old(workingGraph.factors), factorIx, sigmaIx, newSigma) else old(workingGraph.factors)
  {
    if factorIx < 0 || sigmaIx < 0 {
      return false;
    }
    var jacobian := workingGraph.factors[factorIx];
    var sigmas := Sigmas(jacobian);
    // the new sigma moves the row into or out of the working set
    sigmas := sigmas[sigmaIx := newSigma];
    workingGraph.factors := workingGraph.factors[factorIx := jacobian.(model := Some(Diagonal(true, sigmas)))];
    return true;
  }

  /**
   * Setting a sigma changes that one sigma and nothing else: the other
   * factors, the factor's keys, blocks and right-hand side and its other
   * sigmas are as before, and the factor is now constrained.
   */
  lemma SetSigmaFrame(g: Graph, f: int, s: int, v: real)
    requires HasRow(g, f, s)
    ensures |SetSigma(g, f, s, v)| == |g|
    ensures forall i :: 0 <= i < |g| && i != f ==> SetSigma(g, f, s, v)[i] == g[i]
    ensures IsConstrained(SetSigma(g, f, s, v)[f])
    ensures Keys(SetSigma(g, f, s, v)[f]) == Keys(g[f]) && Rhs(SetSigma(g, f, s, v)[f]) == Rhs(g[f])
    ensures forall j :: BlockAt(SetSigma(g, f, s, v)[f], j) == BlockAt(g[f], j)
    ensures |Sigmas(SetSigma(g, f, s, v)[f])| == |Sigmas(g[f])|
    ensures Sigmas(SetSigma(g, f, s, v)[f])[s] == v
    ensures forall r :: 0 <= r < |Sigmas(g[f])| && r != s ==> Sigmas(SetSigma(g, f, s, v)[f])[r] == Sigmas(g[f])[r]
  {
  }

  /**
   * A working factor against the problem factor it copies: an unconstrained
   * factor is unchanged; a constrained one differs only in its sigmas, and
   * each of those is the original one or, on an inequality row (original
   * sigma below 0), 0 (active) or -1 (inactive).
   */
  predicate Agrees(o: Factor, w: Factor) {
    if !IsConstrained(o) then w == o
    else
      && w == o.(model := Some(Diagonal(true, Sigmas(w))))
      && |Sigmas(w)| == |Sigmas(o)|
      && forall s :: 0 <= s < |Sigmas(o)| ==>
           Sigmas(w)[s] == Sigmas(o)[s] || (Sigmas(o)[s] < 0.0 && (Sigmas(w)[s] == 0.0 || Sigmas(w)[s] == -1.0))
  }

  /** The working graph is the problem graph with some inequality rows switched. */
  predicate WorkingInvariant(original: Graph, working: Graph) {
    |working| == |original| && forall i :: 0 <= i < |original| ==> Agrees(original[i], working[i])
  }

  /** The clone the solver starts from satisfies the invariant. */
  lemma WorkingInvariantInit(original: Graph)
    ensures WorkingInvariant(original, original)
  {
    forall i | 0 <= i < |original| ensures Agrees(original[i], original[i]) {
      if IsConstrained(original[i]) {
        assert original[i].model == Some(Diagonal(true, Sigmas(original[i])));
      }
    }
  }

  /** Switching an inequality row of a constraint factor to 0 or -1 keeps the invariant. */
  lemma WorkingInvariantSet(original: Graph, working: Graph, f: nat, s: nat, v: real)
    requires WorkingInvariant(original, working)
    requires f < |original| && IsConstrained(original[f])
    requires s < |Sigmas(original[f])| && Sigmas(original[f])[s] < 0.0
    requires v == 0.0 || v == -1.0
    ensures HasRow(working, f, s)
    ensures WorkingInvariant(original, SetSigma(working, f, s, v))
  {
    assert Agrees(original[f], working[f]);
    var w' := SetSigma(working, f, s, v);
    assert w'[f] == working[f].(model := Some(Diagonal(true, Sigmas(working[f])[s := v])));
    forall i | 0 <= i < |original| ensures Agrees(original[i], w'[i]) {
      if i != f {
        assert w'[i] == working[i];
      }
    }
  }

  /** What the invariant keeps of each factor: its kind, keys, blocks, right-hand side and row count. */
  lemma WorkingShape(original: Graph, working: Graph, f: nat)
    requires WorkingInvariant(original, working) && f < |original|
    ensures IsConstrained(working[f]) <==> IsConstrained(original[f])
    ensures Keys(working[f]) == Keys(original[f]) && Rhs(working[f]) == Rhs(original[f])
    ensures forall j :: BlockAt(working[f], j) == BlockAt(original[f], j)
    ensures |Sigmas(working[f])| == |Sigmas(original[f])|
  {
    assert Agrees(original[f], working[f]);
  }

  /** An inactive row of the working graph is an inequality row of the problem. */
  lemma WorkingInequality(original: Graph, working: Graph, f: nat, s: nat)
    requires WorkingInvariant(original, working) && f < |original|
    requires s < |Sigmas(working[f])| && Sigmas(working[f])[s] < 0.0
    ensures s < |Sigmas(original[f])| && Sigmas(original[f])[s] < 0.0
  {
    assert Agrees(original[f], working[f]);
  }
}
