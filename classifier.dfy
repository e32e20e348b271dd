/**
 * The constraint classifier run by the solver's constructor: the indices of
 * the constrained Jacobian factors, and the keys of the variables those
 * factors mention.
 */
module Classifier {
  import opened Graphs

  /** The keys mentioned by the factors at the given indices. */
  ghost predicate IsConstrainedVarsOf(vars: set<nat>, g: Graph, indices: seq<nat>) {
    forall k :: k in vars <==> exists t :: 0 <= t < |indices| && k in Keys(FactorAt(g, indices[t]))
  }

  /** The constructor's first loop: collect the indices of the constrained factors. */
  method CollectConstraintIndices(graph: Graph) returns (indices: seq<nat>)
    ensures forall i :: 0 <= i < |graph| ==> (i in indices <==> IsConstrained(graph[i]))
    ensures forall t :: 0 <= t < |indices| ==> indices[t] < |graph|
    ensures Increasing(indices)
  {
    indices := [];
    for i := 0 to |graph|
      invariant forall j :: 0 <= j < |graph| ==> (j in indices <==> j < i && IsConstrained(graph[j]))
      invariant forall t :: 0 <= t < |indices| ==> indices[t] < i
      invariant Increasing(indices)
    {
      if IsConstrained(graph[i]) {
        indices := indices + [i];
      }
    }
  }

  /** The constructor's second loop: the union of the keys of the constrained factors. */
  method CollectConstrainedVars(graph: Graph, indices: seq<nat>) returns (vars: set<nat>)
    ensures IsConstrainedVarsOf(vars, graph, indices)
  {
    vars := {};
    for t := 0 to |indices|
      invariant IsConstrainedVarsOf(vars, graph, indices[..t])
    {
      var keys := Keys(FactorAt(graph, indices[t]));
      vars := vars + set k | k in keys;
      assert indices[..t + 1] == indices[..t] + [indices[t]];
    }
    assert indices[..|indices|] == indices;
  }
}
