/**
 * The free-Hessian extractor: the quadratic subgraph over the factors that
 * touch a constrained variable, with every constraint row carrying zero
 * information. Converting a Jacobian to a HessianFactor (its normal
 * equations) belongs to the graph library and is the parameter `convert`.
 */
module FreeHessians {
  import opened Graphs

  /** True when some row is soft (its sigma exceeds 1e-9). */
  predicate HasFreeRow(sigmas: seq<real>) {
    exists s :: 0 <= s < |sigmas| && sigmas[s] > SigmaTol
  }

  /** The precisions given to a mixed factor: 0 for constraint rows, 1/sigma for soft rows. */
  function FreePrecisions(sigmas: seq<real>): seq<real> {
    seq(|sigmas|, s requires 0 <= s < |sigmas| => if sigmas[s] <= SigmaTol then 0.0 else 1.0 / sigmas[s])
  }

  /** What the free precisions mean, row by row, and what `mixed` records. */
  lemma FreePrecisionsMeaning(sigmas: seq<real>)
    ensures |FreePrecisions(sigmas)| == |sigmas|
    ensures forall s :: 0 <= s < |sigmas| ==>
      (FreePrecisions(sigmas)[s] == 0.0 <==> sigmas[s] <= SigmaTol)
    ensures forall s :: 0 <= s < |sigmas| && sigmas[s] > SigmaTol ==>
      FreePrecisions(sigmas)[s] > 0.0 && FreePrecisions(sigmas)[s] * sigmas[s] == 1.0
    ensures HasFreeRow(sigmas) <==> exists s :: 0 <= s < |sigmas| && FreePrecisions(sigmas)[s] != 0.0
  {
    var p := FreePrecisions(sigmas);
    forall s | 0 <= s < |sigmas| && sigmas[s] > SigmaTol
      ensures p[s] > 0.0 && p[s] * sigmas[s] == 1.0
    {
      assert p[s] == 1.0 / sigmas[s];
    }
  }

  /** The loop over the sigmas of a constrained factor. */
  method ComputeFreePrecisions(sigmas: seq<real>) returns (newPrecisions: seq<real>, mixed: bool)
    ensures newPrecisions == FreePrecisions(sigmas)
    ensures mixed == HasFreeRow(sigmas)
  {
    newPrecisions := [];
    mixed := false;
    for s := 0 to |sigmas|
      invariant newPrecisions == FreePrecisions(sigmas[..s])
      invariant mixed == HasFreeRow(sigmas[..s])
    {
      if sigmas[s] <= SigmaTol {
        newPrecisions := newPrecisions + [0.0];
      } else {
        newPrecisions := newPrecisions + [1.0 / sigmas[s]];
        mixed := true;
      }
      assert sigmas[..s + 1][s] == sigmas[s];
      assert forall t :: 0 <= t < s ==> sigmas[..s + 1][t] == sigmas[..s][t];
    }
    assert sigmas[..|sigmas|] == sigmas;
  }

  /** HessianFactor(jacobian): the keys of the Jacobian with the converted blocks. */
  function HessianOf(j: Factor, convert: Factor -> Quadratic): (h: Factor)
    ensures h.Hessian? && Keys(h) == Keys(j)
  {
    var q := convert(j);
    Hessian(Keys(j), q.info, q.linear)
  }

  /**
   * What one factor contributes to the free-Hessian graph: nothing for an
   * empty slot or an all-constrained Jacobian, the conversion of the
   * zero-information copy for a mixed one, the conversion of an
   * unconstrained Jacobian, and a Hessian factor as it is.
   */
  function FreeHessianOf(f: Factor, convert: Factor -> Quadratic): seq<Factor> {
    if f.Null? then []
    else if f.Jacobian? then
      if IsConstrained(f) then
        if HasFreeRow(Sigmas(f))
        then [HessianOf(f.(model := Some(DiagonalPrecisions(FreePrecisions(Sigmas(f))))), convert)]
        else []
      else [HessianOf(f, convert)]
    else [f]
  }

  /** The free-Hessian factors of the factors at `order`, in that order. */
  function ConcatFree(g: Graph, order: seq<nat>, convert: Factor -> Quadratic): seq<Factor> {
    if order == [] then []
    else ConcatFree(g, order[..|order| - 1], convert) + FreeHessianOf(FactorAt(g, order[|order| - 1]), convert)
  }

  /** The factor indices collected from the variable index over the constrained variables. */
  function IncidentFactors(g: Graph, vars: set<nat>): set<nat> {
    set k, i | k in vars && i in FactorsOf(g, k) :: i
  }

  /** unconstrainedHessiansOfConstrainedVars, as a value. */
  function FreeHessians(g: Graph, vars: set<nat>, convert: Factor -> Quadratic): seq<Factor> {
    ConcatFree(g, SortedSeq(IncidentFactors(g, vars)), convert)
  }

  /** The first loop: the factors of every constrained variable, from the variable index. */
  method CollectIncidentFactors(graph: Graph, constrainedVars: set<nat>) returns (factors: set<nat>)
    ensures factors == IncidentFactors(graph, constrainedVars)
  {
    factors := {};
    var done: set<nat> := {};
    var rest := constrainedVars;
    while rest != {}
      invariant rest !! done && rest + done == constrainedVars
      invariant factors == IncidentFactors(graph, done)
      decreases |rest|
    {
      var key :| key in rest;
      IncidentFactorsAdd(graph, done, key);
      factors := factors + set i | i in FactorsOf(graph, key);
      rest := rest - {key};
      done := done + {key};
    }
  }

  lemma IncidentFactorsAdd(g: Graph, vars: set<nat>, key: nat)
    ensures IncidentFactors(g, vars + {key}) == IncidentFactors(g, vars) + set i | i in FactorsOf(g, key)
  {
  }

  /** The loop body for one factor: what it appends to the free-Hessian graph. */
  method ConvertFactor(f: Factor, convert: Factor -> Quadratic) returns (converted: seq<Factor>)
    ensures converted == FreeHessianOf(f, convert)
  {
    converted := [];
    if f.Null? {
      return;
    }
    if f.Jacobian? {
      if IsConstrained(f) {
        var newPrecisions, mixed := ComputeFreePrecisions(Sigmas(f));
        if mixed {
          converted := [HessianOf(f.(model := Some(DiagonalPrecisions(newPrecisions))), convert)];
        }
      } else {
        converted := [HessianOf(f, convert)];
      }
    } else {
      converted := [f];
    }
  }

  /** The second loop: convert the factors at `order`, in that order. */
  method ConvertFactors(graph: Graph, order: seq<nat>, convert: Factor -> Quadratic) returns (hfg: seq<Factor>)
    ensures hfg == ConcatFree(graph, order, convert)
  {
    hfg := [];
    for t := 0 to |order|
      invariant hfg == ConcatFree(graph, order[..t], convert)
    {
      assert order[..t + 1][..t] == order[..t];
      var converted := ConvertFactor(FactorAt(graph, order[t]), convert);
      hfg := hfg + converted;
    }
    assert order[..|order|] == order;
  }

  method UnconstrainedHessiansOfConstrainedVars(graph: Graph, constrainedVars: set<nat>,
                                               convert: Factor -> Quadratic)
    returns (hfg: seq<Factor>)
    ensures hfg == FreeHessians(graph, constrainedVars, convert)
  {
    var factors := CollectIncidentFactors(graph, constrainedVars);
    // Convert each factor into Hessian, in increasing factor order
    hfg := ConvertFactors(graph, SortedSeq(factors), convert);
  }

  /** Every factor of the free-Hessian graph is a Hessian factor. */
  lemma {:induction false} ConcatFreeAllHessian(g: Graph, order: seq<nat>, convert: Factor -> Quadratic)
    ensures forall t :: 0 <= t < |ConcatFree(g, order, convert)| ==> ConcatFree(g, order, convert)[t].Hessian?
  {
    if order != [] {
      ConcatFreeAllHessian(g, order[..|order| - 1], convert);
    }
  }

  /**
   * Every factor of the free-Hessian graph comes from one factor at an
   * index in `order`, with that factor's keys.
   */
  lemma {:induction false} ConcatFreeSources(g: Graph, order: seq<nat>, convert: Factor -> Quadratic)
    ensures forall t :: 0 <= t < |ConcatFree(g, order, convert)| ==>
      exists u :: 0 <= u < |order| && Keys(ConcatFree(g, order, convert)[t]) == Keys(FactorAt(g, order[u]))
  {
    if order != [] {
      var front := order[..|order| - 1];
      ConcatFreeSources(g, front, convert);
      var r := ConcatFree(g, order, convert);
      forall t | 0 <= t < |r|
        ensures exists u :: 0 <= u < |order| && Keys(r[t]) == Keys(FactorAt(g, order[u]))
      {
        if t < |ConcatFree(g, front, convert)| {
          var u :| 0 <= u < |front| && Keys(ConcatFree(g, front, convert)[t]) == Keys(FactorAt(g, front[u]));
          assert order[u] == front[u];
        } else {
          var u := |order| - 1;
          FreeHessianOfKeys(FactorAt(g, order[u]), convert);
          assert Keys(r[t]) == Keys(FactorAt(g, order[u]));
        }
      }
    } else {
      assert ConcatFree(g, order, convert) == [];
    }
  }

  lemma FreeHessianOfKeys(f: Factor, convert: Factor -> Quadratic)
    ensures forall t :: 0 <= t < |FreeHessianOf(f, convert)| ==> Keys(FreeHessianOf(f, convert)[t]) == Keys(f)
  {
  }

  /** How many factors each slot contributes: one, except empty slots and all-constrained Jacobians. */
  lemma FreeHessianOfCount(f: Factor, convert: Factor -> Quadratic)
    ensures |FreeHessianOf(f, convert)| ==
      if f.Null? || (IsConstrained(f) && forall s :: 0 <= s < |Sigmas(f)| ==> Sigmas(f)[s] <= SigmaTol) then 0 else 1
  {
  }

  /**
   * The free-Hessian graph mentions only keys of the original graph, and
   * each of its factors carries the keys of an original factor that touches
   * a constrained variable.
   */
  lemma FreeHessiansSources(g: Graph, vars: set<nat>, convert: Factor -> Quadratic)
    ensures forall t :: 0 <= t < |FreeHessians(g, vars, convert)| ==>
      exists i :: 0 <= i < |g| && Keys(FreeHessians(g, vars, convert)[t]) == Keys(g[i]) &&
                  exists k :: k in vars && k in Keys(g[i])
  {
    var order := SortedSeq(IncidentFactors(g, vars));
    var h := FreeHessians(g, vars, convert);
    ConcatFreeSources(g, order, convert);
    forall t | 0 <= t < |h|
      ensures exists i :: 0 <= i < |g| && Keys(h[t]) == Keys(g[i]) && exists k :: k in vars && k in Keys(g[i])
    {
      var u :| 0 <= u < |order| && Keys(h[t]) == Keys(FactorAt(g, order[u]));
      var i := order[u];
      assert i in IncidentFactors(g, vars);
      var k :| k in vars && i in FactorsOf(g, k);
      assert 0 <= i < |g| && Keys(h[t]) == Keys(g[i]) && k in vars && k in Keys(g[i]);
    }
  }
}
