/**
 * The dual graph: for every variable of the free-Hessian graph, one linear
 * factor whose unknowns are the multipliers of the constrained factors on
 * that variable and whose target is the unconstrained gradient there,
 * followed by one zero prior per multiplier row that must carry no
 * information (soft rows and inactive inequalities).
 */
module DualGraph {
  import opened LinAlg
  import opened Graphs

  function Abs(x: real): real {
    if x < 0.0 then -x else x
  }

  /** True when row s of the constraint carries no multiplier information (|sigma| > 1e-9). */
  predicate NotTight(sigmas: seq<real>, s: nat) {
    s < |sigmas| && Abs(sigmas[s]) > SigmaTol
  }

  // ------------------------------------------------------------------
  // Gradient: sum_j G_ij * x0_j - g_i over the free-Hessian factors of xi

  /** G_ij: the stored block info(i, j), or the transpose of info(j, i) when position i comes after j. */
  function Gij(f: Factor, i: nat, j: nat): Matrix {
    if i > j then Transpose(Info(f, j, i)) else Info(f, i, j)
  }

  /** acc plus G_ij * x0_j over the first n key positions j of f. */
  function CrossSum(acc: Vector, f: Factor, i: nat, x0: Values, n: nat): Vector
    requires n <= |Keys(f)|
  {
    if n == 0 then acc
    else Add(CrossSum(acc, f, i, x0, n - 1), MatVec(Gij(f, i, n - 1), At(x0, Keys(f)[n - 1])))
  }

  /** One factor's part of the accumulation: the cross terms, then minus the linear term of xi. */
  function AddFactorGradient(acc: Vector, f: Factor, xi: nat, x0: Values): Vector {
    var i := Find(Keys(f), xi);
    Add(CrossSum(acc, f, i, x0, |Keys(f)|), Neg(LinearTerm(f, i)))
  }

  /** The gradient accumulated over the free-Hessian factors at the indices `factorIxs`. */
  function GradientFrom(acc: Vector, hessians: Graph, factorIxs: seq<nat>, xi: nat, x0: Values): Vector {
    if factorIxs == [] then acc
    else
      var n := |factorIxs| - 1;
      AddFactorGradient(GradientFrom(acc, hessians, factorIxs[..n], xi, x0), FactorAt(hessians, factorIxs[n]), xi, x0)
  }

  /** The gradient of the objective part of one factor with respect to xi, at dimension d. */
  function FactorGradient(f: Factor, xi: nat, x0: Values, d: nat): Vector {
    AddFactorGradient(Zero(d), f, xi, x0)
  }

  /** The sum of a list of vectors of dimension d. */
  function SumVectors(vs: seq<Vector>, d: nat): Vector {
    if vs == [] then Zero(d) else Add(SumVectors(vs[..|vs| - 1], d), vs[|vs| - 1])
  }

  // ------------------------------------------------------------------
  // Lambda terms: A_k = A_k(xi)^T, with columns of non-tight rows zeroed

  /** m with column c zeroed (rows too short to have that column are left as they are). */
  function ZeroColumn(m: Matrix, c: nat): Matrix {
    seq(|m|, r requires 0 <= r < |m| => if c < |m[r]| then m[r][c := 0.0] else m[r])
  }

  /** m with every column c < n of a non-tight row zeroed, one column at a time. */
  function MaskedColumns(m: Matrix, sigmas: seq<real>, n: nat): Matrix {
    if n == 0 then m
    else
      var prev := MaskedColumns(m, sigmas, n - 1);
      if NotTight(sigmas, n - 1) then ZeroColumn(prev, n - 1) else prev
  }

  /**
   * Masking keeps the shape of m; an entry in a column c < n of a non-tight
   * row is 0 and every other entry is m's own.
   */
  lemma {:induction false} MaskedColumnsAt(m: Matrix, sigmas: seq<real>, n: nat)
    ensures |MaskedColumns(m, sigmas, n)| == |m|
    ensures forall r :: 0 <= r < |m| ==> |MaskedColumns(m, sigmas, n)[r]| == |m[r]|
    ensures forall r, c :: 0 <= r < |m| && 0 <= c < |m[r]| ==>
      MaskedColumns(m, sigmas, n)[r][c] == if c < n && NotTight(sigmas, c) then 0.0 else m[r][c]
  {
    if n > 0 {
      MaskedColumnsAt(m, sigmas, n - 1);
    }
  }

  /** The (factor, row) pairs of the non-tight rows among the first n rows of a factor. */
  function UnconstrainedRows(factorIx: nat, sigmas: seq<real>, n: nat): seq<(nat, nat)> {
    if n == 0 then []
    else UnconstrainedRows(factorIx, sigmas, n - 1) + (if NotTight(sigmas, n - 1) then [(factorIx, n - 1)] else [])
  }

  /** lambdaTerms (multiplier keys and their A_k) and unconstrainedIndex of one variable. */
  datatype LambdaTerms = LambdaTerms(keys: seq<nat>, mats: seq<Matrix>, unconstrained: seq<(nat, nat)>)

  /** The A_k of a constrained factor for variable xi. */
  function LambdaMatrix(f: Factor, xi: nat): Matrix {
    MaskedColumns(Transpose(BlockAt(f, Find(Keys(f), xi))), Sigmas(f), |Sigmas(f)|)
  }

  /** The lambda terms collected over the working-graph factors at `factorIxs`. */
  function LambdaTermsFrom(working: Graph, xi: nat, factorIxs: seq<nat>): LambdaTerms {
    if factorIxs == [] then LambdaTerms([], [], [])
    else
      var n := |factorIxs| - 1;
      var acc := LambdaTermsFrom(working, xi, factorIxs[..n]);
      var fi := factorIxs[n];
      var f := FactorAt(working, fi);
      if !IsConstrained(f) then acc
      else LambdaTerms(acc.keys + [fi], acc.mats + [LambdaMatrix(f, xi)],
                       acc.unconstrained + UnconstrainedRows(fi, Sigmas(f), |Sigmas(f)|))
  }

  // ------------------------------------------------------------------
  // The factors of the dual graph

  /** The main dual factor: unit noise for least squares, otherwise all-constrained noise. */
  function DualMain(terms: LambdaTerms, gradf: Vector, useLeastSquare: bool): Factor {
    Jacobian(terms.keys, terms.mats, gradf,
             Some(if useLeastSquare then Diagonal(false, Ones(|gradf|)) else Diagonal(true, Zero(|gradf|))))
  }

  /** The zero prior pinning multiplier row `row.1` of the constraint factor `row.0`. */
  function ZeroPrior(working: Graph, row: (nat, nat)): Factor {
    var dim := |Sigmas(FactorAt(working, row.0))|;
    Jacobian([row.0], [UnitPin(dim, row.1)], Zero(dim), None)
  }

  /** The zero priors of the recorded rows, in order. */
  function Priors(working: Graph, rows: seq<(nat, nat)>): seq<Factor> {
    if rows == [] then []
    else Priors(working, rows[..|rows| - 1]) + [ZeroPrior(working, rows[|rows| - 1])]
  }

  lemma {:induction false} PriorsAt(working: Graph, rows: seq<(nat, nat)>)
    ensures |Priors(working, rows)| == |rows|
    ensures forall t :: 0 <= t < |rows| ==> Priors(working, rows)[t] == ZeroPrior(working, rows[t])
  {
    if rows != [] {
      PriorsAt(working, rows[..|rows| - 1]);
    }
  }

  /** The dual factors of one variable xi. */
  function DualFactorsOf(original: Graph, hessians: Graph, working: Graph, xi: nat, x0: Values,
                         useLeastSquare: bool): seq<Factor>
  {
    var xiFactors := FactorsOf(hessians, xi);
    if |xiFactors| == 0 then []
    else
      var dim := DimIn(FactorAt(hessians, 0), xi);
      var gradf := GradientFrom(Zero(dim), hessians, xiFactors, xi, x0);
      var terms := LambdaTermsFrom(working, xi, FactorsOf(original, xi));
      [DualMain(terms, gradf, useLeastSquare)] + Priors(working, terms.unconstrained)
  }

  function DualFactorsOver(original: Graph, hessians: Graph, working: Graph, keys: seq<nat>, x0: Values,
                           useLeastSquare: bool): seq<Factor>
  {
    if keys == [] then []
    else
      var n := |keys| - 1;
      DualFactorsOver(original, hessians, working, keys[..n], x0, useLeastSquare)
        + DualFactorsOf(original, hessians, working, keys[n], x0, useLeastSquare)
  }

  lemma DualFactorsOverSnoc(original: Graph, hessians: Graph, working: Graph, keys: seq<nat>, t: nat, x0: Values,
                            useLeastSquare: bool)
    requires t < |keys|
    ensures DualFactorsOver(original, hessians, working, keys[..t + 1], x0, useLeastSquare)
      == DualFactorsOver(original, hessians, working, keys[..t], x0, useLeastSquare)
         + DualFactorsOf(original, hessians, working, keys[t], x0, useLeastSquare)
  {
    assert keys[..t + 1][..t] == keys[..t];
  }

  /** buildDualGraph as a value: the variables of the free-Hessian index in increasing key order. */
  function DualGraphOf(original: Graph, hessians: Graph, working: Graph, x0: Values, useLeastSquare: bool): seq<Factor> {
    DualFactorsOver(original, hessians, working, SortedSeq(KeysOf(hessians)), x0, useLeastSquare)
  }

  // ------------------------------------------------------------------
  // The builder

  /** The inner loop over the key positions of one free-Hessian factor. */
  method AccumulateFactorGradient(acc: Vector, factor: Factor, xiKey: nat, x0: Values) returns (gradf: Vector)
    ensures gradf == AddFactorGradient(acc, factor, xiKey, x0)
  {
    var keys := Keys(factor);
    var xi := Find(keys, xiKey);
    gradf := acc;
    for xj := 0 to |keys|
      invariant gradf == CrossSum(acc, factor, xi, x0, xj)
    {
      var gij: Matrix;
      if xi > xj {
        var gji := Info(factor, xj, xi);
        gij := Transpose(gji);
      } else {
        gij := Info(factor, xi, xj);
      }
      var x0j := At(x0, keys[xj]);
      gradf := Add(gradf, MatVec(gij, x0j));
    }
    gradf := Add(gradf, Neg(LinearTerm(factor, xi)));
  }

  method ComputeGradient(hessians: Graph, xiFactors: seq<nat>, xiKey: nat, xiDim: nat, x0: Values)
    returns (gradf: Vector)
    ensures gradf == GradientFrom(Zero(xiDim), hessians, xiFactors, xiKey, x0)
  {
    gradf := Zero(xiDim);
    for t := 0 to |xiFactors|
      invariant gradf == GradientFrom(Zero(xiDim), hessians, xiFactors[..t], xiKey, x0)
    {
      assert xiFactors[..t + 1][..t] == xiFactors[..t];
      gradf := AccumulateFactorGradient(gradf, FactorAt(hessians, xiFactors[t]), xiKey, x0);
    }
    assert xiFactors[..|xiFactors|] == xiFactors;
  }

  /** The loop over the sigmas of one constraint: zero the columns of its non-tight rows and record them. */
  method ZeroUnconstrainedColumns(a: Matrix, factorIndex: nat, sigmas: seq<real>)
    returns (ak: Matrix, rows: seq<(nat, nat)>)
    ensures ak == MaskedColumns(a, sigmas, |sigmas|)
    ensures rows == UnconstrainedRows(factorIndex, sigmas, |sigmas|)
  {
    ak := a;
    rows := [];
    for sigmaIx := 0 to |sigmas|
      invariant ak == MaskedColumns(a, sigmas, sigmaIx)
      invariant rows == UnconstrainedRows(factorIndex, sigmas, sigmaIx)
    {
      if Abs(sigmas[sigmaIx]) > SigmaTol {
        ak := ZeroColumn(ak, sigmaIx);
        rows := rows + [(factorIndex, sigmaIx)];
      }
    }
  }

  method CollectLambdaTerms(working: Graph, xiKey: nat, factorIxs: seq<nat>)
    returns (lambdaKeys: seq<nat>, lambdaMats: seq<Matrix>, unconstrainedIndex: seq<(nat, nat)>)
    ensures LambdaTerms(lambdaKeys, lambdaMats, unconstrainedIndex) == LambdaTermsFrom(working, xiKey, factorIxs)
  {
    lambdaKeys, lambdaMats, unconstrainedIndex := [], [], [];
    for t := 0 to |factorIxs|
      invariant LambdaTerms(lambdaKeys, lambdaMats, unconstrainedIndex) == LambdaTermsFrom(working, xiKey, factorIxs[..t])
    {
      assert factorIxs[..t + 1][..t] == factorIxs[..t];
      var factorIndex := factorIxs[t];
      var factor := FactorAt(working, factorIndex);
      if !IsConstrained(factor) {
        continue;
      }
      var aT := Transpose(BlockAt(factor, Find(Keys(factor), xiKey)));
      var ak, rows := ZeroUnconstrainedColumns(aT, factorIndex, Sigmas(factor));
      unconstrainedIndex := unconstrainedIndex + rows;
      lambdaKeys := lambdaKeys + [factorIndex];
      lambdaMats := lambdaMats + [ak];
    }
    assert factorIxs[..|factorIxs|] == factorIxs;
  }

  /** The body of the loop over the variables: the dual factors of one variable. */
  method BuildDualFactors(original: Graph, hessians: Graph, working: Graph, xiKey: nat, x0: Values,
                          useLeastSquare: bool)
    returns (factors: seq<Factor>)
    ensures factors == DualFactorsOf(original, hessians, working, xiKey, x0, useLeastSquare)
  {
    var xiFactors := FactorsOf(hessians, xiKey);
    if |xiFactors| == 0 {
      return [];
    }
    // Find xi's dim from the first factor of the free-Hessian graph
    var xiDim := DimIn(FactorAt(hessians, 0), xiKey);
    var gradf := ComputeGradient(hessians, xiFactors, xiKey, xiDim, x0);
    var lambdaKeys, lambdaMats, unconstrainedIndex := CollectLambdaTerms(working, xiKey, FactorsOf(original, xiKey));
    factors := [DualMain(LambdaTerms(lambdaKeys, lambdaMats, unconstrainedIndex), gradf, useLeastSquare)];
    for u := 0 to |unconstrainedIndex|
      invariant factors == [DualMain(LambdaTerms(lambdaKeys, lambdaMats, unconstrainedIndex), gradf, useLeastSquare)]
                           + Priors(working, unconstrainedIndex[..u])
    {
      assert unconstrainedIndex[..u + 1][..u] == unconstrainedIndex[..u];
      factors := factors + [ZeroPrior(working, unconstrainedIndex[u])];
    }
    assert unconstrainedIndex[..|unconstrainedIndex|] == unconstrainedIndex;
  }

  method BuildDualGraph(original: Graph, hessians: Graph, working: Graph, x0: Values, useLeastSquare: bool)
    returns (dualGraph: seq<Factor>)
    ensures dualGraph == DualGraphOf(original, hessians, working, x0, useLeastSquare)
  {
    var keys := SortedSeq(KeysOf(hessians));
    dualGraph := [];
    for t := 0 to |keys|
      invariant dualGraph == DualFactorsOver(original, hessians, working, keys[..t], x0, useLeastSquare)
    {
      var factors := BuildDualFactors(original, hessians, working, keys[t], x0, useLeastSquare);
      DualFactorsOverSnoc(original, hessians, working, keys, t, x0, useLeastSquare);
      dualGraph := dualGraph + factors;
    }
    assert keys[..|keys|] == keys;
  }

  // ------------------------------------------------------------------
  // What the dual graph holds

  lemma AddAssoc(a: Vector, b: Vector, c: Vector)
    requires |a| == |b|
    ensures Add(Add(a, b), c) == Add(a, Add(b, c))
  {
    var l := Add(Add(a, b), c);
    var r := Add(a, Add(b, c));
    forall i | 0 <= i < |a| ensures l[i] == r[i] {
      assert Entry(Add(b, c), i) == b[i] + Entry(c, i);
    }
  }

  lemma AddZeroRight(a: Vector)
    ensures Add(a, Zero(|a|)) == a
  {
  }

  lemma {:induction false} CrossSumShift(acc: Vector, f: Factor, i: nat, x0: Values, n: nat)
    requires n <= |Keys(f)|
    ensures |CrossSum(acc, f, i, x0, n)| == |acc|
    ensures CrossSum(acc, f, i, x0, n) == Add(acc, CrossSum(Zero(|acc|), f, i, x0, n))
    decreases n
  {
    if n == 0 {
      AddZeroRight(acc);
    } else {
      CrossSumShift(acc, f, i, x0, n - 1);
      CrossSumShift(Zero(|acc|), f, i, x0, n - 1);
      var m := MatVec(Gij(f, i, n - 1), At(x0, Keys(f)[n - 1]));
      AddAssoc(acc, CrossSum(Zero(|acc|), f, i, x0, n - 1), m);
    }
  }

  /** One factor's step adds that factor's own gradient to the running sum. */
  lemma AddFactorGradientShift(acc: Vector, f: Factor, xi: nat, x0: Values)
    ensures |AddFactorGradient(acc, f, xi, x0)| == |acc|
    ensures AddFactorGradient(acc, f, xi, x0) == Add(acc, FactorGradient(f, xi, x0, |acc|))
  {
    var i := Find(Keys(f), xi);
    CrossSumShift(acc, f, i, x0, |Keys(f)|);
    CrossSumShift(Zero(|acc|), f, i, x0, |Keys(f)|);
    AddAssoc(acc, CrossSum(Zero(|acc|), f, i, x0, |Keys(f)|), Neg(LinearTerm(f, i)));
  }

  /** The gradients of the objective parts of the factors at `factorIxs`, one per factor. */
  function FactorGradients(hessians: Graph, factorIxs: seq<nat>, xi: nat, x0: Values, d: nat): seq<Vector> {
    seq(|factorIxs|, t requires 0 <= t < |factorIxs| => FactorGradient(FactorAt(hessians, factorIxs[t]), xi, x0, d))
  }

  /**
   * The right-hand side accumulated for a variable is the sum, over its
   * free-Hessian factors, of that factor's sum_j G_ij * x0_j - g_i, and has
   * the dimension it started with.
   */
  lemma {:induction false} GradientIsSumOfFactorGradients(hessians: Graph, factorIxs: seq<nat>, xi: nat,
                                                         x0: Values, d: nat)
    ensures |GradientFrom(Zero(d), hessians, factorIxs, xi, x0)| == d
    ensures GradientFrom(Zero(d), hessians, factorIxs, xi, x0) == SumVectors(FactorGradients(hessians, factorIxs, xi, x0, d), d)
  {
    if factorIxs != [] {
      var n := |factorIxs| - 1;
      GradientIsSumOfFactorGradients(hessians, factorIxs[..n], xi, x0, d);
      var prev := GradientFrom(Zero(d), hessians, factorIxs[..n], xi, x0);
      AddFactorGradientShift(prev, FactorAt(hessians, factorIxs[n]), xi, x0);
      var vs := FactorGradients(hessians, factorIxs, xi, x0, d);
      assert vs[..n] == FactorGradients(hessians, factorIxs[..n], xi, x0, d);
    }
  }

  lemma {:induction false} UnconstrainedRowsSpec(fi: nat, sigmas: seq<real>, n: nat)
    ensures forall p :: p in UnconstrainedRows(fi, sigmas, n) <==> p.0 == fi && p.1 < n && NotTight(sigmas, p.1)
    ensures LexIncreasing(UnconstrainedRows(fi, sigmas, n))
  {
    if n > 0 {
      UnconstrainedRowsSpec(fi, sigmas, n - 1);
    }
  }

  /**
   * The multiplier keys of a variable: one per constrained factor on it, in
   * the order of `factorIxs`, each with A_k the masked transpose of that
   * factor's block.
   */
  lemma {:induction false} LambdaTermsKeys(working: Graph, xi: nat, factorIxs: seq<nat>)
    ensures |LambdaTermsFrom(working, xi, factorIxs).keys| == |LambdaTermsFrom(working, xi, factorIxs).mats|
    ensures forall fi :: fi in LambdaTermsFrom(working, xi, factorIxs).keys <==>
      fi in factorIxs && IsConstrained(FactorAt(working, fi))
    ensures forall t :: 0 <= t < |LambdaTermsFrom(working, xi, factorIxs).keys| ==>
      LambdaTermsFrom(working, xi, factorIxs).mats[t] ==
        LambdaMatrix(FactorAt(working, LambdaTermsFrom(working, xi, factorIxs).keys[t]), xi)
  {
    if factorIxs != [] {
      var n := |factorIxs| - 1;
      LambdaTermsKeys(working, xi, factorIxs[..n]);
      assert factorIxs == factorIxs[..n] + [factorIxs[n]];
    }
  }

  /** With increasing factor indices the multiplier keys are increasing, so none repeats. */
  lemma {:induction false} LambdaTermsKeysIncreasing(working: Graph, xi: nat, factorIxs: seq<nat>)
    requires Increasing(factorIxs)
    ensures Increasing(LambdaTermsFrom(working, xi, factorIxs).keys)
  {
    if factorIxs != [] {
      var n := |factorIxs| - 1;
      var front := factorIxs[..n];
      var fi := factorIxs[n];
      LambdaTermsKeysIncreasing(working, xi, front);
      LambdaTermsKeys(working, xi, front);
      IncreasingLast(factorIxs);
      assert forall q :: q in front ==> q < fi;
      var acc := LambdaTermsFrom(working, xi, front);
      if IsConstrained(FactorAt(working, fi)) {
        var keys := acc.keys + [fi];
        assert keys[..|keys| - 1] == acc.keys;
        if |acc.keys| > 0 {
          assert acc.keys[|acc.keys| - 1] in front;
        }
      }
    }
  }

  /** Every non-tight row of the constrained factors of a variable is recorded. */
  lemma {:induction false} LambdaTermsRows(working: Graph, xi: nat, factorIxs: seq<nat>)
    ensures forall p :: p in LambdaTermsFrom(working, xi, factorIxs).unconstrained <==>
      p.0 in factorIxs && IsConstrained(FactorAt(working, p.0)) && NotTight(Sigmas(FactorAt(working, p.0)), p.1)
  {
    if factorIxs != [] {
      var n := |factorIxs| - 1;
      var fi := factorIxs[n];
      LambdaTermsRows(working, xi, factorIxs[..n]);
      assert factorIxs == factorIxs[..n] + [fi];
      var f := FactorAt(working, fi);
      if IsConstrained(f) {
        UnconstrainedRowsSpec(fi, Sigmas(f), |Sigmas(f)|);
      }
    }
  }

  /** With increasing factor indices the recorded rows are in (factor, row) order, each once. */
  lemma {:induction false} LambdaTermsRowsOrder(working: Graph, xi: nat, factorIxs: seq<nat>)
    requires Increasing(factorIxs)
    ensures LexIncreasing(LambdaTermsFrom(working, xi, factorIxs).unconstrained)
  {
    if factorIxs != [] {
      var n := |factorIxs| - 1;
      var front := factorIxs[..n];
      var fi := factorIxs[n];
      LambdaTermsRowsOrder(working, xi, front);
      LambdaTermsRows(working, xi, front);
      IncreasingLast(factorIxs);
      assert forall q :: q in front ==> q < fi;
      var acc := LambdaTermsFrom(working, xi, front);
      var f := FactorAt(working, fi);
      if IsConstrained(f) {
        var rows := UnconstrainedRows(fi, Sigmas(f), |Sigmas(f)|);
        UnconstrainedRowsSpec(fi, Sigmas(f), |Sigmas(f)|);
        var all := acc.unconstrained + rows;
        forall a, b | 0 <= a < b < |all| ensures LexLess(all[a], all[b]) {
          if b < |acc.unconstrained| {
            assert all[a] == acc.unconstrained[a] && all[b] == acc.unconstrained[b];
          } else if a < |acc.unconstrained| {
            assert all[a] in acc.unconstrained;
            assert all[b] in rows;
          } else {
            assert all[a] == rows[a - |acc.unconstrained|];
            assert all[b] == rows[b - |acc.unconstrained|];
          }
        }
      }
    }
  }

  /** A variable contributes dual factors exactly when some free-Hessian factor mentions it. */
  lemma DualFactorsOfUnused(original: Graph, hessians: Graph, working: Graph, xi: nat, x0: Values,
                            useLeastSquare: bool)
    ensures DualFactorsOf(original, hessians, working, xi, x0, useLeastSquare) == [] <==> xi !in KeysOf(hessians)
  {
    KeysOfFactors(hessians, xi);
  }

  /**
   * The dual factors of a variable of the free-Hessian graph: one main
   * factor, whose right-hand side is the sum of the factor gradients at
   * the dimension read from the first free-Hessian factor, followed by one
   * prior per recorded row.
   */
  lemma DualFactorsOfShape(original: Graph, hessians: Graph, working: Graph, xi: nat, x0: Values,
                           useLeastSquare: bool)
    requires FactorsOf(hessians, xi) != []
    ensures
      var r := DualFactorsOf(original, hessians, working, xi, x0, useLeastSquare);
      var terms := LambdaTermsFrom(working, xi, FactorsOf(original, xi));
      var d := DimIn(FactorAt(hessians, 0), xi);
      && |r| == 1 + |terms.unconstrained|
      && r[0] == DualMain(terms, SumVectors(FactorGradients(hessians, FactorsOf(hessians, xi), xi, x0, d), d),
                          useLeastSquare)
      && |r[0].b| == d
  {
    var r := DualFactorsOf(original, hessians, working, xi, x0, useLeastSquare);
    var terms := LambdaTermsFrom(working, xi, FactorsOf(original, xi));
    var d := DimIn(FactorAt(hessians, 0), xi);
    var gradf := GradientFrom(Zero(d), hessians, FactorsOf(hessians, xi), xi, x0);
    GradientIsSumOfFactorGradients(hessians, FactorsOf(hessians, xi), xi, x0, d);
    PriorsAt(working, terms.unconstrained);
    assert r == [DualMain(terms, gradf, useLeastSquare)] + Priors(working, terms.unconstrained);
  }

  /**
   * The priors among the dual factors of a variable: for each recorded row,
   * a dim-by-dim unit pin with zero right-hand side on the multiplier of
   * that row's factor, the 1 falling inside the matrix.
   */
  lemma DualFactorsOfPins(original: Graph, hessians: Graph, working: Graph, xi: nat, x0: Values,
                          useLeastSquare: bool)
    requires FactorsOf(hessians, xi) != []
    ensures
      var r := DualFactorsOf(original, hessians, working, xi, x0, useLeastSquare);
      var terms := LambdaTermsFrom(working, xi, FactorsOf(original, xi));
      && |r| == 1 + |terms.unconstrained|
      && forall t :: 0 <= t < |terms.unconstrained| ==>
           var dim := |Sigmas(FactorAt(working, terms.unconstrained[t].0))|;
           terms.unconstrained[t].1 < dim &&
           r[1 + t] == Jacobian([terms.unconstrained[t].0], [UnitPin(dim, terms.unconstrained[t].1)], Zero(dim), None)
  {
    var r := DualFactorsOf(original, hessians, working, xi, x0, useLeastSquare);
    var terms := LambdaTermsFrom(working, xi, FactorsOf(original, xi));
    var priors := Priors(working, terms.unconstrained);
    PriorsAt(working, terms.unconstrained);
    LambdaTermsRows(working, xi, FactorsOf(original, xi));
    assert r[1..] == priors;
    forall t | 0 <= t < |terms.unconstrained|
      ensures terms.unconstrained[t].1 < |Sigmas(FactorAt(working, terms.unconstrained[t].0))|
      ensures r[1 + t] == ZeroPrior(working, terms.unconstrained[t])
    {
      assert terms.unconstrained[t] in terms.unconstrained;
      assert r[1 + t] == priors[t];
    }
  }
}
