/**
 * The two scans of the active-set method over the rows of the constraint
 * factors: the worst violated active inequality (the largest positive
 * multiplier on an inequality row) and the step size (the first inactive
 * inequality the step would cross). Both visit the constraint factors in
 * the order of the constraint indices and the rows of each in order, and
 * both keep the first row that attains the extreme.
 */
module Selection {
  import opened LinAlg
  import opened Graphs

  /** The rows (f, 0), ..., (f, n - 1) of one factor. */
  function RowsOf(f: nat, n: nat): seq<(nat, nat)> {
    seq(n, s => (f, s))
  }

  /** The (factor, row) pairs the nested loops visit, in visiting order. */
  function ScanRows(g: Graph, idx: seq<nat>): seq<(nat, nat)> {
    if idx == [] then []
    else
      var f := idx[|idx| - 1];
      ScanRows(g, idx[..|idx| - 1]) + RowsOf(f, |Sigmas(FactorAt(g, f))|)
  }

  /** A row of one of the listed factors. */
  predicate IsRow(g: Graph, idx: seq<nat>, f: nat, s: nat) {
    f in idx && s < |Sigmas(FactorAt(g, f))|
  }

  /** The selected factor index and row (-1 for none) and the extreme value reached. */
  datatype Choice = Choice(factorIx: int, sigmaIx: int, value: real)

  /** The sigma of a row of a graph. */
  function SigmaOf(g: Graph, row: (nat, nat)): real {
    Entry(Sigmas(FactorAt(g, row.0)), row.1)
  }

  /** The multiplier of a row: entry row.1 of the dual value stored under the factor index. */
  function Lambda(lambdas: Values, row: (nat, nat)): real {
    Entry(At(lambdas, row.0), row.1)
  }

  /** Folding a scan over one more row is one more step. */
  lemma ScanRowsStep(g: Graph, idx: seq<nat>, t: nat)
    requires t < |idx|
    ensures ScanRows(g, idx[..t + 1]) == ScanRows(g, idx[..t]) + RowsOf(idx[t], |Sigmas(FactorAt(g, idx[t]))|)
  {
    assert idx[..t + 1][..t] == idx[..t];
  }

  lemma RowsOfStep(f: nat, n: nat)
    ensures RowsOf(f, n + 1) == RowsOf(f, n) + [(f, n)]
  {
  }

  /** The scan visits exactly the rows of the listed factors. */
  lemma {:induction false} ScanRowsMembership(g: Graph, idx: seq<nat>)
    ensures forall row :: row in ScanRows(g, idx) <==> IsRow(g, idx, row.0, row.1)
  {
    if idx != [] {
      var n := |idx| - 1;
      var f := idx[n];
      ScanRowsMembership(g, idx[..n]);
      assert idx == idx[..n] + [f];
      forall row ensures row in ScanRows(g, idx) <==> IsRow(g, idx, row.0, row.1) {
        if row.0 == f && row.1 < |Sigmas(FactorAt(g, f))| {
          assert row == RowsOf(f, |Sigmas(FactorAt(g, f))|)[row.1];
        }
      }
    }
  }

  /** With increasing factor indices the scan is in (factor, row) order, each row once. */
  lemma {:induction false} ScanRowsOrder(g: Graph, idx: seq<nat>)
    requires Increasing(idx)
    ensures LexIncreasing(ScanRows(g, idx))
  {
    if idx != [] {
      var n := |idx| - 1;
      var f := idx[n];
      IncreasingPairs(idx);
      ScanRowsOrder(g, idx[..n]);
      ScanRowsMembership(g, idx[..n]);
      var front := ScanRows(g, idx[..n]);
      var tail := RowsOf(f, |Sigmas(FactorAt(g, f))|);
      var all := front + tail;
      forall a, b | 0 <= a < b < |all| ensures LexLess(all[a], all[b]) {
        if b < |front| {
        } else if a < |front| {
          assert all[a] in front;
          assert all[a].0 in idx[..n];
          assert all[b] == tail[b - |front|];
        } else {
          assert all[a] == tail[a - |front|];
          assert all[b] == tail[b - |front|];
        }
      }
    }
  }

  /** In a scan without repeats, an earlier position is an earlier row. */
  lemma PositionOrder(rows: seq<(nat, nat)>, p: nat, q: nat)
    requires LexIncreasing(rows) && p < |rows| && q < |rows|
    requires LexLess(rows[q], rows[p])
    ensures q < p
  {
  }

  // ------------------------------------------------------------------
  // findWorstViolatedActiveIneq

  /** One row of the worst-violation scan: an inequality row whose multiplier beats the best so far. */
  function WorstStep(original: Graph, lambdas: Values, c: Choice, row: (nat, nat)): Choice {
    if SigmaOf(original, row) < 0.0 && Lambda(lambdas, row) > c.value
    then Choice(row.0, row.1, Lambda(lambdas, row))
    else c
  }

  /** The worst-violation scan over `rows`, from no choice and a threshold of 0. */
  function WorstFrom(original: Graph, lambdas: Values, rows: seq<(nat, nat)>): Choice {
    if rows == [] then Choice(-1, -1, 0.0)
    else WorstStep(original, lambdas, WorstFrom(original, lambdas, rows[..|rows| - 1]), rows[|rows| - 1])
  }

  /** findWorstViolatedActiveIneq as a value. */
  function WorstViolated(original: Graph, idx: seq<nat>, lambdas: Values): Choice {
    WorstFrom(original, lambdas, ScanRows(original, idx))
  }

  lemma WorstFromSnoc(original: Graph, lambdas: Values, rows: seq<(nat, nat)>, row: (nat, nat))
    ensures WorstFrom(original, lambdas, rows + [row]) == WorstStep(original, lambdas, WorstFrom(original, lambdas, rows), row)
  {
    assert (rows + [row])[..|rows|] == rows;
  }

  /** Row p of the scan is an inequality row with multiplier `value` and no earlier such row reaches it. */
  predicate WorstAt(original: Graph, lambdas: Values, rows: seq<(nat, nat)>, c: Choice, p: nat) {
    && p < |rows| && rows[p].0 == c.factorIx && rows[p].1 == c.sigmaIx
    && SigmaOf(original, rows[p]) < 0.0 && Lambda(lambdas, rows[p]) == c.value
    && forall q :: 0 <= q < p && SigmaOf(original, rows[q]) < 0.0 ==> Lambda(lambdas, rows[q]) < c.value
  }

  /** What holds of the worst-violation scan after any prefix of the rows. */
  ghost predicate WorstInv(original: Graph, lambdas: Values, rows: seq<(nat, nat)>, c: Choice) {
    && ((c.factorIx == -1 && c.sigmaIx == -1 && c.value == 0.0)
        || (c.value > 0.0 && exists p: nat :: WorstAt(original, lambdas, rows, c, p)))
    && forall q :: 0 <= q < |rows| && SigmaOf(original, rows[q]) < 0.0 ==> Lambda(lambdas, rows[q]) <= c.value
  }

  lemma WorstStepKeeps(original: Graph, lambdas: Values, rows: seq<(nat, nat)>, row: (nat, nat), prev: Choice)
    requires WorstInv(original, lambdas, rows, prev)
    ensures WorstInv(original, lambdas, rows + [row], WorstStep(original, lambdas, prev, row))
  {
    var all := rows + [row];
    var c := WorstStep(original, lambdas, prev, row);
    assert forall q :: 0 <= q < |rows| ==> all[q] == rows[q];
    if SigmaOf(original, row) < 0.0 && Lambda(lambdas, row) > prev.value {
      assert WorstAt(original, lambdas, all, c, |rows|);
    } else if !(prev.factorIx == -1 && prev.sigmaIx == -1 && prev.value == 0.0) {
      var p: nat :| WorstAt(original, lambdas, rows, prev, p);
      assert WorstAt(original, lambdas, all, c, p);
    }
  }

  lemma {:induction false} WorstFromInv(original: Graph, lambdas: Values, rows: seq<(nat, nat)>)
    ensures WorstInv(original, lambdas, rows, WorstFrom(original, lambdas, rows))
  {
    if rows != [] {
      var n := |rows| - 1;
      WorstFromInv(original, lambdas, rows[..n]);
      assert rows == rows[..n] + [rows[n]];
      WorstStepKeeps(original, lambdas, rows[..n], rows[n], WorstFrom(original, lambdas, rows[..n]));
    }
  }

  /**
   * The scan returns the first inequality row with the largest positive
   * multiplier, and no row exactly when every inequality multiplier is at
   * most 0.
   */
  lemma WorstFromSpec(original: Graph, lambdas: Values, rows: seq<(nat, nat)>)
    ensures var c := WorstFrom(original, lambdas, rows);
      && (c.factorIx == -1 <==> c.sigmaIx == -1)
      && (c.factorIx == -1 ==> c.value == 0.0)
      && (forall q :: 0 <= q < |rows| && SigmaOf(original, rows[q]) < 0.0 ==> Lambda(lambdas, rows[q]) <= c.value)
      && (c.factorIx == -1 <==>
            forall q :: 0 <= q < |rows| && SigmaOf(original, rows[q]) < 0.0 ==> Lambda(lambdas, rows[q]) <= 0.0)
      && (c.factorIx != -1 ==> c.value > 0.0 && exists p: nat :: WorstAt(original, lambdas, rows, c, p))
  {
    var c := WorstFrom(original, lambdas, rows);
    WorstFromInv(original, lambdas, rows);
    if c.factorIx != -1 {
      var p: nat :| WorstAt(original, lambdas, rows, c, p);
      assert SigmaOf(original, rows[p]) < 0.0 && Lambda(lambdas, rows[p]) > 0.0;
    }
  }

  method FindWorstViolatedActiveIneq(graph: Graph, constraintIndices: seq<nat>, lambdas: Values)
    returns (worstFactorIx: int, worstSigmaIx: int)
    ensures worstFactorIx == WorstViolated(graph, constraintIndices, lambdas).factorIx
    ensures worstSigmaIx == WorstViolated(graph, constraintIndices, lambdas).sigmaIx
  {
    worstFactorIx, worstSigmaIx := -1, -1;
    // a multiplier at most 0 marks an inactive or a satisfied inequality
    var maxLambda := 0.0;
    for t := 0 to |constraintIndices|
      invariant Choice(worstFactorIx, worstSigmaIx, maxLambda) == WorstFrom(graph, lambdas, ScanRows(graph, constraintIndices[..t]))
    {
      var factorIx := constraintIndices[t];
      var lambda := At(lambdas, factorIx);
      var orgSigmas := Sigmas(FactorAt(graph, factorIx));
      ghost var done := ScanRows(graph, constraintIndices[..t]);
      assert done + RowsOf(factorIx, 0) == done;
      for j := 0 to |orgSigmas|
        invariant Choice(worstFactorIx, worstSigmaIx, maxLambda) == WorstFrom(graph, lambdas, done + RowsOf(factorIx, j))
      {
        RowsOfStep(factorIx, j);
        assert done + RowsOf(factorIx, j + 1) == (done + RowsOf(factorIx, j)) + [(factorIx, j)];
        WorstFromSnoc(graph, lambdas, done + RowsOf(factorIx, j), (factorIx, j));
        if orgSigmas[j] < 0.0 && Entry(lambda, j) > maxLambda {
          worstFactorIx, worstSigmaIx := factorIx, j;
          maxLambda := Entry(lambda, j);
        }
      }
      ScanRowsStep(graph, constraintIndices, t);
    }
    assert constraintIndices[..|constraintIndices|] == constraintIndices;
  }

  /**
   * On the constraint indices of a graph: no row is reported exactly when
   * every inequality row's multiplier is at most 0; otherwise the reported
   * row is an inequality row of a listed factor whose multiplier is positive,
   * at least that of every inequality row, and strictly greater than that of
   * every inequality row before it.
   */
  lemma WorstViolatedSpec(original: Graph, idx: seq<nat>, lambdas: Values)
    requires Increasing(idx)
    ensures var c := WorstViolated(original, idx, lambdas);
      && (c.factorIx == -1 <==> c.sigmaIx == -1)
      && (c.factorIx == -1 <==>
            forall f: nat, s: nat :: IsRow(original, idx, f, s) && SigmaOf(original, (f, s)) < 0.0 ==>
              Lambda(lambdas, (f, s)) <= 0.0)
      && (c.factorIx != -1 ==>
            && c.factorIx >= 0 && c.sigmaIx >= 0
            && IsRow(original, idx, c.factorIx, c.sigmaIx)
            && SigmaOf(original, (c.factorIx, c.sigmaIx)) < 0.0
            && Lambda(lambdas, (c.factorIx, c.sigmaIx)) == c.value > 0.0
            && (forall f: nat, s: nat :: IsRow(original, idx, f, s) && SigmaOf(original, (f, s)) < 0.0 ==>
                  Lambda(lambdas, (f, s)) <= c.value)
            && (forall f: nat, s: nat ::
                  (IsRow(original, idx, f, s) && SigmaOf(original, (f, s)) < 0.0
                   && LexLess((f, s), (c.factorIx, c.sigmaIx))) ==> Lambda(lambdas, (f, s)) < c.value))
  {
    var rows := ScanRows(original, idx);
    var c := WorstViolated(original, idx, lambdas);
    WorstFromSpec(original, lambdas, rows);
    ScanRowsMembership(original, idx);
    ScanRowsOrder(original, idx);
    forall f: nat, s: nat | IsRow(original, idx, f, s)
      ensures exists q :: 0 <= q < |rows| && rows[q] == (f, s)
    {
      assert (f, s) in rows;
    }
    if c.factorIx != -1 {
      var p: nat :| WorstAt(original, lambdas, rows, c, p);
      assert rows[p] in rows;
      forall f: nat, s: nat | IsRow(original, idx, f, s) && SigmaOf(original, (f, s)) < 0.0
                              && LexLess((f, s), (c.factorIx, c.sigmaIx))
        ensures Lambda(lambdas, (f, s)) < c.value
      {
        var q :| 0 <= q < |rows| && rows[q] == (f, s);
        PositionOrder(rows, p, q);
      }
    }
  }

  // ------------------------------------------------------------------
  // computeStepSize

  /** Row s of the A blocks of f dotted with v, over the first n key positions: sum_j A_j(s, :) . v_j. */
  function RowDotUpTo(f: Factor, s: nat, v: Values, n: nat): real
    requires n <= |Keys(f)|
  {
    if n == 0 then 0.0 else RowDotUpTo(f, s, v, n - 1) + Dot(Row(BlockAt(f, n - 1), s), At(v, Keys(f)[n - 1]))
  }

  /** a_s' * v: row s of the whole A of a Jacobian dotted with v. */
  function RowDot(f: Factor, s: nat, v: Values): real {
    RowDotUpTo(f, s, v, |Keys(f)|)
  }

  /** The ratio (b_s - a_s' * x) / (a_s' * p): how far along p row s stays satisfied. */
  function Ratio(working: Graph, x: Values, p: Values, row: (nat, nat)): real
    requires RowDot(FactorAt(working, row.0), row.1, p) != 0.0
  {
    var f := FactorAt(working, row.0);
    (Entry(Rhs(f), row.1) - RowDot(f, row.1, x)) / RowDot(f, row.1, p)
  }

  lemma RatioOf(working: Graph, x: Values, p: Values, f: nat, s: nat, bs: real, ajTx: real, ajTp: real)
    requires ajTp == RowDot(FactorAt(working, f), s, p) && ajTp > 0.0
    requires ajTx == RowDot(FactorAt(working, f), s, x) && bs == Entry(Rhs(FactorAt(working, f)), s)
    ensures (bs - ajTx) / ajTp == Ratio(working, x, p, (f, s))
  {
  }

  /** An inactive inequality row of the working graph that the direction p moves towards. */
  predicate Blocking(working: Graph, p: Values, row: (nat, nat)) {
    SigmaOf(working, row) < 0.0 && RowDot(FactorAt(working, row.0), row.1, p) > 0.0
  }

  /** One row of the step-size scan: a blocking row whose ratio is below the smallest so far. */
  function StepStep(working: Graph, x: Values, p: Values, c: Choice, row: (nat, nat)): Choice {
    if Blocking(working, p, row) && Ratio(working, x, p, row) < c.value
    then Choice(row.0, row.1, Ratio(working, x, p, row))
    else c
  }

  /** The step-size scan over `rows`, from no choice and the full step 1. */
  function StepFrom(working: Graph, x: Values, p: Values, rows: seq<(nat, nat)>): Choice {
    if rows == [] then Choice(-1, -1, 1.0)
    else StepStep(working, x, p, StepFrom(working, x, p, rows[..|rows| - 1]), rows[|rows| - 1])
  }

  /** computeStepSize as a value: (alpha, factor, row). */
  function StepSize(working: Graph, idx: seq<nat>, x: Values, p: Values): Choice {
    StepFrom(working, x, p, ScanRows(working, idx))
  }

  lemma StepFromSnoc(working: Graph, x: Values, p: Values, rows: seq<(nat, nat)>, row: (nat, nat))
    ensures StepFrom(working, x, p, rows + [row]) == StepStep(working, x, p, StepFrom(working, x, p, rows), row)
  {
    assert (rows + [row])[..|rows|] == rows;
  }

  /** One more row of a factor is one more step of the scan. */
  lemma StepFromRow(working: Graph, x: Values, p: Values, done: seq<(nat, nat)>, f: nat, s: nat)
    ensures StepFrom(working, x, p, done + RowsOf(f, s + 1)) ==
      StepStep(working, x, p, StepFrom(working, x, p, done + RowsOf(f, s)), (f, s))
  {
    RowsOfStep(f, s);
    assert done + RowsOf(f, s + 1) == (done + RowsOf(f, s)) + [(f, s)];
    StepFromSnoc(working, x, p, done + RowsOf(f, s), (f, s));
  }

  /** Row p of the scan is blocking with ratio `value` and every earlier blocking row has a larger ratio. */
  predicate ClosestAt(working: Graph, x: Values, p: Values, rows: seq<(nat, nat)>, c: Choice, k: nat) {
    && k < |rows| && rows[k].0 == c.factorIx && rows[k].1 == c.sigmaIx
    && Blocking(working, p, rows[k]) && Ratio(working, x, p, rows[k]) == c.value
    && forall q :: 0 <= q < k && Blocking(working, p, rows[q]) ==> Ratio(working, x, p, rows[q]) > c.value
  }

  /** What holds of the step-size scan after any prefix of the rows. */
  ghost predicate StepInv(working: Graph, x: Values, p: Values, rows: seq<(nat, nat)>, c: Choice) {
    && ((c.factorIx == -1 && c.sigmaIx == -1 && c.value == 1.0)
        || (c.value < 1.0 && exists k: nat :: ClosestAt(working, x, p, rows, c, k)))
    && forall q :: 0 <= q < |rows| && Blocking(working, p, rows[q]) ==> c.value <= Ratio(working, x, p, rows[q])
  }

  lemma StepStepKeeps(working: Graph, x: Values, p: Values, rows: seq<(nat, nat)>, row: (nat, nat), prev: Choice)
    requires StepInv(working, x, p, rows, prev)
    ensures StepInv(working, x, p, rows + [row], StepStep(working, x, p, prev, row))
  {
    var all := rows + [row];
    var c := StepStep(working, x, p, prev, row);
    assert forall q :: 0 <= q < |rows| ==> all[q] == rows[q];
    if Blocking(working, p, row) && Ratio(working, x, p, row) < prev.value {
      assert ClosestAt(working, x, p, all, c, |rows|);
    } else if !(prev.factorIx == -1 && prev.sigmaIx == -1 && prev.value == 1.0) {
      var k: nat :| ClosestAt(working, x, p, rows, prev, k);
      assert ClosestAt(working, x, p, all, c, k);
    }
  }

  lemma {:induction false} StepFromInv(working: Graph, x: Values, p: Values, rows: seq<(nat, nat)>)
    ensures StepInv(working, x, p, rows, StepFrom(working, x, p, rows))
  {
    if rows != [] {
      var n := |rows| - 1;
      StepFromInv(working, x, p, rows[..n]);
      assert rows == rows[..n] + [rows[n]];
      StepStepKeeps(working, x, p, rows[..n], rows[n], StepFrom(working, x, p, rows[..n]));
    }
  }

  /**
   * The step is at most 1 and at most every blocking row's ratio; no row
   * is reported exactly when no blocking row has a ratio below 1 (and then
   * the step is 1); otherwise the reported row is the first blocking row of
   * smallest ratio, and the step is that ratio.
   */
  lemma StepFromSpec(working: Graph, x: Values, p: Values, rows: seq<(nat, nat)>)
    ensures var c := StepFrom(working, x, p, rows);
      && c.value <= 1.0
      && (c.factorIx == -1 <==> c.sigmaIx == -1)
      && (c.factorIx == -1 ==> c.value == 1.0)
      && (forall q :: 0 <= q < |rows| && Blocking(working, p, rows[q]) ==> c.value <= Ratio(working, x, p, rows[q]))
      && (c.factorIx == -1 <==>
            forall q :: 0 <= q < |rows| && Blocking(working, p, rows[q]) ==> Ratio(working, x, p, rows[q]) >= 1.0)
      && (c.factorIx != -1 ==> c.value < 1.0 && exists k: nat :: ClosestAt(working, x, p, rows, c, k))
  {
    var c := StepFrom(working, x, p, rows);
    StepFromInv(working, x, p, rows);
    if c.factorIx != -1 {
      var k: nat :| ClosestAt(working, x, p, rows, c, k);
      assert Blocking(working, p, rows[k]) && Ratio(working, x, p, rows[k]) < 1.0;
    }
  }

  /** The loop over the keys of a Jacobian: row s of its A dotted with v. */
  method RowDotProduct(jacobian: Factor, s: nat, v: Values) returns (sum: real)
    ensures sum == RowDot(jacobian, s, v)
  {
    var keys := Keys(jacobian);
    sum := 0.0;
    for xj := 0 to |keys|
      invariant sum == RowDotUpTo(jacobian, s, v, xj)
    {
      var vj := At(v, keys[xj]);
      var aj := Row(BlockAt(jacobian, xj), s);
      sum := sum + Dot(aj, vj);
    }
  }

  /** The body of the loop over the rows: the ratio test of row s of one constraint factor. */
  method StepSizeAtRow(workingGraph: Graph, factorIx: nat, s: nat, xk: Values, p: Values,
                       alpha0: real, factorIx0: int, sigmaIx0: int)
    returns (minAlpha: real, closestFactorIx: int, closestSigmaIx: int)
    ensures Choice(closestFactorIx, closestSigmaIx, minAlpha) ==
      StepStep(workingGraph, xk, p, Choice(factorIx0, sigmaIx0, alpha0), (factorIx, s))
  {
    minAlpha, closestFactorIx, closestSigmaIx := alpha0, factorIx0, sigmaIx0;
    var jacobian := FactorAt(workingGraph, factorIx);
    // an inactive inequality: how far can the step go before it is violated?
    if Entry(Sigmas(jacobian), s) < 0.0 {
      var ajTp := RowDotProduct(jacobian, s, p);
      // a row the step moves away from never blocks it
      if ajTp <= 0.0 {
        return;
      }
      var ajTx := RowDotProduct(jacobian, s, xk);
      var alpha := (Entry(Rhs(jacobian), s) - ajTx) / ajTp;
      RatioOf(workingGraph, xk, p, factorIx, s, Entry(Rhs(jacobian), s), ajTx, ajTp);
      if alpha < minAlpha {
        closestFactorIx, closestSigmaIx := factorIx, s;
        minAlpha := alpha;
      }
    }
  }

  method ComputeStepSize(workingGraph: Graph, constraintIndices: seq<nat>, xk: Values, p: Values)
    returns (minAlpha: real, closestFactorIx: int, closestSigmaIx: int)
    ensures Choice(closestFactorIx, closestSigmaIx, minAlpha) == StepSize(workingGraph, constraintIndices, xk, p)
  {
    minAlpha := 1.0;
    closestFactorIx, closestSigmaIx := -1, -1;
    for t := 0 to |constraintIndices|
      invariant Choice(closestFactorIx, closestSigmaIx, minAlpha) ==
        StepFrom(workingGraph, xk, p, ScanRows(workingGraph, constraintIndices[..t]))
    {
      var factorIx := constraintIndices[t];
      var sigmas := Sigmas(FactorAt(workingGraph, factorIx));
      ghost var done := ScanRows(workingGraph, constraintIndices[..t]);
      assert done + RowsOf(factorIx, 0) == done;
      for s := 0 to |sigmas|
        invariant Choice(closestFactorIx, closestSigmaIx, minAlpha) == StepFrom(workingGraph, xk, p, done + RowsOf(factorIx, s))
      {
        StepFromRow(workingGraph, xk, p, done, factorIx, s);
        minAlpha, closestFactorIx, closestSigmaIx :=
          StepSizeAtRow(workingGraph, factorIx, s, xk, p, minAlpha, closestFactorIx, closestSigmaIx);
      }
      ScanRowsStep(workingGraph, constraintIndices, t);
    }
    assert constraintIndices[..|constraintIndices|] == constraintIndices;
  }

  /**
   * On the constraint indices of the working graph: the step is at most 1
   * and at most the ratio of every blocking row; no row is reported exactly
   * when no blocking row has a ratio below 1; otherwise the reported row is
   * a blocking row of a listed factor, its ratio is the step, and every
   * blocking row before it has a strictly larger ratio.
   */
  lemma StepSizeSpec(working: Graph, idx: seq<nat>, x: Values, p: Values)
    requires Increasing(idx)
    ensures var c := StepSize(working, idx, x, p);
      && c.value <= 1.0
      && (c.factorIx == -1 <==> c.sigmaIx == -1)
      && (forall f: nat, s: nat :: IsRow(working, idx, f, s) && Blocking(working, p, (f, s)) ==>
            c.value <= Ratio(working, x, p, (f, s)))
      && (c.factorIx == -1 <==>
            forall f: nat, s: nat :: IsRow(working, idx, f, s) && Blocking(working, p, (f, s)) ==>
              Ratio(working, x, p, (f, s)) >= 1.0)
      && (c.factorIx != -1 ==>
            && c.factorIx >= 0 && c.sigmaIx >= 0
            && IsRow(working, idx, c.factorIx, c.sigmaIx)
            && Blocking(working, p, (c.factorIx, c.sigmaIx))
            && Ratio(working, x, p, (c.factorIx, c.sigmaIx)) == c.value < 1.0
            && (forall f: nat, s: nat ::
                  (IsRow(working, idx, f, s) && Blocking(working, p, (f, s))
                   && LexLess((f, s), (c.factorIx, c.sigmaIx))) ==> Ratio(working, x, p, (f, s)) > c.value))
  {
    var rows := ScanRows(working, idx);
    var c := StepSize(working, idx, x, p);
    StepFromSpec(working, x, p, rows);
    ScanRowsMembership(working, idx);
    ScanRowsOrder(working, idx);
    forall f: nat, s: nat | IsRow(working, idx, f, s)
      ensures exists q :: 0 <= q < |rows| && rows[q] == (f, s)
    {
      assert (f, s) in rows;
    }
    if c.factorIx != -1 {
      var k: nat :| ClosestAt(working, x, p, rows, c, k);
      assert rows[k] in rows;
      forall f: nat, s: nat | IsRow(working, idx, f, s) && Blocking(working, p, (f, s))
                              && LexLess((f, s), (c.factorIx, c.sigmaIx))
        ensures Ratio(working, x, p, (f, s)) > c.value
      {
        var q :| 0 <= q < |rows| && rows[q] == (f, s);
        PositionOrder(rows, k, q);
      }
    }
  }
}
