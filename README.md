# Active-set QP solver (GTSAM `QPSolver`)

A Dafny model of the active-set quadratic-programming solver of GTSAM's
linear module, `gtsam/linear/QPSolver.cpp`. The problem is a Gaussian
factor graph. Every row of a constraint factor carries a sigma in its
diagonal noise model:

- a positive sigma is a soft row;
- 0 is a hard equality or an active inequality;
- a negative sigma is an inactive inequality.

The solver works on a clone of the graph, the *working graph*, and moves
inequality rows in and out of the active set by overwriting their sigmas.

The model has one module per part of the solver:

- `LinAlg` (`linalg.dfy`): vectors, matrices and `VectorValues` over exact reals.
- `Graphs` (`graphs.dfy`): factors, graphs, `Factor::find`, the variable index and the iteration order of a `KeySet`.
- `Classifier` (`classifier.dfy`): the two loops of the constructor.
- `FreeHessians` (`free_hessians.dfy`): `unconstrainedHessiansOfConstrainedVars`.
- `DualGraph` (`dual_graph.dfy`): `buildDualGraph`.
- `Selection` (`selection.dfy`): `findWorstViolatedActiveIneq` and `computeStepSize`.
- `WorkingSet` (`working_set.dfy`): the working graph as a class, and `updateWorkingSetInplace`.
- `QPSolver` (`qp_solver.dfy`): the constructor, `iterateInPlace` and `optimize`.

Each loop of the source is a Dafny method with loop invariants, proved
equal to a specification function or against a declarative property:

- most loops are proved equal to a recursive function that folds over the same elements in the same order;
- the sigma loop of `unconstrainedHessiansOfConstrainedVars` is proved equal to the sequence comprehension `FreeHessians.FreePrecisions`;
- the loop that collects the factors of the constrained variables visits the variables in an arbitrary order and is proved equal to the set comprehension `FreeHessians.IncidentFactors`; the inner loop over one variable's factors is that set comprehension itself;
- the two constructor loops are proved against what they collect (membership, range and increasing order), not against a fold.

The properties are proved as lemmas about those functions. The working graph (`WorkingSet.WorkingGraph`) and the
current solution (`QPSolver.Solution`) are classes that `IterateInPlace`
updates in place.

The solver calls three things from the graph library. Each is a
function-typed parameter:

- `solve`: `GaussianFactorGraph::optimize`, used for both the working graph and the dual graph;
- `convert`: the `HessianFactor(JacobianFactor)` conversion;
- `approxEqual`: `VectorValues::equals(…, 1e-5)`.

Two behaviours of the code are kept as written:

- The worst-violation scan tests the sigma of the *original* graph (QPSolver.cpp:215). It does not look at the working graph.
- The dimension of each variable of the dual graph is read from the first free-Hessian factor (QPSolver.cpp:113). When that factor lacks the key, `getDim(find(key))` reads the augmented right-hand-side block, whose dimension is 1 (`Graphs.DimIn`). The model keeps only this read. When the dimension read differs from the variable's own, the library fails later (see `DualGraph.BuildDualFactors` under "## Left out"); the model does not.

A mixed constraint factor gives its soft rows precision `1/sigma` and its
constraint rows precision 0 (QPSolver.cpp:70-76).

## Model

| member | source | states |
|---|---|---|
| Classifier.CollectConstraintIndices | gtsam/linear/QPSolver.cpp:21-28 | an index in range is collected iff its factor is a constrained Jacobian; every index is in range; the indices are strictly increasing, so none repeats |
| Classifier.CollectConstrainedVars | gtsam/linear/QPSolver.cpp:30-35 | a key is collected iff some factor at a collected index mentions it |
| QPSolver.NewQPSolver | gtsam/linear/QPSolver.cpp:16-40 | the solver keeps the graph, classifies it as above, and holds the free-Hessian graph of its constrained variables |
| QPSolver.ClassificationUnique | gtsam/linear/QPSolver.cpp:21-35 | any two classifications of one graph have the same constraint indices and the same constrained variables |
| Graphs.Find | gtsam/linear/QPSolver.cpp:123 | the position found holds the key and no earlier position does; a missing key gives the end position |
| Graphs.FactorsOf | gtsam/linear/QPSolver.cpp:46 | the variable index of a key lists exactly the factors that mention it, each an index into the graph |
| Graphs.FactorsOfIncreasing | gtsam/linear/QPSolver.cpp:46 | that list is in increasing factor order |
| Graphs.KeysOfFactors | gtsam/linear/QPSolver.cpp:107-112 | a key is in the variable index iff its list of factors is not empty |
| Graphs.SortedSeq | gtsam/linear/QPSolver.cpp:59 | iterating a set of indices visits its members and nothing else |
| Graphs.SortedSeqIncreasing | gtsam/linear/QPSolver.cpp:59 | it visits them in increasing order, so each once |
| FreeHessians.FreePrecisionsMeaning | gtsam/linear/QPSolver.cpp:67-76 | one precision per sigma; a precision is 0 iff its sigma is at most 1e-9, otherwise it is positive and its product with the sigma is 1; the factor is mixed iff some precision is not 0 |
| FreeHessians.ComputeFreePrecisions | gtsam/linear/QPSolver.cpp:67-76 | the loop computes those precisions, and `mixed` is true iff some sigma exceeds 1e-9 |
| FreeHessians.HessianOf | gtsam/linear/QPSolver.cpp:80 | the conversion is a Hessian factor with the Jacobian's keys |
| FreeHessians.CollectIncidentFactors | gtsam/linear/QPSolver.cpp:49-56 | the collected indices are those of all factors that mention a constrained variable |
| FreeHessians.ConvertFactor | gtsam/linear/QPSolver.cpp:60-90 | the factors one slot contributes: nothing for an empty slot or an all-constrained Jacobian; for a mixed Jacobian, the conversion of a copy with the free precisions; for an unconstrained Jacobian, its conversion; a Hessian factor as it is |
| FreeHessians.ConvertFactors | gtsam/linear/QPSolver.cpp:59-92 | the loop appends the contributions of the listed factors, in order |
| FreeHessians.UnconstrainedHessiansOfConstrainedVars | gtsam/linear/QPSolver.cpp:44-94 | the result is the contributions of the factors on constrained variables, in increasing factor order |
| FreeHessians.FreeHessianOfCount | gtsam/linear/QPSolver.cpp:59-92 | a slot contributes no factor when it is empty or a constrained Jacobian with every sigma at most 1e-9; every other slot contributes exactly one |
| FreeHessians.FreeHessianOfKeys | gtsam/linear/QPSolver.cpp:78-89 | every contributed factor has the keys of the factor it comes from |
| FreeHessians.ConcatFreeAllHessian | gtsam/linear/QPSolver.cpp:59-92 | every factor of the free-Hessian graph is a Hessian factor |
| FreeHessians.ConcatFreeSources | gtsam/linear/QPSolver.cpp:59-92 | every factor of the result has the keys of one listed original factor |
| FreeHessians.FreeHessiansSources | gtsam/linear/QPSolver.cpp:44-94 | every free-Hessian factor has the keys of an original factor that mentions a constrained variable |
| DualGraph.AccumulateFactorGradient | gtsam/linear/QPSolver.cpp:122-142 | the inner loop adds G_ij * x0_j over the key positions j of a factor, with G_ij the transpose of info(j, i) when i comes after j and info(i, j) otherwise, then subtracts the linear term of xi |
| DualGraph.ComputeGradient | gtsam/linear/QPSolver.cpp:120-143 | the loop accumulates that sum over the free-Hessian factors of the variable, in order, from the zero vector of its dimension |
| DualGraph.AddFactorGradientShift | gtsam/linear/QPSolver.cpp:121-142 | one factor's accumulation keeps the dimension and adds that factor's own gradient to the running sum |
| DualGraph.GradientIsSumOfFactorGradients | gtsam/linear/QPSolver.cpp:118-143 | the right-hand side of a variable is the sum over its free-Hessian factors of sum_j G_ij * x0_j - g_i, and has the dimension it started with |
| DualGraph.MaskedColumnsAt | gtsam/linear/QPSolver.cpp:159-169 | masking keeps the shape of A_k; an entry in the column of a row with abs(sigma) > 1e-9 is 0, and every other entry is unchanged |
| DualGraph.ZeroUnconstrainedColumns | gtsam/linear/QPSolver.cpp:160-169 | the sigma loop zeroes the columns of every row with abs(sigma) > 1e-9 and records those rows, in order |
| DualGraph.UnconstrainedRowsSpec | gtsam/linear/QPSolver.cpp:161-169 | a (factor, row) pair is recorded iff it belongs to that factor and its row has abs(sigma) > 1e-9; the record is increasing, so no row repeats |
| DualGraph.CollectLambdaTerms | gtsam/linear/QPSolver.cpp:149-172 | the loop over the factors of a variable collects the multiplier keys, their A_k and the recorded rows |
| DualGraph.LambdaTermsKeys | gtsam/linear/QPSolver.cpp:152-172 | the multiplier keys are exactly the constrained factors on the variable, with one A_k each; each A_k is the masked transpose of that factor's block for the variable |
| DualGraph.LambdaTermsKeysIncreasing | gtsam/linear/QPSolver.cpp:152-172 | the multiplier keys come in increasing factor order, so none repeats |
| DualGraph.LambdaTermsRows | gtsam/linear/QPSolver.cpp:152-172 | a (factor, row) pair is recorded iff its factor is constrained and on the variable and its row has abs(sigma) > 1e-9 |
| DualGraph.LambdaTermsRowsOrder | gtsam/linear/QPSolver.cpp:152-172 | the rows are recorded in (factor, row) order, so each once |
| DualGraph.PriorsAt | gtsam/linear/QPSolver.cpp:189-198 | there is one prior per recorded row, in record order |
| DualGraph.BuildDualFactors | gtsam/linear/QPSolver.cpp:107-198 | the loop body for one variable yields the main dual factor followed by the priors of its recorded rows, and nothing for a variable without free-Hessian factors |
| DualGraph.BuildDualGraph | gtsam/linear/QPSolver.cpp:97-202 | the dual graph concatenates the dual factors of every key of the free-Hessian variable index, in increasing key order |
| DualGraph.DualFactorsOfUnused | gtsam/linear/QPSolver.cpp:107-112 | a variable contributes no dual factor iff no free-Hessian factor mentions it |
| DualGraph.DualFactorsOfShape | gtsam/linear/QPSolver.cpp:111-186 | a variable with free-Hessian factors contributes one main factor plus one per recorded row; the main factor has the multiplier terms on the left, unit noise for least squares or all-constrained noise otherwise, and the summed gradients as its right-hand side, whose dimension is the one read from the first free-Hessian factor |
| DualGraph.DualFactorsOfPins | gtsam/linear/QPSolver.cpp:188-198 | the factor after the main one for each recorded row is a prior on that row's multiplier: a dim-by-dim matrix whose single 1 lies on the diagonal at that row, inside the matrix, and a zero right-hand side |
| LinAlg.PinResidual | gtsam/linear/QPSolver.cpp:193-197 | the residual of such a prior is the pinned multiplier entry on its row and 0 on every other row |
| Selection.ScanRowsMembership | gtsam/linear/QPSolver.cpp:210-213 | the nested loops visit exactly the rows of the listed constraint factors |
| Selection.ScanRowsOrder | gtsam/linear/QPSolver.cpp:210-213 | with increasing factor indices the loops visit rows in (factor, row) order, each once |
| Selection.WorstStepKeeps | gtsam/linear/QPSolver.cpp:213-219 | one row of the scan keeps the invariant: the choice is none, or the first inequality row with the largest positive multiplier so far |
| Selection.WorstFromInv | gtsam/linear/QPSolver.cpp:206-220 | the invariant holds after every prefix of the scan |
| Selection.WorstFromSpec | gtsam/linear/QPSolver.cpp:205-222 | over any row order: both indices are -1 or neither is; no row is chosen iff every inequality multiplier is at most 0; otherwise the chosen row is the first inequality row with the largest multiplier, which is positive |
| Selection.FindWorstViolatedActiveIneq | gtsam/linear/QPSolver.cpp:205-222 | the nested loops compute that scan over the constraint factors and their rows |
| Selection.WorstViolatedSpec | gtsam/linear/QPSolver.cpp:205-222 | (-1, -1) iff no row with original sigma < 0 has a positive multiplier; otherwise the row has original sigma < 0, the largest positive multiplier among such rows, and a multiplier strictly larger than every such row before it in (factor, row) order |
| Selection.RowDotProduct | gtsam/linear/QPSolver.cpp:250-255 | the loop over the keys of a Jacobian computes row s of its A dotted with the vector |
| Selection.StepSizeAtRow | gtsam/linear/QPSolver.cpp:246-280 | the loop body for one row: a blocking row whose ratio is below the current step replaces it, and every other row leaves it unchanged |
| Selection.StepStepKeeps | gtsam/linear/QPSolver.cpp:246-280 | one row of the ratio test keeps the invariant: the step is at most every blocking ratio so far, and is 1 with no row or the ratio of the first blocking row attaining it |
| Selection.StepFromInv | gtsam/linear/QPSolver.cpp:240-282 | the invariant holds after every prefix of the scan |
| Selection.StepFromSpec | gtsam/linear/QPSolver.cpp:236-284 | over any row order: the step is at most 1 and at most every blocking ratio; no row is chosen iff no blocking ratio is below 1, and then the step is 1; otherwise the step is the chosen row's ratio |
| Selection.ComputeStepSize | gtsam/linear/QPSolver.cpp:236-284 | the nested loops compute that scan over the constraint factors of the working graph |
| Selection.StepSizeSpec | gtsam/linear/QPSolver.cpp:236-284 | alpha <= 1 and alpha is at most the ratio of every row with working sigma < 0 and a'p > 0; (-1, -1) iff none of those has a ratio below 1; otherwise the chosen row is such a row, alpha is its ratio, and every such row before it in (factor, row) order has a strictly larger ratio |
| WorkingSet.WorkingGraph.Clone | gtsam/linear/QPSolver.cpp:331 | the working graph starts as the problem graph |
| WorkingSet.UpdateWorkingSetInPlace | gtsam/linear/QPSolver.cpp:225-233 | returns false, leaving the graph unchanged, iff either index is negative; otherwise sets that one sigma and makes the factor's model constrained |
| WorkingSet.SetSigmaFrame | gtsam/linear/QPSolver.cpp:229-231 | setting a sigma changes no other factor, none of the factor's keys, blocks or right-hand side, and no other sigma; the factor becomes constrained |
| WorkingSet.WorkingInvariantInit | gtsam/linear/QPSolver.cpp:331 | the clone satisfies the working-set invariant |
| WorkingSet.WorkingInvariantSet | gtsam/linear/QPSolver.cpp:306-321 | setting an inequality row of a constraint factor to 0 or -1 keeps the invariant, and that row exists in the working graph |
| WorkingSet.WorkingShape | gtsam/linear/QPSolver.cpp:243-245 | under the invariant a working factor has the original's kind, keys, blocks, right-hand side and row count |
| WorkingSet.WorkingInequality | gtsam/linear/QPSolver.cpp:248 | under the invariant an inactive working row is an inequality row of the problem |
| QPSolver.Solution.constructor | gtsam/linear/QPSolver.cpp:332 | the current solution starts as the initial values |
| QPSolver.WorstRowInWorking | gtsam/linear/QPSolver.cpp:304-308 | a row the worst-violation scan reports is an inequality row of a constraint factor and exists in the working graph |
| QPSolver.StepRowInWorking | gtsam/linear/QPSolver.cpp:318-321 | a row the ratio test reports is an inequality row of a constraint factor and exists in the working graph |
| QPSolver.IterateKeepsInvariant | gtsam/linear/QPSolver.cpp:287-327 | an iteration keeps every working sigma equal to the original one, or the original one negative and the working one 0 or -1 |
| QPSolver.IterateInPlace | gtsam/linear/QPSolver.cpp:287-327 | the new working graph, solution and result are one step of the iteration from the old state; the invariant is kept; a true result certifies optimality |
| QPSolver.IterateConverged | gtsam/linear/QPSolver.cpp:294-310 | an iteration returns true iff the working graph's solution equals the current one up to the tolerance and no inequality row has a positive multiplier there; the graph and the solution are then unchanged |
| QPSolver.IterateDeactivates | gtsam/linear/QPSolver.cpp:294-309 | in the no-progress branch without convergence the solution is unchanged, and the sigma of an inequality row with a positive multiplier is set to -1 |
| QPSolver.IterateSteps | gtsam/linear/QPSolver.cpp:311-324 | in the progress branch the result is false and the solution becomes x + alpha * (x* - x) with alpha <= 1; the graph is unchanged iff no row blocks; otherwise the blocking row's sigma becomes 0 |
| QPSolver.Optimize | gtsam/linear/QPSolver.cpp:330-338 | the loop runs until an iteration converges, at most `fuel` times; the returned solution and result are the state of the outer loop after that many iterations; on convergence the returned working graph keeps the invariant and certifies the returned solution optimal |
| QPSolver.RunStaysConverged | gtsam/linear/QPSolver.cpp:333-336 | once the loop has converged, further passes change neither the working graph nor the solution |
| QPSolver.RunConvergesByStep | gtsam/linear/QPSolver.cpp:333-336 | a converged state is the result of one iteration from a state that had not converged |
| QPSolver.UnconstrainedConverges | gtsam/linear/QPSolver.cpp:330-338 | with no constraint factor the loop converges within two iterations: at once when the initial values already solve the graph, otherwise after one full step onto the solution |

## Left out

- Solving a factor graph (`GaussianFactorGraph::optimize`), converting a Jacobian to a Hessian factor, and comparing two solutions with tolerance 1e-5 are calls into the graph library. They are the parameters `solve`, `convert` and `approxEqual`, with no properties assumed.
- Floating point: every quantity is an exact real. 1e-9 is the constant `Graphs.SigmaTol`. Rounding is not modelled.
- Noise models are reduced to the sigmas or precisions they carry, plus the `isConstrained` flag. `Diagonal::Precisions`, `Constrained::All` and `Unit::Create` are not modelled beyond that.
- Out-of-range reads (`at`, `getA`, `b[s]`, `lambda[j]`) are total in the model. A missing vector reads as empty and a missing entry as 0, where the library would throw or assert. The case a valid problem can reach:
  - `Selection.FindWorstViolatedActiveIneq`: `lambdas.at(factorIx)` (QPSolver.cpp:211) throws `std::out_of_range` when the dual graph has no multiplier for a constraint factor. Example: a soft factor on x0 and an equality factor (sigma 0) on y1 alone. That constraint factor is all-constrained and dropped (QPSolver.cpp:77), so the free-Hessian graph and the dual graph are empty. At the first iteration that makes no progress the source throws. The model reads a multiplier missing from `solve`'s result as 0 and so reports convergence.
- Debug printing (the `if (debug)` lines) has no effect on the result and is not modelled.
- `buildDualGraph`'s `useLeastSquare` is a parameter of `DualGraph.BuildDualGraph`. The call in `iterateInPlace` passes false, the default declared in `QPSolver.h`. That header is not part of this model.
- Optimize: the source loops until convergence, with no bound and no termination argument. The model stops after `fuel` iterations and reports whether it converged. Termination and the number of iterations needed are not proved.
- Optimize: its contract does not say that no earlier iteration converged. `QPSolver.RunConvergesByStep` and `QPSolver.RunStaysConverged` state that about the outer loop `QPSolver.Run`.
- DualGraph.BuildDualFactors: when the dimension read from free-Hessian factor 0 (QPSolver.cpp:113) differs from the variable's own dimension, the source fails. Adding `G_ij * x0_j` to `gradf_xi` (QPSolver.cpp:139) mixes vector sizes, and the `JacobianFactor` built at QPSolver.cpp:178-185 gets blocks whose row count differs from `gradf_xi`'s; the library rejects both. The model's `LinAlg.Add` keeps the length of its first operand and cuts the gradient to the dimension read. It builds the mis-shaped factor and the iteration goes on.
- No lemma proves that a step keeps every inequality feasible. That property depends on `solve` returning a true minimiser, which the model does not describe.
- `QPSolver.h`, the VariableIndex and KeySet implementations, and the rest of the library are not part of this model.
