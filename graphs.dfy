/**
 * The factor-graph vocabulary the solver works on: noise models reduced to
 * the row weights ("sigmas") they carry, Jacobian and Hessian factors, a
 * graph as a sequence of factors, and the variable index (which factors
 * mention which key, in increasing factor order).
 */
module Graphs {
  import opened LinAlg

  datatype Option<T> = None | Some(value: T)

  /** 1e-9: a row weight at or below this (or of magnitude at or below it) is a constraint row. */
  const SigmaTol: real := 0.000000001

  /**
   * A diagonal noise model. `Diagonal` is given by its sigmas: a positive
   * sigma is a soft row, 0 a hard equality or an active inequality, a
   * negative sigma an inactive inequality; `constrained` is the model's
   * isConstrained() (true for the Constrained models). `DiagonalPrecisions`
   * is the model built by Diagonal::Precisions, never constrained.
   */
  datatype NoiseModel =
    | Diagonal(constrained: bool, sigmas: seq<real>)
    | DiagonalPrecisions(precisions: seq<real>)

  /** The information blocks and linear terms of a HessianFactor. */
  datatype Quadratic = Quadratic(info: seq<seq<Matrix>>, linear: seq<Vector>)

  /**
   * A factor slot of a graph: empty (a null pointer), a Jacobian factor
   * (one block of A per key, the right-hand side b and an optional noise
   * model) or a Hessian factor (info[i][j] is the stored block of the upper
   * triangle for key positions i <= j; linear[i] the linear term of key i).
   */
  datatype Factor =
    | Null
    | Jacobian(keys: seq<nat>, blocks: seq<Matrix>, b: Vector, model: Option<NoiseModel>)
    | Hessian(keys: seq<nat>, info: seq<seq<Matrix>>, linear: seq<Vector>)

  type Graph = seq<Factor>

  function Keys(f: Factor): seq<nat> {
    if f.Null? then [] else f.keys
  }

  /** graph[i], reading a slot past the end as an empty one. */
  function FactorAt(g: Graph, i: int): Factor {
    if 0 <= i < |g| then g[i] else Null
  }

  /** JacobianFactor::isConstrained(): a Jacobian whose noise model is constrained. */
  predicate IsConstrained(f: Factor) {
    f.Jacobian? && f.model.Some? && f.model.value.Diagonal? && f.model.value.constrained
  }

  /** The sigmas of a Jacobian's diagonal noise model. */
  function Sigmas(f: Factor): seq<real> {
    if f.Jacobian? && f.model.Some? && f.model.value.Diagonal? then f.model.value.sigmas else []
  }

  /** Factor::find: the first position of k among the keys, or |keys| (end) when absent. */
  function Find(keys: seq<nat>, k: nat): (p: nat)
    ensures p <= |keys|
    ensures p < |keys| ==> keys[p] == k
    ensures forall q :: 0 <= q < p ==> keys[q] != k
  {
    if keys == [] then 0
    else if keys[0] == k then 0
    else 1 + Find(keys[1..], k)
  }

  /** The A block of a Jacobian at a key position. */
  function BlockAt(f: Factor, pos: nat): Matrix {
    if f.Jacobian? && pos < |f.blocks| then f.blocks[pos] else []
  }

  function Rhs(f: Factor): Vector {
    if f.Jacobian? then f.b else []
  }

  /** HessianFactor::info(i, j), a stored block of the upper triangle. */
  function Info(f: Factor, i: nat, j: nat): Matrix {
    if f.Hessian? && i < |f.info| && j < |f.info[i]| then f.info[i][j] else []
  }

  /** HessianFactor::linearTerm at a key position. */
  function LinearTerm(f: Factor, i: nat): Vector {
    if f.Hessian? && i < |f.linear| then f.linear[i] else []
  }

  /**
   * HessianFactor::getDim(find(k)): the dimension of k's block when k is in
   * the factor; when it is not, find returns end() and the block read is
   * the augmented right-hand-side column, whose dimension is 1.
   */
  function DimIn(f: Factor, k: nat): nat {
    var p := Find(Keys(f), k);
    if p < |Keys(f)| then |LinearTerm(f, p)| else 1
  }

  /** Strictly increasing: each element below the one after it. */
  predicate Increasing(s: seq<nat>) {
    |s| <= 1 || (s[|s| - 2] < s[|s| - 1] && Increasing(s[..|s| - 1]))
  }

  /** Strictly increasing is every earlier element below every later one. */
  lemma {:induction false} IncreasingPairs(s: seq<nat>)
    ensures Increasing(s) <==> forall a, b :: 0 <= a < b < |s| ==> s[a] < s[b]
  {
    if |s| > 1 {
      var front := s[..|s| - 1];
      IncreasingPairs(front);
      if Increasing(s) {
        forall a, b | 0 <= a < b < |s| ensures s[a] < s[b] {
          if b < |s| - 1 {
            assert s[a] == front[a] && s[b] == front[b];
          } else if a < |s| - 2 {
            assert s[a] == front[a] && s[|s| - 2] == front[|s| - 2];
          }
        }
      }
      if forall a, b :: 0 <= a < b < |s| ==> s[a] < s[b] {
        forall a, b | 0 <= a < b < |front| ensures front[a] < front[b] {
          assert front[a] == s[a] && front[b] == s[b];
        }
      }
    }
  }

  /** In an increasing sequence every earlier element is below the last. */
  lemma IncreasingLast(s: seq<nat>)
    requires Increasing(s) && s != []
    ensures forall t :: 0 <= t < |s| - 1 ==> s[t] < s[|s| - 1]
  {
    IncreasingPairs(s);
  }

  /** The order of (factor index, row) pairs: by factor, then by row. */
  predicate LexLess(p: (nat, nat), q: (nat, nat)) {
    p.0 < q.0 || (p.0 == q.0 && p.1 < q.1)
  }

  /** Strictly increasing in (factor, row) order, so no pair occurs twice. */
  predicate LexIncreasing(rows: seq<(nat, nat)>) {
    forall a, b :: 0 <= a < b < |rows| ==> LexLess(rows[a], rows[b])
  }

  /** VariableIndex(g)[k]: the indices of the factors that mention k, in increasing order. */
  function FactorsOf(g: Graph, k: nat): (r: seq<nat>)
    ensures forall i: nat :: i in r <==> i < |g| && k in Keys(g[i])
    ensures forall t :: 0 <= t < |r| ==> r[t] < |g|
  {
    if g == [] then []
    else FactorsOf(g[..|g| - 1], k) + (if k in Keys(g[|g| - 1]) then [|g| - 1] else [])
  }

  /** The variable index lists a key's factors in increasing order. */
  lemma {:induction false} FactorsOfIncreasing(g: Graph, k: nat)
    ensures Increasing(FactorsOf(g, k))
  {
    if g != [] {
      var front := FactorsOf(g[..|g| - 1], k);
      FactorsOfIncreasing(g[..|g| - 1], k);
      if k in Keys(g[|g| - 1]) {
        var r := front + [|g| - 1];
        assert FactorsOf(g, k) == r;
        assert r[..|r| - 1] == front;
        if |front| > 0 {
          assert front[|front| - 1] < |g| - 1;
        }
      } else {
        assert FactorsOf(g, k) == front;
      }
    }
  }

  function Elements(s: seq<nat>): set<nat> {
    set x | x in s
  }

  /** The keys of VariableIndex(g): every key some factor of g mentions. */
  function KeysOf(g: Graph): set<nat> {
    if g == [] then {}
    else KeysOf(g[..|g| - 1]) + Elements(Keys(g[|g| - 1]))
  }

  /** A key is in the variable index exactly when some factor mentions it. */
  lemma {:induction false} KeysOfFactors(g: Graph, k: nat)
    ensures k in KeysOf(g) <==> FactorsOf(g, k) != []
  {
    if g != [] {
      KeysOfFactors(g[..|g| - 1], k);
    }
  }

  /** A least element of a non-empty set of naturals. */
  lemma {:induction false} SmallestElement(s: set<nat>) returns (m: nat)
    requires s != {}
    ensures m in s && forall y :: y in s ==> m <= y
    decreases |s|
  {
    var x :| x in s;
    var rest := s - {x};
    if rest == {} {
      m := x;
      forall y | y in s ensures m <= y {
        assert y !in rest;
      }
    } else {
      assert |rest| < |s|;
      var least := SmallestElement(rest);
      m := if x < least then x else least;
      forall y | y in s ensures m <= y {
        if y != x {
          assert y in rest;
        }
      }
    }
  }

  function SetMin(s: set<nat>): (m: nat)
    requires s != {}
    ensures m in s && forall y :: y in s ==> m <= y
  {
    assert exists m :: m in s && forall y :: y in s ==> m <= y by {
      var w := SmallestElement(s);
    }
    var m :| m in s && forall y :: y in s ==> m <= y;
    m
  }

  /** The elements of a std::set in its iteration order: increasing. */
  function SortedSeq(s: set<nat>): (r: seq<nat>)
    ensures forall x :: x in r <==> x in s
    decreases |s|
  {
    if s == {} then []
    else
      var m := SetMin(s);
      [m] + SortedSeq(s - {m})
  }

  /** Iterating a set visits its members in increasing order. */
  lemma {:induction false} SortedSeqIncreasing(s: set<nat>)
    ensures Increasing(SortedSeq(s))
    decreases |s|
  {
    if s != {} {
      var m := SetMin(s);
      var rest := SortedSeq(s - {m});
      var r := SortedSeq(s);
      SortedSeqIncreasing(s - {m});
      IncreasingPairs(rest);
      assert r == [m] + rest;
      forall a, b | 0 <= a < b < |r| ensures r[a] < r[b] {
        assert r[b] == rest[b - 1];
        if a > 0 {
          assert r[a] == rest[a - 1];
        } else {
          assert rest[b - 1] in s - {m};
        }
      }
      IncreasingPairs(r);
    }
  }
}
