/**
 * Dense vectors and matrices over exact reals, and the key-indexed value
 * container (a VectorValues) that holds a primal or dual solution.
 *
 * Every operation is total: an index past the end of a vector reads as 0
 * and a key missing from a value container reads as the empty vector.
 * The library the solver calls would throw or assert in those cases. A
 * valid problem can reach one of them: `lambdas.at` in the worst-violation
 * scan, when the dual graph has no multiplier for a constraint factor.
 */
module LinAlg {

  type Vector = seq<real>

  /** Row-major: M[r] is row r. */
  type Matrix = seq<Vector>

  /** One vector per variable (or per multiplier) key. */
  type Values = map<nat, Vector>

  function Entry(v: Vector, i: nat): real {
    if i < |v| then v[i] else 0.0
  }

  function Zero(n: nat): Vector {
    seq(n, _ => 0.0)
  }

  function Ones(n: nat): Vector {
    seq(n, _ => 1.0)
  }

  /** Sum over the entries of u of u[i] * v[i]. */
  function Dot(u: Vector, v: Vector): real {
    if u == [] then 0.0 else Dot(u[..|u| - 1], v) + u[|u| - 1] * Entry(v, |u| - 1)
  }

  /** u + v, with the length of u. */
  function Add(u: Vector, v: Vector): Vector {
    seq(|u|, i requires 0 <= i < |u| => u[i] + Entry(v, i))
  }

  /** u - v, with the length of u. */
  function Sub(u: Vector, v: Vector): Vector {
    seq(|u|, i requires 0 <= i < |u| => u[i] - Entry(v, i))
  }

  function Scale(a: real, v: Vector): Vector {
    seq(|v|, i requires 0 <= i < |v| => a * v[i])
  }

  function Neg(v: Vector): Vector {
    seq(|v|, i requires 0 <= i < |v| => -v[i])
  }

  function Row(m: Matrix, r: nat): Vector {
    if r < |m| then m[r] else []
  }

  function Cols(m: Matrix): nat {
    if |m| == 0 then 0 else |m[0]|
  }

  function Transpose(m: Matrix): Matrix {
    seq(Cols(m), (c: nat) => seq(|m|, r requires 0 <= r < |m| => Entry(m[r], c)))
  }

  function MatVec(m: Matrix, x: Vector): Vector {
    seq(|m|, r requires 0 <= r < |m| => Dot(m[r], x))
  }

  /** The dim-by-dim matrix that is zero except for a single 1 at (s, s). */
  function UnitPin(dim: nat, s: nat): Matrix {
    seq(dim, r => seq(dim, c => if r == s && c == s then 1.0 else 0.0))
  }

  function At(x: Values, k: nat): Vector {
    if k in x then x[k] else []
  }

  /** VectorValues a - b, over the keys of a. */
  function ValuesSub(a: Values, b: Values): Values {
    map k | k in a :: Sub(a[k], At(b, k))
  }

  /** VectorValues a + b, over the keys of a. */
  function ValuesAdd(a: Values, b: Values): Values {
    map k | k in a :: Add(a[k], At(b, k))
  }

  /** VectorValues alpha * p. */
  function ValuesScale(alpha: real, p: Values): Values {
    map k | k in p :: Scale(alpha, p[k])
  }

  /** Two value containers with the same keys and the same vector lengths. */
  predicate SameStructure(a: Values, b: Values) {
    a.Keys == b.Keys && forall k :: k in a ==> |a[k]| == |b[k]|
  }

  /** Dotting the unit vector e_s (of any length beyond s) picks entry s. */
  lemma {:induction false} DotUnit(u: Vector, v: Vector, s: nat)
    requires forall i :: 0 <= i < |u| ==> u[i] == (if i == s then 1.0 else 0.0)
    ensures Dot(u, v) == if s < |u| then Entry(v, s) else 0.0
  {
    if u != [] {
      var u' := u[..|u| - 1];
      DotUnit(u', v, s);
    }
  }

  /**
   * The residual of a unit pin J * lambda - 0 is lambda[s] on row s and 0
   * on every other row: the pin drives exactly that multiplier to zero.
   */
  lemma PinResidual(dim: nat, s: nat, lambda: Vector)
    requires s < dim
    ensures |MatVec(UnitPin(dim, s), lambda)| == dim
    ensures forall r :: 0 <= r < dim ==>
      MatVec(UnitPin(dim, s), lambda)[r] == if r == s then Entry(lambda, s) else 0.0
  {
    var j := UnitPin(dim, s);
    forall r | 0 <= r < dim
      ensures MatVec(j, lambda)[r] == if r == s then Entry(lambda, s) else 0.0
    {
      if r == s {
        DotUnit(j[r], lambda, s);
      } else {
        DotZero(j[r], lambda);
      }
    }
  }

  lemma {:induction false} DotZero(u: Vector, v: Vector)
    requires forall i :: 0 <= i < |u| ==> u[i] == 0.0
    ensures Dot(u, v) == 0.0
  {
    if u != [] {
      DotZero(u[..|u| - 1], v);
    }
  }

  /** A full step x + 1 * (y - x) lands on y when x and y have one shape. */
  lemma FullStepReachesTarget(x: Values, y: Values)
    requires SameStructure(x, y)
    ensures ValuesAdd(x, ValuesScale(1.0, ValuesSub(y, x))) == y
  {
    var r := ValuesAdd(x, ValuesScale(1.0, ValuesSub(y, x)));
    assert r.Keys == y.Keys;
    forall k | k in y ensures r[k] == y[k] {
      assert |r[k]| == |y[k]|;
      forall i | 0 <= i < |y[k]| ensures r[k][i] == y[k][i] {
        assert At(ValuesScale(1.0, ValuesSub(y, x)), k)[i] == 1.0 * (y[k][i] - x[k][i]);
      }
    }
  }
}
