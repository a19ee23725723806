/** Vectors and matrices over exact reals: the vocabulary the codec modules share.
    A vector is a `seq<real>`; a matrix is the sequence of its columns. */
module LinearAlgebra {

  type Vec = seq<real>

  /** All columns have the same height `d`. */
  ghost predicate Shaped(cols: seq<Vec>, d: nat) {
    forall j :: 0 <= j < |cols| ==> |cols[j]| == d
  }

  /** The sum of the first `n` products, added in index order. */
  function DotTo(u: Vec, v: Vec, n: nat): real
    requires n <= |u| && n <= |v|
  {
    if n == 0 then 0.0 else DotTo(u, v, n - 1) + u[n - 1] * v[n - 1]
  }

  function Dot(u: Vec, v: Vec): real
    requires |u| == |v|
  {
    DotTo(u, v, |u|)
  }

  /** a*x + b*y */
  function Lin(a: real, x: Vec, b: real, y: Vec): (r: Vec)
    requires |x| == |y|
    ensures |r| == |x|
    ensures forall i :: 0 <= i < |x| ==> r[i] == a * x[i] + b * y[i]
  {
    seq(|x|, i requires 0 <= i < |x| => a * x[i] + b * y[i])
  }

  /** y - s*w */
  function Minus(y: Vec, s: real, w: Vec): (r: Vec)
    requires |y| == |w|
    ensures |r| == |y|
    ensures forall i :: 0 <= i < |y| ==> r[i] == y[i] - s * w[i]
  {
    seq(|y|, i requires 0 <= i < |y| => y[i] - s * w[i])
  }

  function Negated(y: Vec): (r: Vec)
    ensures |r| == |y| && forall i :: 0 <= i < |y| ==> r[i] == -y[i]
  {
    seq(|y|, i requires 0 <= i < |y| => -y[i])
  }

  function Zero(d: nat): (r: Vec)
    ensures |r| == d && forall i :: 0 <= i < d ==> r[i] == 0.0
  {
    seq(d, i => 0.0)
  }

  /** The j-th standard basis vector. */
  function Unit(d: nat, j: nat): (r: Vec)
    ensures |r| == d && forall i :: 0 <= i < d ==> r[i] == if i == j then 1.0 else 0.0
  {
    seq(d, i => if i == j then 1.0 else 0.0)
  }

  /** The matrix with columns `cols` times the first `n` coordinates of `x`. */
  function MatVecTo(cols: seq<Vec>, d: nat, x: Vec, n: nat): (r: Vec)
    requires Shaped(cols, d) && n <= |x| && n <= |cols|
    ensures |r| == d
  {
    if n == 0 then Zero(d) else Lin(1.0, MatVecTo(cols, d, x, n - 1), x[n - 1], cols[n - 1])
  }

  function MatVec(cols: seq<Vec>, d: nat, x: Vec): (r: Vec)
    requires Shaped(cols, d) && |x| == |cols|
    ensures |r| == d
  {
    MatVecTo(cols, d, x, |x|)
  }

  /** The transpose of the matrix with columns `cols` times `y`. */
  function TransposeVec(cols: seq<Vec>, d: nat, y: Vec): (r: Vec)
    requires Shaped(cols, d) && |y| == d
    ensures |r| == |cols| && forall j :: 0 <= j < |cols| ==> r[j] == Dot(cols[j], y)
  {
    seq(|cols|, j requires 0 <= j < |cols| => Dot(cols[j], y))
  }

  ghost predicate Orthonormal(cols: seq<Vec>, d: nat)
    requires Shaped(cols, d)
  {
    forall i, j :: 0 <= i < |cols| && 0 <= j < |cols| ==> Dot(cols[i], cols[j]) == if i == j then 1.0 else 0.0
  }

  // ----- bilinearity -----

  lemma {:induction false} DotToLin(u: Vec, a: real, x: Vec, b: real, y: Vec, n: nat)
    requires |x| == |y| && n <= |u| && n <= |x|
    ensures DotTo(u, Lin(a, x, b, y), n) == a * DotTo(u, x, n) + b * DotTo(u, y, n)
  {
    if n > 0 {
      DotToLin(u, a, x, b, y, n - 1);
      var i := n - 1;
      assert u[i] * Lin(a, x, b, y)[i] == a * (u[i] * x[i]) + b * (u[i] * y[i]);
    }
  }

  lemma DotToStep(u: Vec, v: Vec, n: nat)
    requires n < |u| && n < |v|
    ensures DotTo(u, v, n + 1) == DotTo(u, v, n) + u[n] * v[n]
  {
  }

  lemma DotToEmpty(u: Vec, v: Vec)
    ensures DotTo(u, v, 0) == 0.0
  {
  }

  lemma {:induction false} DotToSym(u: Vec, v: Vec, n: nat)
    requires n <= |u| && n <= |v|
    ensures DotTo(u, v, n) == DotTo(v, u, n)
  {
    if n > 0 {
      DotToSym(u, v, n - 1);
    }
  }

  lemma DotLin(u: Vec, a: real, x: Vec, b: real, y: Vec)
    requires |u| == |x| == |y|
    ensures Dot(u, Lin(a, x, b, y)) == a * Dot(u, x) + b * Dot(u, y)
    ensures Dot(Lin(a, x, b, y), u) == a * Dot(x, u) + b * Dot(y, u)
  {
    hide DotTo;
    DotToLin(u, a, x, b, y, |u|);
    DotToSym(u, Lin(a, x, b, y), |u|);
    DotToSym(u, x, |u|);
    DotToSym(u, y, |u|);
  }

  lemma {:induction false} DotToSquareNonNegative(u: Vec, n: nat)
    requires n <= |u|
    ensures DotTo(u, u, n) >= 0.0
    ensures forall i :: 0 <= i < n && u[i] != 0.0 ==> DotTo(u, u, n) > 0.0
  {
    if n > 0 {
      DotToSquareNonNegative(u, n - 1);
      SquareSign(u[n - 1], u[n - 1] * u[n - 1]);
    }
  }

  lemma {:induction false} DotToMinus(u: Vec, y: Vec, s: real, w: Vec, n: nat)
    requires |y| == |w| && n <= |u| && n <= |y|
    ensures DotTo(u, Minus(y, s, w), n) == DotTo(u, y, n) - s * DotTo(u, w, n)
  {
    if n > 0 {
      DotToMinus(u, y, s, w, n - 1);
      var i := n - 1;
      assert u[i] * Minus(y, s, w)[i] == u[i] * y[i] - s * (u[i] * w[i]);
    }
  }

  lemma DotMinus(u: Vec, y: Vec, s: real, w: Vec)
    requires |u| == |y| == |w|
    ensures Dot(u, Minus(y, s, w)) == Dot(u, y) - s * Dot(u, w)
    ensures Dot(Minus(y, s, w), u) == Dot(y, u) - s * Dot(w, u)
  {
    hide DotTo;
    DotToMinus(u, y, s, w, |u|);
    DotToSym(u, Minus(y, s, w), |u|);
    DotToSym(u, y, |u|);
    DotToSym(u, w, |u|);
  }

  lemma DotNegated(u: Vec, v: Vec)
    requires |u| == |v|
    ensures Dot(u, Negated(v)) == -Dot(u, v) == Dot(Negated(u), v)
  {
    assert Negated(v) == Lin(-1.0, v, 0.0, v) && Negated(u) == Lin(-1.0, u, 0.0, u);
    DotLin(u, -1.0, v, 0.0, v);
    DotLin(v, -1.0, u, 0.0, u);
  }

  lemma MulPositive(a: real, b: real, product: real)
    requires a > 0.0 && b > 0.0 && product == a * b
    ensures product > 0.0
  {
  }

  lemma SquareSign(x: real, square: real)
    requires square == x * x
    ensures square >= 0.0
    ensures x != 0.0 ==> square > 0.0
  {
    if x > 0.0 {
      MulPositive(x, x, square);
    } else if x < 0.0 {
      MulPositive(-x, -x, square);
    }
  }

  lemma {:induction false} DotToAgree(u: Vec, v: Vec, u': Vec, v': Vec, n: nat)
    requires n <= |u| && n <= |v| && n <= |u'| && n <= |v'|
    requires forall i :: 0 <= i < n ==> u[i] * v[i] == u'[i] * v'[i]
    ensures DotTo(u, v, n) == DotTo(u', v', n)
  {
    if n > 0 {
      DotToAgree(u, v, u', v', n - 1);
    }
  }

  lemma {:induction false} DotToZero(u: Vec, v: Vec, n: nat)
    requires n <= |u| && n <= |v|
    requires forall i :: 0 <= i < n ==> u[i] == 0.0 || v[i] == 0.0
    ensures DotTo(u, v, n) == 0.0
  {
    if n > 0 {
      DotToZero(u, v, n - 1);
    }
  }

  lemma {:induction false} DotToUnit(d: nat, j: nat, v: Vec, n: nat)
    requires j < d && |v| == d && n <= d
    ensures DotTo(Unit(d, j), v, n) == if j < n then v[j] else 0.0
  {
    if n > 0 {
      DotToUnit(d, j, v, n - 1);
    }
  }

  lemma DotUnit(d: nat, j: nat, v: Vec)
    requires j < d && |v| == d
    ensures Dot(Unit(d, j), v) == v[j] && Dot(v, Unit(d, j)) == v[j]
  {
    DotToUnit(d, j, v, d);
    DotToSym(Unit(d, j), v, d);
  }

  // ----- matrix-vector products -----

  lemma {:induction false} MatVecToEntry(cols: seq<Vec>, d: nat, x: Vec, n: nat, i: nat, row: Vec)
    requires Shaped(cols, d) && n <= |x| && n <= |cols| && i < d
    requires |row| == |cols| && forall j :: 0 <= j < |cols| ==> row[j] == cols[j][i]
    ensures MatVecTo(cols, d, x, n)[i] == DotTo(row, x, n)
  {
    if n > 0 {
      MatVecToEntry(cols, d, x, n - 1, i, row);
    }
  }

  lemma {:induction false} DotMatVecTo(cols: seq<Vec>, d: nat, x: Vec, n: nat, y: Vec)
    requires Shaped(cols, d) && n <= |x| == |cols| && |y| == d
    ensures Dot(y, MatVecTo(cols, d, x, n)) == DotTo(TransposeVec(cols, d, y), x, n)
  {
    hide DotTo;
    if n == 0 {
      DotToZero(y, Zero(d), d);
      DotToEmpty(TransposeVec(cols, d, y), x);
    } else {
      DotToStep(TransposeVec(cols, d, y), x, n - 1);
      DotMatVecTo(cols, d, x, n - 1, y);
      DotLin(y, 1.0, MatVecTo(cols, d, x, n - 1), x[n - 1], cols[n - 1]);
      DotToSym(y, cols[n - 1], d);
      assert TransposeVec(cols, d, y)[n - 1] == Dot(cols[n - 1], y);
    }
  }

  /** <y, M x> == <M^T y, x> */
  lemma Adjoint(cols: seq<Vec>, d: nat, x: Vec, y: Vec)
    requires Shaped(cols, d) && |x| == |cols| && |y| == d
    ensures Dot(y, MatVec(cols, d, x)) == Dot(TransposeVec(cols, d, y), x)
  {
    DotMatVecTo(cols, d, x, |x|, y);
  }

  /** M^T (M x) == x for orthonormal columns. */
  lemma TransposeUndoes(cols: seq<Vec>, d: nat, x: Vec)
    requires Shaped(cols, d) && |x| == |cols| && Orthonormal(cols, d)
    ensures TransposeVec(cols, d, MatVec(cols, d, x)) == x
  {
    var y := MatVec(cols, d, x);
    forall j | 0 <= j < |cols|
      ensures TransposeVec(cols, d, y)[j] == x[j]
    {
      Adjoint(cols, d, x, cols[j]);
      assert TransposeVec(cols, d, cols[j]) == Unit(|cols|, j) by {
        forall i | 0 <= i < |cols|
          ensures TransposeVec(cols, d, cols[j])[i] == Unit(|cols|, j)[i]
        {
          assert Dot(cols[i], cols[j]) == if i == j then 1.0 else 0.0;
        }
      }
      DotUnit(|cols|, j, x);
    }
  }

  /** A matrix with orthonormal columns keeps every inner product. */
  lemma OrthonormalKeepsDot(cols: seq<Vec>, d: nat, x: Vec, y: Vec)
    requires Shaped(cols, d) && |x| == |y| == |cols| && Orthonormal(cols, d)
    ensures Dot(MatVec(cols, d, x), MatVec(cols, d, y)) == Dot(x, y)
  {
    Adjoint(cols, d, y, MatVec(cols, d, x));
    TransposeUndoes(cols, d, x);
  }

  // ----- norms -----

  /** `sqrt` as the codec uses it: the non-negative root of a non-negative number. */
  ghost predicate IsSqrt(sqrt: real -> real) {
    forall x: real :: x >= 0.0 ==> sqrt(x) >= 0.0 && sqrt(x) * sqrt(x) == x
  }

  function Norm(sqrt: real -> real, x: Vec): real {
    sqrt(Dot(x, x))
  }

  function Abs(x: real): real {
    if x < 0.0 then -x else x
  }

  lemma NormSquared(sqrt: real -> real, x: Vec)
    requires IsSqrt(sqrt)
    ensures Norm(sqrt, x) >= 0.0
    ensures Norm(sqrt, x) * Norm(sqrt, x) == Dot(x, x)
  {
    DotToSquareNonNegative(x, |x|);
  }

  /** Squares order the non-negative reals. */
  lemma SquaresOrder(a: real, b: real)
    requires b >= 0.0 && a * a <= b * b
    ensures Abs(a) <= b
  {
    var c := Abs(a);
    var difference := (c - b) * (c + b);
    assert difference == a * a - b * b;
    if c > b {
      MulPositive(c - b, c + b, difference);
      assert false;
    }
  }

  /** Cauchy-Schwarz, squared: <x,y>^2 <= <x,x><y,y>. */
  lemma CauchySchwarzSquared(x: Vec, y: Vec)
    requires |x| == |y|
    ensures Dot(x, y) * Dot(x, y) <= Dot(x, x) * Dot(y, y)
  {
    hide DotTo;
    var a, b, c := Dot(x, x), Dot(x, y), Dot(y, y);
    DotToSquareNonNegative(y, |y|);
    DotToSquareNonNegative(x, |x|);
    if c == 0.0 {
      assert forall i :: 0 <= i < |y| ==> y[i] == 0.0;
      DotToZero(x, y, |x|);
    } else {
      // 0 <= |c*x - b*y|^2 == c*(a*c - b*b)
      var z := Lin(c, x, -b, y);
      DotToSquareNonNegative(z, |z|);
      DotLin(z, c, x, -b, y);
      DotLin(x, c, x, -b, y);
      DotLin(y, c, x, -b, y);
      DotToSym(x, y, |x|);
      var zz := Dot(z, z);
      assert zz == c * (c * a + -b * b) + -b * (c * b + -b * c);
      assert zz == c * (a * c - b * b);
      if b * b > a * c {
        MulPositive(c, b * b - a * c, -zz);
        assert false;
      }
    }
  }

  lemma CauchySchwarz(sqrt: real -> real, x: Vec, y: Vec)
    requires IsSqrt(sqrt) && |x| == |y|
    ensures Abs(Dot(x, y)) <= Norm(sqrt, x) * Norm(sqrt, y)
  {
    CauchySchwarzSquared(x, y);
    NormSquared(sqrt, x);
    NormSquared(sqrt, y);
    var p, q := Norm(sqrt, x), Norm(sqrt, y);
    assert (p * q) * (p * q) == (p * p) * (q * q);
    SquaresOrder(Dot(x, y), p * q);
  }
}
