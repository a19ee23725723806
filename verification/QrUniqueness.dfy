/** The QR that src/index/rotation.rs canonicalises to: with R's diagonal positive there is only one. */
module QrUniqueness {
  import opened LinearAlgebra
  import opened HaarRotation

  lemma {:induction false} SamePrefix(q: seq<Vec>, p: seq<Vec>, d: nat, x: Vec, y: Vec, n: nat)
    requires Shaped(q, d) && Shaped(p, d) && n <= |q| && n <= |p| && n <= |x| && n <= |y|
    requires forall i :: 0 <= i < n ==> q[i] == p[i] && x[i] == y[i]
    ensures MatVecTo(q, d, x, n) == MatVecTo(p, d, y, n)
  {
    if n > 0 {
      SamePrefix(q, p, d, x, y, n - 1);
    }
  }

  lemma {:induction false} ZerosAddNothing(q: seq<Vec>, d: nat, x: Vec, n: nat, m: nat)
    requires Shaped(q, d) && n <= m <= |q| && m <= |x|
    requires forall i :: n <= i < m ==> x[i] == 0.0
    ensures MatVecTo(q, d, x, m) == MatVecTo(q, d, x, n)
  {
    if n < m {
      ZerosAddNothing(q, d, x, n, m - 1);
      var before := MatVecTo(q, d, x, m - 1);
      forall i | 0 <= i < d
        ensures Lin(1.0, before, 0.0, q[m - 1])[i] == before[i]
      {
      }
      assert Lin(1.0, before, 0.0, q[m - 1]) == before;
    }
  }

  lemma {:induction false} ZerosAddNoSquare(x: Vec, n: nat, m: nat)
    requires n <= m <= |x| && forall i :: n <= i < m ==> x[i] == 0.0
    ensures DotTo(x, x, m) == DotTo(x, x, n)
  {
    if n < m {
      ZerosAddNoSquare(x, n, m - 1);
    }
  }

  lemma {:induction false} SameSquares(x: Vec, y: Vec, n: nat)
    requires n <= |x| && n <= |y| && forall i :: 0 <= i < n ==> x[i] == y[i]
    ensures DotTo(x, x, n) == DotTo(y, y, n)
  {
    if n > 0 {
      SameSquares(x, y, n - 1);
    }
  }

  lemma SamePositive(a: real, b: real, square: real)
    requires a > 0.0 && b > 0.0 && a * a == square && b * b == square
    ensures a == b
  {
    if a < b {
      LessSquare(a, b, a * a, b * b);
    } else if b < a {
      LessSquare(b, a, b * b, a * a);
    }
  }

  lemma LessSquare(a: real, b: real, aa: real, bb: real)
    requires 0.0 < a < b && aa == a * a && bb == b * b
    ensures aa < bb
  {
    assert a * a < a * b;
    assert a * b < b * b;
  }

  lemma Cancel(a: real, x: real, y: real, product: real)
    requires a > 0.0 && product == a * x && product == a * y
    ensures x == y
  {
    assert a * (x - y) == 0.0;
    if x - y > 0.0 {
      MulPositive(a, x - y, 0.0);
    } else if y - x > 0.0 {
      MulPositive(a, y - x, 0.0);
    }
  }

  lemma NextColumn(q: seq<Vec>, d: nat, x: Vec, j: nat, i: nat)
    requires Shaped(q, d) && j < |q| && j < |x| && i < d
    ensures |q[j]| == d && MatVecTo(q, d, x, j + 1)[i] == MatVecTo(q, d, x, j)[i] + x[j] * q[j][i]
  {
  }

  /** Above the diagonal R's entries are Q's columns against the matrix, so they are already determined. */
  lemma AboveDiagonal(q: seq<Vec>, p: seq<Vec>, d: nat, x: Vec, y: Vec, i: nat)
    requires Shaped(q, d) && Shaped(p, d) && |q| == |p| == d && |x| == |y| == d && Orthonormal(q, d) &&
        Orthonormal(p, d)
    requires MatVec(q, d, x) == MatVec(p, d, y) && i < d && q[i] == p[i]
    ensures x[i] == y[i]
  {
    hide MatVecTo, Orthonormal, DotTo;
    TransposeUndoes(q, d, x);
    TransposeUndoes(p, d, y);
    var g := MatVec(q, d, x);
    assert TransposeVec(q, d, g)[i] == Dot(q[i], g) && TransposeVec(p, d, g)[i] == Dot(p[i], g);
  }

  /** So one column of the product fixes the diagonal entry's size, its sign being positive. */
  lemma SameDiagonal(q: seq<Vec>, p: seq<Vec>, d: nat, x: Vec, y: Vec, j: nat)
    requires Shaped(q, d) && Shaped(p, d) && |q| == |p| == d && |x| == |y| == d && Orthonormal(q, d) &&
        Orthonormal(p, d)
    requires MatVec(q, d, x) == MatVec(p, d, y) && j < d
    requires (forall i :: 0 <= i < j ==> x[i] == y[i]) && (forall i :: j < i < d ==> x[i] == y[i] == 0.0) &&
        x[j] > 0.0 && y[j] > 0.0
    ensures x[j] == y[j]
  {
    hide MatVecTo, Orthonormal, DotTo;
    OrthonormalKeepsDot(q, d, x, x);
    OrthonormalKeepsDot(p, d, y, y);
    SameSquares(x, y, j);
    ZerosAddNoSquare(x, j + 1, d);
    ZerosAddNoSquare(y, j + 1, d);
    DotToStep(x, x, j);
    DotToStep(y, y, j);
    assert Dot(x, x) == Dot(y, y);
    SamePositive(x[j], y[j], x[j] * x[j]);
  }

  /** And then the column of Q. */
  lemma SameColumn(q: seq<Vec>, p: seq<Vec>, d: nat, x: Vec, y: Vec, j: nat)
    requires Shaped(q, d) && Shaped(p, d) && |q| == |p| == d && |x| == |y| == d
    requires MatVec(q, d, x) == MatVec(p, d, y) && j < d && x == y && x[j] > 0.0
    requires (forall i :: 0 <= i < j ==> q[i] == p[i]) && (forall i :: j < i < d ==> x[i] == 0.0)
    ensures q[j] == p[j]
  {
    hide MatVecTo;
    ZerosAddNothing(q, d, x, j + 1, d);
    ZerosAddNothing(p, d, x, j + 1, d);
    SamePrefix(q, p, d, x, x, j);
    assert |q[j]| == d && |p[j]| == d;
    forall i | 0 <= i < d
      ensures q[j][i] == p[j][i]
    {
      NextColumn(q, d, x, j, i);
      NextColumn(p, d, x, j, i);
      Cancel(x[j], q[j][i], p[j][i], x[j] * q[j][i]);
    }
  }

  lemma {:induction false} SameColumns(q: seq<Vec>, r: seq<Vec>, p: seq<Vec>, s: seq<Vec>, d: nat, n: nat)
    requires Shaped(q, d) && Shaped(p, d) && Shaped(r, d) && Shaped(s, d) && |q| == |p| == |r| == |s| == d && n <= d
    requires Orthonormal(q, d) && Orthonormal(p, d) && UpperTriangular(r, d) && UpperTriangular(s, d)
    requires forall j :: 0 <= j < d ==> r[j][j] > 0.0 && s[j][j] > 0.0
    requires forall j :: 0 <= j < d ==> MatVec(q, d, r[j]) == MatVec(p, d, s[j])
    ensures forall j :: 0 <= j < n ==> q[j] == p[j] && r[j] == s[j]
  {
    hide MatVec, Orthonormal;
    if n > 0 {
      var j := n - 1;
      SameColumns(q, r, p, s, d, j);
      forall i | 0 <= i < j
        ensures r[j][i] == s[j][i]
      {
        AboveDiagonal(q, p, d, r[j], s[j], i);
      }
      SameDiagonal(q, p, d, r[j], s[j], j);
      assert r[j] == s[j];
      SameColumn(q, p, d, r[j], s[j], j);
    }
  }

  /** Two factorisations of one matrix into orthonormal Q and upper triangular R with a positive diagonal are the
      same. */
  lemma UniqueQr(q: seq<Vec>, r: seq<Vec>, p: seq<Vec>, s: seq<Vec>, d: nat)
    requires Shaped(q, d) && Shaped(p, d) && Shaped(r, d) && Shaped(s, d) && |q| == |p| == |r| == |s| == d
    requires Orthonormal(q, d) && Orthonormal(p, d) && UpperTriangular(r, d) && UpperTriangular(s, d)
    requires forall j :: 0 <= j < d ==> r[j][j] > 0.0 && s[j][j] > 0.0
    requires forall j :: 0 <= j < d ==> MatVec(q, d, r[j]) == MatVec(p, d, s[j])
    ensures q == p && r == s
  {
    SameColumns(q, r, p, s, d, d);
  }
}
