/** The Haar rotation of src/index/rotation.rs: Householder QR in place, sign
    canonicalisation, and the rotation it yields. Floats are exact reals and
    `sqrt` is any function that is a non-negative square root. Matrices that
    the source stores column-major are `array2<real>` indexed [column, row]. */
module HaarRotation {
  import opened LinearAlgebra

  /** `v` placed in the last coordinates of a d-vector. */
  function Pad(v: Vec, d: nat): (w: Vec)
    requires |v| <= d
    ensures |w| == d
    ensures forall i :: 0 <= i < d - |v| ==> w[i] == 0.0
    ensures forall i :: d - |v| <= i < d ==> w[i] == v[i - (d - |v|)]
  {
    Zero(d - |v|) + v
  }

  /** H = I - beta*v*v^T on the last |v| coordinates; beta == 0 is the identity. */
  datatype Reflector = Reflector(v: Vec, beta: real) {
    ghost predicate Valid(d: nat) {
      |v| <= d && (beta == 0.0 || beta * Dot(Pad(v, d), Pad(v, d)) == 2.0)
    }

    function Component(d: nat, y: Vec): real
      requires |v| <= d == |y|
    {
      beta * Dot(Pad(v, d), y)
    }

    /** H*y */
    function Reflect(d: nat, y: Vec): (r: Vec)
      requires |v| <= d == |y|
      ensures |r| == d
    {
      Minus(y, Component(d, y), Pad(v, d))
    }
  }

  // ----- one reflector -----

  /** Reflecting negates the component along v: the scalar fact behind both lemmas below. */
  lemma NegatedComponent(beta: real, p: real, n: real, s: real, r: real)
    requires s == beta * p && r == p - s * n
    requires beta == 0.0 || beta * n == 2.0
    ensures beta * r == -s
  {
    var bn := beta * n;
    assert s * n == bn * p;
    assert beta * r == beta * p - beta * (bn * p);
  }

  lemma DotReflect(h: Reflector, d: nat, x: Vec, y: Vec)
    requires h.Valid(d) && |x| == |y| == d
    ensures Dot(h.Reflect(d, x), y) == Dot(x, y) - h.Component(d, x) * Dot(Pad(h.v, d), y)
  {
    hide DotTo;
    DotMinus(y, x, h.Component(d, x), Pad(h.v, d));
  }

  lemma ReflectedComponent(h: Reflector, d: nat, y: Vec)
    requires h.Valid(d) && |y| == d
    ensures h.Component(d, h.Reflect(d, y)) == -h.Component(d, y)
  {
    hide DotTo;
    var w := Pad(h.v, d);
    DotReflect(h, d, y, w);
    DotToSym(w, y, d);
    DotToSym(w, h.Reflect(d, y), d);
    NegatedComponent(h.beta, Dot(w, y), Dot(w, w), h.Component(d, y), Dot(w, h.Reflect(d, y)));
  }

  lemma ReflectUndoes(h: Reflector, d: nat, y: Vec)
    requires h.Valid(d) && |y| == d
    ensures h.Reflect(d, h.Reflect(d, y)) == y
  {
    hide DotTo;
    ReflectedComponent(h, d, y);
    var w := Pad(h.v, d);
    var s := h.Component(d, y);
    forall i | 0 <= i < d
      ensures h.Reflect(d, h.Reflect(d, y))[i] == y[i]
    {
      assert h.Reflect(d, y)[i] == y[i] - s * w[i];
      assert h.Reflect(d, h.Reflect(d, y))[i] == h.Reflect(d, y)[i] + s * w[i];
    }
  }

  lemma KeptDot(beta: real, p: real, q: real, r: real, s: real, t: real)
    requires s == beta * p && t == beta * q && beta * r == -t
    ensures t * p + s * r == 0.0
  {
    assert s * r == p * (beta * r);
  }

  lemma ReflectKeepsDot(h: Reflector, d: nat, x: Vec, y: Vec)
    requires h.Valid(d) && |x| == |y| == d
    ensures Dot(h.Reflect(d, x), h.Reflect(d, y)) == Dot(x, y)
  {
    hide DotTo;
    var w, hy := Pad(h.v, d), h.Reflect(d, y);
    DotReflect(h, d, x, hy);
    DotReflect(h, d, y, x);
    DotToSym(x, hy, d);
    DotToSym(x, y, d);
    ReflectedComponent(h, d, y);
    KeptDot(h.beta, Dot(w, x), Dot(w, y), Dot(w, hy), h.Component(d, x), h.Component(d, y));
  }

  lemma ReflectLin(h: Reflector, d: nat, a: real, x: Vec, b: real, y: Vec)
    requires |h.v| <= d == |x| == |y|
    ensures h.Reflect(d, Lin(a, x, b, y)) == Lin(a, h.Reflect(d, x), b, h.Reflect(d, y))
  {
    hide DotTo;
    var w := Pad(h.v, d);
    DotLin(w, a, x, b, y);
    var p, q := h.Component(d, x), h.Component(d, y);
    var c := h.Component(d, Lin(a, x, b, y));
    assert c == a * p + b * q;
    forall i | 0 <= i < d
      ensures h.Reflect(d, Lin(a, x, b, y))[i] == Lin(a, h.Reflect(d, x), b, h.Reflect(d, y))[i]
    {
      assert h.Reflect(d, Lin(a, x, b, y))[i] == a * x[i] + b * y[i] - c * w[i];
      assert h.Reflect(d, x)[i] == x[i] - p * w[i];
      assert h.Reflect(d, y)[i] == y[i] - q * w[i];
      assert c * w[i] == a * (p * w[i]) + b * (q * w[i]);
    }
  }

  /** A reflector of the last coordinates fixes a vector that is zero there. */
  lemma ReflectFixes(h: Reflector, d: nat, y: Vec)
    requires |h.v| <= d == |y|
    requires forall i :: d - |h.v| <= i < d ==> y[i] == 0.0
    ensures h.Reflect(d, y) == y
  {
    DotToZero(Pad(h.v, d), y, d);
  }

  // ----- products of reflectors -----

  ghost predicate AllValid(hs: seq<Reflector>, d: nat) {
    forall k :: 0 <= k < |hs| ==> hs[k].Valid(d)
  }

  /** H_{n-1}...H_0*y: what the elimination loop does to a column. */
  ghost function Forward(hs: seq<Reflector>, d: nat, y: Vec): (r: Vec)
    requires AllValid(hs, d) && |y| == d
    ensures |r| == d
  {
    if hs == [] then y
    else hs[|hs| - 1].Reflect(d, Forward(hs[..|hs| - 1], d, y))
  }

  /** H_0...H_{n-1}*y: what the accumulation of Q does to a column. */
  ghost function Backward(hs: seq<Reflector>, d: nat, y: Vec): (r: Vec)
    requires AllValid(hs, d) && |y| == d
    ensures |r| == d
  {
    if hs == [] then y else hs[0].Reflect(d, Backward(hs[1..], d, y))
  }

  lemma {:induction false} BackwardSnoc(hs: seq<Reflector>, h: Reflector, d: nat, y: Vec)
    requires AllValid(hs, d) && h.Valid(d) && |y| == d
    ensures AllValid(hs + [h], d)
    ensures Backward(hs + [h], d, y) == Backward(hs, d, h.Reflect(d, y))
  {
    if hs == [] {
      assert hs + [h] == [h];
      assert [h][1..] == [];
    } else {
      assert (hs + [h])[1..] == hs[1..] + [h];
      BackwardSnoc(hs[1..], h, d, y);
    }
  }

  lemma {:induction false} BackwardUndoesForward(hs: seq<Reflector>, d: nat, y: Vec)
    requires AllValid(hs, d) && |y| == d
    ensures Backward(hs, d, Forward(hs, d, y)) == y
  {
    if hs != [] {
      var n := |hs| - 1;
      var z := Forward(hs[..n], d, y);
      assert hs == hs[..n] + [hs[n]];
      BackwardSnoc(hs[..n], hs[n], d, hs[n].Reflect(d, z));
      ReflectUndoes(hs[n], d, z);
      BackwardUndoesForward(hs[..n], d, y);
    }
  }

  lemma {:induction false} BackwardKeepsDot(hs: seq<Reflector>, d: nat, x: Vec, y: Vec)
    requires AllValid(hs, d) && |x| == |y| == d
    ensures Dot(Backward(hs, d, x), Backward(hs, d, y)) == Dot(x, y)
  {
    if hs != [] {
      ReflectKeepsDot(hs[0], d, Backward(hs[1..], d, x), Backward(hs[1..], d, y));
      BackwardKeepsDot(hs[1..], d, x, y);
    }
  }

  lemma {:induction false} BackwardLin(hs: seq<Reflector>, d: nat, a: real, x: Vec, b: real, y: Vec)
    requires AllValid(hs, d) && |x| == |y| == d
    ensures Backward(hs, d, Lin(a, x, b, y)) == Lin(a, Backward(hs, d, x), b, Backward(hs, d, y))
  {
    if hs != [] {
      BackwardLin(hs[1..], d, a, x, b, y);
      ReflectLin(hs[0], d, a, Backward(hs[1..], d, x), b, Backward(hs[1..], d, y));
    }
  }

  lemma {:induction false} BackwardZero(hs: seq<Reflector>, d: nat)
    requires AllValid(hs, d)
    ensures Backward(hs, d, Zero(d)) == Zero(d)
  {
    if hs != [] {
      BackwardZero(hs[1..], d);
      ReflectFixes(hs[0], d, Zero(d));
    }
  }

  /** The columns of Q: the images of the basis vectors. */
  ghost function BackwardColumns(hs: seq<Reflector>, d: nat): (cols: seq<Vec>)
    requires AllValid(hs, d)
    ensures |cols| == d && Shaped(cols, d)
    ensures forall j :: 0 <= j < d ==> cols[j] == Backward(hs, d, Unit(d, j))
  {
    seq(d, j requires 0 <= j < d => Backward(hs, d, Unit(d, j)))
  }

  /** The first `n` coordinates of `x`, the rest zero. */
  function Head(x: Vec, n: nat): (r: Vec)
    requires n <= |x|
    ensures |r| == |x| && forall i :: 0 <= i < |x| ==> r[i] == if i < n then x[i] else 0.0
  {
    x[..n] + Zero(|x| - n)
  }

  lemma {:induction false} MatVecIsBackward(hs: seq<Reflector>, d: nat, x: Vec, n: nat)
    requires AllValid(hs, d) && n <= |x| == d
    ensures MatVecTo(BackwardColumns(hs, d), d, x, n) == Backward(hs, d, Head(x, n))
  {
    if n == 0 {
      BackwardZero(hs, d);
      assert Head(x, 0) == Zero(d);
    } else {
      MatVecIsBackward(hs, d, x, n - 1);
      BackwardLin(hs, d, 1.0, Head(x, n - 1), x[n - 1], Unit(d, n - 1));
      assert Head(x, n) == Lin(1.0, Head(x, n - 1), x[n - 1], Unit(d, n - 1));
    }
  }

  lemma ProductIsBackward(hs: seq<Reflector>, d: nat, x: Vec)
    requires AllValid(hs, d) && |x| == d
    ensures MatVec(BackwardColumns(hs, d), d, x) == Backward(hs, d, x)
  {
    MatVecIsBackward(hs, d, x, d);
    assert Head(x, d) == x;
  }

  lemma BackwardColumnsOrthonormal(hs: seq<Reflector>, d: nat)
    requires AllValid(hs, d)
    ensures Orthonormal(BackwardColumns(hs, d), d)
  {
    forall i, j | 0 <= i < d && 0 <= j < d
      ensures Dot(BackwardColumns(hs, d)[i], BackwardColumns(hs, d)[j]) == if i == j then 1.0 else 0.0
    {
      BackwardKeepsDot(hs, d, Unit(d, i), Unit(d, j));
      DotUnit(d, i, Unit(d, j));
    }
  }

  // ----- the in-place algorithm -----

  /** Column j of a column-major square matrix. */
  ghost function Column(a: array2<real>, j: nat): (c: Vec)
    requires j < a.Length0
    reads a
    ensures |c| == a.Length1 && forall i :: 0 <= i < a.Length1 ==> c[i] == a[j, i]
  {
    seq(a.Length1, i requires 0 <= i < a.Length1 reads a => a[j, i])
  }

  ghost function Columns(a: array2<real>): (cols: seq<Vec>)
    reads a
    ensures |cols| == a.Length0 && Shaped(cols, a.Length1)
    ensures forall j :: 0 <= j < a.Length0 ==> cols[j] == Column(a, j)
  {
    seq(a.Length0, j requires 0 <= j < a.Length0 reads a => Column(a, j))
  }

  /** <v, y> for the last |h.v| entries y of column j. */
  method TailDot(h: Reflector, a: array2<real>, j: nat) returns (sum: real)
    requires j < a.Length0 && |h.v| <= a.Length1
    ensures sum == Dot(Pad(h.v, a.Length1), Column(a, j))
  {
    var k := a.Length1 - |h.v|;
    ghost var w, y := Pad(h.v, a.Length1), Column(a, j);
    DotToZero(w, y, k);
    sum := 0.0;
    for n := 0 to |h.v|
      invariant sum == DotTo(w, y, k + n)
    {
      assert w[k + n] == h.v[n] && y[k + n] == a[j, k + n];
      assert w[k + n] == h.v[n] && y[k + n] == a[j, k + n];
      assert DotTo(w, y, k + n + 1) == DotTo(w, y, k + n) + w[k + n] * y[k + n];
      sum := sum + h.v[n] * a[j, k + n];
    }
  }

  /** y <- H*y on column j, where y is the column's last |h.v| entries. */
  method Apply(h: Reflector, a: array2<real>, j: nat)
    requires j < a.Length0 && |h.v| <= a.Length1
    modifies a
    ensures Column(a, j) == h.Reflect(a.Length1, old(Column(a, j)))
    ensures forall c, i :: 0 <= c < a.Length0 && 0 <= i < a.Length1 && c != j ==> a[c, i] == old(a[c, i])
  {
    var d := a.Length1;
    var k := d - |h.v|;
    var sum := TailDot(h, a, j);
    var scale := h.beta * sum;
    ghost var y := Column(a, j);
    ghost var r := h.Reflect(d, y);
    for n := 0 to |h.v|
      invariant forall i :: 0 <= i < k + n ==> a[j, i] == r[i]
      invariant forall i :: k + n <= i < d ==> a[j, i] == y[i]
      invariant forall c, i :: 0 <= c < a.Length0 && 0 <= i < d && c != j ==> a[c, i] == old(a[c, i])
    {
      assert r[k + n] == y[k + n] - scale * h.v[n];
      a[j, k + n] := a[j, k + n] - scale * h.v[n];
    }
    assert Column(a, j) == r;
  }

  /** `x` with its first `k` coordinates cleared. */
  function Tail(x: Vec, k: nat): (t: Vec)
    requires k <= |x|
    ensures |t| == |x| && forall i :: 0 <= i < |x| ==> t[i] == if i < k then 0.0 else x[i]
  {
    Zero(k) + x[k..]
  }

  /** alpha has the sign opposite to x0, so |x|^2 - alpha*x0 cannot cancel. */
  lemma NoCancellation(x0: real, norm: real, alpha: real, square: real)
    requires norm > 0.0 && alpha == (if x0 < 0.0 then norm else -norm) && square == norm * norm
    ensures alpha * alpha == square && square - alpha * x0 > 0.0
  {
    var product := alpha * x0;
    MulPositive(norm, norm, square);
    if x0 < 0.0 {
      MulPositive(norm, -x0, -product);
    } else if x0 > 0.0 {
      MulPositive(norm, x0, -product);
    }
  }

  /** The Householder choice v = x - alpha*e_0 for the part x of the vector from coordinate k on. */
  ghost predicate IsPivot(v: Vec, d: nat, x: Vec, k: nat, norm: real, alpha: real) {
    && k < d == |x| && |v| == d - k
    && (forall i :: 0 <= i < d - k ==> v[i] == if i == 0 then x[k] - alpha else x[k + i])
    && norm > 0.0 && alpha == (if x[k] < 0.0 then norm else -norm)
    && norm * norm == Dot(Tail(x, k), Tail(x, k))
  }

  lemma PivotDots(v: Vec, d: nat, x: Vec, k: nat, norm: real, alpha: real)
    requires IsPivot(v, d, x, k, norm, alpha)
    ensures Pad(v, d) == Minus(Tail(x, k), alpha, Unit(d, k))
    ensures Dot(Pad(v, d), x) > 0.0
    ensures Dot(Pad(v, d), Pad(v, d)) == 2.0 * Dot(Pad(v, d), x)
  {
    hide DotTo;
    var t, e, w := Tail(x, k), Unit(d, k), Pad(v, d);
    var square := Dot(t, t);
    NoCancellation(x[k], norm, alpha, square);
    assert w == Minus(t, alpha, e);
    DotMinus(x, t, alpha, e);
    DotMinus(t, t, alpha, e);
    DotMinus(w, t, alpha, e);
    DotUnit(d, k, x);
    DotUnit(d, k, t);
    DotUnit(d, k, w);
    DotToSym(t, x, d);
    DotToSym(t, w, d);
    DotToAgree(t, x, t, t, d);
    assert Dot(w, x) == square - alpha * x[k];
    assert Dot(w, w) == square - alpha * x[k] - alpha * (x[k] - alpha);
  }

  lemma TwoOver(beta: real, total: real, half: real)
    requires half > 0.0 && total == 2.0 * half && beta == 2.0 / total
    ensures beta * total == 2.0 && beta * half == 1.0
  {
    assert beta * total == 2.0;
    assert beta * (2.0 * half) == 2.0 * (beta * half);
  }

  /** With beta = 2/<v,v>, H sends x to alpha*e_0. */
  lemma PivotReflects(h: Reflector, d: nat, x: Vec, k: nat, norm: real, alpha: real, total: real)
    requires IsPivot(h.v, d, x, k, norm, alpha)
    requires total == Dot(Pad(h.v, d), Pad(h.v, d)) && total != 0.0 && h.beta == 2.0 / total
    ensures h.Valid(d)
    ensures h.Reflect(d, x) == x[..k] + [alpha] + Zero(d - k - 1)
  {
    hide Dot;
    PivotDots(h.v, d, x, k, norm, alpha);
    TwoOver(h.beta, total, Dot(Pad(h.v, d), x));
    assert h.Component(d, x) == 1.0;
    assert h.Reflect(d, x) == Minus(x, 1.0, Pad(h.v, d));
    PivotRemoved(x, d, k, alpha, Pad(h.v, d));
  }

  /** x less its pivot vector x - alpha*e_0 is what the reflection leaves. */
  lemma PivotRemoved(x: Vec, d: nat, k: nat, alpha: real, w: Vec)
    requires k < d == |x| && |w| == d && w == Minus(Tail(x, k), alpha, Unit(d, k))
    ensures Minus(x, 1.0, w) == x[..k] + [alpha] + Zero(d - k - 1)
  {
    hide Minus, Unit, Tail;
    MinusOne(x, w);
    MinusUnit(Tail(x, k), alpha, d, k);
    var r := Minus(x, 1.0, w);
    assert k < |r| == d && r[k] == alpha;
    assert forall i :: 0 <= i < k ==> r[i] == x[i];
    assert forall i :: k < i < d ==> r[i] == 0.0;
  }

  lemma MinusOne(y: Vec, w: Vec)
    requires |y| == |w|
    ensures forall i :: 0 <= i < |y| ==> Minus(y, 1.0, w)[i] == y[i] - w[i]
  {
  }

  lemma MinusUnit(y: Vec, alpha: real, d: nat, k: nat)
    requires |y| == d
    ensures forall i :: 0 <= i < d ==> Minus(y, alpha, Unit(d, k))[i] == if i == k then y[i] - alpha else y[i]
  {
    forall i | 0 <= i < d
      ensures Minus(y, alpha, Unit(d, k))[i] == if i == k then y[i] - alpha else y[i]
    {
      TimesUnit(alpha, Unit(d, k)[i]);
    }
  }

  lemma TimesUnit(alpha: real, u: real)
    ensures u == 0.0 ==> alpha * u == 0.0
    ensures u == 1.0 ==> alpha * u == alpha
  {
  }

  /** |x|^2 for the part x of column k from the diagonal down. */
  method TailSquares(a: array2<real>, k: nat) returns (squares: real)
    requires k < a.Length0 == a.Length1
    ensures squares == Dot(Tail(Column(a, k), k), Tail(Column(a, k), k))
  {
    hide DotTo;
    ghost var t := Tail(Column(a, k), k);
    DotToZero(t, t, k);
    squares := 0.0;
    for i := k to a.Length1
      invariant squares == DotTo(t, t, i)
    {
      assert t[i] == a[k, i];
      DotToStep(t, t, i);
      squares := squares + a[k, i] * a[k, i];
    }
  }

  method PaddedSquares(v: Vec, ghost d: nat) returns (squares: real)
    requires |v| <= d
    ensures squares == Dot(Pad(v, d), Pad(v, d))
  {
    ghost var w := Pad(v, d);
    DotToZero(w, w, d - |v|);
    squares := 0.0;
    for i := 0 to |v|
      invariant squares == DotTo(w, w, d - |v| + i)
    {
      assert w[d - |v| + i] == v[i];
      squares := squares + v[i] * v[i];
    }
  }

  /** Overwrites column k from the diagonal down with alpha*e_0. */
  method WritePivot(a: array2<real>, k: nat, alpha: real)
    requires k < a.Length0 == a.Length1
    modifies a
    ensures Column(a, k) == old(Column(a, k))[..k] + [alpha] + Zero(a.Length1 - k - 1)
    ensures forall c, i :: 0 <= c < a.Length0 && 0 <= i < a.Length1 && c != k ==> a[c, i] == old(a[c, i])
  {
    var d := a.Length1;
    a[k, k] := alpha;
    for i := k + 1 to d
      invariant forall r :: 0 <= r < k ==> a[k, r] == old(a[k, r])
      invariant a[k, k] == alpha
      invariant forall r :: k < r < i ==> a[k, r] == 0.0
      invariant forall c, r :: 0 <= c < d && 0 <= r < d && c != k ==> a[c, r] == old(a[c, r])
    {
      a[k, i] := 0.0;
    }
    assert Column(a, k) == old(Column(a, k))[..k] + [alpha] + Zero(d - k - 1);
  }

  /** v = x - alpha*e_0 and beta = 2/<v,v> for the non-zero x below and on column k's diagonal. */
  method ChooseReflector(a: array2<real>, k: nat, norm: real) returns (h: Reflector, alpha: real)
    requires k < a.Length0 == a.Length1
    requires norm > 0.0 && norm * norm == Dot(Tail(Column(a, k), k), Tail(Column(a, k), k))
    ensures |h.v| == a.Length1 - k && h.Valid(a.Length1)
    ensures h.Reflect(a.Length1, Column(a, k)) == Column(a, k)[..k] + [alpha] + Zero(a.Length1 - k - 1)
  {
    hide DotTo, Tail;
    var d := a.Length1;
    alpha := if a[k, k] < 0.0 then norm else -norm;
    var v := seq(d - k, i requires 0 <= i < d - k reads a => a[k, k + i]);
    v := v[0 := v[0] - alpha];
    var total := PaddedSquares(v, d);
    PivotDots(v, d, Column(a, k), k, norm, alpha);
    h := Reflector(v, 2.0 / total);
    PivotReflects(h, d, Column(a, k), k, norm, alpha, total);
  }

  /** Builds the H that sends column k's entries from the diagonal down to a multiple of e_0,
      and overwrites the column with the result. A zero column gets the identity. */
  method ZeroBelowFirst(sqrt: real -> real, a: array2<real>, k: nat) returns (h: Reflector)
    requires IsSqrt(sqrt) && k < a.Length0 == a.Length1
    modifies a
    ensures |h.v| == a.Length1 - k && h.Valid(a.Length1)
    ensures Column(a, k) == h.Reflect(a.Length1, old(Column(a, k)))
    ensures forall i :: k < i < a.Length1 ==> a[k, i] == 0.0
    ensures forall c, i :: 0 <= c < a.Length0 && 0 <= i < a.Length1 && c != k ==> a[c, i] == old(a[c, i])
  {
    hide DotTo;
    var d := a.Length1;
    ghost var x := Column(a, k);
    var squares := TailSquares(a, k);
    var norm := sqrt(squares);
    DotToSquareNonNegative(Tail(x, k), d);
    if norm == 0.0 {
      h := Reflector(Zero(d - k), 0.0);
      assert forall i :: k <= i < d ==> x[i] == Tail(x, k)[i] == 0.0;
      assert h.Component(d, x) == 0.0;
      assert h.Reflect(d, x) == x;
    } else {
      var alpha;
      h, alpha := ChooseReflector(a, k, norm);
      WritePivot(a, k, alpha);
      assert forall i :: k < i < d ==> a[k, i] == Column(a, k)[i];
    }
  }

  /** Every entry below the diagonal of the first `n` columns is zero. */
  ghost predicate UpperTriangular(cols: seq<Vec>, n: nat)
    requires n <= |cols| && Shaped(cols, |cols|)
  {
    forall j, i :: 0 <= j < n && j < i < |cols| ==> cols[j][i] == 0.0
  }

  /** One elimination step: H on column k and on every later column. */
  method Eliminate(sqrt: real -> real, a: array2<real>, k: nat) returns (h: Reflector)
    requires IsSqrt(sqrt) && k < a.Length0 == a.Length1
    requires UpperTriangular(Columns(a), k)
    modifies a
    ensures |h.v| == a.Length1 - k && h.Valid(a.Length1)
    ensures forall j :: 0 <= j < a.Length0 ==> Column(a, j) == h.Reflect(a.Length1, old(Column(a, j)))
    ensures UpperTriangular(Columns(a), k + 1)
  {
    hide DotTo, Reflector.Reflect;
    var d := a.Length1;
    ghost var before := Columns(a);
    h := ZeroBelowFirst(sqrt, a, k);
    assert forall j :: 0 <= j < d && j != k ==> Column(a, j) == before[j];
    for j := k + 1 to d
      invariant Column(a, k) == h.Reflect(d, before[k])
      invariant forall i :: k < i < d ==> a[k, i] == 0.0
      invariant forall c :: 0 <= c < k ==> Column(a, c) == before[c]
      invariant forall c :: k < c < j ==> Column(a, c) == h.Reflect(d, before[c])
      invariant forall c :: j <= c < d ==> Column(a, c) == before[c]
    {
      ghost var now := Columns(a);
      Apply(h, a, j);
      assert forall c :: 0 <= c < d && c != j ==> Column(a, c) == now[c];
    }
    forall c | 0 <= c < k
      ensures Column(a, c) == h.Reflect(d, before[c])
    {
      ReflectFixes(h, d, before[c]);
    }
    assert forall c, i :: 0 <= c < k && c < i < d ==> Columns(a)[c][i] == before[c][i];
  }

  /** Householder QR: overwrites `a` with R and returns Q. */
  method HouseholderQr(sqrt: real -> real, a: array2<real>) returns (q: array2<real>, ghost hs: seq<Reflector>)
    requires IsSqrt(sqrt) && a.Length0 == a.Length1
    modifies a
    ensures fresh(q) && q.Length0 == q.Length1 == a.Length0
    ensures AllValid(hs, a.Length0) && Columns(q) == BackwardColumns(hs, a.Length0)
    ensures UpperTriangular(Columns(a), a.Length0)
    ensures Orthonormal(Columns(q), a.Length0)
    ensures forall j :: 0 <= j < a.Length0 ==> MatVec(Columns(q), a.Length0, Columns(a)[j]) == old(Columns(a))[j]
  {
    hide DotTo, Reflector.Reflect, MatVecTo;
    var d := a.Length0;
    ghost var g := Columns(a);
    var reflectors: seq<Reflector> := [];
    for k := 0 to d
      invariant |reflectors| == k && AllValid(reflectors, d)
      invariant forall i :: 0 <= i < k ==> |reflectors[i].v| == d - i
      invariant forall j :: 0 <= j < d ==> Column(a, j) == Forward(reflectors, d, g[j])
      invariant UpperTriangular(Columns(a), k)
    {
      var h := Eliminate(sqrt, a, k);
      assert (reflectors + [h])[..k] == reflectors;
      reflectors := reflectors + [h];
    }
    hs := reflectors;
    q := AccumulateQ(d, reflectors);
    BackwardColumnsOrthonormal(hs, d);
    forall j | 0 <= j < d
      ensures MatVec(Columns(q), d, Columns(a)[j]) == g[j]
    {
      ProductIsBackward(hs, d, Columns(a)[j]);
      BackwardUndoesForward(hs, d, g[j]);
    }
  }

  /** Q = H_0...H_{d-1}, accumulated from the right: before H_k is applied, the columns before k
      are still basis vectors, which H_k fixes, so only columns k.. are updated. */
  method AccumulateQ(d: nat, reflectors: seq<Reflector>) returns (q: array2<real>)
    requires |reflectors| == d && AllValid(reflectors, d)
    requires forall i :: 0 <= i < d ==> |reflectors[i].v| == d - i
    ensures fresh(q) && q.Length0 == q.Length1 == d
    ensures Columns(q) == BackwardColumns(reflectors, d)
  {
    hide DotTo, Reflector.Reflect;
    q := new real[d, d]((j, i) => if i == j then 1.0 else 0.0);
    assert reflectors[d..] == [];
    var k := d;
    while k > 0
      invariant 0 <= k <= d
      invariant forall j :: 0 <= j < k ==> Column(q, j) == Unit(d, j)
      invariant forall j :: 0 <= j < d ==> Column(q, j) == Backward(reflectors[k..], d, Unit(d, j))
    {
      k := k - 1;
      ghost var before := Columns(q);
      assert reflectors[k..][1..] == reflectors[k + 1..];
      for j := k to d
        invariant forall c :: 0 <= c < k ==> Column(q, c) == before[c]
        invariant forall c :: k <= c < j ==> Column(q, c) == reflectors[k].Reflect(d, before[c])
        invariant forall c :: j <= c < d ==> Column(q, c) == before[c]
      {
        ghost var now := Columns(q);
        Apply(reflectors[k], q, j);
        assert forall c :: 0 <= c < d && c != j ==> Column(q, c) == now[c];
      }
      forall c | 0 <= c < k
        ensures reflectors[k].Reflect(d, before[c]) == before[c]
      {
        ReflectFixes(reflectors[k], d, before[c]);
      }
    }
    assert reflectors[0..] == reflectors;
  }

  // ----- sign canonicalisation -----

  /** `v` with the flagged coordinates negated. */
  function FlipEntries(flip: seq<bool>, v: Vec): (r: Vec)
    requires |flip| == |v|
    ensures |r| == |v| && forall i :: 0 <= i < |v| ==> r[i] == if flip[i] then -v[i] else v[i]
  {
    seq(|v|, i requires 0 <= i < |v| => if flip[i] then -v[i] else v[i])
  }

  /** The flagged columns negated. */
  ghost function FlipColumns(flip: seq<bool>, cols: seq<Vec>, d: nat): (r: seq<Vec>)
    requires |flip| == |cols| && Shaped(cols, d)
    ensures |r| == |cols| && Shaped(r, d)
    ensures forall j :: 0 <= j < |cols| ==> r[j] == if flip[j] then Negated(cols[j]) else cols[j]
  {
    seq(|cols|, j requires 0 <= j < |cols| => if flip[j] then Negated(cols[j]) else cols[j])
  }

  lemma NegatedTerm(sum: Vec, x: real, c: Vec)
    requires |sum| == |c|
    ensures Lin(1.0, sum, -x, Negated(c)) == Lin(1.0, sum, x, c)
  {
    forall i | 0 <= i < |c|
      ensures Lin(1.0, sum, -x, Negated(c))[i] == Lin(1.0, sum, x, c)[i]
    {
      assert -x * -c[i] == x * c[i];
    }
  }

  lemma {:induction false} FlipKeepsProduct(flip: seq<bool>, cols: seq<Vec>, d: nat, x: Vec, n: nat)
    requires |flip| == |cols| == |x| && Shaped(cols, d) && n <= |x|
    ensures MatVecTo(FlipColumns(flip, cols, d), d, FlipEntries(flip, x), n) == MatVecTo(cols, d, x, n)
  {
    hide Lin, Negated, FlipEntries, FlipColumns;
    if n > 0 {
      FlipKeepsProduct(flip, cols, d, x, n - 1);
      NegatedTerm(MatVecTo(cols, d, x, n - 1), x[n - 1], cols[n - 1]);
    }
  }

  lemma FlipKeepsOrthonormal(flip: seq<bool>, cols: seq<Vec>, d: nat)
    requires |flip| == |cols| && Shaped(cols, d) && Orthonormal(cols, d)
    ensures Orthonormal(FlipColumns(flip, cols, d), d)
  {
    hide DotTo;
    forall i, j | 0 <= i < |cols| && 0 <= j < |cols|
      ensures Dot(FlipColumns(flip, cols, d)[i], FlipColumns(flip, cols, d)[j]) == if i == j then 1.0 else 0.0
    {
      DotNegated(cols[i], cols[j]);
      DotNegated(Negated(cols[i]), cols[j]);
      assert Dot(cols[i], cols[j]) == if i == j then 1.0 else 0.0;
    }
  }

  /** Negates column j. */
  method NegateColumn(a: array2<real>, j: nat)
    requires j < a.Length0
    modifies a
    ensures forall c, i :: 0 <= c < a.Length0 && 0 <= i < a.Length1 ==>
        a[c, i] == if c == j then -old(a[c, i]) else old(a[c, i])
  {
    for n := 0 to a.Length1
      invariant forall c, i :: 0 <= c < a.Length0 && 0 <= i < a.Length1 ==>
                  a[c, i] == if c == j && i < n then -old(a[c, i]) else old(a[c, i])
    {
      a[j, n] := -a[j, n];
    }
  }

  /** Negates row j. */
  method NegateRow(a: array2<real>, j: nat)
    requires j < a.Length1
    modifies a
    ensures forall c, i :: 0 <= c < a.Length0 && 0 <= i < a.Length1 ==>
        a[c, i] == if i == j then -old(a[c, i]) else old(a[c, i])
  {
    for n := 0 to a.Length0
      invariant forall c, i :: 0 <= c < a.Length0 && 0 <= i < a.Length1 ==>
                  a[c, i] == if i == j && c < n then -old(a[c, i]) else old(a[c, i])
    {
      a[n, j] := -a[n, j];
    }
  }

  /** Flips column j of Q and row j of R wherever R_jj < 0. */
  method MakeRDiagonalPositive(q: array2<real>, r: array2<real>) returns (ghost flip: seq<bool>)
    requires q != r && q.Length0 == q.Length1 == r.Length0 == r.Length1
    modifies q, r
    ensures |flip| == q.Length0 && forall j :: 0 <= j < |flip| ==> (flip[j] <==> old(r[j, j]) < 0.0)
    ensures Columns(q) == FlipColumns(flip, old(Columns(q)), q.Length0)
    ensures forall j :: 0 <= j < r.Length0 ==> Column(r, j) == FlipEntries(flip, old(Column(r, j)))
    ensures forall j :: 0 <= j < r.Length0 ==> r[j, j] >= 0.0
  {
    var d := q.Length0;
    flip := [];
    for j := 0 to d
      invariant |flip| == j
      invariant forall c, i :: 0 <= c < d && 0 <= i < d ==>
          q[c, i] == if c < j && flip[c] then -old(q[c, i]) else old(q[c, i])
      invariant forall c, i :: 0 <= c < d && 0 <= i < d ==>
          r[c, i] == if i < j && flip[i] then -old(r[c, i]) else old(r[c, i])
      invariant forall c :: 0 <= c < j ==> r[c, c] >= 0.0 && (flip[c] <==> old(r[c, c]) < 0.0)
    {
      var negative := r[j, j] < 0.0;
      if negative {
        NegateColumn(q, j);
        NegateRow(r, j);
      }
      flip := flip + [negative];
    }
    forall j | 0 <= j < d
      ensures Columns(q)[j] == FlipColumns(flip, old(Columns(q)), d)[j]
    {
      assert forall i :: 0 <= i < d ==>
          Column(q, j)[i] == if flip[j] then -old(Column(q, j))[i] else old(Column(q, j))[i];
    }
  }

  // ----- the rotation -----

  /** The matrix of the rotation, row-major: Pi[i][j] is matrix[i, j]. */
  class Rotation {
    const matrix: array2<real>

    ghost predicate Valid()
      reads this, matrix
    {
      matrix.Length0 == matrix.Length1
    }

    /** The columns of Pi. */
    ghost function Cols(): (cols: seq<Vec>)
      requires Valid()
      reads this, matrix
      ensures |cols| == matrix.Length1 && Shaped(cols, matrix.Length0)
      ensures forall j, i :: 0 <= j < matrix.Length1 && 0 <= i < matrix.Length0 ==> cols[j][i] == matrix[i, j]
    {
      seq(matrix.Length1, j requires 0 <= j < matrix.Length1 reads this, matrix =>
        seq(matrix.Length0, i requires 0 <= i < matrix.Length0 reads this, matrix => matrix[i, j]))
    }

    /** Pi = Q for the QR of the random matrix `r`, column-major, with R's diagonal made non-negative.
        `r` is left holding R. */
    constructor Generate(sqrt: real -> real, r: array2<real>)
      requires IsSqrt(sqrt) && r.Length0 == r.Length1
      modifies r
      ensures fresh(matrix) && Valid() && matrix.Length0 == r.Length0
      ensures Orthonormal(Cols(), r.Length0)
      ensures UpperTriangular(Columns(r), r.Length0)
      ensures forall j :: 0 <= j < r.Length0 ==> r[j, j] >= 0.0
      ensures forall j :: 0 <= j < r.Length0 ==> MatVec(Cols(), r.Length0, Columns(r)[j]) == old(Columns(r))[j]
    {
      hide DotTo, MatVecTo;
      var d := r.Length0;
      ghost var g := Columns(r);
      var q, hs := HouseholderQr(sqrt, r);
      ghost var q0, r0 := Columns(q), Columns(r);
      ghost var flip := MakeRDiagonalPositive(q, r);
      FlipKeepsOrthonormal(flip, q0, d);
      forall j | 0 <= j < d
        ensures MatVec(Columns(q), d, Columns(r)[j]) == g[j]
      {
        FlipKeepsProduct(flip, q0, d, r0[j], d);
      }
      matrix := new real[d, d]((i, j) requires 0 <= i < d && 0 <= j < d reads q => q[j, i]);
      new;
      forall j | 0 <= j < d
        ensures Cols()[j] == Columns(q)[j]
      {
        assert forall i :: 0 <= i < d ==> Cols()[j][i] == Column(q, j)[i];
      }
      assert Cols() == Columns(q);
    }

    /** <row i of Pi, x> */
    method RowDot(i: nat, x: array<real>) returns (sum: real)
      requires Valid() && x.Length == matrix.Length0 && i < matrix.Length0
      ensures sum == MatVec(Cols(), matrix.Length0, x[..])[i]
    {
      hide DotTo, MatVecTo;
      ghost var row := seq(x.Length, j requires 0 <= j < x.Length reads this, matrix => matrix[i, j]);
      ghost var v := x[..];
      MatVecToEntry(Cols(), matrix.Length0, v, x.Length, i, row);
      DotToEmpty(row, v);
      sum := 0.0;
      for j := 0 to x.Length
        invariant sum == DotTo(row, v, j)
      {
        DotToStep(row, v, j);
        sum := sum + matrix[i, j] * x[j];
      }
    }

    /** out <- Pi*x */
    method Rotate(x: array<real>, out: array<real>)
      requires Valid() && x.Length == out.Length == matrix.Length0 && x != out
      modifies out
      ensures out[..] == MatVec(Cols(), matrix.Length0, x[..])
    {
      hide MatVec, DotTo;
      ghost var rotated := MatVec(Cols(), matrix.Length0, x[..]);
      for i := 0 to out.Length
        invariant x[..] == old(x[..])
        invariant forall r :: 0 <= r < i ==> out[r] == rotated[r]
      {
        out[i] := RowDot(i, x);
      }
    }

    /** out <- out + weight*(row i of Pi) */
    method AddRow(i: nat, weight: real, out: array<real>)
      requires Valid() && out.Length == matrix.Length0 && i < matrix.Length0
      modifies out
      ensures forall c :: 0 <= c < out.Length ==> out[c] == old(out[c]) + weight * matrix[i, c]
    {
      for j := 0 to out.Length
        invariant forall c :: 0 <= c < j ==> out[c] == old(out[c]) + weight * matrix[i, c]
        invariant forall c :: j <= c < out.Length ==> out[c] == old(out[c])
      {
        out[j] := out[j] + weight * matrix[i, j];
      }
    }

    /** out <- Pi^T*y, adding whole weighted rows. */
    method InverseRotate(y: array<real>, out: array<real>)
      requires Valid() && y.Length == out.Length == matrix.Length0 && y != out
      modifies out
      ensures out[..] == TransposeVec(Cols(), matrix.Length0, y[..])
    {
      hide DotTo;
      ghost var cols, v := Cols(), y[..];
      for j := 0 to out.Length
        invariant forall c :: 0 <= c < j ==> out[c] == 0.0
      {
        out[j] := 0.0;
      }
      forall c | 0 <= c < out.Length
        ensures out[c] == DotTo(cols[c], v, 0)
      {
        DotToEmpty(cols[c], v);
      }
      for i := 0 to out.Length
        invariant y[..] == v
        invariant forall c :: 0 <= c < out.Length ==> out[c] == DotTo(cols[c], v, i)
      {
        forall c | 0 <= c < out.Length
          ensures DotTo(cols[c], v, i + 1) == out[c] + y[i] * matrix[i, c]
        {
          DotToStep(cols[c], v, i);
        }
        AddRow(i, y[i], out);
      }
    }

    /** Rotating keeps inner products, hence norms; the inverse rotation undoes it. */
    lemma RotationIsIsometry(x: Vec, y: Vec)
      requires Valid() && Orthonormal(Cols(), matrix.Length0) && |x| == |y| == matrix.Length0
      ensures Dot(MatVec(Cols(), |x|, x), MatVec(Cols(), |x|, y)) == Dot(x, y)
      ensures TransposeVec(Cols(), |x|, MatVec(Cols(), |x|, x)) == x
    {
      OrthonormalKeepsDot(Cols(), |x|, x, y);
      TransposeUndoes(Cols(), |x|, x);
    }
  }
}
