/** Householder triangularisation of a 6 by 4 matrix, as values, and why solving the triangular
    system solves the least-squares problem. */
module QrSpec {
  import opened Optional
  import opened Reals
  import opened Vectors

  const NR := 6
  const NC := 4

  /** The square root of the C library, over exact reals. */
  ghost predicate IsSqrt(sqrt: real -> real) {
    forall x: real :: x >= 0.0 ==> sqrt(x) >= 0.0 && sqrt(x) * sqrt(x) == x
  }

  function Abs(x: real): (r: real)
    ensures r >= 0.0 && (r == 0.0 <==> x == 0.0)
  {
    if x < 0.0 then -x else x
  }

  /** Column j of a matrix stored row by row. */
  function Col(a: seq<real>, j: nat): (c: Vec)
    requires |a| == NR * NC && j < NC
    ensures |c| == NR && forall i :: 0 <= i < NR ==> c[i] == a[NC * i + j]
  {
    seq(NR, i requires 0 <= i < NR => a[NC * i + j])
  }

  /** The largest magnitude in x[k..n]. */
  function Eta(x: Vec, k: nat, n: nat): (e: real)
    requires k < n <= |x|
    ensures e >= 0.0
    ensures forall i :: k <= i < n ==> Abs(x[i]) <= e
    ensures exists i :: k <= i < n && Abs(x[i]) == e
  {
    if n == k + 1 then Abs(x[k])
    else if Eta(x, k, n - 1) < Abs(x[n - 1]) then Abs(x[n - 1])
    else Eta(x, k, n - 1)
  }

  /** The scale of step k: the code takes it over all rows from k on but the last. */
  function Scale(x: Vec, k: nat): real
    requires |x| == NR && k < NC
  {
    Eta(x, k, NR - 1)
  }

  /** Column x multiplied by inv, with zeros above row k. */
  function Scaled(x: Vec, k: nat, inv: real): (y: Vec)
    requires |x| == NR && k < NC
    ensures |y| == NR && forall i :: 0 <= i < NR ==> y[i] == if i < k then 0.0 else Product(x[i], inv)
  {
    seq(NR, i requires 0 <= i < NR => if i < k then 0.0 else Product(x[i], inv))
  }

  function Sigma(y: Vec, k: nat, sqrt: real -> real): real
    requires k < |y|
  {
    if y[k] < 0.0 then -sqrt(Dot(y, y)) else sqrt(Dot(y, y))
  }

  /** x with r in row k and zeros below. */
  function Cleared(x: Vec, k: nat, r: real): (c: Vec)
    requires |x| == NR && k < NC
    ensures |c| == NR && forall i :: 0 <= i < NR ==> c[i] == if i < k then x[i] else if i == k then r else 0.0
  {
    seq(NR, i requires 0 <= i < NR => if i < k then x[i] else if i == k then r else 0.0)
  }

  lemma ScaledIsLong(x: Vec, k: nat)
    requires |x| == NR && k < NC && Scale(x, k) != 0.0
    ensures var y := Scaled(x, k, Inverse(Scale(x, k))); Dot(y, y) >= 1.0
  {
    hide Dot, Inverse, Scaled, Abs, Product;
    var eta := Scale(x, k);
    var i :| k <= i < NR - 1 && Abs(x[i]) == eta;
    LongAt(Scaled(x, k, Inverse(eta)), i, x[i], eta, Inverse(eta));
  }

  lemma LongAt(y: Vec, i: nat, xi: real, eta: real, inv: real)
    requires i < |y| && eta * inv == 1.0 && Abs(xi) == eta && y[i] == Product(xi, inv)
    ensures Dot(y, y) >= 1.0
  {
    hide Dot, Abs, Product;
    UnitSquare(xi, eta, inv);
    DotSelf(y, i);
    Square(y[i], Product(xi, inv));
  }

  lemma SigmaOk(y: Vec, k: nat, sqrt: real -> real)
    requires k < |y| && Dot(y, y) >= 1.0 && IsSqrt(sqrt)
    ensures var s := Sigma(y, k, sqrt); s != 0.0 && s * s == Dot(y, y) && s * (y[k] + s) != 0.0
  {
    hide Dot;
    SignedRoot(Dot(y, y), y[k], Sigma(y, k, sqrt), sqrt(Dot(y, y)));
  }

  lemma UnitSquare(x: real, eta: real, inv: real)
    requires eta * inv == 1.0 && Abs(x) == eta
    ensures Product(x, inv) * Product(x, inv) == 1.0
  {
    assert Product(x, inv) == 1.0 || Product(x, inv) == -1.0;
  }

  lemma SignedRoot(q: real, yk: real, s: real, root: real)
    requires q > 0.0 && root >= 0.0 && root * root == q && s == if yk < 0.0 then -root else root
    ensures s != 0.0 && s * s == q && s * (yk + s) != 0.0
  {
    assert root > 0.0;
    if yk < 0.0 {
      assert yk + s < 0.0;
    } else {
      assert yk + s > 0.0;
    }
  }

  /** v with s added at index k: its inner products. */
  lemma {:induction false} DotBump(y: Vec, k: nat, s: real, w: Vec)
    requires k < |y| == |w|
    ensures Dot(y[k := y[k] + s], w) == Dot(y, w) + Product(s, w[k])
  {
    var n := |y| - 1;
    var v := y[k := y[k] + s];
    DotLast(v, w);
    DotLast(y, w);
    hide Dot, Product;
    if k == n {
      assert v[..n] == y[..n];
      ProductOfSum(y[k], s, w[k]);
    } else {
      assert v[..n] == y[..n][k := y[..n][k] + s];
      DotBump(y[..n], k, s, w[..n]);
    }
  }

  lemma ProductOfSum(a: real, b: real, c: real)
    ensures Product(a + b, c) == Product(a, c) + Product(b, c)
  {
  }

  /** y is x divided by eta from row k on, and zero above. */
  predicate Unscales(y: Vec, x: Vec, eta: real, k: nat) {
    |x| == |y| && forall i :: 0 <= i < |y| ==> if i < k then y[i] == 0.0 else Product(eta, y[i]) == x[i]
  }

  /** The scaled column against the column itself. */
  lemma {:induction false} DotScaled(y: Vec, x: Vec, eta: real, k: nat)
    requires Unscales(y, x, eta, k)
    ensures Dot(y, x) == Product(eta, Dot(y, y))
  {
    if y != [] {
      var n := |y| - 1;
      UnscalesInit(y, x, eta, k);
      hide Product, Dot, Unscales;
      DotScaled(y[..n], x[..n], eta, k);
      DotLast(y, x);
      DotLast(y, y);
      ScaleStep(eta, y[n], x[n], Dot(y[..n], y[..n]), Dot(y[..n], x[..n]), Dot(y, y), Dot(y, x));
    }
  }

  lemma UnscalesInit(y: Vec, x: Vec, eta: real, k: nat)
    requires Unscales(y, x, eta, k) && y != []
    ensures var n := |y| - 1; Unscales(y[..n], x[..n], eta, k) && (y[n] == 0.0 || x[n] == Product(eta, y[n]))
  {
    hide Product;
  }

  lemma DotLast(u: Vec, w: Vec)
    requires |u| == |w| > 0
    ensures Dot(u, w) == Dot(u[..|u| - 1], w[..|w| - 1]) + Product(u[|u| - 1], w[|w| - 1])
  {
    hide Product;
  }

  lemma ScaleStep(eta: real, a: real, x: real, d: real, dx: real, yy: real, yx: real)
    requires dx == Product(eta, d) && (a == 0.0 || x == Product(eta, a))
    requires yy == d + Product(a, a) && yx == dx + Product(a, x)
    ensures yx == Product(eta, yy)
  {
    SameProduct(eta, yy, d + a * a);
    if a != 0.0 {
      SameProduct(a, x, eta * a);
    }
  }

  /** The reflection of step k: normal, half its square, and the diagonal entry it leaves. */
  datatype Reflection = Reflection(v: Vec, d: real, r: real)

  function Householder(x: Vec, k: nat, sqrt: real -> real): (h: Reflection)
    requires |x| == NR && k < NC && Scale(x, k) != 0.0
    ensures |h.v| == NR
  {
    var eta := Scale(x, k);
    var y := Scaled(x, k, Inverse(eta));
    var s := Sigma(y, k, sqrt);
    Reflection(y[k := y[k] + s], s * (y[k] + s), -eta * s)
  }

  /** It is a reflection. */
  lemma HouseholderNormal(x: Vec, k: nat, sqrt: real -> real)
    requires |x| == NR && k < NC && Scale(x, k) != 0.0 && IsSqrt(sqrt)
    ensures var h := Householder(x, k, sqrt);
            && h.d != 0.0 && h.r != 0.0 && Dot(h.v, h.v) == 2.0 * h.d
            && forall i :: 0 <= i < k ==> h.v[i] == 0.0
  {
    hide Dot, Scale, Sigma, IsSqrt, Inverse, Product, Scaled;
    var y := Scaled(x, k, Inverse(Scale(x, k)));
    var s := Sigma(y, k, sqrt);
    var v := y[k := y[k] + s];
    ScaledIsLong(x, k);
    SigmaOk(y, k, sqrt);
    DotBump(y, k, s, v);
    DotCommutes(y, v);
    DotBump(y, k, s, y);
    SquareOfNormal(Dot(y, y), s, y[k]);
    LastEntry(Scale(x, k), s);
  }

  lemma HouseholderIs(x: Vec, k: nat, sqrt: real -> real, eta: real, y: Vec, s: real)
    requires |x| == NR && k < NC && eta == Scale(x, k) != 0.0 && y == Scaled(x, k, Inverse(eta))
    requires s == Sigma(y, k, sqrt)
    ensures Householder(x, k, sqrt) == Reflection(y[k := y[k] + s], s * (y[k] + s), -eta * s)
  {
    hide Scaled, Inverse, Scale, Sigma;
  }

  /** It maps the column to a multiple of a unit vector from row k down. */
  lemma HouseholderMaps(x: Vec, k: nat, sqrt: real -> real)
    requires |x| == NR && k < NC && Scale(x, k) != 0.0 && IsSqrt(sqrt)
    requires Householder(x, k, sqrt).d != 0.0
    ensures var h := Householder(x, k, sqrt); Reflect(h.v, h.d, x) == Cleared(x, k, h.r)
  {
    hide Dot, Scale, Sigma, IsSqrt, Inverse, Scaled, Reflect, Cleared, Product, Householder, Unscales;
    var eta := Scale(x, k);
    var y := Scaled(x, k, Inverse(eta));
    var s := Sigma(y, k, sqrt);
    ScaledIsLong(x, k);
    SigmaOk(y, k, sqrt);
    UnscaleAll(x, k, y, eta, Inverse(eta));
    HouseholderIs(x, k, sqrt, eta, y, s);
    ReflectionMaps(x, k, y, eta, s, s * (y[k] + s));
  }

  lemma ReflectionMaps(x: Vec, k: nat, y: Vec, eta: real, s: real, d: real)
    requires |x| == |y| == NR && k < NC && Unscales(y, x, eta, k) && s * s == Dot(y, y) && d == s * (y[k] + s)
      && d != 0.0
    ensures Reflect(y[k := y[k] + s], d, x) == Cleared(x, k, -eta * s)
  {
    assert Product(eta, y[k]) == x[k];
    hide Dot, Coefficient, AddScaled, Cleared, Unscales, Product;
    var v := y[k := y[k] + s];
    DotBump(y, k, s, x);
    DotScaled(y, x, eta, k);
    var c := Coefficient(v, d, x);
    CoefficientIsEta(c, d, Dot(y, y), eta, s, y[k], x[k], Dot(v, x));
    HouseholderClears(x, k, y, eta, s, c, -eta * s);
  }

  lemma UnscaleAll(x: Vec, k: nat, y: Vec, eta: real, inv: real)
    requires |x| == |y| == NR && k < NC && eta * inv == 1.0
    requires forall i :: 0 <= i < NR ==> y[i] == if i < k then 0.0 else Product(x[i], inv)
    ensures Unscales(y, x, eta, k)
  {
    forall i | k <= i < NR ensures Product(eta, y[i]) == x[i] {
      Unscale(x[i], eta, inv, y[i]);
    }
    hide Product;
  }

  lemma Unscale(x: real, eta: real, inv: real, y: real)
    requires eta * inv == 1.0 && y == Product(x, inv)
    ensures Product(eta, y) == x
  {
    SameProduct(eta, y, x * inv);
    assert eta * (x * inv) == x * (eta * inv);
  }

  lemma SquareOfNormal(yy: real, s: real, yk: real)
    requires s * s == yy
    ensures yy + Product(s, yk) + Product(s, yk + s) == 2.0 * (s * (yk + s))
  {
  }

  lemma LastEntry(eta: real, s: real)
    requires eta != 0.0 && s != 0.0
    ensures -eta * s != 0.0
  {
  }

  lemma CoefficientIsEta(c: real, d: real, yy: real, eta: real, s: real, yk: real, xk: real, vx: real)
    requires c * d == -vx && vx == Product(eta, yy) + Product(s, xk) && xk == Product(eta, yk) && yy == s * s
        && d == s * (yk + s) && d != 0.0
    ensures c == -eta
  {
    SameProduct(eta, yy, s * s);
    SameProduct(s, xk, eta * yk);
    SameProduct(eta, d, s * yk + s * s);
    assert vx == eta * d;
    CancelFactor(c + eta, d);
  }

  lemma CancelFactor(a: real, d: real)
    requires a * d == 0.0 && d != 0.0
    ensures a == 0.0
  {
  }

  lemma HouseholderClears(x: Vec, k: nat, y: Vec, eta: real, s: real, c: real, r: real)
    requires |x| == |y| == NR && k < NC && c == -eta && r == -eta * s && Unscales(y, x, eta, k)
    ensures AddScaled(x, c, y[k := y[k] + s]) == Cleared(x, k, r)
  {
    var v := y[k := y[k] + s];
    var lhs, rhs := AddScaled(x, c, v), Cleared(x, k, r);
    forall i | 0 <= i < NR ensures lhs[i] == rhs[i] {
      assert lhs[i] == x[i] + c * v[i];
      if i >= k {
        ClearsAt(x[i], y[i], eta, s, c);
      }
    }
    hide AddScaled, Cleared, Product;
  }

  lemma ClearsAt(xi: real, yi: real, eta: real, s: real, c: real)
    requires Product(eta, yi) == xi && c == -eta
    ensures xi + c * yi == 0.0 && xi + c * (yi + s) == -eta * s
  {
    assert c * yi == -(eta * yi);
    assert c * (yi + s) == c * yi + c * s;
    assert c * s == -eta * s;
  }

  // ---------- All steps ----------

  /** The reflections of the first steps and the diagonal they leave. */
  datatype Factors = Factors(vs: seq<Vec>, ds: seq<real>, rs: seq<real>)

  /** The first k steps; they stop at a column whose scale is zero. */
  function Factor(a: seq<real>, k: nat, sqrt: real -> real): (f: Option<Factors>)
    requires |a| == NR * NC && k <= NC
    requires IsSqrt(sqrt)
    ensures f.Some? ==> |f.value.vs| == |f.value.rs| == k && Reflectors(f.value.vs, f.value.ds, NR)
  {
    if k == 0 then Some(Factors([], [], [])) else
    match Factor(a, k - 1, sqrt)
    case None => None
    case Some(f) =>
      var x := ReflectAll(f.vs, f.ds, Col(a, k - 1));
      if Scale(x, k - 1) == 0.0 then None else
      var h := Householder(x, k - 1, sqrt);
      HouseholderNormal(x, k - 1, sqrt);
      Some(Factors(f.vs + [h.v], f.ds + [h.d], f.rs + [h.r]))
  }

  /** Column j after the steps of f. */
  function Reduced(a: seq<real>, f: Factors, j: nat): (c: Vec)
    requires |a| == NR * NC && j < NC && Reflectors(f.vs, f.ds, NR)
    ensures |c| == NR
  {
    ReflectAll(f.vs, f.ds, Col(a, j))
  }

  lemma FactorStep(a: seq<real>, k: nat, sqrt: real -> real, f: Factors, j: nat)
    requires |a| == NR * NC && k < NC && j < NC && IsSqrt(sqrt) && Factor(a, k, sqrt) == Some(f)
    requires Factor(a, k + 1, sqrt).Some?
    ensures var f' := Factor(a, k + 1, sqrt).value;
            var h := Householder(Reduced(a, f, k), k, sqrt);
            && Scale(Reduced(a, f, k), k) != 0.0 && h.d != 0.0
            && f'.vs == f.vs + [h.v] && f'.ds == f.ds + [h.d] && f'.rs == f.rs + [h.r]
            && Reduced(a, f', j) == Reflect(h.v, h.d, Reduced(a, f, j))
  {
    hide Dot, Householder, Reflect, Scale;
    var f' := Factor(a, k + 1, sqrt).value;
    var h := Householder(Reduced(a, f, k), k, sqrt);
    HouseholderNormal(Reduced(a, f, k), k, sqrt);
    assert f'.vs[..k] == f.vs && f'.ds[..k] == f.ds;
    assert f'.vs[k] == h.v && f'.ds[k] == h.d;
  }

  lemma {:induction false} DotDisjoint(u: Vec, w: Vec)
    requires |u| == |w| && forall i :: 0 <= i < |u| ==> u[i] == 0.0 || w[i] == 0.0
    ensures Dot(u, w) == 0.0
  {
    if u != [] {
      DotDisjoint(u[..|u| - 1], w[..|w| - 1]);
    }
  }

  /** A reflection whose normal has no row in common with a vector leaves it alone. */
  lemma ReflectDisjoint(v: Vec, d: real, c: Vec)
    requires |v| == |c| && d != 0.0 && forall i :: 0 <= i < |v| ==> v[i] == 0.0 || c[i] == 0.0
    ensures Reflect(v, d, c) == c
  {
    DotDisjoint(v, c);
    assert Coefficient(v, d, c) == 0.0;
    var w := Reflect(v, d, c);
    forall i | 0 <= i < |c| ensures w[i] == c[i] { assert 0.0 * v[i] == 0.0; }
  }

  /** Column j is f.rs[j] on the diagonal and zero below it. */
  predicate Reached(a: seq<real>, f: Factors, j: nat)
    requires |a| == NR * NC && j < NC && Reflectors(f.vs, f.ds, NR) && j < |f.rs|
  {
    Reduced(a, f, j)[j] == f.rs[j] != 0.0 && forall i :: j < i < NR ==> Reduced(a, f, j)[i] == 0.0
  }

  lemma OwnStep(a: seq<real>, j: nat, sqrt: real -> real, f0: Factors, f: Factors)
    requires |a| == NR * NC && j < NC && IsSqrt(sqrt)
    requires Factor(a, j, sqrt) == Some(f0) && Factor(a, j + 1, sqrt) == Some(f)
    ensures Reached(a, f, j)
  {
    hide Dot, Householder, Reflect, Scale, Cleared, Reduced, Factor, IsSqrt;
    FactorStep(a, j, sqrt, f0, j);
    HouseholderNormal(Reduced(a, f0, j), j, sqrt);
    HouseholderMaps(Reduced(a, f0, j), j, sqrt);
  }

  lemma LaterStep(a: seq<real>, k: nat, sqrt: real -> real, f0: Factors, f: Factors, j: nat)
    requires |a| == NR * NC && j < k < NC && IsSqrt(sqrt)
    requires Factor(a, k, sqrt) == Some(f0) && Factor(a, k + 1, sqrt) == Some(f) && Reached(a, f0, j)
    ensures Reached(a, f, j) && Reduced(a, f, j) == Reduced(a, f0, j)
  {
    hide Dot, Householder, Reflect, Scale, Reduced, Factor, IsSqrt;
    FactorStep(a, k, sqrt, f0, j);
    var h := Householder(Reduced(a, f0, k), k, sqrt);
    HouseholderNormal(Reduced(a, f0, k), k, sqrt);
    ReflectDisjoint(h.v, h.d, Reduced(a, f0, j));
  }

  lemma FactorBefore(a: seq<real>, k: nat, sqrt: real -> real)
    requires |a| == NR * NC && 0 < k <= NC && IsSqrt(sqrt) && Factor(a, k, sqrt).Some?
    ensures Factor(a, k - 1, sqrt).Some?
  {
    hide Householder, Scale, Reduced, IsSqrt;
  }

  /** After its own step, a column is zero below the diagonal and no later step changes it. */
  lemma {:induction false} Triangular(a: seq<real>, k: nat, sqrt: real -> real, f: Factors, j: nat)
    requires |a| == NR * NC && j < k <= NC && IsSqrt(sqrt) && Factor(a, k, sqrt) == Some(f)
    ensures Reached(a, f, j)
    decreases k, 0
  {
    hide Reached, IsSqrt, Factor;
    FactorBefore(a, k, sqrt);
    TriangularFrom(a, k - 1, sqrt, Factor(a, k - 1, sqrt).value, f, j);
  }

  lemma {:induction false} TriangularFrom(a: seq<real>, k: nat, sqrt: real -> real, f0: Factors, f: Factors, j: nat)
    requires |a| == NR * NC && j <= k < NC && IsSqrt(sqrt) && Factor(a, k, sqrt) == Some(f0)
        && Factor(a, k + 1, sqrt) == Some(f)
    ensures Reached(a, f, j)
    decreases k, 1
  {
    hide Reached, IsSqrt, Factor;
    if k == j {
      OwnStep(a, j, sqrt, f0, f);
    } else {
      Triangular(a, k, sqrt, f0, j);
      LaterStep(a, k, sqrt, f0, f, j);
    }
  }

  // ---------- Least squares ----------

  /** b minus the combination of the first n columns with coefficients x. */
  function Residual(b: Vec, cols: seq<Vec>, x: Vec, n: nat): (r: Vec)
    requires n <= |cols| && n <= |x| && forall j :: 0 <= j < |cols| ==> |cols[j]| == |b|
    ensures |r| == |b|
  {
    if n == 0 then b else AddScaled(Residual(b, cols, x, n - 1), -x[n - 1], cols[n - 1])
  }

  function Cols(a: seq<real>): (cols: seq<Vec>)
    requires |a| == NR * NC
    ensures |cols| == NC && forall j :: 0 <= j < NC ==> cols[j] == Col(a, j)
  {
    seq(NC, j requires 0 <= j < NC => Col(a, j))
  }

  function ReducedCols(a: seq<real>, f: Factors): (cols: seq<Vec>)
    requires |a| == NR * NC && Reflectors(f.vs, f.ds, NR)
    ensures |cols| == NC && forall j :: 0 <= j < NC ==> cols[j] == Reduced(a, f, j)
  {
    seq(NC, j requires 0 <= j < NC => Reduced(a, f, j))
  }

  /** The normal equations: the residual is orthogonal to every column. */
  predicate NormalEquations(a: seq<real>, b: Vec, x: Vec)
    requires |a| == NR * NC && |b| == NR && |x| == NC
  {
    forall j :: 0 <= j < NC ==> Dot(Col(a, j), Residual(b, Cols(a), x, NC)) == 0.0
  }

  /** The triangular system that the back substitution solves. */
  predicate Solves(a: seq<real>, b: Vec, f: Factors, x: Vec)
    requires |a| == NR * NC && |b| == NR && |x| == NC && Reflectors(f.vs, f.ds, NR)
  {
    forall i :: 0 <= i < NC ==> Residual(ReflectAll(f.vs, f.ds, b), ReducedCols(a, f), x, NC)[i] == 0.0
  }

  lemma {:induction false} ReflectResidual(a: seq<real>, b: Vec, f: Factors, x: Vec, n: nat)
    requires |a| == NR * NC && |b| == NR && |x| == NC && Reflectors(f.vs, f.ds, NR) && n <= NC
    ensures ReflectAll(f.vs, f.ds, Residual(b, Cols(a), x, n))
         == Residual(ReflectAll(f.vs, f.ds, b), ReducedCols(a, f), x, n)
  {
    if n != 0 {
      hide Dot, AddScaled, ReflectAll, Residual, Col, Cols, ReducedCols;
      ReflectResidual(a, b, f, x, n - 1);
      ResidualStep(b, Cols(a), x, n);
      ResidualStep(ReflectAll(f.vs, f.ds, b), ReducedCols(a, f), x, n);
      ReflectStep(f, Residual(b, Cols(a), x, n - 1), -x[n - 1], Col(a, n - 1), Reduced(a, f, n - 1));
    }
  }

  lemma ReflectStep(f: Factors, r: Vec, t: real, w: Vec, reduced: Vec)
    requires |r| == |w| == NR && Reflectors(f.vs, f.ds, NR) && reduced == ReflectAll(f.vs, f.ds, w)
    ensures ReflectAll(f.vs, f.ds, AddScaled(r, t, w)) == AddScaled(ReflectAll(f.vs, f.ds, r), t, reduced)
  {
    hide Dot, AddScaled, ReflectAll;
    ReflectAllLinear(f.vs, f.ds, r, t, w);
  }

  lemma ResidualStep(b: Vec, cols: seq<Vec>, x: Vec, n: nat)
    requires 0 < n <= |cols| && n <= |x| && forall j :: 0 <= j < |cols| ==> |cols[j]| == |b|
    ensures Residual(b, cols, x, n) == AddScaled(Residual(b, cols, x, n - 1), -x[n - 1], cols[n - 1])
  {
    hide AddScaled;
  }

  /** Solving the triangular system solves the normal equations. */
  lemma TriangularSolves(a: seq<real>, b: Vec, sqrt: real -> real, x: Vec)
    requires |a| == NR * NC && |b| == NR && |x| == NC && IsSqrt(sqrt)
    requires Factor(a, NC, sqrt).Some? && Solves(a, b, Factor(a, NC, sqrt).value, x)
    ensures NormalEquations(a, b, x)
  {
    hide Dot, ReflectAll, AddScaled, Factor, IsSqrt, Residual;
    var f := Factor(a, NC, sqrt).value;
    var r := Residual(b, Cols(a), x, NC);
    ReflectResidual(a, b, f, x, NC);
    forall j | 0 <= j < NC ensures Dot(Col(a, j), r) == 0.0 {
      Triangular(a, NC, sqrt, f, j);
      ReflectAllPreservesDot(f.vs, f.ds, Col(a, j), r);
      DotDisjoint(Reduced(a, f, j), ReflectAll(f.vs, f.ds, r));
    }
  }

  lemma {:induction false} ResidualAgainst(b: Vec, cols: seq<Vec>, y: Vec, n: nat, r: Vec)
    requires n <= |cols| && n <= |y| && |r| == |b|
    requires forall j :: 0 <= j < |cols| ==> |cols[j]| == |b| && Dot(cols[j], r) == 0.0
    ensures Dot(Residual(b, cols, y, n), r) == Dot(b, r)
  {
    if n != 0 {
      hide Dot, AddScaled;
      ResidualAgainst(b, cols, y, n - 1, r);
      DotAddScaled(Residual(b, cols, y, n - 1), -y[n - 1], cols[n - 1], r);
    }
  }

  lemma Difference(s: Vec, r: Vec)
    requires |s| == |r| && Dot(s, r) == Dot(r, r)
    ensures Dot(r, r) <= Dot(s, s)
  {
    hide *;
    var d := AddScaled(s, -1.0, r);
    DotAddScaled(s, -1.0, r, d);
    DotAddScaledRight(s, s, -1.0, r);
    DotAddScaledRight(r, s, -1.0, r);
    DotCommutes(r, s);
    DotSelfNonnegative(d);
  }

  /** No other coefficients leave a shorter residual. */
  lemma LeastSquares(a: seq<real>, b: Vec, x: Vec, y: Vec)
    requires |a| == NR * NC && |b| == NR && |x| == NC && |y| == NC && NormalEquations(a, b, x)
    ensures var r, s := Residual(b, Cols(a), x, NC), Residual(b, Cols(a), y, NC); Dot(r, r) <= Dot(s, s)
  {
    hide Dot, Residual;
    var r, s := Residual(b, Cols(a), x, NC), Residual(b, Cols(a), y, NC);
    ResidualAgainst(b, Cols(a), x, NC, r);
    ResidualAgainst(b, Cols(a), y, NC, r);
    Difference(s, r);
  }

  // ---------- The solution is the only one ----------

  lemma {:induction false} DotSingle(u: Vec, w: Vec, j: nat)
    requires j < |u| == |w| && forall i :: 0 <= i < |u| && i != j ==> u[i] == 0.0 || w[i] == 0.0
    ensures Dot(u, w) == u[j] * w[j]
  {
    var n := |u| - 1;
    if j == n {
      DotDisjoint(u[..n], w[..n]);
    } else {
      DotSingle(u[..n], w[..n], j);
    }
  }

  lemma {:induction false} DotTwo(u: Vec, w: Vec, a: nat, b: nat)
    requires a < b < |u| == |w| && forall i :: 0 <= i < |u| && i != a && i != b ==> u[i] == 0.0
    ensures Dot(u, w) == u[a] * w[a] + u[b] * w[b]
  {
    var n := |u| - 1;
    if b == n {
      DotSingle(u[..n], w[..n], a);
    } else {
      DotTwo(u[..n], w[..n], a, b);
    }
  }

  /** The normal equations force the first rows of the reduced residual to zero, one by one. */
  lemma {:induction false} RowsVanish(a: seq<real>, f: Factors, q: Vec, j: nat)
    requires |a| == NR * NC && Reflectors(f.vs, f.ds, NR) && |f.rs| == NC && |q| == NR && j <= NC
    requires forall i :: 0 <= i < NC ==> Reached(a, f, i) && Dot(Reduced(a, f, i), q) == 0.0
    ensures forall i :: 0 <= i < j ==> q[i] == 0.0
  {
    if j != 0 {
      hide Dot, Reduced;
      RowsVanish(a, f, q, j - 1);
      assert Reached(a, f, j - 1);
      DotSingle(Reduced(a, f, j - 1), q, j - 1);
    }
  }

  /** The normal equations hold only for solutions of the triangular system. */
  lemma SolvesTriangular(a: seq<real>, b: Vec, sqrt: real -> real, x: Vec)
    requires |a| == NR * NC && |b| == NR && |x| == NC && IsSqrt(sqrt)
    requires Factor(a, NC, sqrt).Some? && NormalEquations(a, b, x)
    ensures Solves(a, b, Factor(a, NC, sqrt).value, x)
  {
    hide Dot, ReflectAll, AddScaled, Factor, IsSqrt, Residual, Reached;
    var f := Factor(a, NC, sqrt).value;
    var r := Residual(b, Cols(a), x, NC);
    ReflectResidual(a, b, f, x, NC);
    forall j | 0 <= j < NC ensures Reached(a, f, j) && Dot(Reduced(a, f, j), ReflectAll(f.vs, f.ds, r)) == 0.0 {
      Triangular(a, NC, sqrt, f, j);
      ReflectAllPreservesDot(f.vs, f.ds, Col(a, j), r);
    }
    RowsVanish(a, f, ReflectAll(f.vs, f.ds, r), NC);
  }

  /** The sum of row i beyond the diagonal, over columns below n, left to right. */
  function Tail(cols: seq<Vec>, x: Vec, i: nat, n: nat): real
    requires i < n <= |cols| && n <= |x| && forall j :: 0 <= j < |cols| ==> i < |cols[j]|
  {
    if n == i + 1 then 0.0 else Tail(cols, x, i, n - 1) + cols[n - 1][i] * x[n - 1]
  }

  lemma {:induction false} RowOfResidual(b: Vec, cols: seq<Vec>, x: Vec, i: nat, n: nat)
    requires n <= |cols| && n <= |x| && i < |b| && forall j :: 0 <= j < |cols| ==> |cols[j]| == |b|
    requires i < |cols| && forall l :: 0 <= l < i ==> cols[l][i] == 0.0
    ensures Residual(b, cols, x, n)[i] == if n <= i then b[i] else b[i] - cols[i][i] * x[i] - Tail(cols, x, i, n)
  {
    if n != 0 {
      RowOfResidual(b, cols, x, i, n - 1);
      var before := Residual(b, cols, x, n - 1);
      assert Residual(b, cols, x, n)[i] == before[i] + -x[n - 1] * cols[n - 1][i];
    }
  }

  /** Upper triangular columns with a nonzero diagonal. */
  predicate Upper(cols: seq<Vec>, rs: seq<real>) {
    && |cols| == |rs| == NC
    && (forall j :: 0 <= j < NC ==> |cols[j]| == NR && cols[j][j] == rs[j] != 0.0)
    && (forall j, i :: 0 <= j < NC && j < i < NR ==> cols[j][i] == 0.0)
  }

  lemma ReducedIsUpper(a: seq<real>, sqrt: real -> real)
    requires |a| == NR * NC && IsSqrt(sqrt) && Factor(a, NC, sqrt).Some?
    ensures var f := Factor(a, NC, sqrt).value; Upper(ReducedCols(a, f), f.rs)
  {
    hide Dot, Reduced, Factor, IsSqrt;
    var f := Factor(a, NC, sqrt).value;
    var cols := ReducedCols(a, f);
    forall j | 0 <= j < NC
      ensures |cols[j]| == NR && cols[j][j] == f.rs[j] != 0.0 && forall i :: j < i < NR ==> cols[j][i] == 0.0
    {
      Triangular(a, NC, sqrt, f, j);
      assert cols[j] == Reduced(a, f, j);
    }
  }

  /** One equation of the triangular system. */
  lemma RowEquation(b: Vec, cols: seq<Vec>, rs: seq<real>, x: Vec, i: nat)
    requires Upper(cols, rs) && |b| == NR && |x| == NC && i < NC
    ensures Residual(b, cols, x, NC)[i] == b[i] - rs[i] * x[i] - Tail(cols, x, i, NC)
  {
    hide Residual, Tail;
    RowOfResidual(b, cols, x, i, NC);
  }

  lemma {:induction false} SameTail(cols: seq<Vec>, x: Vec, y: Vec, i: nat, n: nat)
    requires i < n <= |cols| && n <= |x| == |y| && forall j :: 0 <= j < |cols| ==> i < |cols[j]|
    requires forall l :: i < l < n ==> x[l] == y[l]
    ensures Tail(cols, x, i, n) == Tail(cols, y, i, n)
  {
    if n > i + 1 {
      SameTail(cols, x, y, i, n - 1);
    }
  }

  lemma CancelDiagonal(r: real, x: real, y: real)
    requires r != 0.0 && r * x == r * y
    ensures x == y
  {
    assert r * (x - y) == 0.0;
  }

  lemma {:induction false} UniqueFrom(b: Vec, cols: seq<Vec>, rs: seq<real>, x: Vec, y: Vec, i: nat)
    requires Upper(cols, rs) && |b| == NR && |x| == |y| == NC && i <= NC
    requires forall l :: 0 <= l < NC ==> Residual(b, cols, x, NC)[l] == 0.0 && Residual(b, cols, y, NC)[l] == 0.0
    ensures forall l :: i <= l < NC ==> x[l] == y[l]
    decreases NC - i
  {
    if i < NC {
      hide Residual, Tail;
      UniqueFrom(b, cols, rs, x, y, i + 1);
      RowEquation(b, cols, rs, x, i);
      RowEquation(b, cols, rs, y, i);
      SameTail(cols, x, y, i, NC);
      CancelDiagonal(rs[i], x[i], y[i]);
    }
  }

  /** A matrix that passes every step has only one least-squares solution. */
  lemma Unique(a: seq<real>, b: Vec, sqrt: real -> real, x: Vec, y: Vec)
    requires |a| == NR * NC && |b| == NR && |x| == NC && |y| == NC && IsSqrt(sqrt)
    requires Factor(a, NC, sqrt).Some? && NormalEquations(a, b, x) && NormalEquations(a, b, y)
    ensures x == y
  {
    hide Dot, ReflectAll, Factor, IsSqrt, Residual, Upper;
    SolvesTriangular(a, b, sqrt, x);
    SolvesTriangular(a, b, sqrt, y);
    var f := Factor(a, NC, sqrt).value;
    ReducedIsUpper(a, sqrt);
    UniqueFrom(ReflectAll(f.vs, f.ds, b), ReducedCols(a, f), f.rs, x, y, 0);
  }
}
