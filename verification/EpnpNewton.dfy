/** The Gauss-Newton refinement of ePnP: the linear system of a step, and five steps solved by QR. */
module EpnpNewton {
  import opened EpnpSpec
  import opened Matrix3
  import opened Reals
  import Q = QrSpec
  import Qr
  import QrRank
  import V = Vectors

  /** The differences of all pairs in all four kernel vectors, with the pairs counted up by a and b. */
  method ComputeDifferences(ut: Kernel) returns (dv: array3<real>)
    ensures fresh(dv) && dv.Length0 == 4 && dv.Length1 == 6 && dv.Length2 == 3
    ensures forall k, p :: 0 <= k < 4 && 0 <= p < 6 ==> At(dv, k, p) == Differences(ut, p)[k]
  {
    dv := new real[4, 6, 3];
    for i := 0 to 4
      invariant forall k, p :: 0 <= k < i && 0 <= p < 6 ==> At(dv, k, p) == Differences(ut, p)[k]
    {
      var a, b := 0, 1;
      for j := 0 to 6
        invariant j < 6 ==> a == First(j) && b == Second(j)
        invariant forall k, p :: 0 <= k < 4 && 0 <= p < 6 && (k < i || (k == i && p < j)) ==>
          At(dv, k, p) == Differences(ut, p)[k]
      {
        dv[i, j, 0] := ut[11 - i][3 * a] - ut[11 - i][3 * b];
        dv[i, j, 1] := ut[11 - i][3 * a + 1] - ut[11 - i][3 * b + 1];
        dv[i, j, 2] := ut[11 - i][3 * a + 2] - ut[11 - i][3 * b + 2];
        b := b + 1;
        if b > 3 {
          a := a + 1;
          b := a + 1;
        }
      }
    }
  }

  /** `compute_L_6x10` */
  method ComputeL(ut: Kernel) returns (l: array2<real>)
    ensures fresh(l) && l.Length0 == 6 && l.Length1 == 10
    ensures forall p :: 0 <= p < 6 ==> RowOf(l, p) == Coefficients(Differences(ut, p))
  {
    hide Dot, Minus, Differences, Coefficients, RowOf, At;
    var dv := ComputeDifferences(ut);
    l := new real[6, 10];
    for i := 0 to 6
      invariant forall k, p :: 0 <= k < 4 && 0 <= p < 6 ==> At(dv, k, p) == Differences(ut, p)[k]
      invariant forall p :: 0 <= p < i ==> RowOf(l, p) == Coefficients(Differences(ut, p))
    {
      var d0, d1, d2, d3 := At(dv, 0, i), At(dv, 1, i), At(dv, 2, i), At(dv, 3, i);
      AllFour(Differences(ut, i), d0, d1, d2, d3);
      FillRow(l, i, d0, d1, d2, d3);
    }
  }

  lemma AllFour(d: Points, d0: Vec, d1: Vec, d2: Vec, d3: Vec)
    requires d[0] == d0 && d[1] == d1 && d[2] == d2 && d[3] == d3
    ensures d == [d0, d1, d2, d3]
  {
  }

  /** One row of `compute_L_6x10`. */
  method FillRow(l: array2<real>, i: nat, d0: Vec, d1: Vec, d2: Vec, d3: Vec)
    requires l.Length0 == 6 && l.Length1 == 10 && i < 6
    modifies l
    ensures RowOf(l, i) == Coefficients([d0, d1, d2, d3])
    ensures forall p :: 0 <= p < 6 && p != i ==> RowOf(l, p) == old(RowOf(l, p))
  {
    hide Dot;
    l[i, 0] := Dot(d0, d0);
    l[i, 1] := 2.0 * Dot(d0, d1);
    l[i, 2] := Dot(d1, d1);
    l[i, 3] := 2.0 * Dot(d0, d2);
    l[i, 4] := 2.0 * Dot(d1, d2);
    l[i, 5] := Dot(d2, d2);
    l[i, 6] := 2.0 * Dot(d0, d3);
    l[i, 7] := 2.0 * Dot(d1, d3);
    l[i, 8] := 2.0 * Dot(d2, d3);
    l[i, 9] := Dot(d3, d3);
  }

  function At(dv: array3<real>, i: nat, p: nat): Vec
    requires i < dv.Length0 && p < dv.Length1 && dv.Length2 == 3
    reads dv
  {
    Vec(dv[i, p, 0], dv[i, p, 1], dv[i, p, 2])
  }

  function RowOf(l: array2<real>, p: nat): (r: seq<real>)
    requires p < l.Length0 && l.Length1 == 10
    reads l
    ensures |r| == 10
  {
    [l[p, 0], l[p, 1], l[p, 2], l[p, 3], l[p, 4], l[p, 5], l[p, 6], l[p, 7], l[p, 8], l[p, 9]]
  }

  /** `compute_rho` */
  method ComputeRho(cws: Points) returns (rho: seq<real>)
    ensures |rho| == 6 && forall p :: 0 <= p < 6 ==> rho[p] == Distance2(cws[First(p)], cws[Second(p)])
  {
    rho := [Distance2(cws[0], cws[1]), Distance2(cws[0], cws[2]), Distance2(cws[0], cws[3]),
            Distance2(cws[1], cws[2]), Distance2(cws[1], cws[3]), Distance2(cws[2], cws[3])];
  }

  /** The system of a step: row p of a is the Jacobian, and b[p] is what pair p misses. */
  ghost predicate IsSystem(cws: Points, ut: Kernel, betas: Betas, a: seq<real>, b: seq<real>) {
    && |a| == 24 && |b| == 6
    && (forall p :: 0 <= p < 6 ==> b[p] == Miss(cws, ut, betas, p))
    && forall p :: 0 <= p < 6 ==> a[4 * p..4 * p + 4] == Jacobian(Coefficients(Differences(ut, p)), betas)
  }

  /** `compute_A_and_b_gauss_newton` */
  method ComputeSystem(l: array2<real>, rho: seq<real>, betas: array<real>, a: array<real>, b: array<real>,
      ghost cws: Points, ghost ut: Kernel)
    requires l.Length0 == 6 && l.Length1 == 10 && |rho| == 6 && betas.Length == 4 && a.Length == 24 && b.Length == 6
    requires a != b && a != betas && b != betas
    requires forall p :: 0 <= p < 6 ==> RowOf(l, p) == Coefficients(Differences(ut, p))
    requires forall p :: 0 <= p < 6 ==> rho[p] == Distance2(cws[First(p)], cws[Second(p)])
    modifies a, b
    ensures IsSystem(cws, ut, betas[..], a[..], b[..])
  {
    hide Miss, Distance2, Coefficients, Differences, Jacobian, Quadratic;
    for i := 0 to 6
      invariant forall p :: 0 <= p < i ==> b[p] == Miss(cws, ut, betas[..], p)
      invariant forall p :: 0 <= p < i ==> a[4 * p..4 * p + 4] == Jacobian(Coefficients(Differences(ut, p)), betas[..])
    {
      ghost var before := a[..];
      SystemRow(l, rho, betas, a, b, i);
      MissIsPolynomial(cws, ut, betas[..], i);
      forall p | 0 <= p < i ensures a[4 * p..4 * p + 4] == before[4 * p..4 * p + 4] {
      }
    }
  }

  /** One row of the system. */
  method SystemRow(l: array2<real>, rho: seq<real>, betas: array<real>, a: array<real>, b: array<real>, i: nat)
    requires l.Length0 == 6 && l.Length1 == 10 && |rho| == 6 && betas.Length == 4 && a.Length == 24 && b.Length == 6
      && i < 6
    requires a != b && a != betas && b != betas
    modifies a, b
    ensures a[4 * i..4 * i + 4] == Jacobian(RowOf(l, i), betas[..])
    ensures b[i] == rho[i] - Quadratic(RowOf(l, i), betas[..])
    ensures forall k :: 0 <= k < 24 && !(4 * i <= k < 4 * i + 4) ==> a[k] == old(a[k])
    ensures forall k :: 0 <= k < 6 && k != i ==> b[k] == old(b[k])
  {
    JacobianRow(l, betas, a, i);
    var q := QuadraticAt(l, betas, i);
    hide Jacobian, Quadratic, RowOf;
    b[i] := rho[i] - q;
  }

  method JacobianRow(l: array2<real>, betas: array<real>, a: array<real>, i: nat)
    requires l.Length0 == 6 && l.Length1 == 10 && betas.Length == 4 && a.Length == 24 && i < 6 && a != betas
    modifies a
    ensures a[4 * i..4 * i + 4] == Jacobian(RowOf(l, i), betas[..])
    ensures forall k :: 0 <= k < 24 && !(4 * i <= k < 4 * i + 4) ==> a[k] == old(a[k])
  {
    var b0, b1, b2, b3 := betas[0], betas[1], betas[2], betas[3];
    hide Linear;
    SetFour(a, 4 * i,
            Linear(2.0 * l[i, 0], l[i, 1], l[i, 3], l[i, 6], b0, b1, b2, b3),
            Linear(l[i, 1], 2.0 * l[i, 2], l[i, 4], l[i, 7], b0, b1, b2, b3),
            Linear(l[i, 3], l[i, 4], 2.0 * l[i, 5], l[i, 8], b0, b1, b2, b3),
            Linear(l[i, 6], l[i, 7], l[i, 8], 2.0 * l[i, 9], b0, b1, b2, b3));
  }

  method SetFour(a: array<real>, k: nat, a0: real, a1: real, a2: real, a3: real)
    requires k + 4 <= a.Length
    modifies a
    ensures a[k..k + 4] == [a0, a1, a2, a3]
    ensures forall m :: 0 <= m < a.Length && !(k <= m < k + 4) ==> a[m] == old(a[m])
  {
    a[k] := a0;
    a[k + 1] := a1;
    a[k + 2] := a2;
    a[k + 3] := a3;
  }

  method QuadraticAt(l: array2<real>, betas: array<real>, i: nat) returns (q: real)
    requires l.Length0 == 6 && l.Length1 == 10 && betas.Length == 4 && i < 6
    ensures q == Quadratic(RowOf(l, i), betas[..])
  {
    q := l[i, 0] * betas[0] * betas[0] + l[i, 1] * betas[0] * betas[1] + l[i, 2] * betas[1] * betas[1]
         + l[i, 3] * betas[0] * betas[2] + l[i, 4] * betas[1] * betas[2] + l[i, 5] * betas[2] * betas[2]
         + l[i, 6] * betas[0] * betas[3] + l[i, 7] * betas[1] * betas[3] + l[i, 8] * betas[2] * betas[3]
         + l[i, 9] * betas[3] * betas[3];
  }

  // ---------- A step ----------

  /** What pair p misses after the step y, with the quadratic part of y taken out: the linearised residual. */
  function Linearised(cws: Points, ut: Kernel, betas: Betas, y: Betas): (r: V.Vec)
    ensures |r| == 6
  {
    seq(6, p requires 0 <= p < 6 => Miss(cws, ut, Shift(betas, y), p) + Quadratic(Coefficients(Differences(ut, p)), y))
  }

  /** No other step leaves a shorter linearised residual. */
  ghost predicate BestStep(cws: Points, ut: Kernel, betas: Betas, x: Betas) {
    forall y: Betas :: V.Dot(Linearised(cws, ut, betas, x), Linearised(cws, ut, betas, x))
                    <= V.Dot(Linearised(cws, ut, betas, y), Linearised(cws, ut, betas, y))
  }

  function SystemMatrix(ut: Kernel, betas: Betas): (a: seq<real>)
    ensures |a| == 24
  {
    seq(24, k requires 0 <= k < 24 => Jacobian(Coefficients(Differences(ut, k / 4)), betas)[k % 4])
  }

  lemma SystemIs(cws: Points, ut: Kernel, betas: Betas, a: seq<real>, b: seq<real>)
    requires IsSystem(cws, ut, betas, a, b)
    ensures a == SystemMatrix(ut, betas)
  {
    hide Jacobian, Coefficients, Differences, Miss;
    forall k | 0 <= k < 24 ensures a[k] == SystemMatrix(ut, betas)[k] {
      var p := k / 4;
      assert a[4 * p..4 * p + 4][k % 4] == a[k];
    }
  }

  /** The residual of the linear system is the linearised distance constraint. */
  lemma ResidualIsLinearised(cws: Points, ut: Kernel, betas: Betas, a: seq<real>, b: seq<real>, y: Betas)
    requires IsSystem(cws, ut, betas, a, b)
    ensures Q.Residual(b, Q.Cols(a), y, 4) == Linearised(cws, ut, betas, y)
  {
    hide Jacobian, Coefficients, Differences, Miss, Quadratic, Sum4, Q.Residual, Shift;
    forall p | 0 <= p < 6 ensures Q.Residual(b, Q.Cols(a), y, 4)[p] == Linearised(cws, ut, betas, y)[p] {
      QrRank.ResidualAt(a, b, y, p);
      SlicedSum(a, y, p);
      MissAfterStep(cws, ut, betas, y, p);
    }
  }

  lemma SlicedSum(a: seq<real>, y: Betas, p: nat)
    requires |a| == 24 && p < 6
    ensures Sum4(a[4 * p..4 * p + 4], y)
         == a[4 * p] * y[0] + a[4 * p + 1] * y[1] + a[4 * p + 2] * y[2] + a[4 * p + 3] * y[3]
  {
  }

  lemma NormalIsBest(cws: Points, ut: Kernel, betas: Betas, a: seq<real>, b: seq<real>, x: Betas)
    requires IsSystem(cws, ut, betas, a, b) && Q.NormalEquations(a, b, x)
    ensures BestStep(cws, ut, betas, x)
  {
    hide Q.NormalEquations, Q.Residual, Linearised, V.Dot, IsSystem;
    assert |a| == 24 && |b| == 6 by { SystemSizes(cws, ut, betas, a, b); }
    ResidualIsLinearised(cws, ut, betas, a, b, x);
    forall y: Betas ensures V.Dot(Linearised(cws, ut, betas, x), Linearised(cws, ut, betas, x))
                         <= V.Dot(Linearised(cws, ut, betas, y), Linearised(cws, ut, betas, y))
    {
      ResidualIsLinearised(cws, ut, betas, a, b, y);
      Q.LeastSquares(a, b, x, y);
    }
  }

  lemma SystemSizes(cws: Points, ut: Kernel, betas: Betas, a: seq<real>, b: seq<real>)
    requires IsSystem(cws, ut, betas, a, b)
    ensures |a| == 24 && |b| == 6
  {
  }

  // ---------- Five steps ----------

  /** The betas before a step, and the vector x that the last solved step left. */
  datatype Iterate = Iterate(betas: Betas, x: Betas)

  ghost predicate Solvable(ut: Kernel, betas: Betas, sqrt: real -> real)
    requires Q.IsSqrt(sqrt)
  {
    Q.Factor(SystemMatrix(ut, betas), 4, sqrt).Some?
  }

  /**
   * One round: the best step when the system can be factorised. When it cannot, the solver leaves x alone,
   * so the step of an earlier round is taken once more.
   */
  ghost predicate Round(cws: Points, ut: Kernel, sqrt: real -> real, s: Iterate, t: Iterate)
    requires Q.IsSqrt(sqrt)
  {
    && t.betas == Shift(s.betas, t.x)
    && if Solvable(ut, s.betas, sqrt) then BestStep(cws, ut, s.betas, t.x) else t.x == s.x
  }

  /** `gauss_newton` */
  method GaussNewton(l: array2<real>, rho: seq<real>, betas: array<real>, x: array<real>, sqrt: real -> real,
      ghost cws: Points, ghost ut: Kernel)
    returns (ghost trace: seq<Iterate>)
    requires l.Length0 == 6 && l.Length1 == 10 && |rho| == 6 && betas.Length == 4 && x.Length == 4 && betas != x
        && Q.IsSqrt(sqrt)
    requires forall p :: 0 <= p < 6 ==> RowOf(l, p) == Coefficients(Differences(ut, p))
    requires forall p :: 0 <= p < 6 ==> rho[p] == Distance2(cws[First(p)], cws[Second(p)])
    modifies betas, x
    ensures |trace| == 6 && trace[0] == Iterate(old(betas[..]), old(x[..])) && trace[5] == Iterate(betas[..], x[..])
    ensures forall k :: 0 <= k < 5 ==> Round(cws, ut, sqrt, trace[k], trace[k + 1])
  {
    hide Round, Q.IsSqrt, Coefficients, Differences, Distance2;
    var a, b := new real[24], new real[6];
    trace := [Iterate(betas[..], x[..])];
    for k := 0 to 5
      invariant |trace| == k + 1 && trace[0] == Iterate(old(betas[..]), old(x[..]))
        && trace[k] == Iterate(betas[..], x[..])
      invariant forall j :: 0 <= j < k ==> Round(cws, ut, sqrt, trace[j], trace[j + 1])
      invariant forall p :: 0 <= p < 6 ==> RowOf(l, p) == Coefficients(Differences(ut, p))
    {
      NewtonRound(l, rho, betas, x, a, b, sqrt, cws, ut);
      trace := trace + [Iterate(betas[..], x[..])];
    }
  }

  method NewtonRound(l: array2<real>, rho: seq<real>, betas: array<real>, x: array<real>, a: array<real>,
      b: array<real>, sqrt: real -> real, ghost cws: Points, ghost ut: Kernel)
    requires l.Length0 == 6 && l.Length1 == 10 && |rho| == 6 && betas.Length == 4 && x.Length == 4
        && a.Length == 24 && b.Length == 6
    requires a != b && a != betas && b != betas && betas != x && x != b && x != a && Q.IsSqrt(sqrt)
    requires forall p :: 0 <= p < 6 ==> RowOf(l, p) == Coefficients(Differences(ut, p))
    requires forall p :: 0 <= p < 6 ==> rho[p] == Distance2(cws[First(p)], cws[Second(p)])
    modifies betas, x, a, b
    ensures Round(cws, ut, sqrt, Iterate(old(betas[..]), old(x[..])), Iterate(betas[..], x[..]))
  {
    hide Q.IsSqrt, Q.Factor, Q.NormalEquations, IsSystem, BestStep, SystemMatrix;
    ComputeSystem(l, rho, betas, a, b, cws, ut);
    ghost var system, rhs := a[..], b[..];
    SystemIs(cws, ut, betas[..], system, rhs);
    var ok := Qr.QrSolve(a[..], b, x, sqrt);
    if ok {
      NormalIsBest(cws, ut, betas[..], system, rhs, x[..]);
    }
    ghost var step := x[..];
    for i := 0 to 4
      invariant x[..] == step
      invariant forall j :: 0 <= j < 4 ==> betas[j] == if j < i then old(betas[j]) + x[j] else old(betas[j])
    {
      betas[i] := betas[i] + x[i];
    }
    assert betas[..] == Shift(old(betas[..]), x[..]);
  }

  // ---------- A round without a step of its own ----------

  /** The rows are orthogonal and have length one, as the singular vectors have. */
  predicate Orthonormal(ut: Kernel) {
    forall i, j :: 0 <= i < 12 && 0 <= j < 12 ==> V.Dot(ut[i], ut[j]) == if i == j then 1.0 else 0.0
  }

  /** Singular vectors of which the last two mix the coordinates of the last two control points crosswise. */
  const CROSSED: Kernel := [
    [0.0, 0.0, 1.0, 0.0, 0.0, 0.0, 0.0, 0.0, 0.0, 0.0, 0.0, 0.0],
    [0.0, 0.0, 0.0, 1.0, 0.0, 0.0, 0.0, 0.0, 0.0, 0.0, 0.0, 0.0],
    [0.0, 0.0, 0.0, 0.0, 1.0, 0.0, 0.0, 0.0, 0.0, 0.0, 0.0, 0.0],
    [0.0, 0.0, 0.0, 0.0, 0.0, 1.0, 0.0, 0.0, 0.0, 0.0, 0.0, 0.0],
    [0.0, 0.0, 0.0, 0.0, 0.0, 0.0, 0.0, 0.0, 1.0, 0.0, 0.0, 0.0],
    [0.0, 0.0, 0.0, 0.0, 0.0, 0.0, 0.0, 0.0, 0.0, 0.0, 0.0, 1.0],
    [0.0, 0.0, 0.0, 0.0, 0.0, 0.0, 0.0, 0.6, 0.0, -0.8, 0.0, 0.0],
    [0.0, 0.0, 0.0, 0.0, 0.0, 0.0, 0.8, 0.0, 0.0, 0.0, -0.6, 0.0],
    [1.0, 0.0, 0.0, 0.0, 0.0, 0.0, 0.0, 0.0, 0.0, 0.0, 0.0, 0.0],
    [0.0, 1.0, 0.0, 0.0, 0.0, 0.0, 0.0, 0.0, 0.0, 0.0, 0.0, 0.0],
    [0.0, 0.0, 0.0, 0.0, 0.0, 0.0, 0.0, 0.8, 0.0, 0.6, 0.0, 0.0],
    [0.0, 0.0, 0.0, 0.0, 0.0, 0.0, 0.6, 0.0, 0.0, 0.0, 0.8, 0.0]]

  /** Where row i can differ from zero. */
  function FirstColumn(i: nat): nat {
    if i < 4 then i + 2 else if i == 4 then 8 else if i == 5 then 9
    else if i == 6 || i == 10 then 7 else if i == 7 || i == 11 then 6 else 0
  }

  function SecondColumn(i: nat): nat {
    if i < 4 then 10 else if i == 4 then 9 else if i == 5 then 11
    else if i == 6 || i == 10 then 9 else if i == 7 || i == 11 then 10 else 1
  }

  /** The two entries there. */
  function FirstEntry(i: nat): real {
    if i == 5 || i == 9 then 0.0 else if i == 6 || i == 11 then 0.6 else if i == 7 || i == 10 then 0.8 else 1.0
  }

  function SecondEntry(i: nat): real {
    if i == 5 || i == 9 then 1.0 else if i == 6 then -0.8 else if i == 7 then -0.6
    else if i == 10 then 0.6 else if i == 11 then 0.8 else 0.0
  }

  lemma RowIs(i: nat, c: nat)
    requires i < 12 && c < 12
    ensures FirstColumn(i) < SecondColumn(i) < 12
    ensures CROSSED[i][c]
         == if c == FirstColumn(i) then FirstEntry(i) else if c == SecondColumn(i) then SecondEntry(i) else 0.0
  {
  }

  lemma CrossedOrthonormal()
    ensures Orthonormal(CROSSED)
  {
    forall i: nat, j: nat | i < 12 && j < 12 ensures V.Dot(CROSSED[i], CROSSED[j]) == if i == j then 1.0 else 0.0 {
      var u, w := CROSSED[i], CROSSED[j];
      var a, b := FirstColumn(i), SecondColumn(i);
      RowIs(i, a); RowIs(i, b); RowIs(j, a); RowIs(j, b);
      forall c: nat | c < 12 && c != a && c != b ensures u[c] == 0.0 { RowIs(i, c); }
      hide V.Dot;
      Q.DotTwo(u, w, a, b);
      EntriesTimes(i, j, u[a], u[b], w[a], w[b]);
    }
  }

  lemma EntriesTimes(i: nat, j: nat, x: real, y: real, z: real, w: real)
    requires i < 12 && j < 12 && x == FirstEntry(i) && y == SecondEntry(i)
    requires var (a, b, c, d) := (FirstColumn(i), SecondColumn(i), FirstColumn(j), SecondColumn(j));
             && z == (if a == c then FirstEntry(j) else if a == d then SecondEntry(j) else 0.0)
             && w == (if b == c then FirstEntry(j) else if b == d then SecondEntry(j) else 0.0)
    ensures x * z + y * w == if i == j then 1.0 else 0.0
  {
  }

  /** Betas as `find_betas_approx_2` gives them: the last two are zero. */
  const SECOND_ONLY: Betas := [0.0, 1.0, 0.0, 0.0]

  /** With the second beta alone, a row of the system is made of inner products with the second difference. */
  lemma SecondRow(d: Points)
    ensures Jacobian(Coefficients(d), SECOND_ONLY)
         == [2.0 * Dot(d[1], d[0]), 2.0 * Dot(d[1], d[1]), 2.0 * Dot(d[1], d[2]), 2.0 * Dot(d[1], d[3])]
  {
    DotSwaps(d[0], d[1]);
    hide Dot;
  }

  /** The difference of pair p in kernel vector i. */
  function CrossedVector(p: nat, i: nat): Vec
    requires p < 6 && i < 4
  {
    if i == 3 then if p < 3 then Vec(1.0, 0.0, 0.0) else Vec(0.0, 0.0, 0.0)
    else if i == 2 then if p < 3 then Vec(0.0, 1.0, 0.0) else Vec(0.0, 0.0, 0.0)
    else if p == 0 then Vec(0.0, 0.0, 0.0)
    else if p == 5 then if i == 0 then Vec(0.6, -0.8, 0.0) else Vec(-0.6, 0.8, 0.0)
    else if (p == 1 || p == 3) == (i == 0) then Vec(-0.6, 0.0, 0.0)
    else Vec(0.0, -0.8, 0.0)
  }

  lemma CrossedDifference(p: nat, i: nat)
    requires p < 6 && i < 4
    ensures Differences(CROSSED, p)[i] == CrossedVector(p, i)
  {
    CrossedPoint(First(p));
    CrossedPoint(Second(p));
    DifferenceIs(CROSSED, p, i, KernelPoint(CROSSED, i, First(p)), KernelPoint(CROSSED, i, Second(p)));
    hide KernelPoint, Differences;
  }

  lemma DifferenceIs(ut: Kernel, p: nat, i: nat, a: Vec, b: Vec)
    requires p < 6 && i < 4 && a == KernelPoint(ut, i, First(p)) && b == KernelPoint(ut, i, Second(p))
    ensures Differences(ut, p)[i] == Minus(a, b)
  {
  }

  lemma CrossedPoint(j: nat)
    requires j < 4
    ensures KernelPoint(CROSSED, 0, j) == Vec(if j == 2 then 0.6 else 0.0, if j == 3 then 0.8 else 0.0, 0.0)
    ensures KernelPoint(CROSSED, 1, j) == Vec(if j == 3 then 0.6 else 0.0, if j == 2 then 0.8 else 0.0, 0.0)
    ensures KernelPoint(CROSSED, 2, j) == Vec(0.0, if j == 0 then 1.0 else 0.0, 0.0)
    ensures KernelPoint(CROSSED, 3, j) == Vec(if j == 0 then 1.0 else 0.0, 0.0, 0.0)
  {
  }

  /** The inner product with the second vector. */
  function Against(p: nat, v: Vec): real {
    if p == 0 then 0.0 else if p == 5 then 0.8 * v.y - 0.6 * v.x else if p == 1 || p == 3 then -0.8 * v.y
    else -0.6 * v.x
  }

  lemma CrossedProduct(p: nat, v: Vec)
    requires p < 6
    ensures Dot(CrossedVector(p, 1), v) == Against(p, v)
  {
    if p == 0 {
      DotOf(CrossedVector(p, 1), v, 0.0, 0.0, 0.0, v.x, v.y, v.z);
    } else if p == 5 {
      DotOf(CrossedVector(p, 1), v, -0.6, 0.8, 0.0, v.x, v.y, v.z);
    } else if p == 1 || p == 3 {
      DotOf(CrossedVector(p, 1), v, 0.0, -0.8, 0.0, v.x, v.y, v.z);
    } else {
      DotOf(CrossedVector(p, 1), v, -0.6, 0.0, 0.0, v.x, v.y, v.z);
    }
    hide Dot;
  }

  /** The system of this step, pair by pair. */
  function CrossedRow(p: nat): (r: seq<real>)
    requires p < 6
    ensures |r| == 4
  {
    [2.0 * Against(p, CrossedVector(p, 0)), 2.0 * Against(p, CrossedVector(p, 1)),
     2.0 * Against(p, CrossedVector(p, 2)), 2.0 * Against(p, CrossedVector(p, 3))]
  }

  lemma CrossedPair(p: nat)
    requires p < 6
    ensures Jacobian(Coefficients(Differences(CROSSED, p)), SECOND_ONLY) == CrossedRow(p)
  {
    hide *;
    CrossedDifference(p, 0); CrossedDifference(p, 1); CrossedDifference(p, 2); CrossedDifference(p, 3);
    RowOfVectors(Differences(CROSSED, p), p);
  }

  lemma RowOfVectors(d: Points, p: nat)
    requires p < 6 && forall i :: 0 <= i < 4 ==> d[i] == CrossedVector(p, i)
    ensures Jacobian(Coefficients(d), SECOND_ONLY) == CrossedRow(p)
  {
    hide Jacobian, Coefficients, CrossedVector, Dot, Against;
    SecondRow(d);
    CrossedProduct(p, CrossedVector(p, 0)); CrossedProduct(p, CrossedVector(p, 1));
    CrossedProduct(p, CrossedVector(p, 2)); CrossedProduct(p, CrossedVector(p, 3));
  }

  lemma CrossedEntry(p: nat, j: nat)
    requires p < 6 && j < 4
    ensures SystemMatrix(CROSSED, SECOND_ONLY)[4 * p + j] == CrossedRow(p)[j]
  {
    hide *;
    CrossedPair(p);
    SystemEntry(CROSSED, SECOND_ONLY, p, j);
  }

  lemma SystemEntry(ut: Kernel, betas: Betas, p: nat, j: nat)
    requires p < 6 && j < 4
    ensures SystemMatrix(ut, betas)[4 * p + j] == Jacobian(Coefficients(Differences(ut, p)), betas)[j]
  {
    hide Jacobian, Coefficients, Differences;
    assert (4 * p + j) / 4 == p && (4 * p + j) % 4 == j;
  }

  /** A system of full rank that the solver gives up: the round takes whatever step x held before. */
  lemma FullRankUnsolved(sqrt: real -> real)
    requires Q.IsSqrt(sqrt)
    ensures Orthonormal(CROSSED)
    ensures QrRank.FullRank(SystemMatrix(CROSSED, SECOND_ONLY)) && !Solvable(CROSSED, SECOND_ONLY, sqrt)
    ensures forall cws, x, t :: Round(cws, CROSSED, sqrt, Iterate(SECOND_ONLY, x), t) ==> t.x == x
  {
    CrossedOrthonormal();
    hide Q.IsSqrt, Q.Factor, Q.Residual, SystemMatrix, Jacobian, Coefficients, Differences, Orthonormal;
    var a := SystemMatrix(CROSSED, SECOND_ONLY);
    forall p, j | 0 <= p < 6 && 0 <= j < 4 ensures a[4 * p + j] == CrossedRow(p)[j] {
      CrossedEntry(p, j);
    }
    forall i | 0 <= i < 5 ensures Q.Col(a, 0)[i] == 0.0 {
      assert a[4 * i + 0] == CrossedRow(i)[0];
    }
    Qr.LastRowOverlooked(sqrt, a);
    forall y: V.Vec | |y| == 4 && Q.Residual(QrRank.NOTHING, Q.Cols(a), y, 4) == QrRank.NOTHING
      ensures y == [0.0, 0.0, 0.0, 0.0]
    {
      CrossedIndependent(a, y);
    }
  }

  lemma CrossedIndependent(a: seq<real>, y: V.Vec)
    requires |a| == 24 && |y| == 4 && forall p, j :: 0 <= p < 6 && 0 <= j < 4 ==> a[4 * p + j] == CrossedRow(p)[j]
    requires Q.Residual(QrRank.NOTHING, Q.Cols(a), y, 4) == QrRank.NOTHING
    ensures y == [0.0, 0.0, 0.0, 0.0]
  {
    hide Q.Residual, CrossedRow;
    forall p | 0 <= p < 6 ensures Sum4(CrossedRow(p), y) == 0.0 {
      RowVanishes(a, y, p, CrossedRow(p)[0], CrossedRow(p)[1], CrossedRow(p)[2], CrossedRow(p)[3]);
    }
    CrossedSums(y);
  }

  lemma RowVanishes(a: seq<real>, y: V.Vec, p: nat, a0: real, a1: real, a2: real, a3: real)
    requires |a| == 24 && |y| == 4 && p < 6
    requires a[4 * p + 0] == a0 && a[4 * p + 1] == a1 && a[4 * p + 2] == a2 && a[4 * p + 3] == a3
    requires Q.Residual(QrRank.NOTHING, Q.Cols(a), y, 4) == QrRank.NOTHING
    ensures a0 * y[0] + a1 * y[1] + a2 * y[2] + a3 * y[3] == 0.0
  {
    hide Q.Residual;
    QrRank.ResidualAt(a, QrRank.NOTHING, y, p);
    assert QrRank.NOTHING[p] == 0.0;
    SameSum(a[4 * p], a[4 * p + 1], a[4 * p + 2], a[4 * p + 3], a0, a1, a2, a3, y[0], y[1], y[2], y[3]);
  }

  lemma SameSum(a0: real, a1: real, a2: real, a3: real, b0: real, b1: real, b2: real, b3: real,
      y0: real, y1: real, y2: real, y3: real)
    requires a0 == b0 && a1 == b1 && a2 == b2 && a3 == b3
    ensures a0 * y0 + a1 * y1 + a2 * y2 + a3 * y3 == b0 * y0 + b1 * y1 + b2 * y2 + b3 * y3
  {
  }

  lemma CrossedSums(y: V.Vec)
    requires |y| == 4 && forall p :: 0 <= p < 6 ==> Sum4(CrossedRow(p), y) == 0.0
    ensures y == [0.0, 0.0, 0.0, 0.0]
  {
    assert Sum4(CrossedRow(3), y) == 1.28 * y[1];
    assert Sum4(CrossedRow(1), y) == 1.28 * y[1] - 1.6 * y[2];
    assert Sum4(CrossedRow(2), y) == 0.72 * y[1] - 1.2 * y[3];
    assert Sum4(CrossedRow(5), y) == -2.0 * y[0] + 2.0 * y[1];
  }
}
