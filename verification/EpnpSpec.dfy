/** The geometry behind ePnP: control points, their distances and the quadratic residuals, over exact reals. */
module EpnpSpec {
  import opened Matrix3
  import opened Reals

  /** Four coefficients and four control points. */
  type Betas = b: seq<real> | |b| == 4 witness [0.0, 0.0, 0.0, 0.0]
  type Points = p: seq<Vec> | |p| == 4
    witness [Vec(0.0, 0.0, 0.0), Vec(0.0, 0.0, 0.0), Vec(0.0, 0.0, 0.0), Vec(0.0, 0.0, 0.0)]

  /** The transposed singular vectors: 12 rows of 12; the last four span the solutions. */
  type Kernel = u: seq<seq<real>> | |u| == 12 && forall i :: 0 <= i < |u| ==> |u[i]| == 12
    witness seq(12, i => seq(12, j => 0.0))

  function Weighted(w: Betas, d: Points): Vec {
    Plus(Plus(Plus(Times(w[0], d[0]), Times(w[1], d[1])), Times(w[2], d[2])), Times(w[3], d[3]))
  }

  /** Control point j in kernel vector i, counted from the last row of ut. */
  function KernelPoint(ut: Kernel, i: nat, j: nat): Vec
    requires i < 4 && j < 4
  {
    Vec(ut[11 - i][3 * j], ut[11 - i][3 * j + 1], ut[11 - i][3 * j + 2])
  }

  /** Control point j in the camera frame. */
  function CameraPoint(betas: Betas, ut: Kernel, j: nat): Vec
    requires j < 4
  {
    Weighted(betas, seq(4, i requires 0 <= i < 4 => KernelPoint(ut, i, j)))
  }

  /** The six pairs of control points, in the order of the code. */
  function First(p: nat): nat {
    if p < 3 then 0 else if p < 5 then 1 else 2
  }

  function Second(p: nat): nat {
    if p < 3 then p + 1 else if p < 5 then p - 1 else 3
  }

  /** The difference of pair p in each kernel vector. */
  function Differences(ut: Kernel, p: nat): Points
    requires p < 6
  {
    seq(4, i requires 0 <= i < 4 => Minus(KernelPoint(ut, i, First(p)), KernelPoint(ut, i, Second(p))))
  }

  /** The ten coefficients of |sum of w[i] d[i]|^2 as a polynomial in w. */
  function Coefficients(d: Points): (l: seq<real>)
    ensures |l| == 10
  {
    [Dot(d[0], d[0]), 2.0 * Dot(d[0], d[1]), Dot(d[1], d[1]), 2.0 * Dot(d[0], d[2]), 2.0 * Dot(d[1], d[2]),
     Dot(d[2], d[2]), 2.0 * Dot(d[0], d[3]), 2.0 * Dot(d[1], d[3]), 2.0 * Dot(d[2], d[3]), Dot(d[3], d[3])]
  }

  function Linear(p: real, q: real, r: real, s: real, b0: real, b1: real, b2: real, b3: real): real {
    p * b0 + q * b1 + r * b2 + s * b3
  }

  function Polynomial(l0: real, l1: real, l2: real, l3: real, l4: real, l5: real, l6: real, l7: real, l8: real,
                      l9: real, b0: real, b1: real, b2: real, b3: real): real
  {
    l0 * b0 * b0 + l1 * b0 * b1 + l2 * b1 * b1 + l3 * b0 * b2 + l4 * b1 * b2
    + l5 * b2 * b2 + l6 * b0 * b3 + l7 * b1 * b3 + l8 * b2 * b3 + l9 * b3 * b3
  }

  function Quadratic(l: seq<real>, b: Betas): real
    requires |l| == 10
  {
    Polynomial(l[0], l[1], l[2], l[3], l[4], l[5], l[6], l[7], l[8], l[9], b[0], b[1], b[2], b[3])
  }

  function Distance2(u: Vec, v: Vec): real {
    Dot(Minus(u, v), Minus(u, v))
  }

  /** What the distance constraint of pair p still misses: world squared distance minus camera squared distance. */
  function Miss(cws: Points, ut: Kernel, betas: Betas, p: nat): real
    requires p < 6
  {
    Distance2(cws[First(p)], cws[Second(p)])
    - Distance2(CameraPoint(betas, ut, First(p)), CameraPoint(betas, ut, Second(p)))
  }

  // ---------- The quadratic form ----------

  lemma DotWeighted(u: Vec, w: Betas, d: Points)
    ensures Dot(u, Weighted(w, d))
         == Linear(Dot(u, d[0]), Dot(u, d[1]), Dot(u, d[2]), Dot(u, d[3]), w[0], w[1], w[2], w[3])
  {
    hide Dot, Plus, Times;
    var a, b, c, e := Times(w[0], d[0]), Times(w[1], d[1]), Times(w[2], d[2]), Times(w[3], d[3]);
    DotAdd(Plus(Plus(a, b), c), e, u);
    DotAdd(Plus(a, b), c, u);
    DotAdd(a, b, u);
    DotTimes(w[0], u, d[0]); DotTimes(w[1], u, d[1]); DotTimes(w[2], u, d[2]); DotTimes(w[3], u, d[3]);
  }

  lemma SumOfSquares(a: real, b: real, c: real, d: real, p0: real, p1: real, p2: real, p3: real,
                     g00: real, g01: real, g02: real, g03: real, g11: real, g12: real, g13: real,
                     g22: real, g23: real, g33: real)
    requires p0 == Linear(g00, g01, g02, g03, a, b, c, d)
    requires p1 == Linear(g01, g11, g12, g13, a, b, c, d)
    requires p2 == Linear(g02, g12, g22, g23, a, b, c, d)
    requires p3 == Linear(g03, g13, g23, g33, a, b, c, d)
    ensures Linear(p0, p1, p2, p3, a, b, c, d)
         == Polynomial(g00, 2.0 * g01, g11, 2.0 * g02, 2.0 * g12, g22, 2.0 * g03, 2.0 * g13, 2.0 * g23, g33, a, b, c, d)
  {
    SameProduct(a, p0, g00 * a + g01 * b + g02 * c + g03 * d);
    SameProduct(b, p1, g01 * a + g11 * b + g12 * c + g13 * d);
    SameProduct(c, p2, g02 * a + g12 * b + g22 * c + g23 * d);
    SameProduct(d, p3, g03 * a + g13 * b + g23 * c + g33 * d);
  }

  lemma QuadraticIs(d: Points, w: Betas)
    ensures Quadratic(Coefficients(d), w)
         == Polynomial(Dot(d[0], d[0]), 2.0 * Dot(d[0], d[1]), Dot(d[1], d[1]), 2.0 * Dot(d[0], d[2]),
                       2.0 * Dot(d[1], d[2]), Dot(d[2], d[2]), 2.0 * Dot(d[0], d[3]), 2.0 * Dot(d[1], d[3]),
                       2.0 * Dot(d[2], d[3]), Dot(d[3], d[3]),
                       w[0], w[1], w[2], w[3])
  {
    hide Dot, Polynomial;
  }

  /** A combination against one of its points, from the inner products of the points. */
  lemma GramRow(w: Betas, d: Points, u: Vec)
    ensures Dot(Weighted(w, d), u)
         == Linear(Dot(d[0], u), Dot(d[1], u), Dot(d[2], u), Dot(d[3], u), w[0], w[1], w[2], w[3])
  {
    hide Dot, Weighted, Linear;
    DotWeighted(u, w, d);
    DotSwaps(u, Weighted(w, d));
    DotSwaps(u, d[0]); DotSwaps(u, d[1]); DotSwaps(u, d[2]); DotSwaps(u, d[3]);
  }

  /** The coefficients give the squared length of every combination. */
  lemma LengthOfWeighted(w: Betas, d: Points)
    ensures Dot(Weighted(w, d), Weighted(w, d)) == Quadratic(Coefficients(d), w)
  {
    hide Dot, Weighted, Polynomial, Quadratic, Coefficients, Linear;
    QuadraticIs(d, w);
    var s := Weighted(w, d);
    DotWeighted(s, w, d);
    GramRow(w, d, d[0]); GramRow(w, d, d[1]); GramRow(w, d, d[2]); GramRow(w, d, d[3]);
    DotSwaps(d[0], d[1]); DotSwaps(d[0], d[2]); DotSwaps(d[0], d[3]);
    DotSwaps(d[1], d[2]); DotSwaps(d[1], d[3]); DotSwaps(d[2], d[3]);
    SumOfSquares(w[0], w[1], w[2], w[3], Dot(s, d[0]), Dot(s, d[1]), Dot(s, d[2]), Dot(s, d[3]),
                 Dot(d[0], d[0]), Dot(d[0], d[1]), Dot(d[0], d[2]), Dot(d[0], d[3]), Dot(d[1], d[1]),
                 Dot(d[1], d[2]), Dot(d[1], d[3]), Dot(d[2], d[2]), Dot(d[2], d[3]), Dot(d[3], d[3]));
  }

  lemma WeightedMinus(w: Betas, u: Points, v: Points, d: Points)
    requires forall i :: 0 <= i < 4 ==> d[i] == Minus(u[i], v[i])
    ensures Minus(Weighted(w, u), Weighted(w, v)) == Weighted(w, d)
  {
    TimesMinus(w[0], u[0], v[0]); TimesMinus(w[1], u[1], v[1]);
    TimesMinus(w[2], u[2], v[2]); TimesMinus(w[3], u[3], v[3]);
    hide Times;
  }

  /** The residual the code computes is the distance constraint itself. */
  lemma MissIsPolynomial(cws: Points, ut: Kernel, betas: Betas, p: nat)
    requires p < 6
    ensures Miss(cws, ut, betas, p)
         == Distance2(cws[First(p)], cws[Second(p)]) - Quadratic(Coefficients(Differences(ut, p)), betas)
  {
    hide Dot, Weighted, Polynomial, Minus, Coefficients, KernelPoint;
    var a, b := First(p), Second(p);
    var u := seq(4, i requires 0 <= i < 4 => KernelPoint(ut, i, a));
    var v := seq(4, i requires 0 <= i < 4 => KernelPoint(ut, i, b));
    WeightedMinus(betas, u, v, Differences(ut, p));
    LengthOfWeighted(betas, Differences(ut, p));
  }

  // ---------- The Jacobian ----------

  /** A row of the matrix the Gauss-Newton step uses. */
  function Jacobian(l: seq<real>, b: Betas): (a: seq<real>)
    requires |l| == 10
    ensures |a| == 4
  {
    [Linear(2.0 * l[0], l[1], l[3], l[6], b[0], b[1], b[2], b[3]),
     Linear(l[1], 2.0 * l[2], l[4], l[7], b[0], b[1], b[2], b[3]),
     Linear(l[3], l[4], 2.0 * l[5], l[8], b[0], b[1], b[2], b[3]),
     Linear(l[6], l[7], l[8], 2.0 * l[9], b[0], b[1], b[2], b[3])]
  }

  function Sum4(a: seq<real>, d: Betas): real
    requires |a| == 4
  {
    a[0] * d[0] + a[1] * d[1] + a[2] * d[2] + a[3] * d[3]
  }

  function Shift(b: Betas, d: Betas): Betas {
    [b[0] + d[0], b[1] + d[1], b[2] + d[2], b[3] + d[3]]
  }

  lemma Expand(l: seq<real>, b: Betas, d: Betas)
    requires |l| == 10
    ensures Quadratic(l, Shift(b, d)) == Quadratic(l, b) + Sum4(Jacobian(l, b), d) + Quadratic(l, d)
  {
  }

  /** Moving by d changes the residual by -A d, up to exactly the quadratic form of d. */
  lemma MissAfterStep(cws: Points, ut: Kernel, betas: Betas, d: Betas, p: nat)
    requires p < 6
    ensures var l := Coefficients(Differences(ut, p));
            Miss(cws, ut, Shift(betas, d), p) == Miss(cws, ut, betas, p) - Sum4(Jacobian(l, betas), d) - Quadratic(l, d)
  {
    hide Miss, Distance2, Coefficients, Differences, Quadratic, Jacobian, Sum4, Shift;
    MissIsPolynomial(cws, ut, betas, p);
    MissIsPolynomial(cws, ut, Shift(betas, d), p);
    Expand(Coefficients(Differences(ut, p)), betas, d);
  }

  // ---------- Barycentric coordinates ----------

  function MatVec(m: Mat, v: Vec): Vec {
    Vec(Dot(m.r0, v), Dot(m.r1, v), Dot(m.r2, v))
  }

  /** The matrix whose columns are the control points seen from the first one. */
  function Spread(c: Points): Mat {
    Transpose(Mat(Minus(c[1], c[0]), Minus(c[2], c[0]), Minus(c[3], c[0])))
  }

  function Barycentric(inverse: Mat, c: Points, p: Vec): Betas {
    var a := MatVec(inverse, Minus(p, c[0]));
    [1.0 - a.x - a.y - a.z, a.x, a.y, a.z]
  }

  lemma MatVecTwice(a: Mat, b: Mat, v: Vec)
    ensures MatVec(Mul(a, b), v) == MatVec(a, MatVec(b, v)) && MatVec(ID, v) == v
  {
    DotOfRow(a.r0, b, v); DotOfRow(a.r1, b, v); DotOfRow(a.r2, b, v);
    assert MatVec(ID, v) == v;
    hide Dot, RowMul;
  }

  /** Coefficients of sum one, as a combination of the differences. */
  lemma AffineForm(c: Points, w: Betas)
    requires w[0] + w[1] + w[2] + w[3] == 1.0
    ensures Minus(Weighted(w, c), c[0]) == MatVec(Spread(c), Vec(w[1], w[2], w[3]))
  {
    OneAffine(c[0].x, c[1].x, c[2].x, c[3].x, w[0], w[1], w[2], w[3]);
    OneAffine(c[0].y, c[1].y, c[2].y, c[3].y, w[0], w[1], w[2], w[3]);
    OneAffine(c[0].z, c[1].z, c[2].z, c[3].z, w[0], w[1], w[2], w[3]);
    var m, v := Spread(c), Vec(w[1], w[2], w[3]);
    DotOf(m.r0, v, c[1].x - c[0].x, c[2].x - c[0].x, c[3].x - c[0].x, w[1], w[2], w[3]);
    DotOf(m.r1, v, c[1].y - c[0].y, c[2].y - c[0].y, c[3].y - c[0].y, w[1], w[2], w[3]);
    DotOf(m.r2, v, c[1].z - c[0].z, c[2].z - c[0].z, c[3].z - c[0].z, w[1], w[2], w[3]);
    hide Dot;
  }

  lemma OneAffine(c0: real, c1: real, c2: real, c3: real, w0: real, w1: real, w2: real, w3: real)
    requires w0 + w1 + w2 + w3 == 1.0
    ensures w0 * c0 + w1 * c1 + w2 * c2 + w3 * c3 - c0 == (c1 - c0) * w1 + (c2 - c0) * w2 + (c3 - c0) * w3
  {
    SameProduct(c0, w0, 1.0 - w1 - w2 - w3);
  }

  /** The coordinates are exactly the coefficients of sum one that give the point back. */
  lemma BarycentricIs(inverse: Mat, c: Points, p: Vec, w: Betas)
    requires Mul(Spread(c), inverse) == ID && Mul(inverse, Spread(c)) == ID
    ensures w == Barycentric(inverse, c, p) <==> w[0] + w[1] + w[2] + w[3] == 1.0 && Weighted(w, c) == p
  {
    hide Dot, Mul, Spread, MatVec, Weighted;
    var d, v := Minus(p, c[0]), Vec(w[1], w[2], w[3]);
    if w[0] + w[1] + w[2] + w[3] == 1.0 {
      AffineForm(c, w);
      MatVecTwice(inverse, Spread(c), v);
      MatVecTwice(Spread(c), inverse, d);
    }
  }

  lemma WeightedIs(w: Betas, c: Points)
    ensures Weighted(w, c) == Vec(w[0] * c[0].x + w[1] * c[1].x + w[2] * c[2].x + w[3] * c[3].x,
                                  w[0] * c[0].y + w[1] * c[1].y + w[2] * c[2].y + w[3] * c[3].y,
                                  w[0] * c[0].z + w[1] * c[1].z + w[2] * c[2].z + w[3] * c[3].z)
  {
  }

  /** Moving the control points by a rigid or any affine map moves every point with them. */
  lemma AffineMapCarries(w: Betas, c: Points, m: Mat, t: Vec, moved: Points)
    requires w[0] + w[1] + w[2] + w[3] == 1.0 && forall j :: 0 <= j < 4 ==> moved[j] == Plus(MatVec(m, c[j]), t)
    ensures Weighted(w, moved) == Plus(MatVec(m, Weighted(w, c)), t)
  {
    hide Dot, Weighted;
    WeightedIs(w, moved);
    OneRow(m.r0, w, c, t.x, moved[0].x, moved[1].x, moved[2].x, moved[3].x);
    OneRow(m.r1, w, c, t.y, moved[0].y, moved[1].y, moved[2].y, moved[3].y);
    OneRow(m.r2, w, c, t.z, moved[0].z, moved[1].z, moved[2].z, moved[3].z);
  }

  lemma OneRow(u: Vec, w: Betas, c: Points, t: real, m0: real, m1: real, m2: real, m3: real)
    requires w[0] + w[1] + w[2] + w[3] == 1.0
    requires m0 == Dot(u, c[0]) + t && m1 == Dot(u, c[1]) + t && m2 == Dot(u, c[2]) + t && m3 == Dot(u, c[3]) + t
    ensures w[0] * m0 + w[1] * m1 + w[2] * m2 + w[3] * m3 == Dot(u, Weighted(w, c)) + t
  {
    DotWeighted(u, w, c);
    hide Dot, Weighted;
    OneAffine(t, m0, m1, m2, w[0] + w[3], w[1], w[2], 0.0);
    SameProduct(w[0], m0, Dot(u, c[0]) + t); SameProduct(w[1], m1, Dot(u, c[1]) + t);
    SameProduct(w[2], m2, Dot(u, c[2]) + t); SameProduct(w[3], m3, Dot(u, c[3]) + t);
    SameProduct(t, w[0] + w[1] + w[2] + w[3], 1.0);
  }

  // ---------- The projection equations ----------

  datatype Camera = Camera(fu: real, fv: real, uc: real, vc: real)

  /** The two rows of M for a point with these coordinates, seen at (u, v). */
  function RowU(cam: Camera, w: Betas, u: real): (r: seq<Vec>)
    ensures |r| == 4
  {
    seq(4, i requires 0 <= i < 4 => Vec(w[i] * cam.fu, 0.0, w[i] * (cam.uc - u)))
  }

  function RowV(cam: Camera, w: Betas, v: real): (r: seq<Vec>)
    ensures |r| == 4
  {
    seq(4, i requires 0 <= i < 4 => Vec(0.0, w[i] * cam.fv, w[i] * (cam.vc - v)))
  }

  /** A row of M times the twelve coordinates of the control points. */
  function Apply(row: seq<Vec>, c: Points): real
    requires |row| == 4
  {
    Dot(row[0], c[0]) + Dot(row[1], c[1]) + Dot(row[2], c[2]) + Dot(row[3], c[3])
  }

  lemma ScaledRow(r: Vec, w: real, x: real, y: real, z: real, c: Vec)
    requires r == Vec(w * x, w * y, w * z)
    ensures Dot(r, c) == w * Dot(Vec(x, y, z), c)
  {
    assert r == Times(w, Vec(x, y, z));
    DotTimes(w, Vec(x, y, z), c);
  }

  /** The weights of a point on one vector. */
  predicate Spans(row: seq<Vec>, w: Betas, x: real, y: real, z: real) {
    |row| == 4 && forall i :: 0 <= i < 4 ==> row[i] == Vec(w[i] * x, w[i] * y, w[i] * z)
  }

  lemma RowDot(row: seq<Vec>, w: Betas, x: real, y: real, z: real, c: Points, i: nat)
    requires Spans(row, w, x, y, z) && i < 4
    ensures Dot(row[i], c[i]) == w[i] * Dot(Vec(x, y, z), c[i])
  {
    ScaledRow(row[i], w[i], x, y, z, c[i]);
  }

  lemma ApplyIs(row: seq<Vec>, w: Betas, x: real, y: real, z: real, c: Points)
    requires |row| == 4 && Spans(row, w, x, y, z)
    ensures Apply(row, c) == Dot(Vec(x, y, z), Weighted(w, c))
  {
    hide Dot, Weighted, Spans;
    RowDot(row, w, x, y, z, c, 0); RowDot(row, w, x, y, z, c, 1);
    RowDot(row, w, x, y, z, c, 2); RowDot(row, w, x, y, z, c, 3);
    DotWeighted(Vec(x, y, z), w, c);
  }

  /** Where a camera coordinate is seen, and how far an equation with measurement u is from that. */
  function Seen(f: real, x: real, z: real, c: real): real
    requires z != 0.0
  {
    c + f * x / z
  }

  function Offset(f: real, x: real, z: real, c: real, u: real): real {
    f * x + (c - u) * z
  }

  lemma RowUIs(cam: Camera, w: Betas, u: real, c: Points)
    ensures Apply(RowU(cam, w, u), c) == Offset(cam.fu, Weighted(w, c).x, Weighted(w, c).z, cam.uc, u)
  {
    hide Weighted, Apply;
    assert Spans(RowU(cam, w, u), w, cam.fu, 0.0, cam.uc - u);
    ApplyIs(RowU(cam, w, u), w, cam.fu, 0.0, cam.uc - u, c);
  }

  lemma RowVIs(cam: Camera, w: Betas, v: real, c: Points)
    ensures Apply(RowV(cam, w, v), c) == Offset(cam.fv, Weighted(w, c).y, Weighted(w, c).z, cam.vc, v)
  {
    hide Weighted, Apply;
    assert Spans(RowV(cam, w, v), w, 0.0, cam.fv, cam.vc - v);
    ApplyIs(RowV(cam, w, v), w, 0.0, cam.fv, cam.vc - v, c);
  }

  /** Both rows vanish on camera control points exactly when the point they give projects to (u, v). */
  lemma RowsAreProjection(cam: Camera, w: Betas, u: real, v: real, c: Points)
    requires Weighted(w, c).z != 0.0
    ensures var pc := Weighted(w, c);
            Apply(RowU(cam, w, u), c) == 0.0 && Apply(RowV(cam, w, v), c) == 0.0
            <==> u == Seen(cam.fu, pc.x, pc.z, cam.uc) && v == Seen(cam.fv, pc.y, pc.z, cam.vc)
  {
    hide Weighted, Apply, RowU, RowV, Seen, Offset;
    var pc := Weighted(w, c);
    RowUIs(cam, w, u, c);
    RowVIs(cam, w, v, c);
    ProjectsTo(cam.fu, pc.x, pc.z, cam.uc, u);
    ProjectsTo(cam.fv, pc.y, pc.z, cam.vc, v);
  }

  lemma ProjectsTo(f: real, x: real, z: real, c: real, u: real)
    requires z != 0.0
    ensures Offset(f, x, z, c, u) == 0.0 <==> u == Seen(f, x, z, c)
  {
    var q := f * x / z;
    assert q * z == f * x;
    assert (c - u) * z + q * z == (c - u + q) * z;
  }
}
