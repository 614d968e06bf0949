/** The Cayley map between 3-vectors and rotation matrices, over exact reals. */
module Cayley {
  import opened Matrix3
  import opened Reals

  // ---------- The Cayley map ----------

  /** `cayley2rot_reduced`: the rotation matrix without its scale. */
  function Reduced(x: real, y: real, z: real): Mat {
    Mat(Vec(1.0 + x * x - y * y - z * z, 2.0 * (x * y - z), 2.0 * (x * z + y)),
        Vec(2.0 * (x * y + z), 1.0 - x * x + y * y - z * z, 2.0 * (y * z - x)),
        Vec(2.0 * (x * z - y), 2.0 * (y * z + x), 1.0 - x * x - y * y + z * z))
  }

  function ScaleOf(x: real, y: real, z: real): (s: real)
    ensures s >= 1.0
  {
    1.0 + x * x + y * y + z * z
  }

  /** `cayley2rot` */
  function Cayley2Rot(c: Vec): Mat {
    Scale(Inverse(ScaleOf(c.x, c.y, c.z)), Reduced(c.x, c.y, c.z))
  }

  /** The matrix of the cross product with (x, y, z). */
  function Skew(x: real, y: real, z: real): Mat {
    Mat(Vec(0.0, -z, y), Vec(z, 0.0, -x), Vec(-y, x, 0.0))
  }

  /** `rot2cayley`; the inverse of R + I is an input. */
  function Rot2Cayley(r: Mat, inverse: Mat): Vec {
    var c := Mul(Sub(r, ID), inverse);
    Vec(-c.r1.z, c.r0.z, -c.r0.y)
  }

  ghost predicate IsInverse(a: Mat, b: Mat) {
    Mul(a, b) == ID && Mul(b, a) == ID
  }

  ghost predicate IsRotation(r: Mat) {
    Mul(Transpose(r), r) == ID && Mul(r, Transpose(r)) == ID && Det(r) == 1.0
  }

  function ScaleSquared(x: real, y: real, z: real): real {
    (1.0 + x * x + y * y + z * z) * (1.0 + x * x + y * y + z * z)
  }

  lemma LengthIs(x: real, y: real, z: real)
    ensures Product(1.0 + x * x - y * y - z * z, 1.0 + x * x - y * y - z * z)
            + Product(2.0 * (x * y - z), 2.0 * (x * y - z))
            + Product(2.0 * (x * z + y), 2.0 * (x * z + y)) == ScaleSquared(x, y, z)
  {
  }

  lemma ProductVanishes(x: real, y: real, z: real)
    ensures Product(1.0 + x * x - y * y - z * z, 2.0 * (x * y + z))
            + Product(2.0 * (x * y - z), 1.0 - x * x + y * y - z * z)
            + Product(2.0 * (x * z + y), 2.0 * (y * z - x)) == 0.0
  {
  }

  lemma FirstRow(x: real, y: real, z: real)
    ensures Dot(Reduced(x, y, z).r0, Reduced(x, y, z).r0) == ScaleSquared(x, y, z)
    ensures Dot(Reduced(x, y, z).r0, Reduced(x, y, z).r1) == 0.0
  {
    hide Dot, ScaleSquared, Product;
    DotIs(Reduced(x, y, z).r0, Reduced(x, y, z).r0);
    DotIs(Reduced(x, y, z).r0, Reduced(x, y, z).r1);
    LengthIs(x, y, z);
    ProductVanishes(x, y, z);
  }

  /** The vector with its coordinates taken in cyclic order. */
  function Spin(u: Vec): Vec {
    Vec(u.y, u.z, u.x)
  }

  lemma DotSpins(u: Vec, v: Vec)
    ensures Dot(Spin(u), Spin(v)) == Dot(u, v)
  {
  }

  /** Every row is the first row for the coordinates taken in another order. */
  lemma ReducedSpins(x: real, y: real, z: real)
    ensures var m, n := Reduced(x, y, z), Reduced(y, z, x);
            Spin(m.r1) == n.r0 && Spin(m.r2) == n.r1 && Spin(m.r0) == n.r2
    ensures ScaleSquared(y, z, x) == ScaleSquared(x, y, z)
  {
  }

  /** The rows of the reduced matrix are orthogonal and of length 1 + |c|^2. */
  lemma ReducedRows(x: real, y: real, z: real)
    ensures var q, m := ScaleSquared(x, y, z), Reduced(x, y, z);
            && Dot(m.r0, m.r0) == q && Dot(m.r1, m.r1) == q && Dot(m.r2, m.r2) == q
            && Dot(m.r0, m.r1) == 0.0 && Dot(m.r1, m.r2) == 0.0 && Dot(m.r2, m.r0) == 0.0
  {
    hide Reduced, ScaleSquared, Dot, Spin, ScaleOf;
    var m, n := Reduced(x, y, z), Reduced(y, z, x);
    ReducedSpins(x, y, z); ReducedSpins(y, z, x);
    FirstRow(x, y, z); FirstRow(y, z, x); FirstRow(z, x, y);
    DotSpins(m.r1, m.r1); DotSpins(m.r1, m.r2); DotSpins(m.r2, m.r2); DotSpins(m.r2, m.r0);
    DotSpins(n.r1, n.r1); DotSpins(n.r1, n.r2);
  }

  lemma ReducedOrthogonal(x: real, y: real, z: real)
    ensures Mul(Reduced(x, y, z), Transpose(Reduced(x, y, z))) == Scale(ScaleSquared(x, y, z), ID)
  {
    var m := Reduced(x, y, z);
    ReducedRows(x, y, z);
    DotSwaps(m.r0, m.r1); DotSwaps(m.r2, m.r0); DotSwaps(m.r1, m.r2);
    hide Dot, Reduced, ScaleSquared;
  }

  lemma FirstCofactor(x: real, y: real, z: real)
    ensures Product(1.0 - x * x + y * y - z * z, 1.0 - x * x - y * y + z * z)
            - Product(2.0 * (y * z - x), 2.0 * (y * z + x))
         == Product(1.0 + x * x + y * y + z * z, 1.0 + x * x - y * y - z * z)
  {
  }

  lemma SecondCofactor(x: real, y: real, z: real)
    ensures Product(2.0 * (y * z - x), 2.0 * (x * z - y)) - Product(2.0 * (x * y + z), 1.0 - x * x - y * y + z * z)
         == Product(1.0 + x * x + y * y + z * z, 2.0 * (x * y - z))
  {
  }

  lemma ThirdCofactor(x: real, y: real, z: real)
    ensures Product(2.0 * (x * y + z), 2.0 * (y * z + x)) - Product(1.0 - x * x + y * y - z * z, 2.0 * (x * z - y))
         == Product(1.0 + x * x + y * y + z * z, 2.0 * (x * z + y))
  {
  }

  /** The cofactors of the first row are s times the row itself. */
  predicate CofactorsAre(m: Mat, s: real) {
    && Product(m.r1.y, m.r2.z) - Product(m.r1.z, m.r2.y) == Product(s, m.r0.x)
    && Product(m.r1.z, m.r2.x) - Product(m.r1.x, m.r2.z) == Product(s, m.r0.y)
    && Product(m.r1.x, m.r2.y) - Product(m.r1.y, m.r2.x) == Product(s, m.r0.z)
  }

  lemma DetFromCofactors(m: Mat, s: real, q: real)
    requires CofactorsAre(m, s) && Dot(m.r0, m.r0) == q
    ensures Det(m) == s * q
  {
    var Vec(a, b, c) := m.r0;
    SameProduct(a, m.r1.y * m.r2.z - m.r1.z * m.r2.y, s * a);
    SameProduct(b, m.r1.z * m.r2.x - m.r1.x * m.r2.z, s * b);
    SameProduct(c, m.r1.x * m.r2.y - m.r1.y * m.r2.x, s * c);
    SameProduct(s, q, a * a + b * b + c * c);
  }

  lemma ReducedCofactors(x: real, y: real, z: real)
    ensures CofactorsAre(Reduced(x, y, z), ScaleOf(x, y, z))
  {
    hide Product;
    FirstCofactor(x, y, z);
    SecondCofactor(x, y, z);
    ThirdCofactor(x, y, z);
  }

  lemma ReducedDet(x: real, y: real, z: real)
    ensures Det(Reduced(x, y, z)) == ScaleOf(x, y, z) * ScaleSquared(x, y, z)
  {
    hide Det, Dot, ScaleSquared, Reduced, ScaleOf, CofactorsAre;
    FirstRow(x, y, z);
    ReducedCofactors(x, y, z);
    DetFromCofactors(Reduced(x, y, z), ScaleOf(x, y, z), ScaleSquared(x, y, z));
  }

  /** Half the sum of the reduced matrix and its scale. */
  function Half(x: real, y: real, z: real): Mat {
    Mat(Vec(1.0 + x * x, x * y - z, x * z + y), Vec(x * y + z, 1.0 + y * y, y * z - x),
        Vec(x * z - y, y * z + x, 1.0 + z * z))
  }

  lemma HalfSum(x: real, y: real, z: real)
    ensures Scale(2.0, Half(x, y, z)) == Add(Reduced(x, y, z), Scale(ScaleOf(x, y, z), ID))
  {
  }

  lemma HalfDifference(x: real, y: real, z: real)
    ensures Scale(2.0, Mul(Skew(x, y, z), Half(x, y, z))) == Sub(Reduced(x, y, z), Scale(ScaleOf(x, y, z), ID))
  {
    var h, k, s := Half(x, y, z), Skew(x, y, z), ScaleOf(x, y, z);
    LeftInverse(x, y, z);
    HalfSum(x, y, z);
    hide Mul, Half, Skew, Reduced, ScaleOf;
    MulSub(ID, k, h);
    MulId(h);
  }

  lemma LeftInverse(x: real, y: real, z: real)
    ensures Mul(Sub(ID, Skew(x, y, z)), Half(x, y, z)) == Scale(ScaleOf(x, y, z), ID)
  {
  }

  lemma Transposed(x: real, y: real, z: real)
    ensures Transpose(Half(x, y, z)) == Half(-x, -y, -z) && Transpose(Reduced(x, y, z)) == Reduced(-x, -y, -z)
    ensures Transpose(Sub(ID, Skew(x, y, z))) == Sub(ID, Skew(-x, -y, -z))
    ensures ScaleOf(-x, -y, -z) == ScaleOf(x, y, z) && ScaleSquared(-x, -y, -z) == ScaleSquared(x, y, z)
  {
  }

  lemma RightInverse(x: real, y: real, z: real)
    ensures Mul(Half(x, y, z), Sub(ID, Skew(x, y, z))) == Scale(ScaleOf(x, y, z), ID)
  {
    hide Half, Skew, Mul, Sub, Scale, ScaleOf, Transpose;
    var h, d, s := Half(x, y, z), Sub(ID, Skew(x, y, z)), ScaleOf(x, y, z);
    LeftInverse(-x, -y, -z);
    Transposed(x, y, z);
    TransposeMul(h, d);
    TransposeTwice(Mul(h, d));
    TransposeScale(s, ID);
    TransposeTwice(Scale(s, ID));
  }

  // ---------- A rotation, and back ----------

  /** R + I and R - I, by the half matrix. */
  lemma SumIs(c: Vec)
    ensures Add(Cayley2Rot(c), ID) == Scale(2.0 * Inverse(ScaleOf(c.x, c.y, c.z)), Half(c.x, c.y, c.z))
  {
    var s := ScaleOf(c.x, c.y, c.z);
    HalfSum(c.x, c.y, c.z);
    hide Half, Reduced, Add, Scale, ScaleOf, Inverse;
    ScaledSum(Inverse(s), s, Reduced(c.x, c.y, c.z), Half(c.x, c.y, c.z));
  }

  lemma ScaledSum(k: real, s: real, n: Mat, h: Mat)
    requires k * s == 1.0 && Scale(2.0, h) == Add(n, Scale(s, ID))
    ensures Add(Scale(k, n), ID) == Scale(2.0 * k, h)
  {
    hide Add, Scale;
    ScaleTwice(k, s, ID, 1.0); ScaleOne(ID);
    ScaleAdd(k, n, Scale(s, ID));
    ScaleTwice(k, 2.0, h, 2.0 * k);
  }

  lemma DifferenceIs(c: Vec)
    ensures Sub(Cayley2Rot(c), ID)
         == Scale(2.0 * Inverse(ScaleOf(c.x, c.y, c.z)), Mul(Skew(c.x, c.y, c.z), Half(c.x, c.y, c.z)))
  {
    var s := ScaleOf(c.x, c.y, c.z);
    HalfDifference(c.x, c.y, c.z);
    hide Half, Reduced, Mul, Sub, Scale, ScaleOf, Skew, Inverse;
    ScaledDifference(Inverse(s), s, Reduced(c.x, c.y, c.z), Mul(Skew(c.x, c.y, c.z), Half(c.x, c.y, c.z)));
  }

  lemma ScaledDifference(k: real, s: real, n: Mat, h: Mat)
    requires k * s == 1.0 && Scale(2.0, h) == Sub(n, Scale(s, ID))
    ensures Sub(Scale(k, n), ID) == Scale(2.0 * k, h)
  {
    hide Sub, Scale;
    ScaleTwice(k, s, ID, 1.0); ScaleOne(ID);
    ScaleSub(k, n, Scale(s, ID));
    ScaleTwice(k, 2.0, h, 2.0 * k);
  }

  /** The Cayley form of a rotation: R - I = [c] (R + I). */
  lemma CayleyForm(c: Vec)
    ensures Sub(Cayley2Rot(c), ID) == Mul(Skew(c.x, c.y, c.z), Add(Cayley2Rot(c), ID))
  {
    SumIs(c);
    DifferenceIs(c);
    hide Half, Cayley2Rot, Mul, Add, Sub, Scale, Skew, ScaleOf, Inverse;
    MulScale(2.0 * Inverse(ScaleOf(c.x, c.y, c.z)), Skew(c.x, c.y, c.z), Half(c.x, c.y, c.z));
  }

  /** R + I is invertible for every c: rot2cayley is always defined on what cayley2rot returns. */
  lemma SumInvertible(c: Vec)
    ensures IsInverse(Add(Cayley2Rot(c), ID), Scale(0.5, Sub(ID, Skew(c.x, c.y, c.z))))
  {
    hide Half, Mul, Add, Sub, Scale, Skew, ScaleOf, Cayley2Rot, IsInverse, Inverse;
    var s := ScaleOf(c.x, c.y, c.z);
    SumIs(c);
    LeftInverse(c.x, c.y, c.z);
    RightInverse(c.x, c.y, c.z);
    ScaledInverse(Inverse(s), s, Half(c.x, c.y, c.z), Sub(ID, Skew(c.x, c.y, c.z)));
  }

  lemma ScaledInverse(k: real, s: real, h: Mat, d: Mat)
    requires k * s == 1.0 && Mul(h, d) == Scale(s, ID) && Mul(d, h) == Scale(s, ID)
    ensures IsInverse(Scale(2.0 * k, h), Scale(0.5, d))
  {
    hide Mul, Scale;
    MulScale(2.0 * k, h, Scale(0.5, d)); MulScale(0.5, h, d);
    MulScale(0.5, d, Scale(2.0 * k, h)); MulScale(2.0 * k, d, h);
    ScaleTwice(0.5, 2.0 * k, Mul(d, h), k);
    ScaleTwice(2.0 * k, 0.5, Mul(h, d), k);
    ScaleTwice(k, s, ID, 1.0);
    ScaleOne(ID);
  }

  lemma SquaredIs(x: real, y: real, z: real, s: real)
    requires s == ScaleOf(x, y, z)
    ensures ScaleSquared(x, y, z) == s * s
  {
    Square(s, 1.0 + x * x + y * y + z * z);
  }

  lemma RowsOrthogonal(c: Vec)
    ensures Mul(Cayley2Rot(c), Transpose(Cayley2Rot(c))) == ID
  {
    hide Reduced, Mul, Transpose, Scale, ScaleOf, ScaleSquared, Inverse;
    var s := ScaleOf(c.x, c.y, c.z);
    ReducedOrthogonal(c.x, c.y, c.z);
    SquaredIs(c.x, c.y, c.z, s);
    ScaledOrthogonal(Inverse(s), s, ScaleSquared(c.x, c.y, c.z), Reduced(c.x, c.y, c.z));
  }

  lemma ScaledOrthogonal(k: real, s: real, q: real, n: Mat)
    requires k * s == 1.0 && q == s * s && Mul(n, Transpose(n)) == Scale(q, ID)
    ensures Mul(Scale(k, n), Transpose(Scale(k, n))) == ID
  {
    hide Mul, Transpose, Scale;
    Cancel(k, s, q);
    TransposeScale(k, n);
    MulScale(k, n, Scale(k, Transpose(n)));
    MulScale(k, n, Transpose(n));
    ScaleTwice(k, q, ID, k * q); ScaleTwice(k, k * q, ID, 1.0);
    ScaleOne(ID);
  }

  lemma Cancel(k: real, s: real, q: real)
    requires k * s == 1.0 && q == s * s
    ensures k * (k * q) == 1.0
  {
    assert k * (k * (s * s)) == (k * s) * (k * s);
  }

  /** Every result of cayley2rot is a rotation. */
  lemma IsRotationMatrix(c: Vec)
    ensures IsRotation(Cayley2Rot(c))
  {
    RowsOrthogonal(c);
    ColumnsOrthogonal(c);
    UnitDet(c);
    hide Mul, Transpose, Cayley2Rot, Det;
  }

  lemma ColumnsOrthogonal(c: Vec)
    ensures Mul(Transpose(Cayley2Rot(c)), Cayley2Rot(c)) == ID
  {
    var d := Vec(-c.x, -c.y, -c.z);
    RowsOrthogonal(d);
    Transposed(c.x, c.y, c.z);
    hide Reduced, Mul, Transpose, Scale, ScaleOf, Inverse;
    TransposeScale(Inverse(ScaleOf(c.x, c.y, c.z)), Reduced(c.x, c.y, c.z));
    TransposeTwice(Cayley2Rot(c));
  }

  lemma UnitDet(c: Vec)
    ensures Det(Cayley2Rot(c)) == 1.0
  {
    hide Reduced, Scale, ScaleOf, ScaleSquared, Det, Inverse;
    var s := ScaleOf(c.x, c.y, c.z);
    ReducedDet(c.x, c.y, c.z);
    SquaredIs(c.x, c.y, c.z, s);
    ScaledDet(Inverse(s), s, ScaleSquared(c.x, c.y, c.z), Reduced(c.x, c.y, c.z));
  }

  lemma ScaledDet(k: real, s: real, q: real, n: Mat)
    requires k * s == 1.0 && q == s * s && Det(n) == s * q
    ensures Det(Scale(k, n)) == 1.0
  {
    hide Det, Scale;
    DetScale(k, n);
    assert k * k * k * (s * (s * s)) == (k * s) * (k * s) * (k * s);
    SameProduct(s, q, s * s);
    SameProduct(k * k * k, Det(n), s * (s * s));
  }

  /** The round trip: whatever inverse of R + I is used, rot2cayley gives the vector back. */
  lemma BackToVector(c: Vec, inverse: Mat)
    requires Mul(Add(Cayley2Rot(c), ID), inverse) == ID
    ensures Rot2Cayley(Cayley2Rot(c), inverse) == c
  {
    var k, sum := Skew(c.x, c.y, c.z), Add(Cayley2Rot(c), ID);
    CayleyForm(c);
    hide Cayley2Rot, Mul, Add, Sub;
    MulAssociates(k, sum, inverse);
    MulId(k);
  }

  /** The Cayley matrix of an orthogonal matrix is skew. */
  lemma CayleyMatrixSkew(r: Mat, inverse: Mat)
    requires Mul(Transpose(r), r) == ID && IsInverse(Add(r, ID), inverse)
    ensures var c := Mul(Sub(r, ID), inverse); Add(c, Transpose(c)) == ZERO && Mul(c, Add(r, ID)) == Sub(r, ID)
  {
    var a, b := Add(r, ID), Sub(r, ID);
    var c := Mul(b, inverse);
    var ct, at, it := Transpose(c), Transpose(a), Transpose(inverse);
    Cross(r);
    hide Mul, Add, Sub, Transpose;
    MulAssociates(b, inverse, a); MulId(b);
    TransposeMul(c, a);
    MulAssociates(at, c, a);
    MulAssociates(at, ct, a);
    MulAdd(at, c, ct);
    MulAdd(Mul(at, c), Mul(at, ct), a);
    assert Mul(Mul(at, Add(c, ct)), a) == ZERO;
    Between(at, Add(c, ct), a, it, inverse);
  }

  /** Transposed factors of R + I and R - I cancel. */
  lemma Cross(r: Mat)
    requires Mul(Transpose(r), r) == ID
    ensures var a, b := Add(r, ID), Sub(r, ID);
            Add(Mul(Transpose(a), b), Mul(Transpose(b), a)) == ZERO
  {
    hide Mul, Transpose, Add, Sub;
    var t := Transpose(r);
    TransposedSums(r);
    PlusMinus(t, r);
    MinusPlus(t, r);
    CrossSum(t, r);
  }

  lemma TransposedSums(r: Mat)
    ensures Transpose(Add(r, ID)) == Add(Transpose(r), ID) && Transpose(Sub(r, ID)) == Sub(Transpose(r), ID)
  {
  }

  lemma CrossSum(t: Mat, r: Mat)
    ensures Add(Add(Sub(ID, t), Sub(r, ID)), Sub(Add(ID, t), Add(r, ID))) == ZERO
  {
  }

  lemma PlusMinus(t: Mat, r: Mat)
    ensures Mul(Add(t, ID), Sub(r, ID)) == Add(Sub(Mul(t, r), t), Sub(r, ID))
  {
    hide Mul, Add, Sub;
    MulAdd(t, ID, Sub(r, ID)); MulSub(t, r, ID); MulId(t); MulId(Sub(r, ID));
  }

  lemma MinusPlus(t: Mat, r: Mat)
    ensures Mul(Sub(t, ID), Add(r, ID)) == Sub(Add(Mul(t, r), t), Add(r, ID))
  {
    hide Mul, Add, Sub;
    MulSub(t, ID, Add(r, ID)); MulAdd(t, r, ID); MulId(t); MulId(Add(r, ID));
  }

  lemma Between(at: Mat, x: Mat, a: Mat, it: Mat, inverse: Mat)
    requires Mul(Mul(at, x), a) == ZERO && Mul(a, inverse) == ID && at == Transpose(a) && it == Transpose(inverse)
    ensures x == ZERO
  {
    TransposeTwice(ID);
    TransposeMul(a, inverse);
    hide Mul, Transpose;
    MulAssociates(Mul(at, x), a, inverse); MulId(Mul(at, x)); MulId(inverse);
    MulAssociates(it, at, x); MulId(it); MulId(x);
  }

  /** The other round trip: an orthogonal matrix for which R + I is invertible comes back. */
  lemma BackToRotation(r: Mat, inverse: Mat)
    requires Mul(Transpose(r), r) == ID && IsInverse(Add(r, ID), inverse)
    ensures Cayley2Rot(Rot2Cayley(r, inverse)) == r
  {
    var v, c := Rot2Cayley(r, inverse), Mul(Sub(r, ID), inverse);
    var r' := Cayley2Rot(v);
    CayleyMatrixSkew(r, inverse);
    assert c == Skew(v.x, v.y, v.z) by { SkewIs(c); }
    CayleyForm(v);
    RightInverse(v.x, v.y, v.z);
    hide Mul, Skew, Half, Cayley2Rot, Rot2Cayley, Add, Sub, Scale, Transpose;
    var s, h, d := ScaleOf(v.x, v.y, v.z), Half(v.x, v.y, v.z), Sub(ID, c);
    Rearranged(c, r);
    Rearranged(c, r');
    MulAssociates(h, d, r);
    MulAssociates(h, d, r');
    MulScale(s, ID, r); MulScale(s, ID, r'); MulId(r); MulId(r');
    ScaleInjective(s, r, r');
  }

  lemma SkewIs(c: Mat)
    requires Add(c, Transpose(c)) == ZERO
    ensures c == Skew(-c.r1.z, c.r0.z, -c.r0.y)
  {
  }

  lemma Rearranged(c: Mat, r: Mat)
    requires Mul(c, Add(r, ID)) == Sub(r, ID)
    ensures Mul(Sub(ID, c), r) == Add(ID, c)
  {
    hide Mul, Add, Sub;
    MulAdd(c, r, ID); MulId(c);
    MulSub(ID, c, r); MulId(r);
    Moved(Mul(c, r), c, r);
  }

  lemma Moved(cr: Mat, c: Mat, r: Mat)
    requires Add(cr, c) == Sub(r, ID)
    ensures Sub(r, cr) == Add(ID, c)
  {
  }

  lemma ScaleInjective(s: real, a: Mat, b: Mat)
    requires s != 0.0 && Scale(s, a) == Scale(s, b)
    ensures a == b
  {
    hide Scale, Inverse;
    Undone(Inverse(s), s, a);
    Undone(Inverse(s), s, b);
  }

  lemma Undone(k: real, s: real, a: Mat)
    requires k * s == 1.0
    ensures Scale(k, Scale(s, a)) == a
  {
    hide Scale;
    ScaleTwice(k, s, a, 1.0);
    ScaleOne(a);
  }

  ghost predicate IsCayley(r: Mat) {
    exists c :: Cayley2Rot(c) == r
  }

  ghost predicate SumHasInverse(r: Mat) {
    exists inverse :: IsInverse(Add(r, ID), inverse)
  }

  /** The image of cayley2rot is exactly the orthogonal matrices R with R + I invertible. */
  lemma CayleyImage(r: Mat)
    ensures IsCayley(r) <==> Mul(Transpose(r), r) == ID && SumHasInverse(r)
  {
    hide Mul, Transpose, Add, Cayley2Rot, Rot2Cayley, IsInverse;
    if IsCayley(r) {
      var c :| Cayley2Rot(c) == r;
      ColumnsOrthogonal(c);
      SumInvertible(c);
    }
    if Mul(Transpose(r), r) == ID && SumHasInverse(r) {
      var inverse :| IsInverse(Add(r, ID), inverse);
      BackToRotation(r, inverse);
    }
  }
}
