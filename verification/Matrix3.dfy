/** Vectors and matrices of size 3 over exact reals. */
module Matrix3 {
  import opened Reals

  datatype Vec = Vec(x: real, y: real, z: real)

  /** A 3 by 3 matrix by its rows. */
  datatype Mat = Mat(r0: Vec, r1: Vec, r2: Vec)

  const ID := Mat(Vec(1.0, 0.0, 0.0), Vec(0.0, 1.0, 0.0), Vec(0.0, 0.0, 1.0))
  const ZERO := Mat(Vec(0.0, 0.0, 0.0), Vec(0.0, 0.0, 0.0), Vec(0.0, 0.0, 0.0))

  function Plus(u: Vec, v: Vec): Vec {
    Vec(u.x + v.x, u.y + v.y, u.z + v.z)
  }

  function Minus(u: Vec, v: Vec): Vec {
    Vec(u.x - v.x, u.y - v.y, u.z - v.z)
  }

  function Times(k: real, u: Vec): Vec {
    Vec(k * u.x, k * u.y, k * u.z)
  }

  function Dot(u: Vec, v: Vec): real {
    u.x * v.x + u.y * v.y + u.z * v.z
  }

  function Column(a: Mat, i: nat): Vec {
    if i == 0 then Vec(a.r0.x, a.r1.x, a.r2.x)
    else if i == 1 then Vec(a.r0.y, a.r1.y, a.r2.y)
    else Vec(a.r0.z, a.r1.z, a.r2.z)
  }

  /** A row times a matrix. */
  function RowMul(u: Vec, a: Mat): Vec {
    Vec(Dot(u, Column(a, 0)), Dot(u, Column(a, 1)), Dot(u, Column(a, 2)))
  }

  function Mul(a: Mat, b: Mat): Mat {
    Mat(RowMul(a.r0, b), RowMul(a.r1, b), RowMul(a.r2, b))
  }

  function Add(a: Mat, b: Mat): Mat {
    Mat(Plus(a.r0, b.r0), Plus(a.r1, b.r1), Plus(a.r2, b.r2))
  }

  function Scale(k: real, a: Mat): Mat {
    Mat(Times(k, a.r0), Times(k, a.r1), Times(k, a.r2))
  }

  function Sub(a: Mat, b: Mat): Mat {
    Mat(Minus(a.r0, b.r0), Minus(a.r1, b.r1), Minus(a.r2, b.r2))
  }

  function Transpose(a: Mat): Mat {
    Mat(Column(a, 0), Column(a, 1), Column(a, 2))
  }

  function Det(a: Mat): real {
    a.r0.x * (a.r1.y * a.r2.z - a.r1.z * a.r2.y)
    - a.r0.y * (a.r1.x * a.r2.z - a.r1.z * a.r2.x)
    + a.r0.z * (a.r1.x * a.r2.y - a.r1.y * a.r2.x)
  }

  // ---------- Matrix algebra ----------

  lemma DotOfRow(u: Vec, a: Mat, v: Vec)
    ensures Dot(RowMul(u, a), v) == Dot(u, Vec(Dot(a.r0, v), Dot(a.r1, v), Dot(a.r2, v)))
  {
  }

  lemma RowAssociates(u: Vec, b: Mat, c: Mat)
    ensures RowMul(RowMul(u, b), c) == RowMul(u, Mul(b, c))
  {
    DotOfRow(u, b, Column(c, 0));
    DotOfRow(u, b, Column(c, 1));
    DotOfRow(u, b, Column(c, 2));
    hide Dot;
  }

  lemma MulAssociates(a: Mat, b: Mat, c: Mat)
    ensures Mul(Mul(a, b), c) == Mul(a, Mul(b, c))
  {
    hide RowMul;
    RowAssociates(a.r0, b, c);
    RowAssociates(a.r1, b, c);
    RowAssociates(a.r2, b, c);
  }

  lemma MulId(a: Mat)
    ensures Mul(a, ID) == a && Mul(ID, a) == a && Mul(a, ZERO) == ZERO && Mul(ZERO, a) == ZERO
  {
  }

  lemma DotAdd(u: Vec, v: Vec, w: Vec)
    ensures Dot(Plus(u, v), w) == Dot(u, w) + Dot(v, w) && Dot(w, Plus(u, v)) == Dot(w, u) + Dot(w, v)
  {
  }

  lemma RowAdd(u: Vec, v: Vec, b: Mat, c: Mat)
    ensures RowMul(Plus(u, v), b) == Plus(RowMul(u, b), RowMul(v, b))
    ensures RowMul(u, Add(b, c)) == Plus(RowMul(u, b), RowMul(u, c))
  {
    forall i | 0 <= i < 3
      ensures Dot(Plus(u, v), Column(b, i)) == Dot(u, Column(b, i)) + Dot(v, Column(b, i))
      ensures Dot(u, Column(Add(b, c), i)) == Dot(u, Column(b, i)) + Dot(u, Column(c, i))
    {
      DotAdd(u, v, Column(b, i));
      DotAdd(Column(b, i), Column(c, i), u);
    }
    hide Dot;
  }

  lemma MulAdd(a: Mat, b: Mat, c: Mat)
    ensures Mul(a, Add(b, c)) == Add(Mul(a, b), Mul(a, c))
    ensures Mul(Add(a, b), c) == Add(Mul(a, c), Mul(b, c))
  {
    hide RowMul, Plus;
    RowAdd(a.r0, b.r0, c, c); RowAdd(a.r1, b.r1, c, c); RowAdd(a.r2, b.r2, c, c);
    RowAdd(a.r0, b.r0, b, c); RowAdd(a.r1, b.r1, b, c); RowAdd(a.r2, b.r2, b, c);
  }

  lemma DotMinus(u: Vec, v: Vec, w: Vec)
    ensures Dot(Minus(u, v), w) == Dot(u, w) - Dot(v, w) && Dot(w, Minus(u, v)) == Dot(w, u) - Dot(w, v)
  {
  }

  lemma RowMinus(u: Vec, v: Vec, b: Mat, c: Mat)
    ensures RowMul(Minus(u, v), b) == Minus(RowMul(u, b), RowMul(v, b))
    ensures RowMul(u, Sub(b, c)) == Minus(RowMul(u, b), RowMul(u, c))
  {
    forall i | 0 <= i < 3
      ensures Dot(Minus(u, v), Column(b, i)) == Dot(u, Column(b, i)) - Dot(v, Column(b, i))
      ensures Dot(u, Column(Sub(b, c), i)) == Dot(u, Column(b, i)) - Dot(u, Column(c, i))
    {
      DotMinus(u, v, Column(b, i));
      DotMinus(Column(b, i), Column(c, i), u);
    }
    hide Dot;
  }

  lemma MulSub(a: Mat, b: Mat, c: Mat)
    ensures Mul(a, Sub(b, c)) == Sub(Mul(a, b), Mul(a, c))
    ensures Mul(Sub(a, b), c) == Sub(Mul(a, c), Mul(b, c))
  {
    hide RowMul, Minus;
    RowMinus(a.r0, b.r0, c, c); RowMinus(a.r1, b.r1, c, c); RowMinus(a.r2, b.r2, c, c);
    RowMinus(a.r0, b.r0, b, c); RowMinus(a.r1, b.r1, b, c); RowMinus(a.r2, b.r2, b, c);
  }

  lemma DotTimes(k: real, u: Vec, v: Vec)
    ensures Dot(Times(k, u), v) == k * Dot(u, v) && Dot(u, Times(k, v)) == k * Dot(u, v)
  {
  }

  lemma TimesOf(k: real, u: Vec, a: real, b: real, c: real)
    requires u == Vec(a, b, c)
    ensures Times(k, u) == Vec(k * a, k * b, k * c)
  {
  }

  lemma DotIs(u: Vec, v: Vec)
    ensures Dot(u, v) == Product(u.x, v.x) + Product(u.y, v.y) + Product(u.z, v.z)
  {
  }

  lemma DotOf(u: Vec, v: Vec, a: real, b: real, c: real, d: real, e: real, f: real)
    requires u == Vec(a, b, c) && v == Vec(d, e, f)
    ensures Dot(u, v) == a * d + b * e + c * f
  {
  }

  lemma RowTimes(k: real, u: Vec, b: Mat)
    ensures RowMul(Times(k, u), b) == Times(k, RowMul(u, b)) && RowMul(u, Scale(k, b)) == Times(k, RowMul(u, b))
  {
    hide Dot, Times, Column, Scale;
    var p, q, r := Column(b, 0), Column(b, 1), Column(b, 2);
    DotTimes(k, u, p); DotTimes(k, u, q); DotTimes(k, u, r);
    ScaledColumns(k, b);
    TimesOf(k, RowMul(u, b), Dot(u, p), Dot(u, q), Dot(u, r));
  }

  lemma ScaledColumns(k: real, b: Mat)
    ensures forall i :: 0 <= i < 3 ==> Column(Scale(k, b), i) == Times(k, Column(b, i))
  {
  }

  lemma MulScale(k: real, a: Mat, b: Mat)
    ensures Mul(Scale(k, a), b) == Scale(k, Mul(a, b)) && Mul(a, Scale(k, b)) == Scale(k, Mul(a, b))
  {
    hide RowMul, Times;
    RowTimes(k, a.r0, b); RowTimes(k, a.r1, b); RowTimes(k, a.r2, b);
  }

  lemma DotSwaps(u: Vec, v: Vec)
    ensures Dot(u, v) == Dot(v, u)
  {
  }

  lemma TransposeMul(a: Mat, b: Mat)
    ensures Transpose(Mul(a, b)) == Mul(Transpose(b), Transpose(a))
  {
    forall i | 0 <= i < 3
      ensures Dot(a.r0, Column(b, i)) == Dot(Column(b, i), a.r0)
      ensures Dot(a.r1, Column(b, i)) == Dot(Column(b, i), a.r1)
      ensures Dot(a.r2, Column(b, i)) == Dot(Column(b, i), a.r2)
    {
      DotSwaps(a.r0, Column(b, i)); DotSwaps(a.r1, Column(b, i)); DotSwaps(a.r2, Column(b, i));
    }
    hide Dot;
  }

  lemma TransposeTwice(a: Mat)
    ensures Transpose(Transpose(a)) == a && Transpose(ID) == ID
  {
  }

  lemma TransposeScale(k: real, a: Mat)
    ensures Transpose(Scale(k, a)) == Scale(k, Transpose(a))
  {
    ScaledColumns(k, a);
    hide Column, Times;
  }

  lemma ScaleTwice(k: real, l: real, a: Mat, m: real)
    requires m == k * l
    ensures Scale(k, Scale(l, a)) == Scale(m, a)
  {
    TimesTwice(k, l, a.r0, m); TimesTwice(k, l, a.r1, m); TimesTwice(k, l, a.r2, m);
    hide Times;
  }

  lemma TimesTwice(k: real, l: real, u: Vec, m: real)
    requires m == k * l
    ensures Times(k, Times(l, u)) == Times(m, u)
  {
  }

  lemma ScaleAdd(k: real, a: Mat, b: Mat)
    ensures Scale(k, Add(a, b)) == Add(Scale(k, a), Scale(k, b))
  {
    forall u: Vec, v: Vec ensures Times(k, Plus(u, v)) == Plus(Times(k, u), Times(k, v)) {
      TimesPlus(k, u, v);
    }
    hide Times, Plus;
  }

  lemma TimesPlus(k: real, u: Vec, v: Vec)
    ensures Times(k, Plus(u, v)) == Plus(Times(k, u), Times(k, v))
  {
  }

  lemma TimesMinus(k: real, u: Vec, v: Vec)
    ensures Times(k, Minus(u, v)) == Minus(Times(k, u), Times(k, v))
  {
  }

  lemma ScaleSub(k: real, a: Mat, b: Mat)
    ensures Scale(k, Sub(a, b)) == Sub(Scale(k, a), Scale(k, b))
  {
    TimesMinus(k, a.r0, b.r0); TimesMinus(k, a.r1, b.r1); TimesMinus(k, a.r2, b.r2);
    hide Times, Minus;
  }

  lemma ScaleOne(a: Mat)
    ensures Scale(1.0, a) == a
  {
  }

  lemma DetScale(k: real, a: Mat)
    ensures Det(Scale(k, a)) == k * k * k * Det(a)
  {
  }
}
