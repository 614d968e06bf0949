/** `qr_solve`: in-place Householder factorisation of a flat 6 by 4 matrix, then the right-hand
    side, then back substitution. */
module Qr {
  import opened Optional
  import opened QrSpec
  import opened Reals
  import opened Vectors

  lemma ColUpdate(a: seq<real>, i: nat, k: nat, x: real)
    requires |a| == NR * NC && i < NR && k < NC
    ensures Col(a[NC * i + k := x], k) == Col(a, k)[i := x]
    ensures forall j :: 0 <= j < NC && j != k ==> Col(a[NC * i + k := x], j) == Col(a, j)
  {
  }

  /** The part of a stored column that is a normal: zeros above row k. */
  function Normal(c: Vec, k: nat): (v: Vec)
    requires |c| == NR
    ensures |v| == NR && forall i :: 0 <= i < NR ==> v[i] == if i < k then 0.0 else c[i]
  {
    seq(NR, i requires 0 <= i < NR => if i < k then 0.0 else c[i])
  }

  /** x with rows k to i taken from v. */
  function Partial(x: Vec, k: nat, i: nat, v: Vec): (c: Vec)
    requires |x| == |v| == NR
    ensures |c| == NR && forall m :: 0 <= m < NR ==> c[m] == if k <= m < i then v[m] else x[m]
  {
    seq(NR, m requires 0 <= m < NR => if k <= m < i then v[m] else x[m])
  }

  lemma PartialStep(x: Vec, k: nat, i: nat, v: Vec)
    requires |x| == |v| == NR && k <= i < NR
    ensures Partial(x, k, i + 1, v) == Partial(x, k, i, v)[i := v[i]]
    ensures Partial(x, k, k, v) == x
  {
  }

  /** Overwrites row i of column k, in a loop that replaces the column by v from row k on. */
  method Put(p: array<real>, k: nat, i: nat, e: real, ghost x: Vec, ghost start: nat, ghost v: Vec)
    requires p.Length == NR * NC && k < NC && start <= i < NR && |x| == |v| == NR && v[i] == e
    requires Col(p[..], k) == Partial(x, start, i, v)
    modifies p
    ensures Col(p[..], k) == Partial(x, start, i + 1, v)
    ensures forall j :: 0 <= j < NC && j != k ==> Col(p[..], j) == old(Col(p[..], j))
  {
    ColUpdate(p[..], i, k, e);
    PartialStep(x, start, i, v);
    p[NC * i + k] := e;
    assert p[..] == old(p[..])[NC * i + k := e];
  }

  lemma DotPrefix(u: Vec, w: Vec, i: nat)
    requires i < |u| == |w|
    ensures Dot(u[..i + 1], w[..i + 1]) == Dot(u[..i], w[..i]) + Product(u[i], w[i])
  {
    hide Product;
    assert u[..i + 1][..i] == u[..i] && w[..i + 1][..i] == w[..i];
  }

  lemma DotZeros(u: Vec, w: Vec, k: nat)
    requires k <= |u| == |w| && forall i :: 0 <= i < k ==> u[i] == 0.0
    ensures Dot(u[..k], w[..k]) == 0.0
  {
    DotDisjoint(u[..k], w[..k]);
  }

  /** The magnitude loop: its pointer starts one row early, so the last row is never looked at. */
  method LargestScale(p: array<real>, k: nat) returns (eta: real)
    requires p.Length == NR * NC && k < NC
    ensures eta == Scale(Col(p[..], k), k)
  {
    ghost var x := Col(p[..], k);
    eta := Abs(p[NC * k + k]);
    for i := k + 1 to NR
      invariant eta == Eta(x, k, if i == k + 1 then k + 1 else i - 1)
    {
      var elt := Abs(p[NC * (i - 1) + k]);
      assert elt == Abs(x[i - 1]);
      if eta < elt {
        eta := elt;
      }
    }
  }

  /** Divides column k by its scale, from row k on, and sums the squares. */
  method ScaleColumn(p: array<real>, k: nat, inv: real) returns (sum: real)
    requires p.Length == NR * NC && k < NC
    modifies p
    ensures var x := old(Col(p[..], k)); var y := Scaled(x, k, inv);
            Col(p[..], k) == Partial(x, k, NR, y) && sum == Dot(y, y)
    ensures forall j :: 0 <= j < NC && j != k ==> Col(p[..], j) == old(Col(p[..], j))
  {
    hide Dot, Product;
    ghost var x := Col(p[..], k);
    ghost var y := Scaled(x, k, inv);
    sum := 0.0;
    DotZeros(y, y, k);
    for i := k to NR
      invariant Col(p[..], k) == Partial(x, k, i, y)
      invariant forall j :: 0 <= j < NC && j != k ==> Col(p[..], j) == old(Col(p[..], j))
      invariant sum == Dot(y[..i], y[..i])
    {
      assert p[NC * i + k] == Col(p[..], k)[i] == x[i];
      Put(p, k, i, Product(p[NC * i + k], inv), x, k, y);
      assert p[NC * i + k] == Col(p[..], k)[i] == y[i];
      DotPrefix(y, y, i);
      sum := sum + Product(p[NC * i + k], p[NC * i + k]);
    }
    assert y[..NR] == y;
  }

  /** Builds the reflection of step k in column k; stops when the scale is zero. */
  method Reflector(p: array<real>, k: nat, sqrt: real -> real) returns (ok: bool, a1: real, a2: real)
    requires p.Length == NR * NC && k < NC && IsSqrt(sqrt)
    modifies p
    ensures var x := old(Col(p[..], k));
            && ok == (Scale(x, k) != 0.0)
            && (ok ==> var h := Householder(x, k, sqrt);
                       Col(p[..], k) == Partial(x, k, NR, h.v) && a1 == h.d && a2 == h.r)
    ensures forall j :: 0 <= j < NC && (j != k || !ok) ==> Col(p[..], j) == old(Col(p[..], j))
  {
    hide Dot, Eta, Scale, Scaled, Inverse, Sigma, Householder, IsSqrt;
    ghost var x := Col(p[..], k);
    var eta := LargestScale(p, k);
    if eta == 0.0 {
      return false, 0.0, 0.0;
    }
    ok := true;
    var sum := ScaleColumn(p, k, Inverse(eta));
    ghost var y := Scaled(x, k, Inverse(eta));
    assert p[NC * k + k] == Col(p[..], k)[k] == y[k];
    var sigma := SignedRootOf(sum, p[NC * k + k], sqrt, y, k);
    AddToDiagonal(p, k, sigma, x, y);
    HouseholderIs(x, k, sqrt, eta, y, sigma);
    a1 := sigma * p[NC * k + k];
    a2 := -eta * sigma;
  }

  method SignedRootOf(sum: real, akk: real, sqrt: real -> real, ghost y: Vec, ghost k: nat) returns (sigma: real)
    requires k < |y| && sum == Dot(y, y) && akk == y[k]
    ensures sigma == Sigma(y, k, sqrt)
  {
    sigma := sqrt(sum);
    if akk < 0.0 {
      sigma := -sigma;
    }
  }

  method AddToDiagonal(p: array<real>, k: nat, sigma: real, ghost x: Vec, ghost y: Vec)
    requires p.Length == NR * NC && k < NC && |x| == |y| == NR && Col(p[..], k) == Partial(x, k, NR, y)
    modifies p
    ensures p[NC * k + k] == y[k] + sigma && Col(p[..], k) == Partial(x, k, NR, y[k := y[k] + sigma])
    ensures forall j :: 0 <= j < NC && j != k ==> Col(p[..], j) == old(Col(p[..], j))
  {
    assert p[NC * k + k] == Col(p[..], k)[k] == y[k];
    ColUpdate(p[..], k, k, p[NC * k + k] + sigma);
    p[NC * k + k] := p[NC * k + k] + sigma;
    assert p[..] == old(p[..])[NC * k + k := y[k] + sigma];
    assert Partial(x, k, NR, y)[k := y[k] + sigma] == Partial(x, k, NR, y[k := y[k] + sigma]);
  }

  /** The normal stored in column k against column j. */
  method InnerProduct(p: array<real>, k: nat, j: nat) returns (sum: real)
    requires p.Length == NR * NC && k < j < NC
    ensures sum == Dot(Normal(Col(p[..], k), k), Col(p[..], j))
  {
    hide Dot, Product;
    ghost var stored := Col(p[..], k);
    ghost var v, c := Normal(stored, k), Col(p[..], j);
    sum := 0.0;
    DotZeros(v, c, k);
    for i := k to NR
      invariant sum == Dot(v[..i], c[..i])
    {
      DotPrefix(v, c, i);
      sum := sum + Product(p[NC * i + k], p[NC * i + j]);
    }
    assert v[..NR] == v && c[..NR] == c;
  }

  /** Applies the reflection stored in column k to column j. */
  method ApplyToColumn(p: array<real>, k: nat, j: nat, a1: real)
    requires p.Length == NR * NC && k < j < NC && a1 != 0.0
    modifies p
    ensures var v, c := Normal(old(Col(p[..], k)), k), old(Col(p[..], j));
            Col(p[..], j) == Reflect(v, a1, c)
    ensures forall l :: 0 <= l < NC && l != j ==> Col(p[..], l) == old(Col(p[..], l))
  {
    hide Dot, Product, Reflect;
    ghost var stored := Col(p[..], k);
    ghost var v, c := Normal(stored, k), Col(p[..], j);
    ghost var result := Reflect(v, a1, c);
    var sum := InnerProduct(p, k, j);
    var tau := sum / a1;
    for i := k to NR
      invariant Col(p[..], j) == Partial(c, k, i, result)
      invariant forall l :: 0 <= l < NC && l != j ==> Col(p[..], l) == old(Col(p[..], l))
    {
      assert p[NC * i + j] == Col(p[..], j)[i] == c[i];
      assert p[NC * i + k] == Col(p[..], k)[i] == v[i];
      ReflectAt(v, a1, c, i, tau, p[NC * i + k], p[NC * i + j]);
      Put(p, j, i, p[NC * i + j] - Product(tau, p[NC * i + k]), c, k, result);
    }
    ReflectKeeps(v, a1, c, k);
  }

  /** Entry i of the reflected vector, from the stored entries of the normal and of the vector. */
  lemma ReflectAt(v: Vec, d: real, c: Vec, i: nat, tau: real, vi: real, ci: real)
    requires i < |v| == |c| && d != 0.0 && tau == Dot(v, c) / d && vi == v[i] && ci == c[i]
    ensures Reflect(v, d, c)[i] == ci - Product(tau, vi)
  {
    hide Dot;
    var w := -tau;
    assert Coefficient(v, d, c) == w;
    assert Reflect(v, d, c)[i] == c[i] + w * v[i];
    SameProduct(w, v[i], vi);
  }

  /** Rows in which the normal is zero stay as they are. */
  lemma ReflectKeeps(v: Vec, d: real, c: Vec, k: nat)
    requires |v| == |c| == NR && k <= NR && d != 0.0 && forall i :: 0 <= i < k ==> v[i] == 0.0
    ensures Partial(c, k, NR, Reflect(v, d, c)) == Reflect(v, d, c)
  {
    hide Dot, Coefficient;
    var r := Reflect(v, d, c);
    forall i | 0 <= i < k ensures r[i] == c[i] {
      assert Coefficient(v, d, c) * v[i] == 0.0;
    }
  }

  // ---------- The factorisation ----------

  /** The flat matrix after k steps: finished columns hold their upper part and, from the diagonal
      down, the normal of their own step; the others are the reduced columns. */
  ghost predicate Holds(p: seq<real>, a: seq<real>, f: Factors, k: nat)
    requires |p| == |a| == NR * NC && Reflectors(f.vs, f.ds, NR) && |f.vs| == k <= NC
  {
    && (forall j :: k <= j < NC ==> Col(p, j) == Reduced(a, f, j))
    && (forall j :: 0 <= j < k ==> Col(p, j) == Partial(Reduced(a, f, j), j, NR, f.vs[j]))
    && (forall j, i :: 0 <= j < k && 0 <= i < j ==> f.vs[j][i] == 0.0)
  }

  lemma {:induction false} FactorStops(a: seq<real>, k: nat, n: nat, sqrt: real -> real)
    requires |a| == NR * NC && k <= n <= NC && IsSqrt(sqrt) && Factor(a, k, sqrt).None?
    ensures Factor(a, n, sqrt).None?
    decreases n - k
  {
    if k < n {
      FactorStops(a, k + 1, n, sqrt);
    }
  }

  /** What one step adds to the factors, in terms of the reduced columns. */
  lemma StepHolds(p: seq<real>, a: seq<real>, f: Factors, k: nat, sqrt: real -> real)
    requires |p| == |a| == NR * NC && k < NC && IsSqrt(sqrt) && Factor(a, k, sqrt) == Some(f)
    requires Factor(a, k + 1, sqrt).Some?
    requires forall j :: 0 <= j < k ==> Col(p, j) == Partial(Reduced(a, f, j), j, NR, f.vs[j])
    requires forall j, i :: 0 <= j < k && 0 <= i < j ==> f.vs[j][i] == 0.0
    requires var x := Reduced(a, f, k);
             Scale(x, k) != 0.0 &&
             var h := Householder(x, k, sqrt);
             && Col(p, k) == Partial(x, k, NR, h.v)
             && h.d != 0.0 && forall j :: k < j < NC ==> Col(p, j) == Reflect(h.v, h.d, Reduced(a, f, j))
    ensures Holds(p, a, Factor(a, k + 1, sqrt).value, k + 1)
  {
    hide Dot, Householder, Reflect, Scale, Reduced, Factor, IsSqrt;
    var f', x := Factor(a, k + 1, sqrt).value, Reduced(a, f, k);
    var h := Householder(x, k, sqrt);
    HouseholderNormal(x, k, sqrt);
    HouseholderMaps(x, k, sqrt);
    forall j | 0 <= j < NC
      ensures k + 1 <= j ==> Col(p, j) == Reduced(a, f', j)
      ensures j <= k ==> Col(p, j) == Partial(Reduced(a, f', j), j, NR, f'.vs[j])
    {
      FactorStep(a, k, sqrt, f, j);
      if j < k {
        Triangular(a, k, sqrt, f, j);
        LaterStep(a, k, sqrt, f, f', j);
      } else if j == k {
        assert Partial(Cleared(x, k, h.r), k, NR, h.v) == Partial(x, k, NR, h.v);
      }
    }
    FactorStep(a, k, sqrt, f, k);
  }

  lemma FactorNext(a: seq<real>, k: nat, sqrt: real -> real, f: Factors)
    requires |a| == NR * NC && k < NC && IsSqrt(sqrt) && Factor(a, k, sqrt) == Some(f)
    ensures Factor(a, k + 1, sqrt).Some? <==> Scale(Reduced(a, f, k), k) != 0.0
  {
    hide Dot, Householder, Scale, IsSqrt;
  }

  /** Step k: builds the reflection and applies it to the columns to the right. */
  method Step(p: array<real>, k: nat, sqrt: real -> real, ghost a: seq<real>, ghost f: Factors)
    returns (ok: bool, a1: real, a2: real)
    requires p.Length == |a| == NR * NC && k < NC && IsSqrt(sqrt)
    requires Factor(a, k, sqrt) == Some(f) && Holds(p[..], a, f, k)
    modifies p
    ensures ok == Factor(a, k + 1, sqrt).Some?
    ensures ok ==> var f' := Factor(a, k + 1, sqrt).value;
                   Holds(p[..], a, f', k + 1) && a1 == f'.ds[k] && a2 == f'.rs[k]
  {
    hide Dot, Householder, Reflect, Scale, Reduced, IsSqrt, Factor;
    ghost var x := Reduced(a, f, k);
    ghost var before := p[..];
    FactorNext(a, k, sqrt, f);
    ok, a1, a2 := Reflector(p, k, sqrt);
    if !ok {
      return;
    }
    ghost var h := Householder(x, k, sqrt);
    HouseholderNormal(x, k, sqrt);
    FactorStep(a, k, sqrt, f, k);
    assert Normal(Col(p[..], k), k) == h.v;
    for j := k + 1 to NC
      invariant forall l :: 0 <= l < k ==> Col(p[..], l) == Col(before, l)
      invariant Col(p[..], k) == Partial(x, k, NR, h.v)
      invariant forall l :: k < l < j ==> Col(p[..], l) == Reflect(h.v, h.d, Reduced(a, f, l))
      invariant forall l :: j <= l < NC ==> Col(p[..], l) == Reduced(a, f, l)
    {
      assert Normal(Partial(x, k, NR, h.v), k) == h.v;
      ApplyToColumn(p, k, j, a1);
    }
    StepHolds(p[..], a, f, k, sqrt);
  }

  /** All steps, or up to the first column whose scale is zero. */
  method Factorise(p: array<real>, a1: array<real>, a2: array<real>, sqrt: real -> real, ghost a: seq<real>)
    returns (ok: bool)
    requires p.Length == |a| == NR * NC && a1.Length == a2.Length == NR && IsSqrt(sqrt)
    requires p != a1 && p != a2 && a1 != a2 && p[..] == a
    modifies p, a1, a2
    ensures ok == Factor(a, NC, sqrt).Some?
    ensures ok ==> var f := Factor(a, NC, sqrt).value;
                   Holds(p[..], a, f, NC) && a1[..NC] == f.ds && a2[..NC] == f.rs
  {
    hide Dot, Householder, Reflect, Scale, IsSqrt, Holds;
    assert Holds(p[..], a, Factors([], [], []), 0) by { HoldsAtStart(a, sqrt); }
    for k := 0 to NC
      invariant Factor(a, k, sqrt).Some?
      invariant var f := Factor(a, k, sqrt).value; Holds(p[..], a, f, k) && a1[..k] == f.ds && a2[..k] == f.rs
    {
      ghost var f := Factor(a, k, sqrt).value;
      var d, r;
      ok, d, r := Step(p, k, sqrt, a, f);
      if !ok {
        a1[k], a2[k] := 0.0, 0.0;
        FactorStops(a, k + 1, NC, sqrt);
        return;
      }
      FactorStep(a, k, sqrt, f, k);
      a1[k], a2[k] := d, r;
      assert a1[..k + 1] == f.ds + [d] && a2[..k + 1] == f.rs + [r];
    }
    ok := true;
  }

  lemma HoldsAtStart(a: seq<real>, sqrt: real -> real)
    requires |a| == NR * NC && IsSqrt(sqrt)
    ensures Factor(a, 0, sqrt) == Some(Factors([], [], []))
    ensures Holds(a, a, Factors([], [], []), 0)
  {
  }

  // ---------- The right-hand side and the back substitution ----------

  /** One reflection, stored in column j, applied to the right-hand side. */
  method ApplyToRight(p: array<real>, j: nat, a1: real, b: array<real>)
    requires p.Length == NR * NC && b.Length == NR && p != b && j < NC && a1 != 0.0
    modifies b
    ensures b[..] == Reflect(Normal(Col(p[..], j), j), a1, old(b[..]))
  {
    hide Dot, Product;
    ghost var v, c := Normal(Col(p[..], j), j), b[..];
    ghost var result := Reflect(v, a1, c);
    var tau := 0.0;
    DotZeros(v, c, j);
    for i := j to NR
      invariant tau == Dot(v[..i], c[..i]) && b[..] == c
    {
      DotPrefix(v, c, i);
      tau := tau + Product(p[NC * i + j], b[i]);
    }
    assert v[..NR] == v && c[..NR] == c;
    tau := tau / a1;
    PartialStart(c, j, result);
    for i := j to NR
      invariant b[..] == Partial(c, j, i, result)
    {
      PartialStep(c, j, i, result);
      assert b[i] == Partial(c, j, i, result)[i] == c[i];
      ReflectAt(v, a1, c, i, tau, p[NC * i + j], b[i]);
      ghost var before := b[..];
      var e := b[i] - Product(tau, p[NC * i + j]);
      assert e == result[i];
      b[i] := e;
      assert b[..] == before[i := e];
    }
    ReflectKeeps(v, a1, c, j);
  }

  lemma PartialStart(x: Vec, k: nat, v: Vec)
    requires |x| == |v| == NR
    ensures Partial(x, k, k, v) == x
  {
  }

  /** The right-hand side under all reflections. */
  method ReflectRight(p: array<real>, a1: array<real>, b: array<real>, ghost a: seq<real>, ghost f: Factors)
    requires p.Length == |a| == NR * NC && b.Length == a1.Length == NR && p != b && a1 != b
    requires Reflectors(f.vs, f.ds, NR) && |f.vs| == NC && Holds(p[..], a, f, NC) && a1[..NC] == f.ds
    modifies b
    ensures b[..] == ReflectAll(f.vs, f.ds, old(b[..]))
  {
    hide Dot, Reflect;
    ghost var b0 := b[..];
    for j := 0 to NC
      invariant Reflectors(f.vs[..j], f.ds[..j], NR) && b[..] == ReflectAll(f.vs[..j], f.ds[..j], b0)
    {
      assert f.vs[..j + 1][..j] == f.vs[..j] && f.ds[..j + 1][..j] == f.ds[..j];
      assert a1[j] == a1[..NC][j] == f.ds[j];
      assert Normal(Partial(Reduced(a, f, j), j, NR, f.vs[j]), j) == f.vs[j];
      ApplyToRight(p, j, a1[j], b);
    }
    assert f.vs[..NC] == f.vs && f.ds[..NC] == f.ds;
  }

  /** Row l of the triangular system holds. */
  ghost predicate RowSolved(cols: seq<Vec>, rs: seq<real>, b: Vec, x: Vec, l: nat)
    requires Upper(cols, rs) && |b| == NR && |x| == NC && l < NC
  {
    rs[l] * x[l] == b[l] - Tail(cols, x, l, NC)
  }

  /** Setting entry i solves row i and leaves the rows below solved. */
  lemma SolvedKept(cols: seq<Vec>, rs: seq<real>, b: Vec, x: Vec, i: nat, e: real, x': Vec)
    requires Upper(cols, rs) && |b| == NR && |x| == NC && i < NC && x' == x[i := e]
    requires forall l :: i < l < NC ==> RowSolved(cols, rs, b, x, l)
    requires rs[i] * e == b[i] - Tail(cols, x, i, NC)
    ensures forall l :: i <= l < NC ==> RowSolved(cols, rs, b, x', l)
  {
    hide Tail, RowSolved, Upper;
    forall l | i <= l < NC ensures RowSolved(cols, rs, b, x', l) {
      if l > i {
        RowKept(cols, rs, b, x, l, x');
      } else {
        RowSet(cols, rs, b, x, i, e, x');
      }
    }
  }

  lemma RowKept(cols: seq<Vec>, rs: seq<real>, b: Vec, x: Vec, l: nat, x': Vec)
    requires Upper(cols, rs) && |b| == NR && |x| == |x'| == NC && l < NC
    requires forall k :: l <= k < NC ==> x'[k] == x[k]
    requires RowSolved(cols, rs, b, x, l)
    ensures RowSolved(cols, rs, b, x', l)
  {
    hide Tail;
    SameTail(cols, x, x', l, NC);
  }

  lemma RowSet(cols: seq<Vec>, rs: seq<real>, b: Vec, x: Vec, i: nat, e: real, x': Vec)
    requires Upper(cols, rs) && |b| == NR && |x| == NC && i < NC && x' == x[i := e]
    requires rs[i] * e == b[i] - Tail(cols, x, i, NC)
    ensures RowSolved(cols, rs, b, x', i)
  {
    hide Tail;
    SameTail(cols, x, x', i, NC);
  }

  /** The sum in row i, over the part of R above the diagonal. */
  method RowSum(p: array<real>, x: array<real>, i: nat, ghost cols: seq<Vec>, ghost rs: seq<real>) returns (sum: real)
    requires p.Length == NR * NC && x.Length == NC && i < NC && Upper(cols, rs)
    requires forall j :: i < j < NC ==> p[NC * i + j] == cols[j][i]
    ensures sum == Tail(cols, x[..], i, NC)
  {
    sum := 0.0;
    for j := i + 1 to NC
      invariant sum == Tail(cols, x[..], i, j)
    {
      SameProduct(x[j], p[NC * i + j], cols[j][i]);
      sum := sum + p[NC * i + j] * x[j];
    }
  }

  lemma Divided(r: real, v: real)
    requires r != 0.0
    ensures r * (v / r) == v
  {
  }

  /** X = R^-1 b */
  method BackSubstitute(p: array<real>, a2: array<real>, b: array<real>, x: array<real>, ghost cols: seq<Vec>,
      ghost rs: seq<real>)
    requires p.Length == NR * NC && b.Length == a2.Length == NR && x.Length == NC
    requires x != p && x != a2 && x != b
    requires Upper(cols, rs) && a2[..NC] == rs
    requires forall i, j :: 0 <= i < j < NC ==> Col(p[..], j)[i] == cols[j][i]
    modifies x
    ensures forall l :: 0 <= l < NC ==> RowSolved(cols, rs, b[..], x[..], l)
  {
    hide Tail, Upper, RowSolved;
    assert forall l :: 0 <= l < NC ==> a2[l] == rs[l] by { assert forall l :: 0 <= l < NC ==> a2[..NC][l] == rs[l]; }
    DiagonalSet(cols, rs);
    Divided(rs[NC - 1], b[NC - 1]);
    LastRow(cols, rs, x[..]);
    ghost var x0 := x[..];
    SolvedKept(cols, rs, b[..], x0, NC - 1, b[NC - 1] / a2[NC - 1], x0[NC - 1 := b[NC - 1] / a2[NC - 1]]);
    x[NC - 1] := b[NC - 1] / a2[NC - 1];
    assert x[..] == x0[NC - 1 := b[NC - 1] / a2[NC - 1]];
    for i := NC - 1 downto 0
      invariant forall l :: i <= l < NC ==> RowSolved(cols, rs, b[..], x[..], l)
    {
      forall j | i < j < NC ensures p[NC * i + j] == cols[j][i] { assert Col(p[..], j)[i] == cols[j][i]; }
      var sum := RowSum(p, x, i, cols, rs);
      Divided(rs[i], b[i] - sum);
      ghost var before := x[..];
      var e := (b[i] - sum) / a2[i];
      SolvedKept(cols, rs, b[..], before, i, e, before[i := e]);
      x[i] := e;
      assert x[..] == before[i := e];
    }
  }

  lemma DiagonalSet(cols: seq<Vec>, rs: seq<real>)
    requires Upper(cols, rs)
    ensures |cols| == |rs| == NC
    ensures forall l :: 0 <= l < NC ==> |cols[l]| == NR && rs[l] != 0.0
  {
  }

  lemma LastRow(cols: seq<Vec>, rs: seq<real>, x: Vec)
    requires Upper(cols, rs) && |x| == NC
    ensures Tail(cols, x, NC - 1, NC) == 0.0
  {
  }

  lemma SolvedRows(a: seq<real>, b: Vec, sqrt: real -> real, x: Vec)
    requires |a| == NR * NC && |b| == NR && |x| == NC && IsSqrt(sqrt) && Factor(a, NC, sqrt).Some?
    requires var f := Factor(a, NC, sqrt).value;
             Upper(ReducedCols(a, f), f.rs)
             && forall l :: 0 <= l < NC ==> RowSolved(ReducedCols(a, f), f.rs, ReflectAll(f.vs, f.ds, b), x, l)
    ensures NormalEquations(a, b, x)
  {
    hide Dot, Factor, IsSqrt, ReflectAll, Residual, Tail, Upper;
    var f := Factor(a, NC, sqrt).value;
    forall l | 0 <= l < NC ensures Residual(ReflectAll(f.vs, f.ds, b), ReducedCols(a, f), x, NC)[l] == 0.0 {
      RowEquation(ReflectAll(f.vs, f.ds, b), ReducedCols(a, f), f.rs, x, l);
      assert RowSolved(ReducedCols(a, f), f.rs, ReflectAll(f.vs, f.ds, b), x, l);
    }
    TriangularSolves(a, b, sqrt, x);
  }

  /** `qr_solve`. It solves the least-squares problem exactly when every step finds a nonzero scale;
      otherwise it leaves the right-hand side and the result as they were. */
  method QrSolve(a: seq<real>, b: array<real>, x: array<real>, sqrt: real -> real) returns (ok: bool)
    requires |a| == NR * NC && b.Length == NR && x.Length == NC && b != x && IsSqrt(sqrt)
    modifies b, x
    ensures ok == Factor(a, NC, sqrt).Some?
    ensures ok ==> NormalEquations(a, old(b[..]), x[..])
    ensures !ok ==> b[..] == old(b[..]) && x[..] == old(x[..])
  {
    hide Dot, Factor, IsSqrt, NormalEquations, RowSolved, Upper;
    var p := new real[NR * NC](i requires 0 <= i < NR * NC => a[i]);
    assert p[..] == a;
    var a1, a2 := new real[NR], new real[NR];
    ok := Factorise(p, a1, a2, sqrt, a);
    if !ok {
      return;
    }
    ghost var f := Factor(a, NC, sqrt).value;
    ghost var cols := ReducedCols(a, f);
    ReflectRight(p, a1, b, a, f);
    ghost var reflected := b[..];
    ReducedIsUpper(a, sqrt);
    BackSubstitute(p, a2, b, x, cols, f.rs);
    forall l | 0 <= l < NC ensures RowSolved(cols, f.rs, reflected, x[..], l) {
      assert RowSolved(cols, f.rs, b[..], x[..], l);
    }
    SolvedRows(a, old(b[..]), sqrt, x[..]);
  }

  /** The scale leaves out the last row, so every matrix whose first column is zero except there
      is given up, whatever its rank. */
  lemma LastRowOverlooked(sqrt: real -> real, a: seq<real>)
    requires |a| == NR * NC && IsSqrt(sqrt)
    requires forall i :: 0 <= i < NR - 1 ==> Col(a, 0)[i] == 0.0
    ensures Factor(a, NC, sqrt).None?
  {
    assert Factor(a, 0, sqrt) == Some(Factors([], [], []));
    assert Scale(Col(a, 0), 0) == 0.0;
    FactorNext(a, 0, sqrt, Factors([], [], []));
    FactorStops(a, 1, NC, sqrt);
  }
}
