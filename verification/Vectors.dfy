/** Real vectors: inner products and reflections. */
module Vectors {
  import opened Reals

  type Vec = seq<real>

  function Dot(u: Vec, v: Vec): real
    requires |u| == |v|
  {
    if u == [] then 0.0
    else Dot(u[..|u| - 1], v[..|v| - 1]) + Product(u[|u| - 1], v[|v| - 1])
  }

  /** u + c v */
  function AddScaled(u: Vec, c: real, v: Vec): (w: Vec)
    requires |u| == |v|
    ensures |w| == |u| && forall i :: 0 <= i < |u| ==> w[i] == u[i] + c * v[i]
  {
    seq(|u|, i requires 0 <= i < |u| => u[i] + c * v[i])
  }

  lemma AddScaledPrefix(u: Vec, c: real, v: Vec, n: nat)
    requires |u| == |v| && n <= |u|
    ensures AddScaled(u, c, v)[..n] == AddScaled(u[..n], c, v[..n])
  {
    var a, b := AddScaled(u, c, v)[..n], AddScaled(u[..n], c, v[..n]);
    forall i | 0 <= i < n ensures a[i] == b[i] {
      assert v[..n][i] == v[i] && u[..n][i] == u[i];
    }
  }

  lemma {:induction false} DotCommutes(u: Vec, v: Vec)
    requires |u| == |v|
    ensures Dot(u, v) == Dot(v, u)
  {
    if u != [] {
      DotCommutes(u[..|u| - 1], v[..|v| - 1]);
    }
  }

  lemma {:induction false} DotAddScaled(u: Vec, c: real, v: Vec, w: Vec)
    requires |u| == |v| == |w|
    ensures Dot(AddScaled(u, c, v), w) == Dot(u, w) + c * Dot(v, w)
  {
    if u != [] {
      var n := |u| - 1;
      DotAddScaled(u[..n], c, v[..n], w[..n]);
      AddScaledPrefix(u, c, v, n);
      Distribute(u[n], c, v[n], w[n], Dot(v[..n], w[..n]));
    }
  }

  lemma Distribute(a: real, c: real, b: real, w: real, d: real)
    ensures (a + c * b) * w == a * w + c * (b * w)
    ensures c * (d + b * w) == c * d + c * (b * w)
  {
  }

  lemma {:induction false} DotSelf(u: Vec, i: nat)
    requires i < |u|
    ensures Dot(u, u) >= u[i] * u[i] >= 0.0
  {
    var n := |u| - 1;
    assert u[n] * u[n] >= 0.0;
    if i == n {
      DotSelfNonnegative(u[..n]);
    } else {
      DotSelf(u[..n], i);
    }
  }

  lemma {:induction false} DotSelfNonnegative(u: Vec)
    ensures Dot(u, u) >= 0.0
  {
    if u != [] {
      DotSelfNonnegative(u[..|u| - 1]);
      assert u[|u| - 1] * u[|u| - 1] >= 0.0;
    }
  }

  function Coefficient(v: Vec, d: real, u: Vec): (c: real)
    requires |u| == |v| && d != 0.0
    ensures c * d == -Dot(v, u)
  {
    -(Dot(v, u) / d)
  }

  /** The reflection with normal v, where d is half the square of its length. */
  function Reflect(v: Vec, d: real, u: Vec): (w: Vec)
    requires |u| == |v| && d != 0.0
    ensures |w| == |u|
  {
    AddScaled(u, Coefficient(v, d, u), v)
  }

  lemma DotAddScaledRight(u: Vec, w: Vec, c: real, v: Vec)
    requires |u| == |v| == |w|
    ensures Dot(u, AddScaled(w, c, v)) == Dot(u, w) + c * Dot(u, v)
  {
    hide *;
    DotCommutes(u, AddScaled(w, c, v));
    DotAddScaled(w, c, v, u);
    DotCommutes(w, u);
    DotCommutes(v, u);
  }

  /** Reflections preserve inner products. */
  lemma ReflectPreservesDot(v: Vec, d: real, u: Vec, w: Vec)
    requires |u| == |v| == |w| && d != 0.0 && Dot(v, v) == 2.0 * d
    ensures Dot(Reflect(v, d, u), Reflect(v, d, w)) == Dot(u, w)
  {
    hide Dot, Reflect, Coefficient;
    var a, c := Coefficient(v, d, u), Coefficient(v, d, w);
    var w' := Reflect(v, d, w);
    DotReflect(v, d, u, w', a);
    DotReflect(v, d, w, u, c);
    DotReflect(v, d, w, v, c);
    DotCommutes(w', u); DotCommutes(w', v); DotCommutes(w, u); DotCommutes(w, v);
    ReflectionArithmetic(Dot(u, w), Dot(v, u), Dot(v, w), Dot(v, v), d, a, c, Dot(u, w'), Dot(v, w'));
  }

  lemma DotReflect(v: Vec, d: real, u: Vec, z: Vec, c: real)
    requires |u| == |v| == |z| && d != 0.0 && c == Coefficient(v, d, u)
    ensures Dot(Reflect(v, d, u), z) == Dot(u, z) + c * Dot(v, z)
  {
    assert Reflect(v, d, u) == AddScaled(u, c, v);
    hide Dot, AddScaled, Coefficient, Reflect;
    DotAddScaled(u, c, v, z);
  }

  lemma ReflectionArithmetic(uw: real, vu: real, vw: real, vv: real, d: real, a: real, c: real, uw': real, vw': real)
    requires a * d == -vu && c * d == -vw && vv == 2.0 * d
    requires uw' == uw + c * vu && vw' == vw + c * vv
    ensures uw' + a * vw' == uw
  {
    SameProduct(c, vv, 2.0 * d);
    assert vw' == c * d;
    SameProduct(a, vw', c * d);
    SameProduct(c, vu, -(a * d));
  }

  /** Reflections are linear. */
  lemma ReflectLinear(v: Vec, d: real, u: Vec, t: real, w: Vec)
    requires |u| == |v| == |w| && d != 0.0
    ensures Reflect(v, d, AddScaled(u, t, w)) == AddScaled(Reflect(v, d, u), t, Reflect(v, d, w))
  {
    hide Dot;
    var p, q, r := Coefficient(v, d, u), Coefficient(v, d, w), Coefficient(v, d, AddScaled(u, t, w));
    assert r == p + t * q by {
      DotAddScaledRight(v, u, t, w);
      DivideSum(Dot(v, u), t, Dot(v, w), d);
    }
    LinearAt(p, t, q, r, u, w, v);
  }

  lemma DivideSum(a: real, t: real, b: real, d: real)
    requires d != 0.0
    ensures -((a + t * b) / d) == -(a / d) + t * -(b / d)
  {
  }

  lemma LinearAt(p: real, t: real, q: real, r: real, u: Vec, w: Vec, v: Vec)
    requires |u| == |v| == |w| && r == p + t * q
    ensures AddScaled(AddScaled(u, t, w), r, v) == AddScaled(AddScaled(u, p, v), t, AddScaled(w, q, v))
  {
    var lhs, rhs := AddScaled(AddScaled(u, t, w), r, v), AddScaled(AddScaled(u, p, v), t, AddScaled(w, q, v));
    forall i | 0 <= i < |u| ensures lhs[i] == rhs[i] {
      LinearArithmetic(p, t, q, u[i], w[i], v[i]);
    }
  }

  lemma LinearArithmetic(p: real, t: real, q: real, ui: real, wi: real, vi: real)
    ensures (ui + t * wi) + (p + t * q) * vi == (ui + p * vi) + t * (wi + q * vi)
  {
  }

  /** A list of reflections, the first one applied first. */
  function ReflectAll(vs: seq<Vec>, ds: seq<real>, u: Vec): (w: Vec)
    requires Reflectors(vs, ds, |u|)
    ensures |w| == |u|
  {
    if vs == [] then u
    else Reflect(vs[|vs| - 1], ds[|vs| - 1], ReflectAll(vs[..|vs| - 1], ds[..|vs| - 1], u))
  }

  /** Normals of length n with half their squares, none of them zero. */
  predicate Reflectors(vs: seq<Vec>, ds: seq<real>, n: nat) {
    && |vs| == |ds|
    && forall k :: 0 <= k < |vs| ==> |vs[k]| == n && ds[k] != 0.0 && Dot(vs[k], vs[k]) == 2.0 * ds[k]
  }

  lemma {:induction false} ReflectAllPreservesDot(vs: seq<Vec>, ds: seq<real>, u: Vec, w: Vec)
    requires |u| == |w| && Reflectors(vs, ds, |u|)
    ensures Dot(ReflectAll(vs, ds, u), ReflectAll(vs, ds, w)) == Dot(u, w)
  {
    if vs != [] {
      var n := |vs| - 1;
      ReflectAllPreservesDot(vs[..n], ds[..n], u, w);
      ReflectPreservesDot(vs[n], ds[n], ReflectAll(vs[..n], ds[..n], u), ReflectAll(vs[..n], ds[..n], w));
    }
  }

  lemma {:induction false} ReflectAllLinear(vs: seq<Vec>, ds: seq<real>, u: Vec, t: real, w: Vec)
    requires |u| == |w| && Reflectors(vs, ds, |u|)
    ensures ReflectAll(vs, ds, AddScaled(u, t, w)) == AddScaled(ReflectAll(vs, ds, u), t, ReflectAll(vs, ds, w))
  {
    if vs != [] {
      var n := |vs| - 1;
      ReflectAllLinear(vs[..n], ds[..n], u, t, w);
      ReflectLinear(vs[n], ds[n], ReflectAll(vs[..n], ds[..n], u), t, ReflectAll(vs[..n], ds[..n], w));
    }
  }
}
