/** The ePnP solver: the arrays it fills, and the Gauss-Newton refinement of the betas. */
module Epnp {
  import opened EpnpSpec
  import opened Matrix3

  /** Point i of a flat array of coordinates. */
  function PointAt(a: seq<real>, i: nat): Vec
    requires 3 * i + 2 < |a|
  {
    Vec(a[3 * i], a[3 * i + 1], a[3 * i + 2])
  }

  function WeightsAt(a: seq<real>, i: nat): Betas
    requires 4 * i + 3 < |a|
  {
    [a[4 * i], a[4 * i + 1], a[4 * i + 2], a[4 * i + 3]]
  }

  /** The four points of a 4 by 3 array. */
  function PointsOf(a: array2<real>): Points
    requires a.Length0 == 4 && a.Length1 == 3
    reads a
  {
    [Vec(a[0, 0], a[0, 1], a[0, 2]), Vec(a[1, 0], a[1, 1], a[1, 2]),
     Vec(a[2, 0], a[2, 1], a[2, 2]), Vec(a[3, 0], a[3, 1], a[3, 2])]
  }

  function Coordinate(v: Vec, k: nat): real {
    if k == 0 then v.x else if k == 1 then v.y else v.z
  }

  function Opposite(v: Vec): Vec {
    Vec(-v.x, -v.y, -v.z)
  }

  class Solver {
    const cam: Camera
    const n: nat                // number_of_correspondences
    const pws: array<real>      // 3 n world coordinates
    const alphas: array<real>   // 4 n barycentric coordinates
    const pcs: array<real>      // 3 n camera coordinates
    const signs: array<int>
    const cws: array2<real>     // 4 by 3 control points, world
    const ccs: array2<real>     // and camera

    ghost predicate Valid() {
      && n >= 1 && pws.Length == pcs.Length == 3 * n && alphas.Length == 4 * n && signs.Length == n
      && cws.Length0 == ccs.Length0 == 4 && cws.Length1 == ccs.Length1 == 3 && cws != ccs
      && pws != pcs && alphas != pcs && pws != alphas
    }

    constructor (cam: Camera, n: nat, pws: array<real>, signs: array<int>)
      requires n >= 1 && pws.Length == 3 * n && signs.Length == n
      ensures Valid() && this.n == n && this.pws == pws && this.signs == signs && this.cam == cam
      ensures fresh(alphas) && fresh(pcs) && fresh(cws) && fresh(ccs)
    {
      this.cam, this.n, this.pws, this.signs := cam, n, pws, signs;
      alphas := new real[4 * n];
      pcs := new real[3 * n];
      cws := new real[4, 3];
      ccs := new real[4, 3];
    }

    /** `compute_barycentric_coordinates`; the inverse of the spread matrix is an input. */
    method ComputeBarycentric(inverse: Mat)
      requires Valid()
      modifies alphas
      ensures forall i :: 0 <= i < n ==>
        WeightsAt(alphas[..], i) == Barycentric(inverse, PointsOf(cws), PointAt(pws[..], i))
    {
      hide Barycentric;
      for i := 0 to n
        invariant forall k :: 0 <= k < i ==>
          WeightsAt(alphas[..], k) == Barycentric(inverse, PointsOf(cws), PointAt(pws[..], k))
      {
        var dx, dy, dz := pws[3 * i] - cws[0, 0], pws[3 * i + 1] - cws[0, 1], pws[3 * i + 2] - cws[0, 2];
        ghost var before := alphas[..];
        alphas[4 * i + 1] := inverse.r0.x * dx + inverse.r0.y * dy + inverse.r0.z * dz;
        alphas[4 * i + 2] := inverse.r1.x * dx + inverse.r1.y * dy + inverse.r1.z * dz;
        alphas[4 * i + 3] := inverse.r2.x * dx + inverse.r2.y * dy + inverse.r2.z * dz;
        alphas[4 * i] := 1.0 - alphas[4 * i + 1] - alphas[4 * i + 2] - alphas[4 * i + 3];
        IsBarycentric(inverse, PointsOf(cws), PointAt(pws[..], i), dx, dy, dz, WeightsAt(alphas[..], i));
        forall k | 0 <= k < i ensures WeightsAt(alphas[..], k) == WeightsAt(before, k) {
        }
      }
    }

    /** `compute_ccs` */
    method ComputeCcs(betas: Betas, ut: Kernel)
      requires Valid()
      modifies ccs
      ensures forall j :: 0 <= j < 4 ==> PointsOf(ccs)[j] == CameraPoint(betas, ut, j)
    {
      for i := 0 to 4
        invariant forall r, c :: 0 <= r < i && 0 <= c < 3 ==> ccs[r, c] == 0.0
      {
        ccs[i, 0], ccs[i, 1], ccs[i, 2] := 0.0, 0.0, 0.0;
      }
      for i := 0 to 4
        invariant forall r, c :: 0 <= r < 4 && 0 <= c < 3 ==> ccs[r, c] == Partial(betas, ut, i, r, c)
      {
        for j := 0 to 4
          invariant forall r, c :: 0 <= r < 4 && 0 <= c < 3 ==>
            ccs[r, c] == Partial(betas, ut, if r < j then i + 1 else i, r, c)
        {
          for k := 0 to 3
            invariant forall r, c :: 0 <= r < 4 && 0 <= c < 3 ==>
              ccs[r, c] == Partial(betas, ut, if r < j || (r == j && c < k) then i + 1 else i, r, c)
          {
            ccs[j, k] := ccs[j, k] + betas[i] * ut[11 - i][3 * j + k];
          }
        }
      }
      forall j | 0 <= j < 4 ensures PointsOf(ccs)[j] == CameraPoint(betas, ut, j) {
        PartialIsPoint(betas, ut, j);
      }
    }

    /** `compute_pcs` */
    method ComputePcs()
      requires Valid()
      modifies pcs
      ensures forall i :: 0 <= i < n ==> PointAt(pcs[..], i) == Weighted(WeightsAt(alphas[..], i), PointsOf(ccs))
    {
      hide Weighted;
      for i := 0 to n
        invariant forall k :: 0 <= k < i ==> PointAt(pcs[..], k) == Weighted(WeightsAt(alphas[..], k), PointsOf(ccs))
      {
        ghost var before := pcs[..];
        ComputePoint(i);
        forall k | 0 <= k < i ensures PointAt(pcs[..], k) == PointAt(before, k) {
        }
      }
    }

    /** One point of `compute_pcs`. */
    method ComputePoint(i: nat)
      requires Valid() && i < n
      modifies pcs
      ensures PointAt(pcs[..], i) == Weighted(WeightsAt(alphas[..], i), PointsOf(ccs))
      ensures forall m :: 0 <= m < pcs.Length && !(3 * i <= m < 3 * i + 3) ==> pcs[m] == old(pcs[m])
    {
      var a := 4 * i;
      WeightedIs(WeightsAt(alphas[..], i), PointsOf(ccs));
      hide Weighted;
      ghost var w := Weighted(WeightsAt(alphas[..], i), PointsOf(ccs));
      for j := 0 to 3
        invariant forall m :: 3 * i <= m < 3 * i + j ==> pcs[m] == Coordinate(w, m - 3 * i)
        invariant forall m :: 0 <= m < pcs.Length && !(3 * i <= m < 3 * i + j) ==> pcs[m] == old(pcs[m])
      {
        pcs[3 * i + j] :=
          alphas[a] * ccs[0, j] + alphas[a + 1] * ccs[1, j] + alphas[a + 2] * ccs[2, j] + alphas[a + 3] * ccs[3, j];
        assert pcs[3 * i + j] == Coordinate(w, j);
      }
    }

    /** Every camera point is the combination of the control points that its weights give. */
    ghost predicate Consistent()
      requires Valid()
      reads pcs, alphas, ccs
    {
      forall i :: 0 <= i < n ==> PointAt(pcs[..], i) == Weighted(WeightsAt(alphas[..], i), PointsOf(ccs))
    }

    /** `solve_for_sign`: the first point ends up on the side its measurement says, and all points turn together. */
    method SolveForSign() returns (turned: bool)
      requires Valid()
      modifies ccs, pcs
      ensures turned <==> (old(pcs[2]) < 0.0 && signs[0] > 0) || (old(pcs[2]) > 0.0 && signs[0] < 0)
      ensures !(pcs[2] < 0.0 && signs[0] > 0) && !(pcs[2] > 0.0 && signs[0] < 0)
      ensures old(Consistent()) ==> Consistent()
      ensures forall m :: 0 <= m < pcs.Length ==> pcs[m] == if turned then -old(pcs[m]) else old(pcs[m])
      ensures forall j :: 0 <= j < 4 ==>
        PointsOf(ccs)[j] == if turned then Opposite(old(PointsOf(ccs))[j]) else old(PointsOf(ccs))[j]
    {
      hide Weighted;
      turned := (pcs[2] < 0.0 && signs[0] > 0) || (pcs[2] > 0.0 && signs[0] < 0);
      if turned {
        TurnControlPoints();
        TurnPoints();
        forall i | 0 <= i < n && old(Consistent())
          ensures PointAt(pcs[..], i) == Weighted(WeightsAt(alphas[..], i), PointsOf(ccs))
        {
          OppositeWeighted(WeightsAt(alphas[..], i), old(PointsOf(ccs)), PointsOf(ccs));
        }
      }
    }

    method TurnControlPoints()
      requires Valid()
      modifies ccs
      ensures forall j :: 0 <= j < 4 ==> PointsOf(ccs)[j] == Opposite(old(PointsOf(ccs))[j])
    {
      for i := 0 to 4
        invariant forall r, c :: 0 <= r < 4 && 0 <= c < 3 ==>
          ccs[r, c] == if r < i then -old(ccs[r, c]) else old(ccs[r, c])
      {
        for j := 0 to 3
          invariant forall r, c :: 0 <= r < 4 && 0 <= c < 3 ==>
            ccs[r, c] == if r < i || (r == i && c < j) then -old(ccs[r, c]) else old(ccs[r, c])
        {
          ccs[i, j] := -ccs[i, j];
        }
      }
    }

    method TurnPoints()
      requires Valid()
      modifies pcs
      ensures forall m :: 0 <= m < pcs.Length ==> pcs[m] == -old(pcs[m])
    {
      for i := 0 to n
        invariant forall m :: 0 <= m < pcs.Length ==> pcs[m] == if m < 3 * i then -old(pcs[m]) else old(pcs[m])
      {
        pcs[3 * i] := -pcs[3 * i];
        pcs[3 * i + 1] := -pcs[3 * i + 1];
        pcs[3 * i + 2] := -pcs[3 * i + 2];
      }
    }

    /** `fill_M`: the two equations of a point with weights as, seen at (u, v). */
    method FillM(m: array2<real>, row: nat, w: Betas, u: real, v: real)
      requires m.Length1 == 12 && row + 1 < m.Length0
      modifies m
      ensures RowOf(m, row) == RowU(cam, w, u) && RowOf(m, row + 1) == RowV(cam, w, v)
      ensures forall r, c :: 0 <= r < m.Length0 && 0 <= c < 12 && r != row && r != row + 1 ==> m[r, c] == old(m[r, c])
    {
      for i := 0 to 4
        invariant forall k :: 0 <= k < i ==>
          Entry(m, row, k) == RowU(cam, w, u)[k] && Entry(m, row + 1, k) == RowV(cam, w, v)[k]
        invariant forall r, c :: 0 <= r < m.Length0 && 0 <= c < 12 && r != row && r != row + 1 ==>
          m[r, c] == old(m[r, c])
      {
        m[row, 3 * i] := w[i] * cam.fu;
        m[row, 3 * i + 1] := 0.0;
        m[row, 3 * i + 2] := w[i] * (cam.uc - u);
        m[row + 1, 3 * i] := 0.0;
        m[row + 1, 3 * i + 1] := w[i] * cam.fv;
        m[row + 1, 3 * i + 2] := w[i] * (cam.vc - v);
      }
    }
  }

  /** The coefficients of control point k in a row of M. */
  function Entry(m: array2<real>, row: nat, k: nat): Vec
    requires m.Length1 == 12 && row < m.Length0 && k < 4
    reads m
  {
    Vec(m[row, 3 * k], m[row, 3 * k + 1], m[row, 3 * k + 2])
  }

  function RowOf(m: array2<real>, row: nat): (r: seq<Vec>)
    requires m.Length1 == 12 && row < m.Length0
    reads m
    ensures |r| == 4
  {
    [Entry(m, row, 0), Entry(m, row, 1), Entry(m, row, 2), Entry(m, row, 3)]
  }

  lemma OppositeWeighted(w: Betas, c: Points, turned: Points)
    requires forall j :: 0 <= j < 4 ==> turned[j] == Opposite(c[j])
    ensures Weighted(w, turned) == Opposite(Weighted(w, c))
  {
    OppositeTimes(w[0], c[0]); OppositeTimes(w[1], c[1]); OppositeTimes(w[2], c[2]); OppositeTimes(w[3], c[3]);
    hide Times;
  }

  lemma OppositeTimes(k: real, u: Vec)
    ensures Times(k, Opposite(u)) == Opposite(Times(k, u))
  {
  }

  /** Turning all control points keeps every distance between them. */
  lemma OppositeKeepsDistance(u: Vec, v: Vec)
    ensures Distance2(Opposite(u), Opposite(v)) == Distance2(u, v)
  {
    var d := Minus(u, v);
    assert Minus(Opposite(u), Opposite(v)) == Opposite(d);
    DotOf(Opposite(d), Opposite(d), -d.x, -d.y, -d.z, -d.x, -d.y, -d.z);
  }

  lemma IsBarycentric(inverse: Mat, c: Points, p: Vec, dx: real, dy: real, dz: real, w: Betas)
    requires dx == p.x - c[0].x && dy == p.y - c[0].y && dz == p.z - c[0].z
    requires w[1] == inverse.r0.x * dx + inverse.r0.y * dy + inverse.r0.z * dz
    requires w[2] == inverse.r1.x * dx + inverse.r1.y * dy + inverse.r1.z * dz
    requires w[3] == inverse.r2.x * dx + inverse.r2.y * dy + inverse.r2.z * dz
    requires w[0] == 1.0 - w[1] - w[2] - w[3]
    ensures w == Barycentric(inverse, c, p)
  {
    var d := Minus(p, c[0]);
    DotOf(inverse.r0, d, inverse.r0.x, inverse.r0.y, inverse.r0.z, dx, dy, dz);
    DotOf(inverse.r1, d, inverse.r1.x, inverse.r1.y, inverse.r1.z, dx, dy, dz);
    DotOf(inverse.r2, d, inverse.r2.x, inverse.r2.y, inverse.r2.z, dx, dy, dz);
    hide Dot;
    var b := Barycentric(inverse, c, p);
    assert w[0] == b[0] && w[1] == b[1] && w[2] == b[2] && w[3] == b[3];
  }

  /** Coordinate c of control point r after the first i betas. */
  function Partial(betas: Betas, ut: Kernel, i: nat, r: nat, c: nat): real
    requires i <= 4 && r < 4 && c < 3
  {
    if i == 0 then 0.0 else Partial(betas, ut, i - 1, r, c) + betas[i - 1] * ut[12 - i][3 * r + c]
  }

  lemma PartialIsPoint(betas: Betas, ut: Kernel, r: nat)
    requires r < 4
    ensures CameraPoint(betas, ut, r)
         == Vec(Partial(betas, ut, 4, r, 0), Partial(betas, ut, 4, r, 1), Partial(betas, ut, 4, r, 2))
  {
    hide Weighted, Partial;
    var d := seq(4, i requires 0 <= i < 4 => KernelPoint(ut, i, r));
    WeightedIs(betas, d);
    PartialIs(betas, ut, r, 0, d[0].x, d[1].x, d[2].x, d[3].x);
    PartialIs(betas, ut, r, 1, d[0].y, d[1].y, d[2].y, d[3].y);
    PartialIs(betas, ut, r, 2, d[0].z, d[1].z, d[2].z, d[3].z);
  }

  lemma PartialIs(betas: Betas, ut: Kernel, r: nat, c: nat, v0: real, v1: real, v2: real, v3: real)
    requires r < 4 && c < 3
    requires v0 == ut[11][3 * r + c] && v1 == ut[10][3 * r + c] && v2 == ut[9][3 * r + c] && v3 == ut[8][3 * r + c]
    ensures Partial(betas, ut, 4, r, c) == betas[0] * v0 + betas[1] * v1 + betas[2] * v2 + betas[3] * v3
  {
    PartialStep(betas, ut, 1, r, c, v0);
    PartialStep(betas, ut, 2, r, c, v1);
    PartialStep(betas, ut, 3, r, c, v2);
    PartialStep(betas, ut, 4, r, c, v3);
    assert Partial(betas, ut, 0, r, c) == 0.0;
    hide Partial;
  }

  lemma PartialStep(betas: Betas, ut: Kernel, i: nat, r: nat, c: nat, v: real)
    requires 0 < i <= 4 && r < 4 && c < 3 && v == ut[12 - i][3 * r + c]
    ensures Partial(betas, ut, i, r, c) == Partial(betas, ut, i - 1, r, c) + betas[i - 1] * v
  {
  }
}
