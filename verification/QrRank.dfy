/** The rank of the matrices that the factorisation gets through, and of some that it gives up. */
module QrRank {
  import opened Optional
  import opened QrSpec
  import opened Reals
  import opened Vectors
  import Qr

  const NOTHING: Vec := [0.0, 0.0, 0.0, 0.0, 0.0, 0.0]

  /** Only the zero combination of the columns is zero. */
  ghost predicate FullRank(a: seq<real>)
    requires |a| == NR * NC
  {
    forall x: Vec :: |x| == NC && Residual(NOTHING, Cols(a), x, NC) == NOTHING ==> x == [0.0, 0.0, 0.0, 0.0]
  }

  /** Entry p of the residual. */
  lemma ResidualAt(a: seq<real>, b: Vec, y: Vec, p: nat)
    requires |a| == NR * NC && |b| == NR && |y| == NC && p < NR
    ensures Residual(b, Cols(a), y, NC)[p]
         == b[p] - (a[4 * p] * y[0] + a[4 * p + 1] * y[1] + a[4 * p + 2] * y[2] + a[4 * p + 3] * y[3])
  {
    var cols := Cols(a);
    var r1, r2, r3 := Residual(b, cols, y, 1), Residual(b, cols, y, 2), Residual(b, cols, y, 3);
    assert Residual(b, cols, y, 0) == b;
    assert r1 == AddScaled(b, -y[0], cols[0]);
    assert r2 == AddScaled(r1, -y[1], cols[1]);
    assert r3 == AddScaled(r2, -y[2], cols[2]);
    assert Residual(b, cols, y, 4) == AddScaled(r3, -y[3], cols[3]);
    hide Residual;
    assert cols[0][p] == a[4 * p] && cols[1][p] == a[4 * p + 1] && cols[2][p] == a[4 * p + 2]
      && cols[3][p] == a[4 * p + 3];
  }

  lemma ZeroSolves(a: seq<real>, x: Vec)
    requires |a| == NR * NC && |x| == NC && Residual(NOTHING, Cols(a), x, NC) == NOTHING
    ensures NormalEquations(a, NOTHING, x)
  {
    forall j | 0 <= j < NC ensures Dot(Col(a, j), NOTHING) == 0.0 {
      DotDisjoint(Col(a, j), NOTHING);
    }
  }

  /** A matrix that passes every step has full rank. */
  lemma FactorisedHasFullRank(a: seq<real>, sqrt: real -> real)
    requires |a| == NR * NC && IsSqrt(sqrt) && Factor(a, NC, sqrt).Some?
    ensures FullRank(a)
  {
    hide Residual, NormalEquations, Factor, IsSqrt;
    var zero := [0.0, 0.0, 0.0, 0.0];
    forall p | 0 <= p < NR ensures Residual(NOTHING, Cols(a), zero, NC)[p] == NOTHING[p] {
      ResidualAt(a, NOTHING, zero, p);
    }
    assert Residual(NOTHING, Cols(a), zero, NC) == NOTHING;
    ZeroSolves(a, zero);
    forall x: Vec | |x| == NC && Residual(NOTHING, Cols(a), x, NC) == NOTHING ensures x == zero {
      ZeroSolves(a, x);
      Unique(a, NOTHING, sqrt, x, zero);
    }
  }

  // ---------- A matrix of full rank that is given up ----------

  /** The columns are four different unit vectors; the first one is that of the last row. */
  const UNITS: seq<real> := [
    0.0, 1.0, 0.0, 0.0,
    0.0, 0.0, 1.0, 0.0,
    0.0, 0.0, 0.0, 1.0,
    0.0, 0.0, 0.0, 0.0,
    0.0, 0.0, 0.0, 0.0,
    1.0, 0.0, 0.0, 0.0]

  /** The row in which column j has its one. */
  function RowOfUnit(j: nat): nat {
    if j == 0 then 5 else j - 1
  }

  lemma UnitColumn(j: nat, r: Vec)
    requires j < NC && |r| == NR
    ensures Dot(Col(UNITS, j), r) == r[RowOfUnit(j)]
  {
    var u, k := Col(UNITS, j), RowOfUnit(j);
    forall i | 0 <= i < NR ensures u[i] == if i == k then 1.0 else 0.0 {
      UnitEntry(i, j);
    }
    hide Col, Dot;
    DotSingle(u, r, k);
  }

  lemma UnitEntry(i: nat, j: nat)
    requires i < NR && j < NC
    ensures Col(UNITS, j)[i] == if i == RowOfUnit(j) then 1.0 else 0.0
  {
  }

  lemma UnitResidual(b: Vec, x: Vec, j: nat)
    requires |b| == NR && |x| == NC && j < NC
    ensures Residual(b, Cols(UNITS), x, NC)[RowOfUnit(j)] == b[RowOfUnit(j)] - x[j]
  {
    hide Residual;
    ResidualAt(UNITS, b, x, RowOfUnit(j));
  }

  /** Every right-hand side has exactly one solution, and the solver gives none. */
  lemma FullRankGivenUp(sqrt: real -> real, b: Vec, x: Vec)
    requires IsSqrt(sqrt) && |b| == NR && |x| == NC
    ensures FullRank(UNITS)
    ensures NormalEquations(UNITS, b, x) <==> x == [b[5], b[0], b[1], b[2]]
    ensures Factor(UNITS, NC, sqrt).None?
  {
    Qr.LastRowOverlooked(sqrt, UNITS);
    hide Residual, Factor, IsSqrt, Dot;
    UnitsSolved(b, x);
    forall y: Vec | |y| == NC && Residual(NOTHING, Cols(UNITS), y, NC) == NOTHING ensures y == [0.0, 0.0, 0.0, 0.0] {
      ZeroSolves(UNITS, y);
      UnitsSolved(NOTHING, y);
    }
  }

  lemma UnitsSolved(b: Vec, x: Vec)
    requires |b| == NR && |x| == NC
    ensures NormalEquations(UNITS, b, x) <==> x == [b[5], b[0], b[1], b[2]]
  {
    hide Residual, Dot;
    forall j | 0 <= j < NC
      ensures Dot(Col(UNITS, j), Residual(b, Cols(UNITS), x, NC)) == b[RowOfUnit(j)] - x[j]
    {
      UnitColumn(j, Residual(b, Cols(UNITS), x, NC));
      UnitResidual(b, x, j);
    }
    var s := [b[RowOfUnit(0)], b[RowOfUnit(1)], b[RowOfUnit(2)], b[RowOfUnit(3)]];
    assert NormalEquations(UNITS, b, x) <==> forall j :: 0 <= j < NC ==> x[j] == s[j];
  }
}
