/** The Lorentz-Berthelot combining rule `CombineLJ_lorenz_berthelot`. */
module Combining {
  import opened ForceField

  /** A `k` by `k` matrix, row by row. */
  predicate IsSquare(m: seq<seq<real>>, k: nat)
  {
    |m| == k && forall i :: 0 <= i < k ==> |m[i]| == k
  }

  /** The pair matrices `sigma_c` and `epsilon_c`. */
  datatype Combined = Combined(sigma: seq<seq<real>>, epsilon: seq<seq<real>>)

  function MeanRow(v: seq<real>, i: nat): (row: seq<real>)
    requires i < |v|
    ensures |row| == |v|
    ensures forall j :: 0 <= j < |v| ==> row[j] == (v[j] + v[i]) / 2.0
  {
    seq(|v|, j requires 0 <= j < |v| => (v[j] + v[i]) / 2.0)
  }

  /** `(a * b)**0.5`. */
  function GeometricMean(a: real, b: real, sqrt: real -> real): real
  {
    Sqrt(sqrt, a * b)
  }

  function RootRow(v: seq<real>, i: nat, sqrt: real -> real): (row: seq<real>)
    requires i < |v|
    ensures |row| == |v|
    ensures forall j :: 0 <= j < |v| ==> row[j] == GeometricMean(v[j], v[i], sqrt)
  {
    seq(|v|, j requires 0 <= j < |v| => GeometricMean(v[j], v[i], sqrt))
  }

  /** Entry `[i][j]` lies midway between `v[i]` and `v[j]`; the diagonal is `v`. */
  function ArithmeticMeans(v: seq<real>): (m: seq<seq<real>>)
    ensures IsSquare(m, |v|)
    ensures forall i, j :: 0 <= i < |v| && 0 <= j < |v| ==> m[i][j] - v[i] == v[j] - m[i][j]
    ensures forall i, j :: 0 <= i < |v| && 0 <= j < |v| ==> m[i][j] == m[j][i]
    ensures forall i :: 0 <= i < |v| ==> m[i][i] == v[i]
  {
    seq(|v|, i requires 0 <= i < |v| => MeanRow(v, i))
  }

  lemma RootSymmetric(v: seq<real>, sqrt: real -> real, i: nat, j: nat)
    requires i < |v| && j < |v|
    ensures RootRow(v, i, sqrt)[j] == RootRow(v, j, sqrt)[i]
  {
    assert v[j] * v[i] == v[i] * v[j];
  }

  lemma RootEntry(v: seq<real>, sqrt: real -> real, i: nat, j: nat)
    requires i < |v| && j < |v| && IsSqrt(sqrt) && v[i] * v[j] >= 0.0
    ensures RootRow(v, i, sqrt)[j] >= 0.0
    ensures RootRow(v, i, sqrt)[j] * RootRow(v, i, sqrt)[j] == v[i] * v[j]
  {
    assert v[j] * v[i] == v[i] * v[j];
  }

  lemma RootDiagonal(v: seq<real>, sqrt: real -> real, i: nat)
    requires i < |v| && IsSqrt(sqrt) && v[i] >= 0.0
    ensures RootRow(v, i, sqrt)[i] == v[i]
  {
    GeometricMeanOfSelf(v[i], sqrt);
  }

  lemma GeometricMeanOfSelf(e: real, sqrt: real -> real)
    requires IsSqrt(sqrt) && e >= 0.0
    ensures GeometricMean(e, e, sqrt) == e
  {
    SqrtOfSquare(sqrt, e);
  }

  /**
   * Entry `[i][j]` is the non-negative number whose square is `v[i] * v[j]`, where
   * that product is non-negative; the diagonal reproduces the non-negative entries of `v`.
   */
  function GeometricMeans(v: seq<real>, sqrt: real -> real): (m: seq<seq<real>>)
    ensures IsSquare(m, |v|)
    ensures forall i, j :: 0 <= i < |v| && 0 <= j < |v| ==> m[i][j] == m[j][i]
    ensures IsSqrt(sqrt) ==> forall i, j :: 0 <= i < |v| && 0 <= j < |v| && v[i] * v[j] >= 0.0 ==>
      m[i][j] >= 0.0 && m[i][j] * m[i][j] == v[i] * v[j]
    ensures IsSqrt(sqrt) ==> forall i :: 0 <= i < |v| && v[i] >= 0.0 ==> m[i][i] == v[i]
  {
    var m := seq(|v|, i requires 0 <= i < |v| => RootRow(v, i, sqrt));
    GeometricMeansFacts(v, sqrt, m);
    m
  }

  lemma GeometricMeansFacts(v: seq<real>, sqrt: real -> real, m: seq<seq<real>>)
    requires IsSquare(m, |v|) && forall i :: 0 <= i < |v| ==> m[i] == RootRow(v, i, sqrt)
    ensures forall i, j :: 0 <= i < |v| && 0 <= j < |v| ==> m[i][j] == m[j][i]
    ensures IsSqrt(sqrt) ==> forall i, j :: 0 <= i < |v| && 0 <= j < |v| && v[i] * v[j] >= 0.0 ==>
      m[i][j] >= 0.0 && m[i][j] * m[i][j] == v[i] * v[j]
    ensures IsSqrt(sqrt) ==> forall i :: 0 <= i < |v| && v[i] >= 0.0 ==> m[i][i] == v[i]
  {
    forall i, j | 0 <= i < |v| && 0 <= j < |v|
      ensures m[i][j] == m[j][i]
    {
      RootSymmetric(v, sqrt, i, j);
    }
    if IsSqrt(sqrt) {
      forall i, j | 0 <= i < |v| && 0 <= j < |v| && v[i] * v[j] >= 0.0
        ensures m[i][j] >= 0.0 && m[i][j] * m[i][j] == v[i] * v[j]
      {
        RootEntry(v, sqrt, i, j);
      }
      forall i | 0 <= i < |v| && v[i] >= 0.0
        ensures m[i][i] == v[i]
      {
        RootDiagonal(v, sqrt, i);
      }
    }
  }

  /**
   * Pair sigma is the arithmetic mean of the two species' sigmas, pair epsilon their
   * geometric mean; both matrices are symmetric and reproduce the species values on
   * the diagonal.
   */
  function CombineLJ(sigma: seq<real>, epsilon: seq<real>, sqrt: real -> real): (c: Combined)
    requires |sigma| == |epsilon|
    ensures IsSquare(c.sigma, |sigma|) && IsSquare(c.epsilon, |sigma|)
    ensures forall i, j :: 0 <= i < |sigma| && 0 <= j < |sigma| ==>
      c.sigma[i][j] - sigma[i] == sigma[j] - c.sigma[i][j]
    ensures forall i, j :: 0 <= i < |sigma| && 0 <= j < |sigma| ==>
      c.sigma[i][j] == c.sigma[j][i] && c.epsilon[i][j] == c.epsilon[j][i]
    ensures forall i :: 0 <= i < |sigma| ==> c.sigma[i][i] == sigma[i]
    ensures IsSqrt(sqrt) ==> forall i, j :: 0 <= i < |sigma| && 0 <= j < |sigma| && epsilon[i] * epsilon[j] >= 0.0 ==>
      c.epsilon[i][j] >= 0.0 && c.epsilon[i][j] * c.epsilon[i][j] == epsilon[i] * epsilon[j]
    ensures IsSqrt(sqrt) ==> forall i :: 0 <= i < |sigma| && epsilon[i] >= 0.0 ==> c.epsilon[i][i] == epsilon[i]
  {
    Combined(ArithmeticMeans(sigma), GeometricMeans(epsilon, sqrt))
  }
}
