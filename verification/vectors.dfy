/** Cartesian 3-vectors, 3x3 cell matrices and sums of force rows. */
module Vectors {

  /** Three values, one per Cartesian axis: a position, a force, a cell row, a pbc flag triple. */
  datatype Triple<T> = Triple(x: T, y: T, z: T) {

    /** Component `i`, as `v[i]` reads it. */
    function At(i: nat): T
      requires i < 3
    {
      if i == 0 then x else if i == 1 then y else z
    }
  }

  type Vec3 = Triple<real>

  /** A cell matrix, row by row. */
  datatype Mat3 = Mat3(x: Vec3, y: Vec3, z: Vec3)

  const Zero: Vec3 := Triple(0.0, 0.0, 0.0)

  function Add(a: Vec3, b: Vec3): Vec3
  {
    Triple(a.x + b.x, a.y + b.y, a.z + b.z)
  }

  function Sub(a: Vec3, b: Vec3): Vec3
  {
    Triple(a.x - b.x, a.y - b.y, a.z - b.z)
  }

  function Scale(s: real, a: Vec3): Vec3
  {
    Triple(s * a.x, s * a.y, s * a.z)
  }

  /**
   * `a * b`. Squares and cubes are spelled through this function, so the solver meets
   * every product of a value with itself in one and the same form.
   */
  function Times(a: real, b: real): real
  {
    a * b
  }

  function Square(s: real): real
  {
    Times(s, s)
  }

  /** The product of two positive numbers is positive. */
  lemma TimesPositive(a: real, b: real)
    requires a > 0.0 && b > 0.0
    ensures a * b > 0.0 && Times(a, b) > 0.0
  {
  }

  /** A square is never negative, and positive unless its base is zero. */
  lemma SquareSign(s: real)
    ensures Square(s) >= 0.0
    ensures s != 0.0 ==> Square(s) > 0.0
  {
    if s > 0.0 {
      TimesPositive(s, s);
    } else if s < 0.0 {
      TimesPositive(-s, -s);
      assert Times(-s, -s) == Times(s, s);
    }
  }

  /** Squared length, `(D**2).sum()`. */
  function Norm2(a: Vec3): real
  {
    Square(a.x) + Square(a.y) + Square(a.z)
  }

  function Neg(a: Vec3): Vec3
  {
    Triple(-a.x, -a.y, -a.z)
  }

  /** The squared length is never negative, and zero only for the zero vector. */
  lemma Norm2Sign(a: Vec3)
    ensures Norm2(a) >= 0.0
    ensures a != Zero ==> Norm2(a) > 0.0
  {
    SquareSign(a.x);
    SquareSign(a.y);
    SquareSign(a.z);
  }

  lemma Norm2Neg(a: Vec3)
    ensures Norm2(Neg(a)) == Norm2(a)
  {
    assert Times(-a.x, -a.x) == Times(a.x, a.x);
    assert Times(-a.y, -a.y) == Times(a.y, a.y);
    assert Times(-a.z, -a.z) == Times(a.z, a.z);
  }

  /** `cell.diagonal()`. */
  function Diagonal(c: Mat3): Vec3
  {
    Triple(c.x.x, c.y.y, c.z.z)
  }

  /** `cell == np.diag(cell.diagonal())` holds entrywise. */
  predicate IsDiagonal(c: Mat3)
  {
    c.x.y == 0.0 && c.x.z == 0.0 && c.y.x == 0.0 && c.y.z == 0.0 && c.z.x == 0.0 && c.z.y == 0.0
  }

  /** Vector sum of a list of force rows. */
  function Sum(s: seq<Vec3>): Vec3
  {
    if |s| == 0 then Zero else Add(Sum(s[..|s| - 1]), s[|s| - 1])
  }

  /** `np.zeros((n, 3))`. */
  function Zeros(n: nat): (r: seq<Vec3>)
    ensures |r| == n
    ensures forall k :: 0 <= k < n ==> r[k] == Zero
  {
    seq(n, _ => Zero)
  }

  /** Entrywise sum of two equally long lists of rows, numpy's `a + b`. */
  function AddAll(a: seq<Vec3>, b: seq<Vec3>): (r: seq<Vec3>)
    requires |a| == |b|
    ensures |r| == |a|
    ensures forall k :: 0 <= k < |a| ==> r[k] == Add(a[k], b[k])
  {
    seq(|a|, k requires 0 <= k < |a| => Add(a[k], b[k]))
  }

  /** Every row scaled by `s`. */
  function ScaleAll(s: real, a: seq<Vec3>): (r: seq<Vec3>)
    ensures |r| == |a|
    ensures forall k :: 0 <= k < |a| ==> r[k] == Scale(s, a[k])
  {
    seq(|a|, k requires 0 <= k < |a| => Scale(s, a[k]))
  }

  lemma {:induction false} SumZeros(n: nat)
    ensures Sum(Zeros(n)) == Zero
  {
    if n > 0 {
      assert Zeros(n)[..n - 1] == Zeros(n - 1);
      SumZeros(n - 1);
    }
  }

  /** Overwriting one row changes the sum by exactly the change of that row. */
  lemma {:induction false} SumReplace(s: seq<Vec3>, k: nat, v: Vec3)
    requires k < |s|
    ensures Sum(s[k := v]) == Add(Sub(Sum(s), s[k]), v)
  {
    var n := |s| - 1;
    if k == n {
      assert s[k := v][..n] == s[..n];
    } else {
      assert s[k := v][..n] == s[..n][k := v];
      SumReplace(s[..n], k, v);
    }
  }

  /** Adding `v` to one row adds `v` to the sum. */
  lemma SumAddTo(s: seq<Vec3>, k: nat, v: Vec3)
    requires k < |s|
    ensures Sum(s[k := Add(s[k], v)]) == Add(Sum(s), v)
  {
    SumReplace(s, k, Add(s[k], v));
  }

  /** Subtracting `v` from one row subtracts `v` from the sum. */
  lemma SumSubFrom(s: seq<Vec3>, k: nat, v: Vec3)
    requires k < |s|
    ensures Sum(s[k := Sub(s[k], v)]) == Sub(Sum(s), v)
  {
    SumReplace(s, k, Sub(s[k], v));
  }

  /** Summing entrywise sums of rows is adding the two sums. */
  lemma {:induction false} SumAddAll(a: seq<Vec3>, b: seq<Vec3>)
    requires |a| == |b|
    ensures Sum(AddAll(a, b)) == Add(Sum(a), Sum(b))
  {
    if |a| > 0 {
      var n := |a| - 1;
      assert AddAll(a, b)[..n] == AddAll(a[..n], b[..n]);
      SumAddAll(a[..n], b[..n]);
    }
  }

  /** Rows `3k`, `3k+1`, `3k+2`: the three sites of molecule `k`. */
  function Triplet<T>(s: seq<T>, k: nat): Triple<T>
    requires 3 * k + 2 < |s|
  {
    Triple(s[3 * k], s[3 * k + 1], s[3 * k + 2])
  }

  /** Two lists of whole triplets that agree molecule by molecule are equal. */
  lemma TripletsDetermine(g: seq<Vec3>, h: seq<Vec3>)
    requires |g| == |h| && |g| % 3 == 0
    requires forall k :: 0 <= k < |g| / 3 ==> Triplet(g, k) == Triplet(h, k)
    ensures g == h
  {
    forall i | 0 <= i < |g|
      ensures g[i] == h[i]
    {
      var k := i / 3;
      assert Triplet(g, k) == Triplet(h, k);
    }
  }

  // ---- The three rows of one molecule ----

  const NoRows: Triple<Vec3> := Triple(Zero, Zero, Zero)

  /** Row-by-row sum of two molecules' rows. */
  function AddRows(a: Triple<Vec3>, b: Triple<Vec3>): Triple<Vec3>
  {
    Triple(Add(a.x, b.x), Add(a.y, b.y), Add(a.z, b.z))
  }

  /** Row-by-row difference of two molecules' rows. */
  function SubRows(a: Triple<Vec3>, b: Triple<Vec3>): Triple<Vec3>
  {
    Triple(Sub(a.x, b.x), Sub(a.y, b.y), Sub(a.z, b.z))
  }

  /** `v` on row `o` of a molecule and zero on its other two rows. */
  function OnRow(o: nat, v: Vec3): Triple<Vec3>
    requires o < 3
  {
    if o == 0 then Triple(v, Zero, Zero) else if o == 1 then Triple(Zero, v, Zero) else Triple(Zero, Zero, v)
  }

  /** The force on a molecule as a whole: its three rows added. */
  function RowsTotal(b: Triple<Vec3>): Vec3
  {
    Add(Add(b.x, b.y), b.z)
  }

  lemma AddAssoc(a: Vec3, b: Vec3, c: Vec3)
    ensures Add(Add(a, b), c) == Add(a, Add(b, c))
  {
    assert Add(Add(a, b), c).x == Add(a, Add(b, c)).x;
    assert Add(Add(a, b), c).y == Add(a, Add(b, c)).y;
    assert Add(Add(a, b), c).z == Add(a, Add(b, c)).z;
  }

  lemma SubSub(a: Vec3, b: Vec3, c: Vec3)
    ensures Sub(Sub(a, b), c) == Sub(a, Add(b, c))
  {
    assert Sub(Sub(a, b), c).x == Sub(a, Add(b, c)).x;
    assert Sub(Sub(a, b), c).y == Sub(a, Add(b, c)).y;
    assert Sub(Sub(a, b), c).z == Sub(a, Add(b, c)).z;
  }

  lemma AddZero(a: Vec3)
    ensures Add(a, Zero) == a && Add(Zero, a) == a && Sub(a, Zero) == a
  {
  }

  lemma AddRowsAssoc(a: Triple<Vec3>, b: Triple<Vec3>, c: Triple<Vec3>)
    ensures AddRows(AddRows(a, b), c) == AddRows(a, AddRows(b, c))
  {
    AddAssoc(a.x, b.x, c.x);
    AddAssoc(a.y, b.y, c.y);
    AddAssoc(a.z, b.z, c.z);
  }

  lemma SubRowsSub(a: Triple<Vec3>, b: Triple<Vec3>, c: Triple<Vec3>)
    ensures SubRows(SubRows(a, b), c) == SubRows(a, AddRows(b, c))
  {
    SubSub(a.x, b.x, c.x);
    SubSub(a.y, b.y, c.y);
    SubSub(a.z, b.z, c.z);
  }

  lemma NoRowsNeutral(a: Triple<Vec3>)
    ensures AddRows(a, NoRows) == a && AddRows(NoRows, a) == a && SubRows(a, NoRows) == a
  {
    AddZero(a.x);
    AddZero(a.y);
    AddZero(a.z);
  }

  /** The total of a row-by-row sum is the sum of the totals. */
  lemma RowsTotalAdd(a: Triple<Vec3>, b: Triple<Vec3>)
    ensures RowsTotal(AddRows(a, b)) == Add(RowsTotal(a), RowsTotal(b))
  {
    assert RowsTotal(AddRows(a, b)).x == Add(RowsTotal(a), RowsTotal(b)).x;
    assert RowsTotal(AddRows(a, b)).y == Add(RowsTotal(a), RowsTotal(b)).y;
    assert RowsTotal(AddRows(a, b)).z == Add(RowsTotal(a), RowsTotal(b)).z;
  }

  /** `s[k] += v`: only row `k` changes, and the sum grows by `v`. */
  function AddAt(s: seq<Vec3>, k: nat, v: Vec3): (r: seq<Vec3>)
    requires k < |s|
    ensures |r| == |s|
    ensures Sum(r) == Add(Sum(s), v)
    ensures forall i :: 0 <= i < |s| && i != k ==> r[i] == s[i]
    ensures v == Zero ==> r == s
  {
    SumAddTo(s, k, v);
    s[k := Add(s[k], v)]
  }

  /** `s[k] -= v`: only row `k` changes, and the sum shrinks by `v`. */
  function SubAt(s: seq<Vec3>, k: nat, v: Vec3): (r: seq<Vec3>)
    requires k < |s|
    ensures |r| == |s|
    ensures Sum(r) == Sub(Sum(s), v)
    ensures forall i :: 0 <= i < |s| && i != k ==> r[i] == s[i]
    ensures v == Zero ==> r == s
  {
    SumSubFrom(s, k, v);
    s[k := Sub(s[k], v)]
  }

  /** Sum of a list of reals, `np.sum`. */
  function Total(s: seq<real>): real
  {
    if |s| == 0 then 0.0 else Total(s[..|s| - 1]) + s[|s| - 1]
  }

  /** Entrywise sum of two equally long lists of reals. */
  function AddReals(a: seq<real>, b: seq<real>): (r: seq<real>)
    requires |a| == |b|
    ensures |r| == |a|
    ensures forall k :: 0 <= k < |a| ==> r[k] == a[k] + b[k]
  {
    seq(|a|, k requires 0 <= k < |a| => a[k] + b[k])
  }

  /** Summing entrywise sums is summing the two sums. */
  lemma {:induction false} TotalAdd(a: seq<real>, b: seq<real>)
    requires |a| == |b|
    ensures Total(AddReals(a, b)) == Total(a) + Total(b)
  {
    if |a| > 0 {
      var n := |a| - 1;
      assert AddReals(a, b)[..n] == AddReals(a[..n], b[..n]);
      TotalAdd(a[..n], b[..n]);
    }
  }

  /** A list of zeros sums to zero. */
  lemma {:induction false} TotalZero(s: seq<real>)
    requires forall k :: 0 <= k < |s| ==> s[k] == 0.0
    ensures Total(s) == 0.0
  {
    if |s| > 0 {
      TotalZero(s[..|s| - 1]);
    }
  }

  /** Sum of the first `k` entries, accumulated from the front as a loop does. */
  function PrefixTotal(s: seq<real>, k: nat): real
    requires k <= |s|
  {
    if k == 0 then 0.0 else PrefixTotal(s, k - 1) + s[k - 1]
  }

  /** The running sum of the first `k` entries is the sum of that prefix. */
  lemma {:induction false} PrefixTotalIsTotal(s: seq<real>, k: nat)
    requires k <= |s|
    ensures PrefixTotal(s, k) == Total(s[..k])
  {
    if k > 0 {
      PrefixTotalIsTotal(s, k - 1);
      assert s[..k][..k - 1] == s[..k - 1];
    }
  }
}
