/** The minimum-image shift `wrap` of the ACN calculator. */
module MinimumImage {
  import opened Vectors

  /** `x` is a whole number. */
  predicate IsIntegral(x: real)
  {
    x.Floor as real == x
  }

  lemma MulLeft(L: real, x: real, y: real)
    requires L > 0.0 && x <= y
    ensures L * x <= L * y
  {
    assert L * y - L * x == L * (y - x);
  }

  lemma MulLeftStrict(L: real, x: real, y: real)
    requires L > 0.0 && x < y
    ensures L * x < L * y
  {
    assert L * y - L * x == L * (y - x);
  }

  lemma MulLeftNeg(L: real, x: real, y: real)
    requires L < 0.0 && x <= y
    ensures L * y <= L * x
  {
    assert L * x - L * y == (-L) * (y - x);
  }

  lemma MulLeftNegStrict(L: real, x: real, y: real)
    requires L < 0.0 && x < y
    ensures L * y < L * x
  {
    assert L * x - L * y == (-L) * (y - x);
  }

  /** `L * floor(a/L)` lies within one `L` of `a`, on the side of zero that `L` points to. */
  lemma FloorBoundsScaled(a: real, L: real)
    requires L != 0.0
    ensures L > 0.0 ==> 0.0 <= a - L * ((a / L).Floor as real) < L
    ensures L < 0.0 ==> L < a - L * ((a / L).Floor as real) <= 0.0
  {
    if L > 0.0 {
      FloorLowerPos(a, L);
      FloorUpperPos(a, L);
    } else {
      FloorLowerNeg(a, L);
      FloorUpperNeg(a, L);
    }
  }

  lemma FloorLowerPos(a: real, L: real)
    requires L > 0.0
    ensures 0.0 <= a - L * ((a / L).Floor as real)
  {
    var q := a / L;
    var kr := q.Floor as real;
    DivTimes(a, L);
    MulLeft(L, kr, q);
  }

  lemma FloorUpperPos(a: real, L: real)
    requires L > 0.0
    ensures a - L * ((a / L).Floor as real) < L
  {
    var q := a / L;
    var kr := q.Floor as real;
    DivTimes(a, L);
    Distribute(L, kr);
    MulLeftStrict(L, q, kr + 1.0);
  }

  lemma FloorLowerNeg(a: real, L: real)
    requires L < 0.0
    ensures a - L * ((a / L).Floor as real) <= 0.0
  {
    var q := a / L;
    var kr := q.Floor as real;
    DivTimes(a, L);
    MulLeftNeg(L, kr, q);
  }

  lemma FloorUpperNeg(a: real, L: real)
    requires L < 0.0
    ensures L < a - L * ((a / L).Floor as real)
  {
    var q := a / L;
    var kr := q.Floor as real;
    DivTimes(a, L);
    Distribute(L, kr);
    MulLeftNegStrict(L, q, kr + 1.0);
  }

  lemma DivTimes(a: real, L: real)
    requires L != 0.0
    ensures L * (a / L) == a
  {
  }

  lemma Distribute(L: real, kr: real)
    ensures L * (kr + 1.0) == L * kr + L
  {
  }

  /** Python's float `%`: the remainder takes the sign of the divisor. */
  function FloorMod(a: real, L: real): (r: real)
    requires L != 0.0
    ensures L > 0.0 ==> 0.0 <= r < L
    ensures L < 0.0 ==> L < r <= 0.0
    ensures IsIntegral((a - r) / L)
  {
    var kr := (a / L).Floor as real;
    FloorBoundsScaled(a, L);
    DivOfMultiple(kr, L);
    assert a - (a - L * kr) == L * kr;
    a - L * kr
  }

  lemma DivOfMultiple(kr: real, L: real)
    requires L != 0.0 && IsIntegral(kr)
    ensures IsIntegral((L * kr) / L)
  {
    assert (L * kr) / L == kr;
  }

  /** Shift along one periodic axis of length `L`: `(d + L/2) % L - L/2 - d`. */
  function WrapAxis(d: real, L: real): (s: real)
    requires L != 0.0
    ensures L > 0.0 ==> -L / 2.0 <= d + s < L / 2.0
    ensures L < 0.0 ==> L / 2.0 < d + s <= -L / 2.0
    ensures IsIntegral(s / L)
  {
    var r := FloorMod(d + L / 2.0, L);
    assert r - L / 2.0 - d == -(d + L / 2.0 - r);
    assert (r - L / 2.0 - d) / L == -((d + L / 2.0 - r) / L);
    var k := ((d + L / 2.0 - r) / L).Floor;
    assert (r - L / 2.0 - d) / L == (-k) as real;
    r - L / 2.0 - d
  }

  /**
   * On an axis of positive length the shift is THE whole multiple of `L` that moves `d`
   * into `[-L/2, L/2)`: any other candidate `k * L` with that property equals it.
   */
  lemma {:induction false} WrapAxisUnique(d: real, L: real, k: int)
    requires L > 0.0
    requires -L / 2.0 <= d + k as real * L < L / 2.0
    ensures WrapAxis(d, L) == k as real * L
  {
    var a := d + L / 2.0;
    var kr := k as real;
    var x := a + kr * L;
    assert 0.0 <= x < L;
    DivBounds(x, L);
    DivShift(a, L, kr);
    assert -kr <= a / L < -kr + 1.0;
    assert (a / L).Floor == -k;
    assert FloorMod(a, L) == a - L * (-kr);
    assert L * (-kr) == -(kr * L);
  }

  /** `(a + k L) / L == a / L + k`. */
  lemma DivShift(a: real, L: real, kr: real)
    requires L != 0.0
    ensures (a + kr * L) / L == a / L + kr
  {
  }

  lemma DivBounds(x: real, L: real)
    requires L > 0.0 && 0.0 <= x < L
    ensures 0.0 <= x / L < 1.0
  {
    DivNonNeg(x, L);
    DivBelowOne(x, L);
  }

  lemma DivNonNeg(x: real, L: real)
    requires L > 0.0 && 0.0 <= x
    ensures 0.0 <= x / L
  {
  }

  lemma DivBelowOne(x: real, L: real)
    requires L > 0.0 && x < L
    ensures x / L < 1.0
  {
    var q := x / L;
    DivTimes(x, L);
    if q >= 1.0 {
      MulLeft(L, 1.0, q);
    }
  }

  /** A whole quotient `s / L` makes `s` a whole multiple of `L`. */
  lemma IntegralMultiple(s: real, L: real)
    requires L != 0.0 && IsIntegral(s / L)
    ensures s == ((s / L).Floor as real) * L
  {
    DivTimes(s, L);
  }

  /** A displacement already inside `[-L/2, L/2)` is not moved. */
  lemma WrapAxisOfWrapped(d: real, L: real)
    requires L > 0.0 && -L / 2.0 <= d < L / 2.0
    ensures WrapAxis(d, L) == 0.0
  {
    WrapAxisUnique(d, L, 0);
  }

  /** Away from the `-L/2` edge the shifts of `d` and `-d` are exact negatives. */
  lemma {:induction false} WrapAxisOdd(d: real, L: real)
    requires L > 0.0
    requires d + WrapAxis(d, L) != -L / 2.0
    ensures WrapAxis(-d, L) == -WrapAxis(d, L)
  {
    var s := WrapAxis(d, L);
    var k := (s / L).Floor;
    IntegralMultiple(s, L);
    assert (-k) as real * L == -s;
    WrapAxisUnique(-d, L, -k);
  }

  /** At the edge the half-open range breaks the symmetry: `L/2` moves by `-L`, `-L/2` stays. */
  lemma {:induction false} WrapAxisEdge(L: real)
    requires L > 0.0
    ensures WrapAxis(L / 2.0, L) == -L
    ensures WrapAxis(-L / 2.0, L) == 0.0
  {
    WrapAxisUnique(L / 2.0, L, -1);
    WrapAxisUnique(-L / 2.0, L, 0);
  }

  /** Zero cell lengths divide by zero in `%`; only periodic axes compute it. */
  predicate WrapDefined(cell: Vec3, pbc: Triple<bool>)
  {
    (pbc.x ==> cell.x != 0.0) && (pbc.y ==> cell.y != 0.0) && (pbc.z ==> cell.z != 0.0)
  }

  function AxisShift(d: real, L: real, periodic: bool): real
    requires periodic ==> L != 0.0
  {
    if periodic then WrapAxis(d, L) else 0.0
  }

  /** The shift of one displacement vector, axis by axis. */
  function WrapVec(D: Vec3, cell: Vec3, pbc: Triple<bool>): (s: Vec3)
    requires WrapDefined(cell, pbc)
    ensures forall i :: 0 <= i < 3 && !pbc.At(i) ==> s.At(i) == 0.0
    ensures forall i :: 0 <= i < 3 && pbc.At(i) && cell.At(i) > 0.0 ==>
      -cell.At(i) / 2.0 <= D.At(i) + s.At(i) < cell.At(i) / 2.0 && IsIntegral(s.At(i) / cell.At(i))
  {
    Triple(AxisShift(D.x, cell.x, pbc.x), AxisShift(D.y, cell.y, pbc.y), AxisShift(D.z, cell.z, pbc.z))
  }

  /** `wrap(D, cell, pbc)`: one shift per displacement, for any number of displacements. */
  function Wrap(D: seq<Vec3>, cell: Vec3, pbc: Triple<bool>): (shift: seq<Vec3>)
    requires WrapDefined(cell, pbc)
    ensures |shift| == |D|
    ensures forall k, i :: 0 <= k < |D| && 0 <= i < 3 && !pbc.At(i) ==> shift[k].At(i) == 0.0
    ensures forall k, i :: 0 <= k < |D| && 0 <= i < 3 && pbc.At(i) && cell.At(i) > 0.0 ==>
      -cell.At(i) / 2.0 <= D[k].At(i) + shift[k].At(i) < cell.At(i) / 2.0
      && IsIntegral(shift[k].At(i) / cell.At(i))
  {
    seq(|D|, k requires 0 <= k < |D| => WrapVec(D[k], cell, pbc))
  }

  /** Wrapping a displacement that is already a minimum image returns a zero shift. */
  lemma WrapOfWrapped(D: Vec3, cell: Vec3, pbc: Triple<bool>)
    requires WrapDefined(cell, pbc)
    requires forall i :: 0 <= i < 3 && pbc.At(i) ==> cell.At(i) > 0.0 && -cell.At(i) / 2.0 <= D.At(i) < cell.At(i) / 2.0
    ensures WrapVec(D, cell, pbc) == Zero
  {
    assert pbc.x ==> cell.At(0) > 0.0 && -cell.At(0) / 2.0 <= D.At(0) < cell.At(0) / 2.0;
    assert pbc.y ==> cell.At(1) > 0.0 && -cell.At(1) / 2.0 <= D.At(1) < cell.At(1) / 2.0;
    assert pbc.z ==> cell.At(2) > 0.0 && -cell.At(2) / 2.0 <= D.At(2) < cell.At(2) / 2.0;
    if pbc.x { WrapAxisOfWrapped(D.x, cell.x); }
    if pbc.y { WrapAxisOfWrapped(D.y, cell.y); }
    if pbc.z { WrapAxisOfWrapped(D.z, cell.z); }
  }
}
