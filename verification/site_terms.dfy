/**
 * The two site-site interactions of the ACN potential at a displacement `D` between a
 * site `j` of one molecule and a site `i` of another: Coulomb between the site charges,
 * and 12-6 Lennard-Jones with the combined parameters of the two sites.
 */
module SiteTerms {
  import opened Vectors
  import opened ForceField
  import opened Combining
  import opened PairLoop

  /**
   * What the site terms read: the charges of the three sites of a triplet, the combined
   * Lennard-Jones matrices `sigma_c` and `epsilon_c`, the electrostatic constant `k_c`,
   * and the host's square root.
   */
  datatype SiteParams = SiteParams(charges: seq<real>, sigma: seq<seq<real>>, epsilon: seq<seq<real>>,
                                   kc: real, sqrt: real -> real) {

    predicate Shaped()
    {
      |charges| == 3 && IsSquare(sigma, 3) && IsSquare(epsilon, 3)
    }

    /** Both matrices are symmetric, as the combining rule makes them. */
    predicate Symmetric()
      requires Shaped()
    {
      forall a, b :: 0 <= a < 3 && 0 <= b < 3 ==> sigma[a][b] == sigma[b][a] && epsilon[a][b] == epsilon[b][a]
    }
  }

  /** The terms can be evaluated at `D`: neither `r2` nor `r` is zero. */
  predicate Evaluable(p: SiteParams, j: nat, i: nat, D: Vec3)
  {
    p.Shaped() && j < 3 && i < 3 && Norm2(D) != 0.0 && Sqrt(p.sqrt, Norm2(D)) != 0.0
  }

  /** `r = r2**0.5`. */
  function Distance(p: SiteParams, D: Vec3): real
  {
    Sqrt(p.sqrt, Norm2(D))
  }

  function Cube(x: real): real
  {
    Times(Square(x), x)
  }

  /** `c6 = (sigma**2 / r2)**3`. */
  function C6(s: real, r2: real): real
    requires r2 != 0.0
  {
    Cube(Square(s) / r2)
  }

  /** `4 epsilon (c12 - c6)` with `c12 = c6**2`. */
  function LJEnergy(eps: real, c6: real): real
  {
    4.0 * eps * (Square(c6) - c6)
  }

  /** `24 epsilon (2 c12 - c6) / r2`: the factor that turns `D` into the force. */
  function LJFactor(eps: real, c6: real, r2: real): real
    requires r2 != 0.0
  {
    24.0 * eps * (2.0 * Square(c6) - c6) / r2
  }

  /**
   * `e` of one site pair. The Coulomb energy times the distance is `q_j q_i k_c`; the
   * Lennard-Jones energy of the combined parameters vanishes at `r = sigma`.
   */
  function SiteEnergy(p: SiteParams, t: Term, j: nat, i: nat, D: Vec3): (e: real)
    requires Evaluable(p, j, i, D)
    ensures t.Coulomb? ==> e * Distance(p, D) == p.charges[j] * p.charges[i] * p.kc
    ensures t.LennardJones? && Norm2(D) == Square(p.sigma[i][j]) ==> e == 0.0
  {
    match t
    case Coulomb =>
      QuotientTimes(p.charges[j] * p.charges[i], Distance(p, D), p.kc);
      p.charges[j] * p.charges[i] / Distance(p, D) * p.kc
    case LennardJones =>
      LJZeroAtSigma(p.epsilon[i][j], p.sigma[i][j], Norm2(D));
      LJEnergy(p.epsilon[i][j], C6(p.sigma[i][j], Norm2(D)))
  }

  /**
   * The force factor of one site pair, the multiple of `D` that is the force on the
   * second site: the Coulomb factor times `r2` is the Coulomb energy, and the
   * Lennard-Jones factor vanishes exactly where `c6 = 1/2`, the minimum at
   * `r = 2**(1/6) sigma`.
   */
  function SiteFactor(p: SiteParams, t: Term, j: nat, i: nat, D: Vec3): (g: real)
    requires Evaluable(p, j, i, D)
    ensures t.Coulomb? ==> g * Norm2(D) == SiteEnergy(p, Coulomb, j, i, D)
    ensures t.LennardJones? && p.epsilon[i][j] != 0.0 && p.sigma[i][j] != 0.0 ==>
      (g == 0.0 <==> C6(p.sigma[i][j], Norm2(D)) == 0.5)
  {
    match t
    case Coulomb =>
      QuotientTimes(SiteEnergy(p, Coulomb, j, i, D), Norm2(D), 1.0);
      SiteEnergy(p, Coulomb, j, i, D) / Norm2(D)
    case LennardJones =>
      Norm2Sign(D);
      LJForceZero(p.epsilon[i][j], p.sigma[i][j], Norm2(D));
      LJFactor(p.epsilon[i][j], C6(p.sigma[i][j], Norm2(D)), Norm2(D))
  }

  lemma QuotientTimes(a: real, b: real, k: real)
    requires b != 0.0
    ensures a / b * k * b == a * k
  {
    assert a / b * b == a;
    assert a / b * k * b == (a / b * b) * k;
  }

  /**
   * The site-site law the pair loop evaluates: defined wherever the site terms can be
   * evaluated, and there giving their energy and force factor. With a true square root
   * that is every site pair at a non-zero displacement.
   */
  function AcnLaw(p: SiteParams): (l: Law)
    ensures forall t: Term, j: nat, i: nat, D: Vec3 :: Evaluable(p, j, i, D) ==>
      && l.energy.requires(t, j, i, D) && l.factor.requires(t, j, i, D)
      && l.energy(t, j, i, D) == SiteEnergy(p, t, j, i, D) && l.factor(t, j, i, D) == SiteFactor(p, t, j, i, D)
    ensures p.Shaped() && IsSqrt(p.sqrt) ==>
      forall t: Term, j: nat, i: nat, D: Vec3 :: j < 3 && i < 3 && D != Zero ==>
        l.energy.requires(t, j, i, D) && l.factor.requires(t, j, i, D)
  {
    AllApartEvaluable(p);
    var energy := (t: Term, j: nat, i: nat, D: Vec3) requires Evaluable(p, j, i, D) => SiteEnergy(p, t, j, i, D);
    var factor := (t: Term, j: nat, i: nat, D: Vec3) requires Evaluable(p, j, i, D) => SiteFactor(p, t, j, i, D);
    Law(energy, factor)
  }

  lemma AllApartEvaluable(p: SiteParams)
    ensures p.Shaped() && IsSqrt(p.sqrt) ==>
      forall j: nat, i: nat, D: Vec3 :: j < 3 && i < 3 && D != Zero ==> Evaluable(p, j, i, D)
  {
    if p.Shaped() && IsSqrt(p.sqrt) {
      forall j: nat, i: nat, D: Vec3 | j < 3 && i < 3 && D != Zero
        ensures Evaluable(p, j, i, D)
      {
        EvaluableApart(p, j, i, D);
      }
    }
  }

  /** With a true square root every non-zero displacement can be evaluated. */
  lemma EvaluableApart(p: SiteParams, j: nat, i: nat, D: Vec3)
    requires p.Shaped() && IsSqrt(p.sqrt) && j < 3 && i < 3 && D != Zero
    ensures Evaluable(p, j, i, D)
    ensures Distance(p, D) > 0.0
  {
    Norm2Sign(D);
    SqrtPositive(p.sqrt, Norm2(D));
  }

  lemma DivSelf(y: real)
    requires y != 0.0
    ensures y / y == 1.0
  {
  }

  lemma LJZeroAtSigma(eps: real, s: real, r2: real)
    requires r2 != 0.0
    ensures r2 == Square(s) ==> LJEnergy(eps, C6(s, r2)) == 0.0
  {
    if r2 == Square(s) {
      DivSelf(r2);
      assert C6(s, r2) == Cube(1.0) == 1.0;
    }
  }

  lemma TimesAboveOne(a: real, b: real)
    requires a > 1.0 && b > 1.0
    ensures Times(a, b) > 1.0
  {
    assert a * b > a;
  }

  lemma TimesBelowOne(a: real, b: real)
    requires 0.0 < a < 1.0 && 0.0 < b < 1.0
    ensures Times(a, b) < 1.0
  {
    assert (1.0 - a) * b > 0.0;
  }

  /** On the positive reals cubing keeps the sign and the side of 1. */
  lemma CubeSides(x: real)
    requires x > 0.0
    ensures Cube(x) > 0.0
    ensures x > 1.0 <==> Cube(x) > 1.0
    ensures x < 1.0 <==> Cube(x) < 1.0
  {
    TimesPositive(x, x);
    TimesPositive(Square(x), x);
    if x > 1.0 {
      TimesAboveOne(x, x);
      TimesAboveOne(Square(x), x);
    } else if x < 1.0 {
      TimesBelowOne(x, x);
      TimesBelowOne(Square(x), x);
    }
  }

  lemma QuotientSides(a: real, b: real)
    requires a > 0.0 && b > 0.0
    ensures a / b > 0.0
    ensures a / b > 1.0 <==> a > b
    ensures a / b < 1.0 <==> a < b
  {
    var q := a / b;
    assert q * b == a;
    assert a - b == (q - 1.0) * b;
    PositiveTimes(b, q - 1.0);
    assert (q - 1.0) * b == b * (q - 1.0);
    PositiveTimes(b, q);
    assert q * b == b * q;
  }

  /** `c6**2 - c6` has the sign of `c6 - 1` for positive `c6`. */
  lemma SquareMinusSelf(c: real)
    requires c > 0.0
    ensures Square(c) - c > 0.0 <==> c > 1.0
    ensures Square(c) - c < 0.0 <==> c < 1.0
  {
    assert Times(c, c) - c == c * (c - 1.0);
    PositiveTimes(c, c - 1.0);
  }

  lemma PositiveTimes(a: real, b: real)
    requires a > 0.0
    ensures a * b > 0.0 <==> b > 0.0
    ensures a * b < 0.0 <==> b < 0.0
  {
    if b > 0.0 {
      assert a * b > 0.0;
    } else if b < 0.0 {
      assert a * (-b) > 0.0;
    }
  }

  /** For positive `sigma**2` and `r2`, `c6` is positive and above 1 exactly inside `r = sigma`. */
  lemma C6Sides(s: real, r2: real)
    requires s != 0.0 && r2 > 0.0
    ensures C6(s, r2) > 0.0
    ensures C6(s, r2) > 1.0 <==> r2 < Square(s)
    ensures C6(s, r2) < 1.0 <==> r2 > Square(s)
  {
    SquareSign(s);
    QuotientSides(Square(s), r2);
    CubeSides(Square(s) / r2);
  }

  /**
   * For a positive well depth the Lennard-Jones energy is repulsive (positive) exactly
   * inside `r = sigma` and attractive (negative) exactly outside it.
   */
  lemma LJSign(p: SiteParams, j: nat, i: nat, D: Vec3)
    requires Evaluable(p, j, i, D) && p.epsilon[i][j] > 0.0 && p.sigma[i][j] != 0.0
    ensures SiteEnergy(p, LennardJones, j, i, D) > 0.0 <==> Norm2(D) < Square(p.sigma[i][j])
    ensures SiteEnergy(p, LennardJones, j, i, D) < 0.0 <==> Norm2(D) > Square(p.sigma[i][j])
  {
    var c := C6(p.sigma[i][j], Norm2(D));
    Norm2Sign(D);
    C6Sides(p.sigma[i][j], Norm2(D));
    SquareMinusSelf(c);
    PositiveTimes(4.0 * p.epsilon[i][j], Square(c) - c);
  }

  lemma LJForceZero(eps: real, s: real, r2: real)
    requires r2 > 0.0
    ensures eps != 0.0 && s != 0.0 ==> (LJFactor(eps, C6(s, r2), r2) == 0.0 <==> C6(s, r2) == 0.5)
  {
    if eps != 0.0 && s != 0.0 {
      var c := C6(s, r2);
      C6Sides(s, r2);
      TwiceSquareMinusSelf(c);
      ZeroQuotient(24.0 * eps * (2.0 * Square(c) - c), r2);
      ZeroProduct(24.0 * eps, 2.0 * Square(c) - c);
    }
  }

  /** `2 c6**2 - c6` vanishes, for positive `c6`, only at `c6 = 1/2`. */
  lemma TwiceSquareMinusSelf(c: real)
    requires c > 0.0
    ensures 2.0 * Square(c) - c == 0.0 <==> c == 0.5
  {
    assert 2.0 * Times(c, c) - c == c * (2.0 * c - 1.0);
    ZeroProduct(c, 2.0 * c - 1.0);
  }

  lemma ZeroQuotient(g: real, r: real)
    requires r != 0.0
    ensures g / r == 0.0 <==> g == 0.0
  {
    assert (g / r) * r == g;
  }

  lemma ZeroProduct(a: real, b: real)
    ensures a * b == 0.0 <==> a == 0.0 || b == 0.0
  {
  }

  /**
   * Both terms treat the two sites of a pair alike: swapping the sites and reversing the
   * displacement leaves the energy and the force factor unchanged, so the forces the
   * pair exerts on its two sites are equal and opposite.
   */
  lemma SiteSymmetric(p: SiteParams, t: Term, j: nat, i: nat, D: Vec3)
    requires Evaluable(p, j, i, D) && p.Symmetric()
    ensures Evaluable(p, i, j, Neg(D))
    ensures SiteEnergy(p, t, i, j, Neg(D)) == SiteEnergy(p, t, j, i, D)
    ensures SiteFactor(p, t, i, j, Neg(D)) == SiteFactor(p, t, j, i, D)
    ensures Scale(SiteFactor(p, t, i, j, Neg(D)), Neg(D)) == Neg(Scale(SiteFactor(p, t, j, i, D), D))
  {
    Norm2Neg(D);
    assert p.charges[i] * p.charges[j] == p.charges[j] * p.charges[i];
    ScaleNeg(SiteFactor(p, t, j, i, D), D);
  }

  lemma ScaleNeg(c: real, D: Vec3)
    ensures Scale(c, Neg(D)) == Neg(Scale(c, D))
  {
    assert Scale(c, Neg(D)).x == Neg(Scale(c, D)).x;
    assert Scale(c, Neg(D)).y == Neg(Scale(c, D)).y;
    assert Scale(c, Neg(D)).z == Neg(Scale(c, D)).z;
  }

  /** Like charges repel: with positive `k_c` and a positive root the Coulomb energy has the sign of `q_j q_i`. */
  lemma CoulombSign(p: SiteParams, j: nat, i: nat, D: Vec3)
    requires Evaluable(p, j, i, D) && p.kc > 0.0 && Distance(p, D) > 0.0
    ensures SiteEnergy(p, Coulomb, j, i, D) > 0.0 <==> p.charges[j] * p.charges[i] > 0.0
    ensures SiteEnergy(p, Coulomb, j, i, D) < 0.0 <==> p.charges[j] * p.charges[i] < 0.0
  {
    var q, r := p.charges[j] * p.charges[i], Distance(p, D);
    assert q / r * r == q;
    PositiveTimes(1.0 / r, q);
    assert q / r == (1.0 / r) * q;
    PositiveTimes(p.kc, q / r);
    assert q / r * p.kc == p.kc * (q / r);
  }
}
