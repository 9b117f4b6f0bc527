/**
 * Constants of the acetonitrile model of Guardia et al.: site charges, Lennard-Jones
 * parameters, bond lengths, and the rigid-body coefficients derived from them.
 * Unit conversions, atomic masses and the square root are not fixed numbers here:
 * they are carried by a `Units` value whose validity says only what the model needs.
 */
module ForceField {
  import opened Vectors

  /** The three sites of an acetonitrile molecule. */
  datatype Species = Methyl | Carbon | Nitrogen

  /** The two triplet orderings, `N,C,Me` repeated or `Me,C,N` repeated. */
  datatype Layout = NCMe | MeCN {

    /** Offset of the nitrogen within each triplet (`n`). */
    function NOffset(): nat
    {
      if NCMe? then 0 else 2
    }

    /** Offset of the methyl group within each triplet (`me`). */
    function MeOffset(): nat
    {
      if NCMe? then 2 else 0
    }

    /** The species sitting at offset `o` of every triplet. */
    function SpeciesAt(o: nat): Species
      requires o < 3
    {
      if o == 1 then Carbon else if o == NOffset() then Nitrogen else Methyl
    }
  }

  const NitrogenNumber: int := 7
  const CarbonNumber: int := 6

  /** The layout the source infers from the atomic number of a triplet's first atom. */
  function LayoutFrom(firstNumber: int): (l: Layout)
    ensures l.NCMe? <==> firstNumber == NitrogenNumber
  {
    if firstNumber == NitrogenNumber then NCMe else MeCN
  }

  // Site charges, in units of the elementary charge.
  const QMe: real := 0.206
  const QC: real := 0.247
  const QN: real := -0.453

  // Lennard-Jones sigma, in Angstrom.
  const SigmaMe: real := 3.775
  const SigmaC: real := 3.650
  const SigmaN: real := 3.200

  // Lennard-Jones epsilon, in kJ/mol before conversion.
  const EpsilonMeKJ: real := 0.7824
  const EpsilonCKJ: real := 0.544
  const EpsilonNKJ: real := 0.6276

  // Bond lengths, in Angstrom.
  const RMeC: real := 1.458
  const RCN: real := 1.157
  const RMeN: real := RMeC + RCN

  // Bond-length ratios of the rigid linear molecule.
  const CMe: real := RCN / RMeN
  const CN: real := RMeC / RMeN

  /** `x**0.5` computed by the host's square root `f`. */
  function Sqrt(f: real -> real, x: real): real
  {
    f(x)
  }

  /** `f` is a square root on the non-negative reals. */
  ghost predicate IsSqrt(f: real -> real)
  {
    forall x :: 0.0 <= x ==> 0.0 <= Sqrt(f, x) && Sqrt(f, x) * Sqrt(f, x) == x
  }

  /** `f` maps positive numbers to positive numbers: all a distance needs of a square root. */
  ghost predicate PositiveOnPositives(f: real -> real)
  {
    forall x :: x > 0.0 ==> Sqrt(f, x) > 0.0
  }

  lemma SqrtPositiveOnPositives(f: real -> real)
    requires IsSqrt(f)
    ensures PositiveOnPositives(f)
  {
    forall x | x > 0.0
      ensures Sqrt(f, x) > 0.0
    {
      SqrtPositive(f, x);
    }
  }

  /** The square root of a positive number is positive. */
  lemma SqrtPositive(f: real -> real, x: real)
    requires IsSqrt(f) && x > 0.0
    ensures Sqrt(f, x) > 0.0
  {
    assert 0.0 <= Sqrt(f, x) && Sqrt(f, x) * Sqrt(f, x) == x;
  }

  /** On the non-negative reals the square root undoes squaring. */
  lemma SqrtOfSquare(f: real -> real, e: real)
    requires IsSqrt(f) && e >= 0.0
    ensures Sqrt(f, e * e) == e
  {
    var s := Sqrt(f, e * e);
    assert 0.0 <= s && s * s == e * e;
    if s < e {
      SquareStrictMono(s, e);
    } else if e < s {
      SquareStrictMono(e, s);
    }
  }

  lemma SquareStrictMono(a: real, b: real)
    requires 0.0 <= a < b
    ensures a * a < b * b
  {
    assert b * b - a * a == (b - a) * (b + a);
    TimesPositive(b - a, b + a);
  }

  /**
   * The host's unit system, atomic masses (of H, C and N) and square root; the model
   * fixes none of their values.
   */
  datatype Units = Units(sqrt: real -> real, hartree: real, bohr: real, kJ: real, mol: real,
                         massH: real, massC: real, massN: real) {

    predicate Positive()
    {
      hartree > 0.0 && bohr > 0.0 && kJ > 0.0 && mol > 0.0 && massH > 0.0 && massC > 0.0 && massN > 0.0
    }

    ghost predicate Valid()
    {
      Positive() && IsSqrt(sqrt)
    }

    /** The electrostatic constant, `Hartree * Bohr`. */
    function Kc(): real
    {
      hartree * bohr
    }

    /** Pseudo-atom mass of the methyl group: one carbon and three hydrogens. */
    function MassMe(): real
    {
      massC + 3.0 * massH
    }

    function MCN(): real { massC * massN }
    function MMeC(): real { massC * MassMe() }
    function MMeN(): real { massN * MassMe() }

    /** Common denominator of the two mass-weighted normalisers. */
    function Denominator(): (d: real)
      requires Positive()
      ensures d > 0.0
    {
      assert MCN() > 0.0 && MMeC() > 0.0 && MMeN() > 0.0;
      CMe * CMe * MCN() + CN * CN * MMeC() + MMeN()
    }

    function NMe(): real
      requires Positive()
    {
      CMe / Denominator()
    }

    function NN(): real
      requires Positive()
    {
      CN / Denominator()
    }
  }

  function SpeciesCharge(s: Species): real
  {
    match s
    case Methyl => QMe
    case Carbon => QC
    case Nitrogen => QN
  }

  function SpeciesSigma(s: Species): real
  {
    match s
    case Methyl => SigmaMe
    case Carbon => SigmaC
    case Nitrogen => SigmaN
  }

  function SpeciesEpsilon(s: Species, u: Units): real
    requires u.Positive()
  {
    match s
    case Methyl => EpsilonMeKJ * u.kJ / u.mol
    case Carbon => EpsilonCKJ * u.kJ / u.mol
    case Nitrogen => EpsilonNKJ * u.kJ / u.mol
  }

  /** A molecule carries no net charge. */
  lemma MoleculeNeutral()
    ensures SpeciesCharge(Methyl) + SpeciesCharge(Carbon) + SpeciesCharge(Nitrogen) == 0.0
  {
  }

  /** The sigma vector as the source builds it, `[sigmaMe, sigmaC, sigmaN]`, whatever the layout. */
  const SigmaAsWritten: seq<real> := [SigmaMe, SigmaC, SigmaN]

  /** The epsilon vector as the source builds it, `[epsilonMe, epsilonC, epsilonN]`. */
  function EpsilonAsWritten(u: Units): seq<real>
    requires u.Positive()
  {
    [SpeciesEpsilon(Methyl, u), SpeciesEpsilon(Carbon, u), SpeciesEpsilon(Nitrogen, u)]
  }

  /**
   * The source indexes the sigma vector by site offset, but orders it for `Me,C,N` only:
   * with the `N,C,Me` layout the nitrogen site gets the methyl sigma and the other way round.
   */
  lemma SigmaAsWrittenMismatch()
    ensures SigmaAsWritten[NCMe.NOffset()] != SpeciesSigma(NCMe.SpeciesAt(NCMe.NOffset()))
    ensures SigmaAsWritten[NCMe.MeOffset()] != SpeciesSigma(NCMe.SpeciesAt(NCMe.MeOffset()))
    ensures forall o :: 0 <= o < 3 ==> SigmaAsWritten[o] == SpeciesSigma(MeCN.SpeciesAt(o))
  {
  }

  /** Sigma per site offset, ordered to follow the layout. */
  function SiteSigma(layout: Layout): (r: seq<real>)
    ensures |r| == 3
    ensures forall o :: 0 <= o < 3 ==> r[o] == SpeciesSigma(layout.SpeciesAt(o))
  {
    if layout.MeCN? then [SigmaMe, SigmaC, SigmaN] else [SigmaN, SigmaC, SigmaMe]
  }

  /** Epsilon per site offset, ordered to follow the layout. */
  function SiteEpsilon(layout: Layout, u: Units): (r: seq<real>)
    requires u.Positive()
    ensures |r| == 3
    ensures forall o :: 0 <= o < 3 ==> r[o] == SpeciesEpsilon(layout.SpeciesAt(o), u)
  {
    var me := SpeciesEpsilon(Methyl, u);
    var c := SpeciesEpsilon(Carbon, u);
    var n := SpeciesEpsilon(Nitrogen, u);
    if layout.MeCN? then [me, c, n] else [n, c, me]
  }

  /** Every epsilon is positive, so every product of two of them has a real square root. */
  lemma SiteEpsilonPositive(layout: Layout, u: Units)
    requires u.Positive()
    ensures forall o :: 0 <= o < 3 ==> SiteEpsilon(layout, u)[o] > 0.0
  {
  }
}
