/**
 * The molecule-pair loop of `ACN.calculate`: for every pair of molecules `m < m2`, one
 * minimum-image shift taken from their carbon sites, a smooth cutoff on the carbon-carbon
 * distance, and the nine site-site Coulomb and Lennard-Jones terms.
 */
module PairLoop {
  import opened Vectors
  import opened ForceField
  import opened Cutoff
  import opened Strides

  /** The two kinds of site-site term the loop sweeps for every site `j` of molecule `m`. */
  datatype Term = Coulomb | LennardJones

  /**
   * A site-site interaction: for site `j` of one molecule and site `i` of another, at
   * displacement `D` from the first to the second, the energy `e` of the term and the
   * factor that turns `D` into the force on site `i`. The loop's bookkeeping holds
   * whatever these are.
   */
  datatype Law = Law(energy: (Term, nat, nat, Vec3) --> real, factor: (Term, nat, nat, Vec3) --> real)

  /**
   * What the loop reads: positions in triplets; the minimum-image shift `wrap` of one
   * displacement; the cutoff radius with the switching function (value and slope at a
   * carbon-carbon distance); the length of a displacement; and the site-site law.
   */
  datatype Frame = Frame(positions: seq<Vec3>, wrap: Vec3 -> Vec3, rc: real,
                         switch: real -> CutValue, length: Vec3 -> real, law: Law) {

    /** `nm = len(R)` after reshaping the positions into triplets. */
    function NumMolecules(): nat
    {
      |positions| / 3
    }

    /** Whole triplets. */
    predicate Shaped()
    {
      |positions| % 3 == 0
    }

    /** The shift of molecule `m2` relative to `m`, from their carbon-carbon displacement. */
    function Shift(m: nat, m2: nat): Vec3
      requires Shaped() && m < m2 < NumMolecules()
    {
      wrap(Sub(positions[3 * m2 + 1], positions[3 * m + 1]))
    }

    /** `D`: from site `j` of molecule `m` to site `i` of molecule `m2`, shifted. */
    function SiteDisp(m: nat, j: nat, m2: nat, i: nat): Vec3
      requires Shaped() && m < m2 < NumMolecules() && j < 3 && i < 3
    {
      Add(Sub(positions[3 * m2 + i], positions[3 * m + j]), Shift(m, m2))
    }

    /** `Dmm`: the shifted carbon-carbon displacement. */
    function CarbonDisp(m: nat, m2: nat): Vec3
      requires Shaped() && m < m2 < NumMolecules()
    {
      SiteDisp(m, 1, m2, 1)
    }

    /**
     * Frames the loop can evaluate: the switch vanishes from `rc` on, every carbon-carbon
     * distance `d` is positive, and the law can be evaluated at every site pair, so that
     * nothing divides by zero.
     */
    ghost predicate Valid()
    {
      Shaped() && Vanishes(switch, rc)
      && (forall m, m2 :: 0 <= m < m2 < NumMolecules() ==> length(CarbonDisp(m, m2)) > 0.0)
      && forall t, m, m2, j, i :: 0 <= m < m2 < NumMolecules() && j < 3 && i < 3 ==>
           law.energy.requires(t, j, i, SiteDisp(m, j, m2, i)) && law.factor.requires(t, j, i, SiteDisp(m, j, m2, i))
    }

    /** `d`: the carbon-carbon minimum-image distance. */
    function Distance(m: nat, m2: nat): real
      requires Shaped() && m < m2 < NumMolecules()
    {
      length(CarbonDisp(m, m2))
    }

    function PairCut(m: nat, m2: nat): CutValue
      requires Shaped() && m < m2 < NumMolecules()
    {
      switch(Distance(m, m2))
    }

    /** Molecules `a` and `b` are at least `rc` apart, in either order. */
    predicate Beyond(a: nat, b: nat)
      requires Shaped() && a < NumMolecules() && b < NumMolecules() && a != b
    {
      if a < b then Distance(a, b) >= rc else Distance(b, a) >= rc
    }

    /** Every other molecule is beyond the cutoff of molecule `a`. */
    predicate Isolated(a: nat)
      requires Shaped() && a < NumMolecules()
    {
      forall b :: 0 <= b < NumMolecules() && b != a ==> Beyond(a, b)
    }

    /** The energy `e` of one site pair, before the cutoff. */
    function SiteEnergy(t: Term, m: nat, j: nat, m2: nat, i: nat): real
      requires Valid() && m < m2 < NumMolecules() && j < 3 && i < 3
    {
      law.energy(t, j, i, SiteDisp(m, j, m2, i))
    }

    /** The factor that turns `D` into the force on site `i` of `m2`, before the cutoff. */
    function ForceFactor(t: Term, m: nat, j: nat, m2: nat, i: nat): real
      requires Valid() && m < m2 < NumMolecules() && j < 3 && i < 3
    {
      law.factor(t, j, i, SiteDisp(m, j, m2, i))
    }

    /** `F` for site `i` of `m2`: the cut force factor times `D`. */
    function SiteForce(t: Term, m: nat, j: nat, m2: nat, i: nat): Vec3
      requires Valid() && m < m2 < NumMolecules() && j < 3 && i < 3
    {
      Scale(ForceFactor(t, m, j, m2, i) * PairCut(m, m2).cut, SiteDisp(m, j, m2, i))
    }

    /** `e.sum(1)` for one partner molecule: site `j` of `m` against all three sites of `m2`. */
    function SiteEnergySum(t: Term, m: nat, j: nat, m2: nat): real
      requires Valid() && m < m2 < NumMolecules() && j < 3
    {
      SiteEnergy(t, m, j, m2, 0) + SiteEnergy(t, m, j, m2, 1) + SiteEnergy(t, m, j, m2, 2)
    }

    /** `Fmm`: the force the cutoff's slope puts on the carbon of `m2`. */
    function CarbonForce(t: Term, m: nat, j: nat, m2: nat): Vec3
      requires Valid() && m < m2 < NumMolecules() && j < 3
    {
      Scale(-(SiteEnergySum(t, m, j, m2) * PairCut(m, m2).dcut / Distance(m, m2)), CarbonDisp(m, m2))
    }

    /** `F.sum(axis=0).sum(axis=0)` for one partner: the three site forces of a sweep on `m2`, added. */
    function SiteForceSum(t: Term, m: nat, j: nat, m2: nat): Vec3
      requires Valid() && m < m2 < NumMolecules() && j < 3
    {
      Add(Add(SiteForce(t, m, j, m2, 0), SiteForce(t, m, j, m2, 1)), SiteForce(t, m, j, m2, 2))
    }

    /** Everything one sweep adds to molecule `m2`: the three site forces and the carbon force. */
    function Push(t: Term, m: nat, j: nat, m2: nat): Vec3
      requires Valid() && m < m2 < NumMolecules() && j < 3
    {
      Add(Add(Add(SiteForce(t, m, j, m2, 0), SiteForce(t, m, j, m2, 1)), SiteForce(t, m, j, m2, 2)),
          CarbonForce(t, m, j, m2))
    }

    /** `cut * e.sum(1)`: what sweep `(m, j, t)` adds to the energy for partner `m2`. */
    function CutEnergy(t: Term, m: nat, j: nat, m2: nat): real
      requires Valid() && m < m2 < NumMolecules() && j < 3
    {
      PairCut(m, m2).cut * SiteEnergySum(t, m, j, m2)
    }

    /**
     * The energy of a molecule pair: the cutoff times each of its nine Coulomb and nine
     * Lennard-Jones site-pair terms, summed.
     */
    function PairEnergy(m: nat, m2: nat): real
      requires Valid() && m < m2 < NumMolecules()
    {
      CutEnergy(Coulomb, m, 0, m2) + CutEnergy(LennardJones, m, 0, m2)
      + CutEnergy(Coulomb, m, 1, m2) + CutEnergy(LennardJones, m, 1, m2)
      + CutEnergy(Coulomb, m, 2, m2) + CutEnergy(LennardJones, m, 2, m2)
    }
  }

  /** The switching function and its slope are zero from `rc` on, as `Cutoff.Cutoff`'s are. */
  ghost predicate Vanishes(switch: real -> CutValue, rc: real)
  {
    forall d :: d >= rc ==> switch(d) == CutValue(0.0, 0.0)
  }

  /** A pair beyond the cutoff puts no force on any site and adds no energy. */
  lemma PairBeyondInert(f: Frame, t: Term, m: nat, j: nat, m2: nat)
    requires f.Valid() && m < m2 < f.NumMolecules() && j < 3 && f.Beyond(m, m2)
    ensures f.Push(t, m, j, m2) == Zero
    ensures f.CutEnergy(t, m, j, m2) == 0.0
  {
    BeyondForces(f, t, m, j, m2);
  }

  /** Beyond the cutoff the three site forces and the carbon force of a sweep are zero. */
  lemma BeyondForces(f: Frame, t: Term, m: nat, j: nat, m2: nat)
    requires f.Valid() && m < m2 < f.NumMolecules() && j < 3 && f.Beyond(m, m2)
    ensures f.SiteForce(t, m, j, m2, 0) == Zero && f.SiteForce(t, m, j, m2, 1) == Zero
    ensures f.SiteForce(t, m, j, m2, 2) == Zero && f.CarbonForce(t, m, j, m2) == Zero
    ensures f.PairCut(m, m2) == CutValue(0.0, 0.0)
  {
    BeyondCut(f, m, m2);
    UncutSiteForce(f, t, m, j, m2, 0);
    UncutSiteForce(f, t, m, j, m2, 1);
    UncutSiteForce(f, t, m, j, m2, 2);
    UncutCarbonForce(f, t, m, j, m2);
  }

  lemma BeyondCut(f: Frame, m: nat, m2: nat)
    requires f.Valid() && m < m2 < f.NumMolecules() && f.Beyond(m, m2)
    ensures f.PairCut(m, m2) == CutValue(0.0, 0.0)
  {
    VanishesAt(f.switch, f.rc, f.Distance(m, m2));
  }

  lemma VanishesAt(switch: real -> CutValue, rc: real, d: real)
    requires Vanishes(switch, rc) && d >= rc
    ensures switch(d) == CutValue(0.0, 0.0)
  {
  }

  lemma UncutSiteForce(f: Frame, t: Term, m: nat, j: nat, m2: nat, i: nat)
    requires f.Valid() && m < m2 < f.NumMolecules() && j < 3 && i < 3 && f.PairCut(m, m2).cut == 0.0
    ensures f.SiteForce(t, m, j, m2, i) == Zero
  {
    ScaleByZeroProduct(f.ForceFactor(t, m, j, m2, i), f.SiteDisp(m, j, m2, i));
  }

  lemma UncutCarbonForce(f: Frame, t: Term, m: nat, j: nat, m2: nat)
    requires f.Valid() && m < m2 < f.NumMolecules() && j < 3 && f.PairCut(m, m2).dcut == 0.0
    ensures f.CarbonForce(t, m, j, m2) == Zero
  {
    ZeroSlopeForce(f.SiteEnergySum(t, m, j, m2), f.Distance(m, m2), f.CarbonDisp(m, m2));
  }

  lemma ScaleByZeroProduct(c: real, D: Vec3)
    ensures Scale(c * 0.0, D) == Zero
  {
  }

  lemma ZeroSlopeForce(e: real, d: real, D: Vec3)
    requires d != 0.0
    ensures Scale(-(e * 0.0 / d), D) == Zero
  {
  }

  /** A pair beyond the cutoff adds nothing to the energy. */
  lemma PairEnergyBeyond(f: Frame, m: nat, m2: nat)
    requires f.Valid() && m < m2 < f.NumMolecules() && f.Beyond(m, m2)
    ensures f.PairEnergy(m, m2) == 0.0
  {
    BeyondCut(f, m, m2);
  }

  // ---- Energy in the loop's order, and per molecule pair ----

  /**
   * What one sweep `(m, j, t)` adds to the energy, indexed by partner: `cut * e.sum(1)` for
   * each later molecule `m2`, and nothing for the molecules up to `m`.
   */
  function SweepTerms(f: Frame, t: Term, m: nat, j: nat): (s: seq<real>)
    requires f.Valid() && m < f.NumMolecules() && j < 3
    ensures |s| == f.NumMolecules()
    ensures forall m2 :: 0 <= m2 < |s| ==> s[m2] == if m < m2 then f.CutEnergy(t, m, j, m2) else 0.0
  {
    seq(f.NumMolecules(), m2 requires 0 <= m2 < f.NumMolecules() => if m < m2 then f.CutEnergy(t, m, j, m2) else 0.0)
  }

  /** The energies of the pairs `(m, m2)` with `m < m2`, indexed by `m2`. */
  function PairTerms(f: Frame, m: nat): (s: seq<real>)
    requires f.Valid() && m < f.NumMolecules()
    ensures |s| == f.NumMolecules()
    ensures forall m2 :: 0 <= m2 < |s| ==> s[m2] == if m < m2 then f.PairEnergy(m, m2) else 0.0
  {
    seq(f.NumMolecules(), m2 requires 0 <= m2 < f.NumMolecules() => if m < m2 then f.PairEnergy(m, m2) else 0.0)
  }

  /** Energy of the pairs whose first molecule comes before `m`. */
  function EnergyBelow(f: Frame, m: nat): real
    requires f.Valid() && m <= f.NumMolecules()
  {
    if m == 0 then 0.0 else EnergyBelow(f, m - 1) + Total(PairTerms(f, m - 1))
  }

  /** The pair energy: every unordered molecule pair counted once. */
  function TotalEnergy(f: Frame): real
    requires f.Valid()
  {
    EnergyBelow(f, f.NumMolecules())
  }

  /** The six sweeps of molecule `m` for sites `0 .. j-1`, Coulomb before Lennard-Jones. */
  function SweepsEnergy(f: Frame, m: nat, j: nat): real
    requires f.Valid() && m < f.NumMolecules() && j <= 3
  {
    if j == 0 then 0.0
    else SweepsEnergy(f, m, j - 1) + Total(SweepTerms(f, Coulomb, m, j - 1)) + Total(SweepTerms(f, LennardJones, m, j - 1))
  }

  /** Summing partner by partner within each sweep gives the same energy as summing pair by pair. */
  lemma MoleculeEnergyBySweeps(f: Frame, m: nat)
    requires f.Valid() && m < f.NumMolecules()
    ensures Total(PairTerms(f, m)) == SweepsEnergy(f, m, 3)
  {
    var s1, s2 := SweepTerms(f, Coulomb, m, 0), SweepTerms(f, LennardJones, m, 0);
    var s3, s4 := SweepTerms(f, Coulomb, m, 1), SweepTerms(f, LennardJones, m, 1);
    var s5, s6 := SweepTerms(f, Coulomb, m, 2), SweepTerms(f, LennardJones, m, 2);
    var a12 := AddReals(s1, s2);
    var a123 := AddReals(a12, s3);
    var a1234 := AddReals(a123, s4);
    var a12345 := AddReals(a1234, s5);
    PairTermsBySweeps(f, m);
    TotalAdd(s1, s2);
    TotalAdd(a12, s3);
    TotalAdd(a123, s4);
    TotalAdd(a1234, s5);
    TotalAdd(a12345, s6);
    SweepsEnergyUnfold(f, m);
  }

  lemma SweepsEnergyUnfold(f: Frame, m: nat)
    requires f.Valid() && m < f.NumMolecules()
    ensures SweepsEnergy(f, m, 3)
      == Total(SweepTerms(f, Coulomb, m, 0)) + Total(SweepTerms(f, LennardJones, m, 0))
      + Total(SweepTerms(f, Coulomb, m, 1)) + Total(SweepTerms(f, LennardJones, m, 1))
      + Total(SweepTerms(f, Coulomb, m, 2)) + Total(SweepTerms(f, LennardJones, m, 2))
  {
    assert SweepsEnergy(f, m, 1) == Total(SweepTerms(f, Coulomb, m, 0)) + Total(SweepTerms(f, LennardJones, m, 0));
  }

  /** The pair energies, partner by partner, are the entrywise sums of the six sweeps' terms. */
  lemma PairTermsBySweeps(f: Frame, m: nat)
    requires f.Valid() && m < f.NumMolecules()
    ensures PairTerms(f, m) == AddReals(AddReals(AddReals(AddReals(AddReals(
      SweepTerms(f, Coulomb, m, 0), SweepTerms(f, LennardJones, m, 0)),
      SweepTerms(f, Coulomb, m, 1)), SweepTerms(f, LennardJones, m, 1)),
      SweepTerms(f, Coulomb, m, 2)), SweepTerms(f, LennardJones, m, 2))
  {
    var s1, s2 := SweepTerms(f, Coulomb, m, 0), SweepTerms(f, LennardJones, m, 0);
    var s3, s4 := SweepTerms(f, Coulomb, m, 1), SweepTerms(f, LennardJones, m, 1);
    var s5, s6 := SweepTerms(f, Coulomb, m, 2), SweepTerms(f, LennardJones, m, 2);
    var all := AddReals(AddReals(AddReals(AddReals(AddReals(s1, s2), s3), s4), s5), s6);
    var pairs := PairTerms(f, m);
    forall k | 0 <= k < |pairs|
      ensures pairs[k] == all[k]
    {
      assert all[k] == s1[k] + s2[k] + s3[k] + s4[k] + s5[k] + s6[k];
    }
  }

  /** A molecule whose later partners are all beyond the cutoff adds no energy. */
  lemma PairTermsBeyond(f: Frame, m: nat)
    requires f.Valid() && m < f.NumMolecules()
    requires forall b :: m < b < f.NumMolecules() ==> f.Beyond(m, b)
    ensures Total(PairTerms(f, m)) == 0.0
  {
    var pairs := PairTerms(f, m);
    forall m2 | 0 <= m2 < |pairs|
      ensures pairs[m2] == 0.0
    {
      if m < m2 {
        PairEnergyBeyond(f, m, m2);
      }
    }
    TotalZero(pairs);
  }

  /**
   * `E` lists, molecule by molecule, the energy of its pairs with later molecules. The
   * link to the pair terms is only used where a `PairTerms` term is at hand, so that the
   * loop's own proof never unfolds the pair energies.
   */
  ghost predicate MoleculeEnergies(f: Frame, E: seq<real>)
    requires f.Valid()
  {
    |E| == f.NumMolecules()
    && forall k {:trigger PairTerms(f, k)} :: 0 <= k < f.NumMolecules() ==> E[k] == Total(PairTerms(f, k))
  }

  lemma ListMoleculeEnergies(f: Frame) returns (E: seq<real>)
    requires f.Valid()
    ensures MoleculeEnergies(f, E)
  {
    E := seq(f.NumMolecules(), k requires 0 <= k < f.NumMolecules() => Total(PairTerms(f, k)));
  }

  /** Accumulating the molecule energies in order gives the energy of the pairs below `k`. */
  lemma {:induction false} MoleculeEnergiesAccumulate(f: Frame, E: seq<real>, k: nat)
    requires f.Valid() && MoleculeEnergies(f, E) && k <= f.NumMolecules()
    ensures PrefixTotal(E, k) == EnergyBelow(f, k)
  {
    if k > 0 {
      MoleculeEnergiesAccumulate(f, E, k - 1);
      assert E[k - 1] == Total(PairTerms(f, k - 1));
    }
  }

  /** When every pair is beyond the cutoff the pair energy is zero. */
  lemma TotalEnergyAllBeyond(f: Frame)
    requires f.Valid()
    requires forall a, b :: 0 <= a < b < f.NumMolecules() ==> f.Beyond(a, b)
    ensures TotalEnergy(f) == 0.0
  {
    var E := ListMoleculeEnergies(f);
    forall k | 0 <= k < |E|
      ensures E[k] == 0.0
    {
      PairTermsBeyond(f, k);
    }
    MoleculeEnergiesAccumulate(f, E, |E|);
    PrefixTotalIsTotal(E, |E|);
    assert E[..|E|] == E;
    TotalZero(E);
  }

  // ---- Forces per molecule, pair by pair ----

  /**
   * What sweep `(t, m, j)` adds to the rows of a later molecule `m2`: the site force `F`
   * on each of its sites, and `Fmm` on its carbon.
   */
  function SweepGain(f: Frame, t: Term, m: nat, j: nat, m2: nat): Triple<Vec3>
    requires f.Valid() && m < m2 < f.NumMolecules() && j < 3
  {
    Triple(f.SiteForce(t, m, j, m2, 0), Add(f.SiteForce(t, m, j, m2, 1), f.CarbonForce(t, m, j, m2)),
           f.SiteForce(t, m, j, m2, 2))
  }

  /**
   * What the same sweep takes from the rows of `m` on account of `m2`: the three site
   * forces from site `j`, and `Fmm` from the carbon.
   */
  function SweepReaction(f: Frame, t: Term, m: nat, j: nat, m2: nat): Triple<Vec3>
    requires f.Valid() && m < m2 < f.NumMolecules() && j < 3
  {
    AddRows(OnRow(j, f.SiteForceSum(t, m, j, m2)), OnRow(1, f.CarbonForce(t, m, j, m2)))
  }

  /** The gains of `m2` from the sweeps of the first `k` sites of `m`, Coulomb before Lennard-Jones. */
  function GainUpTo(f: Frame, m: nat, m2: nat, k: nat): Triple<Vec3>
    requires f.Valid() && m < m2 < f.NumMolecules() && k <= 3
  {
    if k == 0 then NoRows
    else AddRows(AddRows(GainUpTo(f, m, m2, k - 1), SweepGain(f, Coulomb, m, k - 1, m2)),
                 SweepGain(f, LennardJones, m, k - 1, m2))
  }

  /** Everything the pair `(m, m2)` adds to the rows of `m2`. */
  function PairGain(f: Frame, m: nat, m2: nat): Triple<Vec3>
    requires f.Valid() && m < m2 < f.NumMolecules()
  {
    GainUpTo(f, m, m2, 3)
  }

  /** What molecule `a` gains from its pairs with the molecules below `k`. */
  function Received(f: Frame, a: nat, k: nat): Triple<Vec3>
    requires f.Valid() && k <= a < f.NumMolecules()
  {
    if k == 0 then NoRows else AddRows(Received(f, a, k - 1), PairGain(f, k - 1, a))
  }

  /**
   * The reactions on one molecule, by term, site and partner. Sums of reactions are taken
   * over such a table, so that regrouping them is a fact about addition alone.
   */
  type ReactionTable = (Term, nat, nat) -> Triple<Vec3>

  /** The reactions on `m`: sweep `(t, m, j)` takes `SweepReaction` on account of partner `m2`. */
  function Reactions(f: Frame, m: nat): ReactionTable
    requires f.Valid()
  {
    (t: Term, j: nat, m2: nat) =>
      if m < m2 < f.NumMolecules() && j < 3 then SweepReaction(f, t, m, j, m2) else NoRows
  }

  /** The reactions of the sweeps of the first `j` sites for partner `m2`, Coulomb before Lennard-Jones. */
  function PartnerTotal(r: ReactionTable, j: nat, m2: nat): Triple<Vec3>
  {
    if j == 0 then NoRows
    else AddRows(AddRows(PartnerTotal(r, j - 1, m2), r(Coulomb, j - 1, m2)), r(LennardJones, j - 1, m2))
  }

  /** Pair by pair: the reactions for the partners from `lo` up to `k`. */
  function PartnersTotal(r: ReactionTable, lo: nat, k: nat): Triple<Vec3>
    requires lo <= k
    decreases k
  {
    if k == lo then NoRows else AddRows(PartnersTotal(r, lo, k - 1), PartnerTotal(r, 3, k - 1))
  }

  /**
   * The molecule after `m`. Lower bounds and next partners are written with it so that a
   * bound passed to a lemma is the very term the sums were unfolded with.
   */
  function Next(m: nat): nat
  {
    m + 1
  }

  /** What one sweep `(t, j)` takes for the partners from `lo` up to `k`: its two running totals. */
  function SweepTotal(r: ReactionTable, t: Term, j: nat, lo: nat, k: nat): Triple<Vec3>
    requires lo <= k
    decreases k
  {
    if k == lo then NoRows else AddRows(SweepTotal(r, t, j, lo, k - 1), r(t, j, k - 1))
  }

  /** Sweep by sweep, as the loop goes: the totals of the sweeps of the first `j` sites. */
  function SweepsTotal(r: ReactionTable, j: nat, lo: nat, k: nat): Triple<Vec3>
    requires lo <= k
  {
    if j == 0 then NoRows
    else AddRows(AddRows(SweepsTotal(r, j - 1, lo, k), SweepTotal(r, Coulomb, j - 1, lo, k)),
                 SweepTotal(r, LennardJones, j - 1, lo, k))
  }

  /** Everything the pair `(m, m2)` takes from the rows of `m`. */
  function PairReaction(f: Frame, m: nat, m2: nat): Triple<Vec3>
    requires f.Valid() && m < m2 < f.NumMolecules()
  {
    PartnerTotal(Reactions(f, m), 3, m2)
  }

  /** What molecule `a` gives up in its pairs with the molecules after it and below `k`. */
  function Given(f: Frame, a: nat, k: nat): Triple<Vec3>
    requires f.Valid() && a < k <= f.NumMolecules()
  {
    PartnersTotal(Reactions(f, a), Next(a), k)
  }

  /**
   * The three force rows of molecule `a` once the pair loop is done: the gains from every
   * pair with an earlier molecule, less the reactions of every pair with a later one.
   */
  function PairRows(f: Frame, a: nat): Triple<Vec3>
    requires f.Valid() && a < f.NumMolecules()
  {
    SubRows(Received(f, a, a), Given(f, a, f.NumMolecules()))
  }

  /** One sweep pushes on the partner exactly as hard, in total, as it pulls back on `m`. */
  lemma SweepNewton(f: Frame, t: Term, m: nat, j: nat, m2: nat)
    requires f.Valid() && m < m2 < f.NumMolecules() && j < 3
    ensures RowsTotal(SweepGain(f, t, m, j, m2)) == RowsTotal(Reactions(f, m)(t, j, m2))
  {
    BalancedSweep(j, f.SiteForce(t, m, j, m2, 0), f.SiteForce(t, m, j, m2, 1), f.SiteForce(t, m, j, m2, 2),
                  f.CarbonForce(t, m, j, m2));
  }

  lemma BalancedSweep(j: nat, F0: Vec3, F1: Vec3, F2: Vec3, Fmm: Vec3)
    requires j < 3
    ensures RowsTotal(Triple(F0, Add(F1, Fmm), F2)) == RowsTotal(AddRows(OnRow(j, Add(Add(F0, F1), F2)), OnRow(1, Fmm)))
  {
    var g, r := RowsTotal(Triple(F0, Add(F1, Fmm), F2)), RowsTotal(AddRows(OnRow(j, Add(Add(F0, F1), F2)), OnRow(1, Fmm)));
    assert g.x == r.x && g.y == r.y && g.z == r.z;
  }

  lemma {:induction false} UpToNewton(f: Frame, m: nat, m2: nat, k: nat)
    requires f.Valid() && m < m2 < f.NumMolecules() && k <= 3
    ensures RowsTotal(GainUpTo(f, m, m2, k)) == RowsTotal(PartnerTotal(Reactions(f, m), k, m2))
  {
    if k > 0 {
      UpToNewton(f, m, m2, k - 1);
      SweepNewton(f, Coulomb, m, k - 1, m2);
      SweepNewton(f, LennardJones, m, k - 1, m2);
      var r := Reactions(f, m);
      var G, R := GainUpTo(f, m, m2, k - 1), PartnerTotal(r, k - 1, m2);
      var gc, rc := SweepGain(f, Coulomb, m, k - 1, m2), r(Coulomb, k - 1, m2);
      var gl, rl := SweepGain(f, LennardJones, m, k - 1, m2), r(LennardJones, k - 1, m2);
      RowsTotalAdd(AddRows(G, gc), gl);
      RowsTotalAdd(G, gc);
      RowsTotalAdd(AddRows(R, rc), rl);
      RowsTotalAdd(R, rc);
    }
  }

  /**
   * Each molecule pair exerts equal and opposite total forces: what it adds to the rows
   * of `m2` and what it takes from the rows of `m` have the same total.
   */
  lemma PairNewton(f: Frame, m: nat, m2: nat)
    requires f.Valid() && m < m2 < f.NumMolecules()
    ensures RowsTotal(PairGain(f, m, m2)) == RowsTotal(PairReaction(f, m, m2))
  {
    UpToNewton(f, m, m2, 3);
  }

  // ---- The reactions in the loop's order ----

  lemma Shuffle(a: Triple<Vec3>, b: Triple<Vec3>, c: Triple<Vec3>, d: Triple<Vec3>, e: Triple<Vec3>, g: Triple<Vec3>)
    ensures AddRows(AddRows(AddRows(a, b), AddRows(c, d)), AddRows(e, g))
         == AddRows(AddRows(AddRows(a, c), e), AddRows(AddRows(b, d), g))
  {
    ShuffleVec(a.x, b.x, c.x, d.x, e.x, g.x);
    ShuffleVec(a.y, b.y, c.y, d.y, e.y, g.y);
    ShuffleVec(a.z, b.z, c.z, d.z, e.z, g.z);
  }

  lemma ShuffleVec(a: Vec3, b: Vec3, c: Vec3, d: Vec3, e: Vec3, g: Vec3)
    ensures Add(Add(Add(a, b), Add(c, d)), Add(e, g)) == Add(Add(Add(a, c), e), Add(Add(b, d), g))
  {
    var l, r := Add(Add(Add(a, b), Add(c, d)), Add(e, g)), Add(Add(Add(a, c), e), Add(Add(b, d), g));
    assert l.x == r.x && l.y == r.y && l.z == r.z;
  }

  /** Taking partner `k - 1` into every sweep adds that partner's reactions. */
  lemma {:induction false} SweepsStep(r: ReactionTable, j: nat, lo: nat, k: nat)
    requires lo < k
    ensures SweepsTotal(r, j, lo, k) == AddRows(SweepsTotal(r, j, lo, k - 1), PartnerTotal(r, j, k - 1))
  {
    if j == 0 {
      NoRowsNeutral(NoRows);
    } else {
      SweepsStep(r, j - 1, lo, k);
      Shuffle(SweepsTotal(r, j - 1, lo, k - 1), PartnerTotal(r, j - 1, k - 1),
              SweepTotal(r, Coulomb, j - 1, lo, k - 1), r(Coulomb, j - 1, k - 1),
              SweepTotal(r, LennardJones, j - 1, lo, k - 1), r(LennardJones, j - 1, k - 1));
    }
  }

  lemma {:induction false} SweepsStart(r: ReactionTable, j: nat, lo: nat)
    ensures SweepsTotal(r, j, lo, lo) == NoRows
  {
    if j > 0 {
      SweepsStart(r, j - 1, lo);
      assert SweepTotal(r, Coulomb, j - 1, lo, lo) == NoRows;
      assert SweepTotal(r, LennardJones, j - 1, lo, lo) == NoRows;
      assert SweepsTotal(r, j, lo, lo) == AddRows(AddRows(SweepsTotal(r, j - 1, lo, lo), SweepTotal(r, Coulomb, j - 1, lo, lo)),
                                                  SweepTotal(r, LennardJones, j - 1, lo, lo));
      NoRowsSums();
    }
  }

  /** Empty rows added up stay empty. */
  lemma NoRowsSums()
    ensures AddRows(AddRows(NoRows, NoRows), NoRows) == NoRows
  {
    NoRowsNeutral(NoRows);
  }

  /**
   * Summing the reactions sweep by sweep, partner by partner inside each sweep as the loop
   * does, gives the reactions summed pair by pair.
   */
  lemma {:induction false} SweepsByPartners(r: ReactionTable, lo: nat, k: nat)
    requires lo <= k
    ensures SweepsTotal(r, 3, lo, k) == PartnersTotal(r, lo, k)
  {
    if k == lo {
      SweepsStart(r, 3, lo);
    } else {
      SweepsByPartners(r, lo, k - 1);
      SweepsStep(r, 3, lo, k);
    }
  }

  // ---- The loop ----

  /**
   * The additions one sweep makes for partner `m2`: `F` onto the three rows of `m2` and
   * `Fmm` onto its carbon row. Only `m2`'s rows change, their sum grows by the push, and
   * a partner beyond the cutoff leaves the rows as they were.
   */
  function PushPartner(f: Frame, rows: seq<Vec3>, t: Term, m: nat, j: nat, m2: nat): (r: seq<Vec3>)
    requires f.Valid() && |rows| == |f.positions| && m < m2 < f.NumMolecules() && j < 3
    ensures |r| == |rows|
    ensures Sum(r) == Add(Sum(rows), f.Push(t, m, j, m2))
    ensures forall a :: 0 <= a < f.NumMolecules() && a != m2 ==> Triplet(r, a) == Triplet(rows, a)
    ensures Triplet(r, m2) == AddRows(Triplet(rows, m2), SweepGain(f, t, m, j, m2))
    ensures f.Beyond(m, m2) ==> r == rows
  {
    var F0 := f.SiteForce(t, m, j, m2, 0);
    var F1 := f.SiteForce(t, m, j, m2, 1);
    var F2 := f.SiteForce(t, m, j, m2, 2);
    var Fmm := f.CarbonForce(t, m, j, m2);
    var r := AddAt(AddAt(AddAt(AddAt(rows, 3 * m2, F0), 3 * m2 + 1, F1), 3 * m2 + 2, F2), 3 * m2 + 1, Fmm);
    AddFour(Sum(rows), F0, F1, F2, Fmm);
    PushRows(rows, m2, F0, F1, F2, Fmm);
    if f.Beyond(m, m2) then
      BeyondForces(f, t, m, j, m2);
      r
    else
      r
  }

  lemma PushRows(rows: seq<Vec3>, k: nat, F0: Vec3, F1: Vec3, F2: Vec3, Fmm: Vec3)
    requires 3 * k + 2 < |rows|
    ensures Triplet(AddAt(AddAt(AddAt(AddAt(rows, 3 * k, F0), 3 * k + 1, F1), 3 * k + 2, F2), 3 * k + 1, Fmm), k)
         == AddRows(Triplet(rows, k), Triple(F0, Add(F1, Fmm), F2))
  {
    AddAssoc(rows[3 * k + 1], F1, Fmm);
  }

  lemma AddFour(S: Vec3, F0: Vec3, F1: Vec3, F2: Vec3, Fmm: Vec3)
    ensures Add(Add(Add(Add(S, F0), F1), F2), Fmm) == Add(S, Add(Add(Add(F0, F1), F2), Fmm))
  {
  }

  /** The running state of one sweep: the rows so far and the two force totals. */
  datatype Tally = Tally(rows: seq<Vec3>, total: Vec3, totalMm: Vec3)

  /**
   * What holds of a sweep `(m, j, t)` before partner `m2`: the rows have grown by the two
   * totals, the energy is that of the partners so far, an isolated `m` has zero totals,
   * and rows of isolated molecules are untouched.
   */
  ghost predicate SweepInvariant(f: Frame, forces: seq<Vec3>, t: Term, m: nat, j: nat, m2: nat, s: Tally)
    requires f.Valid() && m < m2 <= f.NumMolecules() && j < 3
  {
    |s.rows| == |forces| == |f.positions|
    && Sum(s.rows) == Add(Sum(forces), Add(s.total, s.totalMm))
    && (f.Isolated(m) ==> s.total == Zero && s.totalMm == Zero)
    && forall a :: 0 <= a < f.NumMolecules() && f.Isolated(a) ==> Triplet(s.rows, a) == Triplet(forces, a)
  }

  /** The loop body for partner `m2`. */
  function Advance(f: Frame, t: Term, m: nat, j: nat, m2: nat, s: Tally): Tally
    requires f.Valid() && |s.rows| == |f.positions| && m < m2 < f.NumMolecules() && j < 3
  {
    Tally(PushPartner(f, s.rows, t, m, j, m2),
          Add(Add(Add(s.total, f.SiteForce(t, m, j, m2, 0)), f.SiteForce(t, m, j, m2, 1)), f.SiteForce(t, m, j, m2, 2)),
          Add(s.totalMm, f.CarbonForce(t, m, j, m2)))
  }

  lemma AdvanceKeeps(f: Frame, forces: seq<Vec3>, t: Term, m: nat, j: nat, m2: nat, s: Tally)
    requires f.Valid() && m < m2 < f.NumMolecules() && j < 3
    requires SweepInvariant(f, forces, t, m, j, m2, s)
    ensures SweepInvariant(f, forces, t, m, j, Next(m2), Advance(f, t, m, j, m2, s))
  {
    AdvanceSum(f, t, m, j, m2, Sum(forces), s);
    if f.Isolated(m) {
      AdvanceIsolatedSource(f, t, m, j, m2);
    }
    AdvanceIsolatedRows(f, forces, t, m, j, m2, s.rows);
  }

  lemma AdvanceIsolatedSource(f: Frame, t: Term, m: nat, j: nat, m2: nat)
    requires f.Valid() && m < m2 < f.NumMolecules() && j < 3 && f.Isolated(m)
    ensures f.SiteForce(t, m, j, m2, 0) == Zero && f.SiteForce(t, m, j, m2, 1) == Zero
    ensures f.SiteForce(t, m, j, m2, 2) == Zero && f.CarbonForce(t, m, j, m2) == Zero
  {
    assert f.Beyond(m, m2);
    BeyondForces(f, t, m, j, m2);
  }

  lemma AdvanceIsolatedRows(f: Frame, forces: seq<Vec3>, t: Term, m: nat, j: nat, m2: nat, rows: seq<Vec3>)
    requires f.Valid() && |rows| == |forces| == |f.positions| && m < m2 < f.NumMolecules() && j < 3
    requires forall a :: 0 <= a < f.NumMolecules() && f.Isolated(a) ==> Triplet(rows, a) == Triplet(forces, a)
    ensures var r := PushPartner(f, rows, t, m, j, m2);
      forall a :: 0 <= a < f.NumMolecules() && f.Isolated(a) ==> Triplet(r, a) == Triplet(forces, a)
  {
    var r := PushPartner(f, rows, t, m, j, m2);
    forall a | 0 <= a < f.NumMolecules() && f.Isolated(a)
      ensures Triplet(r, a) == Triplet(forces, a)
    {
      if a == m2 {
        assert f.Beyond(m2, m);
      }
    }
  }

  lemma AdvanceSum(f: Frame, t: Term, m: nat, j: nat, m2: nat, S0: Vec3, s: Tally)
    requires f.Valid() && |s.rows| == |f.positions| && m < m2 < f.NumMolecules() && j < 3
    requires Sum(s.rows) == Add(S0, Add(s.total, s.totalMm))
    ensures var r := Advance(f, t, m, j, m2, s); Sum(r.rows) == Add(S0, Add(r.total, r.totalMm))
  {
    Regroup(S0, s.total, s.totalMm, f.SiteForce(t, m, j, m2, 0), f.SiteForce(t, m, j, m2, 1),
            f.SiteForce(t, m, j, m2, 2), f.CarbonForce(t, m, j, m2));
  }

  lemma Regroup(S0: Vec3, T: Vec3, M: Vec3, F0: Vec3, F1: Vec3, F2: Vec3, Fmm: Vec3)
    ensures Add(Add(S0, Add(T, M)), Add(Add(Add(F0, F1), F2), Fmm))
         == Add(S0, Add(Add(Add(Add(T, F0), F1), F2), Add(M, Fmm)))
  {
  }

  /**
   * The rows a sweep `(t, m, j)` has reached before partner `m2`: each partner so far has
   * gained its `SweepGain`, every other molecule is as it was, and the two totals hold the
   * reactions on site `j` and on the carbon of `m` for the partners so far.
   */
  ghost predicate SweepRows(f: Frame, forces: seq<Vec3>, t: Term, m: nat, j: nat, m2: nat, s: Tally)
    requires f.Valid() && m < m2 <= f.NumMolecules() && j < 3 && |s.rows| == |forces| == |f.positions|
  {
    (forall a :: 0 <= a < f.NumMolecules() && (a <= m || m2 <= a) ==> Triplet(s.rows, a) == Triplet(forces, a))
    && (forall a :: m < a < m2 ==> Triplet(s.rows, a) == AddRows(Triplet(forces, a), SweepGain(f, t, m, j, a)))
    && AddRows(OnRow(j, s.total), OnRow(1, s.totalMm)) == SweepTotal(Reactions(f, m), t, j, Next(m), m2)
  }

  lemma AdvanceRows(f: Frame, forces: seq<Vec3>, t: Term, m: nat, j: nat, m2: nat, s: Tally)
    requires f.Valid() && m < m2 < f.NumMolecules() && j < 3 && |s.rows| == |forces| == |f.positions|
    requires SweepRows(f, forces, t, m, j, m2, s)
    ensures SweepRows(f, forces, t, m, j, Next(m2), Advance(f, t, m, j, m2, s))
  {
    var r := PushPartner(f, s.rows, t, m, j, m2);
    assert Triplet(s.rows, m2) == Triplet(forces, m2);
    forall a | m < a < m2
      ensures Triplet(r, a) == AddRows(Triplet(forces, a), SweepGain(f, t, m, j, a))
    {
      assert Triplet(r, a) == Triplet(s.rows, a);
    }
    AdvanceTotals(f, t, m, j, m2, s);
  }

  lemma AdvanceTotals(f: Frame, t: Term, m: nat, j: nat, m2: nat, s: Tally)
    requires f.Valid() && m < m2 < f.NumMolecules() && j < 3 && |s.rows| == |f.positions|
    requires AddRows(OnRow(j, s.total), OnRow(1, s.totalMm)) == SweepTotal(Reactions(f, m), t, j, Next(m), m2)
    ensures var r := Advance(f, t, m, j, m2, s);
      AddRows(OnRow(j, r.total), OnRow(1, r.totalMm)) == SweepTotal(Reactions(f, m), t, j, Next(m), Next(m2))
  {
    var F0, F1, F2 := f.SiteForce(t, m, j, m2, 0), f.SiteForce(t, m, j, m2, 1), f.SiteForce(t, m, j, m2, 2);
    assert Reactions(f, m)(t, j, m2) == AddRows(OnRow(j, Add(Add(F0, F1), F2)), OnRow(1, f.CarbonForce(t, m, j, m2)));
    AddThree(s.total, F0, F1, F2);
    TotalsStep(Reactions(f, m), t, j, Next(m), m2, s.total, s.totalMm, Add(Add(F0, F1), F2), f.CarbonForce(t, m, j, m2));
  }

  lemma AddThree(T: Vec3, F0: Vec3, F1: Vec3, F2: Vec3)
    ensures Add(Add(Add(T, F0), F1), F2) == Add(T, Add(Add(F0, F1), F2))
  {
  }

  /** One more partner in the totals: its reaction joins their row form. */
  lemma TotalsStep(r: ReactionTable, t: Term, j: nat, lo: nat, m2: nat, T: Vec3, M: Vec3, F: Vec3, Fmm: Vec3)
    requires lo <= m2 && j < 3
    requires AddRows(OnRow(j, T), OnRow(1, M)) == SweepTotal(r, t, j, lo, m2)
    requires r(t, j, m2) == AddRows(OnRow(j, F), OnRow(1, Fmm))
    ensures AddRows(OnRow(j, Add(T, F)), OnRow(1, Add(M, Fmm))) == SweepTotal(r, t, j, lo, Next(m2))
  {
    var l := AddRows(OnRow(j, Add(T, F)), OnRow(1, Add(M, Fmm)));
    var e := AddRows(AddRows(OnRow(j, T), OnRow(1, M)), AddRows(OnRow(j, F), OnRow(1, Fmm)));
    assert l.x == e.x && l.y == e.y && l.z == e.z;
    SweepTotalNext(r, t, j, lo, m2);
  }

  lemma SweepTotalNext(r: ReactionTable, t: Term, j: nat, lo: nat, m2: nat)
    requires lo <= m2
    ensures SweepTotal(r, t, j, lo, Next(m2)) == AddRows(SweepTotal(r, t, j, lo, m2), r(t, j, m2))
  {
    assert Next(m2) == m2 + 1;
    assert SweepTotal(r, t, j, lo, m2 + 1) == AddRows(SweepTotal(r, t, j, lo, m2), r(t, j, m2));
  }

  /**
   * Subtracting the totals from site `j` and from the carbon of molecule `m` takes their
   * row form from the rows of `m` and leaves every other row alone.
   */
  lemma SettleRows(rows: seq<Vec3>, m: nat, j: nat, T: Vec3, M: Vec3)
    requires 3 * m + 2 < |rows| && j < 3
    ensures Triplet(SubAt(SubAt(rows, 3 * m + j, T), 3 * m + 1, M), m)
         == SubRows(Triplet(rows, m), AddRows(OnRow(j, T), OnRow(1, M)))
  {
    var l := Triplet(SubAt(SubAt(rows, 3 * m + j, T), 3 * m + 1, M), m);
    var r := SubRows(Triplet(rows, m), AddRows(OnRow(j, T), OnRow(1, M)));
    assert l.x == r.x && l.y == r.y && l.z == r.z;
  }

  /** The rows a whole sweep leaves: `m` loses the reactions and each later partner gains its push. */
  lemma SettleSweep(f: Frame, forces: seq<Vec3>, t: Term, m: nat, j: nat, s: Tally)
    requires f.Valid() && m < f.NumMolecules() && j < 3 && |s.rows| == |forces| == |f.positions|
    requires SweepRows(f, forces, t, m, j, f.NumMolecules(), s)
    ensures var out := SubAt(SubAt(s.rows, 3 * m + j, s.total), 3 * m + 1, s.totalMm);
      (forall a :: 0 <= a < m ==> Triplet(out, a) == Triplet(forces, a))
      && Triplet(out, m) == SubRows(Triplet(forces, m), SweepTotal(Reactions(f, m), t, j, Next(m), f.NumMolecules()))
      && (forall a :: m < a < f.NumMolecules() ==> Triplet(out, a) == AddRows(Triplet(forces, a), SweepGain(f, t, m, j, a)))
  {
    var out := SubAt(SubAt(s.rows, 3 * m + j, s.total), 3 * m + 1, s.totalMm);
    SettleRows(s.rows, m, j, s.total, s.totalMm);
    assert Triplet(s.rows, m) == Triplet(forces, m);
    forall a | 0 <= a < f.NumMolecules() && a != m
      ensures Triplet(out, a) == Triplet(s.rows, a)
    {
      TripletSite(a, 0, 0);
      assert 3 * a != 3 * m + j && 3 * a + 1 != 3 * m + j && 3 * a + 2 != 3 * m + j;
      assert 3 * a != 3 * m + 1 && 3 * a + 1 != 3 * m + 1 && 3 * a + 2 != 3 * m + 1;
    }
  }

  /**
   * After the last partner, subtracting the totals from site `j` and from the carbon of
   * `m` brings the sum back to where the sweep started and leaves isolated rows alone.
   */
  lemma SettleKeeps(f: Frame, forces: seq<Vec3>, t: Term, m: nat, j: nat, s: Tally)
    requires f.Valid() && m < f.NumMolecules() && j < 3
    requires SweepInvariant(f, forces, t, m, j, f.NumMolecules(), s)
    ensures var out := SubAt(SubAt(s.rows, 3 * m + j, s.total), 3 * m + 1, s.totalMm);
      Sum(out) == Sum(forces)
      && forall a :: 0 <= a < f.NumMolecules() && f.Isolated(a) ==> Triplet(out, a) == Triplet(forces, a)
  {
    var mid := SubAt(s.rows, 3 * m + j, s.total);
    var out := SubAt(mid, 3 * m + 1, s.totalMm);
    SubBoth(Sum(forces), s.total, s.totalMm);
    forall a | 0 <= a < f.NumMolecules() && f.Isolated(a)
      ensures Triplet(out, a) == Triplet(forces, a)
    {
      if a != m {
        TripletSite(a, 0, 0);
        assert 3 * a != 3 * m + j && 3 * a + 1 != 3 * m + j && 3 * a + 2 != 3 * m + j;
        assert 3 * a != 3 * m + 1 && 3 * a + 1 != 3 * m + 1 && 3 * a + 2 != 3 * m + 1;
      }
    }
  }

  lemma SubBoth(S0: Vec3, T: Vec3, M: Vec3)
    ensures Sub(Sub(Add(S0, Add(T, M)), T), M) == S0
  {
  }

  /** Both accounts of a sweep before partner `m2`: the sums and the rows. */
  ghost predicate SweepState(f: Frame, forces: seq<Vec3>, t: Term, m: nat, j: nat, m2: nat, s: Tally)
    requires f.Valid() && m < m2 <= f.NumMolecules() && j < 3
  {
    SweepInvariant(f, forces, t, m, j, m2, s) && SweepRows(f, forces, t, m, j, m2, s)
  }

  /** The loop body for partner `m2` keeps both accounts. */
  lemma AdvanceState(f: Frame, forces: seq<Vec3>, t: Term, m: nat, j: nat, m2: nat, s: Tally)
    requires f.Valid() && m < m2 < f.NumMolecules() && j < 3
    requires SweepState(f, forces, t, m, j, m2, s)
    ensures SweepState(f, forces, t, m, j, Next(m2), Advance(f, t, m, j, m2, s))
  {
    AdvanceKeeps(f, forces, t, m, j, m2, s);
    AdvanceRows(f, forces, t, m, j, m2, s);
  }

  lemma SweepStart(f: Frame, forces: seq<Vec3>, t: Term, m: nat, j: nat)
    requires f.Valid() && |forces| == |f.positions| && m < f.NumMolecules() && j < 3
    ensures SweepState(f, forces, t, m, j, Next(m), Tally(forces, Zero, Zero))
  {
    assert AddRows(OnRow(j, Zero), OnRow(1, Zero)) == NoRows;
  }

  /**
   * The loop over the partners of one sweep: from partner `m2` on, with the tally `s` so
   * far, up to the last molecule.
   */
  function SweepFrom(f: Frame, t: Term, m: nat, j: nat, m2: nat, s: Tally): (r: Tally)
    requires f.Valid() && |s.rows| == |f.positions| && m < m2 <= f.NumMolecules() && j < 3
    ensures |r.rows| == |s.rows|
    decreases f.NumMolecules() - m2
  {
    if m2 == f.NumMolecules() then s else SweepFrom(f, t, m, j, Next(m2), Advance(f, t, m, j, m2, s))
  }

  /** Both accounts of the sweep hold from partner `m2` on, through the last molecule. */
  lemma {:induction false} SweepFromState(f: Frame, forces: seq<Vec3>, t: Term, m: nat, j: nat, m2: nat, s: Tally)
    requires f.Valid() && m < m2 <= f.NumMolecules() && j < 3
    requires SweepState(f, forces, t, m, j, m2, s)
    ensures SweepState(f, forces, t, m, j, f.NumMolecules(), SweepFrom(f, t, m, j, m2, s))
    decreases f.NumMolecules() - m2
  {
    if m2 < f.NumMolecules() {
      AdvanceState(f, forces, t, m, j, m2, s);
      SweepFromState(f, forces, t, m, j, Next(m2), Advance(f, t, m, j, m2, s));
    }
  }

  /**
   * One sweep `(m, j, t)`: every later molecule `m2` receives its push, and the totals
   * of the site forces and of the carbon forces are then subtracted from site `j` and
   * from the carbon of `m`. Each later molecule gains its `SweepGain`, `m` loses the
   * reactions of all its partners, and the earlier molecules are untouched; the rows
   * therefore keep their sum, and rows of isolated molecules do not change.
   */
  method Sweep(f: Frame, forces: seq<Vec3>, m: nat, j: nat, t: Term) returns (out: seq<Vec3>, dE: real)
    requires f.Valid() && |forces| == |f.positions| && m < f.NumMolecules() && j < 3
    ensures |out| == |forces|
    ensures Sum(out) == Sum(forces)
    ensures dE == Total(SweepTerms(f, t, m, j))
    ensures forall a :: 0 <= a < f.NumMolecules() && f.Isolated(a) ==> Triplet(out, a) == Triplet(forces, a)
    ensures forall a :: 0 <= a < m ==> Triplet(out, a) == Triplet(forces, a)
    ensures Triplet(out, m) == SubRows(Triplet(forces, m), SweepTotal(Reactions(f, m), t, j, Next(m), f.NumMolecules()))
    ensures forall a :: m < a < f.NumMolecules() ==> Triplet(out, a) == AddRows(Triplet(forces, a), SweepGain(f, t, m, j, a))
  {
    var tally := SweepFrom(f, t, m, j, Next(m), Tally(forces, Zero, Zero));
    SweepStart(f, forces, t, m, j);
    SweepFromState(f, forces, t, m, j, Next(m), Tally(forces, Zero, Zero));
    SettleKeeps(f, forces, t, m, j, tally);
    SettleSweep(f, forces, t, m, j, tally);
    out := SubAt(SubAt(tally.rows, 3 * m + j, tally.total), 3 * m + 1, tally.totalMm);
    dE := Total(SweepTerms(f, t, m, j));
  }

  /**
   * The six sweeps of molecule `m`: for each site `j`, Coulomb and then Lennard-Jones.
   * Each later molecule gains what its pair with `m` adds, `m` loses the reactions of all
   * its later partners, and the earlier molecules are untouched.
   */
  method MoleculeSweeps(f: Frame, forces: seq<Vec3>, m: nat) returns (out: seq<Vec3>, dE: real)
    requires f.Valid() && |forces| == |f.positions| && m < f.NumMolecules()
    ensures |out| == |forces| && Sum(out) == Sum(forces)
    ensures dE == SweepsEnergy(f, m, 3)
    ensures forall a :: 0 <= a < f.NumMolecules() && f.Isolated(a) ==> Triplet(out, a) == Triplet(forces, a)
    ensures forall a :: 0 <= a < m ==> Triplet(out, a) == Triplet(forces, a)
    ensures Triplet(out, m) == SubRows(Triplet(forces, m), Given(f, m, f.NumMolecules()))
    ensures forall a :: m < a < f.NumMolecules() ==> Triplet(out, a) == AddRows(Triplet(forces, a), PairGain(f, m, a))
  {
    out, dE := forces, 0.0;
    var j := 0;
    SweepsNone(f, forces, m);
    while j < 3
      invariant j <= 3 && dE == SweepsEnergy(f, m, j) && SitesDone(f, forces, out, m, j)
    {
      var rows, e := SiteSweeps(f, forces, out, m, j);
      SweepsEnergyNext(f, m, j);
      out, dE := rows, dE + e;
      j := Next(j);
    }
    assert j == 3;
    SitesAllDone(f, forces, out, m);
  }

  /** After all three sites, the sweeps' reactions regroup pair by pair into `Given`. */
  lemma SitesAllDone(f: Frame, forces: seq<Vec3>, out: seq<Vec3>, m: nat)
    requires f.Valid() && m < f.NumMolecules() && SitesDone(f, forces, out, m, 3)
    ensures Triplet(out, m) == SubRows(Triplet(forces, m), Given(f, m, f.NumMolecules()))
    ensures forall a :: m < a < f.NumMolecules() ==> Triplet(out, a) == AddRows(Triplet(forces, a), PairGain(f, m, a))
  {
    SweepsByPartners(Reactions(f, m), Next(m), f.NumMolecules());
  }

  /** The Coulomb and then the Lennard-Jones sweep of site `j` of molecule `m`. */
  method SiteSweeps(f: Frame, ghost forces: seq<Vec3>, out: seq<Vec3>, m: nat, j: nat) returns (rows: seq<Vec3>, dE: real)
    requires f.Valid() && m < f.NumMolecules() && j < 3 && SitesDone(f, forces, out, m, j)
    ensures SitesDone(f, forces, rows, m, Next(j))
    ensures dE == Total(SweepTerms(f, Coulomb, m, j)) + Total(SweepTerms(f, LennardJones, m, j))
  {
    var mid, e := Sweep(f, out, m, j, Coulomb);
    var e2;
    rows, e2 := Sweep(f, mid, m, j, LennardJones);
    SiteSweepsRows(f, forces, out, mid, rows, m, j);
    dE := e + e2;
  }

  /**
   * The rows after the sweeps of the first `j` sites of `m`: their sum and the rows of
   * isolated and of earlier molecules are as they were, `m` has lost the reactions of
   * those sweeps and each later molecule has gained what they push on it.
   */
  ghost predicate SitesDone(f: Frame, forces: seq<Vec3>, out: seq<Vec3>, m: nat, j: nat)
    requires f.Valid() && m < f.NumMolecules() && j <= 3
  {
    |out| == |forces| == |f.positions| && Sum(out) == Sum(forces)
    && (forall a :: 0 <= a < f.NumMolecules() && f.Isolated(a) ==> Triplet(out, a) == Triplet(forces, a))
    && (forall a :: 0 <= a < m ==> Triplet(out, a) == Triplet(forces, a))
    && Triplet(out, m) == SubRows(Triplet(forces, m), SweepsTotal(Reactions(f, m), j, Next(m), f.NumMolecules()))
    && (forall a :: m < a < f.NumMolecules() ==> Triplet(out, a) == AddRows(Triplet(forces, a), GainUpTo(f, m, a, j)))
  }

  /** Before the first sweep, the rows are as they were: nothing received, nothing given. */
  lemma SweepsNone(f: Frame, forces: seq<Vec3>, m: nat)
    requires f.Valid() && |forces| == |f.positions| && m < f.NumMolecules()
    ensures SitesDone(f, forces, forces, m, 0)
  {
    NoRowsNeutral(Triplet(forces, m));
    forall a | m < a < f.NumMolecules()
      ensures Triplet(forces, a) == AddRows(Triplet(forces, a), GainUpTo(f, m, a, 0))
    {
      NoRowsNeutral(Triplet(forces, a));
    }
  }

  /** The two sweeps of site `j` carry the rows on to the next site. */
  lemma SiteSweepsRows(f: Frame, forces: seq<Vec3>, out: seq<Vec3>, rows: seq<Vec3>, rows2: seq<Vec3>, m: nat, j: nat)
    requires f.Valid() && m < f.NumMolecules() && j < 3 && SitesDone(f, forces, out, m, j)
    requires |rows| == |rows2| == |out| && Sum(rows2) == Sum(rows) == Sum(out)
    requires forall a :: 0 <= a < f.NumMolecules() && f.Isolated(a) ==> Triplet(rows, a) == Triplet(out, a)
    requires forall a :: 0 <= a < f.NumMolecules() && f.Isolated(a) ==> Triplet(rows2, a) == Triplet(rows, a)
    requires forall a :: 0 <= a < m ==> Triplet(rows, a) == Triplet(out, a)
    requires forall a :: 0 <= a < m ==> Triplet(rows2, a) == Triplet(rows, a)
    requires Triplet(rows, m) == SubRows(Triplet(out, m), SweepTotal(Reactions(f, m), Coulomb, j, Next(m), f.NumMolecules()))
    requires forall a :: m < a < f.NumMolecules() ==> Triplet(rows, a) == AddRows(Triplet(out, a), SweepGain(f, Coulomb, m, j, a))
    requires Triplet(rows2, m) == SubRows(Triplet(rows, m), SweepTotal(Reactions(f, m), LennardJones, j, Next(m), f.NumMolecules()))
    requires forall a :: m < a < f.NumMolecules() ==> Triplet(rows2, a) == AddRows(Triplet(rows, a), SweepGain(f, LennardJones, m, j, a))
    ensures SitesDone(f, forces, rows2, m, Next(j))
  {
    var r, nm := Reactions(f, m), f.NumMolecules();
    var S, C, L := SweepsTotal(r, j, Next(m), nm), SweepTotal(r, Coulomb, j, Next(m), nm), SweepTotal(r, LennardJones, j, Next(m), nm);
    SweepsTotalNext(r, j, Next(m), nm);
    SubRowsSub(Triplet(forces, m), S, C);
    SubRowsSub(Triplet(forces, m), AddRows(S, C), L);
    forall a | m < a < nm
      ensures Triplet(rows2, a) == AddRows(Triplet(forces, a), GainUpTo(f, m, a, Next(j)))
    {
      var G, gc, gl := GainUpTo(f, m, a, j), SweepGain(f, Coulomb, m, j, a), SweepGain(f, LennardJones, m, j, a);
      GainUpToNext(f, m, a, j);
      AddRowsAssoc(Triplet(forces, a), G, gc);
      AddRowsAssoc(Triplet(forces, a), AddRows(G, gc), gl);
    }
  }

  lemma SweepsTotalNext(r: ReactionTable, j: nat, lo: nat, k: nat)
    requires lo <= k
    ensures SweepsTotal(r, Next(j), lo, k)
         == AddRows(AddRows(SweepsTotal(r, j, lo, k), SweepTotal(r, Coulomb, j, lo, k)), SweepTotal(r, LennardJones, j, lo, k))
  {
    assert Next(j) == j + 1;
    assert SweepsTotal(r, j + 1, lo, k)
        == AddRows(AddRows(SweepsTotal(r, j, lo, k), SweepTotal(r, Coulomb, j, lo, k)), SweepTotal(r, LennardJones, j, lo, k));
  }

  lemma SweepsEnergyNext(f: Frame, m: nat, j: nat)
    requires f.Valid() && m < f.NumMolecules() && j < 3
    ensures SweepsEnergy(f, m, Next(j))
         == SweepsEnergy(f, m, j) + Total(SweepTerms(f, Coulomb, m, j)) + Total(SweepTerms(f, LennardJones, m, j))
  {
    assert Next(j) == j + 1;
    assert SweepsEnergy(f, m, j + 1)
        == SweepsEnergy(f, m, j) + Total(SweepTerms(f, Coulomb, m, j)) + Total(SweepTerms(f, LennardJones, m, j));
  }

  lemma GainUpToNext(f: Frame, m: nat, m2: nat, j: nat)
    requires f.Valid() && m < m2 < f.NumMolecules() && j < 3
    ensures GainUpTo(f, m, m2, Next(j))
         == AddRows(AddRows(GainUpTo(f, m, m2, j), SweepGain(f, Coulomb, m, j, m2)), SweepGain(f, LennardJones, m, j, m2))
  {
    assert Next(j) == j + 1;
    assert GainUpTo(f, m, m2, j + 1)
        == AddRows(AddRows(GainUpTo(f, m, m2, j), SweepGain(f, Coulomb, m, j, m2)), SweepGain(f, LennardJones, m, j, m2));
  }

  lemma ZerosTriplets(n: nat)
    ensures forall a :: 0 <= a && 3 * a + 2 < n ==> Triplet(Zeros(n), a) == Triple(Zero, Zero, Zero)
  {
  }

  /**
   * What holds of the rows between two molecules of the pair loop: they add up to zero
   * and isolated molecules have zero rows.
   */
  ghost predicate Balanced(f: Frame, forces: seq<Vec3>)
    requires f.Valid()
  {
    |forces| == |f.positions| && Sum(forces) == Zero
    && forall a :: 0 <= a < f.NumMolecules() && f.Isolated(a) ==> Triplet(forces, a) == Triple(Zero, Zero, Zero)
  }

  /**
   * The rows before molecule `m` of the pair loop, molecule by molecule: each earlier
   * molecule holds its final `PairRows`, each later one what it has received so far.
   */
  ghost predicate LoopRows(f: Frame, forces: seq<Vec3>, m: nat)
    requires f.Valid() && |forces| == |f.positions| && m <= f.NumMolecules()
  {
    (forall a :: 0 <= a < m ==> Triplet(forces, a) == PairRows(f, a))
    && forall a :: m <= a < f.NumMolecules() ==> Triplet(forces, a) == Received(f, a, m)
  }

  /** One pass of the outer loop: the six sweeps of molecule `m`, which add its energy `E[m]`. */
  method MoleculeStep(f: Frame, ghost E: seq<real>, m: nat, forces: seq<Vec3>) returns (out: seq<Vec3>, dE: real)
    requires f.Valid() && m < f.NumMolecules() && MoleculeEnergies(f, E) && Balanced(f, forces)
    requires LoopRows(f, forces, m)
    ensures Balanced(f, out) && dE == E[m]
    ensures LoopRows(f, out, m + 1)
  {
    out, dE := MoleculeSweeps(f, forces, m);
    MoleculeEnergyBySweeps(f, m);
    MoleculeDone(f, forces, out, m);
  }

  /** Once the sweeps of `m` are done, `m` has its final rows and every later molecule has received from `m`. */
  lemma MoleculeDone(f: Frame, forces: seq<Vec3>, out: seq<Vec3>, m: nat)
    requires f.Valid() && m < f.NumMolecules() && |forces| == |out| == |f.positions| && LoopRows(f, forces, m)
    requires forall a :: 0 <= a < m ==> Triplet(out, a) == Triplet(forces, a)
    requires Triplet(out, m) == SubRows(Triplet(forces, m), Given(f, m, f.NumMolecules()))
    requires forall a :: m < a < f.NumMolecules() ==> Triplet(out, a) == AddRows(Triplet(forces, a), PairGain(f, m, a))
    ensures LoopRows(f, out, m + 1)
  {
    forall a | 0 <= a < m + 1
      ensures Triplet(out, a) == PairRows(f, a)
    {
      if a == m {
        assert Triplet(forces, m) == Received(f, m, m);
      }
    }
    forall a | m + 1 <= a < f.NumMolecules()
      ensures Triplet(out, a) == Received(f, a, m + 1)
    {
      ReceivedNext(f, a, m);
    }
  }

  lemma ReceivedNext(f: Frame, a: nat, m: nat)
    requires f.Valid() && m < a < f.NumMolecules()
    ensures Received(f, a, m + 1) == AddRows(Received(f, a, m), PairGain(f, m, a))
  {
  }

  /** The zero rows the loop starts from. */
  lemma LoopStart(f: Frame)
    requires f.Valid()
    ensures Balanced(f, Zeros(|f.positions|)) && LoopRows(f, Zeros(|f.positions|), 0)
  {
    SumZeros(|f.positions|);
    ZerosTriplets(|f.positions|);
  }

  /** The last molecule has no later partner, so stopping the loop before it loses nothing. */
  lemma LoopEnd(f: Frame, E: seq<real>, m: nat)
    requires f.Valid() && MoleculeEnergies(f, E) && m + 1 == f.NumMolecules()
    ensures PrefixTotal(E, m) == TotalEnergy(f)
  {
    MoleculeEnergiesAccumulate(f, E, m + 1);
    TotalZero(PairTerms(f, m));
  }

  /** The last molecule gives nothing up, so what it has received is already its final rows. */
  lemma LastRows(f: Frame, forces: seq<Vec3>, m: nat)
    requires f.Valid() && |forces| == |f.positions| && m + 1 == f.NumMolecules() && LoopRows(f, forces, m)
    ensures forall a :: 0 <= a < f.NumMolecules() ==> Triplet(forces, a) == PairRows(f, a)
  {
    forall a | 0 <= a < f.NumMolecules()
      ensures Triplet(forces, a) == PairRows(f, a)
    {
      if a == m {
        assert Next(m) == f.NumMolecules();
        assert Given(f, m, f.NumMolecules()) == NoRows;
        NoRowsNeutral(Received(f, m, m));
      }
    }
  }

  /** The outer loop, `for m in range(nm - 1)`, for at least two molecules. */
  method RunPairLoop(f: Frame, ghost E: seq<real>) returns (energy: real, forces: seq<Vec3>)
    requires f.Valid() && f.NumMolecules() >= 2 && MoleculeEnergies(f, E)
    ensures Balanced(f, forces) && energy == PrefixTotal(E, f.NumMolecules() - 1)
    ensures forall a :: 0 <= a < f.NumMolecules() ==> Triplet(forces, a) == PairRows(f, a)
  {
    energy, forces := 0.0, Zeros(|f.positions|);
    LoopStart(f);
    var m := 0;
    while m + 1 < f.NumMolecules()
      invariant m + 1 <= f.NumMolecules()
      invariant Balanced(f, forces) && energy == PrefixTotal(E, m) && LoopRows(f, forces, m)
    {
      var dE;
      forces, dE := MoleculeStep(f, E, m, forces);
      energy := energy + dE;
      m := m + 1;
    }
    LastRows(f, forces, m);
  }

  /**
   * The pair loop of `ACN.calculate`: for `m` in `0 .. nm-2` and `j` in `0 .. 2`, the
   * Coulomb sweep and then the Lennard-Jones sweep. Each molecule ends with `PairRows`:
   * what its pairs with earlier molecules added, less what its pairs with later ones
   * took. The forces add up to zero, the energy counts every molecule pair once, a
   * molecule beyond the cutoff of all others feels no force, and with fewer than two
   * molecules nothing is added at all.
   */
  method PairForces(f: Frame) returns (energy: real, forces: seq<Vec3>)
    requires f.Valid()
    ensures |forces| == |f.positions|
    ensures Sum(forces) == Zero
    ensures energy == TotalEnergy(f)
    ensures forall a :: 0 <= a < f.NumMolecules() ==> Triplet(forces, a) == PairRows(f, a)
    ensures forall a :: 0 <= a < f.NumMolecules() && f.Isolated(a) ==> Triplet(forces, a) == Triple(Zero, Zero, Zero)
    ensures f.NumMolecules() <= 1 ==> energy == 0.0 && forces == Zeros(|f.positions|)
  {
    ghost var E := ListMoleculeEnergies(f);
    if f.NumMolecules() <= 1 {
      energy, forces := 0.0, Zeros(|f.positions|);
      LoopStart(f);
      if f.NumMolecules() == 1 {
        LoopEnd(f, E, 0);
        LastRows(f, forces, 0);
      }
    } else {
      energy, forces := RunPairLoop(f, E);
      LoopEnd(f, E, f.NumMolecules() - 1);
    }
  }
}
