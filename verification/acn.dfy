/**
 * The `ACN` calculator: validation of the atoms, the molecule-pair loop with the real
 * cutoff, minimum-image shift and site terms, the optional point-charge embedding, and
 * the redistribution of the carbon forces onto the terminal sites.
 */
module Acn {
  import opened Wrappers
  import opened Vectors
  import opened Strides
  import opened ForceField
  import opened MinimumImage
  import opened Combining
  import opened Cutoff
  import opened PairLoop
  import opened SiteTerms
  import opened Redistribution
  import opened PointCharges

  /** What `calculate` reads of an `Atoms` object. */
  datatype Atoms = Atoms(numbers: seq<int>, positions: seq<Vec3>, cell: Mat3, pbc: Triple<bool>,
                         initialCharges: seq<real>) {

    /** One atomic number, position and initial charge per atom, as `Atoms` keeps them. */
    predicate Consistent()
    {
      |positions| == |numbers| && |initialCharges| == |numbers|
    }
  }

  /** The calculator's settings and its optional point-charge embedding. */
  datatype AcnCalculator = AcnCalculator(rc: real, width: real, pcpot: Option<PointChargePotential>)

  const DefaultRc: real := 5.0
  const DefaultWidth: real := 1.0

  /** `ACN(rc=5.0, width=1.0)`: no embedding yet. */
  function NewCalculator(rc: real, width: real): (c: AcnCalculator)
    ensures c.rc == rc && c.width == width && c.pcpot.None?
  {
    AcnCalculator(rc, width, None)
  }

  /** `embed`: a fresh point-charge potential replaces any earlier one. */
  function Embed(acn: AcnCalculator, mmcharges: seq<real>): (c: AcnCalculator)
    ensures c.rc == acn.rc && c.width == acn.width
    ensures c.pcpot == Some(NewPotential(mmcharges))
  {
    acn.(pcpot := Some(NewPotential(mmcharges)))
  }

  /** `acn.pcpot.set_positions(...)` on an embedded calculator. */
  function SetEmbeddedPositions(acn: AcnCalculator, mmpositions: seq<Vec3>): (c: AcnCalculator)
    requires acn.pcpot.Some?
    ensures c.rc == acn.rc && c.width == acn.width && c.pcpot.Some?
    ensures c.pcpot.value == SetPositions(acn.pcpot.value, mmpositions)
  {
    acn.(pcpot := Some(SetPositions(acn.pcpot.value, mmpositions)))
  }

  /**
   * `check_state`: the host's list of changes, with `'positions'` appended exactly when an
   * embedding has positions pending.
   */
  function CheckState(acn: AcnCalculator, hostChanges: seq<string>): (r: seq<string>)
    ensures acn.pcpot.Some? && acn.pcpot.value.Pending() ==> r == hostChanges + ["positions"]
    ensures !(acn.pcpot.Some? && acn.pcpot.value.Pending()) ==> r == hostChanges
  {
    if acn.pcpot.Some? && acn.pcpot.value.mmpositions.Some? then hostChanges + ["positions"] else hostChanges
  }

  /**
   * The embedding lifecycle as `check_state` sees it: nothing is pending after `embed`,
   * and setting positions makes the next `check_state` report a change of positions.
   */
  lemma EmbedLifecycle(acn: AcnCalculator, mmcharges: seq<real>, mmpositions: seq<Vec3>, hostChanges: seq<string>)
    ensures CheckState(Embed(acn, mmcharges), hostChanges) == hostChanges
    ensures CheckState(SetEmbeddedPositions(Embed(acn, mmcharges), mmpositions), hostChanges)
      == hostChanges + ["positions"]
  {
  }

  /** Why `calculate` raises, in the order it checks. */
  datatype CalcError =
    | NotTriplets        // `positions.reshape((-1, 3, 3))` fails
    | NotOrthorhombic    // the cell is not diagonal
    | NoAtoms            // `Z[0]` does not exist
    | WrongSequence      // some `Z[n::3]` is not nitrogen
    | PointChargeError(pc: PcError)

  /** The layout `calculate` picks: `n = 0, me = 2` when `Z[0]` is nitrogen, `n = 2, me = 0` otherwise. */
  function LayoutOf(numbers: seq<int>): Layout
    requires |numbers| > 0
  {
    LayoutFrom(numbers[0])
  }

  lemma LayoutChoice(numbers: seq<int>)
    requires |numbers| > 0
    ensures numbers[0] == 7 ==> LayoutOf(numbers).NOffset() == 0 && LayoutOf(numbers).MeOffset() == 2
    ensures numbers[0] != 7 ==> LayoutOf(numbers).NOffset() == 2 && LayoutOf(numbers).MeOffset() == 0
  {
  }

  /** Every check of `calculate` passes. The carbon check uses `.all` without calling it, so it is no check. */
  predicate Admitted(atoms: Atoms)
  {
    && |atoms.positions| % 3 == 0
    && IsDiagonal(atoms.cell)
    && |atoms.numbers| > 0
    && StrideAll(atoms.numbers, LayoutOf(atoms.numbers).NOffset(), NitrogenNumber)
  }

  /**
   * The checks of `calculate`, in source order: the reshape into triplets, the orthorhombic
   * cell, `Z[0]`, and the nitrogen stride.
   */
  function Validate(atoms: Atoms): (r: Option<CalcError>)
    ensures r.None? <==> Admitted(atoms)
    ensures r == Some(NotTriplets) <==> |atoms.positions| % 3 != 0
    ensures r == Some(NotOrthorhombic) <==> |atoms.positions| % 3 == 0 && !IsDiagonal(atoms.cell)
    ensures r == Some(NoAtoms) <==> |atoms.positions| % 3 == 0 && IsDiagonal(atoms.cell) && |atoms.numbers| == 0
    ensures r == Some(WrongSequence) <==>
              && |atoms.positions| % 3 == 0 && IsDiagonal(atoms.cell) && |atoms.numbers| > 0
              && !StrideAll(atoms.numbers, LayoutOf(atoms.numbers).NOffset(), NitrogenNumber)
  {
    if |atoms.positions| % 3 != 0 then Some(NotTriplets)
    else if !IsDiagonal(atoms.cell) then Some(NotOrthorhombic)
    else if |atoms.numbers| == 0 then Some(NoAtoms)
    else if !StrideAll(atoms.numbers, LayoutOf(atoms.numbers).NOffset(), NitrogenNumber) then Some(WrongSequence)
    else None
  }

  /**
   * The carbon stride is never checked: a molecule whose middle atom is hydrogen, not
   * carbon, passes every check.
   */
  lemma CarbonCheckIgnored()
    ensures var atoms := Atoms([7, 1, 1], [Zero, Zero, Zero], Mat3(Zero, Zero, Zero), Triple(false, false, false),
                               [0.0, 0.0, 0.0]);
      Admitted(atoms) && atoms.numbers[1] != CarbonNumber
  {
    var numbers := [7, 1, 1];
    forall i | 0 <= i < |numbers| && OnStride(i, 0)
      ensures numbers[i] == NitrogenNumber
    {
      assert i == 0;
    }
  }

  /** `self.atoms[:3].get_initial_charges()`: the first molecule's charges, reused for all. */
  function SiteCharges(atoms: Atoms): (q: seq<real>)
    requires |atoms.initialCharges| >= 3
    ensures |q| == 3 && forall o :: 0 <= o < 3 ==> q[o] == atoms.initialCharges[o]
  {
    atoms.initialCharges[..3]
  }

  /** `np.tile(q, nm)` for the three site charges: every molecule's triplet carries the same three. */
  function Tile(q: seq<real>, nm: nat): (r: seq<real>)
    requires |q| == 3
    ensures |r| == 3 * nm
    ensures forall k :: 0 <= k < nm ==> Triplet(r, k) == Triple(q[0], q[1], q[2])
  {
    var r := seq(3 * nm, i requires 0 <= i < 3 * nm => q[i % 3]);
    forall k | 0 <= k < nm
      ensures Triplet(r, k) == Triple(q[0], q[1], q[2])
    {
      assert (3 * k) % 3 == 0 && (3 * k + 1) % 3 == 1 && (3 * k + 2) % 3 == 2;
    }
    r
  }

  /**
   * Which Lennard-Jones vectors `calculate` combines: `AsWritten`, the fixed
   * `[Me, C, N]` vectors whatever the layout; or `ByLayout`, the vectors reordered to
   * follow the layout, as indexing them by site offset assumes.
   */
  datatype LJOrder = AsWritten | ByLayout

  /** The layout whose species the combined parameters follow: `Me,C,N` as written, the atoms' own by layout. */
  function ParamLayout(atoms: Atoms, order: LJOrder): Layout
    requires |atoms.numbers| > 0
  {
    if order.AsWritten? then MeCN else LayoutOf(atoms.numbers)
  }

  /**
   * The site parameters of the pair loop: the first molecule's charges and the combined
   * Lennard-Jones matrices. Site `o` gets the sigma and epsilon of the species that
   * `ParamLayout` puts at offset `o`, so as written it gets the `Me,C,N` species in
   * either layout.
   */
  function Params(atoms: Atoms, u: Units, order: LJOrder): (p: SiteParams)
    requires |atoms.numbers| > 0 && |atoms.initialCharges| >= 3 && u.Positive()
    ensures p.Shaped() && p.Symmetric()
    ensures p.charges == SiteCharges(atoms) && p.kc == u.Kc() && p.sqrt == u.sqrt
    ensures forall o :: 0 <= o < 3 ==> p.sigma[o][o] == SpeciesSigma(ParamLayout(atoms, order).SpeciesAt(o))
    ensures IsSqrt(u.sqrt) ==>
      forall o :: 0 <= o < 3 ==> p.epsilon[o][o] == SpeciesEpsilon(ParamLayout(atoms, order).SpeciesAt(o), u)
  {
    var layout := ParamLayout(atoms, order);
    assert order.AsWritten? ==> SiteSigma(layout) == SigmaAsWritten && SiteEpsilon(layout, u) == EpsilonAsWritten(u);
    SiteEpsilonPositive(layout, u);
    var c := if order.AsWritten? then CombineLJ(SigmaAsWritten, EpsilonAsWritten(u), u.sqrt)
             else CombineLJ(SiteSigma(layout), SiteEpsilon(layout, u), u.sqrt);
    SiteParams(SiteCharges(atoms), c.sigma, c.epsilon, u.Kc(), u.sqrt)
  }

  /** With `Me,C,N` atoms the vectors as written are already in layout order: both orders agree. */
  lemma ParamsAgreeForMeCN(atoms: Atoms, u: Units)
    requires |atoms.numbers| > 0 && |atoms.initialCharges| >= 3 && u.Positive() && atoms.numbers[0] != NitrogenNumber
    ensures Params(atoms, u, AsWritten) == Params(atoms, u, ByLayout)
  {
    assert SiteSigma(MeCN) == SigmaAsWritten && SiteEpsilon(MeCN, u) == EpsilonAsWritten(u);
  }

  /**
   * The pair loop's frame: positions in triplets; the shift `wrap(Dmm, cell, pbc)`
   * (only called with a non-zero length on every periodic axis); `cutoff` with `rc` and
   * `width`; `d = d2**0.5`; and the Coulomb and Lennard-Jones site terms. Each shifted
   * carbon-carbon displacement is a minimum image: unshifted along open axes, within
   * half a cell length along periodic ones. The switch vanishes from `rc` on, and with a
   * true square root `d` is the length of the displacement.
   */
  function FrameOf(acn: AcnCalculator, atoms: Atoms, u: Units, order: LJOrder): (f: Frame)
    requires atoms.Consistent() && Admitted(atoms) && u.Positive()
    ensures f.positions == atoms.positions && f.Shaped() && f.rc == acn.rc
    ensures f.law == AcnLaw(Params(atoms, u, order))
    ensures Vanishes(f.switch, f.rc)
    ensures IsSqrt(u.sqrt) ==> IsLength(f.length)
    ensures WrapDefined(Diagonal(atoms.cell), atoms.pbc) ==>
      forall m, m2, k :: 0 <= m < m2 < f.NumMolecules() && 0 <= k < 3 && !atoms.pbc.At(k) ==> f.Shift(m, m2).At(k) == 0.0
    ensures WrapDefined(Diagonal(atoms.cell), atoms.pbc) ==>
      forall m, m2, k :: 0 <= m < m2 < f.NumMolecules() && 0 <= k < 3 && atoms.pbc.At(k) && Diagonal(atoms.cell).At(k) > 0.0 ==>
        -Diagonal(atoms.cell).At(k) / 2.0 <= f.CarbonDisp(m, m2).At(k) < Diagonal(atoms.cell).At(k) / 2.0
  {
    ImageFrame(atoms.positions, Diagonal(atoms.cell), atoms.pbc, acn.rc, acn.width, u.sqrt, AcnLaw(Params(atoms, u, order)))
  }

  /** The frame of `FrameOf` for given positions, cell lengths, periodicity, cutoff, square root and law. */
  function ImageFrame(positions: seq<Vec3>, cell: Vec3, pbc: Triple<bool>, rc: real, w: real, sqrt: real -> real,
                      law: Law): (f: Frame)
    requires |positions| % 3 == 0
    ensures f.positions == positions && f.Shaped() && f.rc == rc && f.law == law
    ensures Vanishes(f.switch, f.rc)
    ensures IsSqrt(sqrt) ==> IsLength(f.length)
    ensures WrapDefined(cell, pbc) ==>
      forall m, m2, k :: 0 <= m < m2 < f.NumMolecules() && 0 <= k < 3 && !pbc.At(k) ==> f.Shift(m, m2).At(k) == 0.0
    ensures WrapDefined(cell, pbc) ==>
      forall m, m2, k :: 0 <= m < m2 < f.NumMolecules() && 0 <= k < 3 && pbc.At(k) && cell.At(k) > 0.0 ==>
        -cell.At(k) / 2.0 <= f.CarbonDisp(m, m2).At(k) < cell.At(k) / 2.0
  {
    var f := Frame(positions,
                   D => if WrapDefined(cell, pbc) then WrapVec(D, cell, pbc) else Zero,
                   rc,
                   d => Cutoff.Cutoff(d, rc, w),
                   D => Sqrt(sqrt, Norm2(D)),
                   law);
    FrameVanishes(rc, w);
    FrameImages(f, cell, pbc);
    FrameLength(sqrt);
    f
  }

  /** The frame's shifted carbon displacements are minimum images, axis by axis. */
  lemma FrameImages(f: Frame, cell: Vec3, pbc: Triple<bool>)
    requires f.Shaped()
    requires forall D :: f.wrap(D) == if WrapDefined(cell, pbc) then WrapVec(D, cell, pbc) else Zero
    ensures WrapDefined(cell, pbc) ==>
      forall m, m2, k :: 0 <= m < m2 < f.NumMolecules() && 0 <= k < 3 && !pbc.At(k) ==> f.Shift(m, m2).At(k) == 0.0
    ensures WrapDefined(cell, pbc) ==>
      forall m, m2, k :: 0 <= m < m2 < f.NumMolecules() && 0 <= k < 3 && pbc.At(k) && cell.At(k) > 0.0 ==>
        -cell.At(k) / 2.0 <= f.CarbonDisp(m, m2).At(k) < cell.At(k) / 2.0
  {
    if WrapDefined(cell, pbc) {
      forall m, m2, k | 0 <= m < m2 < f.NumMolecules() && 0 <= k < 3 && pbc.At(k) && cell.At(k) > 0.0
        ensures -cell.At(k) / 2.0 <= f.CarbonDisp(m, m2).At(k) < cell.At(k) / 2.0
      {
        var D := Sub(f.positions[3 * m2 + 1], f.positions[3 * m + 1]);
        assert f.CarbonDisp(m, m2) == Add(D, WrapVec(D, cell, pbc));
        AddAt(D, WrapVec(D, cell, pbc), k);
      }
    }
  }

  lemma AddAt(a: Vec3, b: Vec3, k: nat)
    requires k < 3
    ensures Add(a, b).At(k) == a.At(k) + b.At(k)
  {
  }

  /** With a true square root the frame's `d` is the length of the displacement. */
  lemma FrameLength(sqrt: real -> real)
    ensures IsSqrt(sqrt) ==> IsLength(D => Sqrt(sqrt, Norm2(D)))
  {
    if IsSqrt(sqrt) {
      var len := D => Sqrt(sqrt, Norm2(D));
      forall D
        ensures len(D) >= 0.0 && len(D) * len(D) == Norm2(D)
      {
        RootOfNorm(sqrt, D);
      }
    }
  }

  lemma RootOfNorm(sqrt: real -> real, D: Vec3)
    requires IsSqrt(sqrt)
    ensures Sqrt(sqrt, Norm2(D)) >= 0.0 && Sqrt(sqrt, Norm2(D)) * Sqrt(sqrt, Norm2(D)) == Norm2(D)
  {
    Norm2Sign(D);
    SquareOfRoot(sqrt, Norm2(D));
  }

  /** `len` gives every displacement its Euclidean length: non-negative, squaring to `Norm2`. */
  ghost predicate IsLength(len: Vec3 -> real)
  {
    forall D :: len(D) >= 0.0 && len(D) * len(D) == Norm2(D)
  }

  lemma SquareOfRoot(sqrt: real -> real, x: real)
    requires IsSqrt(sqrt) && x >= 0.0
    ensures Sqrt(sqrt, x) >= 0.0 && Sqrt(sqrt, x) * Sqrt(sqrt, x) == x
  {
  }

  /** No two sites of different molecules coincide once shifted to the minimum image. */
  predicate Separated(f: Frame)
    requires f.Shaped()
  {
    forall m, m2, j, i :: 0 <= m < m2 < f.NumMolecules() && j < 3 && i < 3 ==> f.SiteDisp(m, j, m2, i) != Zero
  }

  /** The switching function of `FrameOf` vanishes from `rc` on. */
  lemma FrameVanishes(rc: real, w: real)
    ensures Vanishes(d => Cutoff.Cutoff(d, rc, w), rc)
  {
    forall d | d >= rc
      ensures Cutoff.Cutoff(d, rc, w) == CutValue(0.0, 0.0)
    {
    }
  }

  /** With a true square root the site law can be evaluated at every non-zero displacement. */
  lemma LawApart(p: SiteParams)
    requires p.Shaped() && IsSqrt(p.sqrt)
    ensures forall t, j, i, D :: j < 3 && i < 3 && D != Zero ==>
              AcnLaw(p).energy.requires(t, j, i, D) && AcnLaw(p).factor.requires(t, j, i, D)
    ensures forall D :: D != Zero ==> Sqrt(p.sqrt, Norm2(D)) > 0.0
  {
    forall D | D != Zero
      ensures Sqrt(p.sqrt, Norm2(D)) > 0.0
    {
      EvaluableApart(p, 1, 1, D);
    }
  }

  /** With a true square root and separated sites the frame can be evaluated. */
  lemma FrameValid(acn: AcnCalculator, atoms: Atoms, u: Units, order: LJOrder)
    requires atoms.Consistent() && Admitted(atoms) && u.Valid() && Separated(FrameOf(acn, atoms, u, order))
    ensures FrameOf(acn, atoms, u, order).Valid()
  {
    var f := FrameOf(acn, atoms, u, order);
    var p := Params(atoms, u, order);
    FrameVanishes(acn.rc, acn.width);
    LawApart(p);
    assert f.law == AcnLaw(p);
    forall m, m2 | 0 <= m < m2 < f.NumMolecules()
      ensures f.length(f.CarbonDisp(m, m2)) > 0.0
    {
      assert f.SiteDisp(m, 1, m2, 1) != Zero;
    }
  }

  /**
   * The point-charge evaluation `calculate` asks for: the embedding's MM charges at their
   * pending positions, and at every QM site the charge of the same site of the first
   * molecule.
   */
  function EmbeddingFor(acn: AcnCalculator, atoms: Atoms, u: Units): (e: Embedding)
    requires atoms.Consistent() && Admitted(atoms) && acn.pcpot.Some? && acn.pcpot.value.Pending()
    ensures e.kc == u.Kc() && e.sqrt == u.sqrt
    ensures e.mmcharges == acn.pcpot.value.mmcharges && e.mmpositions == acn.pcpot.value.mmpositions.value
    ensures e.qmpositions == atoms.positions && |e.qmcharges| == |atoms.positions|
    ensures forall k :: 0 <= k < |atoms.positions| / 3 ==>
      Triplet(e.qmcharges, k) == Triple(atoms.initialCharges[0], atoms.initialCharges[1], atoms.initialCharges[2])
  {
    EmbeddingOf(acn.pcpot.value, u.Kc(), u.sqrt, Tile(SiteCharges(atoms), |atoms.positions| / 3), atoms.positions)
  }

  /** What `calculate` needs beyond its own checks: nothing it computes divides by zero. */
  ghost predicate Computable(acn: AcnCalculator, atoms: Atoms, u: Units, order: LJOrder)
    requires atoms.Consistent() && Admitted(atoms) && u.Positive()
  {
    && (|atoms.positions| <= 3 || WrapDefined(Diagonal(atoms.cell), atoms.pbc))
    && Separated(FrameOf(acn, atoms, u, order))
    && (acn.pcpot.Some? && acn.pcpot.value.Pending() ==> EmbeddingFor(acn, atoms, u).Valid())
  }

  /** `energy`, the redistributed `forces`, and the calculator as `calculate` leaves it. */
  datatype Calculated = Calculated(energy: real, forces: seq<Vec3>, state: AcnCalculator)

  /** The energy `calculate` reports: the pair energy, plus the embedding's when there is one. */
  ghost function ExpectedEnergy(acn: AcnCalculator, atoms: Atoms, u: Units, order: LJOrder): real
    requires atoms.Consistent() && Admitted(atoms) && u.Valid() && Computable(acn, atoms, u, order)
  {
    FrameValid(acn, atoms, u, order);
    PairLoop.TotalEnergy(FrameOf(acn, atoms, u, order))
      + if acn.pcpot.Some? && acn.pcpot.value.Pending() then EmbeddingFor(acn, atoms, u).TotalEnergy() else 0.0
  }

  lemma Regroup3(a: Vec3, b: Vec3, c: Vec3)
    requires Add(b, c) == Zero
    ensures Add(Add(a, b), c) == a
  {
    assert Add(Add(a, b), c).x == a.x;
    assert Add(Add(a, b), c).y == a.y;
    assert Add(Add(a, b), c).z == a.z;
  }

  /** The point-charge step: QM forces added to the pair forces, the embedding's state advanced. */
  method AddPointCharges(acn: AcnCalculator, atoms: Atoms, u: Units, energy: real, forces: seq<Vec3>)
    returns (r: Result<Calculated, CalcError>)
    requires atoms.Consistent() && Admitted(atoms) && acn.pcpot.Some? && |forces| == |atoms.positions|
    requires acn.pcpot.value.Pending() ==> EmbeddingFor(acn, atoms, u).Valid()
    ensures r.Failure? <==> !acn.pcpot.value.Pending()
    ensures r.Failure? ==> r.error == PointChargeError(NoPositions)
    ensures r.Success? ==> Embedded(acn, atoms, u, energy, forces, r.value)
  {
    var nm := |atoms.positions| / 3;
    var q := Tile(SiteCharges(atoms), nm);
    var pr := PointCharges.Calculate(acn.pcpot.value, u.Kc(), u.sqrt, q, atoms.positions);
    if pr.Failure? {
      return Failure(PointChargeError(pr.error));
    }
    var o := pr.value;
    ghost var S := EmbeddingFor(acn, atoms, u);
    assert o.qmforces == QMForces(S);
    assert o.potential.mmforces.value == MMForces(S);
    SumAddAll(forces, o.qmforces);
    Regroup3(Sum(forces), Sum(o.qmforces), Sum(o.potential.mmforces.value));
    r := Success(Calculated(energy + o.energy, AddAll(forces, o.qmforces), acn.(pcpot := Some(o.potential))));
  }

  /**
   * What the point-charge step leaves: the embedding's energy added, its QM forces added
   * row by row, the MM forces stored, the positions consumed, and the forces on the QM
   * sites and on the MM charges together still adding up to the pair forces' sum.
   */
  ghost predicate Embedded(acn: AcnCalculator, atoms: Atoms, u: Units, energy: real, forces: seq<Vec3>, o: Calculated)
    requires atoms.Consistent() && Admitted(atoms) && acn.pcpot.Some? && |forces| == |atoms.positions|
    requires acn.pcpot.value.Pending() ==> EmbeddingFor(acn, atoms, u).Valid()
  {
    && acn.pcpot.value.Pending()
    && var S := EmbeddingFor(acn, atoms, u);
    && o.energy == energy + S.TotalEnergy()
    && o.forces == AddAll(forces, QMForces(S))
    && o.state == acn.(pcpot := Some(acn.pcpot.value.(mmpositions := None, mmforces := Some(MMForces(S)))))
    && Add(Sum(o.forces), Sum(MMForces(S))) == Sum(forces)
  }

  /**
   * `calculate`. Invalid atoms raise in the order of the checks. The pair loop's forces
   * (the ghost `pair`) balance and vanish on isolated molecules; with an embedding that
   * has pending positions its energy and QM forces are added, and an embedding without
   * positions raises. The forces reported are the redistributed ones, zero on carbon.
   */
  method Calculate(acn: AcnCalculator, atoms: Atoms, u: Units, order: LJOrder) returns (r: Result<Calculated, CalcError>, ghost pair: seq<Vec3>)
    requires atoms.Consistent() && u.Valid()
    requires Admitted(atoms) ==> Computable(acn, atoms, u, order)
    ensures !Admitted(atoms) ==> r == Failure(Validate(atoms).value)
    ensures Admitted(atoms) ==> (r.Failure? <==> acn.pcpot.Some? && !acn.pcpot.value.Pending())
    ensures Admitted(atoms) && r.Failure? ==> r.error == PointChargeError(NoPositions)
    ensures r.Success? ==> Admitted(atoms) && Reported(acn, atoms, u, order, pair, r.value)
  {
    var err := Validate(atoms);
    if err.Some? {
      return Failure(err.value), [];
    }
    var energy, p := PairStep(acn, atoms, u, order);
    pair := p;
    var layout := LayoutOf(atoms.numbers);
    if acn.pcpot.None? {
      r := Success(Calculated(energy, Redistribute(layout, p, u), acn));
      ReportedPlain(acn, atoms, u, order, p, r.value);
      return;
    }
    var pr := AddPointCharges(acn, atoms, u, energy, p);
    if pr.Failure? {
      return pr, p;
    }
    r := Success(pr.value.(forces := Redistribute(layout, pr.value.forces, u)));
    ReportedEmbedded(acn, atoms, u, order, p, energy, pr.value, r.value);
  }

  /** The pair loop on the atoms' frame. */
  method PairStep(acn: AcnCalculator, atoms: Atoms, u: Units, order: LJOrder) returns (energy: real, pair: seq<Vec3>)
    requires atoms.Consistent() && Admitted(atoms) && u.Valid() && Computable(acn, atoms, u, order)
    ensures FrameOf(acn, atoms, u, order).Valid()
    ensures energy == PairLoop.TotalEnergy(FrameOf(acn, atoms, u, order)) && Balanced(FrameOf(acn, atoms, u, order), pair)
    ensures forall a :: 0 <= a < |atoms.positions| / 3 ==> Triplet(pair, a) == PairRows(FrameOf(acn, atoms, u, order), a)
  {
    FrameValid(acn, atoms, u, order);
    energy, pair := PairForces(FrameOf(acn, atoms, u, order));
  }

  /**
   * What a successful `calculate` reports: the expected energy; pair forces that are,
   * molecule by molecule, what the molecule received from earlier partners less what it
   * gave to later ones; forces that are the redistribution of the pair forces, plus the embedding's QM forces when there is one;
   * the calculator unchanged without an embedding, and otherwise its MM forces stored
   * and its positions consumed.
   */
  ghost predicate Reported(acn: AcnCalculator, atoms: Atoms, u: Units, order: LJOrder, pair: seq<Vec3>, o: Calculated)
    requires atoms.Consistent() && Admitted(atoms) && u.Valid() && Computable(acn, atoms, u, order)
  {
    FrameValid(acn, atoms, u, order);
    var f := FrameOf(acn, atoms, u, order);
    var layout := LayoutOf(atoms.numbers);
    && o.energy == ExpectedEnergy(acn, atoms, u, order)
    && Balanced(f, pair)
    && (forall a :: 0 <= a < f.NumMolecules() ==> Triplet(pair, a) == PairRows(f, a))
    && (acn.pcpot.None? ==> o.forces == Redistribute(layout, pair, u) && o.state == acn)
    && (acn.pcpot.Some? ==>
          && acn.pcpot.value.Pending()
          && var S := EmbeddingFor(acn, atoms, u);
          && o.forces == Redistribute(layout, AddAll(pair, QMForces(S)), u)
          && o.state == acn.(pcpot := Some(acn.pcpot.value.(mmpositions := None, mmforces := Some(MMForces(S)))))
          && Add(Sum(AddAll(pair, QMForces(S))), Sum(MMForces(S))) == Zero)
  }

  lemma ReportedPlain(acn: AcnCalculator, atoms: Atoms, u: Units, order: LJOrder, pair: seq<Vec3>, o: Calculated)
    requires atoms.Consistent() && Admitted(atoms) && u.Valid() && Computable(acn, atoms, u, order) && acn.pcpot.None?
    requires FrameOf(acn, atoms, u, order).Valid()
    requires o.energy == PairLoop.TotalEnergy(FrameOf(acn, atoms, u, order)) && Balanced(FrameOf(acn, atoms, u, order), pair)
    requires forall a :: 0 <= a < |atoms.positions| / 3 ==> Triplet(pair, a) == PairRows(FrameOf(acn, atoms, u, order), a)
    requires o == Calculated(o.energy, Redistribute(LayoutOf(atoms.numbers), pair, u), acn)
    ensures Reported(acn, atoms, u, order, pair, o)
  {
  }

  lemma ReportedEmbedded(acn: AcnCalculator, atoms: Atoms, u: Units, order: LJOrder, pair: seq<Vec3>, energy: real,
                         e: Calculated, o: Calculated)
    requires atoms.Consistent() && Admitted(atoms) && u.Valid() && Computable(acn, atoms, u, order) && acn.pcpot.Some?
    requires FrameOf(acn, atoms, u, order).Valid()
    requires energy == PairLoop.TotalEnergy(FrameOf(acn, atoms, u, order)) && Balanced(FrameOf(acn, atoms, u, order), pair)
    requires forall a :: 0 <= a < |atoms.positions| / 3 ==> Triplet(pair, a) == PairRows(FrameOf(acn, atoms, u, order), a)
    requires Embedded(acn, atoms, u, energy, pair, e)
    requires o == e.(forces := Redistribute(LayoutOf(atoms.numbers), e.forces, u))
    ensures Reported(acn, atoms, u, order, pair, o)
  {
  }

  /** Every carbon row `calculate` reports is zero: its force has gone to the terminal sites. */
  lemma CarbonAtRest(acn: AcnCalculator, atoms: Atoms, u: Units, order: LJOrder, pair: seq<Vec3>, o: Calculated)
    requires atoms.Consistent() && Admitted(atoms) && u.Valid() && Computable(acn, atoms, u, order)
    requires Reported(acn, atoms, u, order, pair, o)
    ensures |o.forces| == |atoms.positions|
    ensures forall k :: 0 <= k < |atoms.positions| / 3 ==> o.forces[3 * k + 1] == Zero
  {
    FrameValid(acn, atoms, u, order);
    var layout := LayoutOf(atoms.numbers);
    if acn.pcpot.Some? {
      var S := EmbeddingFor(acn, atoms, u);
      assert o.forces == Redistribute(layout, AddAll(pair, QMForces(S)), u);
    } else {
      assert o.forces == Redistribute(layout, pair, u);
    }
  }

  /** Without an embedding, a molecule with no other molecule within `rc` feels no force. */
  lemma IsolatedAtRest(acn: AcnCalculator, atoms: Atoms, u: Units, order: LJOrder, pair: seq<Vec3>, o: Calculated, a: nat)
    requires atoms.Consistent() && Admitted(atoms) && u.Valid() && Computable(acn, atoms, u, order)
    requires Reported(acn, atoms, u, order, pair, o) && acn.pcpot.None?
    requires a < |atoms.positions| / 3 && FrameOf(acn, atoms, u, order).Isolated(a)
    ensures Triplet(o.forces, a) == Triple(Zero, Zero, Zero)
  {
    FrameValid(acn, atoms, u, order);
    RedistributeAtRest(LayoutOf(atoms.numbers), pair, u, a);
  }

  /** Without an embedding, a lone molecule has zero energy and zero forces. */
  lemma SingleMolecule(acn: AcnCalculator, atoms: Atoms, u: Units, order: LJOrder, pair: seq<Vec3>, o: Calculated)
    requires atoms.Consistent() && Admitted(atoms) && u.Valid() && Computable(acn, atoms, u, order)
    requires Reported(acn, atoms, u, order, pair, o) && acn.pcpot.None? && |atoms.positions| == 3
    ensures o.energy == 0.0 && o.forces == Zeros(3)
  {
    FrameValid(acn, atoms, u, order);
    var f := FrameOf(acn, atoms, u, order);
    assert f.NumMolecules() == 1;
    TotalEnergyAllBeyond(f);
    assert f.Isolated(0);
    LoneTriplet(pair);
    RedistributeZero(LayoutOf(atoms.numbers), 1, u);
    assert o.forces == Redistribute(LayoutOf(atoms.numbers), pair, u);
    assert pair == Zeros(3 * 1);
  }

  lemma LoneTriplet(s: seq<Vec3>)
    requires |s| == 3 && Triplet(s, 0) == Triple(Zero, Zero, Zero)
    ensures s == Zeros(3)
  {
    assert s[0] == Zero && s[1] == Zero && s[2] == Zero;
  }

  /** Without an embedding, when every pair of molecules is beyond `rc` the energy is zero. */
  lemma AllBeyondNoEnergy(acn: AcnCalculator, atoms: Atoms, u: Units, order: LJOrder, pair: seq<Vec3>, o: Calculated)
    requires atoms.Consistent() && Admitted(atoms) && u.Valid() && Computable(acn, atoms, u, order)
    requires Reported(acn, atoms, u, order, pair, o) && acn.pcpot.None?
    requires FrameOf(acn, atoms, u, order).Shaped()
    requires forall a, b :: 0 <= a < b < |atoms.positions| / 3 ==> FrameOf(acn, atoms, u, order).Beyond(a, b)
    ensures o.energy == 0.0
  {
    FrameValid(acn, atoms, u, order);
    TotalEnergyAllBeyond(FrameOf(acn, atoms, u, order));
  }

  /**
   * For atoms in the `N,C,Me` layout the nitrogen-nitrogen pair gets sigma `sigmaN` from the
   * layout-ordered parameters, where the vector as written would give it `sigmaMe`.
   */
  lemma NitrogenPairSigma(atoms: Atoms, u: Units)
    requires |atoms.numbers| > 0 && atoms.numbers[0] == NitrogenNumber && |atoms.initialCharges| >= 3 && u.Positive()
    ensures Params(atoms, u, AsWritten).sigma[0][0] == SigmaMe
    ensures Params(atoms, u, ByLayout).sigma[0][0] == SigmaN
    ensures SigmaMe != SigmaN
  {
    assert LayoutOf(atoms.numbers) == NCMe;
  }
}
