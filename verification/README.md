# Acetonitrile force field (`ACN`) in Dafny

A model of ASE's acetonitrile calculator (`ase/calculators/acn.py`), the three-site
rigid model of Guardia et al. Each molecule is a triplet of sites, methyl (Me), carbon (C)
and nitrogen (N). The atoms come in `N,C,Me` or `Me,C,N` order, repeated. The model is
over Dafny `real`.

- **Units.** The square root, `Hartree`, `Bohr`, `kJ`, `mol` and the atomic masses are
  carried by a `Units` value. Its validity says only that the constants are positive and
  that `sqrt` returns the non-negative root.
- **Files.**
  - `force_field.dfy`: the force-field constants and the two layouts.
  - `minimum_image.dfy`: `wrap`.
  - `combining.dfy`: `CombineLJ_lorenz_berthelot`.
  - `cutoff.dfy`: `ACN.cutoff`.
  - `site_terms.dfy`: the Coulomb and Lennard-Jones site terms.
  - `pair_loop.dfy`: the molecule-pair loop of `calculate`, proved for any site law.
  - `redistribution.dfy`: `redistribute_forces`.
  - `point_charges.dfy`: `PointChargePotential`.
  - `charges.dfy`: `set_acn_charges`.
  - `acn.dfy`: the checks of `calculate`, `calculate` itself, `embed` and `check_state`.
  - `vectors.dfy`, `strides.dfy`, `wrappers.dfy`: 3-vectors, numpy's `a[s::3]` slices,
    `Option` and `Result`.
- **Behaviour reproduced as the code has it.**
  - The `.all` checks without a call never fail. These are the sequence checks in
    `set_acn_charges` and the carbon check in `calculate`.
  - `calculate` takes the charges of the first three atoms and reuses them for every
    molecule, both in the pair loop and as tiled QM charges for the point charges.
  - `set_acn_charges` with `qmidx > 0` leaves the slots before `qmidx` unassigned. They
    are modelled as `None`. A negative `qmidx` reads `numbers` from the end, and the
    slice starts `n`, `me` and `qmidx + 1` are taken as Python takes negative starts.
  - The wrapped range is half-open, `[-L/2, L/2)`.
- **Both readings of the Lennard-Jones vectors.** `calculate` combines the fixed
  `[Me, C, N]` vectors in either layout. `Acn.Calculate` takes an `LJOrder`:
  - `AsWritten` is the program as written;
  - `ByLayout` is the corrected program, whose vectors follow the layout (see Findings).

  Every property of `calculate` below holds for both.

## Model

| member | source | states |
|---|---|---|
| ForceField.MoleculeNeutral | ase/calculators/acn.py:15-17 | the three site charges add up to zero |
| ForceField.LayoutFrom | ase/calculators/acn.py:115-120 | the `N,C,Me` layout is chosen exactly when the first atomic number is 7 |
| ForceField.SigmaAsWrittenMismatch | ase/calculators/acn.py:18-21 | the sigma vector as written, `[Me, C, N]` indexed by site offset, gives the N site the Me sigma (and the reverse) in the `N,C,Me` layout; it is right for `Me,C,N` |
| ForceField.SiteSigma | ase/calculators/acn.py:18-21 | the corrected sigma vector of Findings: sigma per site offset is the sigma of the species at that offset in the layout (as written, line 21 fixes `[Me, C, N]`) |
| ForceField.SiteEpsilon | ase/calculators/acn.py:22-25 | the corrected epsilon vector of Findings: epsilon per site offset is the converted epsilon of the species at that offset in the layout (as written, line 25 fixes `[Me, C, N]`) |
| ForceField.SiteEpsilonPositive | ase/calculators/acn.py:22-25 | every site epsilon is positive |
| Charges.SetAcnCharges | ase/calculators/acn.py:42-59 | fails exactly when `numbers[qmidx]` does not exist, negative indices from `-len` included; otherwise one slot per atom; for `qmidx >= 0` the slots before `qmidx` are unassigned and from `qmidx` on each slot holds the charge of the species at its triplet offset in the layout read at `qmidx`; the `.all` checks never reject |
| Charges.NegativeIndexFromEnd | ase/calculators/acn.py:42-58 | an index at least three from the end gives the same charges as the same position counted from the front |
| Charges.LastIndexWraps | ase/calculators/acn.py:46-58 | `qmidx = -1` on `C, H, N` reads nitrogen at the end, sets `n = -1` and `me = 1`, and gives the charges `qC, qMe, qN` |
| Charges.ChargesNeutral | ase/calculators/acn.py:42-58 | for whole triplets from index 0 every slot is assigned and every molecule's charges add up to zero |
| MinimumImage.WrapAxis | ase/calculators/acn.py:68 | on an axis of length `L > 0` the shifted value lies in `[-L/2, L/2)` (mirrored for `L < 0`), and the shift is a whole multiple of `L` |
| MinimumImage.WrapAxisUnique | ase/calculators/acn.py:68 | the shift is the only whole multiple of `L` that moves `d` into `[-L/2, L/2)` |
| MinimumImage.WrapAxisOfWrapped | ase/calculators/acn.py:68 | a value already in `[-L/2, L/2)` gets shift zero |
| MinimumImage.WrapAxisOdd | ase/calculators/acn.py:68 | the shifts of `d` and `-d` are negatives of each other unless `d` wraps onto `-L/2` |
| MinimumImage.WrapAxisEdge | ase/calculators/acn.py:68 | `L/2` is shifted by `-L` while `-L/2` stays put: the range is half-open |
| MinimumImage.WrapVec | ase/calculators/acn.py:61-69 | non-periodic axes get shift zero; periodic axes of positive length are wrapped into `[-L/2, L/2)` by a whole multiple of `L` |
| MinimumImage.Wrap | ase/calculators/acn.py:61-69 | one shift per displacement, empty input included, each with the per-axis properties above |
| MinimumImage.WrapOfWrapped | ase/calculators/acn.py:61-69 | a displacement already inside the half-open box on every periodic axis gets the zero shift |
| Combining.ArithmeticMeans | ase/calculators/acn.py:78 | a `k`×`k` matrix whose entry `[i][j]` lies midway between `v[i]` and `v[j]`; symmetric, with `v` on the diagonal |
| Combining.GeometricMeans | ase/calculators/acn.py:79 | a symmetric `k`×`k` matrix whose entry `[i][j]` is the non-negative root of `v[i] v[j]`, with the non-negative `v[i]` on the diagonal |
| Combining.CombineLJ | ase/calculators/acn.py:71-80 | pair sigma is the arithmetic mean and pair epsilon the geometric mean of the two species' values; both matrices are square, symmetric, and reproduce the species values on the diagonal |
| Cutoff.ShellRange | ase/calculators/acn.py:211 | the smoothstep weight `1 - y²(3 - 2y)` lies in `[0, 1]` for `y` in `[0, 1]` |
| Cutoff.Cutoff | ase/calculators/acn.py:204-214 | `cut` is 1 up to `rc - w` and 0 from `rc` on, with the smoothstep polynomial in between; it always lies in `[0, 1]`; `dcut` is zero outside the shell and never positive |
| Cutoff.CutoffOnClosedShell | ase/calculators/acn.py:204-214 | at both edges of the shell the flat values and slopes agree with the polynomial, so value and slope are continuous |
| Cutoff.CutoffDerivative | ase/calculators/acn.py:208-213 | across the shell a step `h` in distance changes `cut` by `h * dcut` plus terms of second and third order in `h / w`, so `dcut` is the derivative of `cut` |
| Cutoff.CutoffMonotone | ase/calculators/acn.py:205-211 | the weight never increases with distance |
| SiteTerms.EvaluableApart | ase/calculators/acn.py:150-152 | with a true root every non-zero displacement gives a positive distance, so both site terms can be evaluated |
| SiteTerms.SiteEnergy | ase/calculators/acn.py:154-165 | the Coulomb energy times the distance is `q_j q_i k_c`; the Lennard-Jones energy is zero at `r = sigma` |
| SiteTerms.SiteFactor | ase/calculators/acn.py:156-167 | the Coulomb force factor times `r2` is the Coulomb energy; for non-zero well depth and sigma the Lennard-Jones factor is zero exactly where `c6 = 1/2`, the minimum of the potential |
| SiteTerms.AcnLaw | ase/calculators/acn.py:150-167 | the law is defined at every evaluable site pair and gives its energy and force factor there; with a true root that is every pair at a non-zero displacement |
| SiteTerms.LJSign | ase/calculators/acn.py:163-165 | for a positive well depth the Lennard-Jones energy is positive exactly inside `sigma` and negative exactly outside it |
| SiteTerms.SiteSymmetric | ase/calculators/acn.py:150-167 | swapping the two sites of a pair and reversing `D` leaves the energy and the force factor unchanged, so the forces on the two sites are opposite |
| SiteTerms.CoulombSign | ase/calculators/acn.py:154 | the Coulomb energy has the sign of the charge product |
| PairLoop.PairBeyondInert | ase/calculators/acn.py:144-172 | a pair whose carbon-carbon distance is at least `rc` pushes no force onto any site and adds no energy |
| PairLoop.PairEnergyBeyond | ase/calculators/acn.py:155-166 | a pair beyond `rc` adds no energy |
| PairLoop.MoleculeEnergyBySweeps | ase/calculators/acn.py:149-166 | the energy one molecule adds, summed partner by partner inside each sweep, equals its pair energies summed pair by pair |
| PairLoop.MoleculeEnergiesAccumulate | ase/calculators/acn.py:133-166 | accumulating the molecules' energies in loop order gives the energy of all pairs below the current molecule |
| PairLoop.TotalEnergyAllBeyond | ase/calculators/acn.py:133-172 | when every pair is beyond `rc` the pair energy is zero |
| PairLoop.PairNewton | ase/calculators/acn.py:156-172 | what a molecule pair adds to the rows of the later molecule and what it takes from the earlier one have the same total |
| PairLoop.SweepsByPartners | ase/calculators/acn.py:149-172 | the reactions summed sweep by sweep, partner by partner inside each sweep as the loop goes, equal the reactions summed pair by pair |
| PairLoop.Sweep | ase/calculators/acn.py:150-172 | one sweep `(m, j)` of Coulomb or Lennard-Jones adds the terms of all later partners to the energy; each later molecule's rows gain `F` on its sites and `Fmm` on its carbon; row `3m+j` loses the summed `F` and row `3m+1` the summed `Fmm` of all partners; earlier molecules are untouched, the row sum is kept and isolated molecules' rows do not change |
| PairLoop.SiteSweeps | ase/calculators/acn.py:149-172 | the Coulomb and Lennard-Jones sweeps of one site carry the row bookkeeping of the molecule's sweeps on to the next site and add both energies |
| PairLoop.MoleculeSweeps | ase/calculators/acn.py:149-172 | the six sweeps of a molecule add that molecule's energy; each later molecule gains everything its pair with `m` pushes on it, `m` loses the reactions of all its later pairs, earlier molecules are untouched; the row sum is kept and isolated molecules' rows do not change |
| PairLoop.MoleculeStep | ase/calculators/acn.py:133-172 | one pass of the outer loop keeps the rows balanced, adds molecule `m`'s pair energy, gives `m` its final rows, and adds to every later molecule what its pair with `m` pushes on it |
| PairLoop.RunPairLoop | ase/calculators/acn.py:133-172 | for two or more molecules the loop ends with balanced rows, the energy of every pair, and every molecule's rows equal to the gains from its pairs with earlier molecules less the reactions of its pairs with later ones |
| PairLoop.PairForces | ase/calculators/acn.py:130-172 | every molecule's rows are the gains from its pairs with earlier molecules less the reactions of its pairs with later ones; the rows sum to the zero vector; the energy counts every molecule pair once with its cutoff weight; an isolated molecule gets zero rows; with one molecule or none the energy is 0 and all rows are zero |
| Redistribution.RedistributeMolecule | ase/calculators/acn.py:186-196 | the carbon row becomes zero, and the N and Me rows are the fixed combinations at lines 192 and 194 of that molecule's own three rows |
| Redistribution.Redistribute | ase/calculators/acn.py:186-196 | same shape as the input; each molecule's output is the per-molecule map of its own input rows, so every carbon row is zero |
| Redistribution.RedistributeAdd | ase/calculators/acn.py:192-194 | redistribution is additive: redistributing a sum of force lists gives the sum of the redistributions |
| Redistribution.RedistributeZero | ase/calculators/acn.py:189-196 | all-zero forces stay all zero |
| Redistribution.RedistributeAtRest | ase/calculators/acn.py:189-196 | a molecule with zero rows keeps zero rows |
| PointCharges.NewPotential | ase/calculators/acn.py:228-235 | a new potential keeps its charges and has no positions and no forces |
| PointCharges.SetPositions | ase/calculators/acn.py:237-238 | the given positions become pending; charges and forces are kept |
| PointCharges.GetForces | ase/calculators/acn.py:255-256 | returns the MM forces of the last evaluation, when there was one |
| PointCharges.Evaluate | ase/calculators/acn.py:241-251 | the energy is the sum of all pair energies; each QM row is the sum of that site's pair forces; each MM row is minus the sum of that charge's pair forces, and zero past the shorter of charges and positions; QM and MM forces together sum to zero |
| PointCharges.Calculate | ase/calculators/acn.py:240-253 | fails exactly when no positions are pending; otherwise the evaluation above, the MM forces stored, the charges kept, and the positions consumed |
| Acn.NewCalculator | ase/calculators/acn.py:87-98 | a new calculator keeps `rc` and `width` and has no embedding |
| Acn.Embed | ase/calculators/acn.py:216-219 | `embed` installs a fresh point-charge potential with the given charges and keeps `rc` and `width` |
| Acn.SetEmbeddedPositions | ase/calculators/acn.py:237-238 | setting positions on the embedding makes them pending |
| Acn.CheckState | ase/calculators/acn.py:221-225 | `'positions'` is added to the host's changes exactly when an embedding has positions pending |
| Acn.EmbedLifecycle | ase/calculators/acn.py:216-238 | right after `embed` nothing is reported; after `set_positions` the next `check_state` reports `'positions'` |
| Acn.LayoutChoice | ase/calculators/acn.py:115-120 | `n = 0, me = 2` when `Z[0]` is 7, and `n = 2, me = 0` otherwise |
| Acn.Validate | ase/calculators/acn.py:105-124 | reports, in source order, the first failing check: positions not in triplets, a non-diagonal cell, no atoms, or a non-nitrogen atom on the `n` stride; passes exactly when all pass |
| Acn.CarbonCheckIgnored | ase/calculators/acn.py:123-124 | a molecule whose middle atom is not carbon passes every check |
| Acn.SiteCharges | ase/calculators/acn.py:128 | the charges used are the initial charges of the first three atoms |
| Acn.Tile | ase/calculators/acn.py:175 | every molecule's triplet of the tiled list holds the three given charges |
| Acn.Params | ase/calculators/acn.py:128-147 | the charges are the first molecule's; the matrices are well shaped and symmetric; site `o`'s own sigma and, with a true root, epsilon are those of the species at offset `o` of `Me,C,N` as written, or of the atoms' layout when ordered by layout |
| Acn.ParamsAgreeForMeCN | ase/calculators/acn.py:115-147 | for `Me,C,N` atoms the parameters as written and by layout are the same |
| Acn.FrameOf | ase/calculators/acn.py:136-152 | the frame holds the atoms' positions, `rc` and the site law of the parameters; its switch vanishes from `rc` on; with a true root `d` is the length of the displacement; on a cell `wrap` accepts, each shifted carbon displacement is unshifted along open axes and within half a cell length along periodic ones |
| Acn.FrameValid | ase/calculators/acn.py:136-167 | with a true root and separated sites every carbon distance is positive, the cutoff vanishes from `rc` on, and every site term can be evaluated |
| Acn.NitrogenPairSigma | ase/calculators/acn.py:147 | in the `N,C,Me` layout the nitrogen-nitrogen sigma as written is `sigmaMe`, and `sigmaN` when ordered by layout; the two differ |
| Acn.EmbeddingFor | ase/calculators/acn.py:174-176 | the point charges are evaluated with the embedding's MM charges and pending positions, the atoms' positions as QM sites, and the first molecule's charges on every triplet |
| Acn.AddPointCharges | ase/calculators/acn.py:174-178 | fails exactly when the embedding has no positions pending; otherwise it adds the embedding's energy and QM forces, stores its MM forces, consumes its positions, and keeps the combined force sum |
| Acn.PairStep | ase/calculators/acn.py:130-172 | the pair loop on the atoms' frame gives the pair energy, balanced rows, and every molecule's rows as the gains from earlier pairs less the reactions of later ones |
| Acn.Calculate | ase/calculators/acn.py:100-184 | invalid atoms fail with the first failing check; otherwise it fails exactly when an embedding has no positions pending; on success the energy is the pair energy plus the embedding's, the pair forces are per molecule the gains from earlier pairs less the reactions of later ones, the forces reported are the redistribution of the pair forces plus QM forces, the calculator is unchanged without an embedding, and with one the embedding's positions are consumed, its MM forces stored, and all forces before redistribution sum to zero |
| Acn.CarbonAtRest | ase/calculators/acn.py:180-196 | every carbon row that `calculate` reports is zero |
| Acn.IsolatedAtRest | ase/calculators/acn.py:130-196 | without an embedding, a molecule with no other molecule within `rc` gets zero forces |
| Acn.SingleMolecule | ase/calculators/acn.py:130-196 | without an embedding, a single molecule has energy 0 and zero forces |
| Acn.AllBeyondNoEnergy | ase/calculators/acn.py:130-172 | without an embedding, when every pair is beyond `rc` the energy is 0 |

## Left out

- Floating point: everything is exact `real` arithmetic. Rounding, `inf` and `nan` are not modelled.
- Zero divisions in the source produce `inf`/`nan`. Coincident sites, a zero cell length on a periodic axis with two or more molecules, and a QM site on an MM charge are excluded by `requires`. Examples are `Acn.Computable` and `Embedding.Valid`.
- The square root, `units.Hartree`, `units.Bohr`, `units.kJ`, `units.mol` and `ase.data.atomic_masses` are parameters in `Units`. Their values come from other ASE modules, which are not part of this model.
- The host `Calculator` machinery is not part of this model. That covers `Calculator.calculate`, `Calculator.check_state` (taken as the given list of host changes), the `results` dictionary and `all_changes`. The attributes `calculate` stores on the calculator (`nm`, `n`, `me`, `forces`) are not kept in the state.
- The ASE `Atoms` object beyond positions, numbers, cell, pbc and initial charges is not modelled. `set_initial_charges` becomes returning the charge list.
- `get_molcoms` is unused and relies on ASE's centre-of-mass routine.
- The commented-out cutoff-size assertion at line 114 is not modelled.
- Analytic claims are not modelled: forces as the negative energy gradient, and rotational or translational invariance. The one exception is the exact derivative identity of the cutoff polynomial.
- Net-force conservation of `redistribute_forces` is not claimed. The carbon coefficient it implies is not 1.
- Acn.Calculate: when the embedding has no positions, the source first overwrites `mmforces` with `np.zeros_like(None)` and then raises. The model reports the error and does not describe the calculator left behind.
- PointCharges.Calculate: requires as many QM charges as QM positions. The source's numpy broadcasting of mismatched lengths is not modelled.
- Charges.SetAcnCharges: for `qmidx` of -1 or -2 the contract gives only the failure condition and the length. The slices of `qmidx + 1` or `n` then start near the front, and `Charges.LastIndexWraps` shows one such input.
- SiteTerms.AcnLaw: states where the law is defined in one direction only, that it is defined at every evaluable pair.
- `ase/test/test_imports.py` is an import smoke test with no behaviour to model.

## Findings

| source | as written | input that shows it | evidently intended | confidence | as-written member | corrected member |
|---|---|---|---|---|---|---|
| ase/calculators/acn.py:21 | `sigma` and `epsilon` are `[Me, C, N]` and are indexed by site offset `j` (lines 147, 163-167) whatever the layout | atoms with `Z[0] == 7` (layout `N,C,Me`): site 0 is nitrogen but gets `sigmaMe` and `epsilonMe`, and the methyl site gets the nitrogen values | the parameters of the species at each offset, ordered by the layout chosen at lines 115-120 | not executed | Acn.NitrogenPairSigma | ForceField.SiteSigma |
