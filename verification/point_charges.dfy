/**
 * `PointChargePotential`: a set of fixed MM point charges that the ACN molecules (the QM
 * charges) are embedded in. Positions are handed over with `set_positions`, consumed by one
 * `calculate`, and cleared again; every pair force acts on the QM charge and, reversed, on
 * the MM charge.
 */
module PointCharges {
  import opened Wrappers
  import opened Vectors
  import opened ForceField

  /** The potential's state: the MM charges, pending positions, and the forces of the last evaluation. */
  datatype PointChargePotential = PointChargePotential(mmcharges: seq<real>, mmpositions: Option<seq<Vec3>>,
                                                       mmforces: Option<seq<Vec3>>) {

    /** Positions have been set and not yet consumed by an evaluation. */
    predicate Pending()
    {
      mmpositions.Some?
    }
  }

  /** A freshly built potential: charges only, no positions, no forces yet. */
  function NewPotential(mmcharges: seq<real>): (pc: PointChargePotential)
    ensures pc.mmcharges == mmcharges
    ensures !pc.Pending() && pc.mmforces.None?
  {
    PointChargePotential(mmcharges, None, None)
  }

  /** `set_positions`: the positions become pending; charges and forces stay as they were. */
  function SetPositions(pc: PointChargePotential, mmpositions: seq<Vec3>): (r: PointChargePotential)
    ensures r.Pending() && r.mmpositions.value == mmpositions
    ensures r.mmcharges == pc.mmcharges && r.mmforces == pc.mmforces
  {
    pc.(mmpositions := Some(mmpositions))
  }

  /** `get_forces`: the MM forces of the last evaluation, if there was one. */
  function GetForces(pc: PointChargePotential): (r: Option<seq<Vec3>>)
    ensures r.Some? <==> pc.mmforces.Some?
    ensures r.Some? ==> r.value == pc.mmforces.value
  {
    pc.mmforces
  }

  /**
   * One evaluation's inputs: `k_c` (`Hartree * Bohr`), the host's square root, the MM
   * charges and positions, and the QM charges and positions.
   */
  datatype Embedding = Embedding(kc: real, sqrt: real -> real, mmcharges: seq<real>, mmpositions: seq<Vec3>,
                                 qmcharges: seq<real>, qmpositions: seq<Vec3>) {

    /** `zip` stops at the shorter of the charge and position lists. */
    function Count(): nat
    {
      if |mmcharges| <= |mmpositions| then |mmcharges| else |mmpositions|
    }

    /** `d = qmpositions - R` for MM charge `k` and QM charge `a`. */
    function Offset(k: nat, a: nat): Vec3
      requires k < Count() && a < |qmpositions|
    {
      Sub(qmpositions[a], mmpositions[k])
    }

    /** Neither `r2` nor its root is zero: the charges do not coincide. */
    predicate Apart(k: nat, a: nat)
      requires k < Count() && a < |qmpositions|
    {
      Norm2(Offset(k, a)) != 0.0 && Sqrt(sqrt, Norm2(Offset(k, a))) != 0.0
    }

    /** One QM charge per QM position, and no MM charge sits on a QM charge. */
    predicate Valid()
    {
      |qmcharges| == |qmpositions| && forall k, a :: 0 <= k < Count() && 0 <= a < |qmpositions| ==> Apart(k, a)
    }

    /** `e = k_c C r2**-0.5 q` of MM charge `k` and QM charge `a`. */
    function Energy(k: nat, a: nat): real
      requires Valid() && k < Count() && a < |qmpositions|
    {
      assert Apart(k, a);
      kc * mmcharges[k] * (1.0 / Sqrt(sqrt, Norm2(Offset(k, a)))) * qmcharges[a]
    }

    /** `f = (e / r2) d`: the force the pair exerts on the QM charge. */
    function Force(k: nat, a: nat): Vec3
      requires Valid() && k < Count() && a < |qmpositions|
    {
      assert Apart(k, a);
      Scale(Energy(k, a) / Norm2(Offset(k, a)), Offset(k, a))
    }

    /** The pair energies of MM charge `k` with every QM charge. */
    function Energies(k: nat): (r: seq<real>)
      requires Valid() && k < Count()
      ensures |r| == |qmpositions|
    {
      seq(|qmpositions|, a requires 0 <= a < |qmpositions| => Energy(k, a))
    }

    /** The pair forces of MM charge `k` on every QM charge. */
    function Row(k: nat): (r: seq<Vec3>)
      requires Valid() && k < Count()
      ensures |r| == |qmpositions|
    {
      seq(|qmpositions|, a requires 0 <= a < |qmpositions| => Force(k, a))
    }

    /** The forces of the first `n` MM charges on QM charge `a`. */
    function Column(a: nat, n: nat): (r: seq<Vec3>)
      requires Valid() && a < |qmpositions| && n <= Count()
      ensures |r| == n
    {
      seq(n, k requires 0 <= k < n => Force(k, a))
    }

    /** The energy of each MM charge with all QM charges. */
    function ChargeEnergies(): (r: seq<real>)
      requires Valid()
      ensures |r| == Count()
    {
      seq(Count(), k requires 0 <= k < Count() => Total(Energies(k)))
    }

    /** The energy of the embedding: the sum over every MM-QM pair. */
    function TotalEnergy(): real
      requires Valid()
    {
      Total(ChargeEnergies())
    }

    /** The force on QM charge `a`: the sum of its pair forces with every MM charge. */
    function QMForce(a: nat): Vec3
      requires Valid() && a < |qmpositions|
    {
      Sum(Column(a, Count()))
    }

    /** The force on MM charge `k`: minus its pair forces, summed; zero beyond the `zip`. */
    function MMForce(k: nat): Vec3
      requires Valid() && k < |mmpositions|
    {
      if k < Count() then Neg(Sum(Row(k))) else Zero
    }
  }

  /** `calculate` raises when no positions are pending (`zip` over `None`). */
  datatype PcError = NoPositions

  /** `energy`, `qmforces`, and the potential as `calculate` leaves it. */
  datatype Outcome = Outcome(energy: real, qmforces: seq<Vec3>, potential: PointChargePotential)

  /** The embedding's force on every QM site, row by row. */
  function QMForces(S: Embedding): (r: seq<Vec3>)
    requires S.Valid()
    ensures |r| == |S.qmpositions| && forall a :: 0 <= a < |r| ==> r[a] == S.QMForce(a)
  {
    seq(|S.qmpositions|, a requires 0 <= a < |S.qmpositions| => S.QMForce(a))
  }

  /** The embedding's force on every MM charge, row by row. */
  function MMForces(S: Embedding): (r: seq<Vec3>)
    requires S.Valid()
    ensures |r| == |S.mmpositions| && forall k :: 0 <= k < |r| ==> r[k] == S.MMForce(k)
  {
    seq(|S.mmpositions|, k requires 0 <= k < |S.mmpositions| => S.MMForce(k))
  }

  /** The evaluation `calculate` performs on the pending positions. */
  function EmbeddingOf(pc: PointChargePotential, kc: real, sqrt: real -> real, qmcharges: seq<real>,
                       qmpositions: seq<Vec3>): Embedding
    requires pc.Pending()
  {
    Embedding(kc, sqrt, pc.mmcharges, pc.mmpositions.value, qmcharges, qmpositions)
  }

  lemma ColumnStep(S: Embedding, a: nat, n: nat)
    requires S.Valid() && a < |S.qmpositions| && n < S.Count()
    ensures Sum(S.Column(a, n + 1)) == Add(Sum(S.Column(a, n)), S.Force(n, a))
  {
    assert S.Column(a, n + 1)[..n] == S.Column(a, n);
  }

  lemma SubFromZero(v: Vec3)
    ensures Sub(Zero, v) == Neg(v)
  {
    assert Sub(Zero, v).x == Neg(v).x;
    assert Sub(Zero, v).y == Neg(v).y;
    assert Sub(Zero, v).z == Neg(v).z;
  }

  /** Adding `v` to one sum and taking it from the other keeps their total. */
  lemma Transfer(q: Vec3, m: Vec3, v: Vec3)
    ensures Add(Add(q, v), Sub(m, v)) == Add(q, m)
  {
    assert Add(Add(q, v), Sub(m, v)).x == Add(q, m).x;
    assert Add(Add(q, v), Sub(m, v)).y == Add(q, m).y;
    assert Add(Add(q, v), Sub(m, v)).z == Add(q, m).z;
  }

  /** After the first `k` MM charges, `qmforces` holds their forces on each QM charge. */
  ghost predicate QMProgress(S: Embedding, k: nat, qmforces: seq<Vec3>)
    requires S.Valid() && k <= S.Count()
  {
    |qmforces| == |S.qmpositions| && forall a :: 0 <= a < |S.qmpositions| ==> qmforces[a] == Sum(S.Column(a, k))
  }

  /** After the first `k` MM charges, their rows of `mmforces` are final and the rest still zero. */
  ghost predicate MMProgress(S: Embedding, k: nat, mmforces: seq<Vec3>)
    requires S.Valid() && k <= S.Count()
  {
    |mmforces| == |S.mmpositions| && forall k2 :: 0 <= k2 < |mmforces| ==> mmforces[k2] == if k2 < k then S.MMForce(k2) else Zero
  }

  /** `qmforces += f` for MM charge `k` adds its force on each QM charge. */
  lemma QMAbsorb(S: Embedding, k: nat, qmforces: seq<Vec3>)
    requires S.Valid() && k < S.Count() && QMProgress(S, k, qmforces)
    ensures QMProgress(S, k + 1, AddAll(qmforces, S.Row(k)))
  {
    forall a | 0 <= a < |S.qmpositions|
      ensures AddAll(qmforces, S.Row(k))[a] == Sum(S.Column(a, k + 1))
    {
      ColumnStep(S, a, k);
    }
  }

  /** `F -= f.sum(0)` on the still-zero row of MM charge `k` makes that row final. */
  lemma MMAbsorb(S: Embedding, k: nat, mmforces: seq<Vec3>)
    requires S.Valid() && k < S.Count() && MMProgress(S, k, mmforces)
    ensures MMProgress(S, k + 1, mmforces[k := Sub(mmforces[k], Sum(S.Row(k)))])
  {
    SubFromZero(Sum(S.Row(k)));
  }

  /** What one pass adds to the QM rows it takes from the MM row, so the total force stays zero. */
  lemma BalanceAbsorb(qmforces: seq<Vec3>, mmforces: seq<Vec3>, row: seq<Vec3>, k: nat)
    requires |qmforces| == |row| && k < |mmforces| && Add(Sum(qmforces), Sum(mmforces)) == Zero
    ensures Add(Sum(AddAll(qmforces, row)), Sum(mmforces[k := Sub(mmforces[k], Sum(row))])) == Zero
  {
    SumAddAll(qmforces, row);
    SumSubFrom(mmforces, k, Sum(row));
    Transfer(Sum(qmforces), Sum(mmforces), Sum(row));
  }

  /** One pass of the loop: `qmforces += f` and `F -= f.sum(0)` for MM charge `k`; the total force stays zero. */
  method Absorb(S: Embedding, k: nat, qmforces: seq<Vec3>, mmforces: seq<Vec3>)
    returns (qmforces': seq<Vec3>, mmforces': seq<Vec3>)
    requires S.Valid() && k < S.Count()
    requires QMProgress(S, k, qmforces) && MMProgress(S, k, mmforces)
    requires Add(Sum(qmforces), Sum(mmforces)) == Zero
    ensures QMProgress(S, k + 1, qmforces') && MMProgress(S, k + 1, mmforces')
    ensures Add(Sum(qmforces'), Sum(mmforces')) == Zero
  {
    var row := S.Row(k);
    QMAbsorb(S, k, qmforces);
    MMAbsorb(S, k, mmforces);
    BalanceAbsorb(qmforces, mmforces, row, k);
    qmforces' := AddAll(qmforces, row);
    mmforces' := mmforces[k := Sub(mmforces[k], Sum(row))];
  }

  /** Before the loop nothing has been accumulated. */
  lemma StartProgress(S: Embedding)
    requires S.Valid()
    ensures QMProgress(S, 0, Zeros(|S.qmpositions|)) && MMProgress(S, 0, Zeros(|S.mmpositions|))
    ensures Add(Sum(Zeros(|S.qmpositions|)), Sum(Zeros(|S.mmpositions|))) == Zero
  {
    SumZeros(|S.qmpositions|);
    SumZeros(|S.mmpositions|);
  }

  lemma EnergyStep(S: Embedding, k: nat)
    requires S.Valid() && k < S.Count()
    ensures PrefixTotal(S.ChargeEnergies(), k + 1) == PrefixTotal(S.ChargeEnergies(), k) + Total(S.Energies(k))
  {
  }

  /** After the last MM charge the accumulated forces are the final ones. */
  lemma FinishProgress(S: Embedding, qmforces: seq<Vec3>, mmforces: seq<Vec3>)
    requires S.Valid() && QMProgress(S, S.Count(), qmforces) && MMProgress(S, S.Count(), mmforces)
    ensures forall a :: 0 <= a < |S.qmpositions| ==> qmforces[a] == S.QMForce(a)
    ensures forall k :: 0 <= k < |S.mmpositions| ==> mmforces[k] == S.MMForce(k)
  {
  }

  /** The running energy after the last MM charge is the energy of the embedding. */
  lemma FinishEnergy(S: Embedding)
    requires S.Valid()
    ensures PrefixTotal(S.ChargeEnergies(), S.Count()) == S.TotalEnergy()
  {
    PrefixTotalIsTotal(S.ChargeEnergies(), S.Count());
    assert S.ChargeEnergies()[..S.Count()] == S.ChargeEnergies();
  }

  /**
   * The loop of `calculate` over the zipped MM charges: the energy is the sum over all
   * MM-QM pairs, each QM force is the sum of its pair forces, each MM force is minus the sum
   * of its own, so all forces together sum to zero.
   */
  method Evaluate(S: Embedding) returns (energy: real, qmforces: seq<Vec3>, mmforces: seq<Vec3>)
    requires S.Valid()
    ensures energy == S.TotalEnergy()
    ensures |qmforces| == |S.qmpositions|
    ensures forall a :: 0 <= a < |S.qmpositions| ==> qmforces[a] == S.QMForce(a)
    ensures |mmforces| == |S.mmpositions|
    ensures forall k :: 0 <= k < |S.mmpositions| ==> mmforces[k] == S.MMForce(k)
    ensures Add(Sum(qmforces), Sum(mmforces)) == Zero
  {
    var n := S.Count();
    energy := 0.0;
    qmforces := Zeros(|S.qmpositions|);
    mmforces := Zeros(|S.mmpositions|);
    StartProgress(S);
    var k := 0;
    while k < n
      invariant 0 <= k <= n
      invariant energy == PrefixTotal(S.ChargeEnergies(), k)
      invariant QMProgress(S, k, qmforces) && MMProgress(S, k, mmforces)
      invariant Add(Sum(qmforces), Sum(mmforces)) == Zero
    {
      EnergyStep(S, k);
      energy := energy + Total(S.Energies(k));
      qmforces, mmforces := Absorb(S, k, qmforces, mmforces);
      k := k + 1;
    }
    FinishProgress(S, qmforces, mmforces);
    FinishEnergy(S);
  }

  /**
   * `PointChargePotential.calculate`: it fails exactly when no positions are pending;
   * otherwise it evaluates the embedding, stores the MM forces and consumes the positions.
   */
  method Calculate(pc: PointChargePotential, kc: real, sqrt: real -> real, qmcharges: seq<real>,
                   qmpositions: seq<Vec3>) returns (r: Result<Outcome, PcError>)
    requires pc.Pending() ==> EmbeddingOf(pc, kc, sqrt, qmcharges, qmpositions).Valid()
    ensures r.Failure? <==> !pc.Pending()
    ensures r.Success? ==>
      var S := EmbeddingOf(pc, kc, sqrt, qmcharges, qmpositions);
      var o := r.value;
      && o.energy == S.TotalEnergy()
      && |o.qmforces| == |qmpositions|
      && (forall a :: 0 <= a < |qmpositions| ==> o.qmforces[a] == S.QMForce(a))
      && o.potential.mmcharges == pc.mmcharges
      && !o.potential.Pending()
      && o.potential.mmforces.Some?
      && |o.potential.mmforces.value| == |S.mmpositions|
      && (forall k :: 0 <= k < |S.mmpositions| ==> o.potential.mmforces.value[k] == S.MMForce(k))
      && Add(Sum(o.qmforces), Sum(o.potential.mmforces.value)) == Zero
  {
    if pc.mmpositions.None? {
      return Failure(NoPositions);
    }
    var energy, qmforces, mmforces := Evaluate(EmbeddingOf(pc, kc, sqrt, qmcharges, qmpositions));
    return Success(Outcome(energy, qmforces, pc.(mmpositions := None, mmforces := Some(mmforces))));
  }
}
