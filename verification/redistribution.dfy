/**
 * `redistribute_forces` (Ciccotti et al.): the force on the massless middle carbon of
 * each rigid linear molecule is handed to its two terminal sites.
 */
module Redistribution {
  import opened Vectors
  import opened Strides
  import opened ForceField

  /** `p a - q b + r c`: the shape of both new rows. */
  function Mix(p: real, q: real, r: real, a: Vec3, b: Vec3, c: Vec3): Vec3
  {
    Add(Sub(Scale(p, a), Scale(q, b)), Scale(r, c))
  }

  /** New nitrogen row from one molecule's nitrogen, methyl and carbon rows. */
  function NitrogenRow(fN: Vec3, fMe: Vec3, fC: Vec3, u: Units): Vec3
    requires u.Positive()
  {
    Mix(1.0 - u.NN() * u.MMeC() * CN, u.NN() * u.MCN() * CMe, u.NN() * u.MMeN(), fN, fMe, fC)
  }

  /** New methyl row from one molecule's methyl, nitrogen and carbon rows. */
  function MethylRow(fMe: Vec3, fN: Vec3, fC: Vec3, u: Units): Vec3
    requires u.Positive()
  {
    Mix(1.0 - u.NMe() * u.MCN() * CMe, u.NMe() * u.MMeC() * CN, u.NMe() * u.MMeN(), fMe, fN, fC)
  }

  /** The map applied to one molecule: carbon row zero, the terminal rows recombined. */
  function RedistributeMolecule(layout: Layout, m: Triple<Vec3>, u: Units): (r: Triple<Vec3>)
    requires u.Positive()
    ensures r.y == Zero
    ensures r.At(layout.NOffset()) == NitrogenRow(m.At(layout.NOffset()), m.At(layout.MeOffset()), m.y, u)
    ensures r.At(layout.MeOffset()) == MethylRow(m.At(layout.MeOffset()), m.At(layout.NOffset()), m.y, u)
  {
    if layout.NCMe? then Triple(NitrogenRow(m.x, m.z, m.y, u), Zero, MethylRow(m.z, m.x, m.y, u))
    else Triple(MethylRow(m.x, m.z, m.y, u), Zero, NitrogenRow(m.z, m.x, m.y, u))
  }

  /**
   * The redistributed forces of a list of whole triplets: same shape, and molecule `k`
   * of the output is the per-molecule map applied to molecule `k` of the input, so its
   * carbon row is zero and its other rows depend on that molecule's rows only.
   */
  function Redistribute(layout: Layout, f: seq<Vec3>, u: Units): (g: seq<Vec3>)
    requires |f| % 3 == 0 && u.Positive()
    ensures |g| == |f|
    ensures forall k :: 0 <= k < |f| / 3 ==> Triplet(g, k) == RedistributeMolecule(layout, Triplet(f, k), u)
    ensures forall k :: 0 <= k < |f| / 3 ==> g[3 * k + 1] == Zero
  {
    var n := layout.NOffset();
    var me := layout.MeOffset();
    var nm := |f| / 3;
    assert |f| == 3 * nm;
    StrideCountTriplets(nm, n);
    StrideCountTriplets(nm, me);
    StrideCountTriplets(nm, 1);
    var fN := StrideRead(f, n);
    var fMe := StrideRead(f, me);
    var fC := StrideRead(f, 1);
    var newN := seq(nm, k requires 0 <= k < nm => NitrogenRow(fN[k], fMe[k], fC[k], u));
    var newMe := seq(nm, k requires 0 <= k < nm => MethylRow(fMe[k], fN[k], fC[k], u));
    var withN := StrideWrite(Zeros(|f|), n, newN);
    var g := StrideWrite(withN, me, newMe);
    RedistributeRows(layout, f, u, newN, newMe, g);
    g
  }

  lemma RedistributeRows(layout: Layout, f: seq<Vec3>, u: Units, newN: seq<Vec3>, newMe: seq<Vec3>, g: seq<Vec3>)
    requires |f| % 3 == 0 && u.Positive()
    requires |newN| == |f| / 3 && |newMe| == |f| / 3
    requires StrideCount(|f|, layout.NOffset()) == |f| / 3 && StrideCount(|f|, layout.MeOffset()) == |f| / 3
    requires forall k :: 0 <= k < |f| / 3 ==>
      newN[k] == NitrogenRow(f[3 * k + layout.NOffset()], f[3 * k + layout.MeOffset()], f[3 * k + 1], u)
    requires forall k :: 0 <= k < |f| / 3 ==>
      newMe[k] == MethylRow(f[3 * k + layout.MeOffset()], f[3 * k + layout.NOffset()], f[3 * k + 1], u)
    requires g == StrideWrite(StrideWrite(Zeros(|f|), layout.NOffset(), newN), layout.MeOffset(), newMe)
    ensures |g| == |f|
    ensures forall k :: 0 <= k < |f| / 3 ==> Triplet(g, k) == RedistributeMolecule(layout, Triplet(f, k), u)
    ensures forall k :: 0 <= k < |f| / 3 ==> g[3 * k + 1] == Zero
  {
    var nm := |f| / 3;
    assert |f| == 3 * nm;
    forall k | 0 <= k < nm
      ensures Triplet(g, k) == RedistributeMolecule(layout, Triplet(f, k), u)
      ensures g[3 * k + 1] == Zero
    {
      MoleculeRows(layout, f, u, newN, newMe, g, k);
    }
  }

  /** Molecule `k` of the two stride writes: zero carbon, and the new N and Me rows of `k`. */
  lemma MoleculeRows(layout: Layout, f: seq<Vec3>, u: Units, newN: seq<Vec3>, newMe: seq<Vec3>, g: seq<Vec3>, k: nat)
    requires u.Positive() && 3 * k + 2 < |f| && k < |newN| && k < |newMe|
    requires StrideCount(|f|, layout.NOffset()) == |newN| && StrideCount(|f|, layout.MeOffset()) == |newMe|
    requires newN[k] == NitrogenRow(f[3 * k + layout.NOffset()], f[3 * k + layout.MeOffset()], f[3 * k + 1], u)
    requires newMe[k] == MethylRow(f[3 * k + layout.MeOffset()], f[3 * k + layout.NOffset()], f[3 * k + 1], u)
    requires g == StrideWrite(StrideWrite(Zeros(|f|), layout.NOffset(), newN), layout.MeOffset(), newMe)
    ensures Triplet(g, k) == RedistributeMolecule(layout, Triplet(f, k), u)
    ensures g[3 * k + 1] == Zero
  {
    var n := layout.NOffset();
    var me := layout.MeOffset();
    TripletSite(k, 1, n);
    TripletSite(k, 1, me);
    TripletSite(k, n, n);
    TripletSite(k, n, me);
    TripletSite(k, me, me);
    assert g[3 * k + 1] == Zero;
    assert g[3 * k + n] == newN[k];
    assert g[3 * k + me] == newMe[k];
  }

  /** `p a - q b + r c` is additive in `(a, b, c)`. */
  lemma MixAdd(p: real, q: real, r: real, a: Vec3, b: Vec3, c: Vec3, a2: Vec3, b2: Vec3, c2: Vec3)
    ensures Mix(p, q, r, Add(a, a2), Add(b, b2), Add(c, c2)) == Add(Mix(p, q, r, a, b, c), Mix(p, q, r, a2, b2, c2))
  {
    ScaleAdd(p, a, a2);
    ScaleAdd(q, b, b2);
    ScaleAdd(r, c, c2);
    Regroup(Scale(p, a), Scale(p, a2), Scale(q, b), Scale(q, b2), Scale(r, c), Scale(r, c2));
  }

  lemma ScaleAdd(p: real, a: Vec3, a2: Vec3)
    ensures Scale(p, Add(a, a2)) == Add(Scale(p, a), Scale(p, a2))
  {
    var lhs, rhs := Scale(p, Add(a, a2)), Add(Scale(p, a), Scale(p, a2));
    assert lhs.x == rhs.x by { assert p * (a.x + a2.x) == p * a.x + p * a2.x; }
    assert lhs.y == rhs.y by { assert p * (a.y + a2.y) == p * a.y + p * a2.y; }
    assert lhs.z == rhs.z by { assert p * (a.z + a2.z) == p * a.z + p * a2.z; }
  }

  lemma Regroup(A: Vec3, A2: Vec3, B: Vec3, B2: Vec3, C: Vec3, C2: Vec3)
    ensures Add(Sub(Add(A, A2), Add(B, B2)), Add(C, C2)) == Add(Add(Sub(A, B), C), Add(Sub(A2, B2), C2))
  {
    var lhs := Add(Sub(Add(A, A2), Add(B, B2)), Add(C, C2));
    var rhs := Add(Add(Sub(A, B), C), Add(Sub(A2, B2), C2));
    assert lhs.x == rhs.x && lhs.y == rhs.y && lhs.z == rhs.z;
  }

  /** The per-molecule map is additive. */
  lemma MoleculeAdd(layout: Layout, a: Triple<Vec3>, b: Triple<Vec3>, u: Units)
    requires u.Positive()
    ensures RedistributeMolecule(layout, AddRows(a, b), u)
         == AddRows(RedistributeMolecule(layout, a, u), RedistributeMolecule(layout, b, u))
  {
    var pN, qN, rN := 1.0 - u.NN() * u.MMeC() * CN, u.NN() * u.MCN() * CMe, u.NN() * u.MMeN();
    var pMe, qMe, rMe := 1.0 - u.NMe() * u.MCN() * CMe, u.NMe() * u.MMeC() * CN, u.NMe() * u.MMeN();
    MixAdd(pN, qN, rN, a.x, a.z, a.y, b.x, b.z, b.y);
    MixAdd(pN, qN, rN, a.z, a.x, a.y, b.z, b.x, b.y);
    MixAdd(pMe, qMe, rMe, a.x, a.z, a.y, b.x, b.z, b.y);
    MixAdd(pMe, qMe, rMe, a.z, a.x, a.y, b.z, b.x, b.y);
    assert Add(Zero, Zero) == Zero;
  }

  /**
   * Redistribution is additive: redistributing the sum of two force lists (the pair
   * forces and the point-charge forces, say) gives the sum of their redistributions.
   */
  lemma RedistributeAdd(layout: Layout, a: seq<Vec3>, b: seq<Vec3>, u: Units)
    requires |a| == |b| && |a| % 3 == 0 && u.Positive()
    ensures Redistribute(layout, AddAll(a, b), u) == AddAll(Redistribute(layout, a, u), Redistribute(layout, b, u))
  {
    var lhs := Redistribute(layout, AddAll(a, b), u);
    var rhs := AddAll(Redistribute(layout, a, u), Redistribute(layout, b, u));
    forall k | 0 <= k < |a| / 3
      ensures Triplet(lhs, k) == Triplet(rhs, k)
    {
      assert Triplet(AddAll(a, b), k) == AddRows(Triplet(a, k), Triplet(b, k));
      MoleculeAdd(layout, Triplet(a, k), Triplet(b, k), u);
    }
    TripletsDetermine(lhs, rhs);
  }

  /** Zero forces stay zero. */
  lemma RedistributeZero(layout: Layout, nm: nat, u: Units)
    requires u.Positive()
    ensures Redistribute(layout, Zeros(3 * nm), u) == Zeros(3 * nm)
  {
    var g := Redistribute(layout, Zeros(3 * nm), u);
    forall k | 0 <= k < nm
      ensures Triplet(g, k) == Triplet(Zeros(3 * nm), k)
    {
      assert Triplet(Zeros(3 * nm), k) == Triple(Zero, Zero, Zero);
    }
    TripletsDetermine(g, Zeros(3 * nm));
  }

  /** A molecule on which no force acts carries none after redistribution. */
  lemma RedistributeAtRest(layout: Layout, f: seq<Vec3>, u: Units, k: nat)
    requires |f| % 3 == 0 && u.Positive() && k < |f| / 3
    requires Triplet(f, k) == Triple(Zero, Zero, Zero)
    ensures Triplet(Redistribute(layout, f, u), k) == Triple(Zero, Zero, Zero)
  {
    var nm := |f| / 3;
    assert |f| == 3 * nm;
    assert 3 * k + 2 < |f|;
    MoleculeAtRest(layout, u);
    assert Triplet(Redistribute(layout, f, u), k) == RedistributeMolecule(layout, Triplet(f, k), u);
  }

  lemma MoleculeAtRest(layout: Layout, u: Units)
    requires u.Positive()
    ensures RedistributeMolecule(layout, Triple(Zero, Zero, Zero), u) == Triple(Zero, Zero, Zero)
  {
    NitrogenRowZero(u);
    MethylRowZero(u);
  }

  lemma NitrogenRowZero(u: Units)
    requires u.Positive()
    ensures NitrogenRow(Zero, Zero, Zero, u) == Zero
  {
    MixZero(1.0 - u.NN() * u.MMeC() * CN, u.NN() * u.MCN() * CMe, u.NN() * u.MMeN());
  }

  lemma MethylRowZero(u: Units)
    requires u.Positive()
    ensures MethylRow(Zero, Zero, Zero, u) == Zero
  {
    MixZero(1.0 - u.NMe() * u.MCN() * CMe, u.NMe() * u.MMeC() * CN, u.NMe() * u.MMeN());
  }

  lemma MixZero(p: real, q: real, r: real)
    ensures Mix(p, q, r, Zero, Zero, Zero) == Zero
  {
    assert Scale(p, Zero) == Zero && Scale(q, Zero) == Zero && Scale(r, Zero) == Zero;
  }
}
