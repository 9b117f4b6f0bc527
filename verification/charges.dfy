/** `set_acn_charges`: writing the site charges over a list of triplets. */
module Charges {
  import opened Wrappers
  import opened Strides
  import opened ForceField

  /** `atoms.numbers[qmidx]` does not exist. */
  datatype ChargeError = IndexOutOfRange

  /** Python's reading of an index `k` into a list of length `n`: negative indices count from the end. */
  function PyIndex(k: int, n: nat): int
  {
    if k < 0 then k + n else k
  }

  /** Where `a[start::3]` begins in a list of length `n`: a negative start counts from the end, clamped at 0. */
  function SliceStart(start: int, n: nat): (s: nat)
    ensures start >= 0 ==> s == start
    ensures -(n as int) <= start < 0 ==> s == start + n
    ensures start < -(n as int) ==> s == 0
  {
    if start >= 0 then start else if start + n >= 0 then start + n else 0
  }

  /** The layout of the triplets starting at `qmidx`, read from the atomic number there. */
  function LayoutAt(numbers: seq<int>, qmidx: int): Layout
    requires -|numbers| <= qmidx < |numbers|
  {
    LayoutFrom(numbers[PyIndex(qmidx, |numbers|)])
  }

  /**
   * The charge array. `n`, `me` and `qmidx + 1` are computed as plain integers and used as
   * slice starts, so a negative `qmidx` reads `numbers` from the end and starts each
   * slice where Python starts it. Slots no slice reaches keep the uninitialised contents
   * of `np.empty` (`None`). For `qmidx >= 0` the slots before `qmidx` are `None` and from
   * `qmidx` on, offset 1 of every triplet holds `qC` and the terminal offsets `qN` and
   * `qMe` as the layout places them. The two sequence checks use `.all` without calling
   * it, so they never fail; only a missing `numbers[qmidx]` is an error.
   */
  function SetAcnCharges(numbers: seq<int>, qmidx: int): (r: Result<seq<Option<real>>, ChargeError>)
    ensures r.Failure? <==> qmidx >= |numbers| || qmidx < -|numbers|
    ensures r.Success? ==> |r.value| == |numbers|
    ensures r.Success? && qmidx >= 0 ==> forall i :: 0 <= i < |numbers| ==>
      r.value[i] == if i < qmidx then None
                    else Some(SpeciesCharge(LayoutAt(numbers, qmidx).SpeciesAt((i - qmidx) % 3)))
  {
    if qmidx >= |numbers| || qmidx < -|numbers| then Failure(IndexOutOfRange)
    else
      var len := |numbers|;
      var layout := LayoutAt(numbers, qmidx);
      var n := qmidx + layout.NOffset();
      var me := qmidx + layout.MeOffset();
      var empty: seq<Option<real>> := seq(len, _ => None);
      var withMe := StrideFill(empty, SliceStart(me, len), Some(QMe));
      var withC := StrideFill(withMe, SliceStart(qmidx + 1, len), Some(QC));
      var charges := StrideFill(withC, SliceStart(n, len), Some(QN));
      if qmidx < 0 then Success(charges)
      else
        assert forall i :: 0 <= i < len ==>
          charges[i] == if i < qmidx then None
                        else Some(SpeciesCharge(layout.SpeciesAt((i - qmidx) % 3))) by {
          forall i | 0 <= i < len
            ensures charges[i] == if i < qmidx then None
                                  else Some(SpeciesCharge(layout.SpeciesAt((i - qmidx) % 3)))
          {
            StrideOffset(i, qmidx, 0);
            StrideOffset(i, qmidx, 1);
            StrideOffset(i, qmidx, 2);
          }
        }
        Success(charges)
  }

  /**
   * An index at least three from the end behaves as the same position counted from the
   * front: every slice start lands where the non-negative index would put it.
   */
  lemma NegativeIndexFromEnd(numbers: seq<int>, qmidx: int)
    requires -|numbers| <= qmidx <= -3
    ensures SetAcnCharges(numbers, qmidx) == SetAcnCharges(numbers, qmidx + |numbers|)
  {
    var len, q := |numbers|, qmidx + |numbers|;
    var layout := LayoutAt(numbers, qmidx);
    assert LayoutAt(numbers, q) == layout;
    assert SliceStart(qmidx + layout.NOffset(), len) == q + layout.NOffset();
    assert SliceStart(qmidx + layout.MeOffset(), len) == q + layout.MeOffset();
    assert SliceStart(qmidx + 1, len) == q + 1;
    var empty: seq<Option<real>> := seq(len, _ => None);
    var charges := StrideFill(StrideFill(StrideFill(empty, q + layout.MeOffset(), Some(QMe)), q + 1, Some(QC)),
                              q + layout.NOffset(), Some(QN));
    assert SetAcnCharges(numbers, qmidx) == Success(charges);
    assert SetAcnCharges(numbers, q) == Success(charges);
  }

  /**
   * `qmidx = -1` on `C, H, N`: `numbers[-1]` is nitrogen, so `n = -1` and `me = 1`; the
   * carbon slice `[0::3]` starts at the front, and the methyl charge lands on the second
   * slot, the nitrogen charge on the last.
   */
  lemma LastIndexWraps()
    ensures SetAcnCharges([6, 1, 7], -1) == Success([Some(QC), Some(QMe), Some(QN)])
  {
    var r := SetAcnCharges([6, 1, 7], -1).value;
    assert LayoutAt([6, 1, 7], -1) == NCMe;
    StrideOffset(0, 0, 0);
    assert r[0] == Some(QC) && r[1] == Some(QMe) && r[2] == Some(QN);
    assert |r| == 3;
    assert r == [Some(QC), Some(QMe), Some(QN)];
  }

  /**
   * For whole triplets from index 0 every slot receives a charge and every molecule is
   * neutral.
   */
  lemma {:induction false} ChargesNeutral(numbers: seq<int>)
    requires |numbers| > 0 && |numbers| % 3 == 0
    ensures SetAcnCharges(numbers, 0).Success?
    ensures forall i :: 0 <= i < |numbers| ==> SetAcnCharges(numbers, 0).value[i].Some?
    ensures forall k :: 0 <= k < |numbers| / 3 ==>
      var c := SetAcnCharges(numbers, 0).value;
      c[3 * k].value + c[3 * k + 1].value + c[3 * k + 2].value == 0.0
  {
    var c := SetAcnCharges(numbers, 0).value;
    var layout := LayoutAt(numbers, 0);
    forall k | 0 <= k < |numbers| / 3
      ensures c[3 * k].value + c[3 * k + 1].value + c[3 * k + 2].value == 0.0
    {
      assert (3 * k) % 3 == 0 && (3 * k + 1) % 3 == 1 && (3 * k + 2) % 3 == 2;
      assert c[3 * k].value == SpeciesCharge(layout.SpeciesAt(0));
      assert c[3 * k + 1].value == SpeciesCharge(layout.SpeciesAt(1));
      assert c[3 * k + 2].value == SpeciesCharge(layout.SpeciesAt(2));
    }
  }
}
