/** numpy's stride-3 slices `a[start::3]`, read, compared and assigned. */
module Strides {

  /** Number of indices `start, start+3, ...` below `n`: the length of `a[start::3]`. */
  function StrideCount(n: nat, start: nat): nat
  {
    if start >= n then 0 else (n - start + 2) / 3
  }

  /** Index `i` is one of `start, start+3, start+6, ...`. */
  predicate OnStride(i: nat, start: nat)
  {
    i >= start && (i - start) % 3 == 0
  }

  /** In a list of whole triplets every stride of offset below three has one entry per triplet. */
  lemma StrideCountTriplets(nm: nat, o: nat)
    requires o < 3
    ensures StrideCount(3 * nm, o) == nm
  {
  }

  lemma StrideIndexInRange(n: nat, start: nat, t: nat)
    requires t < StrideCount(n, start)
    ensures start + 3 * t < n
  {
  }

  /** `a[start::3]`. */
  function StrideRead<T>(a: seq<T>, start: nat): (r: seq<T>)
    ensures |r| == StrideCount(|a|, start)
  {
    seq(StrideCount(|a|, start), t requires 0 <= t < StrideCount(|a|, start) =>
      StrideIndexInRange(|a|, start, t); a[start + 3 * t])
  }

  /** `(a[start::3] == v).all()`. */
  predicate StrideAll<T(==)>(a: seq<T>, start: nat, v: T)
  {
    forall i :: 0 <= i < |a| && OnStride(i, start) ==> a[i] == v
  }

  /** `a[start::3] = v` for one value `v`. */
  function StrideFill<T>(a: seq<T>, start: nat, v: T): (r: seq<T>)
    ensures |r| == |a|
  {
    seq(|a|, i requires 0 <= i < |a| => if OnStride(i, start) then v else a[i])
  }

  /** `a[start::3] = vals`, one value per stride position. */
  function StrideWrite<T>(a: seq<T>, start: nat, vals: seq<T>): (r: seq<T>)
    requires |vals| == StrideCount(|a|, start)
    ensures |r| == |a|
  {
    seq(|a|, i requires 0 <= i < |a| => if OnStride(i, start) then vals[(i - start) / 3] else a[i])
  }

  /** Index `i` lies on the stride `base + o` exactly when its offset from `base` is `o`. */
  lemma StrideOffset(i: nat, base: nat, o: nat)
    requires o < 3
    ensures OnStride(i, base + o) <==> i >= base && (i - base) % 3 == o
  {
  }

  /** Site `o` of triplet `k` lies on stride `o2` exactly when `o == o2`, at position `k`. */
  lemma TripletSite(k: nat, o: nat, o2: nat)
    requires o < 3 && o2 < 3
    ensures OnStride(3 * k + o, o2) <==> o == o2
    ensures o == o2 ==> (3 * k + o - o2) / 3 == k
  {
    StrideOffset(3 * k + o, 0, o2);
  }
}
