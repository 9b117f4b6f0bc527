/** The smoothstep switching function `ACN.cutoff` and its derivative. */
module Cutoff {
  import opened Vectors

  /** The weight `cut` and its derivative `dtdd` at one distance. */
  datatype CutValue = CutValue(cut: real, dcut: real)

  /** The switching polynomial in the shell variable `y`. */
  function Shell(y: real): real
  {
    1.0 - y * y * (3.0 - 2.0 * y)
  }

  /** The derivative of `Shell` with respect to distance, in a shell of width `w`. */
  function ShellSlope(y: real, w: real): real
    requires w != 0.0
  {
    0.0 - 6.0 / w * y * (1.0 - y)
  }

  /** Position of `d` within the shell `(rc - w, rc)`, scaled to `(0, 1)`. */
  function ShellVariable(d: real, rc: real, w: real): real
    requires w != 0.0
  {
    (d - rc + w) / w
  }

  lemma ShellVariableRange(d: real, rc: real, w: real)
    requires w > 0.0 && rc - w <= d <= rc
    ensures 0.0 <= ShellVariable(d, rc, w) <= 1.0
    ensures d > rc - w ==> 0.0 < ShellVariable(d, rc, w)
    ensures d < rc ==> ShellVariable(d, rc, w) < 1.0
  {
    var x := d - rc + w;
    QuotientRange(x, w);
  }

  lemma QuotientRange(x: real, w: real)
    requires w > 0.0 && 0.0 <= x <= w
    ensures 0.0 <= x / w <= 1.0
    ensures x > 0.0 ==> x / w > 0.0
    ensures x < w ==> x / w < 1.0
  {
    QuotientAtMostOne(x, w);
    if x < w {
      QuotientBelowOne(x, w);
    }
  }

  lemma QuotientAtMostOne(x: real, w: real)
    requires w > 0.0 && x <= w
    ensures x / w <= 1.0
  {
    var q := x / w;
    assert q * w == x;
    assert (q - 1.0) * w == q * w - w;
    if q > 1.0 {
      TimesPositive(q - 1.0, w);
    }
  }

  lemma QuotientBelowOne(x: real, w: real)
    requires w > 0.0 && x < w
    ensures x / w < 1.0
  {
    var q := x / w;
    assert q * w == x;
    assert (q - 1.0) * w == q * w - w;
    if q >= 1.0 {
      ProductNonNeg(q - 1.0, w);
    }
  }

  lemma ProductNonNeg(a: real, b: real)
    requires a >= 0.0 && b >= 0.0
    ensures a * b >= 0.0
  {
  }

  /** On `[0, 1]` the polynomial falls from 1 to 0 and stays within `[0, 1]`. */
  lemma ShellRange(y: real)
    requires 0.0 <= y <= 1.0
    ensures 0.0 <= Shell(y) <= 1.0
  {
    assert Shell(y) == (1.0 - y) * ((1.0 - y) * (1.0 + 2.0 * y));
    ProductNonNeg(1.0 - y, 1.0 + 2.0 * y);
    ProductNonNeg(1.0 - y, (1.0 - y) * (1.0 + 2.0 * y));
    ProductNonNeg(y, y);
    ProductNonNeg(y * y, 3.0 - 2.0 * y);
  }

  lemma ShellSlopeSign(y: real, w: real)
    requires w > 0.0 && 0.0 <= y <= 1.0
    ensures ShellSlope(y, w) <= 0.0
  {
    assert 6.0 / w > 0.0;
    ProductNonNeg(6.0 / w, y);
    ProductNonNeg(6.0 / w * y, 1.0 - y);
  }

  /**
   * `cut` is 1 inside `rc - w`, 0 from `rc` on, and the smoothstep polynomial of the
   * shell variable in between; `dtdd` vanishes outside the shell and is never positive.
   */
  function Cutoff(d: real, rc: real, w: real): (c: CutValue)
    ensures 0.0 <= c.cut <= 1.0
    ensures c.dcut <= 0.0
    ensures d >= rc ==> c.cut == 0.0 && c.dcut == 0.0
    ensures d < rc && d <= rc - w ==> c.cut == 1.0 && c.dcut == 0.0
    ensures rc - w < d < rc ==> c.cut == Shell(ShellVariable(d, rc, w)) && c.dcut == ShellSlope(ShellVariable(d, rc, w), w)
  {
    var x1 := d > rc - w;
    var x2 := d < rc;
    var x12 := x1 && x2;
    var cut := if x2 then 1.0 else 0.0;
    if x12 then
      var y := (d - rc + w) / w;
      ShellVariableRange(d, rc, w);
      ShellRange(y);
      ShellSlopeSign(y, w);
      CutValue(cut - y * y * (3.0 - 2.0 * y), 0.0 - 6.0 / w * y * (1.0 - y))
    else
      CutValue(cut, 0.0)
  }

  /**
   * On the closed shell `[rc - w, rc]` the polynomial formulas hold at the two edges as
   * well: value and slope of the flat pieces match the polynomial at `y = 0` and `y = 1`.
   */
  lemma CutoffOnClosedShell(d: real, rc: real, w: real)
    requires w > 0.0 && rc - w <= d <= rc
    ensures Cutoff(d, rc, w).cut == Shell(ShellVariable(d, rc, w))
    ensures Cutoff(d, rc, w).dcut == ShellSlope(ShellVariable(d, rc, w), w)
  {
    if d == rc - w {
      assert ShellVariable(d, rc, w) == 0.0;
    } else if d == rc {
      assert d - rc + w == w;
      assert ShellVariable(d, rc, w) == w / w == 1.0;
    }
  }

  /** Exact Taylor expansion of the smoothstep polynomial around `y`. */
  lemma ShellExpansion(y: real, t: real)
    ensures Shell(y + t) - Shell(y) == t * (6.0 * y * y - 6.0 * y) + t * t * (6.0 * y - 3.0) + 2.0 * t * t * t
  {
  }

  /** The second- and third-order part of a step `t` of the smoothstep polynomial at `y`. */
  function ShellRest(y: real, t: real): real
  {
    t * t * (6.0 * y - 3.0) + 2.0 * t * t * t
  }

  /**
   * `dcut` is the derivative of `cut`: across the closed shell, moving the distance by `h`
   * changes the weight by `h * dcut` plus terms of second and third order in `h / w`.
   */
  lemma {:induction false} CutoffDerivative(d: real, h: real, rc: real, w: real)
    requires w > 0.0 && rc - w <= d <= rc && rc - w <= d + h <= rc
    ensures Cutoff(d + h, rc, w).cut - Cutoff(d, rc, w).cut
              == h * Cutoff(d, rc, w).dcut + ShellRest(ShellVariable(d, rc, w), h / w)
  {
    CutoffOnClosedShell(d, rc, w);
    CutoffOnClosedShell(d + h, rc, w);
    ShellVariableStep(d, h, rc, w);
    CutStep(Cutoff(d + h, rc, w), Cutoff(d, rc, w), ShellVariable(d, rc, w), h, w);
  }

  /** Two cutoff values on the shell, `h` apart in distance, differ as the polynomial does. */
  lemma CutStep(c1: CutValue, c0: CutValue, y: real, h: real, w: real)
    requires w > 0.0 && c1.cut == Shell(y + h / w) && c0.cut == Shell(y) && c0.dcut == ShellSlope(y, w)
    ensures c1.cut - c0.cut == h * c0.dcut + ShellRest(y, h / w)
  {
    ShellStep(y, h, w);
  }

  lemma ShellVariableStep(d: real, h: real, rc: real, w: real)
    requires w > 0.0
    ensures ShellVariable(d + h, rc, w) == ShellVariable(d, rc, w) + h / w
  {
    assert (d + h - rc + w) / w == (d - rc + w) / w + h / w;
  }

  /** The step of the smoothstep polynomial, with its first-order part written as slope times step. */
  lemma ShellStep(y: real, h: real, w: real)
    requires w > 0.0
    ensures Shell(y + h / w) - Shell(y) == h * ShellSlope(y, w) + ShellRest(y, h / w)
  {
    ShellExpansion(y, h / w);
    SlopeTimesStep(y, h, w);
  }

  lemma SlopeTimesStep(y: real, h: real, w: real)
    requires w > 0.0
    ensures h * ShellSlope(y, w) == (h / w) * (6.0 * y * y - 6.0 * y)
  {
  }

  /** The weight never increases with distance. */
  lemma {:induction false} CutoffMonotone(d1: real, d2: real, rc: real, w: real)
    requires w > 0.0 && d1 <= d2
    ensures Cutoff(d2, rc, w).cut <= Cutoff(d1, rc, w).cut
  {
    if rc - w < d1 && d2 < rc {
      var y1 := ShellVariable(d1, rc, w);
      var y2 := ShellVariable(d2, rc, w);
      ShellVariableRange(d1, rc, w);
      ShellVariableRange(d2, rc, w);
      QuotientMono(d1 - rc + w, d2 - rc + w, w);
      ShellMonotone(y1, y2);
    }
  }

  lemma QuotientMono(a: real, b: real, w: real)
    requires w > 0.0 && a <= b
    ensures a / w <= b / w
  {
    assert b / w - a / w == (b - a) / w;
  }

  lemma ShellMonotone(y1: real, y2: real)
    requires 0.0 <= y1 <= y2 <= 1.0
    ensures Shell(y2) <= Shell(y1)
  {
    var g := y1 * (3.0 - 2.0 * y1 - y2) + y2 * (3.0 - y1 - 2.0 * y2);
    ProductNonNeg(y1, 3.0 - 2.0 * y1 - y2);
    ProductNonNeg(y2, 3.0 - y1 - 2.0 * y2);
    assert Shell(y1) - Shell(y2) == (y2 - y1) * g;
    ProductNonNeg(y2 - y1, g);
  }
}
