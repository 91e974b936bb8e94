/** The dominant-orientation estimate: cells whose gradient magnitude exceeds a
    tenth of the peak are averaged as doubled-angle unit vectors (a circular
    mean that does not tell a gradient from its negation), and the mean
    direction is halved again. Fewer than ten strong cells mean no clear edge
    direction, and the angle is 0. */
module Estimator {
  import opened Common

  /** Fewest strong cells for which a direction is estimated. */
  const MinStrongCells: nat := 10

  /** A cell is strong when its magnitude exceeds this fraction of the peak. */
  const StrongFraction: real := 0.1

  /** The byte mask that binary thresholding with maximum value 255 yields
      over the magnitude field, after conversion to 8 bits. */
  function StrongMask(mag: seq<real>, threshold: real): seq<int> {
    seq(|mag|, i requires 0 <= i < |mag| => if mag[i] > threshold then 255 else 0)
  }

  /** The peak-relative threshold applied to a non-empty magnitude field. */
  function StrongCells(mag: seq<real>): seq<int>
    requires |mag| > 0
  {
    StrongMask(mag, StrongFraction * Max(mag))
  }

  /** Sum of f(2 * angle) over the selected cells of a row-major scan. */
  function DoubledSum(m: seq<int>, a: seq<real>, f: real -> real): real
    requires |m| == |a|
  {
    if m == [] then 0.0
    else
      DoubledSum(m[..|m| - 1], a[..|a| - 1], f)
      + (if m[|m| - 1] != 0 then f(2.0 * a[|a| - 1]) else 0.0)
  }

  /** The dominant gradient angle, in radians, that the scan produces for a
      strong-cell mask and an angle field. */
  function DominantAngleOf(m: seq<int>, a: seq<real>, trig: Trig): real
    requires |m| == |a|
  {
    var n := NonZeroCount(m);
    if n < MinStrongCells then 0.0
    else 0.5 * trig.atan2(DoubledSum(m, a, trig.sin) / n as real,
                          DoubledSum(m, a, trig.cos) / n as real)
  }

  /** The row-major scan over the strong-cell mask and the angle field: it
      counts the selected cells and sums the cosine and sine of their doubled
      angles, visiting each of the rows * cols cells once. */
  method Accumulate(mask: array<int>, angle: array<real>, rows: nat, cols: nat, trig: Trig)
    returns (sumCos: real, sumSin: real, count: nat)
    requires mask.Length == rows * cols && angle.Length == rows * cols
    ensures count == NonZeroCount(mask[..])
    ensures sumCos == DoubledSum(mask[..], angle[..], trig.cos)
    ensures sumSin == DoubledSum(mask[..], angle[..], trig.sin)
  {
    sumCos, sumSin, count := 0.0, 0.0, 0;
    var y := 0;
    while y < rows
      invariant 0 <= y <= rows
      invariant y * cols <= rows * cols
      invariant count == NonZeroCount(mask[..y * cols])
      invariant sumCos == DoubledSum(mask[..y * cols], angle[..y * cols], trig.cos)
      invariant sumSin == DoubledSum(mask[..y * cols], angle[..y * cols], trig.sin)
    {
      var x := 0;
      while x < cols
        invariant 0 <= x <= cols
        invariant Index(cols, y, x) <= rows * cols
        invariant count == NonZeroCount(mask[..Index(cols, y, x)])
        invariant sumCos == DoubledSum(mask[..Index(cols, y, x)], angle[..Index(cols, y, x)], trig.cos)
        invariant sumSin == DoubledSum(mask[..Index(cols, y, x)], angle[..Index(cols, y, x)], trig.sin)
      {
        var idx := Index(cols, y, x);
        IndexInGrid(rows, cols, y, x);
        ScanStep(mask[..], angle[..], idx, trig);
        if mask[idx] != 0 {
          var a := angle[idx];
          var doubleAngle := 2.0 * a;
          sumCos := sumCos + trig.cos(doubleAngle);
          sumSin := sumSin + trig.sin(doubleAngle);
          count := count + 1;
        }
        x := x + 1;
      }
      assert Index(cols, y, cols) == (y + 1) * cols;
      y := y + 1;
    }
    assert mask[..rows * cols] == mask[..];
    assert angle[..rows * cols] == angle[..];
  }

  /** Extending a scanned prefix by cell i adds that cell's contribution. */
  lemma ScanStep(m: seq<int>, a: seq<real>, i: nat, trig: Trig)
    requires |m| == |a| && i < |m|
    ensures NonZeroCount(m[..i + 1]) == NonZeroCount(m[..i]) + (if m[i] != 0 then 1 else 0)
    ensures DoubledSum(m[..i + 1], a[..i + 1], trig.cos)
            == DoubledSum(m[..i], a[..i], trig.cos) + (if m[i] != 0 then trig.cos(2.0 * a[i]) else 0.0)
    ensures DoubledSum(m[..i + 1], a[..i + 1], trig.sin)
            == DoubledSum(m[..i], a[..i], trig.sin) + (if m[i] != 0 then trig.sin(2.0 * a[i]) else 0.0)
  {
    assert m[..i + 1][..i] == m[..i];
    assert a[..i + 1][..i] == a[..i];
  }

  /** The dominant angle: 0 when count_non_zero reports fewer than ten strong
      cells, otherwise half the atan2 of the averaged doubled-angle sums. The
      scan then finds at least ten cells, so its `count == 0` fallback is dead. */
  method DominantAngle(nonZero: nat, mask: array<int>, angle: array<real>, rows: nat, cols: nat, trig: Trig)
    returns (theta: real)
    requires mask.Length == rows * cols && angle.Length == rows * cols
    requires nonZero == NonZeroCount(mask[..])
    ensures theta == DominantAngleOf(mask[..], angle[..], trig)
  {
    if nonZero < MinStrongCells {
      theta := 0.0;
    } else {
      var sumCos, sumSin, count := Accumulate(mask, angle, rows, cols, trig);
      if count == 0 {
        assert false;
        theta := 0.0;
      } else {
        var avgCos := sumCos / count as real;
        var avgSin := sumSin / count as real;
        theta := 0.5 * trig.atan2(avgSin, avgCos);
      }
    }
  }

  /** A cell that is non-zero makes the count positive. */
  lemma {:induction false} NonZeroCountPositive(m: seq<int>, i: nat)
    requires i < |m| && m[i] != 0
    ensures NonZeroCount(m) > 0
  {
    if i < |m| - 1 {
      NonZeroCountPositive(m[..|m| - 1], i);
    }
  }

  /** A mask with no non-zero cell counts zero. */
  lemma {:induction false} NonZeroCountNone(m: seq<int>)
    requires forall i :: 0 <= i < |m| ==> m[i] == 0
    ensures NonZeroCount(m) == 0
  {
    if m != [] {
      NonZeroCountNone(m[..|m| - 1]);
    }
  }

  /** When cos and sin stay in [-1, 1], each doubled-angle sum is bounded by
      the number of cells summed, so both averages lie in [-1, 1]. */
  lemma {:induction false} DoubledSumBounded(m: seq<int>, a: seq<real>, f: real -> real)
    requires |m| == |a|
    requires forall x :: -1.0 <= f(x) <= 1.0
    ensures -(NonZeroCount(m) as real) <= DoubledSum(m, a, f) <= NonZeroCount(m) as real
    ensures NonZeroCount(m) > 0 ==> -1.0 <= DoubledSum(m, a, f) / NonZeroCount(m) as real <= 1.0
  {
    if m != [] {
      DoubledSumBounded(m[..|m| - 1], a[..|a| - 1], f);
    }
    if NonZeroCount(m) > 0 {
      QuotientBetween(DoubledSum(m, a, f), NonZeroCount(m) as real, -1.0, 1.0);
    }
  }

  /** A field with a positive peak always has at least one strong cell: the
      peak itself exceeds a tenth of itself. */
  lemma PeakIsStrong(mag: seq<real>)
    requires |mag| > 0 && Max(mag) > 0.0
    ensures NonZeroCount(StrongCells(mag)) > 0
  {
    var i :| 0 <= i < |mag| && mag[i] == Max(mag);
    NonZeroCountPositive(StrongCells(mag), i);
  }

  /** A magnitude field that is zero everywhere (as the gradient primitives
      give for a black image, whose zero-padded border adds no edge) has no
      strong cell at all, so its dominant angle is 0. */
  lemma FlatFieldHasAngleZero(mag: seq<real>, angle: seq<real>, trig: Trig)
    requires |mag| > 0 && |mag| == |angle|
    requires forall i :: 0 <= i < |mag| ==> mag[i] == 0.0
    ensures NonZeroCount(StrongCells(mag)) == 0
    ensures DominantAngleOf(StrongCells(mag), angle, trig) == 0.0
  {
    NonZeroCountNone(StrongCells(mag));
  }
}
