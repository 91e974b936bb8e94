/** The axis projection: every cell (x, y) of the working grid is projected
    onto the dominant direction, t = x * dx + y * dy, and the cells in the
    lowest and highest 15% of the projected range form the start and end bands. */
module Projector {
  import opened Common

  /** Share of the projected range that each band covers. */
  const BandFraction: real := 0.15

  /** Coordinate of cell (x, y) along direction (dx, dy). */
  function Project(x: nat, y: nat, dx: real, dy: real): real {
    x as real * dx + y as real * dy
  }

  /** The projection field over an h-by-w grid, in row-major order. */
  function ProjectionField(h: nat, w: nat, dx: real, dy: real): (t: seq<real>)
    ensures |t| == h * w
  {
    if w == 0 then []
    else seq(h * w, i requires 0 <= i < h * w => Project(i % w, i / w, dx, dy))
  }

  /** Cell (y, x) of the field holds x * dx + y * dy. */
  lemma ProjectionFieldAt(h: nat, w: nat, dx: real, dy: real, y: nat, x: nat)
    requires y < h && x < w
    ensures Index(w, y, x) < h * w
    ensures ProjectionField(h, w, dx, dy)[Index(w, y, x)] == Project(x, y, dx, dy)
  {
    IndexInGrid(h, w, y, x);
  }

  /** The nested row-major loop that writes the projection into a buffer of
      h * w cells: afterwards every cell (y, x) holds x * dx + y * dy. */
  method FillProjection(t: array<real>, h: nat, w: nat, dx: real, dy: real)
    requires t.Length == h * w
    modifies t
    ensures t[..] == ProjectionField(h, w, dx, dy)
  {
    ghost var field := ProjectionField(h, w, dx, dy);
    var y := 0;
    while y < h
      invariant 0 <= y <= h
      invariant y * w <= h * w
      invariant forall i :: 0 <= i < y * w ==> t[i] == field[i]
    {
      var x := 0;
      while x < w
        invariant 0 <= x <= w
        invariant Index(w, y, x) <= h * w
        invariant forall i :: 0 <= i < Index(w, y, x) ==> t[i] == field[i]
      {
        var idx := Index(w, y, x);
        ProjectionFieldAt(h, w, dx, dy, y, x);
        t[idx] := Project(x, y, dx, dy);
        x := x + 1;
      }
      assert Index(w, y, w) == (y + 1) * w;
      y := y + 1;
    }
  }

  /** The band limits: low sits 15% of the range above the minimum, high 15%
      below the maximum. */
  datatype Band = Band(low: real, high: real)

  function Thresholds(minVal: real, maxVal: real): (b: Band)
    ensures minVal <= maxVal ==> minVal <= b.low <= b.high <= maxVal
    ensures minVal < maxVal ==> b.low < b.high
    ensures b.low - minVal == maxVal - b.high
  {
    Band(minVal + BandFraction * (maxVal - minVal), maxVal - BandFraction * (maxVal - minVal))
  }

  /** The band limits of a non-empty projection field, from its extremes. */
  function FieldBand(t: seq<real>): Band
    requires |t| > 0
  {
    Thresholds(Min(t), Max(t))
  }

  /** Cells at or below `low`: an inclusive range test from minus infinity. */
  function StartMask(t: seq<real>, low: real): seq<bool> {
    seq(|t|, i requires 0 <= i < |t| => t[i] <= low)
  }

  /** Cells at or above `high`: an inclusive range test up to plus infinity. */
  function EndMask(t: seq<real>, high: real): seq<bool> {
    seq(|t|, i requires 0 <= i < |t| => t[i] >= high)
  }

  /** When the field is not constant, no cell is in both bands. */
  lemma BandsDisjoint(t: seq<real>)
    requires |t| > 0 && Min(t) < Max(t)
    ensures forall i :: 0 <= i < |t| ==> !(StartMask(t, FieldBand(t).low)[i] && EndMask(t, FieldBand(t).high)[i])
  {}

  /** Each band holds at least one cell of a non-empty field (a cell of
      smallest projection starts, one of largest ends), so neither band
      falls back to black. */
  lemma BandsNonEmpty(t: seq<real>)
    requires |t| > 0
    ensures CountTrue(StartMask(t, FieldBand(t).low)) > 0
    ensures CountTrue(EndMask(t, FieldBand(t).high)) > 0
  {
    var b := FieldBand(t);
    var lo :| 0 <= lo < |t| && t[lo] == Min(t);
    var hi :| 0 <= hi < |t| && t[hi] == Max(t);
    assert StartMask(t, b.low)[lo];
    assert EndMask(t, b.high)[hi];
    CountTruePositive(StartMask(t, b.low));
    CountTruePositive(EndMask(t, b.high));
  }

  /** A constant field puts every cell into both bands. */
  lemma ConstantFieldFillsBothBands(t: seq<real>)
    requires |t| > 0 && Min(t) == Max(t)
    ensures forall i :: 0 <= i < |t| ==> StartMask(t, FieldBand(t).low)[i] && EndMask(t, FieldBand(t).high)[i]
  {}
}
