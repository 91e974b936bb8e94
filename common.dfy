/** Shared vocabulary of the gradient extractor: results and errors, pixels and
    images, row-major grids, and the counting and extremum reductions that the
    imaging primitives (count_non_zero, min_max_loc) compute. */
module Common {

  /** Why extraction fails. An image that decodes to nothing is EmptyImage;
      `100 * height` leaving the i32 range is Overflow (a panic in a checked
      build); an imaging primitive rejecting its arguments is PrimitiveFailure. */
  datatype Error = EmptyImage | Overflow | PrimitiveFailure

  datatype Result<T> = Ok(value: T) | Err(error: Error) {
    predicate IsFailure() { Err? }

    function PropagateFailure<U>(): Result<U>
      requires Err?
    {
      Err(error)
    }

    function Extract(): T
      requires Ok?
    {
      value
    }
  }

  datatype Option<T> = None | Some(value: T)

  /** The floating-point library functions the extractor calls, left
      uninterpreted: cos, sin, atan2(y, x) and radians-to-degrees. */
  datatype Trig = Trig(cos: real -> real, sin: real -> real,
                       atan2: (real, real) -> real, toDegrees: real -> real)

  const I32Max: int := 0x7fff_ffff

  predicate IsByte(n: int) { 0 <= n < 256 }

  /** An 8-bit colour pixel in the decoder's channel order: blue, green, red. */
  datatype Pixel = Pixel(b: int, g: int, r: int)

  predicate ValidPixel(p: Pixel) { IsByte(p.b) && IsByte(p.g) && IsByte(p.r) }

  /** A row-major grid of pixels. */
  datatype Image = Image(rows: nat, cols: nat, pixels: seq<Pixel>)

  predicate ValidImage(img: Image) {
    |img.pixels| == img.rows * img.cols &&
    forall i :: 0 <= i < |img.pixels| ==> ValidPixel(img.pixels[i])
  }

  /** An image with no cells; what the decoder hands back for a file it cannot read. */
  predicate IsEmpty(img: Image) { img.rows == 0 || img.cols == 0 }

  /** Position of cell (y, x) in a row-major buffer whose rows hold `cols` cells. */
  function Index(cols: nat, y: nat, x: nat): nat { y * cols + x }

  lemma MulLeftMono(a: nat, b: nat, c: nat)
    requires a <= b
    ensures a * c <= b * c
  {}

  /** Every cell (y, x) of a rows-by-cols grid lands inside the buffer, and
      (y, x) can be read back from its index, so distinct cells have distinct
      indices: a row-major scan visits each cell exactly once. */
  lemma {:induction false} IndexInGrid(rows: nat, cols: nat, y: nat, x: nat)
    requires y < rows && x < cols
    ensures Index(cols, y, x) < rows * cols
    ensures Index(cols, y, x) / cols == y && Index(cols, y, x) % cols == x
  {
    var i := Index(cols, y, x);
    MulLeftMono(y + 1, rows, cols);
    assert (y + 1) * cols == y * cols + cols;
    var q, r := i / cols, i % cols;
    assert i == q * cols + r && 0 <= r < cols;
    if q > y {
      MulLeftMono(y + 1, q, cols);
      assert false;
    } else if q < y {
      MulLeftMono(q + 1, y, cols);
      assert false;
    }
  }

  /** Conversely, every buffer position is the index of one grid cell. */
  lemma {:induction false} IndexOnto(rows: nat, cols: nat, i: nat)
    requires i < rows * cols
    ensures cols > 0 && i / cols < rows && Index(cols, i / cols, i % cols) == i
  {
    if cols == 0 {
      assert false;
    }
    if i / cols >= rows {
      MulLeftMono(rows, i / cols, cols);
      assert false;
    }
  }

  lemma DivMul(x: real, m: real)
    requires m != 0.0
    ensures (x / m) * m == x
  {}

  /** Scaling by a positive factor keeps order, strict and non-strict. */
  lemma ScaleMono(a: real, b: real, m: real)
    requires m > 0.0
    ensures a <= b ==> a * m <= b * m
    ensures a < b ==> a * m < b * m
  {
    assert (b - a) * m == b * m - a * m;
    if a < b { assert (b - a) * m > 0.0; }
  }

  /** A quotient by a positive n of a value between lo * n and hi * n lies
      between lo and hi. */
  lemma QuotientBetween(s: real, n: real, lo: real, hi: real)
    requires n > 0.0 && lo * n <= s <= hi * n
    ensures lo <= s / n <= hi
  {
    DivMul(s, n);
    ScaleMono(s / n, lo, n);
    ScaleMono(hi, s / n, n);
  }

  /** Number of non-zero cells: what count_non_zero reports. */
  function NonZeroCount(m: seq<int>): (n: nat)
    ensures n <= |m|
  {
    if m == [] then 0
    else NonZeroCount(m[..|m| - 1]) + (if m[|m| - 1] != 0 then 1 else 0)
  }

  /** Number of selected cells of a boolean mask. */
  function CountTrue(m: seq<bool>): (n: nat)
    ensures n <= |m|
  {
    if m == [] then 0
    else CountTrue(m[..|m| - 1]) + (if m[|m| - 1] then 1 else 0)
  }

  /** A mask counts zero exactly when it selects no cell. */
  lemma {:induction false} CountTruePositive(m: seq<bool>)
    ensures CountTrue(m) > 0 <==> exists i :: 0 <= i < |m| && m[i]
  {
    if m != [] {
      var p := m[..|m| - 1];
      CountTruePositive(p);
      if exists i :: 0 <= i < |p| && p[i] {
        var i :| 0 <= i < |p| && p[i];
        assert m[i];
      }
      if exists i :: 0 <= i < |m| && m[i] {
        var i :| 0 <= i < |m| && m[i];
        if i < |p| { assert p[i]; }
      }
    }
  }

  /** Smallest value of a non-empty field, as min_max_loc reports it. */
  function Min(s: seq<real>): (m: real)
    requires |s| > 0
    ensures exists i :: 0 <= i < |s| && s[i] == m
    ensures forall i :: 0 <= i < |s| ==> m <= s[i]
  {
    if |s| == 1 then s[0]
    else
      var rest := Min(s[1..]);
      assert forall i :: 1 <= i < |s| ==> s[i] == s[1..][i - 1];
      if s[0] <= rest then s[0] else rest
  }

  /** Largest value of a non-empty field, as min_max_loc reports it. */
  function Max(s: seq<real>): (m: real)
    requires |s| > 0
    ensures exists i :: 0 <= i < |s| && s[i] == m
    ensures forall i :: 0 <= i < |s| ==> s[i] <= m
  {
    if |s| == 1 then s[0]
    else
      var rest := Max(s[1..]);
      assert forall i :: 1 <= i < |s| ==> s[i] == s[1..][i - 1];
      if s[0] >= rest then s[0] else rest
  }
}
