/** The working-size rule: the decoded image is rejected when empty, then
    resized to a fixed width of 100 and a height scaled by the aspect ratio
    with i32 arithmetic. */
module Preprocess {
  import opened Common

  const ResizeDim: int := 100

  /** Width and height handed to the resize primitive. */
  datatype Size = Size(width: int, height: int)

  /** The resize target. `100 * height` is an i32 product (a checked build
      panics when it overflows); the i32 quotient truncates toward zero, which
      for these non-negative operands is Dafny's `/`. */
  function WorkingSize(img: Image): (r: Result<Size>)
    requires img.rows <= I32Max && img.cols <= I32Max
    ensures IsEmpty(img) <==> r == Err(EmptyImage)
    ensures !IsEmpty(img) && ResizeDim * img.rows > I32Max <==> r == Err(Overflow)
    ensures !IsEmpty(img) && ResizeDim * img.rows <= I32Max ==> r.Ok?
    ensures r.Ok? ==> r.value.width == ResizeDim && r.value.height >= 0
    ensures r.Ok? ==> img.cols * r.value.height <= ResizeDim * img.rows < img.cols * (r.value.height + 1)
  {
    if IsEmpty(img) then Err(EmptyImage)
    else if ResizeDim * img.rows > I32Max then Err(Overflow)
    else
      var scaled := ResizeDim * img.rows;
      TruncatingQuotient(scaled, img.cols);
      Ok(Size(ResizeDim, scaled / img.cols))
  }

  /** The quotient `a / b` of non-negative operands is the largest q with q * b <= a. */
  lemma TruncatingQuotient(a: nat, b: nat)
    requires b > 0
    ensures a / b >= 0
    ensures b * (a / b) <= a < b * (a / b + 1)
  {
    assert a == b * (a / b) + a % b;
  }

  /** The resize primitive rejects a target with no rows; that happens
      exactly when the image is more than 100 times wider than tall. */
  lemma {:induction false} HeightZeroIffVeryWide(img: Image)
    requires img.rows <= I32Max && img.cols <= I32Max
    requires WorkingSize(img).Ok?
    ensures WorkingSize(img).value.height == 0 <==> ResizeDim * img.rows < img.cols
  {
    var h := WorkingSize(img).value.height;
    if h > 0 {
      MulLeftMono(1, h, img.cols);
    }
  }

  /** Images the decoder can produce (at most 2^20 rows) never overflow. */
  lemma DecoderSizedImagesDoNotOverflow(img: Image)
    requires !IsEmpty(img) && img.rows <= 0x10_0000 && img.cols <= I32Max
    ensures WorkingSize(img).Ok?
  {}

  /** A 200 x 100 image is worked on at 100 x 50; a 3 x 2 one at 100 x 66
      (truncated, not rounded to 67). */
  lemma WorkingSizeExamples()
    ensures WorkingSize(Image(100, 200, [])) == Ok(Size(100, 50))
    ensures WorkingSize(Image(2, 3, [])) == Ok(Size(100, 66))
  {}
}
