/** The preprocessed battle frame and mask_regions (app.py): three fixed
    rectangles are painted white, in place, before the header is read. The
    frame is a row-major pixel array indexed [y, x], as numpy indexes it. */
module Frame {

  /** One 8-bit colour channel. */
  type Byte = v: int | 0 <= v < 256

  /** An OpenCV pixel, channels in blue, green, red order. */
  datatype Pixel = Pixel(b: Byte, g: Byte, r: Byte)

  const White := Pixel(255, 255, 255)

  /** The size preprocess_image resizes every screenshot to. */
  const Width := 1611
  const Height := 696

  /** The two corner points handed to cv2.rectangle. */
  datatype Corners = Corners(x1: int, y1: int, x2: int, y2: int)

  /** v lies between a and b, both included, in either order. */
  predicate Between(v: int, a: int, b: int) {
    (a <= v <= b) || (b <= v <= a)
  }

  /** A filled cv2.rectangle covers both corner points and every pixel
      between them; pixels outside the image are simply not there. */
  predicate InRect(c: Corners, x: int, y: int) {
    Between(x, c.x1, c.x2) && Between(y, c.y1, c.y2)
  }

  /** The three rectangles mask_regions paints, in its order. */
  const MaskRects := [Corners(425, 150, 700, 225), Corners(1260, 150, 1535, 225), Corners(0, 240, 1611, 565)]

  predicate Masked(x: int, y: int) {
    InRect(MaskRects[0], x, y) || InRect(MaskRects[1], x, y) || InRect(MaskRects[2], x, y)
  }

  function Min(a: int, b: int): int { if a <= b then a else b }
  function Max(a: int, b: int): int { if a <= b then b else a }

  /** The frame as a value: its rows, each a sequence of pixels. */
  function FrameOf(img: array2<Pixel>): (f: seq<seq<Pixel>>)
    reads img
    ensures |f| == img.Length0
    ensures forall y :: 0 <= y < |f| ==> |f[y]| == img.Length1
    ensures forall y, x :: 0 <= y < img.Length0 && 0 <= x < img.Length1 ==> f[y][x] == img[y, x]
  {
    seq(img.Length0, y requires 0 <= y < img.Length0 reads img =>
      seq(img.Length1, x requires 0 <= x < img.Length1 reads img => img[y, x]))
  }

  /** A rectangular frame: every row equally long. */
  predicate IsGrid(f: seq<seq<Pixel>>) {
    forall y :: 0 <= y < |f| ==> |f[y]| == |f[0]|
  }

  /** mask_regions on a frame value. */
  function MaskFrame(f: seq<seq<Pixel>>): (m: seq<seq<Pixel>>)
    ensures |m| == |f| && forall y :: 0 <= y < |m| ==> |m[y]| == |f[y]|
  {
    seq(|f|, y requires 0 <= y < |f| =>
      seq(|f[y]|, x requires 0 <= x < |f[y]| => if Masked(x, y) then White else f[y][x]))
  }

  /** Masking a masked frame changes nothing. */
  lemma MaskFrameIdempotent(f: seq<seq<Pixel>>)
    ensures MaskFrame(MaskFrame(f)) == MaskFrame(f)
  {
    var m := MaskFrame(f);
    forall y | 0 <= y < |f| ensures MaskFrame(m)[y] == m[y] {
      assert |MaskFrame(m)[y]| == |m[y]|;
    }
  }

  /** Masking keeps the frame rectangular and of the same size. */
  lemma MaskFrameGrid(f: seq<seq<Pixel>>)
    requires IsGrid(f) && |f| > 0
    ensures IsGrid(MaskFrame(f)) && |MaskFrame(f)[0]| == |f[0]|
  {
  }

  /** On a full-size frame the third rectangle, whose right corner lies one
      column past the image, whitens rows 240 to 565 from edge to edge. */
  lemma MaskWhitensBand(f: seq<seq<Pixel>>, y: int, x: int)
    requires |f| == Height && IsGrid(f) && |f[0]| == Width
    requires 240 <= y <= 565 && 0 <= x < Width
    ensures MaskFrame(f)[y][x] == White
  {
  }

  /** Pixels outside the three rectangles come through masking unchanged. */
  lemma MaskKeeps(f: seq<seq<Pixel>>, y: int, x: int)
    requires 0 <= y < |f| && 0 <= x < |f[y]| && !Masked(x, y)
    ensures MaskFrame(f)[y][x] == f[y][x]
  {
  }

  /** cv2.rectangle(img, (x1, y1), (x2, y2), color, thickness=-1): the rows
      and then the columns of the rectangle that fall inside the image are
      painted; nothing else is touched. */
  method FillRect(img: array2<Pixel>, c: Corners, color: Pixel)
    modifies img
    ensures forall y, x :: 0 <= y < img.Length0 && 0 <= x < img.Length1 ==>
      img[y, x] == (if InRect(c, x, y) then color else old(img[y, x]))
  {
    var ylo := Min(Max(Min(c.y1, c.y2), 0), img.Length0);
    var yhi := Max(ylo, Min(Max(c.y1, c.y2) + 1, img.Length0));
    var xlo := Min(Max(Min(c.x1, c.x2), 0), img.Length1);
    var xhi := Max(xlo, Min(Max(c.x1, c.x2) + 1, img.Length1));
    assert forall y, x :: 0 <= y < img.Length0 && 0 <= x < img.Length1 ==>
      (InRect(c, x, y) <==> ylo <= y < yhi && xlo <= x < xhi);
    var y := ylo;
    while y < yhi
      invariant ylo <= y <= yhi
      invariant forall j, i :: 0 <= j < img.Length0 && 0 <= i < img.Length1 ==>
        img[j, i] == (if ylo <= j < y && xlo <= i < xhi then color else old(img[j, i]))
    {
      var x := xlo;
      while x < xhi
        invariant xlo <= x <= xhi
        invariant forall j, i :: 0 <= j < img.Length0 && 0 <= i < img.Length1 ==>
          img[j, i] == (if (ylo <= j < y && xlo <= i < xhi) || (j == y && xlo <= i < x) then color else old(img[j, i]))
      {
        img[y, x] := color;
        x := x + 1;
      }
      y := y + 1;
    }
  }

  /** mask_regions: the three fills, on the image it is given, which it
      also returns. */
  method MaskRegions(img: array2<Pixel>) returns (out: array2<Pixel>)
    modifies img
    ensures out == img
    ensures forall y, x :: 0 <= y < img.Length0 && 0 <= x < img.Length1 ==>
      img[y, x] == (if Masked(x, y) then White else old(img[y, x]))
    ensures FrameOf(img) == MaskFrame(old(FrameOf(img)))
  {
    FillRect(img, MaskRects[0], White);
    FillRect(img, MaskRects[1], White);
    FillRect(img, MaskRects[2], White);
    out := img;
    ghost var m := MaskFrame(old(FrameOf(img)));
    forall y | 0 <= y < img.Length0 ensures FrameOf(img)[y] == m[y] {
      assert |FrameOf(img)[y]| == |m[y]|;
    }
  }

  /** numpy's image.copy(): a new array with the same pixels. */
  method CopyFrame(img: array2<Pixel>) returns (c: array2<Pixel>)
    ensures fresh(c)
    ensures c.Length0 == img.Length0 && c.Length1 == img.Length1
    ensures FrameOf(c) == FrameOf(img)
  {
    c := new Pixel[img.Length0, img.Length1]((y, x) reads img =>
      if 0 <= y < img.Length0 && 0 <= x < img.Length1 then img[y, x] else White);
    forall y | 0 <= y < img.Length0 ensures FrameOf(c)[y] == FrameOf(img)[y] {
      assert |FrameOf(c)[y]| == |FrameOf(img)[y]|;
    }
  }
}
