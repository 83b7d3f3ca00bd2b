/** Planar YUV: conversion of a BGRA framebuffer, the slices cut from it and the stamping of slices onto
    a persistent picture. The colour arithmetic of libyuv is a parameter (`Converter`): luma is any
    function of one pixel, 4:2:0 chroma any function of the 2x2 block clipped to the converted region. */
module Yuv {
  import opened DirtyRects
  import opened Options

  type Pixel = nat
  type Sample = nat

  datatype PixelFormat = Rgba | Bgra | Yuv420p | Yuv444p {
    predicate Planar() { Yuv420p? || Yuv444p? }
  }

  datatype Plane = Y | U | V

  datatype Bitmap = Bitmap(width: nat, height: nat, rows: seq<seq<Pixel>>) {
    /** The bounds are those under which the byte stride and the height stay positive as C ints. */
    predicate Valid() {
      && 0 < width < 0x2000_0000 && 0 < height < 0x8000_0000
      && |rows| == height
      && forall y | 0 <= y < height :: |rows[y]| == width
    }
  }

  type Framebuffer = b: Bitmap | b.Valid() witness Bitmap(1, 1, [[0]])

  function Bounds(fb: Framebuffer): Rect {
    Full(fb.width, fb.height)
  }

  /** Planes of full resolution; the others are halved in both directions. */
  predicate FullResolution(format: PixelFormat, plane: Plane) {
    plane.Y? || format.Yuv444p?
  }

  /** Number of samples that `n` pixels take in a row or column of the plane. */
  function Extent(format: PixelFormat, plane: Plane, n: nat): nat {
    if FullResolution(format, plane) then n else (n + 1) / 2
  }

  /** Sample position of a pixel position. */
  function Origin(format: PixelFormat, plane: Plane, n: nat): nat {
    if FullResolution(format, plane) then n else n / 2
  }

  datatype Block = Block(topLeft: Pixel, topRight: Option<Pixel>, bottomLeft: Option<Pixel>, bottomRight: Option<Pixel>)

  datatype Converter = Converter(luma: Pixel -> Sample,
                                 chroma444: (Plane, Pixel) -> Sample,
                                 chroma420: (Plane, Block) -> Sample)

  /** The 2x2 block at (x, y), without the pixels at or beyond `right` and `bottom`. */
  function BlockAt(fb: Framebuffer, x: nat, y: nat, right: nat, bottom: nat): Block
    requires x < right <= fb.width && y < bottom <= fb.height
  {
    Block(fb.rows[y][x],
          if x + 1 < right then Some(fb.rows[y][x + 1]) else None,
          if y + 1 < bottom then Some(fb.rows[y + 1][x]) else None,
          if x + 1 < right && y + 1 < bottom then Some(fb.rows[y + 1][x + 1]) else None)
  }

  /** Sample (i, j) of the conversion of the sub-rectangle `r` alone. */
  function ConvertedSample(c: Converter, fb: Framebuffer, r: Rect, format: PixelFormat, plane: Plane,
                           i: nat, j: nat): Sample
    requires r.Inside(fb.width, fb.height)
    requires i < Extent(format, plane, r.width) && j < Extent(format, plane, r.height)
  {
    if plane.Y? then c.luma(fb.rows[r.y + j][r.x + i])
    else if format.Yuv444p? then c.chroma444(plane, fb.rows[r.y + j][r.x + i])
    else c.chroma420(plane, BlockAt(fb, r.x + 2 * i, r.y + 2 * j, r.Right(), r.Bottom()))
  }

  predicate InPlane(fb: Framebuffer, format: PixelFormat, plane: Plane, x: int, y: int) {
    0 <= x < Extent(format, plane, fb.width) && 0 <= y < Extent(format, plane, fb.height)
  }

  /** Sample (x, y) of the conversion of the whole frame. */
  function FrameSample(c: Converter, fb: Framebuffer, format: PixelFormat, plane: Plane, x: nat, y: nat): Sample
    requires InPlane(fb, format, plane, x, y)
  {
    ConvertedSample(c, fb, Bounds(fb), format, plane, x, y)
  }

  /** Converting a sub-rectangle that splits no chroma block is restricting the conversion of the frame. */
  lemma ConversionRestricts(c: Converter, fb: Framebuffer, r: Rect, format: PixelFormat, plane: Plane, i: nat, j: nat)
    requires r.Inside(fb.width, fb.height)
    requires format.Planar() && r.WholeBlocks(fb.width, fb.height)
    requires i < Extent(format, plane, r.width) && j < Extent(format, plane, r.height)
    ensures InPlane(fb, format, plane, Origin(format, plane, r.x) + i, Origin(format, plane, r.y) + j)
    ensures ConvertedSample(c, fb, r, format, plane, i, j)
            == FrameSample(c, fb, format, plane, Origin(format, plane, r.x) + i, Origin(format, plane, r.y) + j)
  {
    if !FullResolution(format, plane) {
      var x, y := r.x + 2 * i, r.y + 2 * j;
      assert 2 * (Origin(format, plane, r.x) + i) == x && 2 * (Origin(format, plane, r.y) + j) == y;
      assert x + 1 < r.Right() <==> x + 1 < fb.width;
      assert y + 1 < r.Bottom() <==> y + 1 < fb.height;
    }
  }

  /** Without whole blocks the two conversions differ: a slice one pixel wide taken from the middle of a
      block sees only half of it. */
  lemma SplitBlockDiffers(c: Converter)
    requires c.chroma420 == ((p: Plane, b: Block) => if b.topRight.Some? then 1 else 0)
    ensures var fb := Bitmap(2, 1, [[0, 0]]);
            ConvertedSample(c, fb, Rect(0, 0, 1, 1), Yuv420p, U, 0, 0) != FrameSample(c, fb, Yuv420p, U, 0, 0)
  {
  }

  // ---- slices

  datatype Slice = Slice(x: nat, y: nat, width: nat, height: nat, data: seq<Sample>, strideY: nat, strideUV: nat) {
    function Area(): Rect { Rect(x, y, width, height) }

    function Stride(plane: Plane): nat {
      if plane.Y? then strideY else strideUV
    }

    /** Offset of a plane inside `data`, as the pump recomputes it from the strides and the height. */
    function PlaneOffset(format: PixelFormat, plane: Plane): nat {
      match plane
      case Y => 0
      case U => Size(strideY, height)
      case V => Size(strideY, height) + Size(strideUV, Extent(format, U, height))
    }

    /** The layout the producer allocates: the three planes one after the other and nothing else. */
    predicate Layout(format: PixelFormat) {
      && strideY == width && strideUV == Extent(format, U, width)
      && |data| == Size(strideY, height) + 2 * Size(strideUV, Extent(format, U, height))
    }

    /** Position of sample (i, j) of a plane inside `data`. */
    function Index(format: PixelFormat, plane: Plane, i: nat, j: nat): nat {
      PlaneOffset(format, plane) + RowMajor(i, j, Stride(plane))
    }

    /** Every sample of every plane can be read, whatever the layout. */
    ghost predicate Readable(format: PixelFormat) {
      forall plane, i: nat, j: nat | i < Extent(format, plane, width) && j < Extent(format, plane, height) ::
        Index(format, plane, i, j) < |data|
    }

    function Sample(format: PixelFormat, plane: Plane, i: nat, j: nat): (s: Sample) {
      if Index(format, plane, i, j) < |data| then data[Index(format, plane, i, j)] else 0
    }
  }

  // ---- row-major order

  function Size(stride: nat, rows: nat): nat {
    stride * rows
  }

  function RowMajor(i: nat, j: nat, stride: nat): nat {
    j * stride + i
  }

  function Column(k: nat, stride: nat): nat
    requires 0 < stride
  {
    k % stride
  }

  function Row(k: nat, stride: nat): nat
    requires 0 < stride
  {
    k / stride
  }

  lemma RowMajorBound(i: nat, j: nat, stride: nat, rows: nat)
    requires i < stride && j < rows
    ensures RowMajor(i, j, stride) < Size(stride, rows)
  {
    assert (j + 1) * stride <= rows * stride;
  }

  lemma RowMajorCoordinates(k: nat, stride: nat, rows: nat)
    requires k < Size(stride, rows)
    ensures 0 < stride && Column(k, stride) < stride && Row(k, stride) < rows
  {
    PositiveFactor(stride, rows);
    var q := k / stride;
    assert k == stride * q + k % stride;
    if q >= rows {
      Monotone(stride, rows, q);
    }
  }

  lemma PositiveFactor(a: nat, b: nat)
    requires 0 < a * b
    ensures 0 < a
  {
  }

  lemma Monotone(a: nat, b: nat, c: nat)
    requires b <= c
    ensures a * b <= a * c
  {
  }

  lemma SmallMultiple(stride: int, d: int)
    requires 0 < stride && -stride < stride * d < stride
    ensures d == 0
  {
  }

  lemma RowMajorInverse(i: nat, j: nat, stride: nat)
    requires i < stride
    ensures Column(RowMajor(i, j, stride), stride) == i && Row(RowMajor(i, j, stride), stride) == j
  {
    var k := j * stride + i;
    var q, r := k / stride, k % stride;
    assert k == stride * q + r;
    assert stride * (q - j) == stride * q - j * stride == i - r;
    SmallMultiple(stride, q - j);
  }

  /** Every row of every plane that the pump addresses lies inside the producer's buffer. */
  lemma PlanesInsideBuffer(s: Slice, format: PixelFormat, plane: Plane, i: nat, j: nat)
    requires s.Layout(format)
    requires i < Extent(format, plane, s.width) && j < Extent(format, plane, s.height)
    ensures s.Index(format, plane, i, j) < |s.data|
  {
    hide Size, RowMajor;
    RowMajorBound(i, j, s.Stride(plane), Extent(format, plane, s.height));
  }

  lemma LayoutReadable(s: Slice, format: PixelFormat)
    requires s.Layout(format)
    ensures s.Readable(format)
  {
    forall plane, i: nat, j: nat | i < Extent(format, plane, s.width) && j < Extent(format, plane, s.height)
      ensures s.Index(format, plane, i, j) < |s.data|
    {
      PlanesInsideBuffer(s, format, plane, i, j);
    }
  }

  /** One converted plane in row-major order. */
  function PlaneData(c: Converter, fb: Framebuffer, r: Rect, format: PixelFormat, plane: Plane): (d: seq<Sample>)
    requires r.Inside(fb.width, fb.height)
    ensures |d| == Size(Extent(format, plane, r.width), Extent(format, plane, r.height))
  {
    var n := Size(Extent(format, plane, r.width), Extent(format, plane, r.height));
    seq(n, k requires 0 <= k < n => SampleAt(c, fb, r, format, plane, k))
  }

  function SampleAt(c: Converter, fb: Framebuffer, r: Rect, format: PixelFormat, plane: Plane, k: nat): Sample
    requires r.Inside(fb.width, fb.height)
    requires k < Size(Extent(format, plane, r.width), Extent(format, plane, r.height))
  {
    hide Size, Column, Row;
    var stride := Extent(format, plane, r.width);
    RowMajorCoordinates(k, stride, Extent(format, plane, r.height));
    ConvertedSample(c, fb, r, format, plane, Column(k, stride), Row(k, stride))
  }

  function MakeSliceFromBgra(c: Converter, fb: Framebuffer, r: Rect, format: PixelFormat): (s: Option<Slice>)
    requires r.Right() <= fb.width && r.Bottom() <= fb.height
    ensures s.Some? <==> format.Planar() && 0 < r.width && 0 < r.height
    ensures s.Some? ==> s.value.Area() == r && s.value.Layout(format)
  {
    if r.width == 0 || r.height == 0 || !format.Planar() then None
    else
      Some(Slice(r.x, r.y, r.width, r.height,
                 PlaneData(c, fb, r, format, Y) + PlaneData(c, fb, r, format, U) + PlaneData(c, fb, r, format, V),
                 r.width, Extent(format, U, r.width)))
  }

  /** Reading a fresh slice at the pump's plane offsets gives back the converted samples. */
  lemma SliceSamples(c: Converter, fb: Framebuffer, r: Rect, format: PixelFormat, plane: Plane, i: nat, j: nat)
    requires r.Inside(fb.width, fb.height) && format.Planar()
    requires i < Extent(format, plane, r.width) && j < Extent(format, plane, r.height)
    ensures MakeSliceFromBgra(c, fb, r, format).value.Sample(format, plane, i, j)
            == ConvertedSample(c, fb, r, format, plane, i, j)
  {
    hide Size, RowMajor, PlaneData, ConvertedSample, MakeSliceFromBgra;
    var s := MakeSliceFromBgra(c, fb, r, format).value;
    assert s.Area() == r && s.Layout(format);
    assert s.Stride(plane) == Extent(format, plane, r.width);
    PlaneDataSample(c, fb, r, format, plane, i, j);
    PlaneDataAt(c, fb, r, format, plane, RowMajor(i, j, s.Stride(plane)));
  }

  lemma PlaneDataSample(c: Converter, fb: Framebuffer, r: Rect, format: PixelFormat, plane: Plane, i: nat, j: nat)
    requires r.Inside(fb.width, fb.height)
    requires i < Extent(format, plane, r.width) && j < Extent(format, plane, r.height)
    ensures var k := RowMajor(i, j, Extent(format, plane, r.width));
            && k < |PlaneData(c, fb, r, format, plane)|
            && PlaneData(c, fb, r, format, plane)[k] == ConvertedSample(c, fb, r, format, plane, i, j)
  {
    hide Size, RowMajor, Column, Row, ConvertedSample, Extent;
    var stride := Extent(format, plane, r.width);
    RowMajorBound(i, j, stride, Extent(format, plane, r.height));
    RowMajorInverse(i, j, stride);
  }

  /** A plane starts at its offset. */
  lemma PlaneDataAt(c: Converter, fb: Framebuffer, r: Rect, format: PixelFormat, plane: Plane, k: nat)
    requires r.Inside(fb.width, fb.height) && format.Planar()
    requires k < |PlaneData(c, fb, r, format, plane)|
    ensures var s := MakeSliceFromBgra(c, fb, r, format).value;
            var index := s.PlaneOffset(format, plane) + k;
            index < |s.data| && s.data[index] == PlaneData(c, fb, r, format, plane)[k]
  {
    hide PlaneData, Size;
    var y, u, v := PlaneData(c, fb, r, format, Y), PlaneData(c, fb, r, format, U), PlaneData(c, fb, r, format, V);
    var s := MakeSliceFromBgra(c, fb, r, format).value;
    assert s.data == y + u + v;
    match plane
    case Y => assert (y + u + v)[k] == y[k];
    case U => assert (y + u + v)[|y| + k] == u[k];
    case V => assert (y + u + v)[|y| + |u| + k] == v[k];
  }

  // ---- pictures

  /** A sample of the encoder's input frame: fresh frame memory has no defined content. */
  datatype Cell = Unwritten | Written(sample: Sample)

  type Image = (Plane, int, int) -> Cell

  /** Whether stamping writes sample (x, y) of the plane, for a slice clipped to the frame. */
  predicate Covers(s: Slice, format: PixelFormat, frameWidth: nat, frameHeight: nat, plane: Plane, x: int, y: int) {
    && s.x < frameWidth && s.y < frameHeight
    && var w, h := Min(s.width, frameWidth - s.x), Min(s.height, frameHeight - s.y);
    && Origin(format, plane, s.x) <= x < Origin(format, plane, s.x) + Extent(format, plane, w)
    && Origin(format, plane, s.y) <= y < Origin(format, plane, s.y) + Extent(format, plane, h)
  }

  function Stamp(img: Image, s: Slice, format: PixelFormat, frameWidth: nat, frameHeight: nat): Image {
    (plane: Plane, x: int, y: int) =>
      if Covers(s, format, frameWidth, frameHeight, plane, x, y)
      then Written(s.Sample(format, plane, x - Origin(format, plane, s.x), y - Origin(format, plane, s.y)))
      else img(plane, x, y)
  }

  function StampAll(img: Image, slices: seq<Slice>, format: PixelFormat, frameWidth: nat, frameHeight: nat): Image {
    if slices == [] then img
    else Stamp(StampAll(img, slices[..|slices| - 1], format, frameWidth, frameHeight),
               slices[|slices| - 1], format, frameWidth, frameHeight)
  }

  /** A set of pixels. */
  type Region = (int, int) -> bool

  /** Whether the sample depends on a pixel of the region. */
  predicate Touches(fb: Framebuffer, format: PixelFormat, plane: Plane, x: int, y: int, region: Region) {
    if FullResolution(format, plane) then region(x, y)
    else
      || region(2 * x, 2 * y)
      || (2 * x + 1 < fb.width && region(2 * x + 1, 2 * y))
      || (2 * y + 1 < fb.height && region(2 * x, 2 * y + 1))
      || (2 * x + 1 < fb.width && 2 * y + 1 < fb.height && region(2 * x + 1, 2 * y + 1))
  }

  /** The picture shows the framebuffer at every sample that depends on no stale pixel. */
  ghost predicate Agrees(c: Converter, img: Image, fb: Framebuffer, format: PixelFormat, stale: Region) {
    forall plane, x, y | InPlane(fb, format, plane, x, y) && !Touches(fb, format, plane, x, y, stale) ::
      img(plane, x, y) == Written(FrameSample(c, fb, format, plane, x, y))
  }

  /** Stamping a slice cut from the framebuffer shows the framebuffer inside the slice and changes
      nothing outside it. */
  lemma StampShows(c: Converter, img: Image, fb: Framebuffer, r: Rect, format: PixelFormat, plane: Plane,
                   x: int, y: int)
    requires r.Inside(fb.width, fb.height) && r.WholeBlocks(fb.width, fb.height) && format.Planar()
    requires InPlane(fb, format, plane, x, y)
    ensures var s := MakeSliceFromBgra(c, fb, r, format).value;
            Stamp(img, s, format, fb.width, fb.height)(plane, x, y)
            == if Covers(s, format, fb.width, fb.height, plane, x, y)
               then Written(FrameSample(c, fb, format, plane, x, y)) else img(plane, x, y)
  {
    hide PlaneData, ConvertedSample;
    var s := MakeSliceFromBgra(c, fb, r, format).value;
    if Covers(s, format, fb.width, fb.height, plane, x, y) {
      var i, j := x - Origin(format, plane, r.x), y - Origin(format, plane, r.y);
      SliceSamples(c, fb, r, format, plane, i, j);
      ConversionRestricts(c, fb, r, format, plane, i, j);
    }
  }
}
