/** The H.264 encoder wrapper's persistent input frame: slices are stamped onto it row by row, and it may
    be encoded only after a slice covering the whole frame has been applied. */
module VideoEncoder {
  import opened DirtyRects
  import opened Yuv

  datatype Config = Config(width: nat, height: nat, bitrate: nat, format: PixelFormat, profile: nat)

  const BLANK: Image := (plane, x, y) => Unwritten

  /** Conversion of a 32-bit unsigned value to a C int. */
  function AsInt32(v: uint32): int {
    if v < 0x8000_0000 then v else v - UINT32_LIMIT
  }

  /** The geometry check of `ApplySlice`: 4:2:0 needs an even origin. */
  predicate AcceptsGeometry(s: Slice, format: PixelFormat) {
    && s.x < 0x8000_0000 && s.y < 0x8000_0000 && 0 < s.width < 0x8000_0000 && 0 < s.height < 0x8000_0000
    && (format.Yuv444p? || (s.x % 2 == 0 && s.y % 2 == 0))
  }

  /** The slice's samples for a `width` x `height` patch at (x, y) are in the first `rows` rows of the
      patch, and everything else is as in `before`. */
  ghost predicate Patched(a: array2<Cell>, before: Image, s: Slice, format: PixelFormat, plane: Plane,
                          x: nat, y: nat, width: nat, rows: nat)
    reads a
  {
    forall r, col | 0 <= r < a.Length0 && 0 <= col < a.Length1 ::
      a[r, col] == if y <= r < y + rows && x <= col < x + width
                   then Written(s.Sample(format, plane, col - x, r - y)) else before(plane, col, r)
  }

  /** Copies row `row` of the slice to row `y + row` of the plane, from column `x` on. */
  method CopyRow(a: array2<Cell>, s: Slice, format: PixelFormat, plane: Plane, x: nat, y: nat, width: nat, row: nat)
    requires s.Readable(format)
    requires width <= Extent(format, plane, s.width) && row < Extent(format, plane, s.height)
    requires x + width <= a.Length1 && y + row < a.Length0
    modifies a
    ensures forall r, col | 0 <= r < a.Length0 && 0 <= col < a.Length1 ::
              a[r, col] == if r == y + row && x <= col < x + width
                           then Written(s.Sample(format, plane, col - x, row)) else old(a[r, col])
  {
    var base := s.PlaneOffset(format, plane) + row * s.Stride(plane);
    for i := 0 to width
      invariant forall r, col | 0 <= r < a.Length0 && 0 <= col < a.Length1 ::
                  a[r, col] == if r == y + row && x <= col < x + i
                               then Written(s.Sample(format, plane, col - x, row)) else old(a[r, col])
    {
      assert s.Index(format, plane, i, row) == base + i;
      a[y + row, x + i] := Written(s.data[base + i]);
    }
  }

  method CopyRows(a: array2<Cell>, s: Slice, format: PixelFormat, plane: Plane,
                  x: nat, y: nat, width: nat, height: nat, ghost before: Image)
    requires s.Readable(format)
    requires width <= Extent(format, plane, s.width) && height <= Extent(format, plane, s.height)
    requires x + width <= a.Length1 && y + height <= a.Length0
    requires Holds(a, before, plane)
    modifies a
    ensures Patched(a, before, s, format, plane, x, y, width, height)
  {
    for row := 0 to height
      invariant Patched(a, before, s, format, plane, x, y, width, row)
    {
      CopyRow(a, s, format, plane, x, y, width, row);
    }
  }

  /** The array holds one plane of the picture. */
  ghost predicate Holds(a: array2<Cell>, img: Image, plane: Plane)
    reads a
  {
    forall r, col | 0 <= r < a.Length0 && 0 <= col < a.Length1 :: a[r, col] == img(plane, col, r)
  }

  /** The samples of a span clipped to the frame lie inside the plane and inside the slice. */
  lemma ClippedSpanFits(format: PixelFormat, plane: Plane, start: nat, length: nat, limit: nat)
    requires start < limit && (FullResolution(format, plane) || start % 2 == 0)
    ensures Origin(format, plane, start) + Extent(format, plane, Min(length, limit - start))
            <= Extent(format, plane, limit)
    ensures Extent(format, plane, Min(length, limit - start)) <= Extent(format, plane, length)
  {
  }

  lemma PatchedIsStamped(a: array2<Cell>, img: Image, s: Slice, format: PixelFormat, plane: Plane,
                         x: nat, y: nat, w: nat, h: nat, frameWidth: nat, frameHeight: nat)
    requires s.x < frameWidth && s.y < frameHeight
    requires x == Origin(format, plane, s.x) && y == Origin(format, plane, s.y)
    requires w == Extent(format, plane, Min(s.width, frameWidth - s.x))
    requires h == Extent(format, plane, Min(s.height, frameHeight - s.y))
    requires Patched(a, img, s, format, plane, x, y, w, h)
    ensures Holds(a, Stamp(img, s, format, frameWidth, frameHeight), plane)
  {
    hide Covers, Extent, Min;
    forall r, col | 0 <= r < a.Length0 && 0 <= col < a.Length1
      ensures a[r, col] == Stamp(img, s, format, frameWidth, frameHeight)(plane, col, r)
    {
      CoversPatch(s, format, plane, x, y, w, h, frameWidth, frameHeight, col, r);
    }
  }

  lemma CoversPatch(s: Slice, format: PixelFormat, plane: Plane, x: nat, y: nat, w: nat, h: nat,
                    frameWidth: nat, frameHeight: nat, col: int, r: int)
    requires s.x < frameWidth && s.y < frameHeight
    requires x == Origin(format, plane, s.x) && y == Origin(format, plane, s.y)
    requires w == Extent(format, plane, Min(s.width, frameWidth - s.x))
    requires h == Extent(format, plane, Min(s.height, frameHeight - s.y))
    ensures Covers(s, format, frameWidth, frameHeight, plane, col, r) <==> y <= r < y + h && x <= col < x + w
  {
    hide Origin, Extent, Min;
  }

  /** Stamps one plane of the slice, already clipped to `w` x `h` pixels. */
  method CopyPlane(a: array2<Cell>, s: Slice, format: PixelFormat, plane: Plane,
                   x: nat, y: nat, w: nat, h: nat, frameWidth: nat, frameHeight: nat, ghost img: Image)
    requires s.Readable(format) && (format.Yuv444p? || (s.x % 2 == 0 && s.y % 2 == 0))
    requires s.x < frameWidth && s.y < frameHeight
    requires a.Length0 == Extent(format, plane, frameHeight) && a.Length1 == Extent(format, plane, frameWidth)
    requires x == Origin(format, plane, s.x) && y == Origin(format, plane, s.y)
    requires w == Extent(format, plane, Min(s.width, frameWidth - s.x))
    requires h == Extent(format, plane, Min(s.height, frameHeight - s.y))
    requires Holds(a, img, plane)
    modifies a
    ensures Holds(a, Stamp(img, s, format, frameWidth, frameHeight), plane)
  {
    ClippedSpanFits(format, plane, s.x, s.width, frameWidth);
    ClippedSpanFits(format, plane, s.y, s.height, frameHeight);
    CopyRows(a, s, format, plane, x, y, w, h, img);
    PatchedIsStamped(a, img, s, format, plane, x, y, w, h, frameWidth, frameHeight);
  }

  method NewPlane(height: nat, width: nat, ghost plane: Plane) returns (a: array2<Cell>)
    ensures fresh(a) && a.Length0 == height && a.Length1 == width && Holds(a, BLANK, plane)
  {
    a := new Cell[height, width]((r, col) => Unwritten);
  }

  class Encoder {
    var isOpen: bool
    var config: Config
    var planeY: array2<Cell>
    var planeU: array2<Cell>
    var planeV: array2<Cell>
    var frameInitialized: bool

    ghost predicate Sized(a: array2<Cell>, plane: Plane)
      reads this
    {
      && a.Length0 == Extent(config.format, plane, config.height)
      && a.Length1 == Extent(config.format, plane, config.width)
    }

    ghost predicate Valid()
      reads this
    {
      && (isOpen ==>
            && config.format.Planar()
            && 0 < config.width < 0x8000_0000 && 0 < config.height < 0x8000_0000
            && Sized(planeY, Y) && Sized(planeU, U) && Sized(planeV, V)
            && planeY != planeU && planeY != planeV && planeU != planeV)
      && (!isOpen ==> !frameInitialized)
    }

    ghost predicate Displays(img: Image)
      reads this, planeY, planeU, planeV
    {
      Holds(planeY, img, Y) && Holds(planeU, img, U) && Holds(planeV, img, V)
    }

    constructor ()
      ensures Valid() && !isOpen
      ensures fresh(planeY) && fresh(planeU) && fresh(planeV)
    {
      isOpen, frameInitialized := false, false;
      planeY, planeU, planeV := new Cell[0, 0], new Cell[0, 0], new Cell[0, 0];
      config := Config(0, 0, 0, Yuv420p, 0);
    }

    /** `available`: FFmpeg opens a codec and allocates the frame, which it does only for positive C int sizes. */
    method Open(cfg: Config, available: bool) returns (ok: bool)
      requires Valid()
      requires available ==> 0 < cfg.width < 0x8000_0000 && 0 < cfg.height < 0x8000_0000
      modifies this
      ensures Valid() && config == cfg && !frameInitialized
      ensures ok == isOpen == (available && cfg.format.Planar())
      ensures fresh(planeY) && fresh(planeU) && fresh(planeV)
      ensures ok ==> Displays(BLANK)
    {
      isOpen, frameInitialized, config := false, false, cfg;
      planeY, planeU, planeV := new Cell[0, 0], new Cell[0, 0], new Cell[0, 0];
      if !cfg.format.Planar() || !available { return false; }
      var w, h := Extent(cfg.format, U, cfg.width), Extent(cfg.format, U, cfg.height);
      planeY := NewPlane(cfg.height, cfg.width, Y);
      planeU := NewPlane(h, w, U);
      planeV := NewPlane(h, w, V);
      isOpen := true;
      return true;
    }

    /** The copying half of `ApplySlice`: luma at full resolution, chroma halved for 4:2:0. */
    method StampPlanes(s: Slice, x: nat, y: nat, w: nat, h: nat, ghost img: Image)
      requires Valid() && isOpen && Displays(img)
      requires s.Readable(config.format) && AcceptsGeometry(s, config.format)
      requires x == s.x < config.width && y == s.y < config.height
      requires w == Min(s.width, config.width - s.x) && h == Min(s.height, config.height - s.y)
      modifies planeY, planeU, planeV
      ensures Displays(Stamp(img, s, config.format, config.width, config.height))
    {
      var yuv444 := config.format == Yuv444p;
      var uvW, uvH := if yuv444 then w else (w + 1) / 2, if yuv444 then h else (h + 1) / 2;
      var uvX, uvY := if yuv444 then x else x / 2, if yuv444 then y else y / 2;
      CopyPlane(planeY, s, config.format, Y, x, y, w, h, config.width, config.height, img);
      CopyPlane(planeU, s, config.format, U, uvX, uvY, uvW, uvH, config.width, config.height, img);
      CopyPlane(planeV, s, config.format, V, uvX, uvY, uvW, uvH, config.width, config.height, img);
    }

    /** `writable`: FFmpeg can make the frame writable. */
    method ApplySlice(s: Slice, writable: bool, ghost img: Image) returns (ok: bool)
      requires Valid()
      requires s.x < UINT32_LIMIT && s.y < UINT32_LIMIT && s.width < UINT32_LIMIT && s.height < UINT32_LIMIT
      requires AcceptsGeometry(s, config.format) ==> s.x + s.width < 0x8000_0000 && s.y + s.height < 0x8000_0000
      requires s.Readable(config.format)
      requires isOpen ==> Displays(img)
      modifies `frameInitialized, planeY, planeU, planeV
      ensures Valid()
      ensures ok <==> isOpen && AcceptsGeometry(s, config.format)
                      && (s.x >= config.width || s.y >= config.height || writable)
      ensures isOpen ==> Displays(if ok then Stamp(img, s, config.format, config.width, config.height) else img)
      ensures frameInitialized ==
              (old(frameInitialized)
               || (ok && s.x == 0 && s.y == 0 && s.width >= config.width && s.height >= config.height))
    {
      if !isOpen { return false; }
      var x, y, w, h := AsInt32(s.x), AsInt32(s.y), AsInt32(s.width), AsInt32(s.height);
      if x < 0 || y < 0 || w <= 0 || h <= 0 { return false; }
      var yuv444 := config.format == Yuv444p;
      if !yuv444 && (x % 2 != 0 || y % 2 != 0) { return false; }
      if x + w > config.width { w := config.width - x; }
      if y + h > config.height { h := config.height - y; }
      if w <= 0 || h <= 0 { return true; }
      if !writable { return false; }

      StampPlanes(s, x, y, w, h, img);
      if x == 0 && y == 0 && w == config.width && h == config.height {
        frameInitialized := true;
      }
      return true;
    }
  }
}
