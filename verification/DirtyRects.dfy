/** Rectangles of the remote desktop frame and the normalisation of the dirty rectangle carried by a
    `display.frame` notification. All quantities are 32-bit unsigned, so `x + width` may wrap. */
module DirtyRects {

  const UINT32_LIMIT := 0x1_0000_0000

  type uint32 = n: int | 0 <= n < 0x1_0000_0000

  datatype Rect = Rect(x: nat, y: nat, width: nat, height: nat) {
    function Right(): nat { x + width }
    function Bottom(): nat { y + height }

    ghost predicate Contains(px: int, py: int) {
      x <= px < Right() && y <= py < Bottom()
    }

    /** Non-empty and inside a frame of the given size. */
    predicate Inside(frameWidth: nat, frameHeight: nat) {
      0 < width && 0 < height && Right() <= frameWidth && Bottom() <= frameHeight
    }

    /** No 2x2 chroma block of the frame has pixels both inside and outside the rectangle. */
    predicate WholeBlocks(frameWidth: nat, frameHeight: nat) {
      && x % 2 == 0 && y % 2 == 0
      && (Right() % 2 == 0 || Right() == frameWidth)
      && (Bottom() % 2 == 0 || Bottom() == frameHeight)
    }
  }

  function Full(frameWidth: nat, frameHeight: nat): Rect {
    Rect(0, 0, frameWidth, frameHeight)
  }

  /** 32-bit addition. */
  function Add32(a: uint32, b: uint32): uint32 {
    (a + b) % UINT32_LIMIT
  }

  lemma Add32Wraps(a: uint32, b: uint32)
    ensures Add32(a, b) == if a + b < UINT32_LIMIT then a + b else a + b - UINT32_LIMIT
  {
  }

  /** `v & ~1`. */
  function ClearLowBit(v: uint32): uint32 {
    v - v % 2
  }

  function Min(a: nat, b: nat): nat {
    if a < b then a else b
  }

  /** A span that begins in the frame, is not empty and wraps nowhere. */
  predicate Proper(start: uint32, length: uint32, limit: uint32) {
    start < limit && 0 < length && start + length < UINT32_LIMIT && Min(limit, start + length) + 1 < UINT32_LIMIT
  }

  /** One axis of the normalisation: both edges moved outwards to even positions, the far one clipped
      to the frame. A far edge at or before the near one records a wrapped request. */
  function AlignSpan(start: uint32, length: uint32, limit: uint32): (span: (nat, nat))
    requires start < limit && 0 < length
    ensures span.0 % 2 == 0 && start - 1 <= span.0 <= start
    ensures span.1 <= limit && (span.1 % 2 == 0 || span.1 == limit)
    ensures start + length >= UINT32_LIMIT ==> span.1 <= span.0
    ensures span.0 < span.1 ==> Min(limit, start + length) <= span.1 <= start + length + 1
    ensures Proper(start, length, limit) ==> span.0 < span.1
  {
    Add32Wraps(start, length);
    var end := Min(limit, Add32(start, length));
    (ClearLowBit(start), Min(limit, ClearLowBit(Add32(end, 1))))
  }

  function NormalizeDirtyRect(x: uint32, y: uint32, width: uint32, height: uint32,
                              frameWidth: uint32, frameHeight: uint32, forceFullFrame: bool): (r: Rect)
    requires 0 < frameWidth && 0 < frameHeight
    ensures r.Inside(frameWidth, frameHeight)
    ensures r.WholeBlocks(frameWidth, frameHeight)
    // The requested area, taken without wrap-around and clipped to the frame, is covered.
    ensures forall px, py | 0 <= px < frameWidth && 0 <= py < frameHeight ::
              Rect(x, y, width, height).Contains(px, py) ==> r.Contains(px, py)
    // An empty, forced, misplaced or wrapping request means the whole frame.
    ensures forceFullFrame || width == 0 || height == 0 || x >= frameWidth || y >= frameHeight
            || x + width >= UINT32_LIMIT || y + height >= UINT32_LIMIT
            ==> r == Full(frameWidth, frameHeight)
    // Otherwise nothing is added beyond completing the blocks the request cuts through. (Rounding up the far
    // edge of a frame of 2^32 - 1 pixels wraps, too.)
    ensures !forceFullFrame && Proper(x, width, frameWidth) && Proper(y, height, frameHeight) ==>
              && x - 1 <= r.x <= x && y - 1 <= r.y <= y
              && r.Right() <= x + width + 1 && r.Bottom() <= y + height + 1
  {
    if forceFullFrame || width == 0 || height == 0 || x >= frameWidth || y >= frameHeight then
      Full(frameWidth, frameHeight)
    else
      var (left, right) := AlignSpan(x, width, frameWidth);
      var (top, bottom) := AlignSpan(y, height, frameHeight);
      if right <= left || bottom <= top then
        Full(frameWidth, frameHeight)
      else
        Rect(left, top, right - left, bottom - top)
  }
}
