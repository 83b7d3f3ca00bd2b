/** The daemon's side of remote video: dirty-rectangle notifications become a queue of YUV slices that a
    consumer drains; resize, format change and queue overflow collapse the queue to one full frame. */
module RemoteFrames {
  import opened DirtyRects
  import opened Options
  import opened Yuv

  const MAX_PENDING_SLICES: nat := 256

  datatype RemoteFrame = RemoteFrame(width: nat, height: nat, format: PixelFormat, slices: seq<Slice>, seqNo: nat)

  const EMPTY_FRAME := RemoteFrame(0, 0, Yuv420p, [], 0)

  datatype Notification = Notification(x: uint32, y: uint32, width: uint32, height: uint32, seqNo: nat)

  /** The part of a runtime session that its frame mutex protects. */
  datatype Session = Session(framebuffer: Option<Framebuffer>, frame: RemoteFrame, format: PixelFormat, forceFull: bool)

  const INITIAL_SESSION := Session(None, EMPTY_FRAME, Yuv420p, true)

  predicate IsFullSlice(s: Slice, width: nat, height: nat) {
    s.Area() == Full(width, height)
  }

  predicate StartsFull(frame: RemoteFrame) {
    frame.slices != [] && IsFullSlice(frame.slices[0], frame.width, frame.height)
  }

  function FullSlice(c: Converter, fb: Framebuffer, format: PixelFormat): Slice
    requires format.Planar()
  {
    MakeSliceFromBgra(c, fb, Bounds(fb), format).value
  }

  function Normalized(n: Notification, fb: Framebuffer): Rect {
    NormalizeDirtyRect(n.x, n.y, n.width, n.height, fb.width, fb.height, false)
  }

  /** The area whose current content the queue shows after the notification. */
  function Refreshed(s: Session, n: Notification): Rect
    requires s.framebuffer.Some?
  {
    var fb := s.framebuffer.value;
    if s.forceFull || s.frame.width != fb.width || s.frame.height != fb.height || s.frame.format != s.format
       || |s.frame.slices| >= MAX_PENDING_SLICES
    then Bounds(fb) else Normalized(n, fb)
  }

  // ---- what each operation does, on values

  function Updated(c: Converter, s: Session, n: Notification): Session
    requires s.format.Planar()
  {
    if s.framebuffer.None? then s else
    var fb := s.framebuffer.value;
    var r := Refreshed(s, n);
    var slice := MakeSliceFromBgra(c, fb, r, s.format).value;
    var slices := if r == Bounds(fb) then [slice] else s.frame.slices + [slice];
    s.(frame := RemoteFrame(fb.width, fb.height, s.format, slices, n.seqNo), forceFull := false)
  }

  /** The session a drain reads from: a full frame replaces the queue when one is due. */
  function Topped(c: Converter, s: Session, needFullFrame: bool): Session
    requires s.format.Planar()
  {
    if (needFullFrame || s.forceFull) && s.framebuffer.Some? then
      var fb := s.framebuffer.value;
      s.(frame := RemoteFrame(fb.width, fb.height, s.format, [FullSlice(c, fb, s.format)], s.frame.seqNo),
         forceFull := false)
    else s
  }

  function Drained(c: Converter, s: Session, needFullFrame: bool): Session
    requires s.format.Planar()
  {
    var t := Topped(c, s, needFullFrame);
    t.(frame := t.frame.(slices := []))
  }

  function FormatSet(s: Session, format: PixelFormat): Session {
    if !format.Planar() || s.format == format then s
    else s.(format := format, frame := EMPTY_FRAME.(format := format), forceFull := true)
  }

  function SharedMemoryOpened(s: Session, fb: Framebuffer): Session {
    s.(framebuffer := Some(fb), frame := EMPTY_FRAME, forceFull := true)
  }

  // ---- the operations themselves

  class RuntimeSession {
    const converter: Converter
    var framebuffer: Option<Framebuffer>
    var remoteFrame: RemoteFrame
    var remoteVideoFormat: PixelFormat
    var remoteFrameForceFull: bool

    ghost function View(): Session
      reads this
    {
      Session(framebuffer, remoteFrame, remoteVideoFormat, remoteFrameForceFull)
    }

    ghost predicate Valid()
      reads this
    {
      QueueInvariant(View())
    }

    constructor (c: Converter)
      ensures Valid() && View() == INITIAL_SESSION && converter == c
    {
      converter := c;
      framebuffer, remoteFrame, remoteVideoFormat, remoteFrameForceFull := None, EMPTY_FRAME, Yuv420p, true;
    }

    method UpdateRemoteVideoFrame(n: Notification)
      requires Valid()
      modifies this
      ensures Valid() && View() == Updated(converter, old(View()), n)
    {
      if framebuffer.None? { return; }
      var fb := framebuffer.value;
      var reinitialize := remoteFrame.width != fb.width || remoteFrame.height != fb.height
                          || remoteFrame.format != remoteVideoFormat;
      ghost var before := View();
      if reinitialize {
        remoteFrame := RemoteFrame(fb.width, fb.height, remoteVideoFormat, [], 0);
        remoteFrameForceFull := true;
      }
      if remoteFrameForceFull || reinitialize {
        var full := MakeSliceFromBgra(converter, fb, Bounds(fb), remoteVideoFormat);
        if full.Some? {
          remoteFrame := remoteFrame.(slices := [full.value]);
          remoteFrameForceFull := false;
        }
      } else {
        var dirty := NormalizeDirtyRect(n.x, n.y, n.width, n.height, fb.width, fb.height, false);
        if dirty.width == fb.width && dirty.height == fb.height {
          remoteFrame := remoteFrame.(slices := []);
        }
        var slice := MakeSliceFromBgra(converter, fb, dirty, remoteVideoFormat);
        if slice.Some? {
          remoteFrame := remoteFrame.(slices := remoteFrame.slices + [slice.value]);
        }
        if |remoteFrame.slices| > MAX_PENDING_SLICES {
          var full := MakeSliceFromBgra(converter, fb, Bounds(fb), remoteVideoFormat);
          if full.Some? {
            remoteFrame := remoteFrame.(slices := [full.value]);
          }
        }
      }
      remoteFrame := remoteFrame.(seqNo := n.seqNo);
      UpdateKeepsQueue(converter, before, n);
    }

    method ReadRemoteFrame(needFullFrame: bool) returns (frame: Option<RemoteFrame>)
      requires Valid()
      modifies this
      ensures Valid() && View() == Drained(converter, old(View()), needFullFrame)
      ensures var f := Topped(converter, old(View()), needFullFrame).frame;
              frame == if f.slices == [] then None else Some(f)
    {
      if (needFullFrame || remoteFrameForceFull) && framebuffer.Some? {
        var fb := framebuffer.value;
        var full := MakeSliceFromBgra(converter, fb, Bounds(fb), remoteVideoFormat);
        if full.Some? {
          remoteFrame := RemoteFrame(fb.width, fb.height, remoteVideoFormat, [full.value], remoteFrame.seqNo);
          remoteFrameForceFull := false;
        }
      }
      if remoteFrame.slices == [] { return None; }
      frame := Some(remoteFrame);
      remoteFrame := remoteFrame.(slices := []);
    }

    method SetRemoteVideoPixelFormat(format: PixelFormat) returns (ok: bool)
      requires Valid()
      modifies this
      ensures Valid() && View() == FormatSet(old(View()), format)
      ensures ok == format.Planar()
    {
      if !format.Planar() { return false; }
      if remoteVideoFormat == format { return true; }
      remoteVideoFormat := format;
      remoteFrame := EMPTY_FRAME;
      remoteFrame := remoteFrame.(format := format);
      remoteFrameForceFull := true;
      return true;
    }

    method OpenSharedMemory(fb: Framebuffer)
      requires Valid()
      modifies this
      ensures Valid() && View() == SharedMemoryOpened(old(View()), fb)
    {
      framebuffer := Some(fb);
      remoteFrame := EMPTY_FRAME;
      remoteFrameForceFull := true;
    }
  }

  // ---- what every operation keeps about the queue

  predicate SliceFits(s: Slice, frame: RemoteFrame) {
    && s.Area().Inside(frame.width, frame.height)
    && s.Area().WholeBlocks(frame.width, frame.height)
    && s.Layout(frame.format)
  }

  /** At most 256 slices, each inside the frame and in its format; nothing is queued while a full frame
      is due; otherwise the frame's geometry and format are the current ones. */
  predicate QueueInvariant(s: Session) {
    && s.format.Planar()
    && |s.frame.slices| <= MAX_PENDING_SLICES
    && (forall i | 0 <= i < |s.frame.slices| :: SliceFits(s.frame.slices[i], s.frame))
    && (s.framebuffer.None? ==> s.forceFull)
    && (s.forceFull ==> s.frame.slices == [])
    && (!s.forceFull ==>
          s.frame.width == s.framebuffer.value.width && s.frame.height == s.framebuffer.value.height
          && s.frame.format == s.format)
  }

  lemma UpdateKeepsQueue(c: Converter, s: Session, n: Notification)
    requires QueueInvariant(s)
    ensures QueueInvariant(Updated(c, s, n))
  {
    if s.framebuffer.Some? {
      var fb := s.framebuffer.value;
      var t := Updated(c, s, n);
      var slice := MakeSliceFromBgra(c, fb, Refreshed(s, n), s.format).value;
      assert SliceFits(slice, t.frame);
      forall i | 0 <= i < |t.frame.slices|
        ensures SliceFits(t.frame.slices[i], t.frame)
      {
        if i < |t.frame.slices| - 1 {
          assert t.frame.slices[i] == s.frame.slices[i];
          assert SliceFits(s.frame.slices[i], s.frame);
        }
      }
    }
  }

  /** When no full frame is due, a proper notification costs one slice that holds the requested area and at
      most the rest of the blocks it cuts through; a slice of the whole frame supersedes the queue. */
  lemma UpdateIsEconomical(c: Converter, s: Session, n: Notification)
    requires QueueInvariant(s) && s.framebuffer.Some? && !s.forceFull && |s.frame.slices| < 256
    requires Proper(n.x, n.width, s.framebuffer.value.width) && Proper(n.y, n.height, s.framebuffer.value.height)
    ensures var fb, q := s.framebuffer.value, Updated(c, s, n).frame.slices;
            && q != [] && Updated(c, s, n).frame.seqNo == n.seqNo
            && var last := q[|q| - 1];
               && n.x - 1 <= last.x <= n.x && last.x + last.width <= n.x + n.width + 1
               && n.y - 1 <= last.y <= n.y && last.y + last.height <= n.y + n.height + 1
               && q == if IsFullSlice(last, fb.width, fb.height) then [last] else s.frame.slices + [last]
  {
  }

  /** When one is due, because of a new memory or format or too long a queue, the queue is one full slice. */
  lemma UpdateStartsOver(c: Converter, s: Session, n: Notification)
    requires QueueInvariant(s) && s.framebuffer.Some? && (s.forceFull || |s.frame.slices| == 256)
    ensures var fb, t := s.framebuffer.value, Updated(c, s, n);
            && |t.frame.slices| == 1 && IsFullSlice(t.frame.slices[0], fb.width, fb.height)
            && !t.forceFull && t.frame.seqNo == n.seqNo
  {
  }

  // ---- what the queue means

  /** The framebuffer, its target format and the written-but-unnotified pixels at some moment. */
  datatype Moment = Moment(framebuffer: Framebuffer, format: PixelFormat, stale: Region)

  ghost predicate Shows(c: Converter, img: Image, m: Moment) {
    Agrees(c, img, m.framebuffer, m.format, m.stale)
  }

  function StampFrame(img: Image, frame: RemoteFrame): Image {
    StampAll(img, frame.slices, frame.format, frame.width, frame.height)
  }

  /** Stamping the queue makes a picture show `now`, if it showed `last` before (unless the stream was
      restarted since) or if the queue begins with a full frame. */
  ghost predicate QueueBridges(c: Converter, frame: RemoteFrame, last: Option<Moment>, now: Moment) {
    forall img: Image ::
      StartsFull(frame) || (last.Some? && Shows(c, img, last.value)) ==> Shows(c, StampFrame(img, frame), now)
  }

  const NOTHING_STALE: Region := (x, y) => false

  /** A full slice alone shows the framebuffer whatever the picture was. */
  lemma FullSliceShows(c: Converter, img: Image, fb: Framebuffer, format: PixelFormat, stale: Region)
    requires format.Planar()
    ensures Agrees(c, StampAll(img, [FullSlice(c, fb, format)], format, fb.width, fb.height), fb, format, stale)
  {
    var s := FullSlice(c, fb, format);
    assert [s][..0] == [];
    forall plane, x, y | InPlane(fb, format, plane, x, y)
      ensures StampAll(img, [s], format, fb.width, fb.height)(plane, x, y)
           == Written(FrameSample(c, fb, format, plane, x, y))
    {
      StampShows(c, img, fb, Bounds(fb), format, plane, x, y);
    }
  }

  /** The pixels still stale once the rectangle has been converted. */
  function Without(stale: Region, r: Rect): Region {
    (x: int, y: int) => stale(x, y) && !(r.x <= x < r.Right() && r.y <= y < r.Bottom())
  }

  /** A sample outside a slice of whole blocks depends on no pixel of the slice. */
  lemma OutsideSlice(fb: Framebuffer, s: Slice, format: PixelFormat, plane: Plane, x: int, y: int, stale: Region)
    requires s.Area().Inside(fb.width, fb.height) && s.Area().WholeBlocks(fb.width, fb.height) && format.Planar()
    requires InPlane(fb, format, plane, x, y) && !Covers(s, format, fb.width, fb.height, plane, x, y)
    ensures Touches(fb, format, plane, x, y, Without(stale, s.Area())) == Touches(fb, format, plane, x, y, stale)
  {
  }

  /** Appending a slice of the refreshed rectangle turns a picture of the old state of knowledge into one
      of the new: only pixels outside the rectangle remain stale. */
  lemma AppendedSliceShows(c: Converter, img: Image, fb: Framebuffer, r: Rect, format: PixelFormat, stale: Region)
    requires format.Planar() && r.Inside(fb.width, fb.height) && r.WholeBlocks(fb.width, fb.height)
    requires Agrees(c, img, fb, format, stale)
    ensures Agrees(c, Stamp(img, MakeSliceFromBgra(c, fb, r, format).value, format, fb.width, fb.height),
                   fb, format, Without(stale, r))
  {
    var s := MakeSliceFromBgra(c, fb, r, format).value;
    var img' := Stamp(img, s, format, fb.width, fb.height);
    forall plane, x, y | InPlane(fb, format, plane, x, y) && !Touches(fb, format, plane, x, y, Without(stale, r))
      ensures img'(plane, x, y) == Written(FrameSample(c, fb, format, plane, x, y))
    {
      StampShows(c, img, fb, r, format, plane, x, y);
      if !Covers(s, format, fb.width, fb.height, plane, x, y) {
        OutsideSlice(fb, s, format, plane, x, y, stale);
      }
    }
  }

  /** A guest write leaves every sample that depends on no written pixel as it was. */
  lemma WriteKeepsPicture(c: Converter, img: Image, fb: Framebuffer, fb': Framebuffer, format: PixelFormat,
                          stale: Region, stale': Region)
    requires fb'.width == fb.width && fb'.height == fb.height
    requires forall x, y | 0 <= x < fb.width && 0 <= y < fb.height ::
               stale(x, y) || fb.rows[y][x] != fb'.rows[y][x] ==> stale'(x, y)
    requires Agrees(c, img, fb, format, stale)
    ensures Agrees(c, img, fb', format, stale')
  {
    hide FrameSample, Touches;
    forall plane, x, y | InPlane(fb', format, plane, x, y) && !Touches(fb', format, plane, x, y, stale')
      ensures img(plane, x, y) == Written(FrameSample(c, fb', format, plane, x, y))
    {
      SampleUnchanged(c, fb, fb', format, plane, x, y, stale, stale');
    }
  }

  lemma SampleUnchanged(c: Converter, fb: Framebuffer, fb': Framebuffer, format: PixelFormat, plane: Plane,
                        x: nat, y: nat, stale: Region, stale': Region)
    requires fb'.width == fb.width && fb'.height == fb.height && InPlane(fb', format, plane, x, y)
    requires forall x, y | 0 <= x < fb.width && 0 <= y < fb.height ::
               stale(x, y) || fb.rows[y][x] != fb'.rows[y][x] ==> stale'(x, y)
    requires !Touches(fb', format, plane, x, y, stale')
    ensures !Touches(fb, format, plane, x, y, stale)
    ensures FrameSample(c, fb, format, plane, x, y) == FrameSample(c, fb', format, plane, x, y)
  {
    if !FullResolution(format, plane) {
      var px, py := 2 * x, 2 * y;
      assert fb.rows[py][px] == fb'.rows[py][px];
      assert BlockAt(fb, px, py, fb.width, fb.height) == BlockAt(fb', px, py, fb.width, fb.height);
    }
  }

  /** A notification extends the bridge to the present framebuffer. */
  lemma UpdateBridges(c: Converter, s: Session, n: Notification, last: Option<Moment>, stale: Region)
    requires QueueInvariant(s) && s.framebuffer.Some?
    requires !s.forceFull ==> QueueBridges(c, s.frame, last, Moment(s.framebuffer.value, s.format, stale))
    ensures QueueBridges(c, Updated(c, s, n).frame, last,
                         Moment(s.framebuffer.value, s.format, Without(stale, Refreshed(s, n))))
  {
    var fb, r := s.framebuffer.value, Refreshed(s, n);
    var t := Updated(c, s, n);
    var slice := MakeSliceFromBgra(c, fb, r, s.format).value;
    forall img: Image | StartsFull(t.frame) || (last.Some? && Shows(c, img, last.value))
      ensures Shows(c, StampFrame(img, t.frame), Moment(fb, s.format, Without(stale, r)))
    {
      if r == Bounds(fb) {
        FullSliceShows(c, img, fb, s.format, Without(stale, r));
      } else {
        assert t.frame.slices[..|t.frame.slices| - 1] == s.frame.slices;
        assert StampFrame(img, t.frame) == Stamp(StampFrame(img, s.frame), slice, s.format, fb.width, fb.height);
        assert Shows(c, StampFrame(img, s.frame), Moment(fb, s.format, stale));
        AppendedSliceShows(c, StampFrame(img, s.frame), fb, r, s.format, stale);
      }
    }
  }
}
