/** Producer and consumer together: every interleaving of guest writes, notifications, resizes, format
    changes, drains and pump iterations, and what any encoded picture shows. */
module RemoteVideo {
  import opened DirtyRects
  import opened Options
  import opened Sequences
  import opened Yuv
  import opened RemoteFrames
  import opened VideoEncoder
  import opened VideoPump

  datatype Event =
    | GuestWrite(pixels: Framebuffer)
    | Notify(notification: Notification)
    | OpenMemory(framebuffer: Framebuffer)
    | SetFormat(format: PixelFormat)
    | Drain
    | Iterate(conditions: Conditions)

  /** A set of samples. */
  type SampleSet = (Plane, int, int) -> bool

  const NOTHING_LOST: SampleSet := (plane, x, y) => false

  /** A picture handed to the H.264 encoder, with the moment of the last drain and the samples lost then. */
  datatype Picture = Picture(image: Image, config: Config, drained: Option<Moment>, lost: SampleSet)

  /** `stale` are the written-but-unnotified pixels, `drained` the moment of the last drain, `restarted`
      says that memory or format were replaced since then, `held` is what the pump has drained and not yet
      processed, and `lost` are the samples of batches thrown away under congestion that no later batch
      has written. These five are history; the code keeps only session and pump. */
  datatype World = World(session: Session, pump: Pump, held: Option<Option<RemoteFrame>>,
                         stale: Region, drained: Option<Moment>, restarted: bool, lost: SampleSet,
                         pictures: seq<Picture>)

  const INITIAL_WORLD :=
    World(INITIAL_SESSION, INITIAL_PUMP, None, NOTHING_STALE, None, true, NOTHING_LOST, [])

  predicate CoveredBy(f: RemoteFrame, plane: Plane, x: int, y: int) {
    exists s | s in f.slices :: Covers(s, f.format, f.width, f.height, plane, x, y)
  }

  /** The samples lost once the batch was thrown away. */
  function Adding(lost: SampleSet, f: RemoteFrame): SampleSet {
    (plane, x, y) => lost(plane, x, y) || CoveredBy(f, plane, x, y)
  }

  /** The samples still lost once the batch was stamped. */
  function Removing(lost: SampleSet, f: RemoteFrame): SampleSet {
    (plane, x, y) => lost(plane, x, y) && !CoveredBy(f, plane, x, y)
  }

  /** Whether a drain converts the whole frame. */
  predicate DrainsFull(w: World) {
    (w.pump.needsFullSeed || w.session.forceFull) && w.session.framebuffer.Some?
  }

  predicate SameSize(a: Framebuffer, b: Framebuffer) {
    a.width == b.width && a.height == b.height
  }

  function WithWrites(stale: Region, fb: Framebuffer, fb': Framebuffer): Region
    requires SameSize(fb, fb')
  {
    (x: int, y: int) => stale(x, y) || (0 <= x < fb.width && 0 <= y < fb.height && fb.rows[y][x] != fb'.rows[y][x])
  }

  /** One event; an event that cannot happen in the state leaves it alone. */
  function Step(c: Converter, w: World, e: Event): (w': World)
    requires w.session.format.Planar()
    ensures w'.session.format.Planar()
  {
    match e
    case GuestWrite(fb') =>
      if w.session.framebuffer.None? || !SameSize(w.session.framebuffer.value, fb') then w
      else w.(session := w.session.(framebuffer := Some(fb')),
              stale := WithWrites(w.stale, w.session.framebuffer.value, fb'))
    case Notify(n) =>
      if w.session.framebuffer.None? then w
      else w.(session := Updated(c, w.session, n), stale := Without(w.stale, Refreshed(w.session, n)))
    case OpenMemory(fb) =>
      w.(session := SharedMemoryOpened(w.session, fb), stale := NOTHING_STALE, restarted := true)
    case SetFormat(format) =>
      w.(session := FormatSet(w.session, format),
         restarted := w.restarted || (format.Planar() && format != w.session.format))
    case Drain =>
      if w.held.Some? then w
      else
        var top := Topped(c, w.session, w.pump.needsFullSeed);
        var stale := if DrainsFull(w) then NOTHING_STALE else w.stale;
        w.(session := Drained(c, w.session, w.pump.needsFullSeed),
           held := Some(if top.frame.slices == [] then None else Some(top.frame)),
           stale := stale,
           drained := if top.framebuffer.Some? then Some(Moment(top.framebuffer.value, top.format, stale)) else None,
           restarted := w.restarted && top.framebuffer.None?)
    case Iterate(now) =>
      if w.held.None? then w
      else
        var batch := w.held.value;
        var (pump, encoded) := Iterated(w.pump, batch, now);
        var lost := if batch.None? then w.lost
                    else if now.congested then Adding(w.lost, batch.value)
                    else if encoded then Removing(w.lost, batch.value)
                    else w.lost;
        w.(pump := pump, held := None, lost := lost,
           pictures := if encoded then w.pictures + [Picture(pump.image, pump.config, w.drained, lost)] else w.pictures)
  }

  function Run(c: Converter, events: seq<Event>): (w: World)
    ensures w.session.format.Planar()
  {
    if events == [] then INITIAL_WORLD
    else Step(c, Run(c, events[..|events| - 1]), events[|events| - 1])
  }

  // ---- the invariant

  ghost predicate AllWritten(img: Image, config: Config) {
    forall plane, x, y |
      0 <= x < Extent(config.format, plane, config.width) && 0 <= y < Extent(config.format, plane, config.height) ::
      img(plane, x, y) != Unwritten
  }

  predicate SizedAs(config: Config, m: Moment) {
    config.width == m.framebuffer.width && config.height == m.framebuffer.height && config.format == m.format
  }

  /** The picture shows the moment at every sample that was not lost and depends on no stale pixel. */
  ghost predicate ShowsOutside(c: Converter, img: Image, m: Moment, lost: SampleSet) {
    forall plane, x, y |
      && InPlane(m.framebuffer, m.format, plane, x, y) && !lost(plane, x, y)
      && !Touches(m.framebuffer, m.format, plane, x, y, m.stale) ::
      img(plane, x, y) == Written(FrameSample(c, m.framebuffer, m.format, plane, x, y))
  }

  ghost predicate AllLost(m: Moment, lost: SampleSet) {
    forall plane, x, y | InPlane(m.framebuffer, m.format, plane, x, y) :: lost(plane, x, y)
  }

  /** What a picture shows of the last drain. It can have another size or format only when all is lost. */
  ghost predicate UpToDate(c: Converter, img: Image, config: Config, drained: Option<Moment>, lost: SampleSet) {
    && drained.Some?
    && (SizedAs(config, drained.value) || AllLost(drained.value, lost))
    && ShowsOutside(c, img, drained.value, lost)
  }

  ghost predicate GoodPicture(c: Converter, p: Picture) {
    AllWritten(p.image, p.config) && UpToDate(c, p.image, p.config, p.drained, p.lost)
  }

  ghost predicate SessionInvariant(c: Converter, w: World) {
    && QueueInvariant(w.session)
    && (!w.session.forceFull ==>
          && QueueBridges(c, w.session.frame, if w.restarted then None else w.drained,
                          Moment(w.session.framebuffer.value, w.session.format, w.stale))
          && (w.restarted ==> StartsFull(w.session.frame)))
    && (!w.restarted ==>
          && !w.session.forceFull && w.drained.Some?
          && SameSize(w.drained.value.framebuffer, w.session.framebuffer.value)
          && w.drained.value.format == w.session.format)
    && (w.session.framebuffer.None? ==> w.drained.None?)
  }

  ghost predicate EncoderInvariant(w: World) {
    && (w.pump.open ==> w.drained.Some?)
    && (!w.pump.open ==> !w.pump.initialized)
    && (w.pump.initialized ==> AllWritten(w.pump.image, w.pump.config))
    && (w.pump.open && !w.pump.initialized ==> w.pump.needsFullSeed)
  }

  /** What a drained batch does to the pump's picture. */
  ghost predicate BatchInvariant(c: Converter, w: World, f: RemoteFrame) {
    && FrameFits(f) && w.drained.Some?
    && f.width == w.drained.value.framebuffer.width && f.height == w.drained.value.framebuffer.height
    && f.format == w.drained.value.format
    && (w.pump.needsFullSeed ==> SingleFull(f))
    && (StartsFull(f) ==> forall img: Image :: Shows(c, StampFrame(img, f), w.drained.value))
    && (w.pump.open && w.pump.initialized && !w.pump.needsFullSeed && !StartsFull(f) ==>
          && (SizedAs(w.pump.config, w.drained.value) || AllLost(w.drained.value, w.lost))
          && ShowsOutside(c, StampFrame(w.pump.image, f), w.drained.value, Removing(w.lost, f)))
  }

  ghost predicate PumpInvariant(c: Converter, w: World) {
    match w.held
    case None =>
      w.pump.open && w.pump.initialized && !w.pump.needsFullSeed ==>
        UpToDate(c, w.pump.image, w.pump.config, w.drained, w.lost)
    case Some(None) =>
      w.pump.open && w.pump.initialized ==>
        !w.pump.needsFullSeed && UpToDate(c, w.pump.image, w.pump.config, w.drained, w.lost)
    case Some(Some(f)) =>
      BatchInvariant(c, w, f)
  }

  ghost predicate Invariant(c: Converter, w: World) {
    && SessionInvariant(c, w)
    && EncoderInvariant(w)
    && PumpInvariant(c, w)
    && forall i | 0 <= i < |w.pictures| :: GoodPicture(c, w.pictures[i])
  }

  lemma WriteStep(c: Converter, w: World, fb': Framebuffer)
    requires Invariant(c, w)
    ensures Invariant(c, Step(c, w, GuestWrite(fb')))
  {
    var w' := Step(c, w, GuestWrite(fb'));
    if w.session.framebuffer.Some? && SameSize(w.session.framebuffer.value, fb') && !w.session.forceFull {
      var fb, f := w.session.framebuffer.value, w.session.frame;
      var last := if w.restarted then None else w.drained;
      forall img: Image | StartsFull(f) || (last.Some? && Shows(c, img, last.value))
        ensures Shows(c, StampFrame(img, f), Moment(fb', w.session.format, w'.stale))
      {
        WriteKeepsPicture(c, StampFrame(img, f), fb, fb', w.session.format, w.stale, w'.stale);
      }
    }
  }

  lemma NotifyStep(c: Converter, w: World, n: Notification)
    requires Invariant(c, w)
    ensures Invariant(c, Step(c, w, Notify(n)))
  {
    if w.session.framebuffer.Some? {
      UpdateKeepsQueue(c, w.session, n);
      UpdateBridges(c, w.session, n, if w.restarted then None else w.drained, w.stale);
    }
  }

  // ---- pictures with lost samples

  /** What stamping leaves at a sample depends on the picture below only where no slice covers it. */
  lemma {:induction false} StampIsLocal(a: Image, b: Image, slices: seq<Slice>, format: PixelFormat,
                                        width: nat, height: nat, plane: Plane, x: int, y: int)
    requires a(plane, x, y) == b(plane, x, y) || exists s | s in slices :: Covers(s, format, width, height, plane, x, y)
    ensures StampAll(a, slices, format, width, height)(plane, x, y)
         == StampAll(b, slices, format, width, height)(plane, x, y)
  {
    if slices != [] {
      var k := |slices| - 1;
      if !Covers(slices[k], format, width, height, plane, x, y) {
        if a(plane, x, y) != b(plane, x, y) {
          var s :| s in slices && Covers(s, format, width, height, plane, x, y);
          assert s in slices[..k];
        }
        StampIsLocal(a, b, slices[..k], format, width, height, plane, x, y);
      }
    }
  }

  lemma {:induction false} UncoveredUnchanged(img: Image, slices: seq<Slice>, format: PixelFormat,
                                              width: nat, height: nat, plane: Plane, x: int, y: int)
    requires forall s | s in slices :: !Covers(s, format, width, height, plane, x, y)
    ensures StampAll(img, slices, format, width, height)(plane, x, y) == img(plane, x, y)
  {
    if slices != [] {
      assert slices[|slices| - 1] in slices;
      UncoveredUnchanged(img, slices[..|slices| - 1], format, width, height, plane, x, y);
    }
  }

  /** The picture with its lost samples put right. */
  function Repaired(c: Converter, img: Image, m: Moment, lost: SampleSet): Image {
    (plane: Plane, x: int, y: int) =>
      if lost(plane, x, y) && InPlane(m.framebuffer, m.format, plane, x, y)
      then Written(FrameSample(c, m.framebuffer, m.format, plane, x, y)) else img(plane, x, y)
  }

  /** A queue that bridges two moments also does so for a picture with lost samples, and puts right those
      that it covers. */
  lemma BridgeOverLost(c: Converter, img: Image, frame: RemoteFrame, last: Moment, now: Moment, lost: SampleSet)
    requires QueueBridges(c, frame, Some(last), now) && ShowsOutside(c, img, last, lost)
    requires SameSize(last.framebuffer, now.framebuffer) && last.format == now.format
    ensures ShowsOutside(c, StampFrame(img, frame), now, Removing(lost, frame))
  {
    var whole := Repaired(c, img, last, lost);
    assert Shows(c, whole, last);
    forall plane, x, y |
      && InPlane(now.framebuffer, now.format, plane, x, y) && !Removing(lost, frame)(plane, x, y)
      && !Touches(now.framebuffer, now.format, plane, x, y, now.stale)
      ensures StampFrame(img, frame)(plane, x, y) == Written(FrameSample(c, now.framebuffer, now.format, plane, x, y))
    {
      StampIsLocal(img, whole, frame.slices, frame.format, frame.width, frame.height, plane, x, y);
    }
  }

  /** A batch thrown away leaves the picture right outside what it covers. */
  lemma SkipLosesCovered(c: Converter, img: Image, f: RemoteFrame, m: Moment, lost: SampleSet)
    requires ShowsOutside(c, StampFrame(img, f), m, Removing(lost, f))
    ensures ShowsOutside(c, img, m, Adding(lost, f))
  {
    forall plane, x, y |
      && InPlane(m.framebuffer, m.format, plane, x, y) && !Adding(lost, f)(plane, x, y)
      && !Touches(m.framebuffer, m.format, plane, x, y, m.stale)
      ensures img(plane, x, y) == Written(FrameSample(c, m.framebuffer, m.format, plane, x, y))
    {
      assert !CoveredBy(f, plane, x, y);
      UncoveredUnchanged(img, f.slices, f.format, f.width, f.height, plane, x, y);
    }
  }

  /** A full slice covers every sample. */
  lemma FullCoversAll(f: RemoteFrame, m: Moment, plane: Plane, x: int, y: int)
    requires StartsFull(f) && f.width == m.framebuffer.width && f.height == m.framebuffer.height && f.format == m.format
    requires InPlane(m.framebuffer, m.format, plane, x, y)
    ensures CoveredBy(f, plane, x, y)
  {
    assert f.slices[0] in f.slices;
  }

  lemma DrainStep(c: Converter, w: World)
    requires Invariant(c, w)
    ensures Invariant(c, Step(c, w, Drain))
  {
    if w.held.None? && w.session.framebuffer.Some? {
      var s, w' := w.session, Step(c, w, Drain);
      assert forall img: Image :: StampFrame(img, w'.session.frame) == img;
      if DrainsFull(w) {
        FullDrain(c, w);
      } else {
        PartialDrain(c, w);
      }
    }
  }

  lemma FullDrain(c: Converter, w: World)
    requires Invariant(c, w) && w.held.None? && DrainsFull(w)
    ensures PumpInvariant(c, Step(c, w, Drain))
  {
    var fb, format := w.session.framebuffer.value, w.session.format;
    var f := Topped(c, w.session, w.pump.needsFullSeed).frame;
    forall img: Image
      ensures Shows(c, StampFrame(img, f), Moment(fb, format, NOTHING_STALE))
    {
      FullSliceShows(c, img, fb, format, NOTHING_STALE);
    }
  }

  lemma PartialDrain(c: Converter, w: World)
    requires Invariant(c, w) && w.held.None? && !DrainsFull(w) && w.session.framebuffer.Some?
    ensures PumpInvariant(c, Step(c, w, Drain))
  {
    var f := w.session.frame;
    var now := Moment(w.session.framebuffer.value, w.session.format, w.stale);
    if !w.restarted && w.pump.open && w.pump.initialized {
      BridgeOverLost(c, w.pump.image, f, w.drained.value, now, w.lost);
      assert f.slices == [] ==> forall plane, x, y :: !CoveredBy(f, plane, x, y);
    }
  }

  /** A batch that holds a full slice leaves no sample unwritten, and written samples stay written. */
  lemma {:induction false} StampsWrite(img: Image, slices: seq<Slice>, config: Config)
    requires AllWritten(img, config)
             || exists i | 0 <= i < |slices| :: IsFullSlice(slices[i], config.width, config.height)
    ensures AllWritten(StampAll(img, slices, config.format, config.width, config.height), config)
  {
    if slices != [] {
      var k := |slices| - 1;
      if IsFullSlice(slices[k], config.width, config.height) {
        assert forall plane, x, y |
                 && 0 <= x < Extent(config.format, plane, config.width)
                 && 0 <= y < Extent(config.format, plane, config.height) ::
                 Covers(slices[k], config.format, config.width, config.height, plane, x, y);
      } else {
        if !AllWritten(img, config) {
          var i :| 0 <= i < |slices| && IsFullSlice(slices[i], config.width, config.height);
          assert slices[..k][i] == slices[i];
        }
        StampsWrite(img, slices[..k], config);
      }
    }
  }

  lemma AbsorbedWrites(p: Pump, f: RemoteFrame, now: Conditions)
    requires p.initialized ==> AllWritten(p.image, p.config)
    requires SameGeometry(p.config, f)
    ensures var q := Absorbed(p, f, now).0; q.initialized ==> AllWritten(q.image, q.config)
  {
    if p.initialized || HasFull(Applied(f, now)) {
      StampsWrite(p.image, Applied(f, now).slices, p.config);
    }
  }

  lemma IterateKeepsEncoder(c: Converter, w: World, now: Conditions)
    requires Invariant(c, w)
    ensures EncoderInvariant(Step(c, w, Iterate(now)))
  {
    if w.held.Some? && w.held.value.Some? && !now.congested {
      var f := w.held.value.value;
      if !MustReopen(w.pump, f, now) {
        AbsorbedWrites(w.pump, f, now);
      } else {
        AbsorbedWrites(Reopened(w.pump, f, now), f, now);
      }
    }
  }

  /** A batch that was absorbed whole leaves the picture up to date, and one that was thrown away costs no
      more than what it covers. */
  lemma IterateKeepsPicture(c: Converter, w: World, now: Conditions)
    requires Invariant(c, w)
    ensures PumpInvariant(c, Step(c, w, Iterate(now)))
    ensures var w' := Step(c, w, Iterate(now));
            |w'.pictures| > |w.pictures| ==> UpToDate(c, w'.pump.image, w'.pump.config, w'.drained, w'.lost)
  {
    if w.held.Some? && w.held.value.Some? {
      var f := w.held.value.value;
      if now.congested {
        SkipKeepsPicture(c, w, f);
      } else {
        AbsorbKeepsPicture(c, w, f, now);
      }
    }
  }

  lemma SkipKeepsPicture(c: Converter, w: World, f: RemoteFrame)
    requires BatchInvariant(c, w, f)
    ensures w.pump.open && w.pump.initialized && !w.pump.needsFullSeed ==>
              UpToDate(c, w.pump.image, w.pump.config, w.drained, Adding(w.lost, f))
  {
    if w.pump.open && w.pump.initialized && !w.pump.needsFullSeed {
      if StartsFull(f) {
        forall plane, x, y | InPlane(w.drained.value.framebuffer, w.drained.value.format, plane, x, y)
          ensures Adding(w.lost, f)(plane, x, y)
        {
          FullCoversAll(f, w.drained.value, plane, x, y);
        }
      } else {
        SkipLosesCovered(c, w.pump.image, f, w.drained.value, w.lost);
      }
    }
  }

  lemma AbsorbKeepsPicture(c: Converter, w: World, f: RemoteFrame, now: Conditions)
    requires BatchInvariant(c, w, f) && EncoderInvariant(w) && !now.congested
    ensures var (q, encoded) := Iterated(w.pump, Some(f), now);
            && (encoded ==> UpToDate(c, q.image, q.config, w.drained, Removing(w.lost, f)))
            && (q.open && q.initialized && !q.needsFullSeed ==> encoded)
  {
  }

  lemma IterateStep(c: Converter, w: World, now: Conditions)
    requires Invariant(c, w)
    ensures Invariant(c, Step(c, w, Iterate(now)))
  {
    IterateKeepsEncoder(c, w, now);
    IterateKeepsPicture(c, w, now);
  }

  lemma StepKeepsInvariant(c: Converter, w: World, e: Event)
    requires Invariant(c, w)
    ensures Invariant(c, Step(c, w, e))
  {
    match e
    case GuestWrite(fb) => WriteStep(c, w, fb);
    case Notify(n) => NotifyStep(c, w, n);
    case OpenMemory(_) =>
    case SetFormat(_) =>
    case Drain => DrainStep(c, w);
    case Iterate(now) => IterateStep(c, w, now);
  }

  lemma {:induction false} RunKeepsInvariant(c: Converter, events: seq<Event>)
    ensures Invariant(c, Run(c, events))
  {
    if events != [] {
      RunKeepsInvariant(c, events[..|events| - 1]);
      StepKeepsInvariant(c, Run(c, events[..|events| - 1]), events[|events| - 1]);
    }
  }

  // ---- main results, over every run

  /** The pending queue: bounded, inside the frame, in its format; and stamping it onto any picture that
      showed the framebuffer at the last drain shows the present framebuffer at every sample that depends
      on no written-but-unnotified pixel, unless a full frame is due or the stream restarted, in which
      case the next drain starts with a full frame. */
  lemma PendingSlicesBridge(c: Converter, events: seq<Event>, img: Image)
    ensures var w := Run(c, events);
            && |w.session.frame.slices| <= 256
            && (forall s | s in w.session.frame.slices :: SliceFits(s, w.session.frame))
            && (!w.session.forceFull ==>
                  && w.session.framebuffer.Some? && w.session.frame.format == w.session.format
                  && (w.restarted ==> StartsFull(w.session.frame))
                  && (StartsFull(w.session.frame) || (w.drained.Some? && Shows(c, img, w.drained.value)) ==>
                        Agrees(c, StampFrame(img, w.session.frame), w.session.framebuffer.value, w.session.format,
                               w.stale)))
  {
    RunKeepsInvariant(c, events);
  }

  /** In every run, nothing encoded was left unwritten since the encoder was opened, and the encoded picture
      shows the framebuffer of the last drain at every sample outside the batches thrown away since it was
      last written. It has another size or format only when a whole new frame was thrown away. */
  lemma EncodedPictures(c: Converter, events: seq<Event>, i: nat)
    requires i < |Run(c, events).pictures|
    ensures var p := Run(c, events).pictures[i];
            && AllWritten(p.image, p.config)
            && p.drained.Some?
            && (SizedAs(p.config, p.drained.value) || AllLost(p.drained.value, p.lost))
            && ShowsOutside(c, p.image, p.drained.value, p.lost)
  {
    RunKeepsInvariant(c, events);
  }

  /** No pump iteration finds the send buffer backed up while holding a drained batch. */
  predicate NeverSkips(c: Converter, events: seq<Event>) {
    events != [] ==>
      var before, e := events[..|events| - 1], events[|events| - 1];
      && NeverSkips(c, before)
      && (e.Iterate? && e.conditions.congested && Run(c, before).held.Some? ==> Run(c, before).held.value.None?)
  }

  ghost predicate NoneLost(lost: SampleSet) {
    forall plane, x, y :: !lost(plane, x, y)
  }

  lemma {:induction false} NothingLost(c: Converter, events: seq<Event>)
    requires NeverSkips(c, events)
    ensures NoneLost(Run(c, events).lost)
    ensures forall i | 0 <= i < |Run(c, events).pictures| :: NoneLost(Run(c, events).pictures[i].lost)
  {
    if events != [] {
      var before := events[..|events| - 1];
      NothingLost(c, before);
      LosesNothing(c, Run(c, before), events[|events| - 1]);
    }
  }

  lemma LosesNothing(c: Converter, w: World, e: Event)
    requires w.session.format.Planar() && NoneLost(w.lost)
    requires e.Iterate? && e.conditions.congested && w.held.Some? ==> w.held.value.None?
    ensures var w' := Step(c, w, e);
            NoneLost(w'.lost) && (w'.pictures == w.pictures
                                  || exists p :: w'.pictures == w.pictures + [p] && NoneLost(p.lost))
  {
    hide Updated, Refreshed, Topped, Iterated;
  }

  /** On runs that throw no drained batch away, every encoded picture has the size and format of the
      framebuffer at the last drain and shows it. */
  lemma EncodedPicturesShowLastDrain(c: Converter, events: seq<Event>, i: nat)
    requires NeverSkips(c, events) && i < |Run(c, events).pictures|
    ensures var p := Run(c, events).pictures[i];
            p.drained.Some? && SizedAs(p.config, p.drained.value) && Shows(c, p.image, p.drained.value)
  {
    NothingLost(c, events);
    EncodedPictures(c, events, i);
    var p := Run(c, events).pictures[i];
    assert InPlane(p.drained.value.framebuffer, p.drained.value.format, Y, 0, 0);
  }

  /** A full frame that gets encoded ends all losses. */
  lemma FullFrameEndsLosses(c: Converter, events: seq<Event>, now: Conditions)
    requires var w := Run(c, events); w.held.Some? && w.held.value.Some? && StartsFull(w.held.value.value)
    requires |Step(c, Run(c, events), Iterate(now)).pictures| > |Run(c, events).pictures|
    ensures var p := Step(c, Run(c, events), Iterate(now)).pictures[|Run(c, events).pictures|];
            p.drained == Run(c, events).drained && p.drained.Some?
            && SizedAs(p.config, p.drained.value) && Shows(c, p.image, p.drained.value)
  {
    RunKeepsInvariant(c, events);
    var w := Run(c, events);
    IterateStep(c, w, now);
    var f, m := w.held.value.value, w.drained.value;
    assert InPlane(m.framebuffer, m.format, Y, 0, 0);
    forall plane, x, y | InPlane(m.framebuffer, m.format, plane, x, y)
      ensures !Removing(w.lost, f)(plane, x, y)
    {
      FullCoversAll(f, m, plane, x, y);
    }
  }

  /** The picture encoded after a drain that converted the whole frame equals the whole framebuffer of that
      drain, written-but-unnotified pixels included, whatever happens before the pump gets to it. */
  lemma FullDrainIsExact(c: Converter, events: seq<Event>, between: seq<Event>, now: Conditions)
    requires Run(c, events).held.None? && DrainsFull(Run(c, events))
    requires forall i | 0 <= i < |between| :: !between[i].Iterate?
    ensures var w, before := Run(c, events), Run(c, events + [Drain] + between);
            var after := Step(c, before, Iterate(now));
            |after.pictures| > |before.pictures| ==>
              var p, fb := after.pictures[|before.pictures|], w.session.framebuffer.value;
              && p.config.width == fb.width && p.config.height == fb.height && p.config.format == w.session.format
              && forall plane, x, y | InPlane(fb, w.session.format, plane, x, y) ::
                   p.image(plane, x, y) == Written(FrameSample(c, fb, w.session.format, plane, x, y))
  {
    hide Step, Run, Topped;
    var w := Run(c, events);
    RunAppend(c, events, Drain);
    FullBatchHeld(c, w);
    KeptUntilIterate(c, events + [Drain], between);
    var before := Run(c, events + [Drain] + between);
    if |Step(c, before, Iterate(now)).pictures| > |before.pictures| {
      FullFrameEndsLosses(c, events + [Drain] + between, now);
    }
  }

  lemma FullBatchHeld(c: Converter, w: World)
    requires w.session.format.Planar() && w.held.None? && DrainsFull(w)
    ensures var w', s := Step(c, w, Drain), w.session;
            && w'.held.Some? && w'.held.value.Some? && StartsFull(w'.held.value.value)
            && w'.drained == Some(Moment(s.framebuffer.value, s.format, NOTHING_STALE))
  {
  }

  /** A batch once drained waits unchanged for the pump. */
  lemma {:induction false} KeptUntilIterate(c: Converter, events: seq<Event>, between: seq<Event>)
    requires Run(c, events).held.Some?
    requires forall i | 0 <= i < |between| :: !between[i].Iterate?
    ensures var w, w' := Run(c, events), Run(c, events + between);
            w'.held == w.held && w'.drained == w.drained && w'.pump == w.pump && w'.pictures == w.pictures
    decreases |between|
  {
    hide Step;
    if between == [] {
      assert events + between == events;
    } else {
      var k := |between| - 1;
      KeptUntilIterate(c, events, between[..k]);
      Associative(events, between[..k], [between[k]]);
      assert between == between[..k] + [between[k]];
      RunAppend(c, events + between[..k], between[k]);
      HeldThrough(c, Run(c, events + between[..k]), between[k]);
    }
  }

  lemma HeldThrough(c: Converter, w: World, e: Event)
    requires w.held.Some? && !e.Iterate? && w.session.format.Planar()
    ensures var w' := Step(c, w, e);
            w'.held == w.held && w'.drained == w.drained && w'.pump == w.pump && w'.pictures == w.pictures
  {
    hide Updated, Refreshed;
  }

  /** Throwing a batch away when nothing was lost before is harmless exactly when the picture has its size
      and format, and every sample it would have written, other than stale ones, is there already. */
  lemma SkipHarmlessIff(c: Converter, w: World, now: Conditions)
    requires Invariant(c, w) && now.congested && w.held.Some? && w.held.value.Some?
    requires w.pump.open && w.pump.initialized && !w.pump.needsFullSeed && NoneLost(w.lost)
    ensures var f, m, p := w.held.value.value, w.drained.value, Step(c, w, Iterate(now)).pump;
            SizedAs(p.config, m) && Shows(c, p.image, m) <==>
            && SizedAs(w.pump.config, m)
            && forall s, plane, x, y |
                 && s in f.slices && Covers(s, f.format, f.width, f.height, plane, x, y)
                 && InPlane(m.framebuffer, m.format, plane, x, y)
                 && !Touches(m.framebuffer, m.format, plane, x, y, m.stale) ::
                 w.pump.image(plane, x, y) == StampFrame(w.pump.image, f)(plane, x, y)
  {
    var f, m := w.held.value.value, w.drained.value;
    forall plane, x, y | !exists s :: s in f.slices && Covers(s, f.format, f.width, f.height, plane, x, y)
      ensures StampFrame(w.pump.image, f)(plane, x, y) == w.pump.image(plane, x, y)
    {
      UncoveredUnchanged(w.pump.image, f.slices, f.format, f.width, f.height, plane, x, y);
    }
  }

  lemma RunAppend(c: Converter, events: seq<Event>, e: Event)
    ensures Run(c, events + [e]) == Step(c, Run(c, events), e)
  {
    assert (events + [e])[..|events|] == events;
  }

  /** The restriction is needed: after a congested iteration the heartbeat re-encodes the old picture,
      although the changed pixel was notified, drained and is not stale. */
  lemma SkippedBatchIsLost(c: Converter) returns (events: seq<Event>)
    requires c.luma == ((p: Pixel) => p)
    ensures var w := Run(c, events);
            && |w.pictures| == 2 && w.pictures[1].drained.Some?
            && !w.pictures[1].drained.value.stale(0, 0)
            && !Shows(c, w.pictures[1].image, w.pictures[1].drained.value)
  {
    var dark, lit := Bitmap(1, 1, [[0]]), Bitmap(1, 1, [[1]]);
    var fine := Conditions(false, 4_000_000, 0, true, None);
    var seed := [OpenMemory(dark), Drain, Iterate(fine)];
    var w0 := Step(c, Step(c, Step(c, INITIAL_WORLD, OpenMemory(dark)), Drain), Iterate(fine));
    assert Run(c, seed) == w0 by {
      RunAppend(c, [], OpenMemory(dark));
      RunAppend(c, [OpenMemory(dark)], Drain);
      RunAppend(c, [OpenMemory(dark), Drain], Iterate(fine));
      assert [] + [OpenMemory(dark)] == [OpenMemory(dark)];
      assert [OpenMemory(dark)] + [Drain] == [OpenMemory(dark), Drain];
      assert [OpenMemory(dark), Drain] + [Iterate(fine)] == seed;
    }
    FullSliceShows(c, BLANK, dark, Yuv420p, NOTHING_STALE);
    assert HasFull(RemoteFrame(1, 1, Yuv420p, [FullSlice(c, dark, Yuv420p)], 0)) by {
      assert IsFullSlice([FullSlice(c, dark, Yuv420p)][0], 1, 1);
    }
    assert |w0.pictures| == 1 && w0.pump.open && w0.pump.initialized && !w0.pump.needsFullSeed;
    assert InPlane(dark, Yuv420p, Y, 0, 0);
    assert w0.pump.image(Y, 0, 0) == Written(0);
    events := LoseUpdate(c, seed, lit);
  }

  /** The pump is seeded and shows a dark one-pixel screen; nothing is queued or held. */
  predicate ShowsDark(w: World) {
    && w.held.None? && w.session.format == Yuv420p && !w.session.forceFull
    && w.session.frame == w.session.frame.(width := 1, height := 1, format := Yuv420p, slices := [])
    && w.pump.open && w.pump.initialized && !w.pump.needsFullSeed && w.pump.image(Y, 0, 0) == Written(0)
  }

  lemma WriteOnly(c: Converter, w: World, fb: Framebuffer, fb': Framebuffer)
    requires w.session.format.Planar() && w.session.framebuffer == Some(fb) && SameSize(fb, fb')
    ensures Step(c, w, GuestWrite(fb'))
         == w.(session := w.session.(framebuffer := Some(fb')), stale := WithWrites(w.stale, fb, fb'))
  {
  }

  lemma InsidePixel(r: Rect)
    requires r.Inside(1, 1)
    ensures r == Full(1, 1)
  {
  }

  lemma PixelRefreshed(s: Session, fb: Framebuffer, n: Notification)
    requires s.framebuffer == Some(fb) && fb.width == 1 && fb.height == 1
    ensures Refreshed(s, n) == Full(1, 1)
  {
    InsidePixel(Normalized(n, fb));
  }

  /** Notifying a one-pixel screen queues all of it. */
  lemma PixelNotified(c: Converter, w: World, fb: Framebuffer, n: Notification)
    requires w.session.format == Yuv420p && w.session.framebuffer == Some(fb) && fb.width == 1 && fb.height == 1
    ensures var w' := Step(c, w, Notify(n));
            && w'.session == w.session.(frame := RemoteFrame(1, 1, Yuv420p, w'.session.frame.slices, n.seqNo),
                                        forceFull := false)
            && w'.session.frame.slices != [] && !w'.stale(0, 0)
            && w'.pump == w.pump && w'.held == w.held && w'.pictures == w.pictures
  {
    PixelRefreshed(w.session, fb, n);
    var w' := Step(c, w, Notify(n));
    assert w'.session == Updated(c, w.session, n);
    assert w'.stale == Without(w.stale, Full(1, 1));
    CornerCleared(w.stale);
  }

  lemma CornerCleared(stale: Region)
    ensures !Without(stale, Full(1, 1))(0, 0)
  {
    var r := Full(1, 1);
    assert r.x <= 0 < r.Right() && r.y <= 0 < r.Bottom();
  }

  /** A drained batch that meets a full send buffer is gone. */
  lemma BatchThrownAway(c: Converter, w: World, jam: Conditions)
    requires w.session.format == Yuv420p && !w.session.forceFull && w.held.None? && jam.congested
    requires w.session.frame == w.session.frame.(width := 1, height := 1, format := Yuv420p)
    requires w.session.frame.slices != []
    requires w.pump.open && w.pump.initialized && !w.pump.needsFullSeed && w.pump.image(Y, 0, 0) == Written(0)
    ensures var w' := Step(c, Step(c, w, Drain), Iterate(jam));
            && ShowsDark(w') && w'.pictures == w.pictures
            && w'.session.framebuffer == w.session.framebuffer && w'.stale == w.stale
  {
    var w1 := Step(c, w, Drain);
    assert w1.held == Some(Some(w.session.frame)) && w1.session.frame == w.session.frame.(slices := []);
  }

  /** The next iteration drains nothing and encodes the old picture. */
  lemma OldPictureEncoded(c: Converter, w: World, lit: Framebuffer, fine: Conditions)
    requires c.luma == ((p: Pixel) => p)
    requires ShowsDark(w) && w.session.framebuffer == Some(lit) && lit == Bitmap(1, 1, [[1]])
    requires !w.stale(0, 0) && !fine.congested
    ensures var w' := Step(c, Step(c, w, Drain), Iterate(fine));
            && |w'.pictures| == |w.pictures| + 1
            && var p := w'.pictures[|w.pictures|];
               p.drained.Some? && !p.drained.value.stale(0, 0) && !Shows(c, p.image, p.drained.value)
  {
    var w1 := Step(c, w, Drain);
    assert w1.held == Some(None) && w1.drained == Some(Moment(lit, Yuv420p, w.stale));
    assert InPlane(lit, Yuv420p, Y, 0, 0) && FrameSample(c, lit, Yuv420p, Y, 0, 0) == 1;
  }

  /** Any run that left the pump seeded on a one-pixel screen can go on to lose an update. */
  lemma LoseUpdate(c: Converter, seed: seq<Event>, lit: Framebuffer) returns (events: seq<Event>)
    requires c.luma == ((p: Pixel) => p) && lit == Bitmap(1, 1, [[1]])
    requires var w := Run(c, seed);
             |w.pictures| == 1 && ShowsDark(w) && w.session.framebuffer == Some(Bitmap(1, 1, [[0]]))
    ensures var w := Run(c, events);
            && |w.pictures| == 2 && w.pictures[1].drained.Some?
            && !w.pictures[1].drained.value.stale(0, 0)
            && !Shows(c, w.pictures[1].image, w.pictures[1].drained.value)
  {
    var fine, jam := Conditions(false, 4_000_000, 0, true, None), Conditions(true, 4_000_000, 0, true, None);
    var n := Notification(0, 0, 1, 1, 1);
    WriteOnly(c, Run(c, seed), Bitmap(1, 1, [[0]]), lit);
    var e1 := seed + [GuestWrite(lit)];
    RunAppend(c, seed, GuestWrite(lit));
    PixelNotified(c, Run(c, e1), lit, n);
    var e2 := e1 + [Notify(n)];
    RunAppend(c, e1, Notify(n));
    BatchThrownAway(c, Run(c, e2), jam);
    var e3 := e2 + [Drain];
    RunAppend(c, e2, Drain);
    var e4 := e3 + [Iterate(jam)];
    RunAppend(c, e3, Iterate(jam));
    OldPictureEncoded(c, Run(c, e4), lit, fine);
    var e5 := e4 + [Drain];
    RunAppend(c, e4, Drain);
    events := e5 + [Iterate(fine)];
    RunAppend(c, e5, Iterate(fine));
  }
}
