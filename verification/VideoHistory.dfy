/** What reaches the viewer, told by the events alone: the screen is what the last opened memory and the
    guest's writes say it is, and the pictures are compared with that. */
module VideoHistory {
  import opened DirtyRects
  import opened Options
  import opened Yuv
  import opened RemoteFrames
  import opened VideoEncoder
  import opened VideoPump
  import opened RemoteVideo

  // ---- the events

  function Before(events: seq<Event>): seq<Event>
    requires events != []
  {
    events[..|events| - 1]
  }

  function Last(events: seq<Event>): Event
    requires events != []
  {
    events[|events| - 1]
  }

  /** The memory last opened, with the writes of its size since. */
  function Screen(events: seq<Event>): Option<Framebuffer> {
    if events == [] then None
    else
      var before := Screen(Before(events));
      match Last(events)
      case OpenMemory(fb) => Some(fb)
      case GuestWrite(fb) => if before.Some? && SameSize(before.value, fb) then Some(fb) else before
      case _ => before
  }

  /** The planar format last asked for; 4:2:0 to begin with. */
  function Selected(events: seq<Event>): PixelFormat {
    if events == [] then Yuv420p
    else if Last(events).SetFormat? && Last(events).format.Planar() then Last(events).format
    else Selected(Before(events))
  }

  /** Whether the pump is between a drain and its iteration. */
  predicate Holding(events: seq<Event>) {
    events != [] && (Last(events).Drain? || (!Last(events).Iterate? && Holding(Before(events))))
  }

  /** Position of the last drain; the pump drains only with nothing in hand. */
  function LastDrain(events: seq<Event>): (k: Option<nat>)
    ensures k.Some? ==> k.value < |events|
  {
    if events == [] then None
    else if Last(events).Drain? && !Holding(Before(events)) then Some(|events| - 1)
    else LastDrain(Before(events))
  }

  /** The pixels changed since a notification last asked for them. */
  function Unnotified(events: seq<Event>): Region {
    if events == [] then NOTHING_STALE
    else
      var before := Unnotified(Before(events));
      match Last(events)
      case OpenMemory(_) => NOTHING_STALE
      case GuestWrite(fb) =>
        var was := Screen(Before(events));
        if was.Some? && SameSize(was.value, fb) then WithWrites(before, was.value, fb) else before
      case Notify(n) => Without(before, Rect(n.x, n.y, n.width, n.height))
      case _ => before
  }

  // ---- the session follows the events

  /** The staleness that the run tracks is no more than what the events say. */
  ghost predicate Within(stale: Region, unnotified: Region, fb: Framebuffer) {
    forall x, y | 0 <= x < fb.width && 0 <= y < fb.height && stale(x, y) :: unnotified(x, y)
  }

  ghost predicate Follows(w: World, events: seq<Event>) {
    && w.session.framebuffer == Screen(events)
    && w.session.format == Selected(events)
    && (w.held.Some? <==> Holding(events))
    && (w.session.framebuffer.Some? ==> Within(w.stale, Unnotified(events), w.session.framebuffer.value))
  }

  ghost predicate DrainFollows(w: World, events: seq<Event>) {
    match LastDrain(events)
    case None => w.drained.None?
    case Some(k) =>
      && (w.drained.Some? <==> Screen(events[..k]).Some?)
      && (w.drained.Some? ==>
            var m := w.drained.value;
            && m.framebuffer == Screen(events[..k]).value && m.format == Selected(events[..k])
            && Within(m.stale, Unnotified(events[..k]), m.framebuffer))
  }

  /** What a notification clears covers what it asked for. */
  lemma RefreshedCovers(s: Session, n: Notification, x: int, y: int)
    requires s.framebuffer.Some? && 0 <= x < s.framebuffer.value.width && 0 <= y < s.framebuffer.value.height
    requires Rect(n.x, n.y, n.width, n.height).Contains(x, y)
    ensures Refreshed(s, n).Contains(x, y)
  {
  }

  lemma StepFollows(c: Converter, w: World, events: seq<Event>)
    requires events != [] && Follows(w, Before(events)) && w.session.format.Planar()
    ensures Follows(Step(c, w, Last(events)), events)
  {
    var e, w' := Last(events), Step(c, w, Last(events));
    hide MakeSliceFromBgra, FullSlice, Iterated, Refreshed;
    match e
    case Notify(n) =>
      if w.session.framebuffer.Some? {
        var fb := w.session.framebuffer.value;
        forall x, y | 0 <= x < fb.width && 0 <= y < fb.height && w'.stale(x, y)
          ensures Unnotified(events)(x, y)
        {
          if Rect(n.x, n.y, n.width, n.height).Contains(x, y) { RefreshedCovers(w.session, n, x, y); }
        }
      }
    case _ =>
  }

  lemma DrainStepFollows(c: Converter, w: World, events: seq<Event>)
    requires events != [] && Follows(w, Before(events)) && DrainFollows(w, Before(events)) && w.session.format.Planar()
    ensures DrainFollows(Step(c, w, Last(events)), events)
  {
    hide MakeSliceFromBgra, FullSlice, Iterated, Updated, Refreshed;
    var before, k := Before(events), LastDrain(Before(events));
    if k.Some? {
      assert before[..k.value] == events[..k.value];
    }
  }

  /** In every run the session's framebuffer is the memory last opened with the writes since, its format the
      one last selected, and the last drain saw both as they were then. */
  lemma {:induction false} RunFollows(c: Converter, events: seq<Event>)
    ensures Follows(Run(c, events), events) && DrainFollows(Run(c, events), events)
  {
    hide Step;
    if events != [] {
      RunFollows(c, Before(events));
      StepFollows(c, Run(c, Before(events)), events);
      DrainStepFollows(c, Run(c, Before(events)), events);
    }
  }

  // ---- what is encoded

  /** The newest picture, when the iteration encoded one. */
  predicate Encodes(c: Converter, events: seq<Event>, now: Conditions) {
    |Step(c, Run(c, events), Iterate(now)).pictures| > |Run(c, events).pictures|
  }

  function NewPicture(c: Converter, events: seq<Event>, now: Conditions): Picture
    requires Encodes(c, events, now)
  {
    Step(c, Run(c, events), Iterate(now)).pictures[|Run(c, events).pictures|]
  }

  /** The picture shows the screen outside the given samples and pixels. */
  ghost predicate Displays(c: Converter, p: Picture, fb: Framebuffer, format: PixelFormat,
                           unnotified: Region, lost: SampleSet) {
    forall plane, x, y |
      && InPlane(fb, format, plane, x, y) && !lost(plane, x, y) && !Touches(fb, format, plane, x, y, unnotified) ::
      p.image(plane, x, y) == Written(FrameSample(c, fb, format, plane, x, y))
  }

  lemma DisplaysMore(c: Converter, p: Picture, m: Moment, unnotified: Region)
    requires ShowsOutside(c, p.image, m, p.lost) && Within(m.stale, unnotified, m.framebuffer)
    ensures Displays(c, p, m.framebuffer, m.format, unnotified, p.lost)
  {
    forall plane, x, y |
      && InPlane(m.framebuffer, m.format, plane, x, y) && !p.lost(plane, x, y)
      && !Touches(m.framebuffer, m.format, plane, x, y, unnotified)
      ensures p.image(plane, x, y) == Written(FrameSample(c, m.framebuffer, m.format, plane, x, y))
    {
      assert !Touches(m.framebuffer, m.format, plane, x, y, m.stale);
    }
  }

  /** In every run, each picture shows the screen as the events had it at the last drain, in the format then
      selected, at every sample outside skipped batches and not yet notified pixels. */
  lemma PictureShowsScreen(c: Converter, events: seq<Event>, now: Conditions)
    requires Encodes(c, events, now)
    ensures var p, k := NewPicture(c, events, now), LastDrain(events);
            && k.Some? && Screen(events[..k.value]).Some?
            && var fb, format := Screen(events[..k.value]).value, Selected(events[..k.value]);
               && ((p.config.width == fb.width && p.config.height == fb.height && p.config.format == format)
                   || forall plane, x, y | InPlane(fb, format, plane, x, y) :: p.lost(plane, x, y))
               && Displays(c, p, fb, format, Unnotified(events[..k.value]), p.lost)
  {
    hide Step, Run;
    RunFollows(c, events);
    RunKeepsInvariant(c, events);
    IterateStep(c, Run(c, events), now);
    PictureOf(c, Run(c, events), now);
    var p, m := NewPicture(c, events, now), Run(c, events).drained.value;
    DisplaysMore(c, p, m, Unnotified(events[..LastDrain(events).value]));
  }

  lemma PictureOf(c: Converter, w: World, now: Conditions)
    requires w.session.format.Planar() && |Step(c, w, Iterate(now)).pictures| > |w.pictures|
    requires Invariant(c, Step(c, w, Iterate(now)))
    ensures var p := Step(c, w, Iterate(now)).pictures[|w.pictures|];
            p.drained == w.drained && UpToDate(c, p.image, p.config, w.drained, p.lost)
  {
    hide Iterated;
    var w' := Step(c, w, Iterate(now));
    assert GoodPicture(c, w'.pictures[|w.pictures|]);
  }

  /** And when no drained batch was skipped, at every sample of notified pixels. */
  lemma ScreenReachesViewer(c: Converter, events: seq<Event>, now: Conditions)
    requires Encodes(c, events, now) && NeverSkips(c, events)
    ensures var p, k := NewPicture(c, events, now), LastDrain(events);
            && k.Some? && Screen(events[..k.value]).Some?
            && var fb, format := Screen(events[..k.value]).value, Selected(events[..k.value]);
               && p.config.width == fb.width && p.config.height == fb.height && p.config.format == format
               && Displays(c, p, fb, format, Unnotified(events[..k.value]), NOTHING_LOST)
  {
    hide Step, Run;
    PictureShowsScreen(c, events, now);
    NothingLost(c, events);
    NewPictureLost(c, Run(c, events), now);
    var k := LastDrain(events).value;
    assert InPlane(Screen(events[..k]).value, Selected(events[..k]), Y, 0, 0);
  }

  lemma NewPictureLost(c: Converter, w: World, now: Conditions)
    requires w.session.format.Planar() && NoneLost(w.lost)
    requires |Step(c, w, Iterate(now)).pictures| > |w.pictures|
    ensures NoneLost(Step(c, w, Iterate(now)).pictures[|w.pictures|].lost)
  {
  }

  // ---- when something is encoded

  predicate Kept(p: Pump, f: RemoteFrame, now: Conditions) {
    p.open && p.config == Config(f.width, f.height, now.bitrate, f.format, now.profile)
  }

  predicate Refused(f: RemoteFrame, now: Conditions) {
    now.failAt.Some? && now.failAt.value < |f.slices|
  }

  predicate OneFullSlice(f: RemoteFrame) {
    |f.slices| == 1 && f.slices[0].Area() == Rect(0, 0, f.width, f.height)
  }

  predicate SomeFullSlice(f: RemoteFrame) {
    exists i | 0 <= i < |f.slices| :: f.slices[i].Area() == Rect(0, 0, f.width, f.height)
  }

  /** The send buffer is not backed up; and without a batch the encoder is seeded, while with one no slice is
      refused and the encoder is seeded with it, or newly opened with one full slice. */
  predicate WillEncode(p: Pump, batch: Option<RemoteFrame>, now: Conditions) {
    && !now.congested
    && match batch
       case None => p.open && p.initialized
       case Some(f) =>
         && !Refused(f, now)
         && if Kept(p, f, now) then p.initialized || SomeFullSlice(f) else now.opens && OneFullSlice(f)
  }

  /** An iteration encodes one picture or none, and one exactly then. */
  lemma EncodesIff(c: Converter, w: World, now: Conditions)
    requires w.session.format.Planar() && w.held.Some?
    ensures |Step(c, w, Iterate(now)).pictures|
         == |w.pictures| + if WillEncode(w.pump, w.held.value, now) then 1 else 0
  {
    if w.held.value.Some? {
      FullSliceMeans(w.held.value.value);
      AppliedMeans(w.held.value.value, now);
    }
  }

  lemma FullSliceMeans(f: RemoteFrame)
    ensures OneFullSlice(f) <==> SingleFull(f)
    ensures SomeFullSlice(f) <==> HasFull(f)
    ensures OneFullSlice(f) ==> SomeFullSlice(f)
  {
    if HasFull(f) {
      var i :| 0 <= i < |f.slices| && IsFullSlice(f.slices[i], f.width, f.height);
      assert f.slices[i].Area() == Rect(0, 0, f.width, f.height);
    }
    if SomeFullSlice(f) {
      var i :| 0 <= i < |f.slices| && f.slices[i].Area() == Rect(0, 0, f.width, f.height);
      assert IsFullSlice(f.slices[i], f.width, f.height);
    }
    if OneFullSlice(f) {
      assert f.slices[0].Area() == Rect(0, 0, f.width, f.height);
    }
  }

  lemma AppliedMeans(f: RemoteFrame, now: Conditions)
    ensures Applied(f, now) == f <==> !Refused(f, now)
  {
  }

  /** The pump afterwards: a skipped or missing batch changes nothing; otherwise the configuration is that of
      the batch and the moment, the encoder is open if it was kept or opens, and a full frame is asked for
      exactly when nothing was encoded (a failed opening leaves that as it was). */
  lemma PumpAfter(c: Converter, w: World, now: Conditions)
    requires w.session.format.Planar() && w.held.Some?
    ensures var p, q := w.pump, Step(c, w, Iterate(now)).pump;
            match w.held.value
            case None => q == p
            case Some(f) =>
              if now.congested then q == p
              else
                && q.config == Config(f.width, f.height, now.bitrate, f.format, now.profile)
                && q.open == (Kept(p, f, now) || now.opens)
                && q.needsFullSeed == (if q.open then !WillEncode(p, Some(f), now) else p.needsFullSeed)
                && (WillEncode(p, Some(f), now) ==> q.initialized)
                && (!Kept(p, f, now) ==> q.initialized == (now.opens && OneFullSlice(f) && !Refused(f, now)))
  {
    if w.held.value.Some? {
      FullSliceMeans(w.held.value.value);
      AppliedMeans(w.held.value.value, now);
    }
  }

  /** A drain hands over the whole queue and leaves none: one full slice when the pump asked for a full frame
      or one is due, and otherwise what the notifications queued. */
  lemma DrainHandsOver(c: Converter, w: World)
    requires QueueInvariant(w.session) && w.held.None?
    ensures var w' := Step(c, w, Drain);
            && w'.held.Some? && w'.session.frame.slices == []
            && (if (w.pump.needsFullSeed || w.session.forceFull) && w.session.framebuffer.Some? then
                  w'.held.value.Some? && OneFullSlice(w'.held.value.value)
                else if w.session.frame.slices == [] then w'.held.value.None?
                else w'.held.value == Some(w.session.frame))
  {
  }

  // ---- progress

  /** Nothing stands in the pump's way. */
  predicate Good(now: Conditions) {
    !now.congested && now.opens && now.failAt.None?
  }

  /** A full frame is due, or some is queued. */
  predicate Pending(w: World) {
    w.session.framebuffer.Some? && (w.pump.needsFullSeed || w.session.forceFull || w.session.frame.slices != [])
  }

  /** A round with a full frame encodes it. */
  lemma FullRoundEncodes(c: Converter, w: World, now: Conditions)
    requires QueueInvariant(w.session) && w.held.None? && DrainsFull(w) && Good(now)
    ensures |Step(c, Step(c, w, Drain), Iterate(now)).pictures| == |w.pictures| + 1
  {
    DrainHandsOver(c, w);
    DrainOnly(c, w);
    var w1 := Step(c, w, Drain);
    EncodesIff(c, w1, now);
    FullSliceMeans(w1.held.value.value);
  }

  lemma DrainOnly(c: Converter, w: World)
    requires w.session.format.Planar()
    ensures var w' := Step(c, w, Drain);
            && w'.pump == w.pump && w'.pictures == w.pictures && w'.session.framebuffer == w.session.framebuffer
            && (w.held.None? && w.session.framebuffer.Some? && QueueInvariant(w.session) ==> !w'.session.forceFull)
  {
    hide MakeSliceFromBgra, FullSlice;
  }

  lemma IterateOnly(c: Converter, w: World, now: Conditions)
    requires w.session.format.Planar()
    ensures var w' := Step(c, w, Iterate(now)); w'.session == w.session && w'.held.None?
  {
    hide Iterated;
  }

  /** After a good round with something to show, the encoder is seeded or a full frame is asked for, and the
      queue is empty. */
  lemma RoundSettles(c: Converter, w: World, now: Conditions)
    requires QueueInvariant(w.session) && w.held.None? && Pending(w) && Good(now)
    ensures var w' := Step(c, Step(c, w, Drain), Iterate(now));
            && w'.held.None? && w'.session.framebuffer.Some? && !w'.session.forceFull && w'.session.frame.slices == []
            && w'.pump.open && (w'.pump.needsFullSeed || w'.pump.initialized)
  {
    hide Step;
    DrainHandsOver(c, w);
    DrainOnly(c, w);
    var w1 := Step(c, w, Drain);
    IterateOnly(c, w1, now);
    PumpAfter(c, w1, now);
  }

  /** So the next good round encodes. */
  lemma SettledRoundEncodes(c: Converter, w: World, now: Conditions)
    requires QueueInvariant(w.session) && w.held.None? && w.session.framebuffer.Some? && !w.session.forceFull
    requires w.session.frame.slices == [] && w.pump.open && (w.pump.needsFullSeed || w.pump.initialized) && Good(now)
    ensures |Step(c, Step(c, w, Drain), Iterate(now)).pictures| == |w.pictures| + 1
  {
    if w.pump.needsFullSeed {
      FullRoundEncodes(c, w, now);
    } else {
      DrainHandsOver(c, w);
      DrainOnly(c, w);
      EncodesIff(c, Step(c, w, Drain), now);
    }
  }

  function TwoRounds(n: Notification, now: Conditions): seq<Event> {
    [Iterate(now), Notify(n), Drain, Iterate(now), Drain]
  }

  /** Whatever happened before, one notification and two good rounds bring a picture out. */
  lemma AlwaysRecovers(c: Converter, events: seq<Event>, n: Notification, now: Conditions)
    requires Screen(events).Some? && Good(now)
    ensures Encodes(c, events + TwoRounds(n, now), now)
  {
    hide Step, Run;
    var e1 := events + [Iterate(now)];
    var e2 := e1 + [Notify(n)];
    var e3 := e2 + [Drain];
    var e4 := e3 + [Iterate(now)];
    var e5 := e4 + [Drain];
    assert events + TwoRounds(n, now) == e5;
    RunFollows(c, events);
    RunAppend(c, events, Iterate(now));
    IterateOnly(c, Run(c, events), now);
    RunAppend(c, e1, Notify(n));
    NotifyQueues(c, Run(c, e1), n);
    RunAppend(c, e2, Drain);
    RunAppend(c, e3, Iterate(now));
    RunKeepsInvariant(c, e2);
    RoundSettles(c, Run(c, e2), now);
    RunKeepsInvariant(c, e4);
    SettledRoundEncodes(c, Run(c, e4), now);
    RunAppend(c, e4, Drain);
    DrainOnly(c, Run(c, e4));
  }

  lemma NotifyQueues(c: Converter, w: World, n: Notification)
    requires w.session.format.Planar() && w.session.framebuffer.Some?
    ensures var w' := Step(c, w, Notify(n));
            w'.session.frame.slices != [] && w'.session.framebuffer == w.session.framebuffer && w'.held == w.held
  {
    hide Refreshed, MakeSliceFromBgra;
  }

  /** A new memory is shown whole, in its own size and the selected format, by the next good round. */
  lemma NewMemoryIsShown(c: Converter, events: seq<Event>, fb: Framebuffer, now: Conditions)
    requires !Holding(events) && Good(now)
    ensures var e := events + [OpenMemory(fb), Drain];
            && Encodes(c, e, now)
            && var p, format := NewPicture(c, e, now), Selected(events);
               && p.config == Config(fb.width, fb.height, now.bitrate, format, now.profile)
               && forall plane, x, y | InPlane(fb, format, plane, x, y) ::
                    p.image(plane, x, y) == Written(FrameSample(c, fb, format, plane, x, y))
  {
    hide Step, Run;
    var e1 := events + [OpenMemory(fb)];
    var e2 := e1 + [Drain];
    assert events + [OpenMemory(fb), Drain] == e2;
    RunFollows(c, events);
    RunAppend(c, events, OpenMemory(fb));
    MemoryOpened(c, Run(c, events), fb);
    RunAppend(c, e1, Drain);
    RunKeepsInvariant(c, e1);
    FullRoundEncodes(c, Run(c, e1), now);
    DrainOnly(c, Run(c, e1));
    FullDrainIsExact(c, e1, [], now);
    assert e1 + [Drain] + [] == e2;
    var w2 := Run(c, e2);
    BatchOf(c, Run(c, e1));
    PumpAfter(c, w2, now);
    ConfigOfPicture(c, w2, now);
  }

  lemma MemoryOpened(c: Converter, w: World, fb: Framebuffer)
    requires w.session.format.Planar()
    ensures var w' := Step(c, w, OpenMemory(fb));
            && w'.session.framebuffer == Some(fb) && w'.session.format == w.session.format && DrainsFull(w')
            && w'.held == w.held && w'.pump == w.pump
  {
  }

  lemma BatchOf(c: Converter, w: World)
    requires w.session.format.Planar() && w.held.None? && DrainsFull(w)
    ensures var h, fb := Step(c, w, Drain).held, w.session.framebuffer.value;
            && h.Some? && h.value.Some?
            && h.value.value.width == fb.width && h.value.value.height == fb.height
            && h.value.value.format == w.session.format
  {
  }

  lemma ConfigOfPicture(c: Converter, w: World, now: Conditions)
    requires w.session.format.Planar() && |Step(c, w, Iterate(now)).pictures| > |w.pictures|
    ensures var w' := Step(c, w, Iterate(now)); w'.pictures[|w.pictures|].config == w'.pump.config
  {
    hide Iterated;
  }
}
