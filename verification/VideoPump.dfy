/** The consumer of remote video: a pump that drains slice batches, reopens the encoder when the
    configuration changes, reseeds it with a full frame and encodes. */
module VideoPump {
  import opened Options
  import opened Yuv
  import opened RemoteFrames
  import opened VideoEncoder

  datatype Pump = Pump(open: bool, config: Config, needsFullSeed: bool, image: Image, initialized: bool)

  const INITIAL_PUMP := Pump(false, Config(0, 0, 4_000_000, Yuv420p, 0), true, BLANK, false)

  /** What one iteration meets: send buffer backed up, target bitrate and profile, whether the encoder
      opens, and the slice (if any) before which FFmpeg cannot make its frame writable. */
  datatype Conditions = Conditions(congested: bool, bitrate: nat, profile: nat, opens: bool, failAt: Option<nat>)

  predicate FrameFits(f: RemoteFrame) {
    && f.format.Planar()
    && 0 < f.width < 0x2000_0000 && 0 < f.height < 0x8000_0000
    && f.slices != []
    && forall i | 0 <= i < |f.slices| :: SliceFits(f.slices[i], f)
  }

  predicate SameGeometry(config: Config, f: RemoteFrame) {
    config.width == f.width && config.height == f.height && config.format == f.format
  }

  predicate MustReopen(p: Pump, f: RemoteFrame, now: Conditions) {
    !p.open || !SameGeometry(p.config, f) || p.config.bitrate != now.bitrate || p.config.profile != now.profile
  }

  predicate SingleFull(f: RemoteFrame) {
    |f.slices| == 1 && IsFullSlice(f.slices[0], f.width, f.height)
  }

  /** The slices that get stamped: all of them unless FFmpeg refuses one. */
  function Applied(f: RemoteFrame, now: Conditions): RemoteFrame {
    if now.failAt.Some? && now.failAt.value < |f.slices| then f.(slices := f.slices[..now.failAt.value]) else f
  }

  predicate HasFull(f: RemoteFrame) {
    exists i | 0 <= i < |f.slices| :: IsFullSlice(f.slices[i], f.width, f.height)
  }

  function Reopened(p: Pump, f: RemoteFrame, now: Conditions): Pump {
    p.(open := now.opens, config := Config(f.width, f.height, now.bitrate, f.format, now.profile),
       image := BLANK, initialized := false)
  }

  function ApplyBatch(p: Pump, f: RemoteFrame, now: Conditions): Pump {
    p.(image := StampFrame(p.image, Applied(f, now)), initialized := p.initialized || HasFull(Applied(f, now)))
  }

  /** Stamping the batch onto an open encoder; a picture that is not whole asks for a new seed. */
  function Absorbed(p: Pump, f: RemoteFrame, now: Conditions): (Pump, bool) {
    var q := ApplyBatch(p, f, now);
    var whole := Applied(f, now) == f && q.initialized;
    (q.(needsFullSeed := !whole), whole)
  }

  /** One iteration after the drain: the new pump state and whether its picture went to the encoder. */
  function Iterated(p: Pump, batch: Option<RemoteFrame>, now: Conditions): (Pump, bool) {
    if batch.None? then (p, p.open && p.initialized && !now.congested)
    else if now.congested then (p, false)
    else if !MustReopen(p, batch.value, now) then Absorbed(p, batch.value, now)
    else
      var q := Reopened(p, batch.value, now);
      if !now.opens then (q, false)
      else if !SingleFull(batch.value) then (q.(needsFullSeed := true), false)
      else Absorbed(q, batch.value, now)
  }

  // ---- the pump itself

  class VideoPump {
    const encoder: Encoder
    var encoderOpen: bool
    var config: Config
    var needsFullSeed: bool

    ghost predicate Valid()
      reads this, encoder
    {
      encoder.Valid() && encoderOpen == encoder.isOpen && (encoderOpen ==> config == encoder.config)
    }

    /** The pump's state, given a picture that the encoder's frame displays. */
    ghost function View(img: Image): Pump
      reads this, encoder
    {
      Pump(encoderOpen, config, needsFullSeed, img, encoder.frameInitialized)
    }

    ghost predicate Displays(img: Image)
      reads this, encoder, encoder.planeY, encoder.planeU, encoder.planeV
    {
      encoderOpen ==> encoder.Displays(img)
    }

    constructor ()
      ensures Valid() && View(BLANK) == INITIAL_PUMP && Displays(BLANK) && fresh(encoder)
    {
      encoder := new Encoder();
      encoderOpen, config, needsFullSeed := false, INITIAL_PUMP.config, true;
    }

    /** Stamps one slice of a batch. */
    method ApplyOne(f: RemoteFrame, i: nat, writable: bool, ghost img: Image) returns (ok: bool)
      requires encoder.Valid() && encoder.isOpen && encoder.Displays(img)
      requires FrameFits(f) && SameGeometry(encoder.config, f) && i < |f.slices|
      modifies encoder`frameInitialized, encoder.planeY, encoder.planeU, encoder.planeV
      ensures encoder.Valid() && ok == writable
      ensures encoder.Displays(if ok then Stamp(img, f.slices[i], f.format, f.width, f.height) else img)
      ensures encoder.frameInitialized
           == (old(encoder.frameInitialized) || (ok && IsFullSlice(f.slices[i], f.width, f.height)))
    {
      assert SliceFits(f.slices[i], f);
      LayoutReadable(f.slices[i], f.format);
      ok := encoder.ApplySlice(f.slices[i], writable, img);
    }

    /** Stamps the slices in order until one fails. */
    method ApplySlices(f: RemoteFrame, now: Conditions, ghost img: Image) returns (ok: bool)
      requires Valid() && encoderOpen && Displays(img) && FrameFits(f) && SameGeometry(config, f)
      modifies encoder`frameInitialized, encoder.planeY, encoder.planeU, encoder.planeV
      ensures Valid() && Displays(StampFrame(img, Applied(f, now)))
      ensures ok == (Applied(f, now) == f)
      ensures encoder.frameInitialized == (old(encoder.frameInitialized) || HasFull(Applied(f, now)))
    {
      ghost var start := encoder.frameInitialized;
      ghost var shown := img;
      for i := 0 to |f.slices|
        invariant encoder.Valid() && encoder.isOpen && encoder.config == old(encoder.config)
        invariant unchanged(encoder`planeY) && unchanged(encoder`planeU) && unchanged(encoder`planeV)
        invariant now.failAt.Some? ==> now.failAt.value >= i
        invariant shown == StampFrame(img, f.(slices := f.slices[..i])) && encoder.Displays(shown)
        invariant encoder.frameInitialized == (start || HasFull(f.(slices := f.slices[..i])))
      {
        hide HasFull;
        assert f.slices[..i + 1][..i] == f.slices[..i];
        var done := ApplyOne(f, i, now.failAt != Some(i), shown);
        HasFullAppend(f, i);
        if !done { return false; }
        shown := Stamp(shown, f.slices[i], f.format, f.width, f.height);
      }
      assert f.slices[..|f.slices|] == f.slices;
      return true;
    }

    method Absorb(f: RemoteFrame, now: Conditions, ghost img: Image) returns (encoded: bool, ghost img': Image)
      requires Valid() && encoderOpen && Displays(img) && FrameFits(f) && SameGeometry(config, f)
      modifies `needsFullSeed, encoder`frameInitialized, encoder.planeY, encoder.planeU, encoder.planeV
      ensures Valid() && Displays(img')
      ensures (View(img'), encoded) == Absorbed(old(View(img)), f, now)
    {
      img' := StampFrame(img, Applied(f, now));
      var applied := ApplySlices(f, now, img);
      if !applied {
        needsFullSeed := true;
        return false, img';
      }
      if !encoder.frameInitialized {
        needsFullSeed := true;
        return false, img';
      }
      needsFullSeed := false;
      return true, img';
    }

    method Reopen(f: RemoteFrame, now: Conditions, ghost img: Image) returns (seeded: bool)
      requires Valid() && FrameFits(f)
      modifies this, encoder
      ensures Valid() && Displays(BLANK)
      ensures fresh(encoder.planeY) && fresh(encoder.planeU) && fresh(encoder.planeV)
      ensures seeded == (now.opens && SingleFull(f))
      ensures View(BLANK)
           == Reopened(old(View(img)), f, now).(needsFullSeed := old(needsFullSeed) || (now.opens && !seeded))
    {
      config := Config(f.width, f.height, now.bitrate, f.format, now.profile);
      encoderOpen := encoder.Open(config, now.opens);
      if !encoderOpen { return false; }
      if !encoder.frameInitialized
         && !(|f.slices| == 1 && f.slices[0].x == 0 && f.slices[0].y == 0
              && f.slices[0].width == f.width && f.slices[0].height == f.height) {
        needsFullSeed := true;
        return false;
      }
      return true;
    }

    /** The rest of an iteration once the reader has returned: `batch` is what it drained. */
    method Iterate(batch: Option<RemoteFrame>, now: Conditions, ghost img: Image)
      returns (encoded: bool, ghost img': Image)
      requires Valid() && Displays(img) && (batch.Some? ==> FrameFits(batch.value))
      modifies this, encoder, encoder.planeY, encoder.planeU, encoder.planeV
      ensures Valid() && Displays(img')
      ensures (View(img'), encoded) == Iterated(old(View(img)), batch, now)
    {
      if batch.None? && (!encoderOpen || !encoder.frameInitialized) { return false, img; }
      if now.congested { return false, img; }
      if batch.None? { return true, img; }
      var f := batch.value;
      if encoderOpen && config.width == f.width && config.height == f.height && config.bitrate == now.bitrate
         && config.format == f.format && config.profile == now.profile {
        encoded, img' := Absorb(f, now, img);
      } else {
        var seeded := Reopen(f, now, img);
        if !seeded { return false, BLANK; }
        encoded, img' := Absorb(f, now, BLANK);
      }
    }
  }

  lemma HasFullAppend(f: RemoteFrame, i: nat)
    requires i < |f.slices|
    ensures HasFull(f.(slices := f.slices[..i + 1]))
            == (HasFull(f.(slices := f.slices[..i])) || IsFullSlice(f.slices[i], f.width, f.height))
  {
    var now, next := f.(slices := f.slices[..i]), f.(slices := f.slices[..i + 1]);
    if HasFull(now) {
      var k :| 0 <= k < i && IsFullSlice(now.slices[k], f.width, f.height);
      assert IsFullSlice(next.slices[k], f.width, f.height);
    }
    if IsFullSlice(f.slices[i], f.width, f.height) {
      assert IsFullSlice(next.slices[i], f.width, f.height);
    }
    if HasFull(next) {
      var k :| 0 <= k <= i && IsFullSlice(next.slices[k], f.width, f.height);
      if k < i {
        assert IsFullSlice(now.slices[k], f.width, f.height);
      }
    }
  }
}
