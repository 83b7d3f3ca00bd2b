/** The audio pump's staging buffer: PCM samples wait in a vector with a read offset that is compacted
    lazily, and leave it in 20 ms frames. A plain queue says what it stands for. */
module PcmWindow {
  import opened Sequences

  const SAMPLE_RATE: nat := 48000
  const FRAME_US: nat := 20_000
  const FRAME_PER_CHANNEL: nat := 960
  const MAX_BUFFERED_FRAMES: nat := 5
  const COMPACT_MIN: nat := 4096

  type Samples = seq<int>

  datatype Chunk = Chunk(sampleRate: nat, channels: nat, pcm: Samples)

  /** What happens to one frame: the track is backed up, the encoder fails, there is no track, sending
      throws, or it is sent. The list of outcomes of a chunk ends when the pump is told to stop. */
  datatype Outcome = Backlogged | EncodeFails | NoTrack | SendThrows | Sends

  datatype Frame = Frame(ptsUs: nat, samples: Samples)

  /** The pump as a plain queue, with its history since the encoder was opened. */
  datatype Pump = Pump(open: bool, channels: nat, queue: Samples, ptsUs: nat,
                       received: Samples, sent: nat, dropped: nat, failed: nat, log: seq<Frame>)

  const INITIAL := Pump(false, 0, [], 0, [], 0, 0, 0, [])

  function FrameSamples(p: Pump): nat {
    FRAME_PER_CHANNEL * p.channels
  }

  predicate Supported(c: Chunk) {
    c.sampleRate == SAMPLE_RATE && 1 <= c.channels <= 2
  }

  function Consumed(p: Pump): Pump
    requires FrameSamples(p) <= |p.queue|
  {
    p.(queue := p.queue[FrameSamples(p)..], ptsUs := p.ptsUs + FRAME_US)
  }

  function DropExcess(p: Pump): (r: Pump)
    requires p.channels > 0
    ensures r.channels == p.channels && |r.queue| <= FrameSamples(p) * MAX_BUFFERED_FRAMES
    decreases |p.queue|
  {
    if |p.queue| > FrameSamples(p) * MAX_BUFFERED_FRAMES then DropExcess(Consumed(p).(dropped := p.dropped + 1))
    else p
  }

  /** Without a track or when sending throws, the frame stays and the round ends. */
  predicate Stops(o: Outcome) {
    o == NoTrack || o == SendThrows
  }

  /** A frame that left the queue, by its outcome. */
  function Settled(p: Pump, o: Outcome): Pump
    requires FrameSamples(p) <= |p.queue| && !Stops(o)
  {
    match o
    case Backlogged => Consumed(p).(dropped := p.dropped + 1)
    case EncodeFails => Consumed(p).(failed := p.failed + 1)
    case Sends => Consumed(p).(sent := p.sent + 1, log := p.log + [Frame(p.ptsUs, p.queue[..FrameSamples(p)])])
  }

  function SendFrames(p: Pump, outcomes: seq<Outcome>): (r: Pump)
    requires p.channels > 0
    ensures |r.queue| <= |p.queue| && r.channels == p.channels
    decreases |outcomes|
  {
    if |p.queue| < FrameSamples(p) || outcomes == [] || Stops(outcomes[0]) then p
    else SendFrames(Settled(p, outcomes[0]), outcomes[1..])
  }

  function Reopened(p: Pump, c: Chunk, opens: bool): Pump {
    if !p.open || p.channels != c.channels then INITIAL.(open := opens, channels := c.channels) else p
  }

  function Queued(p: Pump, pcm: Samples): Pump {
    p.(queue := p.queue + pcm, received := p.received + pcm)
  }

  function Processed(p: Pump, c: Chunk, opens: bool, outcomes: seq<Outcome>): Pump {
    if !Supported(c) then p
    else
      var q := Reopened(p, c, opens);
      if !q.open then q else SendFrames(DropExcess(Queued(q, c.pcm)), outcomes)
  }

  // ---- the window itself

  class AudioPump {
    var encoderOpen: bool
    var channels: nat
    var pcmBuffer: Samples
    var pcmReadOffset: nat
    var ptsUs: nat
    ghost var history: Pump

    ghost predicate Valid()
      reads this
    {
      pcmReadOffset <= |pcmBuffer|
    }

    /** The queue the window stands for. */
    ghost function View(): Pump
      requires Valid()
      reads this
    {
      history.(open := encoderOpen, channels := channels, queue := pcmBuffer[pcmReadOffset..], ptsUs := ptsUs)
    }

    constructor ()
      ensures Valid() && View() == INITIAL
    {
      encoderOpen, channels, pcmBuffer, pcmReadOffset, ptsUs := false, 0, [], 0, 0;
      history := INITIAL;
    }

    /** `pcm_advance`: drops `consumed` samples from the front; what is wasted before the offset is bounded. */
    method Advance(consumed: nat)
      requires Valid() && pcmReadOffset + consumed <= |pcmBuffer|
      modifies `pcmBuffer, `pcmReadOffset
      ensures Valid() && pcmBuffer[pcmReadOffset..] == old(pcmBuffer[pcmReadOffset..])[consumed..]
      ensures var available := |pcmBuffer| - pcmReadOffset;
              |pcmBuffer| <= 2 * available || |pcmBuffer| <= available + 4096
    {
      pcmReadOffset := pcmReadOffset + consumed;
      if pcmReadOffset >= |pcmBuffer| {
        pcmBuffer := [];
        pcmReadOffset := 0;
      } else if pcmReadOffset >= |pcmBuffer| / 2 && pcmReadOffset >= COMPACT_MIN {
        pcmBuffer := pcmBuffer[pcmReadOffset..];
        pcmReadOffset := 0;
      }
    }

    method ConsumeFrame()
      requires Valid() && FrameSamples(View()) <= |View().queue|
      modifies `pcmBuffer, `pcmReadOffset, `ptsUs
      ensures Valid() && View() == Consumed(old(View()))
    {
      Advance(FRAME_PER_CHANNEL * channels);
      ptsUs := ptsUs + FRAME_US;
    }

    method DropBacklog()
      requires Valid() && channels > 0
      modifies `pcmBuffer, `pcmReadOffset, `ptsUs, `history
      ensures Valid() && View() == DropExcess(old(View()))
    {
      while |pcmBuffer| - pcmReadOffset > FRAME_PER_CHANNEL * channels * MAX_BUFFERED_FRAMES
        invariant Valid() && channels == old(channels) && DropExcess(View()) == DropExcess(old(View()))
        decreases |pcmBuffer| - pcmReadOffset
      {
        ConsumeFrame();
        history := history.(dropped := history.dropped + 1);
      }
    }

    method SettleFrame(o: Outcome)
      requires Valid() && FrameSamples(View()) <= |View().queue| && !Stops(o)
      modifies `pcmBuffer, `pcmReadOffset, `ptsUs, `history
      ensures Valid() && View() == Settled(old(View()), o)
    {
      ghost var frame := Frame(ptsUs, View().queue[..FRAME_PER_CHANNEL * channels]);
      ConsumeFrame();
      if o == Backlogged {
        history := history.(dropped := history.dropped + 1);
      } else if o == EncodeFails {
        history := history.(failed := history.failed + 1);
      } else {
        history := history.(sent := history.sent + 1, log := history.log + [frame]);
      }
    }

    method SendQueued(outcomes: seq<Outcome>)
      requires Valid() && channels > 0
      modifies `pcmBuffer, `pcmReadOffset, `ptsUs, `history
      ensures Valid() && View() == SendFrames(old(View()), outcomes)
    {
      var rest := outcomes;
      while |pcmBuffer| - pcmReadOffset >= FRAME_PER_CHANNEL * channels && rest != []
        invariant Valid() && channels == old(channels) && SendFrames(View(), rest) == SendFrames(old(View()), outcomes)
        decreases |rest|
      {
        if rest[0] == NoTrack || rest[0] == SendThrows { break; }
        SettleFrame(rest[0]);
        rest := rest[1..];
      }
    }

    /** One round of the pump with a chunk taken from the audio queue. */
    method Process(c: Chunk, opens: bool, outcomes: seq<Outcome>)
      requires Valid()
      modifies this
      ensures Valid() && View() == Processed(old(View()), c, opens, outcomes)
    {
      if c.sampleRate != SAMPLE_RATE || c.channels == 0 || c.channels > 2 { return; }
      if !encoderOpen || channels != c.channels {
        encoderOpen, channels := opens, c.channels;
        pcmBuffer, pcmReadOffset, ptsUs := [], 0, 0;
        history := INITIAL;
        if !encoderOpen { return; }
      }
      ghost var before := View();
      pcmBuffer := pcmBuffer + c.pcm;
      history := history.(received := history.received + c.pcm);
      assert View() == Queued(before, c.pcm);
      DropBacklog();
      SendQueued(outcomes);
    }
  }

  // ---- every run of the pump

  datatype Round = Round(chunk: Chunk, opens: bool, outcomes: seq<Outcome>)

  function Run(rounds: seq<Round>): Pump {
    if rounds == [] then INITIAL
    else
      var r := rounds[|rounds| - 1];
      Processed(Run(rounds[..|rounds| - 1]), r.chunk, r.opens, r.outcomes)
  }

  function Frames(p: Pump): nat {
    p.sent + p.dropped + p.failed
  }

  /** The frame with the given number of what was received. */
  function FrameAt(p: Pump, k: nat): Samples
    requires (k + 1) * FrameSamples(p) <= |p.received|
  {
    p.received[k * FrameSamples(p)..(k + 1) * FrameSamples(p)]
  }

  /** A sent frame is a frame of what was received, at its own time. */
  ghost predicate InPlace(p: Pump, f: Frame) {
    exists k: nat | k < Frames(p) && (k + 1) * FrameSamples(p) <= |p.received| ::
      f == Frame(FRAME_US * k, FrameAt(p, k))
  }

  /** Nothing is lost or reordered: what was received is the consumed frames followed by the queue; the
      clock counts consumed frames; every sent frame is in place, in increasing order. */
  ghost predicate Conserved(p: Pump) {
    && Frames(p) * FrameSamples(p) <= |p.received|
    && p.queue == p.received[Frames(p) * FrameSamples(p)..]
    && p.ptsUs == FRAME_US * Frames(p)
    && |p.log| == p.sent
    && (forall f | f in p.log :: InPlace(p, f))
    && (forall i, j | 0 <= i < j < |p.log| :: p.log[i].ptsUs < p.log[j].ptsUs)
    && (forall f | f in p.log :: f.ptsUs < p.ptsUs)
  }

  lemma InPlaceLater(p: Pump, q: Pump, f: Frame)
    requires InPlace(p, f) && q.channels == p.channels && p.received <= q.received && Frames(p) <= Frames(q)
    ensures InPlace(q, f)
  {
    var k: nat :| k < Frames(p) && (k + 1) * FrameSamples(p) <= |p.received| && f == Frame(FRAME_US * k, FrameAt(p, k));
    assert (k + 1) * FrameSamples(q) <= |q.received|;
    Monotone(k, k + 1, FrameSamples(p));
    assert FrameAt(q, k) == FrameAt(p, k);
  }

  lemma Monotone(a: nat, b: nat, n: nat)
    requires a <= b
    ensures a * n <= b * n
  {
  }

  lemma NextFrame(p: Pump)
    requires Conserved(p) && FrameSamples(p) <= |p.queue|
    ensures var n, size := Frames(p), FrameSamples(p);
            && (n + 1) * size == n * size + size <= |p.received|
            && p.queue[size..] == p.received[(n + 1) * size..]
            && p.queue[..size] == FrameAt(p, n)
  {
    var n, size := Frames(p), FrameSamples(p);
    assert (n + 1) * size == n * size + size;
  }

  /** A frame that leaves the queue keeps the balance, whichever counter it goes to. */
  lemma SettleConserves(p: Pump, o: Outcome)
    requires Conserved(p) && 0 < FrameSamples(p) <= |p.queue| && !Stops(o)
    ensures Conserved(Settled(p, o))
  {
    var q := Settled(p, o);
    NextFrame(p);
    forall f | f in q.log
      ensures InPlace(q, f)
    {
      if f in p.log {
        InPlaceLater(p, q, f);
      } else {
        assert f == Frame(FRAME_US * Frames(p), FrameAt(q, Frames(p)));
      }
    }
  }

  lemma {:induction false} DropConserves(p: Pump)
    requires Conserved(p) && p.channels > 0
    ensures Conserved(DropExcess(p))
    decreases |p.queue|
  {
    if |p.queue| > FrameSamples(p) * MAX_BUFFERED_FRAMES {
      SettleConserves(p, Backlogged);
      DropConserves(Settled(p, Backlogged));
    }
  }

  lemma {:induction false} SendFramesConserves(p: Pump, outcomes: seq<Outcome>)
    requires Conserved(p) && p.channels > 0
    ensures Conserved(SendFrames(p, outcomes))
    decreases |outcomes|
  {
    if |p.queue| >= FrameSamples(p) && outcomes != [] && !Stops(outcomes[0]) {
      SettleConserves(p, outcomes[0]);
      SendFramesConserves(Settled(p, outcomes[0]), outcomes[1..]);
    }
  }

  lemma QueueConserves(p: Pump, pcm: Samples)
    requires Conserved(p)
    ensures Conserved(Queued(p, pcm))
  {
    var q := Queued(p, pcm);
    var n := Frames(p) * FrameSamples(p);
    assert (p.received + pcm)[n..] == p.received[n..] + pcm;
    forall f | f in q.log
      ensures InPlace(q, f)
    {
      InPlaceLater(p, q, f);
    }
  }

  ghost predicate Bounded(p: Pump) {
    Conserved(p) && |p.queue| <= FrameSamples(p) * MAX_BUFFERED_FRAMES
  }

  lemma ReopenConserves(p: Pump, c: Chunk, opens: bool)
    requires Bounded(p)
    ensures Bounded(Reopened(p, c, opens))
  {
  }

  lemma ProcessConserves(p: Pump, c: Chunk, opens: bool, outcomes: seq<Outcome>)
    requires Bounded(p)
    ensures Bounded(Processed(p, c, opens, outcomes))
  {
    if Supported(c) {
      ReopenConserves(p, c, opens);
      var q := Reopened(p, c, opens);
      if q.open {
        QueueConserves(q, c.pcm);
        DropConserves(Queued(q, c.pcm));
        SendFramesConserves(DropExcess(Queued(q, c.pcm)), outcomes);
      }
    }
  }

  lemma {:induction false} RunBounded(rounds: seq<Round>)
    ensures Bounded(Run(rounds))
  {
    if rounds != [] {
      RunBounded(rounds[..|rounds| - 1]);
      var r := rounds[|rounds| - 1];
      ProcessConserves(Run(rounds[..|rounds| - 1]), r.chunk, r.opens, r.outcomes);
    }
  }

  /** In every run: samples received since the encoder was opened are the frame size times the frames sent,
      dropped and failed, plus those still queued; the clock is 20 ms times the frames consumed; every sent
      frame is exactly the samples of its time slot; and at most five frames wait. */
  lemma RunConserves(rounds: seq<Round>)
    ensures var p := Run(rounds);
            && |p.received| == FrameSamples(p) * (p.sent + p.dropped + p.failed) + |p.queue|
            && p.ptsUs == FRAME_US * (p.sent + p.dropped + p.failed)
            && (forall f | f in p.log :: InPlace(p, f))
            && |p.queue| <= 5 * FrameSamples(p) && FrameSamples(p) == 960 * p.channels
  {
    RunBounded(rounds);
    Balance(Run(rounds));
  }

  lemma Balance(p: Pump)
    requires Bounded(p)
    ensures |p.received| == FrameSamples(p) * (p.sent + p.dropped + p.failed) + |p.queue|
    ensures p.ptsUs == FRAME_US * (p.sent + p.dropped + p.failed)
    ensures forall f | f in p.log :: InPlace(p, f)
    ensures |p.queue| <= FrameSamples(p) * MAX_BUFFERED_FRAMES
  {
    Commute(Frames(p), FrameSamples(p));
  }

  lemma Commute(a: nat, b: nat)
    ensures a * b == b * a
  {
  }

  // ---- what the rounds say

  /** A frame is twenty milliseconds of one channel. */
  lemma FrameIsTwentyMilliseconds()
    ensures FRAME_PER_CHANNEL * 1_000_000 == SAMPLE_RATE * FRAME_US && FRAME_US == 20 * 1000
  {
  }

  /** What came in since the encoder was last opened, and for how many channels. */
  datatype Heard = Heard(open: bool, channels: nat, samples: Samples)

  function HeardSince(rounds: seq<Round>): Heard {
    if rounds == [] then Heard(false, 0, [])
    else
      var before, r := HeardSince(rounds[..|rounds| - 1]), rounds[|rounds| - 1];
      if r.chunk.sampleRate != 48000 || r.chunk.channels !in {1, 2} then before
      else if before.open && before.channels == r.chunk.channels then before.(samples := before.samples + r.chunk.pcm)
      else Heard(r.opens, r.chunk.channels, if r.opens then r.chunk.pcm else [])
  }

  /** In every run the samples received are those of the supported chunks since the last opening. */
  lemma {:induction false} RunHears(rounds: seq<Round>)
    ensures var p, h := Run(rounds), HeardSince(rounds);
            p.open == h.open && p.channels == h.channels && p.received == h.samples
  {
    if rounds != [] {
      var before, r := rounds[..|rounds| - 1], rounds[|rounds| - 1];
      RunHears(before);
      ProcessHears(Run(before), r.chunk, r.opens, r.outcomes);
    }
  }

  lemma ProcessHears(p: Pump, c: Chunk, opens: bool, outcomes: seq<Outcome>)
    ensures var q := Processed(p, c, opens, outcomes);
            if c.sampleRate != 48000 || c.channels !in {1, 2} then q == p
            else
              && q.channels == c.channels && q.open == ((p.open && p.channels == c.channels) || opens)
              && q.received == if p.open && p.channels == c.channels then p.received + c.pcm
                               else if opens then c.pcm else []
  {
    if Supported(c) {
      var q := Reopened(p, c, opens);
      if q.open {
        DropKeeps(Queued(q, c.pcm));
        SendKeeps(DropExcess(Queued(q, c.pcm)), outcomes);
      }
    }
  }

  lemma {:induction false} DropKeeps(p: Pump)
    requires p.channels > 0
    ensures var r := DropExcess(p); r.open == p.open && r.received == p.received
    decreases |p.queue|
  {
    if |p.queue| > FrameSamples(p) * MAX_BUFFERED_FRAMES { DropKeeps(Consumed(p).(dropped := p.dropped + 1)); }
  }

  lemma {:induction false} SendKeeps(p: Pump, outcomes: seq<Outcome>)
    requires p.channels > 0
    ensures var r := SendFrames(p, outcomes); r.open == p.open && r.received == p.received
    decreases |outcomes|
  {
    if |p.queue| >= FrameSamples(p) && outcomes != [] && !Stops(outcomes[0]) {
      SendKeeps(Settled(p, outcomes[0]), outcomes[1..]);
    }
  }

  /** The backlog loop drops whole frames from the front, and no more than it must. */
  lemma {:induction false} DropsJustEnough(p: Pump) returns (d: nat)
    requires p.channels > 0
    ensures var r, size := DropExcess(p), FrameSamples(p);
            && d * size <= |p.queue| && r.queue == p.queue[d * size..] && r.dropped == p.dropped + d
            && r.sent == p.sent && r.failed == p.failed && r.log == p.log && r.ptsUs == p.ptsUs + FRAME_US * d
            && (d > 0 ==> |p.queue| - (d - 1) * size > MAX_BUFFERED_FRAMES * size)
    decreases |p.queue|
  {
    var size := FrameSamples(p);
    d := 0;
    if |p.queue| > size * MAX_BUFFERED_FRAMES {
      var next := Consumed(p).(dropped := p.dropped + 1);
      var e := DropsJustEnough(next);
      d := e + 1;
      OneMore(e, size);
      if e > 0 { OneMore(e - 1, size); }
      DropDrop(p.queue, size, e * size);
    }
  }

  lemma OneMore(e: nat, size: nat)
    ensures (e + 1) * size == size + e * size
  {
  }

  function Count(outcomes: seq<Outcome>, o: Outcome): nat {
    if outcomes == [] then 0 else (if outcomes[0] == o then 1 else 0) + Count(outcomes[1..], o)
  }

  /** How many frames a round handles: those that are complete, up to the first that cannot be sent or the end
      of the round. */
  function Handled(frames: nat, outcomes: seq<Outcome>): (k: nat)
    ensures k <= frames && k <= |outcomes|
    decreases |outcomes|
  {
    if frames == 0 || outcomes == [] || outcomes[0] in {NoTrack, SendThrows} then 0
    else 1 + Handled(frames - 1, outcomes[1..])
  }

  /** `r` is `p` with `k` frames taken off the queue, each counted by what became of it. */
  ghost predicate Took(p: Pump, r: Pump, outcomes: seq<Outcome>, k: nat) {
    && k <= |outcomes| && k * FrameSamples(p) <= |p.queue| && r.queue == p.queue[k * FrameSamples(p)..]
    && r.ptsUs == p.ptsUs + FRAME_US * k
    && r.sent == p.sent + Count(outcomes[..k], Sends)
    && r.dropped == p.dropped + Count(outcomes[..k], Backlogged)
    && r.failed == p.failed + Count(outcomes[..k], EncodeFails)
    && |r.log| == |p.log| + Count(outcomes[..k], Sends)
  }

  /** The sending loop takes exactly so many frames off the queue and counts each by what became of it; in
      particular a complete frame that can be sent is sent. */
  lemma {:induction false} SendsExactly(p: Pump, outcomes: seq<Outcome>, frames: nat)
    requires p.channels > 0 && frames * FrameSamples(p) <= |p.queue| < frames * FrameSamples(p) + FrameSamples(p)
    ensures Took(p, SendFrames(p, outcomes), outcomes, Handled(frames, outcomes))
    decreases |outcomes|
  {
    hide Took;
    var size := FrameSamples(p);
    CompleteFrames(|p.queue|, size, frames);
    if frames > 0 && outcomes != [] && !Stops(outcomes[0]) {
      var next := Settled(p, outcomes[0]);
      OneMore(frames - 1, size);
      SendsExactly(next, outcomes[1..], frames - 1);
      TookOneMore(p, SendFrames(p, outcomes), outcomes, Handled(frames - 1, outcomes[1..]));
    } else {
      TookNone(p, outcomes);
    }
  }

  lemma TookNone(p: Pump, outcomes: seq<Outcome>)
    ensures Took(p, p, outcomes, 0)
  {
    assert outcomes[..0] == [];
  }

  lemma TookOneMore(p: Pump, r: Pump, outcomes: seq<Outcome>, k: nat)
    requires outcomes != [] && !Stops(outcomes[0]) && FrameSamples(p) <= |p.queue|
    requires Took(Settled(p, outcomes[0]), r, outcomes[1..], k)
    ensures Took(p, r, outcomes, k + 1)
  {
    hide Count;
    var size := FrameSamples(p);
    OneMore(k, size);
    DropDrop(p.queue, size, k * size);
    CountFirst(outcomes, k, Sends);
    CountFirst(outcomes, k, Backlogged);
    CountFirst(outcomes, k, EncodeFails);
  }

  lemma CountFirst(outcomes: seq<Outcome>, k: nat, o: Outcome)
    requires k < |outcomes|
    ensures Count(outcomes[..k + 1], o) == (if outcomes[0] == o then 1 else 0) + Count(outcomes[1..][..k], o)
  {
    assert outcomes[..k + 1][1..] == outcomes[1..][..k];
  }

  lemma CompleteFrames(n: nat, size: nat, frames: nat)
    requires frames * size <= n < frames * size + size
    ensures n < size <==> frames == 0
  {
    if frames > 0 { OneMore(frames - 1, size); }
  }

  /** The sent frames come one after another in the order of their time slots. */
  lemma SentInOrder(rounds: seq<Round>)
    ensures var p := Run(rounds);
            |p.log| == p.sent && forall i, j | 0 <= i < j < |p.log| :: p.log[i].ptsUs < p.log[j].ptsUs
  {
    RunBounded(rounds);
  }
}
