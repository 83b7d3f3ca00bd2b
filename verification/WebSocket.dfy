/** The cloud tunnel's WebSocket text frames, as in section 5.2 of RFC 6455. */
module WebSocket {
  import opened Options
  import opened Sequences
  import opened Bits
  import opened Bytes
  import opened Sockets

  // ---- masking

  /** Exclusive or of the low `n` bits, from the lowest up. */
  function XorBits(a: nat, b: nat, n: nat): (r: nat)
    ensures r < Power2(n)
  {
    if n == 0 then 0
    else (if a % 2 == b % 2 then 0 else 1) + 2 * XorBits(a / 2, b / 2, n - 1)
  }

  lemma {:induction false} XorBitsTwice(a: nat, b: nat, n: nat)
    requires a < Power2(n)
    ensures XorBits(XorBits(a, b, n), b, n) == a
  {
    if n > 0 {
      var r := XorBits(a / 2, b / 2, n - 1);
      assert XorBits(a, b, n) / 2 == r;
      XorBitsTwice(a / 2, b / 2, n - 1);
    }
  }

  /** What the operation is: a bit of the result is set exactly when the two bits differ. */
  lemma {:induction false} XorBitsIs(a: nat, b: nat, n: nat, k: nat)
    requires k < n
    ensures Bit(XorBits(a, b, n), k) == 1 <==> Bit(a, k) != Bit(b, k)
  {
    if k > 0 { XorBitsIs(a / 2, b / 2, n - 1, k - 1); }
  }

  function Xor(a: byte, b: byte): byte {
    SmallPowers();
    XorBits(a, b, 8)
  }

  function Masked(payload: seq<byte>, mask: seq<byte>): (r: seq<byte>)
    requires |mask| == 4
    ensures |r| == |payload|
  {
    seq(|payload|, i requires 0 <= i < |payload| => Xor(payload[i], mask[i % 4]))
  }

  lemma Unmasked(payload: seq<byte>, mask: seq<byte>)
    requires |mask| == 4
    ensures Masked(Masked(payload, mask), mask) == payload
  {
    SmallPowers();
    forall i | 0 <= i < |payload|
      ensures Masked(Masked(payload, mask), mask)[i] == payload[i]
    {
      XorBitsTwice(payload[i], mask[i % 4], 8);
    }
  }

  /** Bit by bit, the masked payload differs from the payload where the mask byte of its position has a one. */
  lemma MaskedBits(payload: seq<byte>, mask: seq<byte>, i: nat, k: nat)
    requires |mask| == 4 && i < |payload| && k < 8
    ensures Bit(Masked(payload, mask)[i], k) == 1 <==> Bit(payload[i], k) != Bit(mask[i % 4], k)
  {
    XorBitsIs(payload[i], mask[i % 4], 8, k);
  }

  method ApplyMask(data: seq<byte>, mask: seq<byte>) returns (out: seq<byte>)
    requires |mask| == 4
    ensures out == Masked(data, mask)
  {
    out := [];
    for i := 0 to |data|
      invariant out == Masked(data, mask)[..i]
    {
      out := out + [Xor(data[i], mask[i % 4])];
    }
  }

  // ---- frames

  const CLIENT_MASK: seq<byte> := [0x12, 0x34, 0x56, 0x78]
  const MAX_PAYLOAD: nat := 0xffff

  /** The two leading bytes and the 16-bit length when there is one. `flags` are the four bits above the
      opcode of a text frame. */
  function Header(flags: nat, masked: bool, len: nat): (h: seq<byte>)
    requires flags < 16 && len <= MAX_PAYLOAD
  {
    var top := if masked then 128 else 0;
    if len < 126 then [flags * 16 + 1, top + len] else [flags * 16 + 1, top + 126] + BigEndian16(len)
  }

  /** A text frame, masked when it comes from a client. */
  function Frame(flags: nat, mask: Option<seq<byte>>, payload: seq<byte>): seq<byte>
    requires flags < 16 && |payload| <= MAX_PAYLOAD && (mask.Some? ==> |mask.value| == 4)
  {
    Header(flags, mask.Some?, |payload|)
    + match mask { case Some(m) => m + Masked(payload, m) case None => payload }
  }

  /** What the tunnel sends for a payload. */
  function TunnelFrame(payload: seq<byte>): seq<byte>
    requires |payload| <= MAX_PAYLOAD
  {
    Frame(8, Some(CLIENT_MASK), payload)
  }

  function Body(s: seq<byte>, masked: bool, len: nat): (Option<seq<byte>>, seq<byte>) {
    var (mask, s1) := if masked then Take(s, 4) else (Some([0, 0, 0, 0]), s);
    if mask.None? then (None, s1)
    else
      var (payload, s2) := Take(s1, len);
      if payload.None? then (None, s2)
      else (Some(if masked then Masked(payload.value, mask.value) else payload.value), s2)
  }

  function AfterLength(s: seq<byte>, masked: bool, len7: nat): (Option<seq<byte>>, seq<byte>) {
    if len7 == 126 then
      var (ext, s1) := Take(s, 2);
      if ext.None? then (None, s1) else Body(s1, masked, Read16(ext.value))
    else if len7 == 127 then (None, s)
    else Body(s, masked, len7)
  }

  /** The payload of the frame at the front of a stream, and what is left of the stream. */
  function Parsed(s: seq<byte>): (Option<seq<byte>>, seq<byte>) {
    var (h, s1) := Take(s, 2);
    if h.None? then (None, s1)
    else if h.value[0] % 16 != 1 then (None, s1)
    else AfterLength(s1, h.value[1] >= 128, h.value[1] % 128)
  }

  class Tunnel {
    const source: Source<byte>
    const sink: Sink<byte>
    var connected: bool

    constructor (source: Source<byte>, sink: Sink<byte>)
      ensures this.source == source && this.sink == sink && !connected
    {
      this.source, this.sink, connected := source, sink, false;
    }

    /** Nothing is written for a payload over 65535 bytes or before the handshake is over. */
    method SendText(payload: seq<byte>) returns (ok: bool)
      modifies sink
      ensures !connected || |payload| > MAX_PAYLOAD ==> !ok && sink.sent == old(sink.sent)
      ensures connected && |payload| <= MAX_PAYLOAD ==>
        Delivered(old(sink.sent), TunnelFrame(payload), sink.sent, ok)
    {
      if !connected { return false; }
      var frame: seq<byte> := [0x81];
      if |payload| < 126 {
        frame := frame + [0x80 + |payload|];
      } else if |payload| <= MAX_PAYLOAD {
        frame := frame + [0x80 + 126];
        frame := frame + [|payload| / 256, |payload| % 256];
      } else {
        return false;
      }
      assert frame == Header(8, true, |payload|);
      frame := frame + CLIENT_MASK;
      var body := ApplyMask(payload, CLIENT_MASK);
      Associative(Header(8, true, |payload|), CLIENT_MASK, body);
      frame := frame + body;
      ok := SendAll(sink, frame);
    }

    method ReadBody(masked: bool, len: nat) returns (payload: Option<seq<byte>>)
      modifies source
      ensures (payload, source.pending) == Body(old(source.pending), masked, len)
    {
      var mask: seq<byte> := [0, 0, 0, 0];
      if masked {
        var m := ReceiveAll(source, 4);
        if m.None? { return None; }
        mask := m.value;
      }
      payload := Some([]);
      if len > 0 {
        payload := ReceiveAll(source, len);
        if payload.None? { return; }
      }
      assert (payload, source.pending) == Take(source.pending, 0) || len > 0;
      if masked {
        var data := ApplyMask(payload.value, mask);
        payload := Some(data);
      }
    }

    method ReadText() returns (payload: Option<seq<byte>>)
      modifies source
      ensures (payload, source.pending) == Parsed(old(source.pending))
    {
      var header := ReceiveAll(source, 2);
      if header.None? { return None; }
      var opcode := header.value[0] % 16;
      if opcode == 8 { return None; }
      if opcode != 1 { return None; }
      var masked := header.value[1] >= 128;
      var len: nat := header.value[1] % 128;
      if len == 126 {
        var ext := ReceiveAll(source, 2);
        if ext.None? { return None; }
        len := Read16(ext.value);
      } else if len == 127 {
        return None;
      }
      payload := ReadBody(masked, len);
    }
  }

  // ---- round trip

  lemma TakeFront(a: seq<byte>, rest: seq<byte>)
    ensures Take(a + rest, |a|) == (Some(a), rest)
  {
  }

  lemma BodyRoundTrip(mask: Option<seq<byte>>, payload: seq<byte>, rest: seq<byte>)
    requires mask.Some? ==> |mask.value| == 4
    ensures var body := match mask { case Some(m) => m + Masked(payload, m) case None => payload };
      Body(body + rest, mask.Some?, |payload|) == (Some(payload), rest)
  {
    match mask
    case Some(m) =>
      Associative(m, Masked(payload, m), rest);
      TakeFront(m, Masked(payload, m) + rest);
      TakeFront(Masked(payload, m), rest);
      Unmasked(payload, m);
    case None =>
      TakeFront(payload, rest);
  }

  /** A text frame is read back, and nothing after it is touched, with any mask or none. */
  lemma FrameRoundTrip(flags: nat, mask: Option<seq<byte>>, payload: seq<byte>, rest: seq<byte>)
    requires flags < 16 && |payload| <= MAX_PAYLOAD && (mask.Some? ==> |mask.value| == 4)
    ensures Parsed(Frame(flags, mask, payload) + rest) == (Some(payload), rest)
  {
    hide Masked, Body, BigEndian16, Take;
    var body := match mask { case Some(m) => m + Masked(payload, m) case None => payload };
    var len := |payload|;
    var first: seq<byte> := [flags * 16 + 1, (if mask.Some? then 128 else 0) + (if len < 126 then len else 126)];
    Associative(Header(flags, mask.Some?, len), body, rest);
    BodyRoundTrip(mask, payload, rest);
    if len < 126 {
      TakeFront(first, body + rest);
    } else {
      Associative(first, BigEndian16(len), body + rest);
      TakeFront(first, BigEndian16(len) + (body + rest));
      TakeFront(BigEndian16(len), body + rest);
    }
  }

  // ---- the layout of section 5.2 of RFC 6455, by offsets

  /** The frame has the 16-bit length. */
  predicate Wide(s: seq<byte>)
    requires |s| >= 2
  {
    s[1] % 128 == 126
  }

  /** Offset of the payload: two bytes, two more of length, four more of mask. */
  function Start(s: seq<byte>): nat
    requires |s| >= 2
  {
    2 + (if Wide(s) then 2 else 0) + (if s[1] >= 128 then 4 else 0)
  }

  function Length(s: seq<byte>): nat
    requires |s| >= 2 && (Wide(s) ==> |s| >= 4)
  {
    if Wide(s) then s[2] as nat * 256 + s[3] as nat else s[1] as nat % 128
  }

  /** A whole text frame stands at the front of the stream. */
  predicate WholeFrame(s: seq<byte>) {
    && |s| >= 2 && s[0] % 16 == 1 && s[1] % 128 != 127
    && (Wide(s) ==> |s| >= 4) && |s| >= Start(s) + Length(s)
  }

  /** A stream is read exactly when a whole text frame of a supported length stands at its front; the payload
      is then the bytes at its offset, unmasked with the four bytes before them when the mask bit is set. */
  lemma ParsedIff(s: seq<byte>)
    ensures Parsed(s).0.Some? <==> WholeFrame(s)
    ensures WholeFrame(s) ==>
              var start, n := Start(s), Length(s);
              && Parsed(s).1 == s[start + n..]
              && Parsed(s).0.value == if s[1] >= 128 then Masked(s[start..start + n], s[start - 4..start])
                                      else s[start..start + n]
  {
    hide Body, Masked;
    if |s| >= 2 && s[0] % 16 == 1 && s[1] % 128 != 127 {
      FrontBytes(s);
      if !Wide(s) {
        BodyIff(s, 2, s[1] >= 128, s[1] as nat % 128);
      } else if |s| >= 4 {
        BodyIff(s, 4, s[1] >= 128, Length(s));
      }
    }
  }

  /** The parser at the front of a text frame whose length is supported. */
  lemma FrontBytes(s: seq<byte>)
    requires |s| >= 2 && s[0] % 16 == 1 && s[1] % 128 != 127
    ensures !Wide(s) ==> Parsed(s) == Body(s[2..], s[1] >= 128, s[1] as nat % 128)
    ensures Wide(s) && |s| < 4 ==> Parsed(s).0.None?
    ensures Wide(s) && |s| >= 4 ==> Parsed(s) == Body(s[4..], s[1] >= 128, Length(s))
  {
    hide Body;
    if Wide(s) && |s| >= 4 {
      DropDrop(s, 2, 2);
      DropTake(s, 2, 2);
    }
  }

  lemma BodyIff(s: seq<byte>, at: nat, masked: bool, len: nat)
    requires at <= |s|
    ensures var start := if masked then at + 4 else at;
      && (Body(s[at..], masked, len).0.Some? <==> |s| >= start + len)
      && (|s| >= start + len ==>
            && Body(s[at..], masked, len).1 == s[start + len..]
            && Body(s[at..], masked, len).0.value
               == if masked then Masked(s[start..start + len], s[at..start]) else s[start..start + len])
  {
    hide Masked;
    if masked && |s| >= at + 4 {
      DropDrop(s, at, 4);
      DropTake(s, at, 4);
      if |s| >= at + 4 + len {
        DropDrop(s, at + 4, len);
        DropTake(s, at + 4, len);
      }
    } else if !masked && |s| >= at + len {
      DropDrop(s, at, len);
      DropTake(s, at, len);
    }
  }

  /** What the tunnel sends: a final (bit 7), unextended (bits 4 to 6) text frame with the mask bit, the
      payload's length, the fixed mask and the masked payload, and nothing after it. */
  lemma SentFrameLayout(payload: seq<byte>)
    requires |payload| <= MAX_PAYLOAD
    ensures var f := TunnelFrame(payload);
      && WholeFrame(f) && |f| == Start(f) + Length(f) && Length(f) == |payload|
      && Bit(f[0], 7) == 1 && Bit(f[0], 6) == 0 && Bit(f[0], 5) == 0 && Bit(f[0], 4) == 0 && f[0] % 16 == 1
      && f[1] >= 128 && f[Start(f) - 4..Start(f)] == [0x12, 0x34, 0x56, 0x78]
      && f[Start(f)..] == Masked(payload, [0x12, 0x34, 0x56, 0x78])
  {
    hide Masked;
    var f := TunnelFrame(payload);
    FirstByte();
    var h := Header(8, true, |payload|);
    assert f == h + (CLIENT_MASK + Masked(payload, CLIENT_MASK));
    assert f[0] == h[0] && f[1] == h[1];
    assert |payload| >= 126 ==> f[2] == h[2] && f[3] == h[3] && Read16(h[2..4]) == |payload|;
    assert |h| + 4 == Start(f);
    assert f[|h|..|h| + 4] == CLIENT_MASK && f[|h| + 4..] == Masked(payload, CLIENT_MASK);
  }

  lemma FirstByte()
    ensures Bit(0x81, 7) == 1 && Bit(0x81, 6) == 0 && Bit(0x81, 5) == 0 && Bit(0x81, 4) == 0
  {
    SmallPowers();
    BitJoin(8, 1, 4, 4);
    BitJoin(8, 1, 4, 5);
    BitJoin(8, 1, 4, 6);
    BitJoin(8, 1, 4, 7);
    assert Bit(8, 3) == 1;
  }

  /** A text frame to send: any bits above the opcode, any mask or none, any payload the format holds. */
  datatype Item = Item(flags: nat, mask: Option<seq<byte>>, payload: seq<byte>) {
    predicate Valid() {
      flags < 16 && |payload| <= MAX_PAYLOAD && (mask.Some? ==> |mask.value| == 4)
    }
  }

  /** Frames sent one after another. */
  function Stream(items: seq<Item>): seq<byte>
    requires forall i | 0 <= i < |items| :: items[i].Valid()
  {
    if items == [] then []
    else
      assert items[0].Valid();
      Frame(items[0].flags, items[0].mask, items[0].payload) + Stream(items[1..])
  }

  function Payloads(items: seq<Item>): seq<seq<byte>> {
    if items == [] then [] else [items[0].payload] + Payloads(items[1..])
  }

  /** The payloads read until one cannot be, and the stream then left. */
  function ParsedAll(s: seq<byte>): (seq<seq<byte>>, seq<byte>)
    decreases |s|
  {
    var (payload, rest) := Parsed(s);
    if payload.None? || |rest| >= |s| then ([], rest)
    else var (more, last) := ParsedAll(rest); ([payload.value] + more, last)
  }

  /** What one side sends, each frame with its own flags and mask, is what the other reads, whatever the
      size of the reads. */
  lemma {:induction false} StreamRoundTrip(items: seq<Item>)
    requires forall i | 0 <= i < |items| :: items[i].Valid()
    ensures ParsedAll(Stream(items)) == (Payloads(items), [])
  {
    hide Frame, Parsed;
    if items == [] {
      NothingParsed();
    } else {
      var item, rest := items[0], Stream(items[1..]);
      assert item.Valid();
      FrameRoundTrip(item.flags, item.mask, item.payload, rest);
      FrameNotEmpty(item);
      StreamRoundTrip(items[1..]);
    }
  }

  lemma NothingParsed()
    ensures Parsed([]) == (None, [])
  {
  }

  lemma FrameNotEmpty(item: Item)
    requires item.Valid()
    ensures |Frame(item.flags, item.mask, item.payload)| > 0
  {
  }
}
