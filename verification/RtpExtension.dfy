/** Insertion of header extensions into outgoing RTP packets. Packet layout as in section 5.3.1 of RFC 3550,
    extension elements as in sections 4.2 and 4.3 of RFC 8285. */
module RtpExtension {
  import opened Bytes
  import opened Options
  import opened Sequences

  type Packet = seq<byte>

  const FIXED_SIZE: nat := 12
  const ONE_BYTE: nat := 0xBEDE
  const TWO_BYTE: nat := 0x1000

  // ---- reading a packet

  /** Size of the fixed header with its contributing sources. */
  function HeaderSize(p: Packet): nat
    requires p != []
  {
    FIXED_SIZE + 4 * (p[0] as nat % 16)
  }

  predicate HasExtension(p: Packet)
    requires p != []
  {
    p[0] / 16 % 2 == 1
  }

  /** Size of the extension with its own four-byte header; nothing if the packet has none. */
  function ExtensionSize(p: Packet): nat
    requires p != [] && (HasExtension(p) ==> |p| >= HeaderSize(p) + 4)
  {
    if HasExtension(p) then 4 + 4 * Read16(p[HeaderSize(p) + 2..HeaderSize(p) + 4]) else 0
  }

  /** The packet holds the headers that it announces. */
  predicate Complete(p: Packet) {
    && p != [] && |p| >= HeaderSize(p)
    && (HasExtension(p) ==> |p| >= HeaderSize(p) + 4)
    && |p| >= HeaderSize(p) + ExtensionSize(p)
  }

  function Fixed(p: Packet): seq<byte>
    requires Complete(p)
  {
    p[..HeaderSize(p)]
  }

  function Profile(p: Packet): nat
    requires Complete(p) && HasExtension(p)
  {
    Read16(p[HeaderSize(p)..HeaderSize(p) + 2])
  }

  function Body(p: Packet): seq<byte>
    requires Complete(p)
  {
    if HasExtension(p) then p[HeaderSize(p) + 4..HeaderSize(p) + ExtensionSize(p)] else []
  }

  function Media(p: Packet): seq<byte>
    requires Complete(p)
  {
    p[HeaderSize(p) + ExtensionSize(p)..]
  }

  datatype Element = Element(id: nat, value: seq<byte>)

  /** What a body begins with: a padding byte, an element of the given encoded size, or neither. */
  datatype Front = Padding | Malformed | Taken(element: Element, size: nat)

  /** Zero bytes are padding in both forms; the one-byte form reserves the identifiers 0 and 15. */
  function FrontOf(two: bool, b: seq<byte>): (f: Front)
    requires b != []
    ensures f.Taken? ==> 0 < f.size <= |b|
  {
    if b[0] == 0 then Padding
    else if two then
      if |b| < 2 || 2 + b[1] as nat > |b| then Malformed
      else Taken(Element(b[0] as nat, b[2..2 + b[1] as nat]), 2 + b[1] as nat)
    else
      var id, n := b[0] as nat / 16, b[0] as nat % 16 + 1;
      if id == 0 || id == 15 || 1 + n > |b| then Malformed
      else Taken(Element(id, b[1..1 + n]), 1 + n)
  }

  function BodyElements(two: bool, b: seq<byte>): Option<seq<Element>>
    decreases |b|
  {
    if b == [] then Some([])
    else
      match FrontOf(two, b)
      case Padding => BodyElements(two, b[1..])
      case Malformed => None
      case Taken(e, k) => var more :- BodyElements(two, b[k..]); Some([e] + more)
  }

  function Elements(p: Packet): Option<seq<Element>>
    requires Complete(p)
  {
    if !HasExtension(p) then Some([])
    else if Profile(p) == TWO_BYTE || Profile(p) == ONE_BYTE then BodyElements(Profile(p) == TWO_BYTE, Body(p))
    else None
  }

  predicate WellFormed(p: Packet) {
    Complete(p) && Elements(p).Some?
  }

  // ---- building a packet

  /** The fixed header with its extension bit set. */
  function Marked(fixed: seq<byte>): (r: seq<byte>)
    requires fixed != []
    ensures |r| == |fixed|
  {
    if fixed[0] / 16 % 2 == 1 then fixed else fixed[0 := fixed[0] + 16]
  }

  function UsesTwoByte(p: Packet): bool
    requires Complete(p)
  {
    HasExtension(p) && Profile(p) == TWO_BYTE
  }

  function NewProfile(p: Packet): nat
    requires Complete(p)
  {
    if UsesTwoByte(p) then TWO_BYTE else ONE_BYTE
  }

  predicate Requested(p: Packet, e: Element)
    requires Complete(p)
  {
    0 < e.id < 256 && 0 < |e.value| <= 255 && (UsesTwoByte(p) || e.id <= 14)
  }

  /** A one-byte element has at most sixteen bytes; room is made for a longer one but it is not written. */
  predicate Writes(p: Packet, e: Element)
    requires Complete(p)
  {
    Requested(p, e) && (UsesTwoByte(p) || |e.value| <= 16)
  }

  function ElementSize(p: Packet, e: Element): nat
    requires Complete(p)
  {
    (if UsesTwoByte(p) then 2 else 1) + |e.value|
  }

  function RoundUp(n: nat): (r: nat)
    ensures n <= r < n + 4 && r % 4 == 0
  {
    (n + 3) / 4 * 4
  }

  function NewBodySize(p: Packet, e: Element): nat
    requires Complete(p)
  {
    RoundUp(|Body(p)| + ElementSize(p, e))
  }

  function Encoded(p: Packet, e: Element): (r: seq<byte>)
    requires Complete(p) && Requested(p, e)
    ensures |r| == ElementSize(p, e)
  {
    if !Writes(p, e) then Zeros(ElementSize(p, e))
    else if UsesTwoByte(p) then [e.id, |e.value|] + e.value
    else [e.id * 16 + (|e.value| - 1)] + e.value
  }

  function NewBody(p: Packet, e: Element): (r: seq<byte>)
    requires Complete(p) && Requested(p, e)
    ensures |r| == NewBodySize(p, e)
  {
    Body(p) + Encoded(p, e) + Zeros(NewBodySize(p, e) - |Body(p)| - ElementSize(p, e))
  }

  /** The packet after the call; the length field keeps only sixteen bits. */
  function Extended(p: Packet, e: Element): Packet
    requires Complete(p)
  {
    if !Requested(p, e) then p
    else
      Marked(Fixed(p)) + BigEndian16(NewProfile(p)) + BigEndian16(NewBodySize(p, e) / 4 % 0x1_0000)
      + NewBody(p, e) + Media(p)
  }

  method Overwrite(s: seq<byte>, at: nat, d: seq<byte>) returns (r: seq<byte>)
    requires at + |d| <= |s|
    ensures r == s[..at] + d + s[at + |d|..]
  {
    r := s;
    for i := 0 to |d|
      invariant r == s[..at] + d[..i] + s[at + i..]
    {
      r := r[at + i := d[i]];
    }
  }

  class Message {
    var bytes: Packet

    constructor (p: Packet)
      ensures bytes == p
    {
      bytes := p;
    }

    /** `insert`: makes room for the grown extension. */
    method MakeRoom(at: nat, n: nat)
      requires at <= |bytes|
      modifies this
      ensures bytes == old(bytes)[..at] + Zeros(n) + old(bytes)[at..]
    {
      bytes := bytes[..at] + Zeros(n) + bytes[at..];
    }

    method SetExtension()
      requires bytes != []
      modifies this
      ensures bytes == Marked(old(bytes))
    {
      if bytes[0] / 16 % 2 != 1 {
        bytes := bytes[0 := bytes[0] + 16];
      }
    }

    /** Makes room for the element and rewrites the extension's header. */
    method Grow(useTwoByte: bool, oldBody: nat, newBody: nat, ghost e: Element)
      requires Complete(bytes) && Requested(bytes, e) && useTwoByte == UsesTwoByte(bytes)
      requires oldBody == |Body(bytes)| && newBody == NewBodySize(bytes, e)
      modifies this
      ensures bytes == Grown(old(bytes), e)
    {
      hide Zeros, Marked, BigEndian16, Body, Fixed, Media, Grown, Read16;
      BodySize(bytes);
      var headerSize, oldExtension := HeaderSize(bytes), ExtensionSize(bytes);
      var insertSize := if HasExtension(bytes) then 4 + newBody - oldExtension else 4 + newBody;
      ghost var p := bytes;
      MakeRoom(headerSize + oldExtension, insertSize);
      SetExtension();
      assert bytes == WithRoom(p, e);
      GrownFrom(p, e);
      var head := BigEndian16(if useTwoByte then TWO_BYTE else ONE_BYTE) + BigEndian16(newBody / 4 % 0x1_0000);
      assert head == NewHead(p, e);
      bytes := Overwrite(bytes, headerSize, head);
    }

    /** Writes the element behind the old ones. */
    method WriteElement(at: nat, encoded: seq<byte>, ghost p: Packet, ghost e: Element)
      requires Complete(p) && Writes(p, e) && bytes == Grown(p, e)
      requires at == HeaderSize(p) + 4 + |Body(p)| && encoded == Encoded(p, e)
      modifies this
      ensures bytes == Extended(p, e)
    {
      hide Grown, Extended, Encoded, Body;
      ElementWritten(p, e);
      bytes := Overwrite(bytes, at, encoded);
    }

    method AddRtpHeaderExtension(e: Element)
      requires Complete(bytes) && e.id < 256
      modifies this
      ensures bytes == Extended(old(bytes), e)
    {
      if e.id == 0 || |e.value| == 0 || |e.value| > 255 { return; }
      var headerSize, oldExtension := HeaderSize(bytes), ExtensionSize(bytes);
      var useTwoByte := HasExtension(bytes) && Profile(bytes) == TWO_BYTE;
      if !useTwoByte && e.id > 14 { return; }
      var oldBody := if oldExtension >= 4 then oldExtension - 4 else 0;
      var elementSize := if useTwoByte then 2 + |e.value| else 1 + |e.value|;
      var newBody := (oldBody + elementSize + 3) / 4 * 4;
      ghost var p := bytes;
      BodySize(p);
      Grow(useTwoByte, oldBody, newBody, e);
      if useTwoByte {
        WriteElement(headerSize + 4 + oldBody, [e.id, |e.value|] + e.value, p, e);
      } else if |e.value| > 16 {
        NothingWritten(p, e);
      } else {
        WriteElement(headerSize + 4 + oldBody, [e.id * 16 + (|e.value| - 1)] + e.value, p, e);
      }
    }
  }

  /** The extension's own header: profile and length. */
  function NewHead(p: Packet, e: Element): (d: seq<byte>)
    requires Complete(p)
    ensures |d| == 4
  {
    BigEndian16(NewProfile(p)) + BigEndian16(NewBodySize(p, e) / 4 % 0x1_0000)
  }

  /** The packet with room for the element and a new extension header. */
  function Grown(p: Packet, e: Element): Packet
    requires Complete(p) && Requested(p, e)
  {
    Marked(Fixed(p)) + NewHead(p, e)
    + (Body(p) + Zeros(NewBodySize(p, e) - |Body(p)|) + Media(p))
  }

  /** The packet after room was made and the extension bit set. */
  function WithRoom(p: Packet, e: Element): Packet
    requires Complete(p) && Requested(p, e)
  {
    var at := HeaderSize(p) + ExtensionSize(p);
    var n := if HasExtension(p) then 4 + NewBodySize(p, e) - ExtensionSize(p) else 4 + NewBodySize(p, e);
    Marked(p[..at] + Zeros(n) + p[at..])
  }

  lemma RoomMade(p: Packet, e: Element) returns (head: seq<byte>)
    requires Complete(p) && Requested(p, e)
    ensures |head| == 4
    ensures WithRoom(p, e) == Marked(Fixed(p)) + head + (Body(p) + Zeros(NewBodySize(p, e) - |Body(p)|) + Media(p))
  {
    hide Zeros, Read16, BigEndian16, Marked;
    BodySize(p);
    var at, size := HeaderSize(p), NewBodySize(p, e);
    var rest := Body(p) + Zeros(size - |Body(p)|) + Media(p);
    if HasExtension(p) {
      head := p[at..at + 4];
      Regroup(p, at, at + ExtensionSize(p), Zeros(size - |Body(p)|));
    } else {
      head := Zeros(4);
      assert Zeros(4 + size) == head + Zeros(size);
      Reassociate(Fixed(p), head, Zeros(size), Media(p));
    }
    MarkedFront(Fixed(p), head + rest);
    Associative(Marked(Fixed(p)), head, rest);
  }

  lemma Regroup(p: Packet, at: nat, end: nat, gap: seq<byte>)
    requires at + 4 <= end <= |p|
    ensures p[..end] + gap + p[end..] == p[..at] + (p[at..at + 4] + (p[at + 4..end] + gap + p[end..]))
  {
  }

  lemma Reassociate(a: seq<byte>, b: seq<byte>, c: seq<byte>, d: seq<byte>)
    ensures a + (b + c) + d == a + (b + ([] + c + d))
  {
  }

  lemma MarkedFront(fixed: seq<byte>, rest: seq<byte>)
    requires fixed != []
    ensures Marked(fixed + rest) == Marked(fixed) + rest
  {
  }

  lemma BodySize(p: Packet)
    requires Complete(p)
    ensures |Body(p)| == if ExtensionSize(p) >= 4 then ExtensionSize(p) - 4 else 0
  {
  }

  lemma Replace(q: seq<byte>, a: seq<byte>, b: seq<byte>, c: seq<byte>, d: seq<byte>)
    requires q == a + b + c && |b| == |d|
    ensures |a| + |d| <= |q| && q[..|a|] + d + q[|a| + |d|..] == a + d + c
  {
  }

  lemma GrownFrom(p: Packet, e: Element)
    requires Complete(p) && Requested(p, e)
    ensures var q, at, d := WithRoom(p, e), HeaderSize(p), NewHead(p, e);
            at + |d| <= |q| && q[..at] + d + q[at + |d|..] == Grown(p, e)
  {
    var head := RoomMade(p, e);
    HeadReplaced(p, e, WithRoom(p, e), head);
  }

  lemma HeadReplaced(p: Packet, e: Element, q: Packet, head: seq<byte>)
    requires Complete(p) && Requested(p, e) && |head| == 4
    requires q == Marked(Fixed(p)) + head + (Body(p) + Zeros(NewBodySize(p, e) - |Body(p)|) + Media(p))
    ensures var at, d := HeaderSize(p), NewHead(p, e);
            at + |d| <= |q| && q[..at] + d + q[at + |d|..] == Grown(p, e)
  {
    hide Zeros, Marked, BigEndian16, Read16, ExtensionSize, NewBodySize;
    Replace(q, Marked(Fixed(p)), head, Body(p) + Zeros(NewBodySize(p, e) - |Body(p)|) + Media(p), NewHead(p, e));
  }

  lemma ElementWritten(p: Packet, e: Element)
    requires Complete(p) && Writes(p, e)
    ensures var q, at, d := Grown(p, e), HeaderSize(p) + 4 + |Body(p)|, Encoded(p, e);
            at + |d| <= |q| && q[..at] + d + q[at + |d|..] == Extended(p, e)
  {
    hide Zeros, Marked, BigEndian16, Read16;
  }

  lemma NothingWritten(p: Packet, e: Element)
    requires Complete(p) && Requested(p, e) && !Writes(p, e)
    ensures Grown(p, e) == Extended(p, e)
  {
    hide Zeros, Marked, BigEndian16, Read16, Body, Media, ExtensionSize;
    assert Fixed(p) != [];
    var size, room := ElementSize(p, e), NewBodySize(p, e) - |Body(p)|;
    assert Zeros(room) == Zeros(size) + Zeros(room - size);
    Associative(Body(p), Zeros(size), Zeros(room - size));
    Associative(Marked(Fixed(p)), BigEndian16(NewProfile(p)), BigEndian16(NewBodySize(p, e) / 4 % 0x1_0000));
    Associative(Marked(Fixed(p)) + NewHead(p, e), NewBody(p, e), Media(p));
  }

  // ---- what the receiver reads

  lemma TakeFront(two: bool, b: seq<byte>, e: Element, rest: seq<byte>, more: seq<Element>)
    requires b != [] && FrontOf(two, b).Taken? && FrontOf(two, b).element == e && b[FrontOf(two, b).size..] == rest
    requires BodyElements(two, rest) == Some(more)
    ensures BodyElements(two, b) == Some([e] + more)
  {
  }

  lemma SkipFront(two: bool, b: seq<byte>, rest: seq<byte>)
    requires b != [] && b[0] == 0 && b[1..] == rest
    ensures BodyElements(two, b) == BodyElements(two, rest)
  {
  }

  lemma FrontAppend(two: bool, a: seq<byte>, b: seq<byte>)
    requires a != [] && !FrontOf(two, a).Malformed?
    ensures FrontOf(two, a + b) == FrontOf(two, a)
  {
    if a[0] != 0 {
      var k := FrontOf(two, a).size;
      assert (a + b)[..k] == a[..k];
      assert two ==> (a + b)[2..k] == a[2..k];
      assert (a + b)[1..k] == a[1..k];
    }
  }

  lemma AppendElements(a: seq<Element>, b: seq<Element>, c: seq<Element>)
    ensures a + (b + c) == a + b + c
  {
  }

  lemma {:induction false} ElementsAppend(two: bool, a: seq<byte>, b: seq<byte>)
    requires BodyElements(two, a).Some? && BodyElements(two, b).Some?
    ensures BodyElements(two, a + b) == Some(BodyElements(two, a).value + BodyElements(two, b).value)
    decreases |a|
  {
    if a == [] {
      assert a + b == b && [] + BodyElements(two, b).value == BodyElements(two, b).value;
    } else {
      var f := FrontOf(two, a);
      var k := if f.Taken? then f.size else 1;
      var rest := a[k..];
      assert BodyElements(two, rest).Some?;
      ElementsAppend(two, rest, b);
      AppendFront(two, a, b, rest, BodyElements(two, rest).value, BodyElements(two, b).value);
    }
  }

  lemma AppendFront(two: bool, a: seq<byte>, b: seq<byte>, rest: seq<byte>, xs: seq<Element>, ys: seq<Element>)
    requires a != [] && !FrontOf(two, a).Malformed?
    requires rest == a[if FrontOf(two, a).Taken? then FrontOf(two, a).size else 1..]
    requires BodyElements(two, rest) == Some(xs) && BodyElements(two, rest + b) == Some(xs + ys)
    ensures BodyElements(two, a).Some? && BodyElements(two, a + b) == Some(BodyElements(two, a).value + ys)
  {
    FrontAppend(two, a, b);
    var f := FrontOf(two, a);
    if f.Padding? {
      DropAppend(a, b, 1);
      SkipFront(two, a, rest);
      SkipFront(two, a + b, rest + b);
    } else {
      DropAppend(a, b, f.size);
      TakeFront(two, a, f.element, rest, xs);
      TakeFront(two, a + b, f.element, rest + b, xs + ys);
      AppendElements([f.element], xs, ys);
    }
  }

  lemma {:induction false} PaddingIsEmpty(two: bool, n: nat)
    ensures BodyElements(two, Zeros(n)) == Some([])
  {
    if n > 0 {
      PaddingIsEmpty(two, n - 1);
      SkipFront(two, Zeros(n), Zeros(n - 1));
    }
  }

  lemma EncodedFront(p: Packet, e: Element, rest: seq<byte>)
    requires Complete(p) && Writes(p, e)
    ensures var b := Encoded(p, e) + rest;
            FrontOf(UsesTwoByte(p), b) == Taken(e, |Encoded(p, e)|) && b[|Encoded(p, e)|..] == rest
  {
    var b := Encoded(p, e) + rest;
    if UsesTwoByte(p) {
      assert b[2..2 + |e.value|] == e.value;
    } else {
      assert b[0] as nat / 16 == e.id && b[0] as nat % 16 + 1 == |e.value|;
      assert b[1..1 + |e.value|] == e.value;
    }
  }

  lemma NewElement(p: Packet, e: Element, pad: nat)
    requires Complete(p) && Requested(p, e)
    ensures BodyElements(UsesTwoByte(p), Encoded(p, e) + Zeros(pad)) == Some(if Writes(p, e) then [e] else [])
  {
    if Writes(p, e) {
      EncodedFront(p, e, Zeros(pad));
      PaddingIsEmpty(UsesTwoByte(p), pad);
      TakeFront(UsesTwoByte(p), Encoded(p, e) + Zeros(pad), e, Zeros(pad), []);
      assert [e] + [] == [e];
    } else {
      PaddingIsEmpty(false, ElementSize(p, e) + pad);
      assert Encoded(p, e) + Zeros(pad) == Zeros(ElementSize(p, e) + pad);
    }
  }

  /** The grown body holds the old elements followed by the new one, if it was written. */
  lemma NewBodyElements(p: Packet, e: Element)
    requires WellFormed(p) && Requested(p, e)
    ensures BodyElements(UsesTwoByte(p), NewBody(p, e)) ==
            Some(Elements(p).value + (if Writes(p, e) then [e] else []))
  {
    var pad := NewBodySize(p, e) - |Body(p)| - ElementSize(p, e);
    NewElement(p, e, pad);
    ElementsAppend(UsesTwoByte(p), Body(p), Encoded(p, e) + Zeros(pad));
    assert NewBody(p, e) == Body(p) + (Encoded(p, e) + Zeros(pad));
  }

  /** Taking an assembled packet apart. */
  lemma Disassemble(fixed: seq<byte>, profile: nat, length: nat, body: seq<byte>, media: seq<byte>)
    requires fixed != [] && fixed[0] / 16 % 2 == 1 && |fixed| == HeaderSize(fixed)
    requires profile < 0x1_0000 && length < 0x1_0000 && 4 * length <= |body|
    ensures var q := fixed + BigEndian16(profile) + BigEndian16(length) + body + media;
            && Complete(q) && HasExtension(q) && Fixed(q) == fixed && Profile(q) == profile
            && Body(q) == body[..4 * length] && Media(q) == body[4 * length..] + media
  {
    hide BigEndian16, Read16;
    var q := fixed + BigEndian16(profile) + BigEndian16(length) + body + media;
    Pieces(fixed, BigEndian16(profile), BigEndian16(length), body, media);
    TakenApart(q, fixed, profile, length, body + media);
    BodyAndMedia(body, media, 4 * length);
  }

  lemma TakenApart(q: Packet, fixed: seq<byte>, profile: nat, length: nat, rest: seq<byte>)
    requires fixed != [] && fixed[0] / 16 % 2 == 1 && |fixed| == HeaderSize(fixed) && |q| >= |fixed| + 4
    requires profile < 0x1_0000 && length < 0x1_0000 && 4 * length <= |rest|
    requires q[0] == fixed[0] && q[..|fixed|] == fixed && q[|fixed| + 4..] == rest
    requires Read16(q[|fixed|..|fixed| + 2]) == profile && Read16(q[|fixed| + 2..|fixed| + 4]) == length
    ensures Complete(q) && HasExtension(q) && Fixed(q) == fixed && Profile(q) == profile
    ensures Body(q) == rest[..4 * length] && Media(q) == rest[4 * length..]
  {
    hide Read16;
    var h := |fixed|;
    assert HeaderSize(q) == h && ExtensionSize(q) == 4 + 4 * length;
    DropDrop(q, h + 4, 4 * length);
    DropTake(q, h + 4, 4 * length);
  }

  lemma Pieces(fixed: seq<byte>, a: seq<byte>, b: seq<byte>, body: seq<byte>, media: seq<byte>)
    requires fixed != [] && |a| == 2 && |b| == 2
    ensures var q, h := fixed + a + b + body + media, |fixed|;
            && q[0] == fixed[0] && q[..h] == fixed && q[h..h + 2] == a && q[h + 2..h + 4] == b
            && q[h + 4..] == body + media
  {
  }

  lemma BodyAndMedia(body: seq<byte>, media: seq<byte>, n: nat)
    requires n <= |body|
    ensures (body + media)[..n] == body[..n] && (body + media)[n..] == body[n..] + media
  {
  }

  lemma MarkedHeader(p: Packet)
    requires Complete(p)
    ensures var f := Marked(Fixed(p)); f[0] / 16 % 2 == 1 && HeaderSize(f) == HeaderSize(p)
    ensures Marked(Fixed(p)) == if HasExtension(p) then Fixed(p) else Fixed(p)[0 := p[0] + 16]
  {
    hide ExtensionSize;
    BitSet(p[0]);
    assert Fixed(p)[0] == p[0];
  }

  lemma BitSet(b: byte)
    ensures b / 16 % 2 == 0 ==> b + 16 < 256 && (b + 16) / 16 % 2 == 1 && (b + 16) % 16 == b % 16
  {
  }

  /** The parts of the extended packet, read by its own length field. */
  lemma ExtendedParts(p: Packet, e: Element)
    requires Complete(p) && Requested(p, e)
    ensures var q, n := Extended(p, e), 4 * (NewBodySize(p, e) / 4 % 0x1_0000);
            && n <= |NewBody(p, e)|
            && Complete(q) && HasExtension(q) && Fixed(q) == Marked(Fixed(p)) && Profile(q) == NewProfile(p)
            && Body(q) == NewBody(p, e)[..n] && Media(q) == NewBody(p, e)[n..] + Media(p)
  {
    MarkedHeader(p);
    Disassemble(Marked(Fixed(p)), NewProfile(p), NewBodySize(p, e) / 4 % 0x1_0000, NewBody(p, e), Media(p));
  }

  /** The call leaves the media payload alone exactly when the new extension length fits its sixteen-bit
      field, and then the body is the grown body. */
  lemma ExtendedFits(p: Packet, e: Element)
    requires Complete(p) && Requested(p, e)
    ensures var q := Extended(p, e);
            && Complete(q)
            && (Media(q) == Media(p) <==> NewBodySize(p, e) / 4 < 0x1_0000)
            && (NewBodySize(p, e) / 4 < 0x1_0000 ==> Body(q) == NewBody(p, e))
  {
    ExtendedParts(p, e);
    LengthField(NewBodySize(p, e));
    var body, n := NewBody(p, e), 4 * (NewBodySize(p, e) / 4 % 0x1_0000);
    SplitAt(body, Media(p), n);
  }

  lemma LengthField(size: nat)
    requires size % 4 == 0
    ensures 4 * (size / 4 % 0x1_0000) == size <==> size / 4 < 0x1_0000
  {
  }

  lemma SplitAt(body: seq<byte>, media: seq<byte>, n: nat)
    requires n <= |body|
    ensures body[n..] + media == media <==> n == |body|
    ensures n == |body| ==> body[..n] == body
  {
    assert |body[n..] + media| == |body| - n + |media|;
    if n == |body| { assert body[n..] + media == media; }
  }

  /** And then the packet is well-formed, its elements are the old ones followed by the new, and the fixed
      header and contributing sources differ at most in the extension bit. */
  lemma ExtendedReads(p: Packet, e: Element)
    requires WellFormed(p) && Requested(p, e) && NewBodySize(p, e) / 4 < 0x1_0000
    ensures var q := Extended(p, e);
            && WellFormed(q) && UsesTwoByte(q) == UsesTwoByte(p) && |Body(q)| == NewBodySize(p, e)
            && Elements(q) == Some(Elements(p).value + (if Writes(p, e) then [e] else []))
            && Fixed(q) == Marked(Fixed(p)) && Media(q) == Media(p)
            && var n := |Body(p)| + (if UsesTwoByte(p) then 2 else 1) + |e.value|; n <= |Body(q)| < n + 4
  {
    ExtendedParts(p, e);
    ExtendedFits(p, e);
    NewBodyElements(p, e);
  }

  /** The condition is needed: the longest body the length field can state has no room for one more element,
      and the whole extension turns into media. */
  lemma LengthWraps(media: seq<byte>) returns (p: Packet, e: Element)
    ensures WellFormed(p) && Media(p) == media && Requested(p, e)
    ensures var q := Extended(p, e); Complete(q) && Body(q) == [] && Media(q) == NewBody(p, e) + media
  {
    hide Extended, Body, Media, NewBody, Zeros, NewBodySize, BodyElements;
    p := LongestExtension(media);
    e := Element(1, [0]);
    PaddingIsEmpty(false, 4 * 0xffff);
    assert NewBodySize(p, e) == 4 * 0x1_0000 by { ElementDoesNotFit(p, e); }
    ExtendedParts(p, e);
    assert NewBody(p, e)[..0] == [] && NewBody(p, e)[0..] == NewBody(p, e);
  }

  lemma ElementDoesNotFit(p: Packet, e: Element)
    requires Complete(p) && |Body(p)| == 4 * 0xffff && !UsesTwoByte(p) && |e.value| == 1
    ensures NewBodySize(p, e) == 4 * 0x1_0000
  {
    hide Body, UsesTwoByte;
  }

  lemma LongestExtension(media: seq<byte>) returns (p: Packet)
    ensures Complete(p) && HasExtension(p) && Profile(p) == ONE_BYTE
    ensures Body(p) == Zeros(4 * 0xffff) && Media(p) == media
  {
    hide BigEndian16, Zeros, Read16;
    var fixed: seq<byte>, body := [0x90] + Zeros(11), Zeros(4 * 0xffff);
    p := fixed + BigEndian16(ONE_BYTE) + BigEndian16(0xffff) + body + media;
    assert |fixed| == HeaderSize(fixed);
    Disassemble(fixed, ONE_BYTE, 0xffff, body, media);
    assert body[..4 * 0xffff] == body && body[4 * 0xffff..] + media == media;
  }

  // ---- adding several extensions

  lemma ExtendedComplete(p: Packet, e: Element)
    requires Complete(p)
    ensures Complete(Extended(p, e))
  {
    if Requested(p, e) { ExtendedParts(p, e); }
  }

  function ExtendAll(p: Packet, es: seq<Element>): (q: Packet)
    requires Complete(p)
    ensures Complete(q)
    decreases |es|
  {
    if es == [] then p
    else
      ExtendedComplete(p, es[0]);
      ExtendAll(Extended(p, es[0]), es[1..])
  }

  /** Each extension in turn leaves a length that fits its field. */
  predicate FitsAll(p: Packet, es: seq<Element>)
    requires Complete(p)
    decreases |es|
  {
    es == [] ||
    ((Requested(p, es[0]) ==> NewBodySize(p, es[0]) / 4 < 0x1_0000)
     && (ExtendedComplete(p, es[0]); FitsAll(Extended(p, es[0]), es[1..])))
  }

  /** The elements that the packet's form can carry. */
  function Carried(two: bool, es: seq<Element>): seq<Element> {
    if es == [] then []
    else (if 0 < es[0].id < 256 && 0 < |es[0].value| <= 255 && (two || (es[0].id <= 14 && |es[0].value| <= 16))
          then [es[0]] else []) + Carried(two, es[1..])
  }

  /** A call never takes media away; it adds some exactly when the length does not fit. */
  lemma MediaGrows(p: Packet, e: Element)
    requires Complete(p)
    ensures Complete(Extended(p, e))
    ensures var fits := Requested(p, e) ==> NewBodySize(p, e) / 4 < 0x1_0000;
            if fits then Media(Extended(p, e)) == Media(p) else |Media(Extended(p, e))| > |Media(p)|
  {
    if Requested(p, e) {
      ExtendedParts(p, e);
      ExtendedFits(p, e);
    }
  }

  lemma {:induction false} MediaNeverShrinks(p: Packet, es: seq<Element>)
    requires Complete(p)
    ensures |Media(ExtendAll(p, es))| >= |Media(p)|
    decreases |es|
  {
    hide Extended, Media, Requested;
    if es != [] {
      MediaGrows(p, es[0]);
      MediaNeverShrinks(Extended(p, es[0]), es[1..]);
    }
  }

  /** Any list of extensions added in turn to any complete packet leaves its media alone if and only if every
      length on the way fits. */
  lemma {:induction false} MediaKeptIff(p: Packet, es: seq<Element>)
    requires Complete(p)
    ensures Media(ExtendAll(p, es)) == Media(p) <==> FitsAll(p, es)
    decreases |es|
  {
    hide Extended, Media, Requested;
    if es != [] {
      MediaGrows(p, es[0]);
      MediaKeptIff(Extended(p, es[0]), es[1..]);
      MediaNeverShrinks(Extended(p, es[0]), es[1..]);
    }
  }

  /** And then extensions accumulate, and everything else stays as it was. */
  lemma {:induction false} ExtendAllReads(p: Packet, es: seq<Element>)
    requires WellFormed(p) && FitsAll(p, es)
    ensures var q := ExtendAll(p, es);
            && WellFormed(q)
            && Elements(q) == Some(Elements(p).value + Carried(UsesTwoByte(p), es))
            && Media(q) == Media(p) && |Body(q)| % 4 == 0
            && (Fixed(q) == Fixed(p) || Fixed(q) == Marked(Fixed(p)))
    decreases |es|
  {
    hide Extended, Fixed, Media, Marked, BodyElements, Read16, Writes, UsesTwoByte, Requested;
    if es == [] {
      assert Elements(p).value + [] == Elements(p).value;
    } else {
      ExtendFirst(p, es[0]);
      ExtendAllReads(Extended(p, es[0]), es[1..]);
      CarriedCons(p, es);
    }
  }

  lemma CarriedCons(p: Packet, es: seq<Element>)
    requires WellFormed(p) && es != []
    ensures Elements(p).value + (if Writes(p, es[0]) then [es[0]] else []) + Carried(UsesTwoByte(p), es[1..])
            == Elements(p).value + Carried(UsesTwoByte(p), es)
  {
    AppendElements(Elements(p).value, if Writes(p, es[0]) then [es[0]] else [], Carried(UsesTwoByte(p), es[1..]));
  }

  lemma ExtendFirst(p: Packet, e: Element)
    requires WellFormed(p) && (Requested(p, e) ==> NewBodySize(p, e) / 4 < 0x1_0000)
    ensures var q := Extended(p, e);
            && WellFormed(q) && UsesTwoByte(q) == UsesTwoByte(p)
            && Elements(q) == Some(Elements(p).value + (if Writes(p, e) then [e] else []))
            && (Fixed(q) == Fixed(p) || Fixed(q) == Marked(Fixed(p))) && Media(q) == Media(p)
            && Marked(Fixed(q)) == Marked(Fixed(p))
  {
    if Requested(p, e) {
      ExtendedReads(p, e);
      MarkedHeader(p);
    } else {
      assert Elements(p).value + [] == Elements(p).value;
    }
  }

  // ---- the caller

  const MARKER_BIT: nat := 128
  const COLOR_SPACE: seq<byte> := [1, 13, 1, 16]
  const PLAYOUT_DELAY: seq<byte> := [0, 16, 1]

  /** The handler of outgoing packets: the last packet of a frame carries colour space and playout delay,
      each if it was negotiated (identifier not zero). */
  method Outgoing(message: Message, colorSpaceId: byte, playoutDelayId: byte)
    requires |message.bytes| >= FIXED_SIZE ==> Complete(message.bytes)
    modifies message
    ensures var p, q := old(message.bytes), message.bytes;
            if (colorSpaceId == 0 && playoutDelayId == 0) || |p| < FIXED_SIZE || p[1] < MARKER_BIT then q == p
            else q == ExtendAll(p, [Element(colorSpaceId, COLOR_SPACE), Element(playoutDelayId, PLAYOUT_DELAY)])
  {
    if colorSpaceId == 0 && playoutDelayId == 0 { return; }
    if |message.bytes| < FIXED_SIZE { return; }
    if message.bytes[1] < MARKER_BIT { return; }
    ghost var p := message.bytes;
    var first, second := Element(colorSpaceId, COLOR_SPACE), Element(playoutDelayId, PLAYOUT_DELAY);
    ExtendedComplete(p, first);
    if colorSpaceId != 0 {
      message.AddRtpHeaderExtension(first);
    }
    ghost var q := message.bytes;
    assert q == Extended(p, first);
    if playoutDelayId != 0 {
      message.AddRtpHeaderExtension(second);
    }
    TwoSteps(p, first, second);
  }

  lemma TwoSteps(p: Packet, a: Element, b: Element)
    requires Complete(p) && Complete(Extended(p, a))
    ensures ExtendAll(p, [a, b]) == Extended(Extended(p, a), b)
  {
    hide Extended;
    var q := Extended(p, a);
    ExtendedComplete(q, b);
    assert [a, b][1..] == [b] && [b][1..] == [];
    assert ExtendAll(q, [b]) == ExtendAll(Extended(q, b), []);
  }

  /** Both extensions negotiated with identifiers of the one-byte form: a well-formed packet gains the BT.709 and
      sRGB colour space with full range and the playout delay of 10 ms, and keeps everything else. */
  lemma OutgoingElements(p: Packet, colorSpaceId: byte, playoutDelayId: byte)
    requires WellFormed(p) && 1 <= colorSpaceId <= 14 && 1 <= playoutDelayId <= 14
    requires FitsAll(p, [Element(colorSpaceId, COLOR_SPACE), Element(playoutDelayId, PLAYOUT_DELAY)])
    ensures var q := ExtendAll(p, [Element(colorSpaceId, COLOR_SPACE), Element(playoutDelayId, PLAYOUT_DELAY)]);
            && WellFormed(q) && Media(q) == Media(p)
            && Elements(q) == Some(Elements(p).value + [Element(colorSpaceId, [1, 13, 1, 16]),
                                                        Element(playoutDelayId, [0, 16, 1])])
  {
    hide Elements, ExtendAll, FitsAll, Media;
    var a, b := Element(colorSpaceId, COLOR_SPACE), Element(playoutDelayId, PLAYOUT_DELAY);
    ExtendAllReads(p, [a, b]);
    assert [a, b][1..] == [b] && [b][1..] == [];
    assert Carried(UsesTwoByte(p), [b]) == [b] + [];
    assert Carried(UsesTwoByte(p), [a, b]) == [a] + ([b] + []) == [a, b];
  }
}
