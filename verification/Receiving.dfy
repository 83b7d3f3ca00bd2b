/** Buffered reading of the message stream: a connection whose `ReadLine` and `ReadExact` share one line
    buffer over reads of arbitrary size, and the daemon's receive loop. */
module Receiving {
  import opened Options
  import opened Sequences
  import opened Sockets
  import opened Numerals
  import opened Text
  import opened Escaping
  import opened Protocol
  import opened ProtocolRoundTrip

  const READ_BUFFER: nat := 65536

  /** The first line and what follows it; without a newline everything is the line. */
  function CutLine(s: string): (string, string) {
    var i := Find(s, '\n');
    if i < |s| then (s[..i], s[i + 1..]) else (s, "")
  }

  lemma WithinBuffer(b: string, p: string, len: nat)
    requires len <= |b|
    ensures (b + p)[..len] == b[..len] && (b + p)[len..] == b[len..] + p
  {
  }

  lemma BeyondBuffer(b: string, p: string, len: nat)
    requires |b| <= len <= |b| + |p|
    ensures (b + p)[..len] == b + p[..len - |b|] && (b + p)[len..] == "" + p[len - |b|..]
  {
  }

  class Connection {
    const source: Source<char>
    var lineBuffer: string

    /** Everything not yet handed out. */
    ghost function Stream(): string
      reads this, source
    {
      lineBuffer + source.pending
    }

    constructor (bytes: string)
      ensures Stream() == bytes && fresh(source)
    {
      source := new Source(bytes);
      lineBuffer := "";
    }

    method ReadLine() returns (line: string)
      modifies this, source
      ensures (line, Stream()) == CutLine(old(Stream()))
    {
      ghost var stream := Stream();
      while true
        invariant Stream() == stream
        decreases |source.pending|
      {
        var pos := Find(lineBuffer, '\n');
        if pos < |lineBuffer| {
          FindInPrefix(lineBuffer, source.pending, '\n');
          line := lineBuffer[..pos];
          lineBuffer := lineBuffer[pos + 1..];
          return;
        }
        var data := source.Read(READ_BUFFER);
        if data == [] {
          assert stream == lineBuffer + "" == lineBuffer;
          if lineBuffer != "" {
            line := lineBuffer;
            lineBuffer := "";
            return;
          }
          return "";
        }
        lineBuffer := lineBuffer + data;
      }
    }

    method ReadExact(len: nat) returns (data: Option<string>)
      modifies this, source
      ensures data.Some? <==> len <= |old(Stream())|
      ensures data.Some? ==> data.value == old(Stream())[..len] && Stream() == old(Stream())[len..]
    {
      ghost var b, p := lineBuffer, source.pending;
      var out, remaining := "", len;
      if lineBuffer != "" {
        var avail := if remaining < |lineBuffer| then remaining else |lineBuffer|;
        out := lineBuffer[..avail];
        lineBuffer := lineBuffer[avail..];
        remaining := remaining - avail;
      }
      if remaining == 0 {
        WithinBuffer(b, p, len);
        return Some(out);
      }
      var rest := ReceiveAll(source, remaining);
      if rest.None? { return None; }
      BeyondBuffer(b, p, len);
      return Some(out + rest.value);
    }
  }

  // ---- the receive loop

  datatype Ending = EmptyHeader | ShortPayload | BadPayloadSize

  /** `std::stoull`: throws on a missing or overflowing number, ignores text after it. */
  function StoULL(s: string): Option<nat> {
    match ScanU64(s)
    case NoNumber => None
    case Number(v, overflow, _) => if overflow then None else Some(v)
  }

  /** The messages a stream stands for and why reading stops. */
  function Received(stream: string): (seq<Message>, Ending)
    decreases |stream|
  {
    var (line, rest) := CutLine(stream);
    if line == "" then ([], EmptyHeader)
    else
      match Decoded(line)
      case None => Received(rest)
      case Some(m) =>
        if PAYLOAD_SIZE !in m.fields then
          var (more, ending) := Received(rest);
          ([m] + more, ending)
        else
          match StoULL(m.fields[PAYLOAD_SIZE])
          case None => ([], BadPayloadSize)
          case Some(size) =>
            if size > |rest| then ([], ShortPayload)
            else
              var (more, ending) := Received(rest[size..]);
              ([m.(payload := rest[..size])] + more, ending)
  }

  datatype Step = Stop(ending: Ending) | Skip | Got(message: Message)

  /** One round of the receive loop. */
  method ReadMessage(conn: Connection) returns (step: Step)
    modifies conn, conn.source
    ensures !step.Stop? ==> |conn.Stream()| < |old(conn.Stream())|
    ensures Received(old(conn.Stream())) ==
            match step
            case Stop(ending) => ([], ending)
            case Skip => Received(conn.Stream())
            case Got(m) => ([m] + Received(conn.Stream()).0, Received(conn.Stream()).1)
  {
    var header := conn.ReadLine();
    if header == "" { return Stop(EmptyHeader); }
    var message := Decode(header);
    if message.None? { return Skip; }
    var m := message.value;
    if PAYLOAD_SIZE in m.fields {
      var size := StoULL(m.fields[PAYLOAD_SIZE]);
      if size.None? { return Stop(BadPayloadSize); }
      var payload := conn.ReadExact(size.value);
      if payload.None? { return Stop(ShortPayload); }
      m := m.(payload := payload.value);
    }
    return Got(m);
  }

  method ReadRuntime(conn: Connection) returns (handled: seq<Message>, ending: Ending)
    modifies conn, conn.source
    ensures (handled, ending) == Received(old(conn.Stream()))
  {
    hide Received;
    handled := [];
    ghost var goal := Received(conn.Stream());
    while true
      invariant goal.0 == handled + Received(conn.Stream()).0 && goal.1 == Received(conn.Stream()).1
      decreases |conn.Stream()|
    {
      var step := ReadMessage(conn);
      match step
      case Stop(e) =>
        assert handled + [] == handled;
        return handled, e;
      case Skip =>
      case Got(m) =>
        Associative(handled, [m], Received(conn.Stream()).0);
        handled := handled + [m];
    }
  }

  // ---- whole streams of messages

  /** A message as sent, with the order in which its field map is walked. */
  datatype Sent = Sent(message: Message, order: seq<string>)

  predicate NewlineFree(m: Message) {
    && '\n' !in m.msgType && '\n' !in m.vmId
    && forall k | k in m.fields :: '\n' !in k && '\n' !in m.fields[k]
  }

  predicate Sendable(s: Sent) {
    InRange(s.message) && |s.message.payload| < UINT64
    && forall i | 0 <= i < |s.order| :: s.order[i] in s.message.fields
  }

  /** What streaming demands beyond surviving: no newline in any text of the header, and a size field of
      one's own only if it is the payload's size. */
  predicate Streamable(s: Sent)
    requires Sendable(s)
  {
    var m := s.message;
    && Survives(m, s.order) && NewlineFree(m)
    && (PAYLOAD_SIZE in m.fields ==> StoULL(m.fields[PAYLOAD_SIZE]) == Some(|m.payload|))
  }

  /** The message as the handler gets it: its payload, announced by a size field. */
  function Delivered(m: Message): Message {
    Announced(m).(payload := m.payload)
  }

  lemma {:induction false} JoinWithout(tokens: seq<string>)
    requires tokens != [] && forall i | 0 <= i < |tokens| :: '\n' !in tokens[i]
    ensures '\n' !in Join(tokens)
  {
    if |tokens| > 1 { JoinWithout(tokens[1..]); }
  }

  predicate OneLine(pairs: seq<Pair>) {
    forall i | 0 <= i < |pairs| :: '\n' !in pairs[i].0 && '\n' !in pairs[i].1
  }

  lemma LineWithout(pairs: seq<Pair>)
    requires pairs != [] && OneLine(pairs)
    ensures '\n' !in Join(TokenSeq(pairs)) && Join(TokenSeq(pairs)) != ""
  {
    forall i | 0 <= i < |pairs|
      ensures '\n' !in TokenSeq(pairs)[i]
    {
      EscapedChars(pairs[i].0, '\n');
      EscapedChars(pairs[i].1, '\n');
    }
    JoinWithout(TokenSeq(pairs));
  }

  lemma FixedOneLine(m: Message)
    requires '\n' !in m.msgType && '\n' !in m.vmId
    ensures OneLine(FixedPairs(m))
  {
  }

  lemma CutAfter(line: string, rest: string)
    requires '\n' !in line
    ensures CutLine(line + "\n" + rest) == (line, rest)
  {
    var s := line + ['\n'] + rest;
    FindFirst(line, '\n', rest);
    assert s[..|line|] == line && s[|line| + 1..] == rest;
  }

  function LineOf(s: Sent): string
    requires Sendable(s)
  {
    Join(TokenSeq(FixedPairs(s.message) + ExtraPairs(s.message, s.order)))
  }

  lemma PairsOneLine(s: Sent)
    requires Sendable(s) && NewlineFree(s.message)
    ensures OneLine(FixedPairs(s.message) + ExtraPairs(s.message, s.order))
  {
    FixedOneLine(s.message);
    assert OneLine(FieldPairs(s.message.fields, s.order));
    assert OneLine(PayloadPairs(s.message.payload));
  }

  lemma DecodedWithBreak(line: string)
    ensures Decoded(line + "\n") == Decoded(line)
  {
    StripBreak(line);
  }

  lemma HeaderOneLine(s: Sent)
    requires Sendable(s) && NewlineFree(s.message)
    ensures '\n' !in LineOf(s) && LineOf(s) != ""
    ensures Decoded(LineOf(s)) == Decoded(Header(s.message, s.order))
  {
    PairsOneLine(s);
    LineWithout(FixedPairs(s.message) + ExtraPairs(s.message, s.order));
    DecodedWithBreak(LineOf(s));
  }

  /** What follows a decoded header: the payload it announces, then the rest of the stream. */
  function AfterHeader(m: Message, rest: string): (seq<Message>, Ending) {
    if PAYLOAD_SIZE !in m.fields then ([m] + Received(rest).0, Received(rest).1)
    else
      match StoULL(m.fields[PAYLOAD_SIZE])
      case None => ([], BadPayloadSize)
      case Some(size) =>
        if size > |rest| then ([], ShortPayload)
        else ([m.(payload := rest[..size])] + Received(rest[size..]).0, Received(rest[size..]).1)
  }

  lemma ReceivedHeader(line: string, rest: string)
    requires '\n' !in line && line != ""
    ensures Decoded(line).None? ==> Received(line + "\n" + rest) == Received(rest)
    ensures Decoded(line).Some? ==> Received(line + "\n" + rest) == AfterHeader(Decoded(line).value, rest)
  {
    CutAfter(line, rest);
  }

  lemma EncodingSplit(s: Sent, rest: string)
    requires Sendable(s)
    ensures Encoding(s.message, s.order) + rest == LineOf(s) + "\n" + (s.message.payload + rest)
  {
  }

  /** One streamable message at the front of the stream is received whole, whatever follows it. */
  lemma ReceivedOne(s: Sent, rest: string)
    requires Sendable(s) && IsOrder(s.order, s.message.fields) && Streamable(s)
    ensures Received(Encoding(s.message, s.order) + rest)
         == ([Delivered(s.message)] + Received(rest).0, Received(rest).1)
  {
    var m := s.message;
    EncodingSplit(s, rest);
    HeaderOneLine(s);
    HeaderRoundTrip(m, s.order);
    ReceivedHeader(LineOf(s), m.payload + rest);
    PayloadTaken(m, rest);
  }

  lemma PayloadTaken(m: Message, rest: string)
    requires |m.payload| < UINT64
    requires m.payload != "" && PAYLOAD_SIZE in m.fields ==> m.fields[PAYLOAD_SIZE] == Decimal(|m.payload|)
    requires PAYLOAD_SIZE in m.fields ==> StoULL(m.fields[PAYLOAD_SIZE]) == Some(|m.payload|)
    ensures AfterHeader(Announced(m), m.payload + rest) == ([Delivered(m)] + Received(rest).0, Received(rest).1)
  {
    ScanDecimal(|m.payload|);
    assert (m.payload + rest)[..|m.payload|] == m.payload && (m.payload + rest)[|m.payload|..] == rest;
    assert m.payload == "" ==> m.payload + rest == rest;
  }

  // ---- streamability is exact

  lemma {:induction false} TokensWithout(s: string, c: char)
    requires c !in s
    ensures forall t | t in Tokens(s) :: c !in t
  {
    if s != "" {
      var k := if s[0] == '\\' && |s| > 1 then 2 else 1;
      TokensWithout(s[k..], c);
      assert Tokens(s[k..])[0] in Tokens(s[k..]);
    }
  }

  lemma {:induction false} AbsorbedNewlineFree(m: Message, tokens: seq<string>)
    requires NewlineFree(m) && forall t | t in tokens :: '\n' !in t
    ensures var r := AbsorbTokens(m, tokens); r.Some? ==> NewlineFree(r.value)
    decreases |tokens|
  {
    if tokens != [] {
      assert tokens[0] in tokens;
      var sep := Find(tokens[0], '=');
      if sep == |tokens[0]| {
        AbsorbedNewlineFree(m, tokens[1..]);
      } else {
        UnescapedChars(tokens[0][..sep], '\n');
        UnescapedChars(tokens[0][sep + 1..], '\n');
        var m' := AbsorbPair(m, Unescaped(tokens[0][..sep]), Unescaped(tokens[0][sep + 1..]));
        if m'.Some? { AbsorbedNewlineFree(m'.value, tokens[1..]); }
      }
    }
  }

  lemma DecodedNewlineFree(line: string)
    requires '\n' !in line
    ensures Decoded(line).Some? ==> NewlineFree(Decoded(line).value)
  {
    TokensWithout(Strip(line), '\n');
    AbsorbedNewlineFree(DEFAULT_MESSAGE, Tokens(Strip(line)));
  }

  /** Whatever the stream, no received message has a newline in its header texts, and every payload is
      shorter than the stream. */
  lemma {:induction false} ReceivedShape(stream: string)
    ensures forall m | m in Received(stream).0 :: NewlineFree(m) && |m.payload| < |stream|
    decreases |stream|
  {
    var (line, rest) := CutLine(stream);
    if line != "" {
      DecodedShape(line);
      DecodedNewlineFree(line);
      ReceivedShape(rest);
      var m := Decoded(line);
      if m.Some? && PAYLOAD_SIZE in m.value.fields {
        var size := StoULL(m.value.fields[PAYLOAD_SIZE]);
        if size.Some? && size.value <= |rest| {
          ReceivedShape(rest[size.value..]);
        }
      }
    }
  }

  /** A message sent alone is received, whole and with nothing left over, exactly when it is streamable.
      (A message with a payload and a size field of its own that holds a newline is left out: cut at that
      newline, its header can by coincidence announce the right bytes.) */
  lemma StreamableIff(s: Sent)
    requires Sendable(s) && IsOrder(s.order, s.message.fields)
    requires s.message.payload != "" && PAYLOAD_SIZE in s.message.fields ==> '\n' !in s.message.fields[PAYLOAD_SIZE]
    ensures Received(Encoding(s.message, s.order)) == ([Delivered(s.message)], EmptyHeader) <==> Streamable(s)
  {
    AloneSplit(s);
    if Streamable(s) {
      ReceivedAlone(s);
    }
    if Received(LineOf(s) + "\n" + s.message.payload).0 == [Delivered(s.message)] {
      ReceivedImpliesStreamable(s);
    }
  }

  lemma AloneSplit(s: Sent)
    requires Sendable(s)
    ensures Encoding(s.message, s.order) == LineOf(s) + "\n" + s.message.payload
  {
  }

  lemma ReceivedAlone(s: Sent)
    requires Sendable(s) && IsOrder(s.order, s.message.fields) && Streamable(s)
    ensures Received(Encoding(s.message, s.order)) == ([Delivered(s.message)], EmptyHeader)
  {
    ReceivedOne(s, "");
    NothingFollows(Encoding(s.message, s.order), Delivered(s.message));
  }

  lemma NothingFollows(stream: string, m: Message)
    requires Received(stream + "") == ([m] + Received("").0, Received("").1)
    ensures Received(stream) == ([m], EmptyHeader)
  {
    ReceivedNothing();
    assert stream + "" == stream;
    assert [m] + [] == [m];
  }

  lemma ReceivedNothing()
    ensures Received("") == ([], EmptyHeader)
  {
  }

  lemma ReceivedImpliesStreamable(s: Sent)
    requires Sendable(s) && IsOrder(s.order, s.message.fields)
    requires s.message.payload != "" && PAYLOAD_SIZE in s.message.fields ==> '\n' !in s.message.fields[PAYLOAD_SIZE]
    requires Received(LineOf(s) + "\n" + s.message.payload).0 == [Delivered(s.message)]
    ensures Streamable(s)
  {
    ReceivedNewlineFree(s);
    HeaderOneLine(s);
    ReceivedHeader(LineOf(s), s.message.payload);
    ReceivedSurvives(s);
  }

  lemma ReceivedNewlineFree(s: Sent)
    requires Sendable(s)
    requires s.message.payload != "" && PAYLOAD_SIZE in s.message.fields ==> '\n' !in s.message.fields[PAYLOAD_SIZE]
    requires Received(LineOf(s) + "\n" + s.message.payload).0 == [Delivered(s.message)]
    ensures NewlineFree(s.message)
  {
    hide Received, LineOf;
    var m := s.message;
    var stream := LineOf(s) + "\n" + m.payload;
    ReceivedShape(stream);
    assert Delivered(m) in Received(stream).0;
    forall k | k in m.fields
      ensures '\n' !in k && '\n' !in m.fields[k]
    {
      if m.payload == "" || k != PAYLOAD_SIZE {
        assert k in Delivered(m).fields && Delivered(m).fields[k] == m.fields[k];
      }
    }
  }

  lemma ReceivedSurvives(s: Sent)
    requires Sendable(s) && IsOrder(s.order, s.message.fields)
    requires NewlineFree(s.message) && Decoded(LineOf(s)) == Decoded(Header(s.message, s.order))
    requires Decoded(LineOf(s)).None? ==> Received(s.message.payload).0 == [Delivered(s.message)]
    requires Decoded(LineOf(s)).Some? ==>
               AfterHeader(Decoded(LineOf(s)).value, s.message.payload).0 == [Delivered(s.message)]
    ensures Streamable(s)
  {
    var m := s.message;
    HeaderRoundTrip(m, s.order);
    DecodedShape(LineOf(s));
    NotInOwnPayload(m);
    var d := Decoded(LineOf(s));
    if d.Some? {
      SameAnnouncement(d.value, m);
    }
  }

  lemma NotInOwnPayload(m: Message)
    ensures Received(m.payload).0 != [Delivered(m)]
  {
    ReceivedShape(m.payload);
    var r := Received(m.payload).0;
    if |r| == 1 {
      assert r[0] in r;
    }
  }

  lemma SameAnnouncement(d: Message, m: Message)
    requires d.payload == "" && AfterHeader(d, m.payload).0 == [Delivered(m)]
    ensures d == Announced(m)
    ensures PAYLOAD_SIZE in d.fields ==> StoULL(d.fields[PAYLOAD_SIZE]) == Some(|m.payload|)
  {
    assert Delivered(m) == AfterHeader(d, m.payload).0[0];
    assert d == Delivered(m).(payload := "");
  }

  // ---- lists of messages

  ghost predicate Ready(s: Sent) {
    Sendable(s) && IsOrder(s.order, s.message.fields) && Streamable(s)
  }

  ghost function Wire(sent: seq<Sent>): string
    requires forall i | 0 <= i < |sent| :: Ready(sent[i])
  {
    if sent == [] then ""
    else
      assert Ready(sent[0]);
      Encoding(sent[0].message, sent[0].order) + Wire(sent[1..])
  }

  function DeliveredAll(sent: seq<Sent>): seq<Message> {
    if sent == [] then [] else [Delivered(sent[0].message)] + DeliveredAll(sent[1..])
  }

  /** Any list of streamable messages is received in order and whole, and the loop then stops at the end
      of the stream with nothing left over. `ReadRuntime` computes `Received` whatever the read sizes. */
  lemma {:induction false} ReceivedWire(sent: seq<Sent>)
    requires forall i | 0 <= i < |sent| :: Ready(sent[i])
    ensures Received(Wire(sent)) == (DeliveredAll(sent), EmptyHeader)
  {
    if sent != [] {
      var rest := Wire(sent[1..]);
      ReceivedWire(sent[1..]);
      assert Ready(sent[0]);
      ReceivedOne(sent[0], rest);
    }
  }

  // ---- a stream with noise in it

  /** A line that is no header, or a message. */
  datatype Item = Noise(line: string) | Whole(sent: Sent)

  ghost predicate GoodItem(i: Item) {
    match i
    case Noise(line) => line != "" && '\n' !in line && Decoded(line).None?
    case Whole(s) => Ready(s)
  }

  ghost function NoisyWire(items: seq<Item>): string
    requires forall i | 0 <= i < |items| :: GoodItem(items[i])
  {
    if items == [] then ""
    else
      assert GoodItem(items[0]);
      (match items[0] case Noise(line) => line + "\n" case Whole(s) => Encoding(s.message, s.order))
      + NoisyWire(items[1..])
  }

  function Messages(items: seq<Item>): seq<Message> {
    if items == [] then []
    else (if items[0].Whole? then [Delivered(items[0].sent.message)] else []) + Messages(items[1..])
  }

  /** Lines that decode to nothing are passed over, wherever they stand between the messages. */
  lemma {:induction false} ReceivedNoisyWire(items: seq<Item>)
    requires forall i | 0 <= i < |items| :: GoodItem(items[i])
    ensures Received(NoisyWire(items)) == (Messages(items), EmptyHeader)
  {
    hide Received, Decoded, Encoding;
    if items == [] {
      ReceivedNothing();
    } else {
      var rest := NoisyWire(items[1..]);
      ReceivedNoisyWire(items[1..]);
      assert GoodItem(items[0]);
      match items[0]
      case Noise(line) =>
        ReceivedHeader(line, rest);
        assert [] + Messages(items[1..]) == Messages(items[1..]);
      case Whole(s) =>
        ReceivedOne(s, rest);
    }
  }

  /** The loop stops at an empty line, at a size that is no number, and at a payload that is cut short; a message
      with a size gets that many bytes, and one without gets none. */
  lemma ReceivedEnds(line: string, rest: string)
    requires '\n' !in line
    ensures line == "" ==> Received(line + "\n" + rest) == ([], EmptyHeader)
    ensures line != "" && Decoded(line).Some? ==>
              var m, r := Decoded(line).value, Received(line + "\n" + rest);
              if PAYLOAD_SIZE !in m.fields then r == ([m] + Received(rest).0, Received(rest).1)
              else if StoULL(m.fields[PAYLOAD_SIZE]).None? then r == ([], BadPayloadSize)
              else
                var n := StoULL(m.fields[PAYLOAD_SIZE]).value;
                r == if n > |rest| then ([], ShortPayload)
                     else ([m.(payload := rest[..n])] + Received(rest[n..]).0, Received(rest[n..]).1)
  {
    hide Decoded, StoULL;
    CutAfter(line, rest);
    if line != "" { ReceivedHeader(line, rest); }
  }
}
